/** How the pruner turns a captured username into the names it looks up:
    the root before any `/`, and `usernameCase` (pruner/prune.go:287-302). */
module Username {
  import opened GoStrings

  /** The root of a captured username, `strings.Split(u, "/")[0]`: everything
      before the first `/`. */
  function RootName(capture: string): (r: string)
    ensures '/' !in r && HasPrefix(capture, r)
    ensures '/' !in capture ==> r == capture
    ensures '/' in capture ==> capture[|r|] == '/'
  {
    SplitHead(capture, '/');
    Split(capture, '/')[0]
  }

  /** The two sources of upper-casing the pruner consults: its own override
      table (`charReplaceUpcase`) and `unicode.ToUpper`. */
  datatype Casing = Casing(overrides: map<char, char>, toUpper: char -> char)

  /** What the first rune becomes: the override table wins over ToUpper. */
  function Upcase(c: char, casing: Casing): char
  {
    if c in casing.overrides then casing.overrides[c] else casing.toUpper(c)
  }

  /** utf8.RuneError, U+FFFD. */
  const RuneError: char := '\U{FFFD}'

  /** Number of bytes of the UTF-8 encoding of `c`. */
  function Utf8Length(c: char): nat
  {
    if c as int < 0x80 then 1 else if c as int < 0x800 then 2 else if c as int < 0x10000 then 3 else 4
  }

  /** utf8.DecodeRuneInString on a well-formed string: the first rune and its
      encoded length, or (RuneError, 0) for the empty string. */
  function DecodeFirstRune(s: string): (r: (char, nat))
    ensures s == [] <==> r.1 == 0
    ensures s != [] ==> r.0 == s[0] && r.1 >= 1
  {
    if s == [] then (RuneError, 0) else (s[0], Utf8Length(s[0]))
  }

  /** `_` becomes a space; everything else stays. */
  function SpaceFor(c: char): char
  {
    if c == '_' then ' ' else c
  }

  /** usernameCase: upper-case the first rune, then turn underscores into spaces.
      Only the first rune changes case; the length does not change. */
  function UsernameCase(s: string, casing: Casing): (r: string)
    ensures |r| == |s|
    ensures s == [] ==> r == []
    ensures '_' !in r
    ensures s != [] ==> r[0] == SpaceFor(Upcase(s[0], casing))
    ensures forall k :: 1 <= k < |s| ==> r[k] == SpaceFor(s[k])
  {
    var (first, size) := DecodeFirstRune(s);
    var cased :=
      if first != RuneError || size > 1 then
        var upcase := Upcase(first, casing);
        if upcase != first then [upcase] + s[1..] else s
      else s;
    ReplaceCharAt(cased, '_', ' ');
    ReplaceCharRemoves(cased, '_', ' ');
    ReplaceAll(cased, "_", " ")
  }

  /** Casing tables under which upper-casing an upper-cased rune changes
      nothing and a space stays a space. */
  ghost predicate StableCasing(casing: Casing)
  {
    (forall c :: Upcase(Upcase(c, casing), casing) == Upcase(c, casing))
    && Upcase(' ', casing) == ' '
  }

  /** Normalising twice is normalising once, for a stable casing table. */
  lemma UsernameCaseIdempotent(s: string, casing: Casing)
    requires StableCasing(casing)
    ensures UsernameCase(UsernameCase(s, casing), casing) == UsernameCase(s, casing)
  {
    var once := UsernameCase(s, casing);
    var twice := UsernameCase(once, casing);
    if s != [] {
      assert Upcase(Upcase(s[0], casing), casing) == Upcase(s[0], casing);
      forall k | 0 <= k < |s| ensures twice[k] == once[k] {
        assert '_' !in once;
        if k == 0 {
          assert once[0] != '_';
        }
      }
    }
  }
}
