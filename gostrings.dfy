/** The parts of Go's `strings`, `regexp` and `fmt` packages that the bots use,
    written out on strings of runes (a Dafny `string` is a sequence of
    Unicode scalar values, which is what Go's range loops and regexps see). */
module GoStrings {

  // ---------------------------------------------------------------------
  // Prefixes, substrings, splitting and joining
  // ---------------------------------------------------------------------

  predicate HasPrefix(s: string, p: string)
  {
    |p| <= |s| && s[..|p|] == p
  }

  /** `p` occurs somewhere in `s`. */
  predicate Contains(s: string, p: string)
    decreases |s|
  {
    HasPrefix(s, p) || (|s| > 0 && Contains(s[1..], p))
  }

  /** strings.TrimPrefix */
  function TrimPrefix(s: string, p: string): (r: string)
    ensures HasPrefix(s, p) ==> s == p + r
    ensures !HasPrefix(s, p) ==> r == s
  {
    if HasPrefix(s, p) then s[|p|..] else s
  }

  /** Position of the first `c` in `s`. */
  function IndexOf(s: string, c: char): (i: nat)
    requires c in s
    ensures i < |s| && s[i] == c && c !in s[..i]
  {
    if s[0] == c then 0 else 1 + IndexOf(s[1..], c)
  }

  /** strings.Split with a one-character separator. */
  function Split(s: string, sep: char): (parts: seq<string>)
    ensures |parts| >= 1
    ensures forall i :: 0 <= i < |parts| ==> sep !in parts[i]
    decreases |s|
  {
    if sep !in s then [s]
    else
      var i := IndexOf(s, sep);
      [s[..i]] + Split(s[i + 1..], sep)
  }

  /** strings.Join */
  function Join(parts: seq<string>, sep: string): string
  {
    if |parts| == 0 then ""
    else if |parts| == 1 then parts[0]
    else parts[0] + sep + Join(parts[1..], sep)
  }

  /** Joining one more part adds the separator and the part at the end. */
  lemma {:induction false} JoinAppend(parts: seq<string>, last: string, sep: string)
    requires parts != []
    ensures Join(parts + [last], sep) == Join(parts, sep) + sep + last
    decreases |parts|
  {
    var all := parts + [last];
    assert all[1..] == parts[1..] + [last];
    if |parts| > 1 {
      JoinAppend(parts[1..], last, sep);
      ConcatAssoc4(parts[0], sep, Join(parts[1..], sep), sep + last);
    }
  }

  /** Four parts joined: each separated from the next by `sep`. */
  lemma JoinFour(a: string, b: string, c: string, d: string, sep: string)
    ensures Join([a, b, c, d], sep) == a + sep + b + sep + c + sep + d
  {
    var parts := [a, b, c, d];
    assert parts[1..] == [b, c, d];
    assert parts[1..][1..] == [c, d];
    assert parts[1..][1..][1..] == [d];
    assert Join(parts[1..][1..], sep) == c + sep + d;
    assert Join(parts[1..], sep) == b + sep + (c + sep + d);
  }

  /** Concatenation regrouped, stated once for the proofs that need it. */
  lemma ConcatAssoc(x: string, y: string, z: string)
    ensures x + y + z == x + (y + z)
  {
  }

  lemma ConcatAssoc4(w: string, x: string, y: string, z: string)
    ensures w + x + y + z == w + (x + y + z)
  {
  }

  /** Joining the pieces of a split with the separator gives the string back. */
  lemma {:induction false} JoinSplit(s: string, sep: char)
    ensures Join(Split(s, sep), [sep]) == s
    decreases |s|
  {
    if sep in s {
      var i := IndexOf(s, sep);
      var rest := s[i + 1..];
      JoinSplit(rest, sep);
      assert Split(s, sep) == [s[..i]] + Split(rest, sep);
      assert s == s[..i] + [sep] + rest;
    }
  }

  /** The first piece of a split (what `strings.Split(s, "/")[0]` and
      `strings.SplitN(s, "/", 2)[0]` return): the longest prefix without `sep`. */
  lemma SplitHead(s: string, sep: char)
    ensures sep !in s ==> Split(s, sep)[0] == s
    ensures sep in s ==> Split(s, sep)[0] == s[..IndexOf(s, sep)]
    ensures HasPrefix(s, Split(s, sep)[0])
  {
  }

  // ---------------------------------------------------------------------
  // strings.ReplaceAll
  // ---------------------------------------------------------------------

  /** strings.ReplaceAll for a non-empty pattern: leftmost, non-overlapping. */
  function ReplaceAll(s: string, pat: string, rep: string): string
    requires pat != []
    decreases |s|
  {
    if |s| < |pat| then s
    else if s[..|pat|] == pat then rep + ReplaceAll(s[|pat|..], pat, rep)
    else [s[0]] + ReplaceAll(s[1..], pat, rep)
  }

  /** Replacing a pattern that does not occur changes nothing. */
  lemma {:induction false} ReplaceAllAbsent(s: string, pat: string, rep: string)
    requires pat != [] && !Contains(s, pat)
    ensures ReplaceAll(s, pat, rep) == s
    decreases |s|
  {
    if |s| >= |pat| {
      assert !HasPrefix(s, pat);
      ReplaceAllAbsent(s[1..], pat, rep);
    }
  }

  /** Replacing a pattern by itself changes nothing. */
  lemma {:induction false} ReplaceAllSame(s: string, pat: string)
    requires pat != []
    ensures ReplaceAll(s, pat, pat) == s
    decreases |s|
  {
    if |s| >= |pat| {
      if s[..|pat|] == pat {
        ReplaceAllSame(s[|pat|..], pat);
        assert s == s[..|pat|] + s[|pat|..];
      } else {
        ReplaceAllSame(s[1..], pat);
        assert s == [s[0]] + s[1..];
      }
    }
  }

  /** Replacing one character by another maps the string rune by rune. */
  lemma {:induction false} ReplaceCharAt(s: string, c: char, d: char)
    ensures |ReplaceAll(s, [c], [d])| == |s|
    ensures forall k :: 0 <= k < |s| ==>
      ReplaceAll(s, [c], [d])[k] == (if s[k] == c then d else s[k])
    decreases |s|
  {
    if |s| > 0 {
      ReplaceCharAt(s[1..], c, d);
      assert s[..1] == [s[0]];
      var r := ReplaceAll(s, [c], [d]);
      assert r == [if s[0] == c then d else s[0]] + ReplaceAll(s[1..], [c], [d]);
    }
  }

  /** After replacing every `c` by a `d` that differs from it, no `c` is left. */
  lemma ReplaceCharRemoves(s: string, c: char, d: char)
    requires c != d
    ensures c !in ReplaceAll(s, [c], [d])
  {
    ReplaceCharAt(s, c, d);
  }

  // ---------------------------------------------------------------------
  // strings.TrimSpace
  // ---------------------------------------------------------------------

  /** unicode.IsSpace: the Unicode White_Space characters. */
  predicate IsSpace(c: char)
  {
    c == '\t' || c == '\n' || c == '\U{b}' || c == '\U{c}' || c == '\r' || c == ' '
    || c == '\U{85}' || c == '\U{a0}' || c == '\U{1680}'
    || ('\U{2000}' <= c <= '\U{200a}')
    || c == '\U{2028}' || c == '\U{2029}' || c == '\U{202f}' || c == '\U{205f}' || c == '\U{3000}'
  }

  function TrimLeftSpace(s: string): (r: string)
    ensures |r| <= |s| && r == s[|s| - |r|..]
    ensures |r| > 0 ==> !IsSpace(r[0])
    ensures forall k :: 0 <= k < |s| - |r| ==> IsSpace(s[k])
  {
    if |s| > 0 && IsSpace(s[0]) then TrimLeftSpace(s[1..]) else s
  }

  function TrimRightSpace(s: string): (r: string)
    ensures |r| <= |s| && r == s[..|r|]
    ensures |r| > 0 ==> !IsSpace(r[|r| - 1])
    ensures forall k :: |r| <= k < |s| ==> IsSpace(s[k])
  {
    if |s| > 0 && IsSpace(s[|s| - 1]) then TrimRightSpace(s[..|s| - 1]) else s
  }

  /** strings.TrimSpace: the result is the part of `s` between its leading
      and its trailing white space, and begins and ends with something else. */
  function TrimSpace(s: string): (r: string)
    ensures Infix(r, s, |s| - |TrimLeftSpace(s)|)
    ensures |r| > 0 ==> !IsSpace(r[0]) && !IsSpace(r[|r| - 1])
    ensures forall k :: 0 <= k < |s| - |TrimLeftSpace(s)| ==> IsSpace(s[k])
    ensures forall k :: |s| - |TrimLeftSpace(s)| + |r| <= k < |s| ==> IsSpace(s[k])
  {
    TrimSpaceParts(s);
    TrimRightSpace(TrimLeftSpace(s))
  }

  /** The facts behind TrimSpace's contract, by index. */
  lemma TrimSpaceParts(s: string)
    ensures var l := TrimLeftSpace(s);
            var r := TrimRightSpace(l);
            && Infix(r, s, |s| - |l|)
            && forall k :: |s| - |l| + |r| <= k < |s| ==> IsSpace(s[k])
  {
    var l := TrimLeftSpace(s);
    TrimSpacePartsOf(s, l, TrimRightSpace(l));
  }

  lemma TrimSpacePartsOf(s: string, l: string, r: string)
    requires |l| <= |s| && l == s[|s| - |l|..]
    requires |r| <= |l| && r == l[..|r|]
    requires forall k :: |r| <= k < |l| ==> IsSpace(l[k])
    ensures Infix(r, s, |s| - |l|)
    ensures forall k :: |s| - |l| + |r| <= k < |s| ==> IsSpace(s[k])
  {
    var d := |s| - |l|;
    assert s[d..d + |r|] == r;
    ShiftedSpaces(s, l, d, |r|);
  }

  /** Spaces at the end of a suffix are spaces at the end of the whole. */
  lemma ShiftedSpaces(s: string, l: string, d: nat, n: nat)
    requires d + |l| == |s| && l == s[d..] && n <= |l|
    requires forall k :: n <= k < |l| ==> IsSpace(l[k])
    ensures forall k :: d + n <= k < |s| ==> IsSpace(s[k])
  {
    forall k | d + n <= k < |s|
      ensures IsSpace(s[k])
    {
      assert s[k] == l[k - d];
    }
  }

  /** `r` occurs in `s` at position `i`. */
  predicate Infix(r: string, s: string, i: nat)
  {
    i + |r| <= |s| && s[i..i + |r|] == r
  }

  // ---------------------------------------------------------------------
  // regexp.QuoteMeta
  // ---------------------------------------------------------------------

  /** The characters regexp.QuoteMeta escapes. */
  predicate IsRegexMeta(c: char)
  {
    c in "\\.+*?()|[]{}^$"
  }

  function QuoteRune(c: char): string
  {
    if IsRegexMeta(c) then ['\\', c] else [c]
  }

  /** regexp.QuoteMeta: a backslash before every metacharacter. */
  function QuoteMeta(s: string): string
  {
    if s == [] then [] else QuoteRune(s[0]) + QuoteMeta(s[1..])
  }

  /** Each name quoted for a regex. */
  function QuoteAll(names: seq<string>): (r: seq<string>)
    ensures |r| == |names| && forall k :: 0 <= k < |names| ==> r[k] == QuoteMeta(names[k])
  {
    if names == [] then [] else [QuoteMeta(names[0])] + QuoteAll(names[1..])
  }

  lemma QuoteAllAppend(names: seq<string>, last: string)
    ensures QuoteAll(names + [last]) == QuoteAll(names) + [QuoteMeta(last)]
  {
    var r := QuoteAll(names + [last]);
    assert forall k :: 0 <= k < |r| ==> r[k] == (QuoteAll(names) + [QuoteMeta(last)])[k];
  }

  /** Reads an escaped literal back: a backslash takes the next rune literally. */
  function UnquoteMeta(s: string): string
  {
    if s == [] then []
    else if s[0] == '\\' && |s| >= 2 then [s[1]] + UnquoteMeta(s[2..])
    else [s[0]] + UnquoteMeta(s[1..])
  }

  /** A quoted literal reads back as the text it quotes. */
  lemma {:induction false} QuoteMetaRoundTrip(s: string)
    ensures UnquoteMeta(QuoteMeta(s)) == s
  {
    if s != [] {
      QuoteMetaRoundTrip(s[1..]);
      var q := QuoteMeta(s);
      assert q == QuoteRune(s[0]) + QuoteMeta(s[1..]);
      if IsRegexMeta(s[0]) {
        assert q[0] == '\\' && q[1] == s[0] && q[2..] == QuoteMeta(s[1..]);
      } else {
        assert s[0] != '\\';
        assert q[0] == s[0] && q[1..] == QuoteMeta(s[1..]);
      }
    }
  }

  /** Every metacharacter of a quoted literal is preceded by a backslash that
      is not itself escaped, so the literal contains no live operator. */
  predicate AllEscaped(q: string)
    decreases |q|
  {
    q == []
    || (q[0] == '\\' && |q| >= 2 && IsRegexMeta(q[1]) && AllEscaped(q[2..]))
    || (!IsRegexMeta(q[0]) && AllEscaped(q[1..]))
  }

  lemma {:induction false} QuoteMetaEscapesAll(s: string)
    ensures AllEscaped(QuoteMeta(s))
  {
    if s != [] {
      QuoteMetaEscapesAll(s[1..]);
      var q := QuoteMeta(s);
      assert q == QuoteRune(s[0]) + QuoteMeta(s[1..]);
      if IsRegexMeta(s[0]) {
        assert q[2..] == QuoteMeta(s[1..]);
      } else {
        assert q[1..] == QuoteMeta(s[1..]);
      }
    }
  }

  // ---------------------------------------------------------------------
  // Replacement templates: `strings.ReplaceAll(x, "$", "$$")` and
  // regexp's Expand
  // ---------------------------------------------------------------------

  /** Doubles every `$`, so that the text reads literally in a replacement template. */
  function EscapeDollars(s: string): (r: string)
  {
    if s == [] then [] else EscapeChar(s[0]) + EscapeDollars(s[1..])
  }

  /** One character of EscapeDollars. */
  function EscapeChar(c: char): string
  {
    if c == '$' then "$$" else [c]
  }

  lemma {:induction false} EscapeDollarsAppend(a: string, b: string)
    ensures EscapeDollars(a + b) == EscapeDollars(a) + EscapeDollars(b)
  {
    if a == [] {
      assert a + b == b;
    } else {
      assert (a + b)[0] == a[0];
      assert (a + b)[1..] == a[1..] + b;
      EscapeDollarsAppend(a[1..], b);
      var h := EscapeChar(a[0]);
      calc {
        EscapeDollars(a + b);
        h + EscapeDollars(a[1..] + b);
        h + (EscapeDollars(a[1..]) + EscapeDollars(b));
        (h + EscapeDollars(a[1..])) + EscapeDollars(b);
        EscapeDollars(a) + EscapeDollars(b);
      }
    }
  }

  /** The `$`→`$$` escape written as strings.ReplaceAll, as the bot writes it. */
  lemma {:induction false} EscapeDollarsIsReplaceAll(s: string)
    ensures EscapeDollars(s) == ReplaceAll(s, "$", "$$")
  {
    if s != [] {
      EscapeDollarsIsReplaceAll(s[1..]);
      assert s[..1] == [s[0]];
    }
  }

  predicate IsNameChar(c: char)
  {
    ('a' <= c <= 'z') || ('A' <= c <= 'Z') || ('0' <= c <= '9') || c == '_'
  }

  /** Number of name characters in `t` from position `from` on. */
  function NameLength(t: string, from: nat): (n: nat)
    requires from <= |t|
    ensures from + n <= |t|
    decreases |t| - from
  {
    if from < |t| && IsNameChar(t[from]) then 1 + NameLength(t, from + 1) else 0
  }

  predicate IsDigit(c: char)
  {
    '0' <= c <= '9'
  }

  predicate AllDigits(s: string)
  {
    forall k :: 0 <= k < |s| ==> IsDigit(s[k])
  }

  function DigitsValue(s: string): nat
    requires AllDigits(s)
  {
    if s == [] then 0 else DigitsValue(s[..|s| - 1]) * 10 + (s[|s| - 1] as int - '0' as int)
  }

  /** The text a group reference `$name` stands for: a decimal number (with
      no leading zero) names a group by index; missing groups and names
      give the empty string. */
  function GroupText(name: string, groups: seq<string>): string
  {
    if name != [] && AllDigits(name) && (name[0] != '0' || |name| == 1)
       && DigitsValue(name) < |groups|
    then groups[DigitsValue(name)]
    else ""
  }

  /** regexp's Expand: `$$` is a literal `$`; `$name` and `${name}` insert a group;
      a `$` that starts neither is copied as it is. */
  function Expand(t: string, groups: seq<string>): string
    decreases |t|
  {
    if t == [] then []
    else if t[0] != '$' then [t[0]] + Expand(t[1..], groups)
    else if |t| >= 2 && t[1] == '$' then "$" + Expand(t[2..], groups)
    else
      var braced := |t| >= 2 && t[1] == '{';
      var start := if braced then 2 else 1;
      var n := NameLength(t, start);
      if n == 0 || (braced && (start + n == |t| || t[start + n] != '}')) then
        "$" + Expand(t[1..], groups)
      else
        var stop := if braced then start + n + 1 else start + n;
        GroupText(t[start..start + n], groups) + Expand(t[stop..], groups)
  }

  lemma ExpandLiteral(c: char, rest: string, groups: seq<string>)
    requires c != '$'
    ensures Expand([c] + rest, groups) == [c] + Expand(rest, groups)
  {
    assert ([c] + rest)[1..] == rest;
  }

  lemma ExpandDoubledDollar(rest: string, groups: seq<string>)
    ensures Expand("$$" + rest, groups) == "$" + Expand(rest, groups)
  {
    assert ("$$" + rest)[2..] == rest;
  }

  /** Text escaped with EscapeDollars expands to itself, whatever follows it. */
  lemma {:induction false} ExpandEscaped(x: string, y: string, groups: seq<string>)
    ensures Expand(EscapeDollars(x) + y, groups) == x + Expand(y, groups)
  {
    if x == [] {
      assert EscapeDollars(x) + y == y;
    } else {
      var tail := EscapeDollars(x[1..]);
      ConcatAssoc(EscapeChar(x[0]), tail, y);
      ExpandEscapedChar(x[0], tail + y, groups);
      ExpandEscaped(x[1..], y, groups);
      ConcatAssoc([x[0]], x[1..], Expand(y, groups));
      assert [x[0]] + x[1..] == x;
    }
  }

  /** An escaped character expands to itself, whatever follows it. */
  lemma ExpandEscapedChar(c: char, rest: string, groups: seq<string>)
    ensures Expand(EscapeChar(c) + rest, groups) == [c] + Expand(rest, groups)
  {
    if c == '$' {
      ExpandDoubledDollar(rest, groups);
    } else {
      ExpandLiteral(c, rest, groups);
    }
  }

  /** The round trip of the `$$` escape through Expand. */
  lemma ExpandEscapeDollars(x: string, groups: seq<string>)
    ensures Expand(EscapeDollars(x), groups) == x
  {
    ExpandEscaped(x, [], groups);
    assert EscapeDollars(x) + [] == EscapeDollars(x);
  }

  /** What `${1}...${2}` and `$1...` expand to. */
  lemma ExpandGroupRef(digit: char, rest: string, groups: seq<string>, braced: bool)
    requires '1' <= digit <= '9'
    requires !braced ==> rest == [] || !IsNameChar(rest[0])
    ensures var t := if braced then "${" + [digit] + "}" + rest else "$" + [digit] + rest;
            Expand(t, groups) ==
              (if digit as int - '0' as int < |groups| then groups[digit as int - '0' as int] else "")
              + Expand(rest, groups)
  {
    var t := if braced then "${" + [digit] + "}" + rest else "$" + [digit] + rest;
    var start := if braced then 2 else 1;
    assert t[start] == digit;
    assert NameLength(t, start + 1) == 0;
    assert NameLength(t, start) == 1;
    assert t[start..start + 1] == [digit];
    assert DigitsValue([digit]) == digit as int - '0' as int by {
      assert [digit][..0] == [];
    }
    if braced {
      assert t[4..] == rest;
    } else {
      assert t[2..] == rest;
    }
  }

  // ---------------------------------------------------------------------
  // fmt's %d for the non-negative counts the bots print
  // ---------------------------------------------------------------------

  function DigitChar(d: nat): char
    requires d < 10
  {
    ('0' as int + d) as char
  }

  /** The decimal digits of `n`, without leading zeros. */
  function DecimalString(n: nat): (s: string)
    ensures |s| >= 1 && AllDigits(s)
    decreases n
  {
    if n < 10 then [DigitChar(n)] else DecimalString(n / 10) + [DigitChar(n % 10)]
  }

  /** Reading the printed digits back gives the number. */
  lemma {:induction false} DecimalStringRoundTrip(n: nat)
    ensures DigitsValue(DecimalString(n)) == n
    ensures DecimalString(n)[0] != '0' || n == 0
    decreases n
  {
    var s := DecimalString(n);
    if n < 10 {
      assert s[..0] == [];
    } else {
      DecimalStringRoundTrip(n / 10);
      assert s[..|s| - 1] == DecimalString(n / 10);
    }
  }

  // ---------------------------------------------------------------------
  // strings.Builder
  // ---------------------------------------------------------------------

  /** What a fresh builder holds after two, three or seven writes. */
  lemma EmptyThenTwo(x: string, y: string)
    ensures [] + x + y == x + y
  {
  }

  lemma EmptyThenThree(x: string, y: string, z: string)
    ensures [] + x + y + z == x + y + z
  {
  }

  lemma EmptyThenSeven(a: string, b: string, c: string, d: string, e: string, f: string, g: string)
    ensures [] + a + b + c + d + e + f + g == a + b + c + d + e + f + g
  {
  }

  /** strings.Builder: text that only grows at its end. */
  class Builder {
    var contents: string

    constructor ()
      ensures contents == []
    {
      contents := [];
    }

    method WriteString(s: string)
      modifies this
      ensures contents == old(contents) + s
    {
      contents := contents + s;
    }
  }
}
