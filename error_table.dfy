/** The feedback request service's error report (frs/errorTableBuilder.go):
    a map from page titles to error messages written out as a wikitable,
    one row per page in ascending title order. */
module ErrorTable {
  import opened GoStrings

  // ---------------------------------------------------------------------
  // The order sort.Strings uses
  // ---------------------------------------------------------------------

  /** Lexicographic order on code points: a proper prefix comes first,
      otherwise the first differing rune decides. */
  predicate Less(a: string, b: string)
  {
    if a == [] then b != []
    else if b == [] then false
    else if a[0] != b[0] then a[0] < b[0]
    else Less(a[1..], b[1..])
  }

  predicate LessEq(a: string, b: string)
  {
    a == b || Less(a, b)
  }

  lemma {:induction false} LessIrreflexive(a: string)
    ensures !Less(a, a)
    decreases |a|
  {
    if a != [] {
      LessIrreflexive(a[1..]);
    }
  }

  lemma {:induction false} LessTransitive(a: string, b: string, c: string)
    requires Less(a, b) && Less(b, c)
    ensures Less(a, c)
    decreases |a|
  {
    if a != [] && b != [] && c != [] && a[0] == b[0] && b[0] == c[0] {
      LessTransitive(a[1..], b[1..], c[1..]);
    }
  }

  lemma {:induction false} LessTotal(a: string, b: string)
    ensures a == b || Less(a, b) || Less(b, a)
    decreases |a|
  {
    if a != [] && b != [] && a[0] == b[0] {
      LessTotal(a[1..], b[1..]);
      if a[1..] == b[1..] {
        assert a == [a[0]] + a[1..] && b == [b[0]] + b[1..];
      }
    }
  }

  lemma LessAsymmetric(a: string, b: string)
    requires Less(a, b)
    ensures !Less(b, a) && a != b
  {
    LessIrreflexive(a);
    if Less(b, a) {
      LessTransitive(a, b, a);
    }
  }

  lemma LessEqTransitive(a: string, b: string, c: string)
    requires LessEq(a, b) && LessEq(b, c)
    ensures LessEq(a, c)
  {
    if Less(a, b) && Less(b, c) {
      LessTransitive(a, b, c);
    }
  }

  /** Every pair in order; what sort.Strings guarantees. */
  ghost predicate SortedLe(s: seq<string>)
  {
    forall p, q :: 0 <= p < q < |s| ==> LessEq(s[p], s[q])
  }

  /** Every pair strictly in order: sorted with no repetition. */
  ghost predicate StrictlySorted(s: seq<string>)
  {
    forall p, q :: 0 <= p < q < |s| ==> Less(s[p], s[q])
  }

  // ---------------------------------------------------------------------
  // The sorted keys
  // ---------------------------------------------------------------------

  /** `k` is in `s` and no element of `s` comes before it. */
  ghost predicate IsLeast(k: string, s: set<string>)
  {
    k in s && forall j :: j in s ==> LessEq(k, j)
  }

  lemma {:induction false} LeastExists(s: set<string>)
    requires s != {}
    ensures exists k :: IsLeast(k, s)
    decreases |s|
  {
    var x :| x in s;
    var rest := s - {x};
    if rest == {} {
      assert s == {x};
      assert IsLeast(x, s);
    } else {
      LeastExists(rest);
      var m :| IsLeast(m, rest);
      LessTotal(x, m);
      if Less(x, m) {
        forall j | j in s ensures LessEq(x, j) {
          if j != x {
            assert j in rest;
            LessEqTransitive(x, m, j);
          }
        }
        assert IsLeast(x, s);
      } else {
        forall j | j in s ensures LessEq(m, j) {
          if j != x {
            assert j in rest;
          }
        }
        assert IsLeast(m, s);
      }
    }
  }

  /** The keys in ascending order, each once. */
  ghost function SortedKeys(s: set<string>): (r: seq<string>)
    ensures StrictlySorted(r)
    ensures forall k :: k in r <==> k in s
    ensures |r| == |s|
    decreases |s|
  {
    if s == {} then []
    else
      LeastExists(s);
      var k :| IsLeast(k, s);
      var rest := SortedKeys(s - {k});
      LeastThenSorted(k, s, rest);
      [k] + rest
  }

  /** The least key of `s` put before the sorted rest keeps the order strict. */
  lemma LeastThenSorted(k: string, s: set<string>, rest: seq<string>)
    requires IsLeast(k, s) && StrictlySorted(rest)
    requires forall x :: x in rest <==> x in s - {k}
    ensures StrictlySorted([k] + rest)
  {
    var r := [k] + rest;
    forall p, q | 0 <= p < q < |r| ensures Less(r[p], r[q]) {
      assert r[q] == rest[q - 1] && r[q] in s - {k};
      if p > 0 {
        assert r[p] == rest[p - 1];
      }
    }
  }

  /** Two strictly sorted sequences with the same elements are the same
      sequence: the ascending order leaves no choice. */
  lemma {:induction false} SortedUnique(a: seq<string>, b: seq<string>)
    requires StrictlySorted(a) && StrictlySorted(b)
    requires forall k :: k in a <==> k in b
    ensures a == b
    decreases |a|
  {
    assert |a| > 0 ==> a[0] in a;
    assert |b| > 0 ==> b[0] in b;
    if a != [] && b != [] {
      if a[0] != b[0] {
        assert a[0] in b;
        var j :| 0 <= j < |b| && b[j] == a[0];
        assert b[0] in a;
        var i :| 0 <= i < |a| && a[i] == b[0];
        assert Less(b[0], a[0]) && Less(a[0], b[0]);
        LessAsymmetric(a[0], b[0]);
      }
      assert StrictlySorted(a[1..]) && StrictlySorted(b[1..]);
      forall k ensures k in a[1..] <==> k in b[1..] {
        if k in a[1..] {
          var i :| 1 <= i < |a| && a[i] == k;
          LessAsymmetric(a[0], a[i]);
          assert k in b && k != b[0];
          var j :| 0 <= j < |b| && b[j] == k;
          assert j != 0;
          assert b[1..][j - 1] == k;
        }
        if k in b[1..] {
          var j :| 1 <= j < |b| && b[j] == k;
          LessAsymmetric(b[0], b[j]);
          assert k in a && k != a[0];
          var i :| 0 <= i < |a| && a[i] == k;
          assert i != 0;
          assert a[1..][i - 1] == k;
        }
      }
      SortedUnique(a[1..], b[1..]);
      assert a == [a[0]] + a[1..] && b == [b[0]] + b[1..];
    }
  }

  // ---------------------------------------------------------------------
  // The table
  // ---------------------------------------------------------------------

  const NoErrors: string := "No errors encountered."

  const Description: string :=
    "This page keeps track of the latest errors that SodiumBot during running the [[WP:FRS|Feedback request service]] job.\n\n"

  /** The description line and the three header lines. */
  const Header: string := Description + TableOpening + PageColumn + ErrorColumn

  const TableOpening: string := "{| class=\"wikitable sortable\"\n"

  const PageColumn: string := "! Page\n"

  const ErrorColumn: string := "! Error\n"

  const TableEnd: string := "|}"

  /** One row block: the separator, the page as a link, the error as
      unformatted code. */
  function Row(page: string, err: string): (r: string)
    ensures HasPrefix(r, "|-\n| [[" + page + "]]\n")
  {
    var head := "|-\n" + ("| [[" + page + "]]\n");
    var r := head + ("| <code><nowiki>" + err + "</nowiki></code>\n");
    assert r[..|head|] == head;
    assert "|-\n| [[" + page + "]]\n" == head;
    r
  }

  /** The row blocks of `keys`, in that order. */
  function Rows(errors: map<string, string>, keys: seq<string>): string
    requires forall k :: k in keys ==> k in errors
  {
    if keys == [] then ""
    else Rows(errors, keys[..|keys| - 1]) + Row(keys[|keys| - 1], errors[keys[|keys| - 1]])
  }

  /** What buildErrorTable returns for `errors`. */
  ghost function Table(errors: map<string, string>): (r: string)
    ensures errors == map[] ==> r == NoErrors
    ensures errors != map[] ==> HasPrefix(r, Header)
    ensures errors != map[] ==> |r| >= |TableEnd| && r[|r| - |TableEnd|..] == TableEnd
  {
    if errors == map[] then NoErrors
    else
      var r := Header + Rows(errors, SortedKeys(errors.Keys)) + TableEnd;
      assert r[..|Header|] == Header;
      assert r[|r| - |TableEnd|..] == TableEnd;
      r
  }

  // ---------------------------------------------------------------------
  // buildErrorTable
  // ---------------------------------------------------------------------

  /** sort.Strings, here an insertion sort in place. */
  method SortStrings(a: array<string>)
    modifies a
    ensures SortedLe(a[..])
    ensures multiset(a[..]) == multiset(old(a[..]))
  {
    var i := 0;
    while i < a.Length
      invariant 0 <= i <= a.Length
      invariant SortedLe(a[..i])
      invariant multiset(a[..]) == multiset(old(a[..]))
    {
      InsertAt(a, i);
      i := i + 1;
    }
    assert a[..a.Length] == a[..];
  }

  /** One step of the insertion sort: `a[i]` moved down into the sorted
      prefix `a[..i]` until the prefix through `i` is sorted. */
  method InsertAt(a: array<string>, i: nat)
    requires i < a.Length && SortedLe(a[..i])
    modifies a
    ensures SortedLe(a[..i + 1])
    ensures multiset(a[..]) == multiset(old(a[..]))
  {
    var j := i;
    while j > 0 && Less(a[j], a[j - 1])
      invariant 0 <= j <= i
      invariant forall p, q :: 0 <= p < q <= i && q != j ==> LessEq(a[p], a[q])
      invariant multiset(a[..]) == multiset(old(a[..]))
    {
      a[j - 1], a[j] := a[j], a[j - 1];
      j := j - 1;
    }
    if j > 0 {
      LessTotal(a[j], a[j - 1]);
      forall p | 0 <= p < j ensures LessEq(a[p], a[j]) {
        LessEqTransitive(a[p], a[j - 1], a[j]);
      }
    }
  }

  /** The keys of `errors` in some order, each once (the range loop over a
      map, whose order Go leaves unspecified). */
  method CollectKeys(errors: map<string, string>) returns (keys: seq<string>)
    ensures forall k :: k in keys <==> k in errors
    ensures |keys| == |errors|
  {
    keys := [];
    var remaining := errors.Keys;
    while remaining != {}
      invariant forall k :: k in errors <==> (k in keys || k in remaining)
      invariant forall k :: k in keys ==> k !in remaining
      invariant remaining <= errors.Keys
      invariant |keys| + |remaining| == |errors|
      decreases |remaining|
    {
      var k :| k in remaining;
      keys := keys + [k];
      remaining := remaining - {k};
    }
  }

  /** The keys slice: appended in map order, then sorted in place. */
  method SortKeys(errors: map<string, string>) returns (sorted: seq<string>)
    ensures sorted == SortedKeys(errors.Keys)
  {
    var collected := CollectKeys(errors);
    var keys := new string[|collected|](i requires 0 <= i < |collected| => collected[i]);
    assert keys[..] == collected;
    SortStrings(keys);
    sorted := keys[..];
    assert forall k :: k in sorted <==> k in errors by {
      forall k ensures k in sorted <==> k in errors {
        assert k in sorted <==> k in multiset(sorted);
        assert k in collected <==> k in multiset(collected);
      }
    }
    assert |sorted| == |multiset(sorted)| == |collected|;
    KeysDistinct(sorted, errors.Keys);
    SortedUnique(sorted, SortedKeys(errors.Keys));
  }

  lemma RowsAppend(errors: map<string, string>, keys: seq<string>, i: nat)
    requires i < |keys|
    requires forall k :: k in keys ==> k in errors
    ensures Rows(errors, keys[..i + 1]) == Rows(errors, keys[..i]) + Row(keys[i], errors[keys[i]])
  {
    assert keys[..i + 1][..i] == keys[..i];
  }

  /** The loop writing one row block per key, in the order of `keys`. */
  method WriteRows(b: Builder, errors: map<string, string>, keys: seq<string>)
    requires forall k :: k in keys ==> k in errors
    modifies b
    ensures b.contents == old(b.contents) + Rows(errors, keys)
  {
    ghost var start := b.contents;
    var i := 0;
    assert start + Rows(errors, keys[..0]) == start;
    while i < |keys|
      invariant 0 <= i <= |keys|
      invariant b.contents == start + Rows(errors, keys[..i])
    {
      var page := keys[i];
      var err := errors[page];
      ghost var before := b.contents;
      var separator, link, message := "|-\n", "| [[" + page + "]]\n", "| <code><nowiki>" + err + "</nowiki></code>\n";
      b.WriteString(separator);
      b.WriteString(link);
      b.WriteString(message);
      assert b.contents == before + Row(page, err) by {
        assert Row(page, err) == separator + link + message;
        ConcatAssoc4(before, separator, link, message);
      }
      RowsAppend(errors, keys, i);
      ConcatAssoc(start, Rows(errors, keys[..i]), Row(page, err));
      i := i + 1;
    }
    assert keys[..|keys|] == keys;
  }

  /** buildErrorTable (frs/errorTableBuilder.go:9-38). */
  method BuildErrorTable(errors: map<string, string>) returns (table: string)
    ensures table == Table(errors)
  {
    if |errors| == 0 {
      return NoErrors;
    }
    var b := new Builder();
    WriteHeader(b);
    var sorted := SortKeys(errors);
    WriteRows(b, errors, sorted);
    b.WriteString(TableEnd);
    table := b.contents;
  }

  /** The description line and the three header lines, written to an empty builder. */
  method WriteHeader(b: Builder)
    requires b.contents == []
    modifies b
    ensures b.contents == Header
  {
    WriteFour(b, Description, TableOpening, PageColumn, ErrorColumn);
  }

  /** Four writes in a row. */
  method WriteFour(b: Builder, w: string, x: string, y: string, z: string)
    modifies b
    ensures b.contents == old(b.contents) + (w + x + y + z)
  {
    ghost var start := b.contents;
    b.WriteString(w);
    b.WriteString(x);
    b.WriteString(y);
    b.WriteString(z);
    assert start + w + x + y + z == start + (w + x + y + z);
  }

  /** A non-empty table is the header, then one row block per key of
      `errors` in ascending order of the keys, each with that key's error,
      then the closing line: any ascending listing of the keys gives it. */
  lemma TableListsEveryKeyInOrder(errors: map<string, string>, keys: seq<string>)
    requires errors != map[]
    requires StrictlySorted(keys) && forall k :: k in keys <==> k in errors
    ensures Table(errors) == Header + Rows(errors, keys) + TableEnd
  {
    SortedUnique(keys, SortedKeys(errors.Keys));
  }

  /** A sorted sequence as long as the set of its elements repeats none,
      so it is strictly sorted. */
  lemma KeysDistinct(s: seq<string>, keys: set<string>)
    requires SortedLe(s)
    requires forall k :: k in s <==> k in keys
    requires |s| == |keys|
    ensures StrictlySorted(s)
  {
    forall p, q | 0 <= p < q < |s| ensures Less(s[p], s[q]) {
      if s[p] == s[q] {
        assert (set k | k in s) == keys;
        DuplicateShrinksSet(s, p, q);
        assert false;
      }
    }
  }

  /** A sequence has at least as many positions as distinct elements. */
  lemma {:induction false} SeqSetSize(s: seq<string>)
    ensures |set k | k in s| <= |s|
    decreases |s|
  {
    if s != [] {
      SeqSetSize(s[1..]);
      assert (set k | k in s) == (set k | k in s[1..]) + {s[0]};
    }
  }

  /** A repeated element makes the set of elements smaller than the
      sequence. */
  lemma {:induction false} DuplicateShrinksSet(s: seq<string>, p: nat, q: nat)
    requires p < q < |s| && s[p] == s[q]
    ensures |set k | k in s| < |s|
    decreases |s|
  {
    if p == 0 {
      assert s[0] in s[1..] by {
        assert s[1..][q - 1] == s[q];
      }
      assert (set k | k in s) == (set k | k in s[1..]);
      SeqSetSize(s[1..]);
    } else {
      DuplicateShrinksSet(s[1..], p - 1, q - 1);
      assert (set k | k in s) == (set k | k in s[1..]) + {s[0]};
    }
  }

  /** A page whose title sorts after every other gets the last row. */
  lemma LargestKeyGoesLast(errors: map<string, string>, page: string, err: string)
    requires errors != map[]
    requires forall k :: k in errors ==> Less(k, page)
    ensures Table(errors[page := err]) == Header + Rows(errors, SortedKeys(errors.Keys)) + Row(page, err) + TableEnd
  {
    var before := SortedKeys(errors.Keys);
    LargestKeySortsLast(errors, page, err);
    RowsWithLast(errors, page, err, before);
    WrapLast(Header, Rows(errors, before), Row(page, err), TableEnd);
  }

  /** Rows of `keys` and then the new key, in the map with that key added. */
  lemma RowsWithLast(errors: map<string, string>, page: string, err: string, keys: seq<string>)
    requires page !in keys && forall k :: k in keys ==> k in errors
    ensures Rows(errors[page := err], keys + [page]) == Rows(errors, keys) + Row(page, err)
  {
    var after := keys + [page];
    assert after[..|after| - 1] == keys;
    RowsAgree(errors, errors[page := err], keys);
  }

  lemma WrapLast(h: string, x: string, y: string, e: string)
    ensures h + (x + y) + e == h + x + y + e
  {
  }

  lemma LargestKeySortsLast(errors: map<string, string>, page: string, err: string)
    requires forall k :: k in errors ==> Less(k, page)
    ensures SortedKeys(errors[page := err].Keys) == SortedKeys(errors.Keys) + [page]
  {
    LessIrreflexive(page);
    var before := SortedKeys(errors.Keys);
    var after := before + [page];
    assert StrictlySorted(after) by {
      forall p, q | 0 <= p < q < |after| ensures Less(after[p], after[q]) {
        if q == |before| {
          assert after[p] == before[p] && before[p] in errors;
        } else {
          assert after[p] == before[p] && after[q] == before[q];
        }
      }
    }
    assert forall k :: k in after <==> k in errors[page := err].Keys;
    SortedUnique(after, SortedKeys(errors[page := err].Keys));
  }

  /** The rows of keys on which two maps agree are the same. */
  lemma {:induction false} RowsAgree(m1: map<string, string>, m2: map<string, string>, keys: seq<string>)
    requires forall k :: k in keys ==> k in m1 && k in m2 && m1[k] == m2[k]
    ensures Rows(m1, keys) == Rows(m2, keys)
    decreases |keys|
  {
    if keys != [] {
      RowsAgree(m1, m2, keys[..|keys| - 1]);
    }
  }
}
