/** Go's regexp package seen from outside: what a compiled pattern finds in a
    text (a list of leftmost, non-overlapping matches with their groups), and
    what ReplaceAllString / ReplaceAllStringFunc build from those matches. */
module Matches {
  import opened GoStrings

  /** One match: the span [start, end) of the text and the text of each group
      (group 0 is the whole match; Go's submatch slice). */
  datatype Match = Match(start: nat, end: nat, groups: seq<string>)

  /** Matches are in order, do not overlap and lie inside a text of length `n`,
      starting at or after `from`. */
  predicate OrderedFrom(ms: seq<Match>, from: nat, n: nat)
    decreases |ms|
  {
    ms == [] || (from <= ms[0].start <= ms[0].end <= n && OrderedFrom(ms[1..], ms[0].end, n))
  }

  predicate Ordered(ms: seq<Match>, n: nat)
  {
    OrderedFrom(ms, 0, n)
  }

  /** The regexp library: whether a pattern compiles, and all matches of a
      pattern in a text (FindAllStringSubmatchIndex). */
  datatype RegexLibrary = RegexLibrary(compiles: string -> bool, findAll: (string, string) -> seq<Match>)

  /** The library only reports ordered, non-overlapping matches inside the text. */
  ghost predicate WellBehaved(lib: RegexLibrary)
  {
    forall p, t :: Ordered(lib.findAll(p, t), |t|)
  }

  type Engine = lib: RegexLibrary | WellBehaved(lib)
    witness RegexLibrary(p => true, (p, t) => [])

  /** The groups of the first match (FindStringSubmatchIndex); none when
      nothing matches. */
  function FirstGroups(ms: seq<Match>): seq<string>
  {
    if ms == [] then [] else ms[0].groups
  }

  /** The submatch slices, one per match (FindAllStringSubmatch). */
  function Submatches(ms: seq<Match>): (r: seq<seq<string>>)
    ensures |r| == |ms| && forall i :: 0 <= i < |ms| ==> r[i] == ms[i].groups
  {
    if ms == [] then [] else [ms[0].groups] + Submatches(ms[1..])
  }

  // ---------------------------------------------------------------------
  // Replacing matches
  // ---------------------------------------------------------------------

  /** The text from `from` on with the i-th match replaced by reps[i]. */
  function ReplaceEachFrom(text: string, ms: seq<Match>, from: nat, reps: seq<string>): string
    requires from <= |text| && OrderedFrom(ms, from, |text|) && |reps| == |ms|
    decreases |ms|
  {
    if ms == [] then text[from..]
    else text[from..ms[0].start] + reps[0] + ReplaceEachFrom(text, ms[1..], ms[0].end, reps[1..])
  }

  /** Every match replaced by its own replacement text. */
  function ReplaceEach(text: string, ms: seq<Match>, reps: seq<string>): string
    requires Ordered(ms, |text|) && |reps| == |ms|
  {
    ReplaceEachFrom(text, ms, 0, reps)
  }

  function Replicate(s: string, n: nat): (r: seq<string>)
    ensures |r| == n && forall i :: 0 <= i < n ==> r[i] == s
  {
    if n == 0 then [] else [s] + Replicate(s, n - 1)
  }

  /** Every match replaced by the same text (ReplaceAllString with a template
      that has no group reference, or ReplaceAllStringFunc with a constant function). */
  function ReplaceAllMatches(text: string, ms: seq<Match>, rep: string): string
    requires Ordered(ms, |text|)
  {
    ReplaceEach(text, ms, Replicate(rep, |ms|))
  }

  /** The stretches of text between the matches, |ms| + 1 of them. */
  function GapsFrom(text: string, ms: seq<Match>, from: nat): (gs: seq<string>)
    requires from <= |text| && OrderedFrom(ms, from, |text|)
    ensures |gs| == |ms| + 1
    decreases |ms|
  {
    if ms == [] then [text[from..]]
    else [text[from..ms[0].start]] + GapsFrom(text, ms[1..], ms[0].end)
  }

  /** The matched stretches of text. */
  function Matched(text: string, ms: seq<Match>): (ts: seq<string>)
    requires forall i :: 0 <= i < |ms| ==> ms[i].start <= ms[i].end <= |text|
    ensures |ts| == |ms|
  {
    if ms == [] then [] else [text[ms[0].start..ms[0].end]] + Matched(text, ms[1..])
  }

  /** gs[0] + fills[0] + gs[1] + fills[1] + ... + gs[|fills|]. */
  function Weave(gs: seq<string>, fills: seq<string>): string
    requires |gs| == |fills| + 1
    decreases |fills|
  {
    if fills == [] then gs[0] else gs[0] + fills[0] + Weave(gs[1..], fills[1..])
  }

  /** Weave written out for two fills. */
  lemma WeaveTwo(g0: string, g1: string, g2: string, f1: string, f2: string)
    ensures Weave([g0, g1, g2], [f1, f2]) == g0 + f1 + g1 + f2 + g2
  {
    assert [g0, g1, g2][1..] == [g1, g2] && [g1, g2][1..] == [g2];
    assert [f1, f2][1..] == [f2] && [f2][1..] == [];
    assert Weave([g2], []) == g2;
    assert Weave([g1, g2], [f2]) == g1 + f2 + g2;
  }

  lemma {:induction false} OrderedInside(ms: seq<Match>, from: nat, n: nat)
    requires OrderedFrom(ms, from, n)
    ensures forall i :: 0 <= i < |ms| ==> from <= ms[i].start <= ms[i].end <= n
    decreases |ms|
  {
    if ms != [] {
      OrderedInside(ms[1..], ms[0].end, n);
      forall i | 0 < i < |ms| ensures from <= ms[i].start <= ms[i].end <= n {
        assert ms[i] == ms[1..][i - 1];
      }
    }
  }

  /** The text is its gaps woven with its matched stretches. */
  lemma {:induction false} GapsAndMatchesRebuildText(text: string, ms: seq<Match>, from: nat)
    requires from <= |text| && OrderedFrom(ms, from, |text|)
    ensures forall i :: 0 <= i < |ms| ==> ms[i].start <= ms[i].end <= |text|
    ensures text[from..] == Weave(GapsFrom(text, ms, from), Matched(text, ms))
    decreases |ms|
  {
    OrderedInside(ms, from, |text|);
    if ms != [] {
      GapsAndMatchesRebuildText(text, ms[1..], ms[0].end);
      var m := ms[0];
      assert text[from..] == text[from..m.start] + text[m.start..m.end] + text[m.end..];
    }
  }

  /** Replacing the matches keeps every gap, in order, and puts the i-th
      replacement where the i-th match was: text outside the matches is unchanged. */
  lemma {:induction false} ReplaceEachKeepsGaps(text: string, ms: seq<Match>, from: nat, reps: seq<string>)
    requires from <= |text| && OrderedFrom(ms, from, |text|) && |reps| == |ms|
    ensures ReplaceEachFrom(text, ms, from, reps) == Weave(GapsFrom(text, ms, from), reps)
    decreases |ms|
  {
    if ms != [] {
      ReplaceEachKeepsGaps(text, ms[1..], ms[0].end, reps[1..]);
    }
  }

  /** With no match, nothing is replaced. */
  lemma NoMatchNoChange(text: string, reps: seq<string>)
    requires reps == []
    ensures ReplaceEach(text, [], reps) == text
  {
  }

  /** Replacing each match by the very text it matched gives the text back. */
  lemma ReplaceByMatchedIsIdentity(text: string, ms: seq<Match>)
    requires Ordered(ms, |text|)
    ensures forall i :: 0 <= i < |ms| ==> ms[i].start <= ms[i].end <= |text|
    ensures ReplaceEach(text, ms, Matched(text, ms)) == text
  {
    GapsAndMatchesRebuildText(text, ms, 0);
    ReplaceEachKeepsGaps(text, ms, 0, Matched(text, ms));
  }
}
