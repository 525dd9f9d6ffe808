/** pruneUsersFromList (pruner/prune.go:109-282): classify the users a page's
    format regex captures, remove the inactive and indeffed ones with one
    derived regex, then rename the redirected ones with one derived regex each. */
module Pruner {
  import opened Common
  import opened GoStrings
  import opened Matches
  import opened Username
  import opened Classifier

  /** regexReplaceCaptureGroupExpression: a non-backslash character followed
      by a group that is not `(?...)`, up to the first unescaped `)`. */
  const LocatorExpression: string := "([^\\\\])\\([^?].*?[^\\\\]\\)"

  /** The flags every derived regex starts with. */
  const CaseFlags: string := "(?im)"

  /** The format regex's source without its leading `(?im)`. */
  function FormatBody(formatSource: string): (body: string)
    ensures HasPrefix(formatSource, CaseFlags) ==> formatSource == CaseFlags + body
    ensures !HasPrefix(formatSource, CaseFlags) ==> body == formatSource
  {
    TrimPrefix(formatSource, CaseFlags)
  }

  // ---------------------------------------------------------------------
  // The removal regex
  // ---------------------------------------------------------------------

  /** Each name quoted for a regex and with `$` doubled for a replacement
      template: the entries of regexUsersToRemove. */
  function EscapeEntries(names: seq<string>): (r: seq<string>)
    ensures |r| == |names| && forall k :: 0 <= k < |names| ==> r[k] == EscapeDollars(QuoteMeta(names[k]))
  {
    if names == [] then [] else [EscapeDollars(QuoteMeta(names[0]))] + EscapeEntries(names[1..])
  }

  /** The replacement template `$1(user1|user2|...)`. */
  function RemovalTemplate(names: seq<string>): string
  {
    "$1(" + Join(EscapeEntries(names), "|") + ")"
  }

  /** ReplaceAllString's per-match text: the template expanded with that
      match's groups. */
  function ExpandEach(ms: seq<Match>, template: string): (r: seq<string>)
    ensures |r| == |ms| && forall k :: 0 <= k < |ms| ==> r[k] == Expand(template, ms[k].groups)
  {
    if ms == [] then [] else [Expand(template, ms[0].groups)] + ExpandEach(ms[1..], template)
  }

  /** builtRegexForRemoval's source: the format body with each located group
      (and the character before it) replaced per the template, between the
      case flags and an optional newline. */
  function RemovalPattern(body: string, located: seq<Match>, names: seq<string>): string
    requires Ordered(located, |body|)
  {
    CaseFlags + ReplaceEach(body, located, ExpandEach(located, RemovalTemplate(names))) + "\\n?"
  }

  /** The array regexUsersToRemove: indeffed users first, then inactive ones,
      each quoted and with `$` doubled (prune.go:206-215). */
  method EscapeRemovalNames(indeffed: seq<string>, inactive: seq<string>) returns (entries: array<string>)
    ensures fresh(entries)
    ensures entries[..] == EscapeEntries(indeffed + inactive)
  {
    var all := indeffed + inactive;
    var usersToRemoveTotal := |indeffed| + |inactive|;
    entries := new string[usersToRemoveTotal];
    var lists := [indeffed, inactive];
    var i := 0;
    var g := 0;
    while g < 2
      invariant 0 <= g <= 2
      invariant i == (if g == 0 then 0 else if g == 1 then |indeffed| else usersToRemoveTotal)
      invariant forall k :: 0 <= k < i ==> entries[k] == EscapeDollars(QuoteMeta(all[k]))
    {
      var usersForRemoval := lists[g];
      assert forall k :: i <= k < i + |usersForRemoval| ==> all[k] == usersForRemoval[k - i];
      EscapeInto(entries, usersForRemoval, i);
      i := i + |usersForRemoval|;
      g := g + 1;
    }
  }

  /** The inner loop of prune.go:210-215: the escaped `names` written into
      `entries` from index `at` on, the other slots kept. */
  method EscapeInto(entries: array<string>, names: seq<string>, at: nat)
    requires at + |names| <= entries.Length
    modifies entries
    ensures forall k :: 0 <= k < entries.Length ==>
      entries[k] == if at <= k < at + |names| then EscapeDollars(QuoteMeta(names[k - at])) else old(entries[k])
  {
    var j := 0;
    while j < |names|
      invariant 0 <= j <= |names|
      invariant forall k :: at <= k < at + j ==> entries[k] == EscapeDollars(QuoteMeta(names[k - at]))
      invariant forall k :: 0 <= k < entries.Length && !(at <= k < at + j) ==> entries[k] == old(entries[k])
    {
      var escaped := EscapeName(names[j]);
      entries[at + j] := escaped;
      j := j + 1;
    }
  }

  /** One entry of regexUsersToRemove: the quoted name with `$` doubled. */
  method EscapeName(user: string) returns (escaped: string)
    ensures escaped == EscapeDollars(QuoteMeta(user))
  {
    EscapeDollarsIsReplaceAll(QuoteMeta(user));
    escaped := ReplaceAll(QuoteMeta(user), "$", "$$");
  }

  /** Writes builtRegexForRemoval's source with a strings.Builder (prune.go:204-225). */
  method BuildRemovalPattern(body: string, located: seq<Match>, indeffed: seq<string>, inactive: seq<string>)
    returns (pattern: string)
    requires Ordered(located, |body|)
    ensures pattern == RemovalPattern(body, located, indeffed + inactive)
  {
    var regexBuilder := new Builder();
    regexBuilder.WriteString(CaseFlags);
    var regexUsersToRemove := EscapeRemovalNames(indeffed, inactive);
    var template := "$1(" + Join(regexUsersToRemove[..], "|") + ")";
    regexBuilder.WriteString(ReplaceEach(body, located, ExpandEach(located, template)));
    regexBuilder.WriteString("\\n?");
    pattern := regexBuilder.contents;
  }

  /** Joining escaped entries with `|` is escaping the joined quoted names. */
  lemma {:induction false} EscapedJoin(names: seq<string>)
    ensures Join(EscapeEntries(names), "|") == EscapeDollars(Join(QuoteAll(names), "|"))
    decreases |names|
  {
    if |names| == 1 {
      assert EscapeEntries(names) == [EscapeDollars(QuoteMeta(names[0]))];
      assert QuoteAll(names) == [QuoteMeta(names[0])];
    } else if |names| >= 2 {
      EscapedJoin(names[1..]);
      var q := QuoteMeta(names[0]);
      var rest := Join(QuoteAll(names[1..]), "|");
      assert EscapeEntries(names)[1..] == EscapeEntries(names[1..]);
      assert QuoteAll(names)[1..] == QuoteAll(names[1..]);
      assert Join(QuoteAll(names), "|") == (q + "|") + rest;
      assert EscapeDollars("|") == "|" by {
        assert "|"[1..] == [];
      }
      calc {
        EscapeDollars(Join(QuoteAll(names), "|"));
        EscapeDollars((q + "|") + rest);
        { EscapeDollarsAppend(q + "|", rest); }
        EscapeDollars(q + "|") + EscapeDollars(rest);
        { EscapeDollarsAppend(q, "|"); }
        EscapeDollars(q) + "|" + EscapeDollars(rest);
        Join(EscapeEntries(names), "|");
      }
    }
  }

  /** The template expands to the character before the group and then the
      alternation of the quoted names, in a group. */
  lemma RemovalTemplateExpands(names: seq<string>, groups: seq<string>)
    requires |groups| == 2
    ensures Expand(RemovalTemplate(names), groups) == groups[1] + "(" + Join(QuoteAll(names), "|") + ")"
  {
    var alternation := Join(QuoteAll(names), "|");
    var escaped := EscapeDollars(alternation);
    EscapedJoin(names);
    DollarOneRegroup(escaped);
    ExpandParenthesisedEscape(alternation, groups);
    ExpandGroupRef('1', "(" + escaped + ")", groups, false);
  }

  /** An escaped text in parentheses expands to the text in parentheses. */
  lemma ExpandParenthesisedEscape(a: string, groups: seq<string>)
    ensures Expand("(" + EscapeDollars(a) + ")", groups) == "(" + a + ")"
  {
    var e := EscapeDollars(a);
    ExpandEscaped(a, ")", groups);
    assert ")" == [')'] + [];
    ExpandLiteral(')', [], groups);
    ConcatAssoc("(", e, ")");
    ExpandLiteral('(', e + ")", groups);
    ConcatAssoc("(", a, ")");
  }

  lemma DollarOneRegroup(e: string)
    ensures "$1(" + e + ")" == "$" + ['1'] + ("(" + e + ")")
  {
    assert "$1(" == "$" + ['1'] + "(";
    ConcatAssoc4("$" + ['1'], "(", e, ")");
  }

  /** When the locator finds the capture group once, at [start, end), with
      the preceding character as its group 1, the removal regex is the format
      body with that capture group replaced by the alternation of the quoted
      names, and nothing else of the body changed. */
  lemma RemovalPatternReplacesCaptureGroup(body: string, m: Match, names: seq<string>)
    requires m.start < m.end <= |body|
    requires m.groups == [body[m.start..m.end], body[m.start..m.start + 1]]
    ensures Ordered([m], |body|)
    ensures RemovalPattern(body, [m], names)
            == CaseFlags + body[..m.start + 1] + "(" + Join(QuoteAll(names), "|") + ")" + body[m.end..] + "\\n?"
  {
    var alternation := Join(QuoteAll(names), "|");
    var rep := Expand(RemovalTemplate(names), m.groups);
    RemovalTemplateExpands(names, m.groups);
    assert ExpandEach([m], RemovalTemplate(names)) == [rep];
    ReplaceOne(body, m, rep);
    assert body[..m.start + 1] == body[..m.start] + body[m.start..m.start + 1];
    RegroupAlternation(CaseFlags, body[..m.start], body[m.start..m.start + 1], alternation, body[m.end..], "\\n?");
  }

  /** One match replaced: the text before it, the replacement, the text after. */
  lemma ReplaceOne(body: string, m: Match, rep: string)
    requires m.start <= m.end <= |body|
    ensures Ordered([m], |body|)
    ensures ReplaceEach(body, [m], [rep]) == body[..m.start] + rep + body[m.end..]
  {
    assert [m][1..] == [] && [rep][1..] == [];
    assert OrderedFrom([m][1..], m.end, |body|);
    assert ReplaceEachFrom(body, [], m.end, []) == body[m.end..];
    assert body[0..m.start] == body[..m.start];
  }

  lemma RegroupAlternation(flags: string, pre: string, c: string, a: string, post: string, nl: string)
    ensures flags + (pre + (c + "(" + a + ")") + post) + nl == flags + (pre + c) + "(" + a + ")" + post + nl
  {
  }

  /** The quoted alternatives read back as the names, and contain no live
      regex operator. */
  lemma QuotedNamesAreLiteral(names: seq<string>)
    ensures forall k :: 0 <= k < |names| ==>
      UnquoteMeta(QuoteAll(names)[k]) == names[k] && AllEscaped(QuoteAll(names)[k])
  {
    forall k | 0 <= k < |names|
      ensures UnquoteMeta(QuoteAll(names)[k]) == names[k] && AllEscaped(QuoteAll(names)[k])
    {
      QuoteMetaRoundTrip(names[k]);
      QuoteMetaEscapesAll(names[k]);
    }
  }

  /** As written, when the locator finds no capture group the removal regex
      is the format regex itself, whatever the names: it matches every
      entry of the list, not only the users to remove. */
  lemma UnlocatedRemovalPatternIgnoresNames(body: string, names: seq<string>)
    ensures Ordered([], |body|)
    ensures RemovalPattern(body, [], names) == CaseFlags + body + "\\n?"
  {
  }

  // ---------------------------------------------------------------------
  // The rename regex and its replacement
  // ---------------------------------------------------------------------

  /** builtRegexForRename's source: the body before the capture group (and
      the character before it) in group 1, the quoted old name, and the rest
      of the body in group 2. */
  function RenamePattern(body: string, start: nat, end: nat, oldName: string): string
    requires start + 1 <= |body| && end <= |body|
  {
    "(?im)(" + body[..start + 1] + ")" + QuoteMeta(oldName) + "(" + body[end..] + ")"
  }

  /** Writes builtRegexForRename's source with a strings.Builder (prune.go:238-250). */
  method BuildRenamePattern(body: string, start: nat, end: nat, oldName: string) returns (pattern: string)
    requires start + 1 <= |body| && end <= |body|
    ensures pattern == RenamePattern(body, start, end, oldName)
  {
    var regexRenameBuilder := new Builder();
    regexRenameBuilder.WriteString("(?im)(");
    regexRenameBuilder.WriteString(body[..start + 1]);
    regexRenameBuilder.WriteString(")");
    regexRenameBuilder.WriteString(QuoteMeta(oldName));
    regexRenameBuilder.WriteString("(");
    regexRenameBuilder.WriteString(body[end..]);
    regexRenameBuilder.WriteString(")");
    pattern := regexRenameBuilder.contents;
    EmptyThenSeven("(?im)(", body[..start + 1], ")", QuoteMeta(oldName), "(", body[end..], ")");
  }

  /** The template `${1}new${2}`, with `$` in the new name doubled. */
  function RenameTemplate(newName: string): string
  {
    "${1}" + EscapeDollars(newName) + "${2}"
  }

  /** The simple link fix-ups applied to the replacement text: a piped user
      link showing the old name shows the new one, and `User talk:old`
      becomes `User talk:new`. */
  function LinkFixups(b: string, oldName: string, newName: string): string
  {
    ReplaceAll(
      ReplaceAll(b, "[[User:" + newName + "|" + oldName + "]]", "[[User:" + newName + "|" + newName + "]]"),
      "User talk:" + oldName,
      "User talk:" + newName)
  }

  /** `${d}` followed by any text. */
  lemma ExpandBracedDigit(digit: char, tail: string, groups: seq<string>)
    requires '1' <= digit <= '9' && digit as int - '0' as int < |groups|
    ensures Expand("${" + [digit] + "}" + tail, groups) == groups[digit as int - '0' as int] + Expand(tail, groups)
  {
    ExpandGroupRef(digit, tail, groups, true);
  }

  /** A rename match's replacement: its two side groups around the new name. */
  lemma RenameTemplateExpands(newName: string, groups: seq<string>)
    requires |groups| == 3
    ensures Expand(RenameTemplate(newName), groups) == groups[1] + newName + groups[2]
  {
    RenameTemplateLayout(newName);
    ExpandTwoRefsAround('1', '2', newName, groups);
  }

  lemma RenameTemplateLayout(newName: string)
    ensures RenameTemplate(newName) == "${" + ['1'] + "}" + EscapeDollars(newName) + ("${" + ['2'] + "}")
  {
    assert "${1}" == "${" + ['1'] + "}";
    assert "${2}" == "${" + ['2'] + "}";
  }

  /** `${d1}`, the escaped text and `${d2}` expand to group d1, the text and
      group d2. */
  lemma ExpandTwoRefsAround(d1: char, d2: char, x: string, groups: seq<string>)
    requires '1' <= d1 <= '9' && d1 as int - '0' as int < |groups|
    requires '1' <= d2 <= '9' && d2 as int - '0' as int < |groups|
    ensures Expand("${" + [d1] + "}" + EscapeDollars(x) + ("${" + [d2] + "}"), groups)
            == groups[d1 as int - '0' as int] + x + groups[d2 as int - '0' as int]
  {
    var first := "${" + [d1] + "}";
    var second := "${" + [d2] + "}";
    ExpandBracedDigit(d2, [], groups);
    assert second + [] == second;
    ExpandBracedDigit(d1, EscapeDollars(x) + second, groups);
    ExpandAroundEscaped(first, x, second, groups);
  }

  /** Escaped text before a suffix expands to itself and then the suffix,
      whatever prefix stands before it. */
  lemma ExpandAroundEscaped(p: string, x: string, q: string, groups: seq<string>)
    ensures Expand(p + (EscapeDollars(x) + q), groups) == Expand(p + EscapeDollars(x) + q, groups)
    ensures Expand(EscapeDollars(x) + q, groups) == x + Expand(q, groups)
  {
    ExpandEscaped(x, q, groups);
    assert p + (EscapeDollars(x) + q) == p + EscapeDollars(x) + q;
  }

  /** The replacement text for one match with the given groups. */
  function RenameReplacement(groups: seq<string>, oldName: string, newName: string): string
  {
    LinkFixups(Expand(RenameTemplate(newName), groups), oldName, newName)
  }

  /** The replacement texts of all matches, each from its own groups. */
  function RenameReplacements(ms: seq<Match>, oldName: string, newName: string): (r: seq<string>)
    ensures |r| == |ms| && forall k :: 0 <= k < |ms| ==> r[k] == RenameReplacement(ms[k].groups, oldName, newName)
  {
    if ms == [] then [] else [RenameReplacement(ms[0].groups, oldName, newName)] + RenameReplacements(ms[1..], oldName, newName)
  }

  /** One rename as the source writes it: the replacement is expanded once,
      from the groups of the first match, and every match is replaced by it. */
  function RenameStepAsWritten(content: string, ms: seq<Match>, oldName: string, newName: string): string
    requires Ordered(ms, |content|)
  {
    ReplaceAllMatches(content, ms, LinkFixups(Expand(RenameTemplate(newName), FirstGroups(ms)), oldName, newName))
  }

  /** One rename, each match replaced by its own groups around the new name. */
  function RenameStep(content: string, ms: seq<Match>, oldName: string, newName: string): string
    requires Ordered(ms, |content|)
  {
    ReplaceEach(content, ms, RenameReplacements(ms, oldName, newName))
  }

  /** A rename match: the text matched is group 1, the old name, group 2. */
  predicate RenameMatch(content: string, m: Match, oldName: string)
  {
    m.start <= m.end <= |content| && |m.groups| == 3
    && content[m.start..m.end] == m.groups[1] + oldName + m.groups[2]
  }

  /** Each match keeps its surroundings and gets the new name in place of
      the old one (before the link fix-ups). */
  lemma RenameStepKeepsSurroundings(content: string, ms: seq<Match>, oldName: string, newName: string)
    requires Ordered(ms, |content|)
    requires forall k :: 0 <= k < |ms| ==> |ms[k].groups| == 3
    ensures forall k :: 0 <= k < |ms| ==>
      Expand(RenameTemplate(newName), ms[k].groups) == ms[k].groups[1] + newName + ms[k].groups[2]
    ensures RenameStep(content, ms, oldName, newName) == Weave(GapsFrom(content, ms, 0), RenameReplacements(ms, oldName, newName))
  {
    forall k | 0 <= k < |ms|
      ensures Expand(RenameTemplate(newName), ms[k].groups) == ms[k].groups[1] + newName + ms[k].groups[2]
    {
      RenameTemplateExpands(newName, ms[k].groups);
    }
    ReplaceEachKeepsGaps(content, ms, 0, RenameReplacements(ms, oldName, newName));
  }

  /** Renaming a user to their own name leaves the page as it was. */
  lemma RenameToSameNameIsIdentity(content: string, ms: seq<Match>, u: string)
    requires Ordered(ms, |content|)
    requires forall k :: 0 <= k < |ms| ==> RenameMatch(content, ms[k], u)
    ensures RenameStep(content, ms, u, u) == content
  {
    assert RenameReplacements(ms, u, u) == Matched(content, ms) by {
      forall k | 0 <= k < |ms| ensures RenameReplacements(ms, u, u)[k] == Matched(content, ms)[k] {
        var g := ms[k].groups;
        RenameTemplateExpands(u, g);
        ReplaceAllSame(g[1] + u + g[2], "[[User:" + u + "|" + u + "]]");
        ReplaceAllSame(g[1] + u + g[2], "User talk:" + u);
        MatchedAt(content, ms, k);
      }
    }
    ReplaceByMatchedIsIdentity(content, ms);
  }

  lemma {:induction false} MatchedAt(text: string, ms: seq<Match>, k: nat)
    requires forall i :: 0 <= i < |ms| ==> ms[i].start <= ms[i].end <= |text|
    requires k < |ms|
    ensures Matched(text, ms)[k] == text[ms[k].start..ms[k].end]
    decreases k
  {
    if k > 0 {
      MatchedAt(text, ms[1..], k - 1);
    }
  }

  /** Text shorter than both link patterns is left alone by the fix-ups. */
  lemma LinkFixupsOnShortText(b: string, oldName: string, newName: string)
    requires |b| < |"User talk:" + oldName| && |b| < |"[[User:" + newName + "|" + oldName + "]]"|
    ensures LinkFixups(b, oldName, newName) == b
  {
  }

  /** As written, a user listed twice with different text after the name
      comes out as two copies of the first entry; replacing each match by
      its own surroundings keeps the second entry's text. */
  lemma {:induction false} RenameCopiesFirstMatch(before: string, x: string, between: string, y: string,
                                                   oldName: string, newName: string)
    requires LinkFixups(before + newName + x, oldName, newName) == before + newName + x
    requires LinkFixups(before + newName + y, oldName, newName) == before + newName + y
    ensures var e1 := before + oldName + x;
            var e2 := before + oldName + y;
            var content := e1 + between + e2;
            var ms := [Match(0, |e1|, [e1, before, x]), Match(|e1| + |between|, |content|, [e2, before, y])];
            && Ordered(ms, |content|)
            && RenameStepAsWritten(content, ms, oldName, newName)
               == (before + newName + x) + between + (before + newName + x)
            && RenameStep(content, ms, oldName, newName)
               == (before + newName + x) + between + (before + newName + y)
  {
    var e1 := before + oldName + x;
    var e2 := before + oldName + y;
    var content := e1 + between + e2;
    var ms := [Match(0, |e1|, [e1, before, x]), Match(|e1| + |between|, |content|, [e2, before, y])];
    var a := before + newName + x;
    var b := before + newName + y;
    RenameEntry(before, x, oldName, newName);
    RenameEntry(before, y, oldName, newName);
    ReplacePair(e1, between, e2, [e1, before, x], [e2, before, y], a, b);
    assert RenameReplacements(ms, oldName, newName) == [a, b];
    ReplacePair(e1, between, e2, [e1, before, x], [e2, before, y], a, a);
    assert Replicate(a, 2) == [a, a];
  }

  /** The replacement for a match of `before old after` whose fix-ups change nothing. */
  lemma RenameEntry(before: string, after: string, oldName: string, newName: string)
    requires LinkFixups(before + newName + after, oldName, newName) == before + newName + after
    ensures RenameReplacement([before + oldName + after, before, after], oldName, newName) == before + newName + after
  {
    RenameTemplateExpands(newName, [before + oldName + after, before, after]);
  }

  /** Two matches covering the two ends of `e1 + between + e2`, replaced by
      `r1` and `r2`, leave `r1 + between + r2`. */
  lemma ReplacePair(e1: string, between: string, e2: string, g1: seq<string>, g2: seq<string>, r1: string, r2: string)
    ensures var content := e1 + between + e2;
            var ms := [Match(0, |e1|, g1), Match(|e1| + |between|, |content|, g2)];
            && Ordered(ms, |content|)
            && ReplaceEach(content, ms, [r1, r2]) == r1 + between + r2
  {
    var content := e1 + between + e2;
    var m1 := Match(0, |e1|, g1);
    var m2 := Match(|e1| + |between|, |content|, g2);
    var ms := [m1, m2];
    assert ms[1..] == [m2] && [m2][1..] == [];
    assert Ordered(ms, |content|) by {
      assert OrderedFrom([m2][1..], m2.end, |content|);
      assert OrderedFrom([m2], m1.end, |content|);
    }
    assert GapsFrom(content, ms, 0) == [[], between, []] by {
      assert content[0..0] == [];
      assert content[m1.end..m2.start] == between;
      assert content[m2.end..] == [];
      assert GapsFrom(content, [], m2.end) == [[]];
      assert GapsFrom(content, [m2], m1.end) == [between, []];
    }
    ReplaceEachKeepsGaps(content, ms, 0, [r1, r2]);
    WeaveTwo([], between, [], r1, r2);
  }

  /** The instance `{{u|Bob|a}}` and `{{u|Bob|b}}` on consecutive lines, Bob
      renamed to Rob: both lines come out as `{{u|Rob|a}}`. */
  lemma RenameCopiesFirstMatchExample()
    ensures var e1 := "{{u|" + "Bob" + "|a}}";
            var e2 := "{{u|" + "Bob" + "|b}}";
            var content := e1 + "\n" + e2;
            var ms := [Match(0, |e1|, [e1, "{{u|", "|a}}"]), Match(|e1| + 1, |content|, [e2, "{{u|", "|b}}"])];
            && Ordered(ms, |content|)
            && RenameStepAsWritten(content, ms, "Bob", "Rob") == "{{u|" + "Rob" + "|a}}" + "\n" + ("{{u|" + "Rob" + "|a}}")
            && RenameStep(content, ms, "Bob", "Rob") == "{{u|" + "Rob" + "|a}}" + "\n" + ("{{u|" + "Rob" + "|b}}")
  {
    var a := "{{u|" + "Rob" + "|a}}";
    var b := "{{u|" + "Rob" + "|b}}";
    assert LinkFixups(a, "Bob", "Rob") == a by {
      LinkFixupsOnShortText(a, "Bob", "Rob");
    }
    assert LinkFixups(b, "Bob", "Rob") == b by {
      LinkFixupsOnShortText(b, "Bob", "Rob");
    }
    RenameCopiesFirstMatch("{{u|", "|a}}", "\n", "|b}}", "Bob", "Rob");
  }

  // ---------------------------------------------------------------------
  // The whole of pruneUsersFromList
  // ---------------------------------------------------------------------

  /** What pruneUsersFromList returns: the new page content, the numbers of
      expired, indeffed and renamed users, the expired users and the renames. */
  datatype PruneResult = PruneResult(
    content: string,
    numExpired: nat,
    numIndeffed: nat,
    numRenamed: nat,
    expired: seq<string>,
    renamed: map<string, string>)

  /** The removal stage: nothing to remove leaves the page; otherwise the
      derived regex must compile, and every match of it is deleted. */
  function RemovalStage(content: string, body: string, located: seq<Match>, names: seq<string>, engine: Engine)
    : Result<string, PruneError>
    requires Ordered(located, |body|)
  {
    if names == [] then Ok(content)
    else
      var pattern := RemovalPattern(body, located, names);
      if !engine.compiles(pattern) then Err(PatternDoesNotCompile(pattern))
      else Ok(ReplaceAllMatches(content, engine.findAll(pattern, content), ""))
  }

  /** The rewrite of one rename's matches: as written, every match becomes
      the first match's expansion; corrected, each its own. */
  function RenameRewrite(reading: Reading, content: string, ms: seq<Match>, oldName: string, newName: string): string
    requires Ordered(ms, |content|)
  {
    if reading == AsWritten then RenameStepAsWritten(content, ms, oldName, newName)
    else RenameStep(content, ms, oldName, newName)
  }

  /** One rename of the loop over usersToReplace. */
  function RenameOne(reading: Reading, content: string, body: string, start: nat, end: nat,
                     oldName: string, newName: string, engine: Engine): Result<string, PruneError>
    requires start + 1 <= |body| && end <= |body|
  {
    var pattern := RenamePattern(body, start, end, oldName);
    if !engine.compiles(pattern) then Err(PatternDoesNotCompile(pattern))
    else Ok(RenameRewrite(reading, content, engine.findAll(pattern, content), oldName, newName))
  }

  /** The renames in the order `olds`, the first failure ending them (a
      name that is not renamed is passed over). */
  function RenameAll(reading: Reading, content: string, body: string, start: nat, end: nat, olds: seq<string>,
                     renames: map<string, string>, engine: Engine): Result<string, PruneError>
    requires start + 1 <= |body| && end <= |body|
    decreases |olds|
  {
    if olds == [] then Ok(content)
    else
      var oldName := olds[|olds| - 1];
      match RenameAll(reading, content, body, start, end, olds[..|olds| - 1], renames, engine)
      case Err(e) => Err(e)
      case Ok(c) => if oldName in renames then RenameOne(reading, c, body, start, end, oldName, renames[oldName], engine) else Ok(c)
  }

  /** The result for a classified page; the renames run in the order `olds`,
      which map iteration chooses. As written, a format whose capture group
      the locator cannot find is used whole as the removal regex, and a rename
      then indexes the locator's missing result; corrected, such a format is
      refused as soon as anything is to be removed or renamed. */
  function Finish(reading: Reading, content: string, body: string, located: seq<Match>, st: PassState,
                  olds: seq<string>, engine: Engine): Result<PruneResult, PruneError>
    requires Ordered(located, |body|)
  {
    var indeffed := Listed(st.toRemove, Indeffed);
    var inactive := Listed(st.toRemove, Inactive);
    var report := PruneResult(content, |inactive|, |indeffed|, |st.toReplace|, inactive, st.toReplace);
    if |indeffed| + |inactive| == 0 && |st.toReplace| == 0 then Ok(report)
    else if reading == Corrected && located == [] then Err(CaptureGroupNotLocated(body))
    else
      match RemovalStage(content, body, located, indeffed + inactive, engine)
      case Err(e) => Err(e)
      case Ok(pruned) =>
        if |st.toReplace| == 0 then Ok(report.(content := pruned))
        else if located == [] then Err(CaptureIndexOutOfRange)
        else
          var start := located[0].start;
          var end := located[0].end;
          if start + 1 > |body| then Err(SliceOutOfRange)
          else
            match RenameAll(reading, pruned, body, start, end, olds, st.toReplace, engine)
            case Err(e) => Err(e)
            case Ok(renamed) => Ok(report.(content := renamed))
  }

  /** pruneUsersFromList on a page, given its format regex's source. */
  function Prune(reading: Reading, content: string, formatSource: string, env: Env, engine: Engine, olds: seq<string>)
    : Result<PruneResult, PruneError>
  {
    match Pass(env, Submatches(engine.findAll(formatSource, content)))
    case Err(e) => Err(e)
    case Ok(st) =>
      var body := FormatBody(formatSource);
      Finish(reading, content, body, engine.findAll(LocatorExpression, body), st, olds, engine)
  }

  /** The loop over usersToReplace (prune.go:239-280): each old name, in the
      order the map iteration picks, renamed on the page; a rename regex that
      does not compile ends the loop. */
  method RenameUsers(pruned: string, body: string, start: nat, end: nat, renames: map<string, string>, engine: Engine)
    returns (r: Result<string, PruneError>, ghost order: seq<string>)
    requires start + 1 <= |body| && end <= |body|
    ensures r == RenameAll(AsWritten, pruned, body, start, end, order, renames, engine)
    ensures NoDuplicates(order) && forall u :: u in order ==> u in renames
    ensures r.Ok? ==> forall u :: u in renames ==> u in order
  {
    order := [];
    var content := pruned;
    var remaining := renames.Keys;
    while remaining != {}
      invariant remaining <= renames.Keys
      invariant NoDuplicates(order)
      invariant forall u :: u in order <==> u in renames && u !in remaining
      invariant RenameAll(AsWritten, pruned, body, start, end, order, renames, engine) == Ok(content)
      decreases remaining
    {
      var oldName :| oldName in remaining;
      var newName := renames[oldName];
      remaining := remaining - {oldName};
      order := order + [oldName];
      var pattern := BuildRenamePattern(body, start, end, oldName);
      if !engine.compiles(pattern) {
        return Err(PatternDoesNotCompile(pattern)), order;
      }
      content := RenameStepAsWritten(content, engine.findAll(pattern, content), oldName, newName);
    }
    r := Ok(content);
  }

  /** pruneUsersFromList (prune.go:109-282), as written. The renames run in an
      order the map iteration picks, returned as `order`: every renamed user once. */
  method PruneUsersFromList(pageContent: string, formatSource: string, env: Env, engine: Engine)
    returns (r: Result<PruneResult, PruneError>, ghost order: seq<string>)
    ensures r == Prune(AsWritten, pageContent, formatSource, env, engine, order)
    ensures r.Ok? ==> NoDuplicates(order) && forall u :: u in order <==> u in r.value.renamed
  {
    order := [];
    var matches := Submatches(engine.findAll(formatSource, pageContent));
    var pass := ClassifyMatches(env, matches);
    if pass.Err? {
      return Err(pass.error), order;
    }
    var st := pass.value;
    var formatRegexAsString := FormatBody(formatSource);
    var located := engine.findAll(LocatorExpression, formatRegexAsString);
    var indeffed := Listed(st.toRemove, Indeffed);
    var inactive := Listed(st.toRemove, Inactive);
    var usersToReplace := st.toReplace;
    var usersToRemoveTotal := |indeffed| + |inactive|;
    var content := pageContent;
    if usersToRemoveTotal > 0 {
      var pattern := BuildRemovalPattern(formatRegexAsString, located, indeffed, inactive);
      if !engine.compiles(pattern) {
        return Err(PatternDoesNotCompile(pattern)), order;
      }
      content := ReplaceAllMatches(content, engine.findAll(pattern, content), "");
    }
    ghost var pruned := content;
    assert RemovalStage(pageContent, formatRegexAsString, located, indeffed + inactive, engine) == Ok(pruned);
    if |usersToReplace| > 0 {
      if located == [] {
        return Err(CaptureIndexOutOfRange), order;
      }
      var start := located[0].start;
      var end := located[0].end;
      if start + 1 > |formatRegexAsString| {
        return Err(SliceOutOfRange), order;
      }
      var renamed;
      renamed, order := RenameUsers(content, formatRegexAsString, start, end, usersToReplace, engine);
      if renamed.Err? {
        return Err(renamed.error), order;
      }
      content := renamed.value;
    }
    r := Ok(PruneResult(content, |inactive|, |indeffed|, |usersToReplace|, inactive, usersToReplace));
  }

  // ---------------------------------------------------------------------
  // What pruneUsersFromList promises
  // ---------------------------------------------------------------------

  /** The reported numbers are the sizes of the reported lists, and those
      are the per-root verdicts of the classification. */
  lemma PruneReportsVerdicts(reading: Reading, content: string, formatSource: string, env: Env, engine: Engine,
                             olds: seq<string>)
    requires Prune(reading, content, formatSource, env, engine, olds).Ok?
    ensures var res := Prune(reading, content, formatSource, env, engine, olds).value;
            var rs := Roots(Submatches(engine.findAll(formatSource, content)));
            && res.numExpired == |res.expired|
            && res.numRenamed == |res.renamed|
            && res.expired == Selected(env, rs, Inactive)
            && res.numIndeffed == |Selected(env, rs, Indeffed)|
            && (forall u :: u in res.renamed <==> u in rs && RenameOf(env, u).Some?)
            && (forall u :: u in res.renamed ==> res.renamed[u] == RenameOf(env, u).value)
  {
    var ms := Submatches(engine.findAll(formatSource, content));
    PassComputesVerdicts(env, ms);
    var body := FormatBody(formatSource);
    FinishReportsState(reading, content, body, engine.findAll(LocatorExpression, body), Pass(env, ms).value, olds, engine);
  }

  /** Whatever happens to the content, a successful finish reports the lists
      and the rename map of the classification, with their sizes. */
  lemma FinishReportsState(reading: Reading, content: string, body: string, located: seq<Match>, st: PassState,
                           olds: seq<string>, engine: Engine)
    requires Ordered(located, |body|)
    ensures var f := Finish(reading, content, body, located, st, olds, engine);
            f.Ok? ==>
              && f.value.numExpired == |Listed(st.toRemove, Inactive)| && f.value.expired == Listed(st.toRemove, Inactive)
              && f.value.numIndeffed == |Listed(st.toRemove, Indeffed)|
              && f.value.numRenamed == |st.toReplace| && f.value.renamed == st.toReplace
  {
  }

  /** A page on which no user is to be removed or renamed is returned
      unchanged, with nothing reported. */
  lemma NothingToDoLeavesPage(reading: Reading, content: string, formatSource: string, env: Env, engine: Engine)
    requires var p := Pass(env, Submatches(engine.findAll(formatSource, content)));
             p.Ok? && p.value.toRemove == map[] && p.value.toReplace == map[]
    ensures Prune(reading, content, formatSource, env, engine, []) == Ok(PruneResult(content, 0, 0, 0, [], map[]))
  {
  }

  /** A page the format regex does not match is returned unchanged. */
  lemma UnmatchedPageUnchanged(reading: Reading, content: string, formatSource: string, env: Env, engine: Engine)
    requires engine.findAll(formatSource, content) == []
    ensures Prune(reading, content, formatSource, env, engine, []) == Ok(PruneResult(content, 0, 0, 0, [], map[]))
  {
    assert Submatches([]) == [];
  }

  /** Corrected: with something to remove, a format whose capture group the
      locator cannot find is refused rather than used as the removal regex. */
  lemma UnlocatedFormatRefused(content: string, formatSource: string, env: Env, engine: Engine, olds: seq<string>)
    requires var p := Pass(env, Submatches(engine.findAll(formatSource, content)));
             && p.Ok?
             && |Listed(p.value.toRemove, Indeffed)| + |Listed(p.value.toRemove, Inactive)| > 0
    requires engine.findAll(LocatorExpression, FormatBody(formatSource)) == []
    ensures Prune(Corrected, content, formatSource, env, engine, olds) == Err(CaptureGroupNotLocated(FormatBody(formatSource)))
  {
  }

  /** As written, when the locator finds no capture group, the removal stage
      deletes every match of the format regex itself: every entry of the
      list, whichever users were selected. */
  lemma UnlocatedRemovalRemovesEveryEntry(content: string, body: string, names: seq<string>, engine: Engine)
    requires names != []
    requires engine.compiles(CaseFlags + body + "\\n?")
    ensures RemovalStage(content, body, [], names, engine)
            == Ok(ReplaceAllMatches(content, engine.findAll(CaseFlags + body + "\\n?", content), ""))
  {
    UnlocatedRemovalPatternIgnoresNames(body, names);
  }

  /** As written, the whole call on a format whose capture group the locator
      cannot find, with users to remove and none to rename: it succeeds, and
      the page loses every match of the format regex itself. */
  lemma UnlocatedFormatDeletesEveryEntry(content: string, formatSource: string, env: Env, engine: Engine, olds: seq<string>)
    requires var p := Pass(env, Submatches(engine.findAll(formatSource, content)));
             && p.Ok?
             && |Listed(p.value.toRemove, Indeffed)| + |Listed(p.value.toRemove, Inactive)| > 0
             && p.value.toReplace == map[]
    requires engine.findAll(LocatorExpression, FormatBody(formatSource)) == []
    requires engine.compiles(CaseFlags + FormatBody(formatSource) + "\\n?")
    ensures var r := Prune(AsWritten, content, formatSource, env, engine, olds);
            var whole := CaseFlags + FormatBody(formatSource) + "\\n?";
            r.Ok? && r.value.content == ReplaceAllMatches(content, engine.findAll(whole, content), "")
  {
    var st := Pass(env, Submatches(engine.findAll(formatSource, content))).value;
    UnlocatedRemovalRemovesEveryEntry(content, FormatBody(formatSource),
                                      Listed(st.toRemove, Indeffed) + Listed(st.toRemove, Inactive), engine);
  }

  /** As written, a rename on such a format indexes the locator's missing
      result, which panics, whatever was removed before. */
  lemma UnlocatedRenamePanics(content: string, formatSource: string, env: Env, engine: Engine, olds: seq<string>)
    requires var p := Pass(env, Submatches(engine.findAll(formatSource, content)));
             && p.Ok? && p.value.toReplace != map[]
             && RemovalStage(content, FormatBody(formatSource), [],
                             Listed(p.value.toRemove, Indeffed) + Listed(p.value.toRemove, Inactive), engine).Ok?
    requires engine.findAll(LocatorExpression, FormatBody(formatSource)) == []
    ensures Prune(AsWritten, content, formatSource, env, engine, olds) == Err(CaptureIndexOutOfRange)
  {
    var st := Pass(env, Submatches(engine.findAll(formatSource, content))).value;
    assert |st.toReplace| > 0 by {
      var u :| u in st.toReplace;
    }
  }

  /** Any failure of the classification is the failure of the whole call. */
  lemma ClassificationErrorIsFatal(reading: Reading, content: string, formatSource: string, env: Env, engine: Engine,
                                   olds: seq<string>)
    requires Pass(env, Submatches(engine.findAll(formatSource, content))).Err?
    ensures Prune(reading, content, formatSource, env, engine, olds)
            == Err(Pass(env, Submatches(engine.findAll(formatSource, content))).error)
  {
  }
}
