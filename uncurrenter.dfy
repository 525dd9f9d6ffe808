/** Uncurrenter (uncurrenter/main.go): removes the {{current}} template, and
    every redirect to it, from articles whose last edit is more than five
    hours old. */
module Uncurrenter {
  import opened Common
  import opened GoStrings
  import opened Matches

  // ---------------------------------------------------------------------
  // The pattern for {{current}} and its redirects
  // ---------------------------------------------------------------------

  const PatternOpening: string := "(?i){{(?:" + "current"

  /** Optional spaces, then either nothing or `|` followed by parameters
      that may hold templates without nested braces, then the closing
      braces and an optional newline. */
  const PatternClosing: string := ") *(?:\\|(?:{{[^}{]*}}|[^}{]*)*|)}}\\n?"

  /** One batch of redirect pages from the query, each with its title or
      None when the title field could not be read. */
  type Batch = seq<Option<string>>

  /** The template's name as it is written inside braces. */
  function TemplateName(title: string): string
  {
    TrimPrefix(title, "Template:")
  }

  /** The names of the redirect pages of one batch whose title could be
      read, in query order. */
  function BatchNames(pages: Batch): seq<string>
  {
    if pages == [] then []
    else
      BatchNames(pages[..|pages| - 1])
      + (match pages[|pages| - 1] case Some(t) => [TemplateName(t)] case None => [])
  }

  /** The names of all readable redirect pages, batch after batch. */
  function RedirectNames(batches: seq<Batch>): seq<string>
  {
    if batches == [] then []
    else RedirectNames(batches[..|batches| - 1]) + BatchNames(batches[|batches| - 1])
  }

  /** `|` and the quoted name for each name. */
  function Alternatives(names: seq<string>): string
  {
    if names == [] then ""
    else Alternatives(names[..|names| - 1]) + "|" + QuoteMeta(names[|names| - 1])
  }

  /** The pattern currentTemplateRegex is compiled from. */
  function CurrentTemplatePattern(batches: seq<Batch>): string
  {
    PatternOpening + Alternatives(RedirectNames(batches)) + PatternClosing
  }

  /** The alternatives of two lists of names are those of the first, then
      those of the second. */
  lemma {:induction false} AlternativesAppend(xs: seq<string>, ys: seq<string>)
    ensures Alternatives(xs + ys) == Alternatives(xs) + Alternatives(ys)
    decreases |ys|
  {
    if ys == [] {
      assert xs + ys == xs;
    } else {
      var init := ys[..|ys| - 1];
      var last := ys[|ys| - 1];
      assert (xs + ys)[..|xs + ys| - 1] == xs + init;
      AlternativesAppend(xs, init);
      ConcatAssoc4(Alternatives(xs), Alternatives(init), "|", QuoteMeta(last));
    }
  }

  /** The loop over one batch's pages: `|` and the quoted name of each page
      whose title can be read. */
  method WriteBatch(regexBuilder: Builder, pages: Batch)
    modifies regexBuilder
    ensures regexBuilder.contents == old(regexBuilder.contents) + Alternatives(BatchNames(pages))
  {
    ghost var start := regexBuilder.contents;
    var p := 0;
    assert pages[..0] == [] && start + "" == start;
    while p < |pages|
      invariant 0 <= p <= |pages|
      invariant regexBuilder.contents == start + Alternatives(BatchNames(pages[..p]))
    {
      BatchNamesStep(pages, p);
      WritePage(regexBuilder, pages[p]);
      ConcatAssoc(start, Alternatives(BatchNames(pages[..p])), PageAlternative(pages[p]));
      p := p + 1;
    }
    assert pages[..|pages|] == pages;
  }

  /** What one redirect page adds: `|` and its quoted name when its title
      can be read, nothing when it cannot. */
  function PageAlternative(page: Option<string>): string
  {
    match page
    case Some(t) => "|" + QuoteMeta(TemplateName(t))
    case None => ""
  }

  /** The body of the loop over a batch's pages (uncurrenter/main.go:60-66). */
  method WritePage(regexBuilder: Builder, page: Option<string>)
    modifies regexBuilder
    ensures regexBuilder.contents == old(regexBuilder.contents) + PageAlternative(page)
  {
    match page {
      case None =>
        assert old(regexBuilder.contents) + "" == regexBuilder.contents;
      case Some(pageTitle) =>
        ghost var start := regexBuilder.contents;
        regexBuilder.WriteString("|");
        regexBuilder.WriteString(QuoteMeta(TrimPrefix(pageTitle, "Template:")));
        ConcatAssoc(start, "|", QuoteMeta(TemplateName(pageTitle)));
    }
  }

  /** One more page adds what that page contributes. */
  lemma BatchNamesStep(pages: Batch, p: nat)
    requires p < |pages|
    ensures Alternatives(BatchNames(pages[..p + 1])) == Alternatives(BatchNames(pages[..p])) + PageAlternative(pages[p])
  {
    assert pages[..p + 1][..p] == pages[..p];
    var names := BatchNames(pages[..p]);
    match pages[p] {
      case None =>
        assert BatchNames(pages[..p + 1]) == names;
      case Some(t) =>
        assert BatchNames(pages[..p + 1]) == names + [TemplateName(t)];
        assert (names + [TemplateName(t)])[..|names|] == names;
    }
  }

  /** The building of currentTemplateRegex's source (uncurrenter/main.go:53-70):
      a strings.Builder written to inside the loop over query batches and
      the loop over each batch's pages. */
  method BuildCurrentTemplatePattern(batches: seq<Batch>) returns (pattern: string)
    ensures pattern == CurrentTemplatePattern(batches)
  {
    var regexBuilder := new Builder();
    regexBuilder.WriteString(PatternOpening);
    WriteBatches(regexBuilder, batches);
    regexBuilder.WriteString(PatternClosing);
    pattern := regexBuilder.contents;
    EmptyThenThree(PatternOpening, Alternatives(RedirectNames(batches)), PatternClosing);
  }

  /** The loop over the query's batches. */
  method WriteBatches(regexBuilder: Builder, batches: seq<Batch>)
    modifies regexBuilder
    ensures regexBuilder.contents == old(regexBuilder.contents) + Alternatives(RedirectNames(batches))
  {
    ghost var start := regexBuilder.contents;
    var q := 0;
    assert batches[..0] == [];
    while q < |batches|
      invariant 0 <= q <= |batches|
      invariant regexBuilder.contents == start + Alternatives(RedirectNames(batches[..q]))
    {
      WriteBatchAt(regexBuilder, batches, q, start);
      q := q + 1;
    }
    assert batches[..|batches|] == batches;
  }

  /** The body of the loop over the query's batches: batch `q` written. */
  method WriteBatchAt(regexBuilder: Builder, batches: seq<Batch>, q: nat, ghost start: string)
    requires q < |batches|
    requires regexBuilder.contents == start + Alternatives(RedirectNames(batches[..q]))
    modifies regexBuilder
    ensures regexBuilder.contents == start + Alternatives(RedirectNames(batches[..q + 1]))
  {
    var pages := batches[q];
    ghost var done := Alternatives(RedirectNames(batches[..q]));
    RedirectNamesStep(batches, q);
    if |pages| > 0 {
      WriteBatch(regexBuilder, pages);
      ConcatAssoc(start, done, Alternatives(BatchNames(pages)));
    } else {
      assert Alternatives(BatchNames(pages)) == "";
    }
  }

  /** One more batch adds the alternatives of its readable pages. */
  lemma RedirectNamesStep(batches: seq<Batch>, q: nat)
    requires q < |batches|
    ensures Alternatives(RedirectNames(batches[..q + 1]))
            == Alternatives(RedirectNames(batches[..q])) + Alternatives(BatchNames(batches[q]))
  {
    assert batches[..q + 1][..q] == batches[..q];
    AlternativesAppend(RedirectNames(batches[..q]), BatchNames(batches[q]));
  }

  /** A first alternative followed by the alternatives of `names` is the
      `|`-join of that alternative and each name quoted. */
  lemma AlternativesJoin(head: string, names: seq<string>)
    ensures head + Alternatives(names) == Join([head] + QuoteAll(names), "|")
  {
    AlternativesAreBarPrefixed(names);
    BarPrefixedJoin(head, QuoteAll(names));
  }

  /** `|` before each of `parts`, concatenated. */
  function BarPrefixed(parts: seq<string>): string
  {
    if parts == [] then "" else BarPrefixed(parts[..|parts| - 1]) + "|" + parts[|parts| - 1]
  }

  lemma {:induction false} AlternativesAreBarPrefixed(names: seq<string>)
    ensures Alternatives(names) == BarPrefixed(QuoteAll(names))
    decreases |names|
  {
    if names != [] {
      var init := names[..|names| - 1];
      var last := names[|names| - 1];
      AlternativesAreBarPrefixed(init);
      assert Alternatives(names) == BarPrefixed(QuoteAll(init)) + "|" + QuoteMeta(last);
      BarPrefixedAppend(QuoteAll(init), QuoteMeta(last));
      QuoteAllAppend(init, last);
      assert init + [last] == names;
    }
  }

  lemma BarPrefixedAppend(parts: seq<string>, last: string)
    ensures BarPrefixed(parts + [last]) == BarPrefixed(parts) + "|" + last
  {
    assert (parts + [last])[..|parts|] == parts;
  }

  lemma {:induction false} BarPrefixedJoin(head: string, parts: seq<string>)
    ensures head + BarPrefixed(parts) == Join([head] + parts, "|")
    decreases |parts|
  {
    if parts == [] {
      assert [head] + parts == [head];
      assert head + "" == head;
    } else {
      var init := parts[..|parts| - 1];
      var last := parts[|parts| - 1];
      BarPrefixedJoin(head, init);
      assert [head] + parts == ([head] + init) + [last];
      JoinAppend([head] + init, last, "|");
      ConcatAssoc4(head, BarPrefixed(init), "|", last);
    }
  }

  /** The pattern is the opening, a group whose alternatives are `current`
      and each readable redirect's name read literally, and the fixed
      closing; the quoted names read back as the names. */
  lemma PatternAlternatives(batches: seq<Batch>)
    ensures var names := RedirectNames(batches);
            && CurrentTemplatePattern(batches)
               == "(?i){{(?:" + Join(["current"] + QuoteAll(names), "|") + PatternClosing
            && forall k :: 0 <= k < |names| ==> UnquoteMeta(QuoteAll(names)[k]) == names[k]
  {
    var names := RedirectNames(batches);
    AlternativesJoin("current", names);
    ConcatAssoc("(?i){{(?:", "current", Alternatives(names));
    forall k | 0 <= k < |names| ensures UnquoteMeta(QuoteAll(names)[k]) == names[k] {
      QuoteMetaRoundTrip(names[k]);
    }
  }

  /** Some page of `pages` has a readable title whose template name is `name`. */
  predicate HasReadable(pages: Batch, name: string)
  {
    exists i :: 0 <= i < |pages| && pages[i].Some? && TemplateName(pages[i].value) == name
  }

  /** A redirect contributes its name exactly when its title can be read:
      a name is listed if and only if some batch has a readable page with it. */
  lemma {:induction false} RedirectNamesAreReadableTitles(batches: seq<Batch>, name: string)
    ensures name in RedirectNames(batches) <==> exists q :: 0 <= q < |batches| && HasReadable(batches[q], name)
    decreases |batches|
  {
    if batches != [] {
      var init := batches[..|batches| - 1];
      var last := batches[|batches| - 1];
      RedirectNamesAreReadableTitles(init, name);
      BatchNamesAreReadableTitles(last, name);
      assert forall q :: 0 <= q < |init| ==> init[q] == batches[q];
      if exists q :: 0 <= q < |batches| && HasReadable(batches[q], name) {
        var q :| 0 <= q < |batches| && HasReadable(batches[q], name);
        if q < |init| {
          assert HasReadable(init[q], name);
        }
      }
    }
  }

  lemma {:induction false} BatchNamesAreReadableTitles(pages: Batch, name: string)
    ensures name in BatchNames(pages) <==> HasReadable(pages, name)
    decreases |pages|
  {
    if pages != [] {
      var init := pages[..|pages| - 1];
      BatchNamesAreReadableTitles(init, name);
      if exists i :: 0 <= i < |pages| && pages[i].Some? && TemplateName(pages[i].value) == name {
        var i :| 0 <= i < |pages| && pages[i].Some? && TemplateName(pages[i].value) == name;
        if i < |init| {
          assert init[i] == pages[i];
        }
      }
      if name in BatchNames(init) {
        var i :| 0 <= i < |init| && init[i].Some? && TemplateName(init[i].value) == name;
        assert pages[i] == init[i];
      }
    }
  }

  // ---------------------------------------------------------------------
  // The edit gate
  // ---------------------------------------------------------------------

  /** time.Hour in nanoseconds. */
  const Hour: int := 3_600_000_000_000

  const EditSummary: string :=
    "Auto-removing {{current}} - no edits in 5hrs+. The event may still be current, but "
    + "[[Template:Current|the {{current}} template is designed only for articles which many editors are editing, "
    + "and is usually up for less than a day]]."

  /** A page as the embedded-in query hands it over. */
  datatype Page = Page(title: string, content: string, revTS: string, curTS: string)

  /** The save request: title, text, summary and the two timestamps. */
  datatype Edit = Edit(title: string, text: string, summary: string, baseTimestamp: string, startTimestamp: string)

  /** The wiki's answer to a save: success, an API error with its code, or
      a client-side error (mwclient.ErrEditNoChange among them). */
  datatype SaveResult = Saved | ApiError(code: string) | ClientError(message: string)

  /** The clock (nanoseconds), RFC 3339 parsing, the bot-exclusion check,
      the edit limit, and the wiki's answer to a save. */
  datatype Wiki = Wiki(
    now: int,
    parseRfc3339: string -> Option<int>,
    botAllowed: string -> bool,
    canEdit: bool,
    save: Edit -> SaveResult)

  datatype Outcome =
    | BadTimestamp
    | NotEligible
    | ContentUnchanged
    | TemplateRemoved
    | ConflictSkipped
    | Fatal(reason: string)

  /** The save made, if any, and how the page's handling ended. */
  datatype Handled = Handled(edit: Option<Edit>, outcome: Outcome)

  /** More than five hours since the last revision, the bot not excluded,
      and the edit limit not reached. */
  predicate Eligible(wiki: Wiki, lastRevision: int, content: string)
  {
    wiki.now - lastRevision > 5 * Hour && wiki.botAllowed(content) && wiki.canEdit
  }

  /** The content with every match of the pattern removed. */
  function Uncurrented(engine: Engine, pattern: string, content: string): string
  {
    ReplaceAllMatches(content, engine.findAll(pattern, content), "")
  }

  /** The callback run for each page embedding {{current}}
      (uncurrenter/main.go:84-124). */
  function HandlePage(wiki: Wiki, engine: Engine, pattern: string, page: Page): Handled
  {
    match wiki.parseRfc3339(page.revTS)
    case None => Handled(None, BadTimestamp)
    case Some(lastRevision) =>
      if !Eligible(wiki, lastRevision, page.content) then Handled(None, NotEligible)
      else
        var newContent := Uncurrented(engine, pattern, page.content);
        if newContent == page.content then Handled(None, ContentUnchanged)
        else
          var edit := Edit(page.title, newContent, EditSummary, page.revTS, page.curTS);
          match wiki.save(edit)
          case Saved => Handled(Some(edit), TemplateRemoved)
          case ApiError(code) =>
            if code == "editconflict" then Handled(Some(edit), ConflictSkipped)
            else Handled(Some(edit), Fatal("API error " + code))
          case ClientError(message) => Handled(Some(edit), Fatal(message))
  }

  /** A save is made exactly when the timestamp parses, the page is
      eligible and removing the template changes the text; it sends the text
      without the matches, the fixed summary and the page's timestamps. */
  lemma EditExactlyWhenEligibleAndChanged(wiki: Wiki, engine: Engine, pattern: string, page: Page)
    ensures var h := HandlePage(wiki, engine, pattern, page);
            h.edit.Some? <==>
              (wiki.parseRfc3339(page.revTS).Some?
               && Eligible(wiki, wiki.parseRfc3339(page.revTS).value, page.content)
               && Uncurrented(engine, pattern, page.content) != page.content)
    ensures var h := HandlePage(wiki, engine, pattern, page);
            h.edit.Some? ==>
              h.edit.value == Edit(page.title, Uncurrented(engine, pattern, page.content), EditSummary,
                                   page.revTS, page.curTS)
  {
  }

  /** A page the pattern does not match is never saved. */
  lemma NoTemplateNoEdit(wiki: Wiki, engine: Engine, pattern: string, page: Page)
    requires engine.findAll(pattern, page.content) == []
    ensures HandlePage(wiki, engine, pattern, page).edit == None
  {
    NoMatchNoChange(page.content, []);
    assert Replicate("", 0) == [];
  }

  /** A revision exactly five hours old is still too recent. */
  lemma FiveHoursIsTooRecent(wiki: Wiki, engine: Engine, pattern: string, page: Page)
    requires wiki.parseRfc3339(page.revTS) == Some(wiki.now - 5 * Hour)
    ensures HandlePage(wiki, engine, pattern, page) == Handled(None, NotEligible)
  {
  }

  /** An edit conflict skips the page after the one save; any other error
      is fatal, the no-change error included. */
  lemma ConflictSkipsOtherErrorsAreFatal(wiki: Wiki, engine: Engine, pattern: string, page: Page)
    requires HandlePage(wiki, engine, pattern, page).edit.Some?
    ensures var h := HandlePage(wiki, engine, pattern, page);
            wiki.save(h.edit.value) == ApiError("editconflict") ==> h.outcome == ConflictSkipped
    ensures var h := HandlePage(wiki, engine, pattern, page);
            ((wiki.save(h.edit.value).ApiError? && wiki.save(h.edit.value).code != "editconflict")
             || wiki.save(h.edit.value).ClientError?) ==> h.outcome.Fatal?
    ensures var h := HandlePage(wiki, engine, pattern, page);
            wiki.save(h.edit.value) == Saved <==> h.outcome == TemplateRemoved
  {
  }
}
