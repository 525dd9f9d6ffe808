/** What the pruner does with one configured page (processArticle,
    pruner/main.go:155-318): prune per the page's content model, build the
    edit summary, save with the page's timestamps, prepare the notices, and
    retry once after an edit conflict. */
module Articles {
  import opened Common
  import opened GoStrings
  import opened PageConfig
  import opened Matches

  // ---------------------------------------------------------------------
  // The edit summary
  // ---------------------------------------------------------------------

  const EditSummaryOpening: string := "Pruning users as configured on page: processed "

  /** `fmt.Sprintf("%d <what> user(s)", n)`. */
  function CountPhrase(n: nat, what: string): (r: string)
    ensures HasPrefix(r, DecimalString(n))
  {
    var r := DecimalString(n) + " " + what + " user(s)";
    assert r[..|DecimalString(n)|] == DecimalString(n);
    r
  }

  /** summaryActionsTaken: one phrase per non-zero count, in the order
      expired, indeffed, renamed. */
  function SummaryActions(numExpired: nat, numIndeffed: nat, numRenamed: nat): seq<string>
  {
    (if numExpired != 0 then [CountPhrase(numExpired, "inactive")] else [])
    + (if numIndeffed != 0 then [CountPhrase(numIndeffed, "indeffed")] else [])
    + (if numRenamed != 0 then [CountPhrase(numRenamed, "renamed")] else [])
  }

  function EditSummary(numExpired: nat, numIndeffed: nat, numRenamed: nat): string
  {
    EditSummaryOpening + Join(SummaryActions(numExpired, numIndeffed, numRenamed), "; ")
  }

  /** The summary of pruner/main.go:203-218, written with a strings.Builder. */
  method BuildEditSummary(numExpired: nat, numIndeffed: nat, numRenamed: nat) returns (summary: string)
    ensures summary == EditSummary(numExpired, numIndeffed, numRenamed)
  {
    var editSummaryBuilder := new Builder();
    editSummaryBuilder.WriteString(EditSummaryOpening);
    var summaryActionsTaken: seq<string> := [];
    if numExpired != 0 {
      summaryActionsTaken := summaryActionsTaken + [CountPhrase(numExpired, "inactive")];
    }
    if numIndeffed != 0 {
      summaryActionsTaken := summaryActionsTaken + [CountPhrase(numIndeffed, "indeffed")];
    }
    if numRenamed != 0 {
      summaryActionsTaken := summaryActionsTaken + [CountPhrase(numRenamed, "renamed")];
    }
    assert summaryActionsTaken == SummaryActions(numExpired, numIndeffed, numRenamed);
    editSummaryBuilder.WriteString(Join(summaryActionsTaken, "; "));
    summary := editSummaryBuilder.contents;
    EmptyThenTwo(EditSummaryOpening, Join(summaryActionsTaken, "; "));
  }

  /** The summary names exactly the non-zero counts: one phrase each, whose
      leading digits read back as the count. */
  lemma SummaryReportsNonZeroCounts(numExpired: nat, numIndeffed: nat, numRenamed: nat)
    ensures var actions := SummaryActions(numExpired, numIndeffed, numRenamed);
            && |actions| == (if numExpired != 0 then 1 else 0) + (if numIndeffed != 0 then 1 else 0)
                             + (if numRenamed != 0 then 1 else 0)
            && (numExpired != 0 ==> actions[0] == CountPhrase(numExpired, "inactive"))
            && (numIndeffed != 0 ==> actions[if numExpired != 0 then 1 else 0] == CountPhrase(numIndeffed, "indeffed"))
            && (numRenamed != 0 ==> actions[|actions| - 1] == CountPhrase(numRenamed, "renamed"))
    ensures forall n: nat, what :: DigitsValue(CountPhrase(n, what)[..|DecimalString(n)|]) == n
    ensures HasPrefix(EditSummary(numExpired, numIndeffed, numRenamed), EditSummaryOpening)
  {
    forall n: nat, what ensures DigitsValue(CountPhrase(n, what)[..|DecimalString(n)|]) == n {
      DecimalStringRoundTrip(n);
    }
    var s := EditSummary(numExpired, numIndeffed, numRenamed);
    assert s[..|EditSummaryOpening|] == EditSummaryOpening;
  }

  /** With nothing counted the summary is the opening alone. */
  lemma SummaryOfNothing()
    ensures EditSummary(0, 0, 0) == EditSummaryOpening
  {
    assert EditSummaryOpening + "" == EditSummaryOpening;
  }

  // ---------------------------------------------------------------------
  // Notices to the pruned users
  // ---------------------------------------------------------------------

  const Attribution: string :=
    "\n <small>(replacing <span class=\"plainlinks\">[https://en.wikipedia.org/wiki/User:Yapperbot Yapperbot]</span>)</small> ~~~~"

  /** A notice parameter (`expiredmsg`, `talkmsgheader`), or the configured
      default when it is missing or empty. */
  function ParamOrDefault(parameters: map<string, string>, key: string, default: string): (v: string)
    ensures (key !in parameters || parameters[key] == "") ==> v == default
    ensures (key in parameters && parameters[key] != "") ==> v == parameters[key]
  {
    if key !in parameters || parameters[key] == "" then default else parameters[key]
  }

  /** The talk-page message for one user: the substituted template with the
      message name, the user, the page and the inactivity period, then the
      attribution and signature. */
  function NoticeText(expiredMsg: string, user: string, pageTitle: string, inactivity: string): (t: string)
    ensures HasPrefix(t, SubstOpening + expiredMsg + "|" + user + "|" + pageTitle + "|" + inactivity + SubstClosing)
    ensures |t| >= |Attribution| && t[|t| - |Attribution|..] == Attribution
  {
    JoinFour(expiredMsg, user, pageTitle, inactivity, "|");
    NoticeLayout(SubstOpening, SubstClosing, Attribution, expiredMsg, user, pageTitle, inactivity, "|");
    SubstOpening + Join([expiredMsg, user, pageTitle, inactivity], "|") + SubstClosing + Attribution
  }

  const SubstOpening: string := "{{subst:"
  const SubstClosing: string := "}}"

  /** Four arguments between an opening and a closing come first in the
      notice, the attribution last. */
  lemma NoticeLayout(opening: string, closing: string, attribution: string,
                     a: string, b: string, c: string, d: string, sep: string)
    ensures var t := opening + (a + sep + b + sep + c + sep + d) + closing + attribution;
            && HasPrefix(t, opening + a + sep + b + sep + c + sep + d + closing)
            && |t| >= |attribution| && t[|t| - |attribution|..] == attribution
  {
    var head := opening + (a + sep + b + sep + c + sep + d) + closing;
    assert head == opening + a + sep + b + sep + c + sep + d + closing;
    PrefixAndSuffix(head, attribution);
  }

  lemma PrefixAndSuffix(x: string, y: string)
    ensures HasPrefix(x + y, x) && (x + y)[|x + y| - |y|..] == y
  {
    assert (x + y)[..|x|] == x;
    assert (x + y)[|x|..] == y;
  }

  /** The talk-page messages and their section header; `expiredmsg = none`
      sends nothing. */
  datatype Notices = NoNotices | Notices(header: string, messages: map<string, string>)

  /** The notices prepared after a successful save (pruner/main.go:237-252):
      one message per expired user, unless the message name is "none". */
  function NoticesFor(parameters: map<string, string>, expiredUsers: seq<string>, pageTitle: string,
                      defaultMsg: string, defaultHeader: string): (notices: Notices)
    ensures ParamOrDefault(parameters, "expiredmsg", defaultMsg) == "none" <==> notices.NoNotices?
    ensures notices.Notices? ==>
      && notices.header == ParamOrDefault(parameters, "talkmsgheader", defaultHeader)
      && (forall u :: u in notices.messages <==> u in expiredUsers)
      && (forall u :: u in notices.messages ==>
            notices.messages[u] == NoticeText(ParamOrDefault(parameters, "expiredmsg", defaultMsg), u, pageTitle, Param(parameters, "inactivity")))
  {
    var expiredMsg := ParamOrDefault(parameters, "expiredmsg", defaultMsg);
    if expiredMsg == "none" then NoNotices
    else
      Notices(ParamOrDefault(parameters, "talkmsgheader", defaultHeader),
              map u | u in expiredUsers :: NoticeText(expiredMsg, u, pageTitle, Param(parameters, "inactivity")))
  }

  /** The notices of pruner/main.go:237-252: the message name and header
      looked up, then the loop filling `userMessages`. */
  method BuildNotices(parameters: map<string, string>, expiredUsers: seq<string>, pageTitle: string,
                      defaultMsg: string, defaultHeader: string) returns (notices: Notices)
    ensures notices == NoticesFor(parameters, expiredUsers, pageTitle, defaultMsg, defaultHeader)
  {
    var expiredMsg := ParamOrDefault(parameters, "expiredmsg", defaultMsg);
    if expiredMsg == "none" {
      return NoNotices;
    }
    var userMessages := FillMessages(expiredUsers, expiredMsg, pageTitle, Param(parameters, "inactivity"));
    notices := Notices(ParamOrDefault(parameters, "talkmsgheader", defaultHeader), userMessages);
  }

  /** The loop filling `userMessages` (pruner/main.go:245-247): one notice
      per expired user, keyed by the user. */
  method FillMessages(expiredUsers: seq<string>, expiredMsg: string, pageTitle: string, inactivity: string)
    returns (userMessages: map<string, string>)
    ensures userMessages == map u | u in expiredUsers :: NoticeText(expiredMsg, u, pageTitle, inactivity)
  {
    userMessages := map[];
    var i := 0;
    while i < |expiredUsers|
      invariant 0 <= i <= |expiredUsers|
      invariant userMessages == map u | u in expiredUsers[..i] :: NoticeText(expiredMsg, u, pageTitle, inactivity)
    {
      var user := expiredUsers[i];
      assert expiredUsers[..i + 1] == expiredUsers[..i] + [user];
      userMessages := userMessages[user := NoticeText(expiredMsg, user, pageTitle, inactivity)];
      i := i + 1;
    }
    assert expiredUsers[..|expiredUsers|] == expiredUsers;
  }

  // ---------------------------------------------------------------------
  // One page
  // ---------------------------------------------------------------------

  /** What a pruning function returns: new content, the three counts and
      the expired users. */
  datatype PruneOutput = PruneOutput(content: string, numExpired: nat, numIndeffed: nat, numRenamed: nat, expired: seq<string>)

  /** A page as the query hands it over. */
  datatype Page = Page(title: string, content: string, contentModel: string, revTS: string, curTS: string)

  /** The save request: title, text, summary and the two timestamps. */
  datatype PageEdit = PageEdit(title: string, text: string, summary: string, baseTimestamp: string, startTimestamp: string)

  /** The API's answer to a save. */
  datatype EditResult = Saved | ApiError(code: string) | EditNoChange | OtherError(message: string)

  /** The API error code of an edit conflict. */
  const EditConflictCode: string := "editconflict"

  datatype Refetch = Refetched(content: string, revTS: string, curTS: string) | RefetchFailed(message: string)

  /** Everything processArticle consults besides the page: the regex engine
      and the configured template name, the compiled formats by name, the two pruning functions (whose
      definitions are not part of this model), what JSON decoding leaves as
      the mass-message list's description, the edit limit, the wiki's answer
      to each save, the refetch, and the two configured defaults. */
  datatype Services = Services(
    clock: Clock,
    engine: Engine,
    configTemplate: string,
    formats: map<string, string>,
    pruneWikitext: (string, string, string, Time, Time) -> PruneOutput,
    massMessageDescription: string -> string,
    pruneMassMessage: (string, string, Time, Time) -> PruneOutput,
    canEdit: bool,
    save: PageEdit -> EditResult,
    refetch: string -> Refetch,
    defaultExpiredMsg: string,
    defaultTalkHeader: string)

  /** templateRegex.FindStringSubmatch (pruner/main.go:58, 100): the groups of
      the template's first occurrence in the text, none when it does not occur. */
  function TemplateMatch(sv: Services, text: string): (groups: seq<string>)
    ensures sv.engine.findAll(TemplatePattern(sv.configTemplate), text) == [] ==> groups == []
    ensures sv.engine.findAll(TemplatePattern(sv.configTemplate), text) != [] ==>
            groups == sv.engine.findAll(TemplatePattern(sv.configTemplate), text)[0].groups
  {
    FirstGroups(sv.engine.findAll(TemplatePattern(sv.configTemplate), text))
  }

  /** How the handling of a page ends. */
  datatype Outcome =
    | InvalidConfiguration(error: ConfigError)
    | UnknownFormat(format: string)
    | UnsupportedContentModel(model: string)
    | ContentUnchanged
    | EditLimitReached
    | Pruned(notices: Notices)
    | ConflictedTwice
    | RefetchFailedSkipped
    | AlreadyUpToDate
    | Fatal(reason: string)

  /** The save requests made, in order, and how it ended. */
  datatype Run = Run(attempts: seq<PageEdit>, outcome: Outcome)

  /** The content-model switch, before anything is saved. */
  datatype Selection = Stop(outcome: Outcome) | Proceed(output: PruneOutput, parameters: map<string, string>)

  /** The switch on the content model as written: a model that is neither
      wikitext nor a mass-message list leaves every result at its zero value
      and carries on. */
  function SelectAsWritten(sv: Services, page: Page): Selection
  {
    if page.contentModel == "wikitext" then
      var config := Configuration(TemplateMatch(sv, page.content), sv.clock);
      if config.err.Some? then
        if IsPanic(config.err.value) then Stop(Fatal("malformed template parameters"))
        else Stop(InvalidConfiguration(config.err.value))
      else if config.format !in sv.formats then Stop(UnknownFormat(config.format))
      else
        Proceed(sv.pruneWikitext(page.title, page.content, sv.formats[config.format],
                                 config.inactivityStamp, config.blockStamp),
                config.parameters)
    else if page.contentModel == "MassMessageListContent" then
      var config := Configuration(TemplateMatch(sv, sv.massMessageDescription(page.content)), sv.clock);
      if config.err.Some? && IsPanic(config.err.value) then Stop(Fatal("malformed template parameters"))
      else
        Proceed(sv.pruneMassMessage(page.title, page.content, config.inactivityStamp, config.blockStamp),
                config.parameters)
    else Proceed(PruneOutput("", 0, 0, 0, []), map[])
  }

  /** Corrected: the switch with an unsupported content model stopping the page. */
  function Select(sv: Services, page: Page): (s: Selection)
    ensures page.contentModel != "wikitext" && page.contentModel != "MassMessageListContent" ==>
            s == Stop(UnsupportedContentModel(page.contentModel))
    ensures page.contentModel == "wikitext" || page.contentModel == "MassMessageListContent" ==>
            s == SelectAsWritten(sv, page)
  {
    if page.contentModel == "wikitext" || page.contentModel == "MassMessageListContent" then SelectAsWritten(sv, page)
    else Stop(UnsupportedContentModel(page.contentModel))
  }

  /** The switch a reading of processArticle takes. */
  function Switch(reading: Reading, sv: Services, page: Page): Selection
  {
    if reading == AsWritten then SelectAsWritten(sv, page) else Select(sv, page)
  }

  function Rank(retry: bool): nat
  {
    if retry then 0 else 1
  }

  /** processArticle (pruner/main.go:155-318), `retry` telling whether this
      is the attempt after a conflict; the retry follows the same reading. */
  function ProcessArticle(sv: Services, page: Page, retry: bool, reading: Reading): (run: Run)
    ensures |run.attempts| <= Rank(retry) + 1
    ensures forall k :: 0 <= k < |run.attempts| ==> run.attempts[k].title == page.title
    decreases Rank(retry), 1
  {
    match Switch(reading, sv, page)
    case Stop(outcome) => Run([], outcome)
    case Proceed(output, parameters) => SaveStep(sv, page, output, parameters, retry, reading)
  }

  /** From the unchanged-content check to the end of processArticle; a
      first conflict refetches the page and handles it again with `retry` set. */
  function SaveStep(sv: Services, page: Page, output: PruneOutput, parameters: map<string, string>, retry: bool,
                    reading: Reading): (run: Run)
    ensures |run.attempts| <= Rank(retry) + 1
    ensures forall k :: 0 <= k < |run.attempts| ==> run.attempts[k].title == page.title
    decreases Rank(retry), 0
  {
    if output.content == page.content then Run([], ContentUnchanged)
    else if !sv.canEdit then Run([], EditLimitReached)
    else
      var edit := PageEdit(page.title, output.content,
                           EditSummary(output.numExpired, output.numIndeffed, output.numRenamed),
                           page.revTS, page.curTS);
      match sv.save(edit)
      case Saved =>
        Run([edit], Pruned(NoticesFor(parameters, output.expired, page.title, sv.defaultExpiredMsg, sv.defaultTalkHeader)))
      case ApiError(code) =>
        if code != EditConflictCode then Run([edit], Fatal("API error " + code))
        else if retry then Run([edit], ConflictedTwice)
        else
          (match sv.refetch(page.title)
           case RefetchFailed(_) => Run([edit], RefetchFailedSkipped)
           case Refetched(content, revTS, curTS) =>
             var next := ProcessArticle(sv, Page(page.title, content, page.contentModel, revTS, curTS), true, reading);
             Run([edit] + next.attempts, next.outcome))
      case EditNoChange => Run([edit], AlreadyUpToDate)
      case OtherError(message) => Run([edit], Fatal(message))
  }

  // ---------------------------------------------------------------------
  // What processArticle promises
  // ---------------------------------------------------------------------

  /** Content that pruning leaves unchanged is not saved, and nothing else
      happens to the page. */
  lemma UnchangedContentIsNotSaved(sv: Services, page: Page, retry: bool, reading: Reading)
    requires Switch(reading, sv, page).Proceed? && Switch(reading, sv, page).output.content == page.content
    ensures ProcessArticle(sv, page, retry, reading) == Run([], ContentUnchanged)
  {
  }

  /** The first save sends the pruned text, the summary of the counts and
      the page's own timestamps, so that the wiki can detect a conflict. */
  lemma FirstSaveIsThePrunedText(sv: Services, page: Page, retry: bool, reading: Reading)
    requires Switch(reading, sv, page).Proceed?
    requires ProcessArticle(sv, page, retry, reading).attempts != []
    ensures var out := Switch(reading, sv, page).output;
            ProcessArticle(sv, page, retry, reading).attempts[0]
              == PageEdit(page.title, out.content, EditSummary(out.numExpired, out.numIndeffed, out.numRenamed),
                          page.revTS, page.curTS)
            && out.content != page.content
  {
  }

  /** A conflict on the first save refetches the page and handles the
      fresh copy once more, as a retry. */
  lemma FirstConflictRetriesOnce(sv: Services, page: Page, reading: Reading, content: string, revTS: string, curTS: string)
    requires var s := Switch(reading, sv, page);
             && s.Proceed? && s.output.content != page.content && sv.canEdit
             && sv.save(PageEdit(page.title, s.output.content,
                                 EditSummary(s.output.numExpired, s.output.numIndeffed, s.output.numRenamed),
                                 page.revTS, page.curTS)) == ApiError(EditConflictCode)
             && sv.refetch(page.title) == Refetched(content, revTS, curTS)
    ensures var run := ProcessArticle(sv, page, false, reading);
            var again := ProcessArticle(sv, Page(page.title, content, page.contentModel, revTS, curTS), true, reading);
            && run.outcome == again.outcome
            && run.attempts == [run.attempts[0]] + again.attempts
            && |again.attempts| <= 1
  {
  }

  /** A conflict on the retry skips the page: no third save is made. */
  lemma SecondConflictSkips(sv: Services, page: Page, reading: Reading)
    requires var s := Switch(reading, sv, page);
             && s.Proceed? && s.output.content != page.content && sv.canEdit
             && sv.save(PageEdit(page.title, s.output.content,
                                 EditSummary(s.output.numExpired, s.output.numIndeffed, s.output.numRenamed),
                                 page.revTS, page.curTS)) == ApiError(EditConflictCode)
    ensures ProcessArticle(sv, page, true, reading).outcome == ConflictedTwice
    ensures |ProcessArticle(sv, page, true, reading).attempts| == 1
  {
  }

  /** A page is saved at most twice, whatever the wiki answers. */
  lemma AtMostTwoSaves(sv: Services, page: Page, reading: Reading)
    ensures |ProcessArticle(sv, page, false, reading).attempts| <= 2
  {
  }

  /** As written, a page with another content model is saved with an empty
      text whenever it is not empty itself (the zero value of the new
      content differs from it): the page is blanked. */
  lemma OtherContentModelBlanksPage(sv: Services, page: Page)
    requires page.contentModel != "wikitext" && page.contentModel != "MassMessageListContent"
    requires page.content != [] && sv.canEdit
    ensures var run := ProcessArticle(sv, page, false, AsWritten);
            run.attempts != [] && run.attempts[0].text == [] && run.attempts[0].summary == EditSummaryOpening
  {
    SummaryOfNothing();
  }

  /** Corrected, such a page is left alone. */
  lemma OtherContentModelSkipped(sv: Services, page: Page, retry: bool)
    requires page.contentModel != "wikitext" && page.contentModel != "MassMessageListContent"
    ensures ProcessArticle(sv, page, retry, Corrected) == Run([], UnsupportedContentModel(page.contentModel))
  {
  }
}
