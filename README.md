# Yapperbot list pruner, uncurrenter and FRS error table, in Dafny

This project models three parts of the Yapperbot Wikipedia bots.

- **The list pruner** (`pruner/prune.go`, `pruner/main.go`) works on
  project pages that carry a configuration template. For each user
  listed on such a page it asks the account database three things: has the
  user edited since the cut-off, has their user page been redirected, and
  are they indefinitely blocked. It then removes inactive and blocked
  users from the list, renames redirected users, and saves the page with an
  edit summary counting what it did. After the save it prepares talk-page
  notices for the expired users. An edit conflict gets one refetch and
  retry.
- **The uncurrenter** (`uncurrenter/main.go`) builds one regular expression
  matching `{{current}}` and every redirect to it. It removes that template
  from articles whose last revision is more than five hours old.
- **The FRS error table** (`frs/errorTableBuilder.go`) renders a map from
  page titles to error messages as a sortable wikitable, with the rows in
  key order.

Modules:

- `Common`: `Option`, `Result`, duplicate-free sequences.
- `GoStrings`: the Go library string functions the code relies on
  (`strings.Split`/`Join`/`TrimSpace`/`ReplaceAll`/`TrimPrefix`,
  `regexp.QuoteMeta`, the `$` template expansion of `Regexp.Expand`,
  decimal formatting) and a `Builder` class for `strings.Builder`.
- `Matches`: an abstract regex engine. The engine reports sorted,
  non-overlapping match spans with their groups. `ReplaceAllString` is
  stated over those spans.
- `Username`: the root of a captured name, and `usernameCase`.
- `Classifier`: the database-driven loop of `pruneUsersFromList`, stated
  against a per-user reference verdict.
- `Pruner`: the derived removal and rename patterns, the rewrite of the
  page, and the whole of `pruneUsersFromList`, as written and corrected.
- `PageConfig`: `enumeratePagePrunerConfig`.
- `Articles`: the edit summary, the notices and the `processArticle`
  control flow.
- `ErrorTable`: `buildErrorTable`.
- `Uncurrenter`: the redirect pattern builder and the edit gate.

The whole-call functions `Pruner.Prune` and `Articles.ProcessArticle` take
a `Reading`. `AsWritten` follows the source, including the three defects
listed under "## Findings". `Corrected` follows the evident intent. The
methods `PruneUsersFromList` and `RenameUsers` are proved equal to the
`AsWritten` reading. Lemmas about the whole call hold under either reading
unless their row names one.

Methods that loop or write to a builder are proved equal to a
specification function, e.g. `ClassifyMatches`, `BuildRemovalPattern`,
`EnumeratePagePrunerConfig`, `BuildEditSummary`, `BuildNotices`,
`BuildErrorTable` and `BuildCurrentTemplatePattern`. Lemmas then state
what that function means.

## Model

| member | source | states |
|---|---|---|
| Username.RootName | pruner/prune.go:134 | The root has no `/` and is a prefix of the capture. It is the whole capture when the capture has no `/`; otherwise it ends just before the first `/`. |
| Username.DecodeFirstRune | pruner/prune.go:288 | Empty input decodes with size 0. Otherwise the first rune is decoded, with size at least 1. |
| Username.UsernameCase | pruner/prune.go:287-302 | The length is kept and empty stays empty. There is no `_` in the result. The first rune is the override-or-`ToUpper` upcase, with `_` turned to a space. Every later rune only has `_` turned to a space. |
| Username.UsernameCaseIdempotent | pruner/prune.go:287-302 | Applying `usernameCase` twice gives what applying it once gives, for casing tables whose upcase is stable. |
| Classifier.RedirectTarget | pruner/prune.go:164 | A redirect target has its underscores turned to spaces and is cut at the first `/`: it holds neither `_` nor `/`. |
| Classifier.ClassifyMatches | pruner/prune.go:126-184 | The loop fills `checkedUsers`, `usersToRemove` and `usersToReplace` exactly as the reference pass over the submatches does. |
| Classifier.PassStaysFailed | pruner/prune.go:129-130 | Once a submatch has aborted the pass, later submatches do not change the result. |
| Classifier.PassComputesVerdicts | pruner/prune.go:126-184 | The pass succeeds if and only if every submatch has exactly one group and every root gets a verdict without a lookup error. On success each list and the rename map hold exactly the roots, in first-seen order, that the per-user reference verdict sends there. |
| Classifier.RootsDistinct | pruner/prune.go:134-140 | The roots classified in one pass are duplicate-free: one classification per root. |
| Classifier.SelectedMembers | pruner/prune.go:153-158 | A user is in a reason's selection exactly when it is a classified root whose verdict is that reason. The selection repeats no user. |
| Classifier.RemovalListsDistinct | pruner/prune.go:134-180 | The inactive list and the indeffed list are each duplicate-free and are disjoint. |
| Classifier.ActiveUserNeverInactive | pruner/prune.go:141-158 | A user with an edit since the cut-off is neither inactive nor renamed. They are indeffed exactly when the block lookup on the cased name finds a row. |
| Classifier.UnredirectedIdleUserIsInactive | pruner/prune.go:153-158 | No edit and no redirect puts the raw root in the inactive list, and nowhere else. |
| Classifier.InactiveSkipsBlockCheck | pruner/prune.go:153-175 | For an inactive user the verdict does not depend on the block lookup at all. |
| Classifier.RedirectedUserRenamed | pruner/prune.go:164-180 | A redirected user is mapped to the redirect target and is not inactive. They are also indeffed exactly when the target is blocked. |
| Classifier.LookupErrorAbortsPass | pruner/prune.go:159-182 | A lookup error (other than no rows) for any classified root aborts the whole pass. |
| Classifier.DispositionFailsOnlyOnFailedQuery | pruner/prune.go:145-182 | A user's classification fails exactly when a lookup on its path fails. The path is the edit lookup, then the block lookup on the cased name after an edit, or else the redirect lookup, then the block lookup on a found redirect's target. |
| Classifier.DeduplicationIsOnRawRoot | pruner/prune.go:134-141 | `Dave_Smith` and `Dave Smith` are both classified: deduplication is on the raw root, not on the `usernameCase` form. |
| Pruner.FormatBody | pruner/prune.go:120 | A leading `(?im)` is removed from the format source. Otherwise the source is kept as is. |
| Pruner.EscapeEntries | pruner/prune.go:206-215 | Each entry is the QuoteMeta'd name with `$` doubled, position by position. |
| Pruner.EscapeRemovalNames | pruner/prune.go:206-215 | The array holds the escaped indeffed names, then the escaped inactive names, in order. |
| Pruner.EscapeName | pruner/prune.go:212 | One entry, `ReplaceAll(QuoteMeta(user), "$", "$$")`, is the quoted name with every `$` doubled. |
| Pruner.EscapeInto | pruner/prune.go:209-214 | The inner loop writes the escaped names into consecutive slots from the running index on and leaves every other slot as it was. |
| Pruner.BuildRemovalPattern | pruner/prune.go:202-225 | The builder produces the removal pattern of the format, the located group and the indeffed-then-inactive names. |
| Pruner.EscapedJoin | pruner/prune.go:212-223 | Joining the escaped entries is the same as escaping `$` in the join of the quoted names. |
| Pruner.RemovalTemplateExpands | pruner/prune.go:222-223 | The replacement `$1(` + entries + `)` expands to the preceding character, then `(`, then the quoted names joined by `\|`, then `)`. The doubled `$` are undone. |
| Pruner.RemovalPatternReplacesCaptureGroup | pruner/prune.go:204-225 | With the group located at `[s,e)`, the removal pattern is `(?im)` + `fmt[..s+1]` + `(` + quoted names joined by `\|` + `)` + `fmt[e..]` + `\n?`. |
| Pruner.QuotedNamesAreLiteral | pruner/prune.go:212 | Every quoted name has all its metacharacters escaped and unquotes back to the name. |
| Pruner.UnlocatedRemovalPatternIgnoresNames | pruner/prune.go:222-225 | With no located group, the removal pattern is `(?im)` + the format + `\n?`, whatever the names. |
| Pruner.BuildRenamePattern | pruner/prune.go:238-250 | The builder produces `(?im)(` + `fmt[..s+1]` + `)` + QuoteMeta(old) + `(` + `fmt[e..]` + `)`. |
| Pruner.RenameTemplateExpands | pruner/prune.go:258-260 | `${1}` + new (with `$` doubled) + `${2}` expands to group 1, then the new name, then group 2. |
| Pruner.RenameStepKeepsSurroundings | pruner/prune.go:266-276 | Text outside the matches is kept. Each match becomes its own group 1 + new name + group 2, after the two link fix-ups. |
| Pruner.RenameToSameNameIsIdentity | pruner/prune.go:266-276 | With the corrected per-match rename step, renaming a user to the same name leaves the page unchanged. |
| Pruner.LinkFixupsOnShortText | pruner/prune.go:268-275 | The fix-ups leave text too short to hold either link untouched. |
| Pruner.RenameCopiesFirstMatch | pruner/prune.go:258-276 | As written, two matches with different surroundings are both replaced by the first match's expansion. The corrected step keeps the second match's own surroundings. |
| Pruner.RenameCopiesFirstMatchExample | pruner/prune.go:258-276 | Concrete case: `{{u\|Bob\|a}}` and `{{u\|Bob\|b}}` renamed to Rob become two copies of `{{u\|Rob\|a}}` as written. |
| Pruner.UnlocatedRemovalRemovesEveryEntry | pruner/prune.go:222-232 | As written, when the locator finds no group, the removal deletes every match of the format. That is every entry, listed or not. |
| Pruner.UnlocatedFormatDeletesEveryEntry | pruner/prune.go:202-236 | As written, for the whole call: with users to remove, none to rename and no located group, the call succeeds and the page loses every match of `(?im)` + the format + `\n?`. |
| Pruner.UnlocatedRenamePanics | pruner/prune.go:236-244 | As written, with a rename to make and no located group, the call fails on the index into the locator's missing result, whatever the removal did. |
| Pruner.RenameUsers | pruner/prune.go:237-276 | The loop gives the as-written chained renames, in which every match of one rename becomes the first match's expansion. They run in the order the map iteration picks. That order has no repeats and holds only old names of the map. When no rename regex fails to compile, it holds every one of them. |
| Pruner.PruneUsersFromList | pruner/prune.go:109-282 | The result is the as-written whole-call model for the rename order the map iteration picks. An unlocated group is used whole for the removal, and a rename then fails on the missing index. That order lists every renamed user exactly once. |
| Pruner.FinishReportsState | pruner/prune.go:280-281 | However the content came out, a successful finish returns the inactive list and the rename map of the classification, with the three counts those lists give. |
| Pruner.PruneReportsVerdicts | pruner/prune.go:280-281 | The counts are the lengths of inactive, indeffed and renames. The returned list is the inactive roots only. The rename map holds exactly the redirected roots, with their targets. |
| Pruner.NothingToDoLeavesPage | pruner/prune.go:203-235 | With nothing to remove and nothing to rename, the content comes back identical, with zero counts. |
| Pruner.UnmatchedPageUnchanged | pruner/prune.go:126-235 | A page on which the format never matches is returned unchanged. |
| Pruner.UnlocatedFormatRefused | pruner/prune.go:202-244 | Corrected: if there is something to remove and the locator finds no capture group, the call refuses the format with an error instead of rewriting. |
| Pruner.ClassificationErrorIsFatal | pruner/prune.go:159-182 | A failed classification is the result of the whole call. No rewrite happens. |
| PageConfig.TemplatePattern | pruner/main.go:58 | The template regex starts with `{{` and the QuoteMeta'd template name. |
| PageConfig.Rejected | pruner/main.go:104 | A rejection carries zero times, format `none` and an empty map. |
| PageConfig.ParseParameterList | pruner/main.go:110-114 | The loop drops the first character of group 1, splits on `\|`, and builds the parameters as the reference does. An empty group and a piece without `=` are errors (index out of range in the source). |
| PageConfig.ParametersAreLastValues | pruner/main.go:110-114 | Parsing fails exactly when some piece has no `=`. Otherwise each key holds the trimmed value of its last occurrence, and no other key is present. |
| PageConfig.FirstMissing | pruner/main.go:117-122 | None exactly when both required parameters are present; otherwise a required parameter that is absent. |
| PageConfig.BlockStamp | pruner/main.go:147-150 | The block cut-off is only the zero time when two months back is. |
| PageConfig.Accepted | pruner/main.go:125-152 | An unparsable inactivity value rejects the page with the zero results. |
| PageConfig.Configuration | pruner/main.go:99-153 | Every error comes with the zero results of a rejection. |
| PageConfig.EnumeratePagePrunerConfig | pruner/main.go:99-153 | The method returns the configuration the reference function defines. |
| PageConfig.CheckRequired | pruner/main.go:117-122 | The loop gives the first of `inactivity` and `format` absent from the parameters, or none when both are present. |
| PageConfig.ReadStamps | pruner/main.go:124-152 | With both required parameters present, the cut-offs are those of the accepted configuration. An unreadable inactivity offset is rejected. |
| PageConfig.NoMatchIsRejected | pruner/main.go:100-105 | No template match gives an error, zero times, `none` and an empty map. |
| PageConfig.AcceptedHasRequiredParameters | pruner/main.go:117-152 | An accepted configuration has `inactivity` and `format`. Its format is the `format` value and its inactivity cut-off is the parsed offset. Lacking either parameter is a missing-parameter error. |
| PageConfig.IndeffedZeroMeansNow | pruner/main.go:133-138 | `indeffed = 0` puts the block cut-off at now. |
| PageConfig.IndeffedAbsentMeansTwoMonths | pruner/main.go:131-150 | A missing or empty `indeffed` puts the block cut-off two months back. |
| PageConfig.IndeffedOffset | pruner/main.go:139-150 | Any other value gives the parsed offset from now, unless that is the zero time, which defaults to two months back. |
| PageConfig.AcceptedBlockStampNotZero | pruner/main.go:147-150 | An accepted configuration never has a zero block cut-off, unless two months back is zero. |
| Articles.CountPhrase | pruner/main.go:39-41 | The phrase starts with the decimal count. |
| Articles.BuildEditSummary | pruner/main.go:203-218 | The builder produces the opening followed by the `; `-joined phrases. |
| Articles.SummaryReportsNonZeroCounts | pruner/main.go:207-218 | There is one phrase per non-zero count, in the order inactive, indeffed, renamed, and each phrase reads back its count. The summary starts with the opening. |
| Articles.SummaryOfNothing | pruner/main.go:205-218 | With all counts zero the summary is the opening alone. |
| Articles.ParamOrDefault | pruner/main.go:239-252 | `expiredmsg` and `talkmsgheader` take the configured default when missing or empty, and are taken as given otherwise. |
| Articles.NoticeText | pruner/main.go:246 | Each notice starts `{{subst:` + message\|user\|page\|inactivity + `}}` and ends with the attribution and signature. |
| Articles.NoticesFor | pruner/main.go:237-252 | A message of `none` means no notices at all. Otherwise there is exactly one notice per expired user, with the notice text and the header. |
| Articles.BuildNotices | pruner/main.go:237-252 | The lookups and the loop build those notices. |
| Articles.FillMessages | pruner/main.go:245-247 | The loop's map has exactly the expired users as keys. Each maps to its own notice text. |
| Articles.TemplateMatch | pruner/main.go:100 | The template's groups are those of the first match of the template regex. No match gives none. |
| Articles.Select | pruner/main.go:167-196 | The corrected switch stops with an unsupported-model outcome on any other content model. For the two known models it agrees with the source's switch. |
| Articles.ProcessArticle | pruner/main.go:155-318 | Under either reading, a first attempt makes at most two saves and a retry at most one, and every save is for the page's own title. `AsWritten` takes the source's content-model switch, `Corrected` takes `Select`. |
| Articles.SaveStep | pruner/main.go:198-317 | The save step makes at most one save per attempt, for the page's own title. |
| Articles.UnchangedContentIsNotSaved | pruner/main.go:198-201 | Unchanged content means no save and nothing else. |
| Articles.FirstSaveIsThePrunedText | pruner/main.go:224-233 | The first save sends the pruned text, the summary and the page's timestamps, and that text differs from the page. |
| Articles.FirstConflictRetriesOnce | pruner/main.go:289-303 | A first conflict refetches the page and handles it once more with `retry` set. The outcome is that of the retry. |
| Articles.SecondConflictSkips | pruner/main.go:290-293 | A conflict on the retry skips the page after its single save. |
| Articles.AtMostTwoSaves | pruner/main.go:289-304 | A page is saved at most twice. |
| Articles.OtherContentModelBlanksPage | pruner/main.go:194-233 | As written, the handling of a non-empty page of another content model saves it empty, with the bare opening as summary. |
| Articles.OtherContentModelSkipped | pruner/main.go:194-196 | Corrected, the handling of a page of another content model ends unsupported with no save. |
| ErrorTable.LessIrreflexive | frs/errorTableBuilder.go:26 | The order `sort.Strings` uses is irreflexive. |
| ErrorTable.LessTransitive | frs/errorTableBuilder.go:26 | That order is transitive. |
| ErrorTable.LessTotal | frs/errorTableBuilder.go:26 | That order is total on distinct strings. |
| ErrorTable.SortedKeys | frs/errorTableBuilder.go:22-26 | The sorted keys are strictly ascending and hold exactly the map's keys, once each. |
| ErrorTable.SortedUnique | frs/errorTableBuilder.go:21-26 | Two strictly ascending listings of the same keys are equal, so the row order is determined. |
| ErrorTable.Row | frs/errorTableBuilder.go:30-32 | A row block starts with `\|-` and the page as a `[[...]]` link. |
| ErrorTable.Table | frs/errorTableBuilder.go:10-35 | An empty map gives exactly `No errors encountered.`. Otherwise the table starts with the description and the three header lines, and ends with `\|}`. |
| ErrorTable.SortStrings | frs/errorTableBuilder.go:26 | The array is sorted in place and is a permutation of its old contents. |
| ErrorTable.CollectKeys | frs/errorTableBuilder.go:22-25 | The collected keys are exactly the map's keys, as many as the map has. |
| ErrorTable.InsertAt | frs/errorTableBuilder.go:26 | One insertion step of the sort: with `a[..i]` sorted, afterwards `a[..i+1]` is sorted and the array is a permutation of what it held. |
| ErrorTable.SortKeys | frs/errorTableBuilder.go:22-26 | Collecting and sorting gives the sorted keys. |
| ErrorTable.WriteRows | frs/errorTableBuilder.go:28-33 | The builder gains the row block of each key, in order, with that key's error. |
| ErrorTable.WriteHeader | frs/errorTableBuilder.go:16-19 | An empty builder receives exactly the description and the three header lines. |
| ErrorTable.BuildErrorTable | frs/errorTableBuilder.go:9-38 | The method returns the table of the map. |
| ErrorTable.TableListsEveryKeyInOrder | frs/errorTableBuilder.go:21-35 | A non-empty table is the header, one row block per key in ascending key order, and `\|}`. |
| ErrorTable.LargestKeyGoesLast | frs/errorTableBuilder.go:21-33 | Adding a page that sorts after every other appends its row just before `\|}`. |
| ErrorTable.LargestKeySortsLast | frs/errorTableBuilder.go:21-26 | Such a page comes last in the sorted keys. |
| Uncurrenter.WriteBatch | uncurrenter/main.go:59-67 | The builder gains `\|` + QuoteMeta(name) for each readable title of the batch, in order. |
| Uncurrenter.WritePage | uncurrenter/main.go:60-66 | One page adds `\|` + QuoteMeta of its title with `Template:` cut, or nothing when its title cannot be read. |
| Uncurrenter.WriteBatchAt | uncurrenter/main.go:57-67 | One batch extends the written alternatives of the earlier batches to those of the batches through this one. An empty batch adds nothing. |
| Uncurrenter.BuildCurrentTemplatePattern | uncurrenter/main.go:53-70 | The builder produces the reference pattern: opening, the alternatives of every batch in order, closing. |
| Uncurrenter.WriteBatches | uncurrenter/main.go:56-69 | The loop over the batches appends the alternatives of every readable redirect name, batch after batch. |
| Uncurrenter.AlternativesJoin | uncurrenter/main.go:54-67 | A first alternative (`current`) followed by the written alternatives is the `\|`-join of that alternative and the quoted names. |
| Uncurrenter.PatternAlternatives | uncurrenter/main.go:53-70 | The pattern is `(?i){{(?:` + the `\|`-join of `current` and the quoted redirect names + the fixed closing. Each quoted name unquotes to the name. |
| Uncurrenter.RedirectNamesAreReadableTitles | uncurrenter/main.go:56-67 | A name is an alternative exactly when some queried redirect page has a readable title that becomes that name once a leading `Template:` is cut. |
| Uncurrenter.BatchNamesAreReadableTitles | uncurrenter/main.go:59-66 | The same holds within one batch. Pages without a readable title are skipped. |
| Uncurrenter.EditExactlyWhenEligibleAndChanged | uncurrenter/main.go:85-108 | A save is made exactly when the timestamp parses, the page is eligible (more than five hours, bot allowed, edit limit) and the removal changes the text. It sends the new text, the fixed summary and the page's timestamps. |
| Uncurrenter.NoTemplateNoEdit | uncurrenter/main.go:93-97 | A page where the pattern does not match is not saved. |
| Uncurrenter.FiveHoursIsTooRecent | uncurrenter/main.go:92 | A revision exactly five hours old is not eligible. |
| Uncurrenter.ConflictSkipsOtherErrorsAreFatal | uncurrenter/main.go:109-123 | A conflict skips the page with no retry. Any other API or client error is fatal. Success is exactly a save that went through. |
| Matches.ReplaceEachKeepsGaps | pruner/prune.go:232 | Replacing the matches keeps the text between them and puts each replacement in its match's place. |
| GoStrings.QuoteMetaRoundTrip | pruner/prune.go:212 | Unquoting a QuoteMeta'd name gives the name back. |
| GoStrings.QuoteMetaEscapesAll | pruner/prune.go:212 | QuoteMeta leaves no unescaped metacharacter. |
| GoStrings.EscapeDollarsIsReplaceAll | pruner/prune.go:212 | The `$` escape is `strings.ReplaceAll(s, "$", "$$")`. |
| GoStrings.ExpandEscapeDollars | pruner/prune.go:260 | Template expansion undoes the `$` escape. |
| GoStrings.JoinSplit | pruner/main.go:110 | Joining a split with its separator gives back the text. |
| GoStrings.TrimSpace | pruner/main.go:113 | The trimmed text is an infix with no surrounding white space, and only white space is cut. |
| GoStrings.DecimalStringRoundTrip | pruner/main.go:209 | `%d` of a count reads back the count, with no leading zero. |

## Left out

- Strings are sequences of decoded characters. Invalid UTF-8 cannot be
  represented, and byte offsets are character offsets.
- Pruner.BuildRenamePattern, Pruner.RenamePattern: pruner/prune.go:244
  slices the format at the byte after the located match's start. When the
  character before the capture group is not ASCII (a format such as
  `é(.+?)\n`), that slice ends inside the character. The rename regex is
  then invalid UTF-8, `regexp.Compile` rejects it and prune.go:253-254
  panics. The model slices by character, keeps the whole character and
  renames.
- RenameToSameNameIsIdentity: holds for the corrected rename step only. As
  written, a rename to the same name still replaces every entry of that
  user by the first one, so entries with different surroundings collapse
  (see the second finding).
- Username.UsernameCase: the case of an invalid leading UTF-8 byte (left
  untouched by the source) is not modelled, because strings are sequences
  of decoded characters. The override table and `unicode.ToUpper` are
  parameters, because neither is shown.
- Go's regular-expression engine is abstract. It reports whether a
  pattern compiles, and the sorted, non-overlapping matches with their
  groups. The capture-group locator (pruner/prune.go:60) and the format
  regexes are matched by that engine, not interpreted.
- `regexp.MustCompile` of the uncurrenter pattern (uncurrenter/main.go:72)
  is not modelled. The edit gate takes the pattern as given.
- The rename loop runs in Go map iteration order, which is unspecified.
  The method returns the order it used as a ghost value, and no
  order-dependent fact is claimed.
- The database (pruner/prune.go:41-102) is three lookup functions
  returning a row, no rows or an error.
- Wiki I/O is left out: page queries, talk-page fetches, the notice edits
  and `time.Sleep` (pruner/main.go:254-285, uncurrenter/main.go:44-83). The
  page save, the refetch, `ybtools.CanEdit` and `ybtools.BotAllowed` are
  parameters. The talk-page notices are modelled up to the map of messages
  and the header.
- The `md5`, `bot` and `notminor` fields of the save requests are left
  out. They are fixed or derived from the text.
- `time.Now`, `tparse.AddDuration` and `time.Parse` are parameters, and
  times are integers. One reading of now is used throughout. The two-months
  default is given, not computed. Nothing is claimed about what tparse
  returns on error.
- `time.Since(t).Hours() > 5` is modelled as `now - t > 5 * Hour` in
  nanoseconds.
- `pruneUsersFromWikitextList`, `pruneUsersFromMMList`, `MassMessageContent`
  and its JSON decoding are called from pruner/main.go but are not part of
  this model. They are parameters of the page handling.
- Panics, `ybtools.PanicErr` and `log.Fatal` are error results, not process
  exits.
- Logging is left out.
- pruner/config.go is a configuration struct. Its values (template name,
  default message, default header) are parameters.
- ErrorTable.Less: `sort.Strings` compares bytes. The model compares code
  points, which orders strings the same way for valid UTF-8.
- Classifier.RedirectTarget: `strings.SplitN(..., "/", 2)[0]` is modelled
  as the text before the first `/`, which is the same string.
- GoStrings.Expand: group references by name are modelled for ASCII
  letters, digits and `_` only. The templates here use only numbered
  groups.

## Findings

| source | as written | input that shows it | evidently intended | confidence | as-written member | corrected member |
|---|---|---|---|---|---|---|
| pruner/prune.go:222-236 | When the locator regex finds no capture group in the format (`ReplaceAllString` then replaces nothing), the removal regex is the format itself plus `\n?`. That deletes every entry on the page; a rename then indexes a nil slice. | a format whose group is its first character, e.g. `(.*)`, with one inactive user | refuse a format whose capture group cannot be located | not executed | Pruner.UnlocatedFormatDeletesEveryEntry | Pruner.UnlocatedFormatRefused |
| pruner/prune.go:258-276 | The replacement `b` is expanded once, from the first match of the rename regex, and every match is replaced by that same string. | `{{u\|Bob\|a}}` and `{{u\|Bob\|b}}` with Bob renamed to Rob give two copies of `{{u\|Rob\|a}}` | expand the template for each match with that match's own groups | not executed | Pruner.RenameCopiesFirstMatchExample | Pruner.RenameStepKeepsSurroundings |
| pruner/main.go:194-201 | The `default` branch of the content-model switch only logs, so the new content stays `""` and the page is saved empty when it was not empty. | a page of content model `json` with non-empty content and edits allowed | skip the page | not executed | Articles.OtherContentModelBlanksPage | Articles.OtherContentModelSkipped |
