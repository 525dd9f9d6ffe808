/** The classification loop of pruneUsersFromList (pruner/prune.go:126-184):
    every captured username is reduced to its root, each root is looked up
    once in the account database, and is queued as inactive, as indefinitely
    blocked, for a rename, or left alone. */
module Classifier {
  import opened Common
  import opened GoStrings
  import opened Username

  /** The outcome of one `QueryRow(...).Scan(...)`: a row, `sql.ErrNoRows`,
      or any other error. */
  datatype Lookup = Row(value: string) | NoRows | Failed(message: string)

  /** The three prepared queries, as functions of their arguments:
      lastEditQuery(name, since), userRedirectQuery(talk page title),
      blockQuery(name, before). */
  datatype Directory = Directory(
    lastEditSince: (string, string) -> Lookup,
    redirectOf: string -> Lookup,
    blockedBefore: (string, string) -> Lookup)

  /** Everything one pass reads besides the page: the database, the two cut-off
      stamps (already formatted as MediaWiki timestamps) and the casing tables. */
  datatype Env = Env(dir: Directory, editsSince: string, blockStamp: string, casing: Casing)

  /** The two keys of `usersToRemove` (`indeffedUsers`, `inactiveUsers`). */
  datatype Reason = Indeffed | Inactive

  /** Why a pass stops without a result: each is a `PanicErr`, `log.Fatal`
      or runtime panic in the source. */
  datatype PruneError =
    | WrongGroupCount(submatch: seq<string>)
    | LastEditQueryFailed(message: string)
    | RedirectQueryFailed(message: string)
    | BlockQueryFailed(message: string)
    | PatternDoesNotCompile(pattern: string)
    | CaptureGroupNotLocated(format: string)
    | CaptureIndexOutOfRange
    | SliceOutOfRange

  /** The loop's three maps: checkedUsers, usersToRemove, usersToReplace. */
  datatype PassState = PassState(
    checked: map<string, bool>,
    toRemove: map<Reason, seq<string>>,
    toReplace: map<string, string>)

  const Initial: PassState := PassState(map[], map[], map[])

  /** `usersToRemove[r]`, which is nil (empty) until something is appended. */
  function Listed(m: map<Reason, seq<string>>, r: Reason): seq<string>
  {
    if r in m then m[r] else []
  }

  /** `checkedUsers[u]`, false when absent. */
  predicate Checked(st: PassState, u: string)
  {
    u in st.checked && st.checked[u]
  }

  /** The user a redirect row points at: underscores become spaces and only
      the root before a `/` is kept. */
  function RedirectTarget(row: string): (t: string)
    ensures '/' !in t && '_' !in t
  {
    var spaced := ReplaceAll(row, "_", " ");
    ReplaceCharRemoves(row, '_', ' ');
    var t := RootName(spaced);
    assert t == spaced[..|t|];
    t
  }

  // ---------------------------------------------------------------------
  // Reference: what happens to one root username
  // ---------------------------------------------------------------------

  /** The decision for one user: whether and why it is removed, and the
      name it is renamed to, if any. */
  datatype Verdict = Verdict(removal: Option<Reason>, renameTo: Option<string>)

  function BlockVerdict(env: Env, name: string, rename: Option<string>): Result<Verdict, PruneError>
  {
    match env.dir.blockedBefore(name, env.blockStamp)
    case Row(_) => Ok(Verdict(Some(Indeffed), rename))
    case NoRows => Ok(Verdict(None, rename))
    case Failed(e) => Err(BlockQueryFailed(e))
  }

  /** Classification of one root: an edit since the cut-off keeps the user
      (subject to the block check on the cased name); otherwise a redirect
      renames them (block check on the target), and no redirect makes them
      inactive with no block check. Any lookup error other than "no rows"
      is an error. */
  function Disposition(env: Env, u: string): Result<Verdict, PruneError>
  {
    var db := UsernameCase(u, env.casing);
    match env.dir.lastEditSince(db, env.editsSince)
    case Failed(e) => Err(LastEditQueryFailed(e))
    case Row(_) => BlockVerdict(env, db, None)
    case NoRows =>
      match env.dir.redirectOf(ReplaceAll(db, " ", "_"))
      case Failed(e) => Err(RedirectQueryFailed(e))
      case NoRows => Ok(Verdict(Some(Inactive), None))
      case Row(row) => var t := RedirectTarget(row); BlockVerdict(env, t, Some(t))
  }

  /** The state after recording verdict `v` for the unchecked user `u`. */
  function Record(st: PassState, u: string, v: Verdict): PassState
  {
    PassState(
      st.checked[u := true],
      if v.removal.Some? then st.toRemove[v.removal.value := Listed(st.toRemove, v.removal.value) + [u]]
      else st.toRemove,
      if v.renameTo.Some? then st.toReplace[u := v.renameTo.value] else st.toReplace)
  }

  /** One iteration: a submatch without exactly one group is an error; an
      already checked root is skipped; a new root is classified. */
  function Step(env: Env, st: PassState, submatch: seq<string>): Result<PassState, PruneError>
  {
    if |submatch| != 2 then Err(WrongGroupCount(submatch))
    else
      var u := RootName(submatch[1]);
      if Checked(st, u) then Ok(st)
      else
        match Disposition(env, u)
        case Err(e) => Err(e)
        case Ok(v) => Ok(Record(st, u, v))
  }

  /** The whole loop over the submatches, in page order; the first error ends it. */
  function Pass(env: Env, ms: seq<seq<string>>): Result<PassState, PruneError>
    decreases |ms|
  {
    if ms == [] then Ok(Initial)
    else
      match Pass(env, ms[..|ms| - 1])
      case Err(e) => Err(e)
      case Ok(st) => Step(env, st, ms[|ms| - 1])
  }

  // ---------------------------------------------------------------------
  // The loop itself
  // ---------------------------------------------------------------------

  /** An error stops the pass: whatever follows does not change it. */
  lemma PassStaysFailed(env: Env, ms: seq<seq<string>>, k: nat)
    requires k <= |ms| && Pass(env, ms[..k]).Err?
    ensures Pass(env, ms) == Pass(env, ms[..k])
  {
    assert ms[..|ms|] == ms;
    PassStaysFailedUpTo(env, ms, k, |ms|);
  }

  lemma {:induction false} PassStaysFailedUpTo(env: Env, ms: seq<seq<string>>, k: nat, n: nat)
    requires k <= n <= |ms| && Pass(env, ms[..k]).Err?
    ensures Pass(env, ms[..n]) == Pass(env, ms[..k])
    decreases n - k
  {
    if k < n {
      PassStaysFailedUpTo(env, ms, k, n - 1);
      assert ms[..n][..n - 1] == ms[..n - 1];
    }
  }

  /** pruneUsersFromList's loop over the format's matches (prune.go:126-184),
      with the three maps it fills. */
  method ClassifyMatches(env: Env, matches: seq<seq<string>>) returns (r: Result<PassState, PruneError>)
    ensures r == Pass(env, matches)
  {
    var checkedUsers: map<string, bool> := map[];
    var usersToReplace: map<string, string> := map[];
    var usersToRemove: map<Reason, seq<string>> := map[];
    var i := 0;
    while i < |matches|
      invariant 0 <= i <= |matches|
      invariant Pass(env, matches[..i]) == Ok(PassState(checkedUsers, usersToRemove, usersToReplace))
    {
      var submatch := matches[i];
      ghost var before := PassState(checkedUsers, usersToRemove, usersToReplace);
      i := i + 1;
      assert matches[..i][..i - 1] == matches[..i - 1];
      assert Pass(env, matches[..i]) == Step(env, before, submatch);
      if |submatch| != 2 {
        PassStaysFailed(env, matches, i);
        return Err(WrongGroupCount(submatch));
      }
      var username := RootName(submatch[1]);
      if username in checkedUsers && checkedUsers[username] {
        continue;
      }
      checkedUsers := checkedUsers[username := true];
      var dbUsername := UsernameCase(username, env.casing);
      var lastEdit := env.dir.lastEditSince(dbUsername, env.editsSince);
      if !lastEdit.Row? {
        if lastEdit.NoRows? {
          var redirect := env.dir.redirectOf(ReplaceAll(dbUsername, " ", "_"));
          if redirect.NoRows? {
            usersToRemove := usersToRemove[Inactive := Listed(usersToRemove, Inactive) + [username]];
            continue;
          } else if redirect.Failed? {
            PassStaysFailed(env, matches, i);
            return Err(RedirectQueryFailed(redirect.message));
          }
          var target := RedirectTarget(redirect.value);
          usersToReplace := usersToReplace[username := target];
          dbUsername := target;
        } else {
          PassStaysFailed(env, matches, i);
          return Err(LastEditQueryFailed(lastEdit.message));
        }
      }
      var block := env.dir.blockedBefore(dbUsername, env.blockStamp);
      if block.Row? {
        usersToRemove := usersToRemove[Indeffed := Listed(usersToRemove, Indeffed) + [username]];
        continue;
      } else if block.Failed? {
        PassStaysFailed(env, matches, i);
        return Err(BlockQueryFailed(block.message));
      }
    }
    assert matches[..|matches|] == matches;
    return Ok(PassState(checkedUsers, usersToRemove, usersToReplace));
  }

  // ---------------------------------------------------------------------
  // What the pass computes, root by root
  // ---------------------------------------------------------------------

  /** The distinct roots of the well-formed submatches, in first-seen order. */
  function Roots(ms: seq<seq<string>>): seq<string>
    decreases |ms|
  {
    if ms == [] then []
    else
      var rs := Roots(ms[..|ms| - 1]);
      var m := ms[|ms| - 1];
      if |m| != 2 || RootName(m[1]) in rs then rs else rs + [RootName(m[1])]
  }

  predicate AllWellFormed(ms: seq<seq<string>>)
  {
    forall i :: 0 <= i < |ms| ==> |ms[i]| == 2
  }

  predicate AllDecided(env: Env, rs: seq<string>)
  {
    forall i :: 0 <= i < |rs| ==> Disposition(env, rs[i]).Ok?
  }

  function RemovalOf(env: Env, u: string): Option<Reason>
  {
    match Disposition(env, u)
    case Ok(v) => v.removal
    case Err(_) => None
  }

  function RenameOf(env: Env, u: string): Option<string>
  {
    match Disposition(env, u)
    case Ok(v) => v.renameTo
    case Err(_) => None
  }

  /** The roots removed for `reason`, in first-seen order. */
  function Selected(env: Env, rs: seq<string>, reason: Reason): seq<string>
    decreases |rs|
  {
    if rs == [] then []
    else
      var last := rs[|rs| - 1];
      Selected(env, rs[..|rs| - 1], reason) + (if RemovalOf(env, last) == Some(reason) then [last] else [])
  }

  /** The state of a finished pass is exactly what the per-root verdicts say. */
  ghost predicate Agrees(env: Env, rs: seq<string>, st: PassState)
  {
    && (forall u :: Checked(st, u) <==> u in rs)
    && Listed(st.toRemove, Inactive) == Selected(env, rs, Inactive)
    && Listed(st.toRemove, Indeffed) == Selected(env, rs, Indeffed)
    && (forall u :: u in st.toReplace <==> u in rs && RenameOf(env, u).Some?)
    && (forall u :: u in st.toReplace ==> st.toReplace[u] == RenameOf(env, u).value)
  }

  lemma RecordAgrees(env: Env, rs: seq<string>, st: PassState, u: string, v: Verdict)
    requires Agrees(env, rs, st) && u !in rs && Disposition(env, u) == Ok(v)
    ensures Agrees(env, rs + [u], Record(st, u, v))
  {
    RecordChecked(rs, st, u, v);
    RecordListed(env, rs, st, u, v, Inactive);
    RecordListed(env, rs, st, u, v, Indeffed);
    RecordRenames(env, rs, st, u, v);
  }

  /** Recording a root marks it checked and nothing else. */
  lemma RecordChecked(rs: seq<string>, st: PassState, u: string, v: Verdict)
    requires forall w :: Checked(st, w) <==> w in rs
    ensures forall w :: Checked(Record(st, u, v), w) <==> w in rs + [u]
  {
    forall w ensures Checked(Record(st, u, v), w) <==> w in rs + [u] {
    }
  }

  /** Recording a new root adds its rename, if it has one, and no other. */
  lemma RecordRenames(env: Env, rs: seq<string>, st: PassState, u: string, v: Verdict)
    requires u !in rs && Disposition(env, u) == Ok(v)
    requires forall w :: w in st.toReplace <==> w in rs && RenameOf(env, w).Some?
    requires forall w :: w in st.toReplace ==> st.toReplace[w] == RenameOf(env, w).value
    ensures var st' := Record(st, u, v);
            && (forall w :: w in st'.toReplace <==> w in rs + [u] && RenameOf(env, w).Some?)
            && (forall w :: w in st'.toReplace ==> st'.toReplace[w] == RenameOf(env, w).value)
  {
  }

  /** Recording a root appends it to the list of its reason and to no other. */
  lemma RecordListed(env: Env, rs: seq<string>, st: PassState, u: string, v: Verdict, reason: Reason)
    requires Listed(st.toRemove, reason) == Selected(env, rs, reason) && Disposition(env, u) == Ok(v)
    ensures Listed(Record(st, u, v).toRemove, reason) == Selected(env, rs + [u], reason)
  {
    var rs' := rs + [u];
    assert rs'[..|rs'| - 1] == rs;
  }

  /** The pass succeeds exactly when every submatch has one group and no
      lookup for any root fails; then its maps hold precisely the per-root
      verdicts, each root being looked at once, in first-seen order. */
  lemma {:induction false} PassComputesVerdicts(env: Env, ms: seq<seq<string>>)
    ensures Pass(env, ms).Ok? <==> AllWellFormed(ms) && AllDecided(env, Roots(ms))
    ensures Pass(env, ms).Ok? ==> Agrees(env, Roots(ms), Pass(env, ms).value)
    decreases |ms|
  {
    if ms != [] {
      var front := ms[..|ms| - 1];
      var m := ms[|ms| - 1];
      PassComputesVerdicts(env, front);
      var rs := Roots(front);
      assert AllWellFormed(ms) ==> AllWellFormed(front) by {
        forall i | 0 <= i < |front| ensures ms[i] == front[i] { }
      }
      assert AllWellFormed(ms) <==> AllWellFormed(front) && |m| == 2 by {
        if AllWellFormed(front) && |m| == 2 {
          forall i | 0 <= i < |ms| ensures |ms[i]| == 2 {
            if i < |front| { assert ms[i] == front[i]; }
          }
        }
      }
      assert Roots(ms)[..|rs|] == rs;
      assert AllDecided(env, Roots(ms)) ==> AllDecided(env, rs) by {
        if AllDecided(env, Roots(ms)) {
          forall i | 0 <= i < |rs| ensures Disposition(env, rs[i]).Ok? {
            assert rs[i] == Roots(ms)[i];
          }
        }
      }
      match Pass(env, front)
      case Err(_) =>
      case Ok(st) =>
        if |m| == 2 {
          var u := RootName(m[1]);
          if u !in rs {
            assert Roots(ms) == rs + [u];
            match Disposition(env, u)
            case Err(_) =>
              assert !AllDecided(env, Roots(ms)) by {
                assert Roots(ms)[|rs|] == u;
              }
            case Ok(v) =>
              RecordAgrees(env, rs, st, u, v);
              assert AllDecided(env, Roots(ms)) <==> AllDecided(env, rs) by {
                if AllDecided(env, rs) {
                  forall i | 0 <= i < |rs| + 1 ensures Disposition(env, Roots(ms)[i]).Ok? {
                    if i < |rs| { assert Roots(ms)[i] == rs[i]; }
                  }
                }
              }
          }
        }
    }
  }

  lemma {:induction false} RootsDistinct(ms: seq<seq<string>>)
    ensures NoDuplicates(Roots(ms))
    decreases |ms|
  {
    if ms != [] {
      RootsDistinct(ms[..|ms| - 1]);
    }
  }

  lemma SelectedMembers(env: Env, rs: seq<string>, reason: Reason)
    ensures forall u :: u in Selected(env, rs, reason) <==> u in rs && RemovalOf(env, u) == Some(reason)
    ensures NoDuplicates(rs) ==> NoDuplicates(Selected(env, rs, reason))
  {
    SelectedMembership(env, rs, reason);
    if NoDuplicates(rs) {
      SelectedDistinct(env, rs, reason);
    }
  }

  lemma {:induction false} SelectedMembership(env: Env, rs: seq<string>, reason: Reason)
    ensures forall u :: u in Selected(env, rs, reason) <==> u in rs && RemovalOf(env, u) == Some(reason)
    decreases |rs|
  {
    if rs != [] {
      var front := rs[..|rs| - 1];
      SelectedMembership(env, front, reason);
      assert rs == front + [rs[|rs| - 1]];
    }
  }

  lemma {:induction false} SelectedDistinct(env: Env, rs: seq<string>, reason: Reason)
    requires NoDuplicates(rs)
    ensures NoDuplicates(Selected(env, rs, reason))
    decreases |rs|
  {
    if rs != [] {
      var front := rs[..|rs| - 1];
      var last := rs[|rs| - 1];
      assert NoDuplicates(front);
      SelectedDistinct(env, front, reason);
      SelectedMembership(env, front, reason);
      assert last !in front by {
        assert forall i :: 0 <= i < |front| ==> front[i] == rs[i];
      }
      if RemovalOf(env, last) == Some(reason) {
        AppendFresh(Selected(env, front, reason), last);
      } else {
        assert Selected(env, rs, reason) == Selected(env, front, reason) + [];
      }
    }
  }

  /** Appending an element not yet present keeps a sequence repetition-free. */
  lemma AppendFresh(s: seq<string>, x: string)
    requires NoDuplicates(s) && x !in s
    ensures NoDuplicates(s + [x])
  {
  }

  // ---------------------------------------------------------------------
  // The properties the loop promises
  // ---------------------------------------------------------------------

  /** Each root is classified at most once: the inactive and the indeffed
      lists have no repeated name and have no name in common. */
  lemma RemovalListsDistinct(env: Env, ms: seq<seq<string>>)
    requires Pass(env, ms).Ok?
    ensures var st := Pass(env, ms).value;
            && NoDuplicates(Listed(st.toRemove, Inactive))
            && NoDuplicates(Listed(st.toRemove, Indeffed))
            && forall u :: u in Listed(st.toRemove, Inactive) ==> u !in Listed(st.toRemove, Indeffed)
  {
    PassComputesVerdicts(env, ms);
    RootsDistinct(ms);
    SelectedMembers(env, Roots(ms), Inactive);
    SelectedMembers(env, Roots(ms), Indeffed);
  }

  /** A user with an edit since the cut-off is never queued as inactive nor
      renamed; they are queued as indeffed exactly when the block query on
      their cased name finds a row. */
  lemma ActiveUserNeverInactive(env: Env, ms: seq<seq<string>>, u: string)
    requires Pass(env, ms).Ok? && u in Roots(ms)
    requires env.dir.lastEditSince(UsernameCase(u, env.casing), env.editsSince).Row?
    ensures var st := Pass(env, ms).value;
            && u !in Listed(st.toRemove, Inactive)
            && u !in st.toReplace
            && (u in Listed(st.toRemove, Indeffed)
                <==> env.dir.blockedBefore(UsernameCase(u, env.casing), env.blockStamp).Row?)
  {
    PassComputesVerdicts(env, ms);
    SelectedMembers(env, Roots(ms), Inactive);
    SelectedMembers(env, Roots(ms), Indeffed);
  }

  /** A user with no edit and no redirect is queued as inactive, under the
      raw root name, and nothing else happens to them. */
  lemma UnredirectedIdleUserIsInactive(env: Env, ms: seq<seq<string>>, u: string)
    requires Pass(env, ms).Ok? && u in Roots(ms)
    requires var db := UsernameCase(u, env.casing);
             env.dir.lastEditSince(db, env.editsSince).NoRows?
             && env.dir.redirectOf(ReplaceAll(db, " ", "_")).NoRows?
    ensures var st := Pass(env, ms).value;
            && u in Listed(st.toRemove, Inactive)
            && u !in Listed(st.toRemove, Indeffed)
            && u !in st.toReplace
  {
    PassComputesVerdicts(env, ms);
    SelectedMembers(env, Roots(ms), Inactive);
    SelectedMembers(env, Roots(ms), Indeffed);
  }

  /** The block query is not asked for an inactive user without a redirect:
      any answer it would give leaves their verdict unchanged. */
  lemma InactiveSkipsBlockCheck(env: Env, u: string, blocked: (string, string) -> Lookup)
    requires var db := UsernameCase(u, env.casing);
             env.dir.lastEditSince(db, env.editsSince).NoRows?
             && env.dir.redirectOf(ReplaceAll(db, " ", "_")).NoRows?
    ensures Disposition(env.(dir := env.dir.(blockedBefore := blocked)), u)
            == Disposition(env, u) == Ok(Verdict(Some(Inactive), None))
  {
  }

  /** A redirected user is renamed to the redirect's root with spaces for
      underscores; the block check is on that target, and a blocked target
      puts the user in the indeffed list while the rename stays recorded. */
  lemma RedirectedUserRenamed(env: Env, ms: seq<seq<string>>, u: string, row: string)
    requires Pass(env, ms).Ok? && u in Roots(ms)
    requires var db := UsernameCase(u, env.casing);
             env.dir.lastEditSince(db, env.editsSince).NoRows?
             && env.dir.redirectOf(ReplaceAll(db, " ", "_")) == Row(row)
    ensures var st := Pass(env, ms).value;
            && u in st.toReplace && st.toReplace[u] == RedirectTarget(row)
            && u !in Listed(st.toRemove, Inactive)
            && (u in Listed(st.toRemove, Indeffed)
                <==> env.dir.blockedBefore(RedirectTarget(row), env.blockStamp).Row?)
  {
    PassComputesVerdicts(env, ms);
    SelectedMembers(env, Roots(ms), Inactive);
    SelectedMembers(env, Roots(ms), Indeffed);
  }

  /** A failed lookup for any root, on any of the three queries, ends the
      pass with an error: no verdict is guessed. */
  lemma LookupErrorAbortsPass(env: Env, ms: seq<seq<string>>, u: string)
    requires u in Roots(ms) && Disposition(env, u).Err?
    ensures Pass(env, ms).Err?
  {
    PassComputesVerdicts(env, ms);
  }

  /** Which errors stop a root's classification: exactly a failed query on the
      path the verdict takes (the edit query; then the block query on the
      cased name after an edit, or the redirect query without one; then the
      block query on the redirect's target). */
  lemma DispositionFailsOnlyOnFailedQuery(env: Env, u: string)
    ensures var db := UsernameCase(u, env.casing);
            var le := env.dir.lastEditSince(db, env.editsSince);
            var rd := env.dir.redirectOf(ReplaceAll(db, " ", "_"));
            Disposition(env, u).Err? <==>
              || le.Failed?
              || (le.Row? && env.dir.blockedBefore(db, env.blockStamp).Failed?)
              || (le.NoRows? && rd.Failed?)
              || (le.NoRows? && rd.Row? && env.dir.blockedBefore(RedirectTarget(rd.value), env.blockStamp).Failed?)
  {
  }

  /** Deduplication is on the raw root, not on the cased name: `Dave_Smith`
      and `Dave Smith` are two roots and are looked up twice. */
  lemma DeduplicationIsOnRawRoot()
    ensures Roots([["{{u|Dave_Smith}}", "Dave_Smith"], ["{{u|Dave Smith}}", "Dave Smith"]])
            == ["Dave_Smith", "Dave Smith"]
  {
    var raw, spaced := "Dave_Smith", "Dave Smith";
    assert raw[4] != spaced[4];
    TwoDistinctRoots("{{u|Dave_Smith}}", raw, "{{u|Dave Smith}}", spaced);
  }

  /** Two submatches whose captures have no `/` and differ give two roots. */
  lemma TwoDistinctRoots(m1: string, a: string, m2: string, b: string)
    requires '/' !in a && '/' !in b && a != b
    ensures Roots([[m1, a], [m2, b]]) == [a, b]
  {
    var ms := [[m1, a], [m2, b]];
    assert ms[..1] == [ms[0]];
    assert [ms[0]][..0] == [];
    assert RootName(a) == a && RootName(b) == b;
    assert Roots(ms[..1]) == [a];
  }
}
