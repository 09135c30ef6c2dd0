/**
 Which calls are to be made to apply the updates of one type, said without the functions of the plugins,
 and what it means for each update that there are no errors.
 */
module PluginMeaning {
  import opened Basics
  import opened SoftwareUpdates
  import opened SoftwarePlugins

  // ---------------------------------------------------------------- the calls

  /** The updates as handed to the plugin: those with a URL have the file of their module and version. */
  ghost predicate Handed(us: seq<Update>, handed: seq<Update>) {
    && |handed| == |us|
    && forall i :: 0 <= i < |us| ==>
         && (handed[i].Install? <==> us[i].Install?)
         && handed[i].mod == us[i].mod.(filePath := if us[i].mod.url.Some? then Some(SmPath(us[i].mod))
                                                    else us[i].mod.filePath)
  }

  /** The call that is made for one update. */
  ghost predicate MadeFor(u: Update, c: Call) {
    if u.Install? then c == InstallCall(u.mod) else c == RemoveCall(u.mod)
  }

  /** The list is offered; only if the plugin does not support lists, there is one call for each update. */
  ghost predicate AppliedAs(p: Plugin, env: Env, before: seq<Call>, us: seq<Update>, work: seq<Call>) {
    && work != [] && work[0].UpdateListCall? && Handed(us, work[0].updates)
    && if env(p, before, work[0]) == Err(UpdateListNotSupported) then
         |work| == 1 + |us| && forall i :: 0 <= i < |us| ==> MadeFor(work[0].updates[i], work[i + 1])
       else |work| == 1
  }

  /** The positions of the updates that have a URL. */
  ghost predicate UrlPositions(us: seq<Update>, ds: seq<nat>) {
    Ascending(ds) && forall i: nat :: i in ds <==> i < |us| && us[i].mod.url.Some?
  }

  /** All is downloaded, the updates are applied, and then come finalize and the cleanup. */
  ghost predicate Completed(p: Plugin, env: Env, start: seq<Call>, us: seq<Update>, ds: seq<nat>,
                            work: seq<Call>, calls: seq<Call>)
  {
    && FirstSucceed(p, env, start + [PrepareCall], ds, |ds|)
    && AppliedAs(p, env, start + [PrepareCall] + Downloads(ds), us, work)
    && calls == [PrepareCall] + Downloads(ds) + work + [FinalizeCall] + Cleanups(ds)
  }

  /** The download after the first `k` fails, and only these are cleaned up, after finalize. */
  ghost predicate GivenUp(p: Plugin, env: Env, start: seq<Call>, ds: seq<nat>, k: nat, calls: seq<Call>) {
    && k < |ds| && FirstSucceed(p, env, start + [PrepareCall], ds, k)
    && !SucceedsAt(p, env, start + [PrepareCall], ds, k)
    && calls == [PrepareCall] + Downloads(ds[..k + 1]) + [FinalizeCall] + Cleanups(ds[..k])
  }

  ghost predicate Meant(p: Plugin, env: Env, start: seq<Call>, us: seq<Update>, calls: seq<Call>) {
    if env(p, start, PrepareCall).Ok? then
      exists ds :: UrlPositions(us, ds) &&
        ((exists work :: Completed(p, env, start, us, ds, work, calls)) || exists k :: GivenUp(p, env, start, ds, k, calls))
    else calls == [PrepareCall]
  }

  lemma WantedIsUrlPositions(us: seq<Update>)
    ensures UrlPositions(us, Wanted(us, |us|))
  {
    WantedAre(us, |us|);
  }

  lemma FilesAreHanded(us: seq<Update>)
    ensures Handed(us, WithFiles(us))
  {}

  lemma UpdateCallsMeanIt(p: Plugin, env: Env, before: seq<Call>, us: seq<Update>)
    ensures AppliedAs(p, env, before, us, UpdateCalls(p, env, before, WithFiles(us)))
  {
    FilesAreHanded(us);
    OneEach(WithFiles(us));
  }

  lemma OneEach(us: seq<Update>)
    ensures var work := [UpdateListCall(us)] + ApplyCalls(us);
            |work| == 1 + |us| && work[0] == UpdateListCall(us) && forall i :: 0 <= i < |us| ==> MadeFor(us[i], work[i + 1])
  {
    var work := [UpdateListCall(us)] + ApplyCalls(us);
    forall i | 0 <= i < |us| ensures MadeFor(us[i], work[i + 1]) {
      assert work[i + 1] == ApplyCalls(us)[i];
    }
  }

  lemma CompletedOnceDownloaded(p: Plugin, env: Env, start: seq<Call>, us: seq<Update>)
    requires env(p, start, PrepareCall).Ok? && Downloaded(p, env, start, us) == Wanted(us, |us|)
    ensures var ds := Wanted(us, |us|);
            Completed(p, env, start, us, ds, UpdateCalls(p, env, start + [PrepareCall] + Downloads(ds), WithFiles(us)),
                      Calls(p, env, start, us))
  {
    var ds, base := Wanted(us, |us|), start + [PrepareCall];
    CallsOnceDownloaded(p, env, start, us);
    UpdateCallsMeanIt(p, env, base + Downloads(ds), us);
    FirstFailureStops(p, env, base, ds, 0);
    assert |Downloaded(p, env, start, us)| == Succeeding(p, env, base, ds);
  }

  lemma GivenUpUnlessDownloaded(p: Plugin, env: Env, start: seq<Call>, us: seq<Update>)
    requires env(p, start, PrepareCall).Ok? && Downloaded(p, env, start, us) != Wanted(us, |us|)
    ensures GivenUp(p, env, start, Wanted(us, |us|), |Downloaded(p, env, start, us)|, Calls(p, env, start, us))
  {
    var ds, base := Wanted(us, |us|), start + [PrepareCall];
    var k := Succeeding(p, env, base, ds);
    FirstFailureStops(p, env, base, ds, 0);
    NotAll(ds, k);
    assert |Downloaded(p, env, start, us)| == k;
    assert Work(p, env, start, us) == [];
    var made := [PrepareCall] + Downloads(ds[..k + 1]);
    assert made + [] == made;
  }

  lemma NotAll(ds: seq<nat>, k: nat)
    requires k <= |ds| && ds[..k] != ds
    ensures k < |ds|
  {}

  /** The calls that are made are those that are to be made, whatever each of them ends like. */
  lemma CallsMeanIt(p: Plugin, env: Env, start: seq<Call>, us: seq<Update>)
    ensures Meant(p, env, start, us, Calls(p, env, start, us))
  {
    if env(p, start, PrepareCall).Ok? {
      var ds := Wanted(us, |us|);
      WantedIsUrlPositions(us);
      if Downloaded(p, env, start, us) == ds {
        CompletedOnceDownloaded(p, env, start, us);
      } else {
        GivenUpUnlessDownloaded(p, env, start, us);
      }
    }
  }

  // ---------------------------------------------------------------- nothing else would do

  lemma HandedOnce(us: seq<Update>, a: seq<Update>, b: seq<Update>)
    requires Handed(us, a) && Handed(us, b)
    ensures a == b
  {
    forall i | 0 <= i < |us| ensures a[i] == b[i] {
      assert a[i].Install? <==> b[i].Install?;
      assert a[i].Install? || a[i].Remove?;
      assert b[i].Install? || b[i].Remove?;
    }
  }

  lemma AppliedOnce(p: Plugin, env: Env, before: seq<Call>, us: seq<Update>, a: seq<Call>, b: seq<Call>)
    requires AppliedAs(p, env, before, us, a) && AppliedAs(p, env, before, us, b)
    ensures a == b
  {
    HandedOnce(us, a[0].updates, b[0].updates);
    assert a[0] == b[0];
    forall j | 0 < j < |a| ensures a[j] == b[j] {
      assert MadeFor(a[0].updates[j - 1], a[j - 1 + 1]) && MadeFor(b[0].updates[j - 1], b[j - 1 + 1]);
    }
  }

  lemma GivenUpOnce(p: Plugin, env: Env, start: seq<Call>, ds: seq<nat>, k: nat, l: nat, a: seq<Call>, b: seq<Call>)
    requires GivenUp(p, env, start, ds, k, a) && GivenUp(p, env, start, ds, l, b)
    ensures a == b
  {
    FailsFirst(p, env, start + [PrepareCall], ds, k, l);
    FailsFirst(p, env, start + [PrepareCall], ds, l, k);
  }

  lemma FailsFirst(p: Plugin, env: Env, base: seq<Call>, ds: seq<nat>, k: nat, l: nat)
    requires k < |ds| && !SucceedsAt(p, env, base, ds, k) && FirstSucceed(p, env, base, ds, l)
    ensures l <= k
  {}

  /** What is to be called is one list of calls only, so that it is what is called. */
  lemma MeaningIsExact(p: Plugin, env: Env, start: seq<Call>, us: seq<Update>, calls: seq<Call>)
    ensures Meant(p, env, start, us, calls) <==> calls == Calls(p, env, start, us)
  {
    CallsMeanIt(p, env, start, us);
    if Meant(p, env, start, us, calls) && env(p, start, PrepareCall).Ok? {
      MeantOnce(p, env, start, us, calls, Calls(p, env, start, us));
    }
  }

  lemma MeantOnce(p: Plugin, env: Env, start: seq<Call>, us: seq<Update>, a: seq<Call>, b: seq<Call>)
    requires env(p, start, PrepareCall).Ok? && Meant(p, env, start, us, a) && Meant(p, env, start, us, b)
    ensures a == b
  {
    var ds :| UrlPositions(us, ds) &&
      ((exists work :: Completed(p, env, start, us, ds, work, a)) || exists k :: GivenUp(p, env, start, ds, k, a));
    var es :| UrlPositions(us, es) &&
      ((exists work :: Completed(p, env, start, us, es, work, b)) || exists k :: GivenUp(p, env, start, es, k, b));
    SamePositions(ds, es);
    if exists k :: GivenUp(p, env, start, ds, k, a) {
      var k :| GivenUp(p, env, start, ds, k, a);
      NotCompleted(p, env, start, us, ds, k, a, b);
      var l :| GivenUp(p, env, start, ds, l, b);
      GivenUpOnce(p, env, start, ds, k, l, a, b);
    } else {
      var v :| Completed(p, env, start, us, ds, v, a);
      NeverGivenUp(p, env, start, us, ds, v, a, b);
      var w :| Completed(p, env, start, us, ds, w, b);
      AppliedOnce(p, env, start + [PrepareCall] + Downloads(ds), us, v, w);
    }
  }

  lemma NotCompleted(p: Plugin, env: Env, start: seq<Call>, us: seq<Update>, ds: seq<nat>, k: nat,
                     a: seq<Call>, b: seq<Call>)
    requires GivenUp(p, env, start, ds, k, a)
    ensures forall work :: !Completed(p, env, start, us, ds, work, b)
  {}

  lemma NeverGivenUp(p: Plugin, env: Env, start: seq<Call>, us: seq<Update>, ds: seq<nat>, work: seq<Call>,
                     a: seq<Call>, b: seq<Call>)
    requires Completed(p, env, start, us, ds, work, a)
    ensures forall k :: !GivenUp(p, env, start, ds, k, b)
  {}

  // ---------------------------------------------------------------- what no errors mean

  /** The update as it is handed to the plugin. */
  ghost function AsHanded(u: Update): Update {
    var m := u.mod.(filePath := if u.mod.url.Some? then Some(SmPath(u.mod)) else u.mod.filePath);
    if u.Install? then Install(m) else Remove(m)
  }

  /** The call is about this update: alone, or in a list. */
  ghost predicate Carries(c: Call, u: Update) {
    MadeFor(u, c) || (c.UpdateListCall? && u in c.updates)
  }

  /** A call of the trace, from some position on, carries the update and succeeded. */
  ghost predicate AppliedIn(p: Plugin, env: Env, trace: seq<Call>, from: nat, u: Update) {
    exists n :: from <= n < |trace| && Carries(trace[n], u) && env(p, trace[..n], trace[n]).Ok?
  }

  lemma HandedIs(us: seq<Update>, handed: seq<Update>, i: nat)
    requires Handed(us, handed) && i < |us|
    ensures handed[i] == AsHanded(us[i])
  {
    assert handed[i].Install? || handed[i].Remove?;
  }

  lemma WorkAt(start: seq<Call>, ds: seq<nat>, work: seq<Call>, calls: seq<Call>, j: nat)
    requires j < |work| && calls == [PrepareCall] + Downloads(ds) + work + [FinalizeCall] + Cleanups(ds)
    ensures var trace, n := start + calls, |start| + 1 + |ds| + j;
            && n < |trace| && trace[n] == work[j]
            && (j == 0 ==> trace[..n] == start + [PrepareCall] + Downloads(ds))
  {
    var trace, n := start + calls, |start| + 1 + |ds| + j;
    assert trace == (start + [PrepareCall] + Downloads(ds)) + work + ([FinalizeCall] + Cleanups(ds));
    var head := start + [PrepareCall] + Downloads(ds);
    assert |head| == |start| + 1 + |ds|;
  }

  lemma CompletedMeansApplied(p: Plugin, env: Env, start: seq<Call>, us: seq<Update>, ds: seq<nat>,
                              work: seq<Call>, calls: seq<Call>, i: nat)
    requires i < |us| && Completed(p, env, start, us, ds, work, calls)
    requires NoneCounts(p, env, start + calls, |start|, |start + calls|)
    ensures AppliedIn(p, env, start + calls, |start|, AsHanded(us[i]))
  {
    var trace, m := start + calls, |start| + 1 + |ds|;
    var u := AsHanded(us[i]);
    WorkAt(start, ds, work, calls, 0);
    HandedIs(us, work[0].updates, i);
    assert EndsFine(trace[m], env(p, trace[..m], trace[m]));
    if env(p, trace[..m], trace[m]) == Err(UpdateListNotSupported) {
      WorkAt(start, ds, work, calls, i + 1);
      var n := m + (i + 1);
      assert MadeFor(u, trace[n]) && EndsFine(trace[n], env(p, trace[..n], trace[n]));
    } else {
      assert Carries(trace[m], u);
    }
  }

  lemma PreparedFine(p: Plugin, env: Env, start: seq<Call>, calls: seq<Call>)
    requires calls != [] && calls[0] == PrepareCall && NoneCounts(p, env, start + calls, |start|, |start + calls|)
    ensures env(p, start, PrepareCall).Ok?
  {
    var trace, n := start + calls, |start|;
    assert trace[..n] == start && trace[n] == PrepareCall;
    assert EndsFine(trace[n], env(p, trace[..n], trace[n]));
  }

  lemma GivenUpIsNotFine(p: Plugin, env: Env, start: seq<Call>, ds: seq<nat>, k: nat, calls: seq<Call>)
    requires GivenUp(p, env, start, ds, k, calls)
    ensures !NoneCounts(p, env, start + calls, |start|, |start + calls|)
  {
    var trace, n := start + calls, |start| + 1 + k;
    var head := start + [PrepareCall] + Downloads(ds[..k]);
    assert Downloads(ds[..k + 1]) == Downloads(ds[..k]) + [Download(ds[k])];
    assert trace == head + [Download(ds[k])] + ([FinalizeCall] + Cleanups(ds[..k]));
    assert trace[..n] == head && trace[n] == Download(ds[k]);
    assert !EndsFine(trace[n], env(p, trace[..n], trace[n]));
  }

  lemma StartsWithPrepare(p: Plugin, env: Env, start: seq<Call>, us: seq<Update>)
    ensures var calls := Calls(p, env, start, us); calls != [] && calls[0] == PrepareCall
  {}

  /** If no error is reported for a type, each of its updates was in a call that succeeded. */
  lemma NoErrorsMeansApplied(p: Plugin, env: Env, start: seq<Call>, us: seq<Update>, i: nat)
    requires i < |us| && Errors(p, env, start + Calls(p, env, start, us), |start|) == []
    ensures AppliedIn(p, env, start + Calls(p, env, start, us), |start|, AsHanded(us[i]))
  {
    var calls := Calls(p, env, start, us);
    NoErrorsIff(p, env, start + calls, |start|);
    StartsWithPrepare(p, env, start, us);
    PreparedFine(p, env, start, calls);
    CallsMeanIt(p, env, start, us);
    var ds :| UrlPositions(us, ds) &&
      ((exists work :: Completed(p, env, start, us, ds, work, calls)) || exists k :: GivenUp(p, env, start, ds, k, calls));
    forall k: nat ensures !GivenUp(p, env, start, ds, k, calls) {
      if GivenUp(p, env, start, ds, k, calls) {
        GivenUpIsNotFine(p, env, start, ds, k, calls);
      }
    }
    var work :| Completed(p, env, start, us, ds, work, calls);
    CompletedMeansApplied(p, env, start, us, ds, work, calls, i);
  }

  // ---------------------------------------------------------------- which errors

  /** The positions of the calls that did not end fine. */
  ghost predicate FailedPositions(p: Plugin, env: Env, trace: seq<Call>, from: nat, positions: seq<nat>) {
    && Ascending(positions)
    && forall n: nat :: n in positions <==> from <= n < |trace| && !EndsFine(trace[n], env(p, trace[..n], trace[n]))
  }

  ghost predicate ErrorsAt(p: Plugin, env: Env, trace: seq<Call>, positions: seq<nat>, errors: seq<SoftwareError>) {
    && |errors| == |positions|
    && forall i :: 0 <= i < |positions| ==>
         positions[i] < |trace| && env(p, trace[..positions[i]], trace[positions[i]]) == Err(errors[i])
  }

  lemma FailedNext(p: Plugin, env: Env, trace: seq<Call>, from: nat, positions: seq<nat>)
    requires from < |trace| && FailedPositions(p, env, trace[..|trace| - 1], from, positions)
    ensures var n := |trace| - 1;
            FailedPositions(p, env, trace, from,
                            if EndsFine(trace[n], env(p, trace[..n], trace[n])) then positions else positions + [n])
  {
    var n := |trace| - 1;
    var fine := EndsFine(trace[n], env(p, trace[..n], trace[n]));
    var after := if fine then positions else positions + [n];
    forall k: nat
      ensures k in after <==> from <= k < |trace| && !EndsFine(trace[k], env(p, trace[..k], trace[k]))
    {
      assert k in after <==> k in positions || (!fine && k == n);
      if k < n {
        assert trace[..n][..k] == trace[..k] && trace[..n][k] == trace[k];
      }
    }
    AscendingSnoc(positions, n);
  }

  lemma ErrorsNext(p: Plugin, env: Env, trace: seq<Call>, positions: seq<nat>, errors: seq<SoftwareError>)
    requires trace != [] && ErrorsAt(p, env, trace[..|trace| - 1], positions, errors)
    ensures ErrorsAt(p, env, trace, positions, errors)
    ensures var n := |trace| - 1; var e := env(p, trace[..n], trace[n]);
            e.Err? ==> ErrorsAt(p, env, trace, positions + [n], errors + [e.error])
  {
    var n := |trace| - 1;
    assert forall k: nat :: k < n ==> trace[..n][..k] == trace[..k];
  }

  /** These are the errors of the calls that did not end fine, in order, and no others. */
  ghost predicate Tells(p: Plugin, env: Env, trace: seq<Call>, from: nat, errors: seq<SoftwareError>) {
    exists positions :: FailedPositions(p, env, trace, from, positions) && ErrorsAt(p, env, trace, positions, errors)
  }

  lemma TellsNoMore(p: Plugin, env: Env, trace: seq<Call>, from: nat, errors: seq<SoftwareError>)
    requires from < |trace| && Tells(p, env, trace[..|trace| - 1], from, errors)
    requires EndsFine(trace[|trace| - 1], env(p, trace[..|trace| - 1], trace[|trace| - 1]))
    ensures Tells(p, env, trace, from, errors)
  {
    var n := |trace| - 1;
    var positions :| FailedPositions(p, env, trace[..n], from, positions) && ErrorsAt(p, env, trace[..n], positions, errors);
    FailedNext(p, env, trace, from, positions);
    ErrorsNext(p, env, trace, positions, errors);
  }

  lemma TellsOneMore(p: Plugin, env: Env, trace: seq<Call>, from: nat, errors: seq<SoftwareError>, e: SoftwareError)
    requires from < |trace| && Tells(p, env, trace[..|trace| - 1], from, errors)
    requires env(p, trace[..|trace| - 1], trace[|trace| - 1]) == Err(e) && !EndsFine(trace[|trace| - 1], Err(e))
    ensures Tells(p, env, trace, from, errors + [e])
  {
    var n := |trace| - 1;
    var positions :| FailedPositions(p, env, trace[..n], from, positions) && ErrorsAt(p, env, trace[..n], positions, errors);
    FailedNext(p, env, trace, from, positions);
    ErrorsNext(p, env, trace, positions, errors);
    assert FailedPositions(p, env, trace, from, positions + [n]) && ErrorsAt(p, env, trace, positions + [n], errors + [e]);
  }

  lemma CountsIff(c: Call, e: Ending)
    ensures Counts(c, e) <==> !EndsFine(c, e)
    ensures !EndsFine(c, e) ==> e.Err?
  {
    assert e.Ok? || e.Err?;
  }

  /** The errors reported are those of the calls that did not end fine, in order, and no others. */
  lemma {:induction false} ErrorsTellIt(p: Plugin, env: Env, trace: seq<Call>, from: nat)
    requires from <= |trace|
    ensures Tells(p, env, trace, from, Errors(p, env, trace, from))
    decreases |trace|
  {
    if from == |trace| {
      NothingToTell(p, env, trace, from);
    } else {
      var n := |trace| - 1;
      ErrorsTellIt(p, env, trace[..n], from);
      var e := env(p, trace[..n], trace[n]);
      CountsIff(trace[n], e);
      if EndsFine(trace[n], e) {
        TellsNoMore(p, env, trace, from, Errors(p, env, trace[..n], from));
      } else {
        TellsOneMore(p, env, trace, from, Errors(p, env, trace[..n], from), e.error);
      }
    }
  }

  lemma NothingToTell(p: Plugin, env: Env, trace: seq<Call>, from: nat)
    requires from == |trace|
    ensures Tells(p, env, trace, from, [])
  {
    assert FailedPositions(p, env, trace, from, []) && ErrorsAt(p, env, trace, [], []);
  }
}
