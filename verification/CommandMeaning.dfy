/** What the response to a software update command says about what was done. */
module CommandMeaning {
  import opened Basics
  import opened SoftwareUpdates
  import opened SoftwarePlugins
  import opened PluginMeaning
  import opened UpdateProcessing

  // ---------------------------------------------------------------- success

  lemma {:induction false} RoutedIsThere(us: seq<Update>, i: nat)
    requires i < |us|
    ensures Routed(us[i]) in RoutedTo(us, TypeOf(us[i]))
  {
    var n := |us| - 1;
    if i < n {
      RoutedIsThere(us[..n], i);
    }
  }

  /** One of the calls made for a type carries the update and succeeded. */
  ghost predicate AppliedDuring(env: Env, trace: seq<Call>, run: TypeRun, u: Update) {
    && run.handler.Found? && run.start <= |trace|
    && var made := trace[..run.start] + Calls(run.handler.plugin, env, trace[..run.start], run.updates);
       made <= trace && AppliedIn(run.handler.plugin, env, made, run.start, u)
  }

  lemma MadeWellMeansApplied(p: Plugin, env: Env, trace: seq<Call>, start: nat, us: seq<Update>, k: nat)
    requires k < |us| && start <= |trace| && MadeWell(p, env, trace, start, Calls(p, env, trace[..start], us))
    ensures var made := trace[..start] + Calls(p, env, trace[..start], us);
            made <= trace && AppliedIn(p, env, made, start, AsHanded(us[k]))
  {
    var calls := Calls(p, env, trace[..start], us);
    var made := trace[..start + |calls|];
    assert made == trace[..start] + calls;
    NoneCountsIsStable(p, env, made, trace, start, |made|);
    NoErrorsIff(p, env, made, start);
    NoErrorsMeansApplied(p, env, trace[..start], us, k);
  }

  lemma RanWellMeansApplied(env: Env, trace: seq<Call>, run: TypeRun, u: Update)
    requires RanWell(env, trace, run) && u in run.updates
    ensures AppliedDuring(env, trace, run, AsHanded(u))
  {
    var k :| 0 <= k < |run.updates| && run.updates[k] == u;
    MadeWellMeansApplied(run.handler.plugin, env, trace, run.start, run.updates, k);
  }

  /** The run of the type of an update gets it, normalized. */
  lemma HasItsRun(ps: Plugins, us: seq<Update>, runs: seq<TypeRun>, i: nat) returns (j: nat)
    requires i < |us| && AllFollow(ps, Built(us), ModuleTypes(Built(us)), runs)
    ensures j < |runs| && runs[j].softwareType == TypeOf(us[i]) && runs[j].handler == Resolve(ps, TypeOf(us[i]))
    ensures Routed(us[i]) in runs[j].updates
  {
    var t, types := TypeOf(us[i]), ModuleTypes(Built(us));
    TypesListedOnce(us);
    assert HasType(us, t);
    j :| 0 <= j < |types| && types[j] == t;
    assert Follows(ps, Built(us), types[j], runs[j]);
    UpdatesForAreRouted(us, t);
    RoutedIsThere(us, i);
  }

  /**
   If a command built by adding updates is reported successful, then every one of them, normalized and
   with its file, was in a call to the plugin of its type, and that call succeeded.
   */
  lemma SuccessMeansApplied(ps: Plugins, env: Env, w: Wording, us: seq<Update>, log: Option<string>, i: nat)
    returns (j: nat)
    requires i < |us|
    requires StatusOf(w, RunTypes(ps, env, Built(us), ModuleTypes(Built(us))).1, log) == Successful
    ensures var (trace, runs) := RunTypes(ps, env, Built(us), ModuleTypes(Built(us)));
            && j < |runs| && runs[j].softwareType == TypeOf(us[i]) && runs[j].handler == Resolve(ps, TypeOf(us[i]))
            && AppliedDuring(env, trace, runs[j], AsHanded(Routed(us[i])))
  {
    var groups := Built(us);
    var types := ModuleTypes(groups);
    var (trace, runs) := RunTypes(ps, env, groups, types);
    SuccessfulIff(ps, env, w, groups, log);
    RunsFollowTypes(ps, env, groups, types);
    j := HasItsRun(ps, us, runs, i);
    RanWellMeansApplied(env, trace, runs[j], Routed(us[i]));
  }

  // ---------------------------------------------------------------- failure

  /** The positions of the runs with errors. */
  ghost predicate FailingAt(runs: seq<TypeRun>, positions: seq<nat>) {
    && Ascending(positions)
    && forall k: nat :: k in positions <==> k < |runs| && runs[k].errors != []
  }

  /** The reason given: the errors of the only type that failed, or else how many failed. */
  ghost function ReasonFor(w: Wording, runs: seq<TypeRun>, positions: seq<nat>, log: Option<string>): string
    requires positions != [] && FailingAt(runs, positions)
  {
    assert positions[0] in positions;
    var told := if |positions| == 1 then Join(Texts(w, runs[positions[0]].errors), ',')
                else Decimal(|positions|) + " errors";
    if log.Some? then told + ", see device log file " + log.value else told
  }

  /** Exactly the types with errors are reported, in order, each with its errors in words and its items. */
  lemma FailuresAreReported(w: Wording, runs: seq<TypeRun>) returns (positions: seq<nat>)
    ensures FailingAt(runs, positions) && |FailuresOf(w, runs)| == |positions|
    ensures forall i :: 0 <= i < |positions| ==>
              && positions[i] < |runs|
              && var run := runs[positions[i]];
                 FailuresOf(w, runs)[i] == Group(run.softwareType, ItemsOfErrors(w, run.errors), Texts(w, run.errors))
  {
    positions := CollectIs(runs, Fails, FailureOfRun(w));
  }

  lemma MessagesAre(w: Wording, runs: seq<TypeRun>, positions: seq<nat>)
    requires FailingAt(runs, positions)
    ensures |Messages(w, runs)| == |positions|
    ensures |positions| == 1 ==>
              positions[0] < |runs| && runs[positions[0]].errors != []
              && Messages(w, runs)[0] == Join(Texts(w, runs[positions[0]].errors), ',')
  {
    var found := CollectIs(runs, Fails, MessageOfRun(w));
    SamePositions(positions, found);
    assert |positions| == 1 ==> positions[0] in positions;
  }

  /** The command is reported successful if no type has errors, and else failed, with that reason. */
  lemma StatusIs(w: Wording, runs: seq<TypeRun>, log: Option<string>, positions: seq<nat>)
    requires FailingAt(runs, positions)
    ensures StatusOf(w, runs, log)
            == if positions == [] then Successful else Failed(ReasonFor(w, runs, positions, log))
  {
    MessagesAre(w, runs, positions);
  }
}
