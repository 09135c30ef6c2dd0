/** Processing a whole software update command: each software type in turn, by its plugin. */
module UpdateProcessing {
  import opened Basics
  import opened SoftwareUpdates
  import opened SoftwarePlugins
  import opened C8yTranslation

  /** How the updates of one type were handled: by which plugin, from which call on, and its errors. */
  datatype TypeRun = TypeRun(softwareType: string, updates: seq<Update>, handler: Lookup,
                             start: nat, errors: seq<SoftwareError>)

  function RunType(ps: Plugins, env: Env, groups: seq<Group>, t: string, trace: seq<Call>): (seq<Call>, TypeRun) {
    var us, handler := UpdatesFor(groups, t), Resolve(ps, t);
    if handler.Found? then
      var after := trace + Calls(handler.plugin, env, trace, us);
      (after, TypeRun(t, us, handler, |trace|, Errors(handler.plugin, env, after, |trace|)))
    else (trace, TypeRun(t, us, handler, |trace|, [UnknownSoftwareType(t, us)]))
  }

  /** All the calls made for the given types, and the run of each type, in order. */
  function RunTypes(ps: Plugins, env: Env, groups: seq<Group>, types: seq<string>): (seq<Call>, seq<TypeRun>) {
    if types == [] then ([], [])
    else
      var (trace, runs) := RunTypes(ps, env, groups, types[..|types| - 1]);
      var (after, run) := RunType(ps, env, groups, types[|types| - 1], trace);
      (after, runs + [run])
  }

  predicate Fails(run: TypeRun) {
    run.errors != []
  }

  // ---------------------------------------------------------------- what a command does

  lemma RunTypesNext(ps: Plugins, env: Env, groups: seq<Group>, types: seq<string>, i: nat)
    requires i < |types|
    ensures var (trace, runs) := RunTypes(ps, env, groups, types[..i]);
            var (after, run) := RunType(ps, env, groups, types[i], trace);
            RunTypes(ps, env, groups, types[..i + 1]) == (after, runs + [run])
  {
    assert types[..i + 1][..i] == types[..i];
  }

  /** The run of a type with its updates by its plugin. */
  ghost predicate Follows(ps: Plugins, groups: seq<Group>, t: string, run: TypeRun) {
    run.softwareType == t && run.updates == UpdatesFor(groups, t) && run.handler == Resolve(ps, t)
  }

  lemma RunTypeFollows(ps: Plugins, env: Env, groups: seq<Group>, t: string, trace: seq<Call>)
    ensures Follows(ps, groups, t, RunType(ps, env, groups, t, trace).1)
  {}

  ghost predicate AllFollow(ps: Plugins, groups: seq<Group>, types: seq<string>, runs: seq<TypeRun>) {
    |runs| == |types| && forall i :: 0 <= i < |types| ==> Follows(ps, groups, types[i], runs[i])
  }

  lemma AllFollowNext(ps: Plugins, groups: seq<Group>, types: seq<string>, runs: seq<TypeRun>, t: string, run: TypeRun)
    requires AllFollow(ps, groups, types, runs) && Follows(ps, groups, t, run)
    ensures AllFollow(ps, groups, types + [t], runs + [run])
  {}

  /** Each type is looked up once, in order, with its own updates. */
  lemma {:induction false} RunsFollowTypes(ps: Plugins, env: Env, groups: seq<Group>, types: seq<string>)
    ensures AllFollow(ps, groups, types, RunTypes(ps, env, groups, types).1)
  {
    if types != [] {
      var prefix, t := types[..|types| - 1], types[|types| - 1];
      var (trace, runs) := RunTypes(ps, env, groups, prefix);
      RunsFollowTypes(ps, env, groups, prefix);
      RunTypeFollows(ps, env, groups, t, trace);
      AllFollowNext(ps, groups, prefix, runs, t, RunType(ps, env, groups, t, trace).1);
      assert types == prefix + [t];
    }
  }

  /**
   For a command built by adding updates: each software type is looked up once, and its handler
   gets exactly the updates of that type, normalized, in request order; none is refused.
   */
  lemma EachTypeGetsItsUpdates(ps: Plugins, env: Env, us: seq<Update>, i: nat)
    requires Loaded(ps) && i < |ModuleTypes(Built(us))|
    ensures var types := ModuleTypes(Built(us));
            var runs := RunTypes(ps, env, Built(us), types).1;
            && |runs| == |types| && Distinct(types)
            && runs[i].softwareType == types[i]
            && runs[i].updates == RoutedTo(us, types[i])
            && (runs[i].handler.Found? ==>
                  forall u <- runs[i].updates :: CheckModuleType(runs[i].handler.plugin, u.mod))
  {
    var types := ModuleTypes(Built(us));
    RunsFollowTypes(ps, env, Built(us), types);
    assert Follows(ps, Built(us), types[i], RunTypes(ps, env, Built(us), types).1[i]);
    UpdatesForAreRouted(us, types[i]);
    TypesListedOnce(us);
    if Resolve(ps, types[i]).Found? {
      forall u <- RoutedTo(us, types[i]) ensures CheckModuleType(Resolve(ps, types[i]).plugin, u.mod) {
        RoutedNeverRefused(ps, us, types[i], u);
      }
    }
  }

  /** These calls were made from this position on, and none failed in a way that counts. */
  ghost predicate MadeWell(p: Plugin, env: Env, trace: seq<Call>, start: nat, calls: seq<Call>) {
    && start + |calls| <= |trace|
    && trace[start..start + |calls|] == calls
    && NoneCounts(p, env, trace, start, start + |calls|)
  }

  /** The calls of a run all succeeded, but for an unsupported update list. */
  ghost predicate RanWell(env: Env, trace: seq<Call>, run: TypeRun) {
    && run.handler.Found? && run.start <= |trace|
    && MadeWell(run.handler.plugin, env, trace, run.start,
                Calls(run.handler.plugin, env, trace[..run.start], run.updates))
  }

  lemma NoErrorsIffMadeWell(p: Plugin, env: Env, trace: seq<Call>, calls: seq<Call>)
    ensures Errors(p, env, trace + calls, |trace|) == [] <==> MadeWell(p, env, trace + calls, |trace|, calls)
  {
    NoErrorsIff(p, env, trace + calls, |trace|);
  }

  lemma RunTypeRanWellIff(ps: Plugins, env: Env, groups: seq<Group>, t: string, trace: seq<Call>)
    ensures var (after, run) := RunType(ps, env, groups, t, trace);
            && trace <= after
            && (!Fails(run) <==> RanWell(env, after, run))
  {
    var (after, run) := RunType(ps, env, groups, t, trace);
    if run.handler.Found? {
      assert after[..|trace|] == trace;
      NoErrorsIffMadeWell(run.handler.plugin, env, trace, Calls(run.handler.plugin, env, trace, run.updates));
    }
  }

  lemma MadeWellIsStable(p: Plugin, env: Env, trace: seq<Call>, after: seq<Call>, start: nat, calls: seq<Call>)
    requires trace <= after && start + |calls| <= |trace|
    ensures MadeWell(p, env, trace, start, calls) <==> MadeWell(p, env, after, start, calls)
  {
    assert after[start..start + |calls|] == trace[start..start + |calls|];
    NoneCountsIsStable(p, env, trace, after, start, start + |calls|);
  }

  /** How a run went does not depend on the calls made after it. */
  lemma RanWellIsStable(env: Env, trace: seq<Call>, after: seq<Call>, run: TypeRun)
    requires trace <= after && run.start <= |trace|
    requires run.handler.Found? ==>
               run.start + |Calls(run.handler.plugin, env, trace[..run.start], run.updates)| <= |trace|
    ensures RanWell(env, trace, run) <==> RanWell(env, after, run)
  {
    assert after[..run.start] == trace[..run.start];
    if run.handler.Found? {
      var p := run.handler.plugin;
      MadeWellIsStable(p, env, trace, after, run.start, Calls(p, env, trace[..run.start], run.updates));
    }
  }

  /** The calls of the run are all there. */
  ghost predicate Recorded(env: Env, trace: seq<Call>, run: TypeRun) {
    && run.start <= |trace|
    && (run.handler.Found? ==>
          run.start + |Calls(run.handler.plugin, env, trace[..run.start], run.updates)| <= |trace|)
  }

  lemma RecordedIsStable(env: Env, trace: seq<Call>, after: seq<Call>, run: TypeRun)
    requires trace <= after && Recorded(env, trace, run)
    ensures Recorded(env, after, run)
  {
    assert after[..run.start] == trace[..run.start];
  }

  lemma {:induction false} RunRanWellIff(ps: Plugins, env: Env, groups: seq<Group>, types: seq<string>, i: nat)
    requires i < |types|
    ensures var (trace, runs) := RunTypes(ps, env, groups, types);
            && |runs| == |types|
            && Recorded(env, trace, runs[i])
            && (!Fails(runs[i]) <==> RanWell(env, trace, runs[i]))
  {
    RunsFollowTypes(ps, env, groups, types);
    var prefix, t := types[..|types| - 1], types[|types| - 1];
    var (before, runs) := RunTypes(ps, env, groups, prefix);
    var (after, run) := RunType(ps, env, groups, t, before);
    RunTypeRanWellIff(ps, env, groups, t, before);
    if i < |prefix| {
      RunRanWellIff(ps, env, groups, prefix, i);
      RecordedIsStable(env, before, after, runs[i]);
      RanWellIsStable(env, before, after, runs[i]);
    } else {
      assert after[..|before|] == before;
    }
  }

  /**
   No software type fails exactly when every one has a plugin and every call made to every plugin
   succeeded, but for an unsupported update list.
   */
  lemma NoneFailsIff(ps: Plugins, env: Env, groups: seq<Group>, types: seq<string>)
    ensures var (trace, runs) := RunTypes(ps, env, groups, types);
            (forall i :: 0 <= i < |runs| ==> !Fails(runs[i])) <==>
            forall i :: 0 <= i < |runs| ==> RanWell(env, trace, runs[i])
  {
    var (trace, runs) := RunTypes(ps, env, groups, types);
    if types != [] {
      RunRanWellIff(ps, env, groups, types, 0);
    }
    forall i | 0 <= i < |runs| ensures !Fails(runs[i]) <==> RanWell(env, trace, runs[i]) {
      RunRanWellIff(ps, env, groups, types, i);
    }
  }

  // ---------------------------------------------------------------- what the response says

  function FailuresOf(w: Wording, runs: seq<TypeRun>): seq<Group> {
    Collect(runs, Fails, FailureOfRun(w))
  }

  function FailureOfRun(w: Wording): TypeRun -> Group {
    (run: TypeRun) => FailureOf(w, run.softwareType, run.errors)
  }

  function Messages(w: Wording, runs: seq<TypeRun>): seq<string> {
    Collect(runs, Fails, MessageOfRun(w))
  }

  function MessageOfRun(w: Wording): TypeRun -> string {
    (run: TypeRun) => if run.errors == [] then "" else Join(Texts(w, run.errors), ',')
  }

  /** The errors of the type that failed, or how many types failed, and where to read more. */
  function ErrorMessage(messages: seq<string>, log: Option<string>): (r: Option<string>)
    ensures r.Some? <==> messages != []
  {
    if messages == [] then None
    else
      var reason := if |messages| == 1 then messages[0] else Decimal(|messages|) + " errors";
      Some(if log.Some? then reason + ", see device log file " + log.value else reason)
  }

  function StatusOf(w: Wording, runs: seq<TypeRun>, log: Option<string>): CommandStatus {
    var reason := ErrorMessage(Messages(w, runs), log);
    if reason.Some? then Failed(reason.value) else Successful
  }

  /**
   The command is reported successful, and without failures, exactly when every software type has a
   plugin and every call made to every plugin succeeded, but for an unsupported update list.
   */
  lemma SuccessfulIff(ps: Plugins, env: Env, w: Wording, groups: seq<Group>, log: Option<string>)
    ensures var (trace, runs) := RunTypes(ps, env, groups, ModuleTypes(groups));
            && (StatusOf(w, runs, log) == Successful <==>
                forall i :: 0 <= i < |runs| ==> RanWell(env, trace, runs[i]))
            && (StatusOf(w, runs, log) == Successful <==> FailuresOf(w, runs) == [])
  {
    var runs := RunTypes(ps, env, groups, ModuleTypes(groups)).1;
    NoneFailsIff(ps, env, groups, ModuleTypes(groups));
    CollectEmptyIff(runs, Fails, MessageOfRun(w));
    CollectEmptyIff(runs, Fails, FailureOfRun(w));
  }

  /** A type without plugin fails with all its updates, and no call is made for it. */
  lemma UnknownTypeFailsAsAWhole(ps: Plugins, env: Env, w: Wording, us: seq<Update>, t: string, trace: seq<Call>)
    requires !Resolve(ps, t).Found?
    ensures var (after, run) := RunType(ps, env, Built(us), t, trace);
            && after == trace && run.errors != []
            && FailureOf(w, t, run.errors).modules == FailedItems(RoutedTo(us, t), w.unknownType(t))
  {
    UpdatesForAreRouted(us, t);
    var e := UnknownSoftwareType(t, RoutedTo(us, t));
    assert ItemsOfErrors(w, [e][..0]) == [];
  }

  // ---------------------------------------------------------------- from the cloud to the plugins

  /**
   For a Cumulocity list with valid actions: each type of the translated command is looked up once,
   and its plugin gets exactly the modules of that type, in the order of the list, and refuses none.
   */
  lemma CloudRequestReachesPlugins(ps: Plugins, env: Env, ms: seq<C8yModule>, i: nat)
    requires Loaded(ps) && forall m <- ms :: ValidAction(m)
    requires i < |ModuleTypes(Built(Updates(ms)))|
    ensures CommandOf(ms) == Translated(Built(Updates(ms)))
    ensures var groups := CommandOf(ms).groups;
            var types := ModuleTypes(groups);
            var runs := RunTypes(ps, env, groups, types).1;
            && |runs| == |types| && Distinct(types)
            && runs[i].softwareType == types[i]
            && runs[i].updates == RoutedTo(Updates(ms), types[i])
            && (runs[i].handler.Found? ==>
                  forall u <- runs[i].updates :: CheckModuleType(runs[i].handler.plugin, u.mod))
  {
    SameFailure(ms);
    CommandIsBuilt(ms);
    EachTypeGetsItsUpdates(ps, env, Updates(ms), i);
  }

  // ---------------------------------------------------------------- as the source runs it

  /** Each type in turn; `trace` are the calls made to the plugins. */
  method Process(ps: Plugins, env: Env, w: Wording, log: Option<string>, request: SoftwareUpdateCommand)
    returns (response: SoftwareUpdateCommand, trace: seq<Call>)
    requires forall t <- ModuleTypes(request.updateList) :: !Circular(ps, t)
    ensures fresh(response) && response.updateList == request.updateList
    ensures var (calls, runs) := RunTypes(ps, env, request.updateList, ModuleTypes(request.updateList));
            && trace == calls
            && response.failures == request.failures + FailuresOf(w, runs)
            && response.status == StatusOf(w, runs, log)
  {
    var session := new Session(env);
    response := new SoftwareUpdateCommand.WithStatus(request, Executing);
    var types := request.GetModuleTypes();
    var messages: seq<string> := [];
    ghost var runs: seq<TypeRun> := [];
    for i := 0 to |types|
      invariant session.env == env && fresh(session) && fresh(response)
      invariant (session.trace, runs) == RunTypes(ps, env, request.updateList, types[..i])
      invariant response.updateList == request.updateList
      invariant Reported(w, request.failures, response.failures, messages, runs)
    {
      RunTypesNext(ps, env, request.updateList, types, i);
      messages, runs := ProcessType(ps, w, session, request, response, types[i], messages, runs);
    }
    assert types[..|types|] == types;
    trace := session.trace;
    var reason := ErrorMessage(messages, log);
    response := new SoftwareUpdateCommand.WithStatus(response, if reason.Some? then Failed(reason.value) else Successful);
  }

  /** What the response and the messages say is about the runs so far. */
  ghost predicate Reported(w: Wording, before: seq<Group>, failures: seq<Group>, messages: seq<string>,
                           runs: seq<TypeRun>)
  {
    failures == before + FailuresOf(w, runs) && messages == Messages(w, runs)
  }

  lemma ReportNext(w: Wording, before: seq<Group>, failures: seq<Group>, messages: seq<string>,
                   runs: seq<TypeRun>, run: TypeRun)
    requires Reported(w, before, failures, messages, runs)
    ensures if Fails(run) then Reported(w, before, failures + [FailureOfRun(w)(run)],
                                        messages + [MessageOfRun(w)(run)], runs + [run])
            else Reported(w, before, failures, messages, runs + [run])
  {
    CollectSnoc(runs, run, Fails, FailureOfRun(w));
    CollectSnoc(runs, run, Fails, MessageOfRun(w));
  }

  /** One type: its updates are applied and its errors, if any, reported. */
  method ProcessType(ps: Plugins, w: Wording, session: Session, request: SoftwareUpdateCommand,
                     response: SoftwareUpdateCommand, t: string, before: seq<string>, ghost runs: seq<TypeRun>)
    returns (messages: seq<string>, ghost runs': seq<TypeRun>)
    requires request != response
    requires Reported(w, request.failures, response.failures, before, runs)
    modifies session, response`failures
    ensures var (after, run) := RunType(ps, session.env, request.updateList, t, old(session.trace));
            session.trace == after && runs' == runs + [run]
    ensures Reported(w, request.failures, response.failures, messages, runs')
  {
    ghost var run := RunType(ps, session.env, request.updateList, t, session.trace).1;
    ReportNext(w, request.failures, response.failures, before, runs, run);
    var errors := RunOne(ps, session, request, t);
    messages, runs' := before, runs + [run];
    if errors != [] {
      var texts := AllTexts(w, errors);
      messages := before + [Join(texts, ',')];
      response.AddErrors(w, t, errors);
    }
  }

  method AllTexts(w: Wording, errors: seq<SoftwareError>) returns (texts: seq<string>)
    ensures texts == Texts(w, errors)
  {
    texts := [];
    for i := 0 to |errors|
      invariant |texts| == i && forall j :: 0 <= j < i ==> texts[j] == w.error(errors[j])
    {
      texts := texts + [w.error(errors[i])];
    }
  }

  /** Applies the updates of one type, or fails if there is no plugin for it. */
  method RunOne(ps: Plugins, session: Session, request: SoftwareUpdateCommand, t: string)
    returns (errors: seq<SoftwareError>)
    modifies session
    ensures var (after, run) := RunType(ps, session.env, request.updateList, t, old(session.trace));
            session.trace == after && errors == run.errors
  {
    var updates := request.GetUpdatesFor(t);
    var handler := Resolve(ps, t);
    if handler.Found? {
      errors := session.ApplyAll(handler.plugin, updates);
    } else {
      errors := [UnknownSoftwareType(t, updates)];
    }
  }
}
