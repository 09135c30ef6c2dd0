/**
 The supervisor of the actors: it spawns them, notices when they finish, and shuts them all down on
 request, when nobody can send it actions any more, or when an actor fails.

 `Step` is what one stimulus does; a stimulus that the current phase does not listen to, or the end
 of a task that is not running, changes nothing. The run of a list of stimuli is any run of the
 supervisor, whatever the order in which actions come in and tasks finish.
 */
module ActorRuntime {
  import opened Basics

  type Sender(==, !new)
  type Error(==, !new)

  /** How a task ends; `JoinFailed` is the failure of the supervising task itself. */
  datatype Ending = Completed | Failed(error: Error) | JoinFailed(error: Error)

  datatype Stimulus = Spawn(name: string, sender: Sender)
                    | Shutdown
                    | ChannelClosed
                    | Finished(task: string, ending: Ending)
                    | CleanupTimeout

  datatype RuntimeEvent = Started(task: string) | Stopped(task: string) | Aborted(task: string, error: Error)

  datatype Phase = Main | Draining | Ended

  datatype State = State(
    phase: Phase,
    count: nat,
    running: map<string, Sender>,
    futures: multiset<string>,
    events: seq<RuntimeEvent>,
    requests: multiset<(string, Sender)>,
    abortingError: Option<Error>,
    unjoined: set<string>)

  const INITIAL := State(Main, 0, map[], multiset{}, [], multiset{}, None, {})

  // ---------------------------------------------------------------- names

  function RunningName(name: string, count: nat): string {
    name + "-" + Decimal(count)
  }

  /** Whatever the actors are called, tasks with different numbers have different names. */
  lemma RunningNamesDiffer(a: string, m: nat, b: string, n: nat)
    requires RunningName(a, m) == RunningName(b, n)
    ensures m == n && a == b
  {
    DecimalStandsFor(m);
    DecimalStandsFor(n);
    LastPiece(a, '-', Decimal(m));
    LastPiece(b, '-', Decimal(n));
    assert Decimal(m) == Decimal(n);
    assert RunningName(a, m)[..|a|] == a && RunningName(b, n)[..|b|] == b;
  }

  // ---------------------------------------------------------------- the machine

  /** What the end of a task does to the table and the log, and the error it makes the caller see. */
  function Finish(s: State, task: string, ending: Ending): (State, Option<Error>) {
    var rest := s.futures - multiset{task};
    if ending.JoinFailed? then (s.(futures := rest, unjoined := s.unjoined + {task}), Some(ending.error))
    else
      var event := if ending.Failed? then Aborted(task, ending.error) else Stopped(task);
      (s.(futures := rest, running := s.running - {task}, events := s.events + [event]),
       if ending.Failed? then Some(ending.error) else None)
  }

  function ShutdownAll(s: State): State {
    s.(phase := Draining, requests := s.requests + multiset(s.running.Items))
  }

  function Step(s: State, stimulus: Stimulus): State {
    match s.phase
    case Main =>
      (match stimulus
       case Spawn(name, sender) =>
         var task := RunningName(name, s.count);
         s.(count := s.count + 1, running := s.running[task := sender],
            futures := s.futures + multiset{task}, events := s.events + [Started(task)])
       case Shutdown => ShutdownAll(s)
       case ChannelClosed => ShutdownAll(s)
       case Finished(task, ending) =>
         if task !in s.futures then s
         else
           var (s', error) := Finish(s, task, ending);
           if error.Some? then ShutdownAll(s'.(abortingError := error)) else s'
       case CleanupTimeout => s)
    case Draining =>
      (match stimulus
       case Finished(task, ending) => if task in s.futures then Finish(s, task, ending).0 else s
       case CleanupTimeout => s.(phase := Ended)
       case Spawn(_, _) => s
       case Shutdown => s
       case ChannelClosed => s)
    case Ended => s
  }

  function Run(stimuli: seq<Stimulus>): State {
    if stimuli == [] then INITIAL else Step(Run(stimuli[..|stimuli| - 1]), stimuli[|stimuli| - 1])
  }

  // ---------------------------------------------------------------- the ledger

  function Starts(events: seq<RuntimeEvent>, task: string): nat {
    if events == [] then 0
    else Starts(events[..|events| - 1], task) + if events[|events| - 1] == Started(task) then 1 else 0
  }

  function Ends(events: seq<RuntimeEvent>, task: string): nat {
    if events == [] then 0
    else
      var e := events[|events| - 1];
      Ends(events[..|events| - 1], task) + if !e.Started? && e.task == task then 1 else 0
  }

  /** The table holds the tasks that were started and have not been reported stopped or aborted. */
  ghost predicate Ledger(s: State) {
    && (forall t :: Starts(s.events, t) <= 1)
    && (forall t :: Starts(s.events, t) == 1 ==> exists a, n: nat :: n < s.count && t == RunningName(a, n))
    && (forall t :: Ends(s.events, t) + (if t in s.running then 1 else 0) == Starts(s.events, t))
    && (forall t :: s.futures[t] + (if t in s.unjoined then 1 else 0) == if t in s.running then 1 else 0)
  }

  lemma CountSnoc(events: seq<RuntimeEvent>, e: RuntimeEvent, t: string)
    ensures Starts(events + [e], t) == Starts(events, t) + if e == Started(t) then 1 else 0
    ensures Ends(events + [e], t) == Ends(events, t) + if !e.Started? && e.task == t then 1 else 0
  {
    assert (events + [e])[..|events|] == events;
  }

  lemma SpawnKeepsLedger(s: State, name: string, sender: Sender)
    requires Ledger(s) && s.phase.Main?
    ensures RunningName(name, s.count) !in s.running
    ensures Ledger(Step(s, Spawn(name, sender)))
  {
    var task, s' := RunningName(name, s.count), Step(s, Spawn(name, sender));
    assert Starts(s.events, task) == 0 by {
      if Starts(s.events, task) == 1 {
        var a, n: nat :| n < s.count && task == RunningName(a, n);
        RunningNamesDiffer(name, s.count, a, n);
      }
    }
    forall t
      ensures Starts(s'.events, t) <= 1
      ensures Starts(s'.events, t) == 1 ==> exists a, n: nat :: n < s'.count && t == RunningName(a, n)
      ensures Ends(s'.events, t) + (if t in s'.running then 1 else 0) == Starts(s'.events, t)
      ensures s'.futures[t] + (if t in s'.unjoined then 1 else 0) == if t in s'.running then 1 else 0
    {
      CountSnoc(s.events, Started(task), t);
      if t != task && Starts(s.events, t) == 1 {
        var a, n: nat :| n < s.count && t == RunningName(a, n);
        assert n < s'.count;
      }
    }
  }

  lemma FinishKeepsLedger(s: State, task: string, ending: Ending)
    requires Ledger(s) && task in s.futures
    ensures Ledger(Finish(s, task, ending).0)
  {
    var s' := Finish(s, task, ending).0;
    assert task in s.running;
    forall t
      ensures Starts(s'.events, t) == Starts(s.events, t)
      ensures Ends(s'.events, t) + (if t in s'.running then 1 else 0) == Starts(s'.events, t)
      ensures s'.futures[t] + (if t in s'.unjoined then 1 else 0) == if t in s'.running then 1 else 0
    {
      if !ending.JoinFailed? {
        CountSnoc(s.events, s'.events[|s.events|], t);
      }
    }
  }

  /** What the ledger is about. */
  ghost predicate SameBooks(s: State, s': State) {
    && s'.events == s.events && s'.running == s.running && s'.futures == s.futures
    && s'.unjoined == s.unjoined && s'.count == s.count
  }

  lemma SameBooksSameLedger(s: State, s': State)
    requires Ledger(s) && SameBooks(s, s')
    ensures Ledger(s')
  {}

  lemma FinishingBooks(s: State, task: string, ending: Ending)
    requires task in s.futures && s.phase.Main?
    ensures SameBooks(Finish(s, task, ending).0, Step(s, Finished(task, ending)))
  {
    var (s', error) := Finish(s, task, ending);
    var after := Step(s, Finished(task, ending));
    assert after == if error.Some? then ShutdownAll(s'.(abortingError := error)) else s';
  }

  lemma DrainingBooks(s: State, task: string, ending: Ending)
    requires task in s.futures && s.phase.Draining?
    ensures Step(s, Finished(task, ending)) == Finish(s, task, ending).0
  {}

  lemma OtherBooks(s: State, stimulus: Stimulus)
    requires !(stimulus.Spawn? && s.phase.Main?)
    requires stimulus.Finished? && stimulus.task in s.futures ==> !(s.phase.Main? || s.phase.Draining?)
    ensures SameBooks(s, Step(s, stimulus))
  {}

  lemma StepKeepsLedger(s: State, stimulus: Stimulus)
    requires Ledger(s)
    ensures Ledger(Step(s, stimulus))
  {
    if stimulus.Spawn? && s.phase.Main? {
      SpawnKeepsLedger(s, stimulus.name, stimulus.sender);
    } else if stimulus.Finished? && stimulus.task in s.futures && (s.phase.Main? || s.phase.Draining?) {
      FinishKeepsLedger(s, stimulus.task, stimulus.ending);
      if s.phase.Main? {
        FinishingBooks(s, stimulus.task, stimulus.ending);
        SameBooksSameLedger(Finish(s, stimulus.task, stimulus.ending).0, Step(s, stimulus));
      } else {
        DrainingBooks(s, stimulus.task, stimulus.ending);
      }
    } else {
      OtherBooks(s, stimulus);
      SameBooksSameLedger(s, Step(s, stimulus));
    }
  }

  /**
   In every run: a task is started at most once under its name; it is in the table exactly while
   it is started and not reported ended, and it is reported at most once; the table is the pending
   tasks plus those whose supervising task failed.
   */
  lemma {:induction false} RunKeepsLedger(stimuli: seq<Stimulus>)
    ensures Ledger(Run(stimuli))
  {
    if stimuli != [] {
      RunKeepsLedger(stimuli[..|stimuli| - 1]);
      StepKeepsLedger(Run(stimuli[..|stimuli| - 1]), stimuli[|stimuli| - 1]);
    }
  }

  /**
   Once no task is pending, every started task has been reported ended exactly once, except those
   whose supervising task failed, which are never reported.
   */
  lemma AllReportedOnceDrained(stimuli: seq<Stimulus>, task: string)
    requires Run(stimuli).futures == multiset{}
    ensures var s := Run(stimuli);
            Ends(s.events, task) == if Starts(s.events, task) == 1 && task !in s.unjoined then 1 else 0
  {
    RunKeepsLedger(stimuli);
  }

  // ---------------------------------------------------------------- shutting down

  /** A pending task ends with this error: its own, or that of the task supervising it. */
  ghost predicate FailsWith(s: State, stimulus: Stimulus, e: Error) {
    && stimulus.Finished? && stimulus.task in s.futures
    && (stimulus.ending == Failed(e) || stimulus.ending == JoinFailed(e))
  }

  /** The error a pending task ends with, if it does. */
  function FailureOf(s: State, stimulus: Stimulus): Option<Error> {
    if stimulus.Finished? && stimulus.task in s.futures && (stimulus.ending.Failed? || stimulus.ending.JoinFailed?)
    then Some(stimulus.ending.error)
    else None
  }

  /** What the supervisor is to report about a stimulus. */
  function Report(s: State, stimulus: Stimulus): seq<RuntimeEvent> {
    if stimulus.Spawn? && s.phase == Main then [Started(stimulus.name + "-" + Decimal(s.count))]
    else if stimulus.Finished? && stimulus.task in s.futures && s.phase != Ended then
      if stimulus.ending.JoinFailed? then []
      else if stimulus.ending.Failed? then [Aborted(stimulus.task, stimulus.ending.error)]
      else [Stopped(stimulus.task)]
    else []
  }

  lemma StepReports(s: State, stimulus: Stimulus)
    ensures Step(s, stimulus).events == s.events + Report(s, stimulus)
  {}

  /** The main loop is left on a shutdown, a closed channel or a failure, and nothing else. */
  lemma PhaseIs(s: State, stimulus: Stimulus)
    ensures Step(s, stimulus).phase == Main <==>
            s.phase == Main && !(stimulus.Shutdown? || stimulus.ChannelClosed? || exists e :: FailsWith(s, stimulus, e))
    ensures Step(s, stimulus).phase == Ended <==> s.phase == Ended || (s.phase == Draining && stimulus.CleanupTimeout?)
  {
    if stimulus.Finished? && (stimulus.ending.Failed? || stimulus.ending.JoinFailed?) {
      assert FailsWith(s, stimulus, stimulus.ending.error) <==> stimulus.task in s.futures;
    }
  }

  lemma FinishIs(s: State, stimulus: Stimulus)
    requires stimulus.Finished? && stimulus.task in s.futures && s.phase != Ended
    ensures var s' := Step(s, stimulus);
            && s'.futures == s.futures - multiset{stimulus.task} && s'.count == s.count
            && s'.running == (if stimulus.ending.JoinFailed? then s.running else s.running - {stimulus.task})
            && s'.unjoined == (if stimulus.ending.JoinFailed? then s.unjoined + {stimulus.task} else s.unjoined)
  {
    var task, ending := stimulus.task, stimulus.ending;
    assert stimulus == Finished(task, ending);
    if s.phase.Main? {
      FinishingBooks(s, task, ending);
    } else {
      DrainingBooks(s, task, ending);
    }
  }

  /** Who is pending, and who is in the table, after a stimulus. */
  lemma TableIs(s: State, stimulus: Stimulus, t: string)
    ensures var s' := Step(s, stimulus);
            var spawned := stimulus.Spawn? && s.phase == Main && t == stimulus.name + "-" + Decimal(s.count);
            var ended := stimulus.Finished? && stimulus.task == t && t in s.futures && s.phase != Ended;
            && s'.futures[t] == s.futures[t] + (if spawned then 1 else 0) - (if ended then 1 else 0)
            && (t in s'.running <==> spawned || (t in s.running && !(ended && !stimulus.ending.JoinFailed?)))
            && (spawned ==> s'.running[t] == stimulus.sender)
            && (!spawned && t in s'.running ==> s'.running[t] == s.running[t])
            && (t in s'.unjoined <==> t in s.unjoined || (ended && stimulus.ending.JoinFailed?))
            && s'.count == s.count + if stimulus.Spawn? && s.phase == Main then 1 else 0
  {
    if stimulus.Finished? && stimulus.task in s.futures && s.phase != Ended {
      FinishIs(s, stimulus);
    }
  }

  /** Stimulus `n` is the one on which the main loop ends. */
  ghost predicate ExitsAt(stimuli: seq<Stimulus>, n: nat) {
    n < |stimuli| && Run(stimuli[..n]).phase.Main? && !Run(stimuli[..n + 1]).phase.Main?
  }

  lemma {:induction false} NothingSentInMain(stimuli: seq<Stimulus>)
    requires Run(stimuli).phase.Main?
    ensures Run(stimuli).requests == multiset{} && Run(stimuli).abortingError == None
  {
    if stimuli != [] {
      NothingSentInMain(stimuli[..|stimuli| - 1]);
    }
  }

  /** The main loop ends on a shutdown action, on the closed channel, or on a failure. */
  lemma ExitStep(stimuli: seq<Stimulus>, n: nat)
    requires ExitsAt(stimuli, n)
    ensures var before, after := Run(stimuli[..n]), Run(stimuli[..n + 1]);
            && (stimuli[n].Shutdown? || stimuli[n].ChannelClosed? || FailureOf(before, stimuli[n]).Some?)
            && after.phase.Draining?
            && after.requests == multiset(after.running.Items)
            && after.abortingError == FailureOf(before, stimuli[n])
            && after.count == before.count
  {
    assert stimuli[..n + 1][..n] == stimuli[..n];
    NothingSentInMain(stimuli[..n]);
  }

  /** The main loop has ended in state `exit`: nothing was spawned or sent since, and the error is settled. */
  ghost predicate Settled(exit: State, error: Option<Error>, s: State) {
    && !s.phase.Main?
    && s.requests == multiset(exit.running.Items)
    && s.count == exit.count
    && exit.events <= s.events
    && (forall i :: |exit.events| <= i < |s.events| ==> !s.events[i].Started?)
    && s.abortingError == error
  }

  lemma StepKeepsSettled(exit: State, error: Option<Error>, s: State, stimulus: Stimulus)
    requires Settled(exit, error, s)
    ensures Settled(exit, error, Step(s, stimulus))
  {}

  lemma {:induction false} RunKeepsSettled(exit: State, error: Option<Error>, stimuli: seq<Stimulus>, k: nat)
    requires k <= |stimuli| && Settled(exit, error, Run(stimuli[..k]))
    ensures Settled(exit, error, Run(stimuli))
    decreases |stimuli|
  {
    if k == |stimuli| {
      assert stimuli[..k] == stimuli;
    } else {
      var prefix, last := stimuli[..|stimuli| - 1], stimuli[|stimuli| - 1];
      assert prefix[..k] == stimuli[..k];
      RunKeepsSettled(exit, error, prefix, k);
      StepKeepsSettled(exit, error, Run(prefix), last);
    }
  }

  /**
   From the exit on: each actor then in the table has been sent one shutdown request and no other
   request was ever sent; no actor is spawned; and the error to be returned is the failure that
   ended the main loop, if any.
   */
  lemma ShutdownIsExact(stimuli: seq<Stimulus>, n: nat)
    requires ExitsAt(stimuli, n)
    ensures Settled(Run(stimuli[..n + 1]), FailureOf(Run(stimuli[..n]), stimuli[n]), Run(stimuli))
  {
    ExitStep(stimuli, n);
    RunKeepsSettled(Run(stimuli[..n + 1]), FailureOf(Run(stimuli[..n]), stimuli[n]), stimuli, n + 1);
  }

  /** In the main loop, the task of the stimulus at `n` is pending and ends with this error. */
  ghost predicate FailsAt(stimuli: seq<Stimulus>, n: nat, e: Error) {
    n < |stimuli| && Run(stimuli[..n]).phase == Main && FailsWith(Run(stimuli[..n]), stimuli[n], e)
  }

  lemma FailureExits(stimuli: seq<Stimulus>, n: nat, e: Error)
    requires FailsAt(stimuli, n, e)
    ensures ExitsAt(stimuli, n) && FailureOf(Run(stimuli[..n]), stimuli[n]) == Some(e)
  {
    assert stimuli[..n + 1][..n] == stimuli[..n];
    PhaseIs(Run(stimuli[..n]), stimuli[n]);
  }

  /**
   The supervisor returns an error exactly when, in its main loop, a pending task ended with it: be it
   the error of the actor or of the task supervising it. The main loop ends with that.
   */
  lemma ErrorIffFailure(stimuli: seq<Stimulus>, e: Error)
    ensures Run(stimuli).abortingError == Some(e) <==> exists n: nat :: FailsAt(stimuli, n, e)
    ensures forall n: nat :: FailsAt(stimuli, n, e) ==> ExitsAt(stimuli, n)
  {
    if Run(stimuli).abortingError == Some(e) {
      if Run(stimuli).phase.Main? {
        NothingSentInMain(stimuli);
      }
      var n := ExitExists(stimuli);
      ShutdownIsExact(stimuli, n);
      assert FailsAt(stimuli, n, e);
    }
    forall n: nat | FailsAt(stimuli, n, e) ensures ExitsAt(stimuli, n) && Run(stimuli).abortingError == Some(e) {
      FailureExits(stimuli, n, e);
      ShutdownIsExact(stimuli, n);
    }
  }

  /** The log is what is to be reported about each stimulus, in order. */
  ghost function Reports(stimuli: seq<Stimulus>): seq<RuntimeEvent> {
    if stimuli == [] then []
    else
      var n := |stimuli| - 1;
      Reports(stimuli[..n]) + Report(Run(stimuli[..n]), stimuli[n])
  }

  lemma {:induction false} LogIsReports(stimuli: seq<Stimulus>)
    ensures Run(stimuli).events == Reports(stimuli)
  {
    if stimuli != [] {
      var n := |stimuli| - 1;
      LogIsReports(stimuli[..n]);
      StepReports(Run(stimuli[..n]), stimuli[n]);
    }
  }

  ghost predicate ReportedAt(stimuli: seq<Stimulus>, n: nat, event: RuntimeEvent) {
    n < |stimuli| && event in Report(Run(stimuli[..n]), stimuli[n])
  }

  ghost function LoggedBy(stimuli: seq<Stimulus>, event: RuntimeEvent): nat -> bool {
    (n: nat) => n <= |stimuli| && event in Run(stimuli[..n]).events
  }

  ghost function Reporting(stimuli: seq<Stimulus>, event: RuntimeEvent): nat -> bool {
    (n: nat) => ReportedAt(stimuli, n, event)
  }

  lemma LoggedNext(stimuli: seq<Stimulus>, event: RuntimeEvent, n: nat)
    requires n < |stimuli|
    ensures LoggedBy(stimuli, event)(n + 1) <==> LoggedBy(stimuli, event)(n) || Reporting(stimuli, event)(n)
  {
    assert stimuli[..n + 1][..n] == stimuli[..n];
    StepReports(Run(stimuli[..n]), stimuli[n]);
  }

  /** An event is in the log exactly if it was to be reported about some stimulus. */
  lemma ReportedIff(stimuli: seq<Stimulus>, event: RuntimeEvent)
    ensures event in Run(stimuli).events <==> exists n: nat :: ReportedAt(stimuli, n, event)
  {
    var so, at := LoggedBy(stimuli, event), Reporting(stimuli, event);
    forall k: nat | k < |stimuli| ensures so(k + 1) <==> so(k) || at(k) {
      LoggedNext(stimuli, event, k);
    }
    EverIff(so, at, |stimuli|);
    assert stimuli[..|stimuli|] == stimuli;
    assert forall n: nat :: at(n) == ReportedAt(stimuli, n, event);
  }

  /** Stimulus `n` is the end of a pending task with this error of its own. */
  ghost predicate AbortsAt(stimuli: seq<Stimulus>, n: nat, t: string, e: Error) {
    && n < |stimuli| && stimuli[n] == Finished(t, Failed(e))
    && t in Run(stimuli[..n]).futures && Run(stimuli[..n]).phase != Ended
  }

  lemma ReportsAborted(s: State, stimulus: Stimulus, t: string, e: Error)
    ensures Aborted(t, e) in Report(s, stimulus) <==>
            stimulus == Finished(t, Failed(e)) && t in s.futures && s.phase != Ended
  {}

  /** A task is reported aborted exactly if it was pending and ended with that error. */
  lemma AbortedIff(stimuli: seq<Stimulus>, t: string, e: Error)
    ensures Aborted(t, e) in Run(stimuli).events <==> exists n: nat :: AbortsAt(stimuli, n, t, e)
  {
    ReportedIff(stimuli, Aborted(t, e));
    forall n: nat ensures ReportedAt(stimuli, n, Aborted(t, e)) <==> AbortsAt(stimuli, n, t, e) {
      if n < |stimuli| {
        ReportsAborted(Run(stimuli[..n]), stimuli[n], t, e);
      }
    }
  }

  /** How many actors the main loop was asked to spawn. */
  ghost function Spawned(stimuli: seq<Stimulus>): nat {
    if stimuli == [] then 0
    else
      var n := |stimuli| - 1;
      Spawned(stimuli[..n]) + if stimuli[n].Spawn? && Run(stimuli[..n]).phase == Main then 1 else 0
  }

  lemma {:induction false} CountIsSpawned(stimuli: seq<Stimulus>)
    ensures Run(stimuli).count == Spawned(stimuli)
  {
    if stimuli != [] {
      CountIsSpawned(stimuli[..|stimuli| - 1]);
      TableIs(Run(stimuli[..|stimuli| - 1]), stimuli[|stimuli| - 1], "");
    }
  }

  /** Every actor the main loop is asked to spawn is started, under its name and number. */
  lemma SpawnedIsStarted(stimuli: seq<Stimulus>, n: nat)
    requires n < |stimuli| && stimuli[n].Spawn? && Run(stimuli[..n]).phase == Main
    ensures Started(stimuli[n].name + "-" + Decimal(Spawned(stimuli[..n]))) in Run(stimuli).events
  {
    var event := Started(stimuli[n].name + "-" + Decimal(Spawned(stimuli[..n])));
    CountIsSpawned(stimuli[..n]);
    ReportedIff(stimuli, event);
    assert ReportedAt(stimuli, n, event);
  }

  lemma {:induction false} ExitExists(stimuli: seq<Stimulus>) returns (n: nat)
    requires !Run(stimuli).phase.Main?
    ensures ExitsAt(stimuli, n)
  {
    var m := |stimuli| - 1;
    if Run(stimuli[..m]).phase.Main? {
      n := m;
      assert stimuli[..m + 1] == stimuli;
    } else {
      n := ExitExists(stimuli[..m]);
      assert stimuli[..m][..n] == stimuli[..n] && stimuli[..m][..n + 1] == stimuli[..n + 1];
    }
  }

  // ---------------------------------------------------------------- the supervisor object

  class RuntimeActor {
    var phase: Phase
    var count: nat
    var running: map<string, Sender>
    var futures: multiset<string>
    var events: seq<RuntimeEvent>
    var requests: multiset<(string, Sender)>
    var abortingError: Option<Error>
    ghost var unjoined: set<string>

    ghost function View(): State
      reads this
    {
      State(phase, count, running, futures, events, requests, abortingError, unjoined)
    }

    constructor ()
      ensures View() == INITIAL
    {
      phase, count, running, futures := Main, 0, map[], multiset{};
      events, requests, abortingError, unjoined := [], multiset{}, None, {};
    }

    /** The whole life of the supervisor, for the stimuli in the order it takes them. */
    method RunAll(stimuli: seq<Stimulus>) returns (r: Option<Error>)
      requires View() == INITIAL
      modifies this
      ensures View() == Run(stimuli) && r == Run(stimuli).abortingError
    {
      for i := 0 to |stimuli|
        invariant View() == Run(stimuli[..i])
      {
        assert stimuli[..i + 1][..i] == stimuli[..i];
        match phase
        case Main => OnAction(stimuli[i]);
        case Draining => OnCleanup(stimuli[i]);
        case Ended =>
      }
      assert stimuli[..|stimuli|] == stimuli;
      return abortingError;
    }

    method OnAction(stimulus: Stimulus)
      requires phase.Main?
      modifies this
      ensures View() == Step(old(View()), stimulus)
    {
      match stimulus
      case Spawn(name, sender) => SpawnActor(name, sender);
      case Shutdown => ShutdownAndDrain();
      case ChannelClosed => ShutdownAndDrain();
      case Finished(task, ending) =>
        if task in futures {
          var error := HandleActorFinishing(task, ending);
          if error.Some? {
            abortingError := error;
            ShutdownAndDrain();
          }
        }
      case CleanupTimeout =>
    }

    method SpawnActor(name: string, sender: Sender)
      requires phase.Main?
      modifies this
      ensures View() == Step(old(View()), Spawn(name, sender))
    {
      var runningName := RunningName(name, count);
      SendEvent(Started(runningName));
      running := running[runningName := sender];
      futures := futures + multiset{runningName};
      count := count + 1;
    }

    method ShutdownAndDrain()
      modifies this
      ensures View() == ShutdownAll(old(View()))
    {
      ShutdownActors();
      phase := Draining;
    }

    /** Waiting for the actors to finish: errors no longer matter, and a timeout ends it. */
    method OnCleanup(stimulus: Stimulus)
      requires phase.Draining?
      modifies this
      ensures View() == Step(old(View()), stimulus)
    {
      match stimulus
      case Finished(task, ending) =>
        if task in futures {
          var _ := HandleActorFinishing(task, ending);
        }
      case CleanupTimeout => phase := Ended;
      case Spawn(_, _) =>
      case Shutdown =>
      case ChannelClosed =>
    }

    method HandleActorFinishing(task: string, ending: Ending) returns (error: Option<Error>)
      modifies this
      ensures (View(), error) == Finish(old(View()), task, ending)
    {
      futures := futures - multiset{task};
      if ending.JoinFailed? {
        unjoined := unjoined + {task};
        return Some(ending.error);
      }
      running := running - {task};
      if ending.Failed? {
        SendEvent(Aborted(task, ending.error));
        return Some(ending.error);
      }
      SendEvent(Stopped(task));
      return None;
    }

    method SendEvent(event: RuntimeEvent)
      modifies this`events
      ensures events == old(events) + [event]
    {
      events := events + [event];
    }

    /** Sends each actor in the table a shutdown request, in the unspecified order of the table. */
    method ShutdownActors()
      modifies this`requests
      ensures requests == old(requests) + multiset(running.Items)
    {
      var rest := running.Items;
      while rest != {}
        invariant rest <= running.Items
        invariant requests + multiset(rest) == old(requests) + multiset(running.Items)
        decreases rest
      {
        var item :| item in rest;
        rest := rest - {item};
        requests := requests + multiset{item};
      }
    }
  }
}
