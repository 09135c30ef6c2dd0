/**
 Closing an MQTT connection: the sender loop publishes what the application submitted and then the
 last will, and gives up the only permit; the receiver loop takes the permit, waits until nothing is
 in flight, and asks for the disconnection.

 The two loops, the application, whoever asks for the disconnection and the event loop of the
 MQTT client are interleaved: a run is any list of steps, and a step that is not enabled does
 nothing. The client's requests go through one queue, taken in order.
 */
module MqttConnection {
  import opened Basics

  type Msg(==, !new)

  datatype Source = SenderLoop | Reconnection

  datatype Request = Publish(msg: Msg, from: Source) | Subscribe | Disconnect

  /** Where the sender loop is: waiting for a message, publishing one, publishing the will, or over. */
  datatype SenderAt = Receiving | Publishing(msg: Msg) | PublishingWill(will: Msg) | SenderOver

  /** Where the receiver loop is: at the check on top of the loop, in the select, or over. */
  datatype ReceiverAt = Checking | Selecting | ReceiverOver

  datatype Permit = WithSender | Free | WithReceiver

  /** A message the sender loop tried to publish, and whether its request was queued. */
  datatype Attempt = Attempt(msg: Msg, ok: bool)

  datatype State = State(
    submitted: seq<Msg>,
    inbox: seq<Msg>,
    inboxClosed: bool,
    lastWill: Option<Msg>,
    sender: SenderAt,
    attempts: seq<Attempt>,
    permit: Permit,
    receiver: ReceiverAt,
    triggeredDisconnect: bool,
    disconnectTasks: nat,
    requests: seq<Request>,
    taken: nat,
    inflight: nat)

  datatype Step =
    // the application
    | Submit(msg: Msg) | CloseInbox
    // the sender loop
    | Receive | PublishDone(ok: bool)
    // the receiver loop
    | Check | AcquirePermit | OtherEvent | DisconnectEvent
    | Reconnected(initial: Option<Msg>, subscribe: bool, leaves: bool)
    // spawned by the check, to ask for the disconnection
    | RequestDisconnect(ok: bool)
    // the client's event loop
    | Poll(taking: nat, inflight: nat)

  function Initial(lastWill: Option<Msg>): State {
    State([], [], false, lastWill, Receiving, [], WithSender, Checking, false, 0, [], 0, 0)
  }

  /** The sender loop has nothing left to publish: it drops its permit. */
  function SenderDone(s: State): State {
    s.(sender := SenderOver, permit := Free)
  }

  function Enqueue(s: State, r: Request): State {
    s.(requests := s.requests + [r])
  }

  function Apply(s: State, step: Step): State {
    match step
    case Submit(m) =>
      if s.inboxClosed then s else s.(submitted := s.submitted + [m], inbox := s.inbox + [m])
    case CloseInbox => s.(inboxClosed := true)
    case Receive =>
      if !s.sender.Receiving? then s
      else if s.inbox != [] then s.(sender := Publishing(s.inbox[0]), inbox := s.inbox[1..])
      else if !s.inboxClosed then s
      else if s.lastWill.Some? then s.(sender := PublishingWill(s.lastWill.value))
      else SenderDone(s)
    case PublishDone(ok) =>
      (match s.sender
       case Publishing(m) => Sent(s.(sender := Receiving), m, ok)
       case PublishingWill(m) => SenderDone(Sent(s, m, ok))
       case Receiving => s
       case SenderOver => s)
    case Check =>
      if !s.receiver.Checking? then s
      else if s.permit.WithReceiver? && !s.triggeredDisconnect && s.inflight == 0 then
        s.(receiver := Selecting, triggeredDisconnect := true, disconnectTasks := s.disconnectTasks + 1)
      else s.(receiver := Selecting)
    case AcquirePermit =>
      if s.receiver.Selecting? && s.permit.Free? then s.(receiver := Checking, permit := WithReceiver) else s
    case Reconnected(initial, subscribe, leaves) =>
      if !s.receiver.Selecting? then s
      else
        var greeted := if initial.Some? then Enqueue(s, Publish(initial.value, Reconnection)) else s;
        var subscribed := if subscribe then Enqueue(greeted, Subscribe) else greeted;
        subscribed.(receiver := if leaves then ReceiverOver else Checking)
    case OtherEvent => if s.receiver.Selecting? then s.(receiver := Checking) else s
    case DisconnectEvent => if s.receiver.Selecting? then s.(receiver := ReceiverOver) else s
    case RequestDisconnect(ok) =>
      if s.disconnectTasks == 0 then s
      else
        var s' := s.(disconnectTasks := s.disconnectTasks - 1);
        if ok then Enqueue(s', Disconnect) else s'
    case Poll(taking, inflight) =>
      if s.receiver.Checking? || s.taken + taking > |s.requests| then s
      else s.(taken := s.taken + taking, inflight := inflight)
  }

  /** Publishing queues a request, or fails. */
  function Sent(s: State, m: Msg, ok: bool): State {
    var s' := s.(attempts := s.attempts + [Attempt(m, ok)]);
    if ok then Enqueue(s', Publish(m, SenderLoop)) else s'
  }

  function Run(lastWill: Option<Msg>, steps: seq<Step>): State {
    if steps == [] then Initial(lastWill)
    else Apply(Run(lastWill, steps[..|steps| - 1]), steps[|steps| - 1])
  }

  // ---------------------------------------------------------------- what is requested

  /** The messages that the sender loop asked to publish, in the order of the queue. */
  function SenderPublishes(requests: seq<Request>): seq<Msg> {
    if requests == [] then []
    else
      var r := requests[|requests| - 1];
      SenderPublishes(requests[..|requests| - 1])
      + if FromSender(r) then [r.msg] else []
  }

  function Disconnects(requests: seq<Request>): nat {
    if requests == [] then 0
    else Disconnects(requests[..|requests| - 1]) + if requests[|requests| - 1].Disconnect? then 1 else 0
  }

  lemma RequestSnoc(requests: seq<Request>, r: Request)
    ensures SenderPublishes(requests + [r])
            == SenderPublishes(requests) + if FromSender(r) then [r.msg] else []
    ensures Disconnects(requests + [r]) == Disconnects(requests) + if r.Disconnect? then 1 else 0
  {
    assert (requests + [r])[..|requests|] == requests;
  }

  function Tried(attempts: seq<Attempt>): seq<Msg> {
    if attempts == [] then []
    else Tried(attempts[..|attempts| - 1]) + [attempts[|attempts| - 1].msg]
  }

  function Succeeded(attempts: seq<Attempt>): seq<Msg> {
    if attempts == [] then []
    else
      var a := attempts[|attempts| - 1];
      Succeeded(attempts[..|attempts| - 1]) + if a.ok then [a.msg] else []
  }

  lemma AttemptSnoc(attempts: seq<Attempt>, a: Attempt)
    ensures Tried(attempts + [a]) == Tried(attempts) + [a.msg]
    ensures Succeeded(attempts + [a]) == if a.ok then Succeeded(attempts) + [a.msg] else Succeeded(attempts)
  {
    assert (attempts + [a])[..|attempts|] == attempts;
  }

  lemma {:induction false} AllSucceeded(attempts: seq<Attempt>)
    requires forall a <- attempts :: a.ok
    ensures Succeeded(attempts) == Tried(attempts)
  {
    if attempts != [] {
      AllSucceeded(attempts[..|attempts| - 1]);
    }
  }

  /** What the sender loop has in its hands, then what is waiting in its inbox. */
  function Outstanding(s: State): seq<Msg> {
    match s.sender
    case Publishing(m) => [m] + s.inbox
    case _ => s.inbox
  }

  /** Everything the sender loop is to publish: what was submitted, then the last will. */
  function Everything(s: State): seq<Msg> {
    if s.lastWill.Some? then s.submitted + [s.lastWill.value] else s.submitted
  }

  predicate FromSender(r: Request) {
    r.Publish? && r.from.SenderLoop?
  }

  /** No publish of the sender loop is queued behind a disconnection. */
  ghost predicate PublishesFirst(requests: seq<Request>) {
    forall i, j :: 0 <= i < j < |requests| && requests[i].Disconnect? ==> !FromSender(requests[j])
  }

  /** The permit follows the sender loop; at most one disconnection, and only with the permit. */
  ghost predicate Control(s: State) {
    && (s.permit.WithSender? <==> !s.sender.SenderOver?)
    && (s.sender.SenderOver? || s.sender.PublishingWill? ==> s.inbox == [] && s.inboxClosed)
    && (s.sender.PublishingWill? ==> s.lastWill == Some(s.sender.will))
    && (s.triggeredDisconnect ==> s.permit.WithReceiver?)
  }

  ghost predicate Queued(s: State) {
    && Disconnects(s.requests) + s.disconnectTasks <= (if s.triggeredDisconnect then 1 else 0)
    && (Disconnect in s.requests ==> s.triggeredDisconnect)
    && PublishesFirst(s.requests)
    && SenderPublishes(s.requests) == Succeeded(s.attempts)
    && s.taken <= |s.requests|
  }

  ghost predicate NothingMissing(s: State) {
    if s.sender.SenderOver? then Tried(s.attempts) == Everything(s)
    else Tried(s.attempts) + Outstanding(s) == s.submitted
  }

  ghost predicate Invariant(s: State) {
    Control(s) && Queued(s) && NothingMissing(s)
  }

  lemma PublishesFirstSnoc(requests: seq<Request>, r: Request)
    requires PublishesFirst(requests) && (FromSender(r) ==> Disconnect !in requests)
    ensures PublishesFirst(requests + [r])
  {
    forall i, j | 0 <= i < j < |requests + [r]| && (requests + [r])[i].Disconnect?
      ensures !FromSender((requests + [r])[j])
    {
      assert requests[i] in requests;
    }
  }

  lemma QueueingOther(s: State, r: Request)
    requires Queued(s) && !FromSender(r) && !r.Disconnect?
    ensures Queued(Enqueue(s, r))
  {
    RequestSnoc(s.requests, r);
    PublishesFirstSnoc(s.requests, r);
  }

  lemma QueueingOwn(s: State, m: Msg, ok: bool)
    requires Queued(s) && Disconnect !in s.requests
    ensures Queued(Sent(s, m, ok))
  {
    AttemptSnoc(s.attempts, Attempt(m, ok));
    RequestSnoc(s.requests, Publish(m, SenderLoop));
    PublishesFirstSnoc(s.requests, Publish(m, SenderLoop));
  }

  lemma QueueingDisconnect(s: State, ok: bool)
    requires Queued(s)
    ensures Queued(Apply(s, RequestDisconnect(ok)))
  {
    RequestSnoc(s.requests, Disconnect);
    PublishesFirstSnoc(s.requests, Disconnect);
  }

  lemma ReconnectingKeepsQueued(s: State, initial: Option<Msg>, subscribe: bool, leaves: bool)
    requires Queued(s)
    ensures Queued(Apply(s, Reconnected(initial, subscribe, leaves)))
  {
    if s.receiver.Selecting? {
      var greeted := s;
      if initial.Some? {
        greeted := Enqueue(s, Publish(initial.value, Reconnection));
        QueueingOther(s, Publish(initial.value, Reconnection));
      }
      if subscribe {
        QueueingOther(greeted, Subscribe);
      }
    }
  }

  lemma StepKeepsControl(s: State, step: Step)
    requires Control(s)
    ensures Control(Apply(s, step))
  {}

  lemma StepKeepsQueued(s: State, step: Step)
    requires Control(s) && Queued(s)
    ensures Queued(Apply(s, step))
  {
    match step
    case PublishDone(ok) =>
      if s.sender.Publishing? {
        QueueingOwn(s, s.sender.msg, ok);
      } else if s.sender.PublishingWill? {
        QueueingOwn(s, s.sender.will, ok);
      }
    case Reconnected(initial, subscribe, leaves) => ReconnectingKeepsQueued(s, initial, subscribe, leaves);
    case RequestDisconnect(ok) => QueueingDisconnect(s, ok);
    case _ =>
  }

  lemma PublishingMissesNothing(s: State, ok: bool)
    requires s.sender.Publishing? && NothingMissing(s)
    ensures NothingMissing(Apply(s, PublishDone(ok)))
  {
    var tried, m, s' := Tried(s.attempts), s.sender.msg, Apply(s, PublishDone(ok));
    assert s'.attempts == s.attempts + [Attempt(m, ok)] && s'.sender.Receiving?;
    AttemptSnoc(s.attempts, Attempt(m, ok));
    NextOne(tried, m, s.inbox);
  }

  lemma NextOne(done: seq<Msg>, m: Msg, rest: seq<Msg>)
    ensures done + [m] + rest == done + ([m] + rest)
  {}

  lemma PublishingWillMissesNothing(s: State, ok: bool)
    requires s.sender.PublishingWill? && Control(s) && NothingMissing(s)
    ensures NothingMissing(Apply(s, PublishDone(ok)))
  {
    AttemptSnoc(s.attempts, Attempt(s.sender.will, ok));
    assert Tried(s.attempts) == s.submitted;
  }

  lemma SubmittingMissesNothing(s: State, m: Msg)
    requires Control(s) && NothingMissing(s)
    ensures NothingMissing(Apply(s, Submit(m)))
  {
    if !s.inboxClosed {
      assert Outstanding(Apply(s, Submit(m))) == Outstanding(s) + [m];
      assert Tried(s.attempts) + (Outstanding(s) + [m]) == Tried(s.attempts) + Outstanding(s) + [m];
    }
  }

  lemma ReceivingMissesNothing(s: State)
    requires Control(s) && NothingMissing(s)
    ensures NothingMissing(Apply(s, Receive))
  {
    if s.sender.Receiving? && s.inbox != [] {
      assert s.inbox == [s.inbox[0]] + s.inbox[1..];
    } else {
      assert Tried(s.attempts) + [] == Tried(s.attempts);
    }
  }

  lemma StepKeepsNothingMissing(s: State, step: Step)
    requires Control(s) && NothingMissing(s)
    ensures NothingMissing(Apply(s, step))
  {
    match step
    case PublishDone(ok) =>
      if s.sender.Publishing? {
        PublishingMissesNothing(s, ok);
      } else if s.sender.PublishingWill? {
        PublishingWillMissesNothing(s, ok);
      }
    case Submit(m) => SubmittingMissesNothing(s, m);
    case Receive => ReceivingMissesNothing(s);
    case _ => OtherStepsLeaveSender(s, step);
  }

  lemma OtherStepsLeaveSender(s: State, step: Step)
    requires !step.PublishDone? && !step.Submit? && !step.Receive?
    ensures var s' := Apply(s, step);
            && s'.sender == s.sender && s'.inbox == s.inbox && s'.attempts == s.attempts
            && s'.submitted == s.submitted && s'.lastWill == s.lastWill
  {}

  lemma {:induction false} RunKeepsInvariant(lastWill: Option<Msg>, steps: seq<Step>)
    ensures Invariant(Run(lastWill, steps))
  {
    if steps != [] {
      RunKeepsInvariant(lastWill, steps[..|steps| - 1]);
      var s, step := Run(lastWill, steps[..|steps| - 1]), steps[|steps| - 1];
      StepKeepsControl(s, step);
      StepKeepsQueued(s, step);
      StepKeepsNothingMissing(s, step);
    }
  }

  /**
   In every run: at most one disconnection is requested, and only after the sender loop is over;
   it is queued behind every publish of the sender loop, so that the event loop takes those first.
   When it is over, the sender loop has tried to publish every submitted message in order, followed
   by the last will, and queued exactly those for which publishing did not fail.
   */
  lemma GracefulClose(lastWill: Option<Msg>, steps: seq<Step>)
    ensures var s := Run(lastWill, steps);
            && Disconnects(s.requests) <= 1
            && (Disconnects(s.requests) == 1 ==> s.sender.SenderOver? && s.permit.WithReceiver?)
            && PublishesFirst(s.requests)
            && SenderPublishes(s.requests) == Succeeded(s.attempts)
            && (s.sender.SenderOver? ==>
                  Tried(s.attempts) == if lastWill.Some? then s.submitted + [lastWill.value] else s.submitted)
  {
    RunKeepsInvariant(lastWill, steps);
    WillIsFixed(lastWill, steps);
  }

  /** Without publishing errors, everything submitted and then the will is queued, in that order. */
  lemma EverythingQueuedUnlessErrors(lastWill: Option<Msg>, steps: seq<Step>)
    requires var s := Run(lastWill, steps); s.sender.SenderOver? && forall a <- s.attempts :: a.ok
    ensures var s := Run(lastWill, steps);
            SenderPublishes(s.requests)
            == if lastWill.Some? then s.submitted + [lastWill.value] else s.submitted
  {
    GracefulClose(lastWill, steps);
    AllSucceeded(Run(lastWill, steps).attempts);
  }

  lemma {:induction false} WillIsFixed(lastWill: Option<Msg>, steps: seq<Step>)
    ensures Run(lastWill, steps).lastWill == lastWill
  {
    if steps != [] {
      WillIsFixed(lastWill, steps[..|steps| - 1]);
    }
  }

  /** Once the event loop has taken the disconnection, it has taken all the sender loop published. */
  lemma PublishesTakenBeforeDisconnect(lastWill: Option<Msg>, steps: seq<Step>, i: nat, j: nat)
    requires var s := Run(lastWill, steps);
             && i < s.taken && i < |s.requests| && s.requests[i].Disconnect?
             && j < |s.requests| && FromSender(s.requests[j])
    ensures j < Run(lastWill, steps).taken
  {
    RunKeepsInvariant(lastWill, steps);
  }

  /**
   The step that decides to disconnect is the receiver's check, made when the sender loop is over,
   the receiver has its permit, nothing is in flight and no disconnection was decided before.
   */
  lemma DisconnectDecidedWhenIdle(lastWill: Option<Msg>, steps: seq<Step>, step: Step)
    requires var s := Run(lastWill, steps); Apply(s, step).disconnectTasks > s.disconnectTasks
    ensures var s := Run(lastWill, steps);
            && step.Check? && s.inflight == 0
            && s.sender.SenderOver? && s.permit.WithReceiver?
            && s.disconnectTasks == 0 && Disconnects(s.requests) == 0
  {
    RunKeepsInvariant(lastWill, steps);
    OnlyTheCheckDecides(Run(lastWill, steps), step);
  }

  lemma OnlyTheCheckDecides(s: State, step: Step)
    requires Apply(s, step).disconnectTasks > s.disconnectTasks
    ensures step.Check? && s.inflight == 0 && s.permit.WithReceiver? && !s.triggeredDisconnect
  {}

  // ---------------------------------------------------------------- what the application submits

  /** The messages submitted before the inbox is closed. */
  function Submissions(steps: seq<Step>): seq<Msg> {
    if steps == [] then []
    else
      var n := |steps| - 1;
      if steps[n].Submit? && CloseInbox !in steps[..n] then Submissions(steps[..n]) + [steps[n].msg]
      else Submissions(steps[..n])
  }

  /** Every message the application submits before it closes its end is taken in, in order. */
  lemma {:induction false} SubmittedAreSubmissions(lastWill: Option<Msg>, steps: seq<Step>)
    ensures Run(lastWill, steps).submitted == Submissions(steps)
    ensures Run(lastWill, steps).inboxClosed <==> CloseInbox in steps
  {
    if steps != [] {
      var prefix, step := steps[..|steps| - 1], steps[|steps| - 1];
      SubmittedAreSubmissions(lastWill, prefix);
      SubmitIs(Run(lastWill, prefix), step);
      assert steps == prefix + [step];
    }
  }

  lemma SubmitIs(s: State, step: Step)
    ensures var s' := Apply(s, step);
            && s'.submitted == (if step.Submit? && !s.inboxClosed then s.submitted + [step.msg] else s.submitted)
            && (s'.inboxClosed <==> s.inboxClosed || step == CloseInbox)
  {}

  /** A reconnection queues the initial message, if there is one, and then the subscription, if needed. */
  lemma ReconnectionQueues(s: State, initial: Option<Msg>, subscribe: bool, leaves: bool)
    requires s.receiver.Selecting?
    ensures var s' := Apply(s, Reconnected(initial, subscribe, leaves));
            var greeting: seq<Request> := if initial.Some? then [Publish(initial.value, Reconnection)] else [];
            var subscription: seq<Request> := if subscribe then [Subscribe] else [];
            && s'.requests == s.requests + (greeting + subscription)
            && (s'.receiver.ReceiverOver? <==> leaves)
  {}

  // ---------------------------------------------------------------- the decision to disconnect

  /** Step `n` decides to disconnect. */
  ghost predicate DecidesAt(lastWill: Option<Msg>, steps: seq<Step>, n: nat) {
    n < |steps| && Run(lastWill, steps[..n + 1]).disconnectTasks > Run(lastWill, steps[..n]).disconnectTasks
  }

  ghost predicate NoneDecided(lastWill: Option<Msg>, steps: seq<Step>) {
    forall n: nat :: n < |steps| ==> !DecidesAt(lastWill, steps, n)
  }

  lemma TriggeredOnce(s: State, step: Step)
    ensures Apply(s, step).triggeredDisconnect <==>
            s.triggeredDisconnect || Apply(s, step).disconnectTasks > s.disconnectTasks
  {}

  ghost function TriggeredBy(lastWill: Option<Msg>, steps: seq<Step>): nat -> bool {
    (n: nat) => n <= |steps| && Run(lastWill, steps[..n]).triggeredDisconnect
  }

  ghost function Decides(lastWill: Option<Msg>, steps: seq<Step>): nat -> bool {
    (n: nat) => DecidesAt(lastWill, steps, n)
  }

  lemma TriggeredNext(lastWill: Option<Msg>, steps: seq<Step>, n: nat)
    requires n < |steps|
    ensures TriggeredBy(lastWill, steps)(n + 1) <==> TriggeredBy(lastWill, steps)(n) || Decides(lastWill, steps)(n)
  {
    assert steps[..n + 1][..n] == steps[..n];
    TriggeredOnce(Run(lastWill, steps[..n]), steps[n]);
  }

  lemma TriggeredIffDecided(lastWill: Option<Msg>, steps: seq<Step>)
    ensures Run(lastWill, steps).triggeredDisconnect <==> !NoneDecided(lastWill, steps)
  {
    var so, at := TriggeredBy(lastWill, steps), Decides(lastWill, steps);
    forall k: nat | k < |steps| ensures so(k + 1) <==> so(k) || at(k) {
      TriggeredNext(lastWill, steps, k);
    }
    EverIff(so, at, |steps|);
    assert steps[..|steps|] == steps;
    assert forall n: nat :: at(n) == DecidesAt(lastWill, steps, n);
  }

  /**
   The disconnection is decided exactly at a check that finds the permit taken and nothing in flight,
   unless it was decided before.
   */
  lemma DecidedIff(lastWill: Option<Msg>, steps: seq<Step>, step: Step)
    ensures var s := Run(lastWill, steps);
            Apply(s, step).disconnectTasks > s.disconnectTasks <==>
            && step == Check && s.receiver == Checking && s.permit == WithReceiver && s.inflight == 0
            && NoneDecided(lastWill, steps)
  {
    TriggeredIffDecided(lastWill, steps);
  }

  /** Disconnections queued or under way. */
  function Asked(s: State): nat {
    Disconnects(s.requests) + s.disconnectTasks
  }

  lemma SendingAsksNothing(s: State, m: Msg, ok: bool)
    ensures Asked(Sent(s, m, ok)) == Asked(s)
  {
    RequestSnoc(s.requests, Publish(m, SenderLoop));
  }

  lemma PublishingAsksNothing(s: State, ok: bool)
    ensures var s' := Apply(s, PublishDone(ok)); Asked(s') == Asked(s) && s'.triggeredDisconnect == s.triggeredDisconnect
  {
    if s.sender.Publishing? {
      SendingAsksNothing(s.(sender := Receiving), s.sender.msg, ok);
    } else if s.sender.PublishingWill? {
      SendingAsksNothing(s, s.sender.will, ok);
    }
  }

  lemma QueueingAsksNothing(s: State, r: Request)
    requires !r.Disconnect?
    ensures Asked(Enqueue(s, r)) == Asked(s)
  {
    RequestSnoc(s.requests, r);
  }

  lemma ReconnectingAsksNothing(s: State, initial: Option<Msg>, subscribe: bool, leaves: bool)
    ensures var s' := Apply(s, Reconnected(initial, subscribe, leaves));
            Asked(s') == Asked(s) && s'.triggeredDisconnect == s.triggeredDisconnect
  {
    if s.receiver.Selecting? {
      var greeted := if initial.Some? then Enqueue(s, Publish(initial.value, Reconnection)) else s;
      if initial.Some? {
        QueueingAsksNothing(s, Publish(initial.value, Reconnection));
      }
      QueueingAsksNothing(greeted, Subscribe);
      var subscribed := if subscribe then Enqueue(greeted, Subscribe) else greeted;
      assert Apply(s, Reconnected(initial, subscribe, leaves))
          == subscribed.(receiver := if leaves then ReceiverOver else Checking);
    }
  }

  lemma RequestingKeepsAsked(s: State)
    ensures var s' := Apply(s, RequestDisconnect(true));
            Asked(s') == Asked(s) && s'.triggeredDisconnect == s.triggeredDisconnect
  {
    RequestSnoc(s.requests, Disconnect);
  }

  lemma OthersAskNothing(s: State, step: Step)
    requires !step.PublishDone? && !step.Reconnected? && !step.RequestDisconnect? && !step.Check?
    ensures var s' := Apply(s, step);
            && s'.requests == s.requests && s'.disconnectTasks == s.disconnectTasks
            && s'.triggeredDisconnect == s.triggeredDisconnect
  {}

  lemma CheckAsks(s: State)
    ensures var s' := Apply(s, Check);
            && s'.requests == s.requests
            && s'.disconnectTasks - s.disconnectTasks
               == (if s'.triggeredDisconnect then 1 else 0) - (if s.triggeredDisconnect then 1 else 0)
  {}

  lemma AskedOnceTriggered(s: State, step: Step)
    requires step != RequestDisconnect(false) && Asked(s) == if s.triggeredDisconnect then 1 else 0
    ensures var s' := Apply(s, step); Asked(s') == if s'.triggeredDisconnect then 1 else 0
  {
    match step
    case PublishDone(ok) => PublishingAsksNothing(s, ok);
    case Reconnected(initial, subscribe, leaves) => ReconnectingAsksNothing(s, initial, subscribe, leaves);
    case RequestDisconnect(_) => RequestingKeepsAsked(s);
    case Check => CheckAsks(s);
    case _ => OthersAskNothing(s, step);
  }

  lemma {:induction false} DecidedIsAsked(lastWill: Option<Msg>, steps: seq<Step>)
    requires RequestDisconnect(false) !in steps
    ensures var s := Run(lastWill, steps); Asked(s) == if s.triggeredDisconnect then 1 else 0
  {
    if steps != [] {
      var prefix, step := steps[..|steps| - 1], steps[|steps| - 1];
      assert step in steps && forall x <- prefix :: x in steps;
      DecidedIsAsked(lastWill, prefix);
      AskedOnceTriggered(Run(lastWill, prefix), step);
    }
  }

  /**
   As long as no request to disconnect has failed: a check with the permit taken, nothing in flight and
   no disconnection queued or under way decides to disconnect.
   */
  lemma CheckDecides(lastWill: Option<Msg>, steps: seq<Step>)
    requires RequestDisconnect(false) !in steps
    requires var s := Run(lastWill, steps);
             && s.receiver == Checking && s.permit == WithReceiver && s.inflight == 0
             && Disconnects(s.requests) == 0 && s.disconnectTasks == 0
    ensures Apply(Run(lastWill, steps), Check).disconnectTasks == 1
  {
    DecidedIsAsked(lastWill, steps);
  }

  /** A decision is final: even if the request to disconnect then fails, no check decides again. */
  lemma DecisionIsFinal(lastWill: Option<Msg>, steps: seq<Step>, n: nat, step: Step)
    requires DecidesAt(lastWill, steps, n)
    ensures var s := Run(lastWill, steps); Apply(s, step).disconnectTasks <= s.disconnectTasks
  {
    DecidedIff(lastWill, steps, step);
  }

  // ---------------------------------------------------------------- closing is possible

  function RunFrom(s: State, steps: seq<Step>): State {
    Fold(s, steps, Apply)
  }

  lemma {:induction false} RunIsFold(lastWill: Option<Msg>, steps: seq<Step>)
    ensures Run(lastWill, steps) == RunFrom(Initial(lastWill), steps)
  {
    if steps != [] {
      RunIsFold(lastWill, steps[..|steps| - 1]);
    }
  }

  lemma RunConcat(lastWill: Option<Msg>, steps: seq<Step>, more: seq<Step>)
    ensures Run(lastWill, steps + more) == RunFrom(Run(lastWill, steps), more)
  {
    RunIsFold(lastWill, steps + more);
    RunIsFold(lastWill, steps);
    FoldConcat(Initial(lastWill), steps, more, Apply);
  }

  lemma RunFromConcat(s: State, a: seq<Step>, b: seq<Step>)
    ensures RunFrom(s, a + b) == RunFrom(RunFrom(s, a), b)
  {
    FoldConcat(s, a, b, Apply);
  }

  lemma RunFromOne(s: State, step: Step)
    ensures RunFrom(s, [step]) == Apply(s, step)
  {
    FoldOne(s, step, Apply);
  }

  /** What closing starts from: nothing decided, nothing asked for, and nobody submits any more. */
  ghost predicate Closable(s: State) {
    && Control(s) && s.inboxClosed && !s.receiver.ReceiverOver? && s.taken <= |s.requests|
    && !s.triggeredDisconnect && s.disconnectTasks == 0 && Disconnects(s.requests) == 0
  }

  /** How far the sender loop is from its end. */
  function Distance(s: State): nat {
    match s.sender
    case Receiving => 2 * |s.inbox| + 2
    case Publishing(_) => 2 * |s.inbox| + 3
    case PublishingWill(_) => 1
    case SenderOver => 0
  }

  lemma SenderAdvances(s: State) returns (step: Step)
    requires Closable(s) && !s.sender.SenderOver?
    ensures var s' := Apply(s, step); Closable(s') && Distance(s') < Distance(s)
  {
    if s.sender.Receiving? {
      step := Receive;
    } else {
      step := PublishDone(true);
      RequestSnoc(s.requests, Publish(if s.sender.Publishing? then s.sender.msg else s.sender.will, SenderLoop));
    }
    StepKeepsControl(s, step);
  }

  lemma {:induction false} SenderFinishes(s: State) returns (steps: seq<Step>)
    requires Closable(s)
    ensures var s' := RunFrom(s, steps); Closable(s') && s'.sender.SenderOver?
    decreases Distance(s)
  {
    if s.sender.SenderOver? {
      steps := [];
    } else {
      var step := SenderAdvances(s);
      var more := SenderFinishes(Apply(s, step));
      steps := [step] + more;
      RunFromOne(s, step);
      RunFromConcat(s, [step], more);
    }
  }

  lemma PermitIsTaken(s: State) returns (steps: seq<Step>)
    requires Closable(s) && s.sender.SenderOver?
    ensures var s' := RunFrom(s, steps); Closable(s') && s'.sender.SenderOver? && s'.permit.WithReceiver?
  {
    if s.permit.WithReceiver? {
      steps := [];
    } else {
      var selecting := if s.receiver.Checking? then Apply(s, Check) else s;
      steps := if s.receiver.Checking? then [Check, AcquirePermit] else [AcquirePermit];
      RunFromOne(s, Check);
      RunFromConcat(s, [Check], [AcquirePermit]);
      RunFromOne(selecting, AcquirePermit);
      assert [Check] + [AcquirePermit] == [Check, AcquirePermit];
      assert selecting.permit.Free?;
    }
  }

  /** Back at the check with nothing in flight, once the client has had its way. */
  lemma IdleAtCheck(s: State) returns (steps: seq<Step>)
    requires Closable(s) && s.permit.WithReceiver?
    ensures var s' := RunFrom(s, steps);
            Closable(s') && s'.permit.WithReceiver? && s'.receiver.Checking? && s'.inflight == 0
  {
    if s.receiver.Checking? && s.inflight == 0 {
      steps := [];
    } else {
      var first := if s.receiver.Checking? then [Check] else [];
      var selecting := if s.receiver.Checking? then Apply(s, Check) else s;
      RunFromOne(s, Check);
      assert RunFrom(s, first) == selecting && selecting.receiver.Selecting?;
      var idle := Apply(selecting, Poll(0, 0));
      RunFromOne(selecting, Poll(0, 0));
      RunFromOne(idle, OtherEvent);
      RunFromConcat(selecting, [Poll(0, 0)], [OtherEvent]);
      steps := first + ([Poll(0, 0)] + [OtherEvent]);
      RunFromConcat(s, first, [Poll(0, 0)] + [OtherEvent]);
    }
  }

  lemma DisconnectIsQueued(s: State) returns (steps: seq<Step>)
    requires Closable(s) && s.permit.WithReceiver? && s.receiver.Checking? && s.inflight == 0
    ensures Disconnects(RunFrom(s, steps).requests) == 1
  {
    var decided := Apply(s, Check);
    steps := [Check] + [RequestDisconnect(true)];
    RunFromOne(s, Check);
    RunFromOne(decided, RequestDisconnect(true));
    RunFromConcat(s, [Check], [RequestDisconnect(true)]);
    RequestSnoc(decided.requests, Disconnect);
  }

  lemma UndecidedIsClosable(lastWill: Option<Msg>, steps: seq<Step>)
    requires NoneDecided(lastWill, steps) && CloseInbox in steps && !Run(lastWill, steps).receiver.ReceiverOver?
    ensures Closable(Run(lastWill, steps))
  {
    TriggeredIffDecided(lastWill, steps);
    SubmittedAreSubmissions(lastWill, steps);
    RunKeepsInvariant(lastWill, steps);
  }

  /**
   Whatever happened before, with a last will or without: once the application has closed its end, and
   as long as the receiver loop is not over and has not decided yet, the connection can be closed.
   */
  lemma ClosingIsPossible(lastWill: Option<Msg>, steps: seq<Step>) returns (more: seq<Step>)
    requires NoneDecided(lastWill, steps) && CloseInbox in steps && !Run(lastWill, steps).receiver.ReceiverOver?
    ensures Disconnects(Run(lastWill, steps + more).requests) == 1
  {
    UndecidedIsClosable(lastWill, steps);
    var s := Run(lastWill, steps);
    var a := SenderFinishes(s);
    var b := PermitIsTaken(RunFrom(s, a));
    var c := IdleAtCheck(RunFrom(RunFrom(s, a), b));
    var d := DisconnectIsQueued(RunFrom(RunFrom(RunFrom(s, a), b), c));
    more := a + b + c + d;
    RunFromConcat(s, a, b);
    RunFromConcat(s, a + b, c);
    RunFromConcat(s, a + b + c, d);
    RunConcat(lastWill, steps, more);
  }
}
