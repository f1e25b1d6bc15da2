/**
 The wake between the acquisition thread and the main thread, as interleaved steps.
 The producer publishes a frame, exchanges the wake flag, and posts a wake when the
 flag was clear; the main thread runs queued callbacks in order, and a wake clears
 the flag before it drains the ready ring. Callbacks hold a weak reference to the
 driver and do nothing once it is gone.

 Assumed: a FIFO dispatcher, a sequentially consistent flag, one producer thread
 that has finished before the driver is destroyed, setState calls one at a time, and
 a ready ring whose pops are atomic: the producer takes the oldest frame back from the
 ring the consumer pops, which the ring itself is not built for.
 */
module WakeProtocol {

  type Frame = nat

  datatype ScopeState = Closed | Idle | Armed | Triggered | Running | Stopped | Error

  datatype Callback = Wake | StateChanged(state: ScopeState)

  /** Where the acquisition thread stands in _publish. */
  datatype Producer = Resting | Published | Posting

  /** Where the main thread stands: about to clear the flag, or taking frames. */
  datatype Consumer = Waiting | Clearing | Draining

  /** A frame that left the ready ring, handed to the consumer or dropped for a newer one. */
  datatype Taken = Taken(frame: Frame, delivered: bool)

  /** The last four fields are history. */
  datatype System = System(
    wakePending: bool, ready: seq<Frame>, queue: seq<Callback>, producer: Producer, consumer: Consumer,
    alive: bool, state: ScopeState,
    published: seq<Frame>, taken: seq<Taken>, requested: seq<ScopeState>, notified: seq<ScopeState>)

  const START: System := System(false, [], [], Resting, Waiting, true, Closed, [], [], [], [])

  datatype Action =
    | Publish(frame: Frame)
    | Exchange
    | Post
    | DropOldest
    | SetState(to: ScopeState)
    | RunQueued
    | Clear
    | Pop
    | Tick
    | Destroy

  predicate Enabled(s: System, a: Action) {
    match a
    case Publish(_) => s.alive && s.producer.Resting?
    case Exchange => s.producer.Published?
    case Post => s.producer.Posting?
    case DropOldest => s.alive && s.producer.Resting? && s.ready != []
    case SetState(_) => s.alive
    case RunQueued => s.consumer.Waiting? && s.queue != []
    case Clear => s.consumer.Clearing?
    case Pop => s.consumer.Draining?
    case Tick => s.alive && s.consumer.Waiting?
    case Destroy => s.alive && s.producer.Resting? && s.consumer.Waiting?
  }

  /** `capacity` is what the ready ring holds; a frame that does not fit is given back. */
  function Step(capacity: nat, s: System, a: Action): System {
    if !Enabled(s, a) then s
    else
      match a
      case Publish(f) =>
        if |s.ready| < capacity then
          s.(ready := s.ready + [f], published := s.published + [f], producer := Published)
        else s.(producer := Published)
      case Exchange =>
        if s.wakePending then s.(producer := Resting) else s.(wakePending := true, producer := Posting)
      case Post => s.(queue := s.queue + [Wake], producer := Resting)
      case DropOldest => s.(ready := s.ready[1..], taken := s.taken + [Taken(s.ready[0], false)])
      case SetState(to) =>
        var r := s.(state := to, requested := s.requested + [to]);
        if s.state == to then r else r.(queue := s.queue + [StateChanged(to)])
      case RunQueued =>
        var r := s.(queue := s.queue[1..]);
        if !s.alive then r
        else (
          match s.queue[0]
          case Wake => r.(consumer := Clearing)
          case StateChanged(to) => r.(notified := s.notified + [to]))
      case Clear => s.(wakePending := false, consumer := Draining)
      case Pop =>
        if s.ready == [] then s.(consumer := Waiting)
        else s.(ready := s.ready[1..], taken := s.taken + [Taken(s.ready[0], true)])
      case Tick => s.(consumer := Draining)
      case Destroy => s.(alive := false)
  }

  function Run(capacity: nat, s: System, actions: seq<Action>): System {
    if actions == [] then s
    else Step(capacity, Run(capacity, s, actions[..|actions| - 1]), actions[|actions| - 1])
  }

  // ---- the invariant --------------------------------------------------------------------

  function Wakes(queue: seq<Callback>): nat {
    if queue == [] then 0 else Wakes(queue[..|queue| - 1]) + if queue[|queue| - 1].Wake? then 1 else 0
  }

  function States(queue: seq<Callback>): seq<ScopeState> {
    if queue == [] then []
    else
      var last := queue[|queue| - 1];
      States(queue[..|queue| - 1]) + if last.StateChanged? then [last.state] else []
  }

  lemma {:induction false} QueueConcat(a: seq<Callback>, b: seq<Callback>)
    ensures Wakes(a + b) == Wakes(a) + Wakes(b) && States(a + b) == States(a) + States(b)
  {
    if b == [] {
      assert a + b == a;
    } else {
      QueueConcat(a, b[..|b| - 1]);
      assert (a + b)[..|a + b| - 1] == a + b[..|b| - 1];
    }
  }

  lemma QueueFront(c: Callback, rest: seq<Callback>)
    ensures Wakes([c] + rest) == (if c.Wake? then 1 else 0) + Wakes(rest)
    ensures States([c] + rest) == (if c.StateChanged? then [c.state] else []) + States(rest)
  {
    assert [c][..0] == [];
    QueueConcat([c], rest);
  }

  lemma QueueBack(queue: seq<Callback>, c: Callback)
    ensures Wakes(queue + [c]) == Wakes(queue) + (if c.Wake? then 1 else 0)
    ensures States(queue + [c]) == States(queue) + (if c.StateChanged? then [c.state] else [])
  {
  }

  /** Wakes on their way: queued, about to be posted, or running before they clear the flag. */
  function Outstanding(s: System): nat {
    Wakes(s.queue) + (if s.producer.Posting? then 1 else 0) + if s.consumer.Clearing? then 1 else 0
  }

  /** The states a listener should see: each request that differs from the one before it. */
  function Changes(from: ScopeState, requested: seq<ScopeState>): seq<ScopeState> {
    if requested == [] then []
    else
      var front, last := requested[..|requested| - 1], requested[|requested| - 1];
      Changes(from, front) + if last == Latest(from, front) then [] else [last]
  }

  function Latest(from: ScopeState, requested: seq<ScopeState>): ScopeState {
    if requested == [] then from else requested[|requested| - 1]
  }

  function FramesOf(taken: seq<Taken>): seq<Frame> {
    seq(|taken|, i requires 0 <= i < |taken| => taken[i].frame)
  }

  ghost predicate Inv(s: System) {
    && (s.alive ==> Outstanding(s) == if s.wakePending then 1 else 0)
    && (s.alive && s.ready != [] ==> s.wakePending || s.consumer.Draining? || s.producer.Published?)
    && (!s.alive ==> s.producer.Resting? && s.consumer.Waiting?)
    && FramesOf(s.taken) + s.ready == s.published
    && s.state == Latest(Closed, s.requested)
    && (s.alive ==> s.notified + States(s.queue) == Changes(Closed, s.requested))
  }

  lemma StartInv()
    ensures Inv(START)
  {
  }

  lemma TakenGrows(taken: seq<Taken>, ready: seq<Frame>, delivered: bool)
    requires ready != []
    ensures FramesOf(taken + [Taken(ready[0], delivered)]) + ready[1..] == FramesOf(taken) + ready
  {
  }

  lemma RequestGrows(requested: seq<ScopeState>, to: ScopeState)
    ensures Latest(Closed, requested + [to]) == to
    ensures Changes(Closed, requested + [to])
         == Changes(Closed, requested) + if to == Latest(Closed, requested) then [] else [to]
  {
  }

  lemma RunQueuedKeepsInv(capacity: nat, s: System)
    requires Inv(s) && Enabled(s, RunQueued)
    ensures Inv(Step(capacity, s, RunQueued))
  {
    hide FramesOf, Changes, Latest, Wakes, States;
    var c, rest := s.queue[0], s.queue[1..];
    assert s.queue == [c] + rest;
    QueueFront(c, rest);
    if c.StateChanged? {
      assert s.notified + ([c.state] + States(rest)) == (s.notified + [c.state]) + States(rest);
    } else {
      assert [] + States(rest) == States(rest);
    }
  }

  lemma StepKeepsInv(capacity: nat, s: System, a: Action)
    requires Inv(s)
    ensures Inv(Step(capacity, s, a))
  {
    hide FramesOf, Changes, Latest, Wakes, States;
    if Enabled(s, a) {
      match a
      case Publish(f) =>
        assert FramesOf(s.taken) + (s.ready + [f]) == (FramesOf(s.taken) + s.ready) + [f];
      case Post =>
        QueueBack(s.queue, Wake);
        assert States(s.queue) + [] == States(s.queue);
      case DropOldest => TakenGrows(s.taken, s.ready, false);
      case Pop =>
        if s.ready != [] {
          TakenGrows(s.taken, s.ready, true);
        }
      case SetState(to) =>
        RequestGrows(s.requested, to);
        QueueBack(s.queue, StateChanged(to));
        assert s.notified + (States(s.queue) + [to]) == (s.notified + States(s.queue)) + [to];
        assert Changes(Closed, s.requested) + [] == Changes(Closed, s.requested);
      case RunQueued => RunQueuedKeepsInv(capacity, s);
      case _ =>
    }
  }

  /** The invariant holds under every interleaving. */
  lemma {:induction false} RunKeepsInv(capacity: nat, s: System, actions: seq<Action>)
    requires Inv(s)
    ensures Inv(Run(capacity, s, actions))
  {
    hide Inv, Step;
    if actions != [] {
      var front := actions[..|actions| - 1];
      RunKeepsInv(capacity, s, front);
      StepKeepsInv(capacity, Run(capacity, s, front), actions[|actions| - 1]);
    }
  }

  /**
   At most one wake is outstanding at any moment of any run, exactly when the flag is
   set, and a frame in the ready ring always has something under way that will take it.
   */
  lemma AtMostOneWake(capacity: nat, actions: seq<Action>)
    ensures var s := Run(capacity, START, actions);
            s.alive ==>
              && Wakes(s.queue) <= 1
              && (s.wakePending <==> Outstanding(s) == 1)
              && (!s.wakePending <==> Outstanding(s) == 0)
              && (s.ready != [] ==> Outstanding(s) == 1 || s.consumer.Draining? || s.producer.Published?)
  {
    StartInv();
    RunKeepsInv(capacity, START, actions);
  }

  // ---- nothing is lost --------------------------------------------------------------------

  /** What the main thread does next when left alone. */
  function MainAction(s: System): Action {
    match s.consumer
    case Waiting => RunQueued
    case Clearing => Clear
    case Draining => Pop
  }

  function Rank(c: Consumer): nat {
    match c
    case Waiting => 0
    case Draining => 1
    case Clearing => 2
  }

  /** The main thread runs until it has nothing queued and nothing in hand. */
  function Settle(capacity: nat, s: System): System
    decreases |s.queue|, Rank(s.consumer), |s.ready|
  {
    if s.consumer.Waiting? && s.queue == [] then s else Settle(capacity, Step(capacity, s, MainAction(s)))
  }

  /**
   No wake is lost. Once the producer is between frames, the main thread on its own
   empties the ready ring: every frame that was in it is handed over, in order, and every
   change of state is delivered.
   */
  lemma {:induction false} SettlingDeliversEverything(capacity: nat, s: System)
    requires Inv(s) && s.alive && s.producer.Resting?
    ensures var r := Settle(capacity, s);
            && r.ready == [] && r.queue == [] && !r.wakePending && r.consumer.Waiting?
            && FramesOf(r.taken) == s.published
            && r.taken == s.taken + AllDelivered(s.ready)
            && r.notified == Changes(Closed, s.requested)
    decreases |s.queue|, Rank(s.consumer), |s.ready|
  {
    hide FramesOf, Changes, Latest;
    if s.consumer.Waiting? && s.queue == [] {
      Quiet(s);
    } else {
      var next := Step(capacity, s, MainAction(s));
      StepKeepsInv(capacity, s, MainAction(s));
      SettlingDeliversEverything(capacity, next);
      if s.consumer.Draining? && s.ready != [] {
        DeliveredFirst(s.taken, s.ready);
      }
    }
  }

  lemma Quiet(s: System)
    requires Inv(s) && s.alive && s.producer.Resting? && s.consumer.Waiting? && s.queue == []
    ensures s.ready == [] && !s.wakePending
    ensures FramesOf(s.taken) == s.published && s.taken == s.taken + AllDelivered(s.ready)
    ensures s.notified == Changes(Closed, s.requested)
  {
  }

  function AllDelivered(frames: seq<Frame>): seq<Taken> {
    seq(|frames|, i requires 0 <= i < |frames| => Taken(frames[i], true))
  }

  lemma DeliveredFirst(taken: seq<Taken>, ready: seq<Frame>)
    requires ready != []
    ensures (taken + [Taken(ready[0], true)]) + AllDelivered(ready[1..]) == taken + AllDelivered(ready)
  {
  }

  /** The rest of a _publish call that has begun. */
  function FinishPublish(capacity: nat, s: System): System {
    Step(capacity, Step(capacity, s, Exchange), Post)
  }

  /** From any reachable state: finish the publish under way, let the main thread run, and all is delivered. */
  lemma NoFrameIsForgotten(capacity: nat, actions: seq<Action>)
    requires Run(capacity, START, actions).alive
    ensures var s := Run(capacity, START, actions);
            var r := Settle(capacity, FinishPublish(capacity, s));
            && r.ready == [] && FramesOf(r.taken) == s.published
            && r.taken == s.taken + AllDelivered(s.ready)
            && r.notified == Changes(Closed, s.requested)
  {
    hide FramesOf, Changes, Latest, Wakes, States, Settle, Inv, Run;
    var s := Run(capacity, START, actions);
    StartInv();
    RunKeepsInv(capacity, START, actions);
    StepKeepsInv(capacity, s, Exchange);
    StepKeepsInv(capacity, Step(capacity, s, Exchange), Post);
    SettlingDeliversEverything(capacity, FinishPublish(capacity, s));
  }

  /** The drain under way, to its end. */
  function DrainOut(capacity: nat, s: System): System
    decreases if s.consumer.Draining? then |s.ready| + 1 else 0
  {
    if s.consumer.Draining? then DrainOut(capacity, Step(capacity, s, Pop)) else s
  }

  /** The periodic drain takes everything that waits, needing no wake and leaving the queue alone. */
  lemma TickTakesEverything(capacity: nat, s: System)
    requires s.alive && s.consumer.Waiting?
    ensures var r := DrainOut(capacity, Step(capacity, s, Tick));
            r.ready == [] && r.taken == s.taken + AllDelivered(s.ready) && r.queue == s.queue && r.consumer.Waiting?
  {
    DrainTakesEverything(capacity, Step(capacity, s, Tick));
  }

  lemma {:induction false} DrainTakesEverything(capacity: nat, s: System)
    requires s.consumer.Draining?
    ensures var r := DrainOut(capacity, s);
            r.ready == [] && r.taken == s.taken + AllDelivered(s.ready) && r.queue == s.queue && r.consumer.Waiting?
    decreases |s.ready|
  {
    if s.ready == [] {
      assert s.taken + AllDelivered([]) == s.taken;
    } else {
      DrainTakesEverything(capacity, Step(capacity, s, Pop));
      DeliveredFirst(s.taken, s.ready);
    }
  }

  // ---- what the history records, read off the actions ----------------------------------------

  /** The frames published while there was room for them, by a producer free to publish. */
  function PublishedBy(capacity: nat, actions: seq<Action>): seq<Frame> {
    if actions == [] then []
    else
      var front, last := actions[..|actions| - 1], actions[|actions| - 1];
      var s := Run(capacity, START, front);
      PublishedBy(capacity, front)
      + if last.Publish? && s.alive && s.producer.Resting? && |s.ready| < capacity then [last.frame] else []
  }

  /** Every state requested of a driver that is still there. */
  function RequestedBy(capacity: nat, actions: seq<Action>): seq<ScopeState> {
    if actions == [] then []
    else
      var front, last := actions[..|actions| - 1], actions[|actions| - 1];
      RequestedBy(capacity, front)
      + if last.SetState? && Run(capacity, START, front).alive then [last.to] else []
  }

  /** What `published` and `requested` hold is what the actions published and requested; the ring stays bounded. */
  lemma {:induction false} HistoryIsTheActions(capacity: nat, actions: seq<Action>)
    ensures var s := Run(capacity, START, actions);
            && s.published == PublishedBy(capacity, actions)
            && s.requested == RequestedBy(capacity, actions)
            && |s.ready| <= capacity
  {
    hide Step;
    if actions != [] {
      var front := actions[..|actions| - 1];
      HistoryIsTheActions(capacity, front);
      StepHistory(capacity, Run(capacity, START, front), actions[|actions| - 1]);
    }
  }

  lemma StepHistory(capacity: nat, s: System, a: Action)
    ensures var r := Step(capacity, s, a);
            && r.published
               == s.published + (if a.Publish? && s.alive && s.producer.Resting? && |s.ready| < capacity
                                 then [a.frame] else [])
            && r.requested == s.requested + (if a.SetState? && s.alive then [a.to] else [])
            && (|s.ready| <= capacity ==> |r.ready| <= capacity)
  {
    assert s.published + [] == s.published && s.requested + [] == s.requested;
  }

  /** Frames published in full one after another, the main thread not running in between. */
  function PublishAll(capacity: nat, s: System, frames: seq<Frame>): System {
    if frames == [] then s
    else
      var n := |frames| - 1;
      FinishPublish(capacity, Step(capacity, PublishAll(capacity, s, frames[..n]), Publish(frames[n])))
  }

  lemma {:induction false} AllArePublished(capacity: nat, s: System, frames: seq<Frame>)
    requires Inv(s) && s.alive && s.producer.Resting? && |s.ready| + |frames| <= capacity
    ensures var r := PublishAll(capacity, s, frames);
            && Inv(r) && r.alive && r.producer.Resting?
            && r.ready == s.ready + frames && r.taken == s.taken && r.requested == s.requested
  {
    hide Inv, FinishPublish, Step;
    if frames != [] {
      var n := |frames| - 1;
      var front := frames[..n];
      AllArePublished(capacity, s, front);
      OneIsPublished(capacity, PublishAll(capacity, s, front), frames[n]);
      assert frames == front + [frames[n]];
    }
  }

  lemma OneIsPublished(capacity: nat, s: System, frame: Frame)
    requires Inv(s) && s.alive && s.producer.Resting? && |s.ready| < capacity
    ensures var r := FinishPublish(capacity, Step(capacity, s, Publish(frame)));
            && Inv(r) && r.alive && r.producer.Resting?
            && r.ready == s.ready + [frame] && r.taken == s.taken && r.requested == s.requested
  {
    hide Inv;
    var one := Step(capacity, s, Publish(frame));
    StepKeepsInv(capacity, s, Publish(frame));
    StepKeepsInv(capacity, one, Exchange);
    StepKeepsInv(capacity, Step(capacity, one, Exchange), Post);
  }

  /**
   Everything published is handed over: from any state the driver can be in between two
   frames, publish as many as the ring has room for and let the main thread run, and
   what waited before and all of them arrive, in order.
   */
  lemma PublishedFramesArrive(capacity: nat, actions: seq<Action>, frames: seq<Frame>)
    requires var s := Run(capacity, START, actions);
             s.alive && s.producer.Resting? && |s.ready| + |frames| <= capacity
    ensures var s := Run(capacity, START, actions);
            var r := Settle(capacity, PublishAll(capacity, s, frames));
            r.taken == s.taken + AllDelivered(s.ready + frames) && r.ready == [] && r.queue == []
  {
    hide Inv, Run, Settle, PublishAll, FramesOf, Changes;
    var s := Run(capacity, START, actions);
    StartInv();
    RunKeepsInv(capacity, START, actions);
    AllArePublished(capacity, s, frames);
    SettlingDeliversEverything(capacity, PublishAll(capacity, s, frames));
  }

  /** After the driver is gone, whatever is still queued runs without handing over or notifying anything. */
  lemma {:induction false} DestructionSilences(capacity: nat, s: System, actions: seq<Action>)
    requires Inv(s) && !s.alive
    ensures var r := Run(capacity, s, actions);
            && !r.alive && r.taken == s.taken && r.notified == s.notified
            && r.ready == s.ready && r.wakePending == s.wakePending && r.state == s.state
            && r.producer.Resting? && r.consumer.Waiting?
  {
    if actions != [] {
      DestructionSilences(capacity, s, actions[..|actions| - 1]);
    }
  }

  // ---- state notifications ------------------------------------------------------------------

  function Previous(from: ScopeState, c: seq<ScopeState>, i: nat): ScopeState
    requires i < |c|
  {
    if i == 0 then from else c[i - 1]
  }

  /** Listeners never see the same state twice in a row, and end up with the latest one. */
  lemma {:induction false} ChangesAreChanges(from: ScopeState, requested: seq<ScopeState>)
    ensures var c := Changes(from, requested);
            && (forall i :: 0 <= i < |c| ==> c[i] != Previous(from, c, i))
            && Latest(from, c) == Latest(from, requested)
  {
    if requested != [] {
      var front := requested[..|requested| - 1];
      ChangesAreChanges(from, front);
      var c, before := Changes(from, requested), Changes(from, front);
      forall i | 0 <= i < |c| ensures c[i] != Previous(from, c, i) {
        if i < |before| {
          assert before[i] != Previous(from, before, i);
        }
      }
    }
  }

  predicate IsChange(from: ScopeState, requested: seq<ScopeState>, i: nat)
    requires i < |requested|
  {
    requested[i] != Previous(from, requested, i)
  }

  /** And no change is skipped: requests that all differ from the one before are all notified. */
  lemma {:induction false} EveryChangeIsNotified(from: ScopeState, requested: seq<ScopeState>)
    requires forall i: nat :: i < |requested| ==> IsChange(from, requested, i)
    ensures Changes(from, requested) == requested
  {
    hide IsChange;
    if requested != [] {
      var front := requested[..|requested| - 1];
      forall i: nat | i < |front| ensures IsChange(from, front, i) {
        ChangeInFront(from, requested, i);
      }
      EveryChangeIsNotified(from, front);
      LastChange(from, requested);
      assert requested == front + [requested[|front|]];
    }
  }

  lemma ChangeInFront(from: ScopeState, requested: seq<ScopeState>, i: nat)
    requires i + 1 < |requested| && IsChange(from, requested, i)
    ensures IsChange(from, requested[..|requested| - 1], i)
  {
  }

  lemma LastChange(from: ScopeState, requested: seq<ScopeState>)
    requires requested != [] && IsChange(from, requested, |requested| - 1)
    ensures requested[|requested| - 1] != Latest(from, requested[..|requested| - 1])
  {
  }
}
