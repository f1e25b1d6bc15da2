/**
 The driver's side of the protocol as an object: each method is one step that no
 other thread can interrupt, and keeps the protocol's invariant. The flag, the state and
 the life token are the driver's, the ready ring its pool's, and the dispatcher the
 framework's; `producer` and `consumer` say where the two threads stand in their code.
 */
module ScopeDriver {
  import opened WakeProtocol

  /** While the driver lives a set flag stands for exactly one wake on its way. */
  lemma FlagCountsWakes(s: System)
    requires Inv(s) && (s.alive || !s.producer.Resting?)
    ensures Outstanding(s) == if s.wakePending then 1 else 0
  {
  }

  class ScopeDriver {
    const capacity: nat

    var wakePending: bool
    var state: ScopeState
    var alive: bool
    var ready: seq<Frame>
    var dispatcher: seq<Callback>
    var producer: Producer
    var consumer: Consumer

    ghost var published: seq<Frame>
    ghost var taken: seq<Taken>
    ghost var requested: seq<ScopeState>
    ghost var notified: seq<ScopeState>

    ghost function System(): System
      reads this
    {
      WakeProtocol.System(wakePending, ready, dispatcher, producer, consumer, alive, state,
                          published, taken, requested, notified)
    }

    constructor (capacity: nat)
      ensures this.capacity == capacity && System() == START && Inv(System())
    {
      this.capacity := capacity;
      wakePending, state, alive := false, Closed, true;
      ready, dispatcher, producer, consumer := [], [], Resting, Waiting;
      published, taken, requested, notified := [], [], [], [];
    }

    /** _publish up to the wake: the frame goes into the ready ring, if it fits. */
    method PushReady(frame: Frame)
      requires Inv(System()) && Enabled(System(), Publish(frame))
      modifies this
      ensures System() == Step(capacity, old(System()), Publish(frame)) && Inv(System())
    {
      hide Inv;
      StepKeepsInv(capacity, System(), Publish(frame));
      if |ready| < capacity {
        ready := ready + [frame];
        published := published + [frame];
      }
      producer := Published;
    }

    /** The exchange in _postFrameWake; a flag already set, and only a wake on its way sets it, ends the call. */
    method ExchangeWakePending() returns (was: bool)
      requires Inv(System()) && Enabled(System(), Exchange)
      modifies this
      ensures System() == Step(capacity, old(System()), Exchange) && Inv(System())
      ensures was == old(wakePending) && (was <==> old(Outstanding(System())) == 1)
    {
      hide Inv;
      FlagCountsWakes(System());
      StepKeepsInv(capacity, System(), Exchange);
      was := wakePending;
      wakePending := true;
      producer := if was then Resting else Posting;
    }

    /** The post that follows when the flag was clear. */
    method PostWake()
      requires Inv(System()) && Enabled(System(), Post)
      modifies this
      ensures System() == Step(capacity, old(System()), Post) && Inv(System())
    {
      hide Inv;
      StepKeepsInv(capacity, System(), Post);
      dispatcher := dispatcher + [Wake];
      producer := Resting;
    }

    /** _publish from start to end with nothing in between. */
    method PublishFrame(frame: Frame)
      requires Inv(System()) && Enabled(System(), Publish(frame))
      modifies this
      ensures System() == FinishPublish(capacity, Step(capacity, old(System()), Publish(frame))) && Inv(System())
      ensures wakePending && Outstanding(System()) == 1
      ensures ready == old(ready) + if |old(ready)| < capacity then [frame] else []
    {
      hide Inv;
      PushReady(frame);
      var was := ExchangeWakePending();
      if !was {
        PostWake();
      }
      FlagCountsWakes(System());
    }

    /** The pool runs dry: the producer takes the oldest ready frame back. */
    method ReclaimOldest() returns (frame: Frame)
      requires Inv(System()) && Enabled(System(), DropOldest)
      modifies this
      ensures System() == Step(capacity, old(System()), DropOldest) && Inv(System()) && frame == old(ready)[0]
    {
      hide Inv;
      StepKeepsInv(capacity, System(), DropOldest);
      frame := ready[0];
      ready := ready[1..];
      taken := taken + [Taken(frame, false)];
    }

    method ChangeState(to: ScopeState)
      requires Inv(System()) && Enabled(System(), SetState(to))
      modifies this
      ensures System() == Step(capacity, old(System()), SetState(to)) && Inv(System())
    {
      hide Inv;
      StepKeepsInv(capacity, System(), SetState(to));
      var previous := state;
      state := to;
      requested := requested + [to];
      if previous == to { return; }
      dispatcher := dispatcher + [StateChanged(to)];
    }

    /** The dispatcher runs its oldest callback; an expired guard makes it do nothing. */
    method RunNext()
      requires Inv(System()) && Enabled(System(), RunQueued)
      modifies this
      ensures System() == Step(capacity, old(System()), RunQueued) && Inv(System())
    {
      hide Inv;
      StepKeepsInv(capacity, System(), RunQueued);
      var callback := dispatcher[0];
      dispatcher := dispatcher[1..];
      if !alive { return; }
      match callback
      case Wake => consumer := Clearing;
      case StateChanged(to) => notified := notified + [to];
    }

    method ClearWakePending()
      requires Inv(System()) && Enabled(System(), Clear)
      modifies this
      ensures System() == Step(capacity, old(System()), Clear) && Inv(System())
    {
      hide Inv;
      StepKeepsInv(capacity, System(), Clear);
      wakePending := false;
      consumer := Draining;
    }

    /** One turn of the drain loop, which ends when the ring is empty. */
    method TakeReady() returns (more: bool)
      requires Inv(System()) && Enabled(System(), Pop)
      modifies this
      ensures System() == Step(capacity, old(System()), Pop) && Inv(System()) && more == (old(ready) != [])
    {
      hide Inv;
      StepKeepsInv(capacity, System(), Pop);
      more := ready != [];
      if !more {
        consumer := Waiting;
        return;
      }
      taken := taken + [Taken(ready[0], true)];
      ready := ready[1..];
    }

    /** The periodic drain, which needs no wake. */
    method DrainOnTick()
      requires Inv(System()) && Enabled(System(), Tick)
      modifies this
      ensures System() == Step(capacity, old(System()), Tick) && Inv(System())
    {
      hide Inv;
      StepKeepsInv(capacity, System(), Tick);
      consumer := Draining;
    }

    /** Destruction drops the only strong reference to the life token. */
    method Release()
      requires Inv(System()) && Enabled(System(), Destroy)
      modifies this
      ensures System() == Step(capacity, old(System()), Destroy) && Inv(System())
    {
      hide Inv;
      StepKeepsInv(capacity, System(), Destroy);
      alive := false;
    }

    /** The main thread alone: callbacks, clears and drains until nothing is left to do. */
    method RunMainThread()
      requires Inv(System()) && alive && producer.Resting?
      modifies this
      ensures System() == Settle(capacity, old(System()))
      ensures Inv(System()) && ready == [] && dispatcher == [] && !wakePending
      ensures FramesOf(taken) == old(published) && taken == old(taken) + AllDelivered(old(ready))
    {
      hide Inv, FramesOf, Changes, AllDelivered, Latest, States, Wakes;
      SettlingDeliversEverything(capacity, System());
      while consumer.Clearing? || consumer.Draining? || dispatcher != []
        invariant Inv(System()) && alive && Settle(capacity, System()) == Settle(capacity, old(System()))
        decreases |dispatcher|, Rank(consumer), |ready|
      {
        match consumer
        case Waiting => RunNext();
        case Clearing => ClearWakePending();
        case Draining => var more := TakeReady();
      }
    }
  }
}
