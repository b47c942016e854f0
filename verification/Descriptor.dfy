/**
 The descriptor of sconex/Descriptor.cpp: its chain of streams, and the loop that dispatches events to it.
 */
module Descriptors {
  import opened Bytes
  import opened Dispatching
  import opened DispatchProgress
  import opened DispatchVisits
  import opened DispatchAnswers

  class Descriptor {
    const world: World
    var phase: Phase
    var streams: seq<Stream>
    var virtualEvents: set<Event>
    var clock: nat
    var budget: nat
    var nextId: nat
    ghost var log: seq<Delivery>

    ghost function Abs(): State
      reads this
    {
      State(phase, streams, clock, budget, nextId, log)
    }

    constructor (world: World, phase: Phase, virtualEvents: set<Event>, budget: nat)
      ensures this.world == world && Abs() == State(phase, [], 0, budget, 0, [])
      ensures this.virtualEvents == virtualEvents
    {
      this.world := world;
      this.phase := phase;
      streams := [];
      this.virtualEvents := virtualEvents;
      clock, nextId := 0, 0;
      this.budget := budget;
      log := [];
    }

    /** add_stream, from outside a handler. */
    method AddStream() returns (id: nat)
      modifies this
      ensures id == old(nextId)
      ensures Abs() == old(Abs()).(streams := old(streams) + [Stream(id, false)], nextId := id + 1)
      ensures OpenFirst(old(streams)) ==> OpenFirst(streams)
      ensures Numbered(old(Abs())) ==> Numbered(Abs())
      ensures virtualEvents == old(virtualEvents)
    {
      id := nextId;
      streams := streams + [Stream(id, false)];
      nextId := nextId + 1;
      assert Ids(streams) == Ids(old(streams)) + [id];
    }

    /** Stream::event of the stream at position i, with what its handler does to the descriptor. */
    method Send(i: nat, e: Event) returns (c: Condition)
      requires i < |streams|
      modifies this
      ensures Abs() == Sent(world, old(Abs()), i, e) && c == world.answer(old(clock))
      ensures virtualEvents == old(virtualEvents) && |streams| >= |old(streams)|
    {
      c := world.answer(clock);
      var n := Min(world.appends(clock), budget);
      log := log + [Delivery(e, i, streams)];
      if world.opens(clock) && e != OnClosing {
        streams := streams[i := streams[i].(isOpen := true)];
      }
      if world.shuts(clock) {
        phase := Closed;
      }
      streams := streams + NewStreams(nextId, n);
      nextId := nextId + n;
      budget := budget - n;
      clock := clock + 1;
    }

    /** Opening, if it is not complete. */
    method SendOpening(i: nat, evOpen: bool, ghost evRead: bool, ghost evWrite: bool)
      returns (remove: bool, error: bool, close: bool, openWait: bool)
      requires i < |streams|
      modifies this
      ensures Turn(Abs(), evRead, evWrite, remove, error, close, openWait) ==
              OpenTurn(world, Turn(old(Abs()), evRead, evWrite, false, false, false, false), i, evOpen)
      ensures virtualEvents == old(virtualEvents)
    {
      hide Sent;
      remove, error, close, openWait := false, false, false, false;
      if evOpen && !streams[i].isOpen {
        var c := Send(i, OnOpening);
        match c {
          case Ok => streams := WithOpened(streams, i);
          case Wait => openWait := true;
          case End => remove := true;
          case Close => streams := WithOpened(streams, i); close := true;
          case Error => error := true;
        }
      }
    }

    /** Readable, if the stream has enabled it, unless the stream is to be removed. t holds the locals of dispatch. */
    method SendReadable(i: nat, evRead: bool, removed: bool, failed: bool, closed: bool, ghost t: Turn)
      returns (again: bool, remove: bool, error: bool, close: bool)
      requires i < |streams| && t.st == Abs()
      requires t.evRead == evRead && t.remove == removed && t.error == failed && t.close == closed
      modifies this
      ensures t.(st := Abs(), evRead := again, remove := remove, error := error, close := close)
              == ReadTurn(world, t, i)
      ensures virtualEvents == old(virtualEvents)
    {
      hide Sent;
      again, remove, error, close := evRead, removed, failed, closed;
      if !remove && !error && evRead && world.readable(clock, streams[i].id) {
        var c := Send(i, OnReadable);
        match c {
          case Ok =>
          case Wait => again := false;
          case End => remove := true;
          case Close => close := true;
          case Error => error := true;
        }
      }
    }

    /** Writeable, if the stream has enabled it, unless the stream is to be removed. t holds the locals of dispatch. */
    method SendWriteable(i: nat, evWrite: bool, removed: bool, failed: bool, closed: bool, ghost t: Turn)
      returns (again: bool, remove: bool, error: bool, close: bool)
      requires i < |streams| && t.st == Abs()
      requires t.evWrite == evWrite && t.remove == removed && t.error == failed && t.close == closed
      modifies this
      ensures t.(st := Abs(), evWrite := again, remove := remove, error := error, close := close)
              == WriteTurn(world, t, i)
      ensures virtualEvents == old(virtualEvents)
    {
      hide Sent;
      again, remove, error, close := evWrite, removed, failed, closed;
      if !remove && !error && evWrite && world.writeable(clock, streams[i].id) {
        var c := Send(i, OnWriteable);
        match c {
          case Ok =>
          case Wait => again := false;
          case End => remove := true;
          case Close => close := true;
          case Error => error := true;
        }
      }
    }

    /** One stream's turn in the open, read and write sequence. */
    method TakeTurn(i: nat, evOpen: bool, evRead: bool, evWrite: bool)
      returns (evRead': bool, evWrite': bool, remove: bool, error: bool, heldUp: bool)
      requires i < |streams|
      modifies this
      ensures var t := FullTurn(world, old(Abs()), i, evOpen, evRead, evWrite);
              var t' := Settled(world, t, i);
              && Abs() == t'.st && evRead' == t'.evRead && evWrite' == t'.evWrite
              && remove == t.remove && error == t.error && heldUp == HoldsUp(t, i)
      ensures virtualEvents == old(virtualEvents)
    {
      hide OpenTurn, ReadTurn, WriteTurn, Settled;
      var close, openWait;
      remove, error, close, openWait := SendOpening(i, evOpen, evRead, evWrite);
      ghost var t := Turn(Abs(), evRead, evWrite, remove, error, close, openWait);
      evRead', remove, error, close := SendReadable(i, evRead, remove, error, close, t);
      t := t.(st := Abs(), evRead := evRead', remove := remove, error := error, close := close);
      evWrite', remove, error, close := SendWriteable(i, evWrite, remove, error, close, t);
      t := t.(st := Abs(), evWrite := evWrite', remove := remove, error := error, close := close);
      heldUp := openWait && !streams[i].isOpen;
      evRead' := Settle(i, evRead', remove, error, close, t);
    }

    /** The end of a turn. */
    method Settle(i: nat, evRead: bool, remove: bool, error: bool, close: bool, ghost t: Turn) returns (evRead': bool)
      requires i < |streams| && t.st == Abs()
      requires t.evRead == evRead && t.remove == remove && t.error == error && t.close == close
      modifies this
      ensures Settled(world, t, i) == t.(st := Abs(), evRead := evRead')
      ensures virtualEvents == old(virtualEvents)
    {
      evRead' := evRead;
      if close && phase != Closed {
        phase := Closing;
      }
      if !error {
        if remove {
          streams := streams[..i] + streams[i + 1..];
        } else if !evRead && world.hasReadable(clock, streams[i].id) {
          evRead' := true;
        }
      }
    }

    /** The open, read and write sequence. */
    method OpenSequence(evOpen: bool, evRead: bool, evWrite: bool) returns (error: bool)
      modifies this
      ensures (Abs(), error) == OpenPhase(world, old(Abs()), 0, evOpen, evRead, evWrite)
      ensures virtualEvents == old(virtualEvents)
    {
      hide FullTurn, Settled, HoldsUp;
      var i, evR, evW := 0, evRead, evWrite;
      error := false;
      while i < |streams|
        invariant OpenPhase(world, Abs(), i, evOpen, evR, evW) ==
                  OpenPhase(world, old(Abs()), 0, evOpen, evRead, evWrite)
        invariant virtualEvents == old(virtualEvents) && !error
        decreases budget, |streams| - i
      {
        TurnsShrink(world, Abs(), i, evOpen, evR, evW);
        var remove, heldUp;
        evR, evW, remove, error, heldUp := TakeTurn(i, evOpen, evR, evW);
        if error || heldUp {
          return;
        }
        if !remove {
          i := i + 1;
        }
      }
    }

    /** The close sequence. */
    method CloseSequence() returns (closure: Closure)
      modifies this
      ensures (Abs(), closure) == ClosePhase(world, old(Abs()))
      ensures virtualEvents == old(virtualEvents)
    {
      hide Sent, ClosePhase;
      while streams != []
        invariant ClosePhase(world, Abs()) == ClosePhase(world, old(Abs()))
        invariant virtualEvents == old(virtualEvents)
        decreases budget, |streams|
      {
        ClosePhaseStep(world, Abs());
        SentGrows(world, Abs(), |streams| - 1, OnClosing);
        var c := Send(|streams| - 1, OnClosing);
        if c == Wait {
          return Suspended;
        } else if c == End {
          phase := Connected;
          return Cancelled;
        } else if c == Error {
          return Failed;
        }
        streams := streams[..|streams| - 1];
      }
      ClosePhaseStep(world, Abs());
      return Emptied;
    }

    /** One round of the loop of dispatch. */
    method OnePass(evOpen: bool, evRead: bool, evWrite: bool) returns (outcome: Outcome)
      modifies this
      ensures (Abs(), outcome) == Pass(world, old(Abs()), evOpen, evRead, evWrite)
      ensures virtualEvents == old(virtualEvents)
    {
      hide OpenPhase, ClosePhase;
      var error := OpenSequence(evOpen, evRead, evWrite);
      if error {
        return Remove;
      }
      var loop := false;
      if phase == Closing {
        var closure := CloseSequence();
        if closure == Failed {
          return Remove;
        }
        loop := closure == Cancelled;
      }
      if |streams| == 0 {
        return Remove;
      }
      return if loop then Again else Keep;
    }

    /** dispatch; 1 when the descriptor is to be removed. The loop ends within the given number of passes. */
    method Dispatch(sent: set<Event>, timedOut: bool, connectFails: bool, ghost passes: nat) returns (r: int)
      requires EndsWithin(world, Abs(), sent + virtualEvents, passes)
      modifies this
      ensures (Abs(), r) ==
              Dispatched(world, old(Abs()), sent + old(virtualEvents), timedOut, connectFails, passes)
      ensures virtualEvents == old(virtualEvents)
    {
      hide Pass;
      if phase == Closed || timedOut {
        return 1;
      }
      var events := sent + virtualEvents;
      var evOpen := phase == Connected || phase == Listening;
      var evRead, evWrite := OnReadable in events, OnWriteable in events;
      if phase == Connecting {
        if evWrite {
          if connectFails {
            return 1;
          }
          phase := Connected;
        }
        return 0;
      }
      ghost var left := passes;
      while true
        invariant FirstPasses(world, Abs(), evOpen, evRead, evWrite, left) ==
                  FirstPasses(world, old(Abs()), evOpen, OnReadable in events, OnWriteable in events, passes)
        invariant virtualEvents == old(virtualEvents)
        decreases left
      {
        var outcome := OnePass(evOpen, evRead, evWrite);
        if outcome != Again {
          return if outcome == Keep then 0 else 1;
        }
        evRead, evWrite := false, false;
        left := left - 1;
      }
    }
  }

  /** The loop of dispatch ends within so many passes, if it is reached. */
  predicate EndsWithin(w: World, st: State, events: set<Event>, passes: nat) {
    FirstPasses(w, st, BegunOpen(st), OnReadable in events, OnWriteable in events, passes).1 != Again
  }

  function Dispatched(w: World, st: State, events: set<Event>, timedOut: bool, connectFails: bool, passes: nat)
    : (State, int)
    requires EndsWithin(w, st, events, passes)
  {
    if st.phase == Closed || timedOut then (st, 1)
    else if st.phase == Connecting then
      if OnWriteable !in events then (st, 0)
      else if connectFails then (st, 1)
      else (st.(phase := Connected), 0)
    else
      var (st', outcome) := FirstPasses(w, st, BegunOpen(st), OnReadable in events, OnWriteable in events, passes);
      (st', if outcome == Keep then 0 else 1)
  }

  /**
   Whatever the handlers do, a call of dispatch that ends keeps the streams whose opening is complete at the front of
   the chain; all events go to the streams in turn; and a chain that ends up empty is reported with 1, unless the
   descriptor is still connecting.
   */
  lemma DispatchIsOrderly(w: World, st: State, events: set<Event>, timedOut: bool, connectFails: bool, passes: nat)
    requires EndsWithin(w, st, events, passes) && OpenFirst(st.streams) && OpensInTurn(w, BegunOpen(st))
    ensures var (st', r) := Dispatched(w, st, events, timedOut, connectFails, passes);
            && OpenFirst(st'.streams) && SentInTurn(st, st', BegunOpen(st))
            && (st'.streams == [] && st.phase != Connecting ==> r == 1)
  {
    hide FirstPasses, OpenFirst, SentInTurn, OpensInTurn;
    NothingSent(st, BegunOpen(st));
    LogOnly(st, st, st.(phase := Connected), BegunOpen(st));
    AnyPassesKeepOrder(w, st, BegunOpen(st), OnReadable in events, OnWriteable in events, passes);
  }

  /**
   A call of dispatch that ends says that the descriptor is to be removed exactly if it was closed already or has timed
   out, if it could not be connected, or if, once events have been sent, one was answered with Error or no stream is
   left. A descriptor that is still connecting is connected by a Writeable event, and gets no others in this call.
   */
  lemma DispatchResult(w: World, st: State, events: set<Event>, timedOut: bool, connectFails: bool, passes: nat)
    requires EndsWithin(w, st, events, passes) && Numbered(st)
    ensures var (st', r) := Dispatched(w, st, events, timedOut, connectFails, passes);
            && Numbered(st') && st.clock <= st'.clock
            && (r == 0 || r == 1)
            && (r == 1 <==>
                  || st.phase == Closed || timedOut
                  || (st.phase == Connecting && OnWriteable in events && connectFails)
                  || (st.phase != Connecting && (Heard(w, st.clock, st'.clock, Error) || st'.streams == [])))
            && (st.phase == Connecting ==>
                  st' == if r == 0 && OnWriteable in events then st.(phase := Connected) else st)
  {
    hide FirstPasses, Numbered, Heard;
    AnyPhaseNumbered(st);
    PassesTell(w, st, BegunOpen(st), OnReadable in events, OnWriteable in events, passes);
  }

  /**
   A call that is not stopped before begins with a sequence that sends Opening if the descriptor is connected or
   listening, and Readable and Writeable as they are in the events of the call.
   */
  lemma CallBegins(w: World, st: State, events: set<Event>, connectFails: bool, passes: nat)
    returns (vs: seq<Visit>, mid: State, error: bool)
    requires EndsWithin(w, st, events, passes) && Numbered(st) && st.phase != Closed && st.phase != Connecting
    ensures Told(w, st, 0, st.phase == Connected || st.phase == Listening, OnReadable in events, OnWriteable in events,
                 vs, mid, error)
    ensures mid.log <= Dispatched(w, st, events, false, connectFails, passes).0.log
  {
    hide Numbered, Told, OpenPhase, Pass;
    var evOpen, evRead, evWrite := BegunOpen(st), OnReadable in events, OnWriteable in events;
    vs := OpenPhaseTells(w, st, 0, evOpen, evRead, evWrite);
    var (st', failed) := OpenPhase(w, st, 0, evOpen, evRead, evWrite);
    mid, error := st', failed;
    PassesBegin(w, st, evOpen, evRead, evWrite, passes);
  }
}
