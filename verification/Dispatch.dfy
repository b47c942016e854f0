/**
 The event dispatch of sconex/Descriptor.cpp, on values: what one pass over the chain of streams does, and how passes
 follow one another.
 */
module Dispatching {
  import opened Bytes

  datatype Phase = Closed | Closing | Connected | Connecting | Listening

  datatype Event = OnOpening | OnClosing | OnReadable | OnWriteable

  /** isOpen tells whether the Opening event is enabled, which means that opening is complete. */
  datatype Stream = Stream(id: nat, isOpen: bool)

  /**
   The handlers of all streams. The event that is sent at time t is answered with answer(t); its handler appends
   appends(t) streams to the chain, completes its own opening if opens(t), and closes the descriptor if shuts(t).
   Between the events, at time t, the other functions tell which streams have enabled which events, and which of
   them have something buffered to be read. Handlers can depend on everything that has happened, as every run has
   a World of its own.
   */
  datatype World = World(answer: nat -> Condition, appends: nat -> nat, opens: nat -> bool, shuts: nat -> bool,
                         readable: (nat, nat) -> bool, writeable: (nat, nat) -> bool, hasReadable: (nat, nat) -> bool)

  /** An event sent to the stream at position pos of the chain. */
  datatype Delivery = Delivery(event: Event, pos: nat, chain: seq<Stream>)

  /**
   The descriptor. clock counts the events that have been sent; budget is how many streams the handlers append
   altogether from now on, and nextId the first id that is not in use.
   */
  datatype State = State(phase: Phase, streams: seq<Stream>, clock: nat, budget: nat, nextId: nat, log: seq<Delivery>)

  function Ids(streams: seq<Stream>): (ids: seq<nat>)
    ensures |ids| == |streams|
  {
    seq(|streams|, i requires 0 <= i < |streams| => streams[i].id)
  }

  predicate Distinct(ids: seq<nat>) {
    forall i, j | 0 <= i < j < |ids| :: ids[i] != ids[j]
  }

  function Appended(w: World, st: State): nat {
    Min(w.appends(st.clock), st.budget)
  }

  function NewStreams(id: nat, n: nat): (s: seq<Stream>)
    ensures |s| == n
  {
    seq(n, (k: nat) => Stream(id + k, false))
  }

  function WithOpened(streams: seq<Stream>, i: nat): seq<Stream>
    requires i < |streams|
  {
    streams[i := streams[i].(isOpen := true)]
  }

  /** What sending an event to stream i does, apart from what dispatch makes of the answer. */
  function Sent(w: World, st: State, i: nat, e: Event): (st': State)
    requires i < |st.streams|
    ensures |st'.streams| == |st.streams| + Appended(w, st)
  {
    var streams := if w.opens(st.clock) && e != OnClosing then WithOpened(st.streams, i) else st.streams;
    State(if w.shuts(st.clock) then Closed else st.phase, streams + NewStreams(st.nextId, Appended(w, st)),
          st.clock + 1, st.budget - Appended(w, st), st.nextId + Appended(w, st),
          st.log + [Delivery(e, i, st.streams)])
  }

  // One stream's turn in the open, read and write sequence

  /** The pass's local variables. */
  datatype Turn = Turn(st: State, evRead: bool, evWrite: bool, remove: bool, error: bool, close: bool, openWait: bool)

  function OpenTurn(w: World, t: Turn, i: nat, evOpen: bool): (t': Turn)
    requires i < |t.st.streams|
    ensures i < |t'.st.streams|
  {
    if evOpen && !t.st.streams[i].isOpen then
      var st := Sent(w, t.st, i, OnOpening);
      match w.answer(t.st.clock)
      case Ok => t.(st := st.(streams := WithOpened(st.streams, i)))
      case Wait => t.(st := st, openWait := true)
      case End => t.(st := st, remove := true)
      case Close => t.(st := st.(streams := WithOpened(st.streams, i)), close := true)
      case Error => t.(st := st, error := true)
    else t
  }

  function ReadTurn(w: World, t: Turn, i: nat): (t': Turn)
    requires i < |t.st.streams|
    ensures i < |t'.st.streams|
  {
    if !t.remove && !t.error && t.evRead && w.readable(t.st.clock, t.st.streams[i].id) then
      var st := Sent(w, t.st, i, OnReadable);
      match w.answer(t.st.clock)
      case Ok => t.(st := st)
      case Wait => t.(st := st, evRead := false)
      case End => t.(st := st, remove := true)
      case Close => t.(st := st, close := true)
      case Error => t.(st := st, error := true)
    else t
  }

  function WriteTurn(w: World, t: Turn, i: nat): (t': Turn)
    requires i < |t.st.streams|
    ensures i < |t'.st.streams|
  {
    if !t.remove && !t.error && t.evWrite && w.writeable(t.st.clock, t.st.streams[i].id) then
      var st := Sent(w, t.st, i, OnWriteable);
      match w.answer(t.st.clock)
      case Ok => t.(st := st)
      case Wait => t.(st := st, evWrite := false)
      case End => t.(st := st, remove := true)
      case Close => t.(st := st, close := true)
      case Error => t.(st := st, error := true)
    else t
  }

  function FullTurn(w: World, st: State, i: nat, evOpen: bool, evRead: bool, evWrite: bool): (t: Turn)
    requires i < |st.streams|
    ensures i < |t.st.streams|
  {
    WriteTurn(w, ReadTurn(w, OpenTurn(w, Turn(st, evRead, evWrite, false, false, false, false), i, evOpen), i), i)
  }

  /** A stream whose opening is still incomplete holds up the streams behind it. */
  predicate HoldsUp(t: Turn, i: nat)
    requires i < |t.st.streams|
  {
    t.openWait && !t.st.streams[i].isOpen
  }

  /** The end of a turn: the close request, the removal, and the events that the stream has in store. */
  function Settled(w: World, t: Turn, i: nat): (t': Turn)
    requires i < |t.st.streams|
  {
    var st := if t.close && t.st.phase != Closed then t.st.(phase := Closing) else t.st;
    if t.error then t.(st := st)
    else if t.remove then t.(st := st.(streams := st.streams[..i] + st.streams[i + 1..]))
    else t.(st := st, evRead := t.evRead || w.hasReadable(t.st.clock, t.st.streams[i].id))
  }

  /** What has been appended was taken from the budget, and nothing else has changed the chain's length. */
  predicate Grown(a: State, b: State) {
    a.budget >= b.budget && |b.streams| - |a.streams| == a.budget - b.budget && a.clock <= b.clock
  }

  lemma SentGrows(w: World, st: State, i: nat, e: Event)
    requires i < |st.streams|
    ensures Grown(st, Sent(w, st, i, e)) && Sent(w, st, i, e).clock == st.clock + 1
  {
  }

  lemma OpenTurnGrows(w: World, t: Turn, i: nat, evOpen: bool)
    requires i < |t.st.streams|
    ensures Grown(t.st, OpenTurn(w, t, i, evOpen).st)
  {
    hide Sent;
    SentGrows(w, t.st, i, OnOpening);
  }

  lemma ReadTurnGrows(w: World, t: Turn, i: nat)
    requires i < |t.st.streams|
    ensures Grown(t.st, ReadTurn(w, t, i).st)
  {
  }

  lemma WriteTurnGrows(w: World, t: Turn, i: nat)
    requires i < |t.st.streams|
    ensures Grown(t.st, WriteTurn(w, t, i).st)
  {
  }

  lemma TurnsShrink(w: World, st: State, i: nat, evOpen: bool, evRead: bool, evWrite: bool)
    requires i < |st.streams|
    ensures var t := FullTurn(w, st, i, evOpen, evRead, evWrite);
            var st' := Settled(w, t, i).st;
            && Grown(st, t.st) && st'.budget == t.st.budget && st'.clock == t.st.clock
            && |st'.streams| == if t.remove && !t.error then |t.st.streams| - 1 else |t.st.streams|
  {
    hide OpenTurn, ReadTurn, WriteTurn;
    var t0 := Turn(st, evRead, evWrite, false, false, false, false);
    OpenTurnGrows(w, t0, i, evOpen);
    ReadTurnGrows(w, OpenTurn(w, t0, i, evOpen), i);
    WriteTurnGrows(w, ReadTurn(w, OpenTurn(w, t0, i, evOpen), i), i);
  }

  /** The open, read and write sequence from stream i on; the second result tells whether an error ended it. */
  function OpenPhase(w: World, st: State, i: nat, evOpen: bool, evRead: bool, evWrite: bool): (State, bool)
    decreases st.budget, |st.streams| - i
  {
    if i >= |st.streams| then (st, false)
    else
      TurnsShrink(w, st, i, evOpen, evRead, evWrite);
      var t := FullTurn(w, st, i, evOpen, evRead, evWrite);
      var t' := Settled(w, t, i);
      if t.error then (t'.st, true)
      else if HoldsUp(t, i) then (t'.st, false)
      else OpenPhase(w, t'.st, if t.remove then i else i + 1, evOpen, t'.evRead, t'.evWrite)
  }

  // The close sequence

  datatype Closure = Emptied | Suspended | Cancelled | Failed

  /** The events are sent from the back of the chain; a stream that answers Ok or Close is removed there. */
  function ClosePhase(w: World, st: State): (State, Closure)
    decreases st.budget, |st.streams|
  {
    if st.streams == [] then (st, Emptied)
    else
      var st1 := Sent(w, st, |st.streams| - 1, OnClosing);
      match w.answer(st.clock)
      case Wait => (st1, Suspended)
      case End => (st1.(phase := Connected), Cancelled)
      case Error => (st1, Failed)
      case _ => ClosePhase(w, st1.(streams := st1.streams[..|st1.streams| - 1]))
  }

  // Passes

  datatype Outcome = Remove | Keep | Again

  /** One round of the loop of dispatch. */
  function Pass(w: World, st: State, evOpen: bool, evRead: bool, evWrite: bool): (State, Outcome) {
    var (st1, error) := OpenPhase(w, st, 0, evOpen, evRead, evWrite);
    if error then (st1, Remove)
    else
      var (st2, closure) := if st1.phase == Closing then ClosePhase(w, st1) else (st1, Suspended);
      if closure == Failed || st2.streams == [] then (st2, Remove)
      else (st2, if closure == Cancelled then Again else Keep)
  }

  // What every run keeps

  /** The streams whose opening is complete come first. */
  predicate OpenFirst(streams: seq<Stream>) {
    forall i, j | 0 <= i < j < |streams| && streams[j].isOpen :: streams[i].isOpen
  }

  predicate OpenBefore(streams: seq<Stream>, i: nat) {
    forall j | 0 <= j < i && j < |streams| :: streams[j].isOpen
  }

  /** Closing goes to the last stream; in a pass that opens streams, nothing else goes past a stream that is opening. */
  predicate InTurn(d: Delivery, evOpen: bool) {
    && d.pos < |d.chain|
    && if d.event == OnClosing then d.pos == |d.chain| - 1 else evOpen ==> OpenBefore(d.chain, d.pos)
  }

  /** The events that st' has sent since st were all in turn. */
  predicate SentInTurn(st: State, st': State, evOpen: bool) {
    && |st.log| <= |st'.log| && st.log == st'.log[..|st.log|]
    && forall k | |st.log| <= k < |st'.log| :: InTurn(st'.log[k], evOpen)
  }

  /** Handlers complete their opening only when opening is under way. */
  ghost predicate OpensInTurn(w: World, evOpen: bool) {
    evOpen || forall t: nat :: !w.opens(t)
  }

  lemma SentInTurnTwice(a: State, b: State, c: State, evOpen: bool)
    requires SentInTurn(a, b, evOpen) && SentInTurn(b, c, evOpen)
    ensures SentInTurn(a, c, evOpen)
  {
  }

  lemma SentKeepsOrder(w: World, st: State, i: nat, e: Event, evOpen: bool)
    requires i < |st.streams| && OpenFirst(st.streams) && OpensInTurn(w, evOpen)
    requires if e == OnClosing then i == |st.streams| - 1 else evOpen ==> OpenBefore(st.streams, i)
    ensures var st' := Sent(w, st, i, e);
            && OpenFirst(st'.streams) && SentInTurn(st, st', evOpen)
            && (evOpen && e != OnClosing ==> OpenBefore(st'.streams, i))
            && (forall j | 0 <= j < |st.streams| && st.streams[j].isOpen :: st'.streams[j].isOpen)
  {
  }

  /** What is true of the chain in the middle of stream i's turn. */
  predicate MidTurn(st: State, t: Turn, i: nat, evOpen: bool) {
    && i < |t.st.streams| && OpenFirst(t.st.streams) && (evOpen ==> OpenBefore(t.st.streams, i))
    && SentInTurn(st, t.st, evOpen)
    && (evOpen ==> t.st.streams[i].isOpen || t.openWait || t.remove || t.error)
  }

  lemma OpeningOneKeepsOrder(streams: seq<Stream>, i: nat)
    requires i < |streams| && OpenFirst(streams) && OpenBefore(streams, i)
    ensures var streams' := WithOpened(streams, i);
            |streams'| == |streams| && OpenFirst(streams') && OpenBefore(streams', i) && streams'[i].isOpen
  {
  }

  lemma OpenTurnKeepsOrder(w: World, st: State, t: Turn, i: nat, evOpen: bool)
    requires t.st == st && i < |st.streams| && OpenFirst(st.streams) && OpensInTurn(w, evOpen)
    requires evOpen ==> OpenBefore(st.streams, i)
    ensures MidTurn(st, OpenTurn(w, t, i, evOpen), i, evOpen)
  {
    hide Sent, WithOpened, SentInTurn, OpenFirst, OpenBefore;
    NothingSent(st, evOpen);
    if evOpen && !st.streams[i].isOpen {
      SentKeepsOrder(w, st, i, OnOpening, evOpen);
      var st' := Sent(w, st, i, OnOpening);
      OpeningOneKeepsOrder(st'.streams, i);
      LogOnly(st, st', st'.(streams := WithOpened(st'.streams, i)), evOpen);
    }
  }

  lemma ReadTurnKeepsOrder(w: World, st: State, t: Turn, i: nat, evOpen: bool)
    requires MidTurn(st, t, i, evOpen) && OpensInTurn(w, evOpen)
    ensures MidTurn(st, ReadTurn(w, t, i), i, evOpen)
  {
    hide Sent, SentInTurn;
    if !t.remove && !t.error && t.evRead && w.readable(t.st.clock, t.st.streams[i].id) {
      SentKeepsOrder(w, t.st, i, OnReadable, evOpen);
      SentInTurnTwice(st, t.st, Sent(w, t.st, i, OnReadable), evOpen);
    }
  }

  lemma WriteTurnKeepsOrder(w: World, st: State, t: Turn, i: nat, evOpen: bool)
    requires MidTurn(st, t, i, evOpen) && OpensInTurn(w, evOpen)
    ensures MidTurn(st, WriteTurn(w, t, i), i, evOpen)
  {
    hide Sent, SentInTurn;
    if !t.remove && !t.error && t.evWrite && w.writeable(t.st.clock, t.st.streams[i].id) {
      SentKeepsOrder(w, t.st, i, OnWriteable, evOpen);
      SentInTurnTwice(st, t.st, Sent(w, t.st, i, OnWriteable), evOpen);
    }
  }

  lemma SettledKeepsOrder(w: World, st: State, t: Turn, i: nat, evOpen: bool)
    requires MidTurn(st, t, i, evOpen)
    ensures var t' := Settled(w, t, i);
            && OpenFirst(t'.st.streams) && SentInTurn(st, t'.st, evOpen)
            && (evOpen && !t.error && !HoldsUp(t, i) ==> OpenBefore(t'.st.streams, if t.remove then i else i + 1))
  {
  }

  lemma {:induction false} OpenPhaseKeepsOrder(w: World, st: State, i: nat, evOpen: bool, evRead: bool, evWrite: bool)
    requires OpenFirst(st.streams) && OpensInTurn(w, evOpen) && (evOpen ==> OpenBefore(st.streams, i))
    ensures var st' := OpenPhase(w, st, i, evOpen, evRead, evWrite).0;
            OpenFirst(st'.streams) && SentInTurn(st, st', evOpen)
    decreases st.budget, |st.streams| - i
  {
    hide OpenTurn, ReadTurn, WriteTurn, SentInTurn, OpenFirst, OpenBefore, Settled, HoldsUp;
    if i >= |st.streams| {
      NothingSent(st, evOpen);
    } else {
      TurnsShrink(w, st, i, evOpen, evRead, evWrite);
      var t0 := Turn(st, evRead, evWrite, false, false, false, false);
      OpenTurnKeepsOrder(w, st, t0, i, evOpen);
      ReadTurnKeepsOrder(w, st, OpenTurn(w, t0, i, evOpen), i, evOpen);
      WriteTurnKeepsOrder(w, st, ReadTurn(w, OpenTurn(w, t0, i, evOpen), i), i, evOpen);
      var t := FullTurn(w, st, i, evOpen, evRead, evWrite);
      var t' := Settled(w, t, i);
      SettledKeepsOrder(w, st, t, i, evOpen);
      if !t.error && !HoldsUp(t, i) {
        var next := if t.remove then i else i + 1;
        OpenPhaseKeepsOrder(w, t'.st, next, evOpen, t'.evRead, t'.evWrite);
        SentInTurnTwice(st, t'.st, OpenPhase(w, t'.st, next, evOpen, t'.evRead, t'.evWrite).0, evOpen);
      }
    }
  }

  lemma NothingSent(st: State, evOpen: bool)
    ensures SentInTurn(st, st, evOpen)
  {
  }

  lemma {:induction false} ClosePhaseKeepsOrder(w: World, st: State, evOpen: bool)
    requires OpenFirst(st.streams) && OpensInTurn(w, evOpen)
    ensures var st' := ClosePhase(w, st).0;
            OpenFirst(st'.streams) && SentInTurn(st, st', evOpen)
    decreases st.budget, |st.streams|
  {
    hide SentInTurn, Sent;
    if st.streams == [] {
      NothingSent(st, evOpen);
    } else {
      SentKeepsOrder(w, st, |st.streams| - 1, OnClosing, evOpen);
      SentGrows(w, st, |st.streams| - 1, OnClosing);
      var st1 := Sent(w, st, |st.streams| - 1, OnClosing);
      LogOnly(st, st1, st1.(phase := Connected), evOpen);
      if w.answer(st.clock) == Ok || w.answer(st.clock) == Close {
        var st2 := st1.(streams := st1.streams[..|st1.streams| - 1]);
        LogOnly(st, st1, st2, evOpen);
        ClosePhaseKeepsOrder(w, st2, evOpen);
        SentInTurnTwice(st, st2, ClosePhase(w, st2).0, evOpen);
      }
    }
  }

  lemma LogOnly(st: State, a: State, b: State, evOpen: bool)
    requires SentInTurn(st, a, evOpen) && a.log == b.log
    ensures SentInTurn(st, b, evOpen)
  {
  }

  /** A pass keeps the opened streams in front, and sends all its events in turn. */
  lemma PassKeepsOrder(w: World, st: State, evOpen: bool, evRead: bool, evWrite: bool)
    requires OpenFirst(st.streams) && OpensInTurn(w, evOpen)
    ensures var st' := Pass(w, st, evOpen, evRead, evWrite).0;
            OpenFirst(st'.streams) && SentInTurn(st, st', evOpen)
  {
    hide OpenPhase, ClosePhase, SentInTurn;
    OpenPhaseKeepsOrder(w, st, 0, evOpen, evRead, evWrite);
    var st1 := OpenPhase(w, st, 0, evOpen, evRead, evWrite).0;
    ClosePhaseKeepsOrder(w, st1, evOpen);
    SentInTurnTwice(st, st1, ClosePhase(w, st1).0, evOpen);
  }
}
