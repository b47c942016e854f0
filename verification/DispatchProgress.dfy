/**
 Why the loop of dispatch in sconex/Descriptor.cpp ends, and in which order a chain is taken down.
 */
module DispatchProgress {
  import opened Bytes
  import opened Dispatching

  function Unopened(streams: seq<Stream>): nat {
    if streams == [] then 0 else (if streams[0].isOpen then 0 else 1) + Unopened(streams[1..])
  }

  lemma {:induction false} UnopenedConcat(a: seq<Stream>, b: seq<Stream>)
    ensures Unopened(a + b) == Unopened(a) + Unopened(b)
  {
    if a == [] {
      assert a + b == b;
    } else {
      UnopenedConcat(a[1..], b);
      assert (a + b)[1..] == a[1..] + b;
    }
  }

  lemma UnopenedAt(streams: seq<Stream>, i: nat)
    requires i < |streams|
    ensures Unopened(streams)
            == Unopened(streams[..i]) + (if streams[i].isOpen then 0 else 1) + Unopened(streams[i + 1..])
  {
    assert streams == streams[..i] + streams[i..];
    UnopenedConcat(streams[..i], streams[i..]);
    assert streams[i..][1..] == streams[i + 1..];
  }

  /** Opening one stream leaves one less to be opened, if it was not open before. */
  lemma OpeningCounts(streams: seq<Stream>, i: nat)
    requires i < |streams|
    ensures Unopened(WithOpened(streams, i)) == Unopened(streams) - if streams[i].isOpen then 0 else 1
  {
    var streams' := WithOpened(streams, i);
    UnopenedAt(streams, i);
    UnopenedAt(streams', i);
    assert streams'[..i] == streams[..i] && streams'[i + 1..] == streams[i + 1..];
  }

  /** Fewer streams are left to be appended, or as many of those and fewer to be opened. */
  predicate Less(b: State, a: State) {
    b.budget < a.budget || (b.budget == a.budget && Unopened(b.streams) < Unopened(a.streams))
  }

  predicate AtMost(b: State, a: State) {
    Less(b, a) || (b.budget == a.budget && Unopened(b.streams) == Unopened(a.streams))
  }

  lemma SentProgress(w: World, st: State, i: nat, e: Event)
    requires i < |st.streams|
    ensures AtMost(Sent(w, st, i, e), st)
  {
    hide WithOpened;
    OpeningCounts(st.streams, i);
    if Appended(w, st) == 0 {
      var streams := if w.opens(st.clock) && e != OnClosing then WithOpened(st.streams, i) else st.streams;
      assert streams + NewStreams(st.nextId, 0) == streams;
    }
  }

  /** Whatever Opening is answered with, nothing is lost; and a Close leaves less to be appended or to be opened. */
  lemma OpenTurnProgress(w: World, t: Turn, i: nat, evOpen: bool)
    requires i < |t.st.streams|
    ensures var t' := OpenTurn(w, t, i, evOpen);
            && AtMost(t'.st, t.st)
            && (t'.close && !t.close ==> Less(t'.st, t.st))
            && (t'.st.phase == t.st.phase || t'.st.phase == Closed)
            && (t' == t || t'.st.clock == t.st.clock + 1)
  {
    hide Sent, Unopened, WithOpened;
    if evOpen && !t.st.streams[i].isOpen {
      var st := Sent(w, t.st, i, OnOpening);
      SentProgress(w, t.st, i, OnOpening);
      SentOpening(w, t.st, i);
      OpeningCounts(st.streams, i);
    }
  }

  lemma SentOpening(w: World, st: State, i: nat)
    requires i < |st.streams|
    ensures var st' := Sent(w, st, i, OnOpening);
            && (st'.phase == st.phase || st'.phase == Closed) && st'.clock == st.clock + 1
            && (st'.streams[i].isOpen && !st.streams[i].isOpen ==> Less(st', st))
  {
    OpeningCounts(st.streams, i);
    if Appended(w, st) == 0 && w.opens(st.clock) {
      var streams := WithOpened(st.streams, i);
      assert streams + NewStreams(st.nextId, 0) == streams;
    }
    hide Unopened;
  }

  /** No stream has anything buffered to be read from time t on. */
  ghost predicate Quiet(w: World, t: nat) {
    forall k: nat, id: nat | t <= k :: !w.hasReadable(k, id)
  }

  lemma AtMostTwice(a: State, b: State, c: State)
    requires AtMost(b, a) && AtMost(c, b)
    ensures AtMost(c, a) && (Less(b, a) || Less(c, b) ==> Less(c, a))
  {
  }

  lemma SettledProgress(w: World, t: Turn, i: nat)
    requires i < |t.st.streams|
    ensures AtMost(Settled(w, t, i).st, t.st)
  {
    UnopenedAt(t.st.streams, i);
    UnopenedConcat(t.st.streams[..i], t.st.streams[i + 1..]);
    hide Unopened;
  }

  /** With nothing to be read or written, only Opening is sent, and only Close asks for the close sequence. */
  lemma {:induction false} OpenPhaseProgress(w: World, st: State, i: nat, evOpen: bool)
    requires Quiet(w, st.clock)
    ensures var st' := OpenPhase(w, st, i, evOpen, false, false).0;
            AtMost(st', st) && (st.phase != Closing && st'.phase == Closing ==> Less(st', st))
    decreases st.budget, |st.streams| - i
  {
    hide AtMost, Less, OpenTurn;
    if i >= |st.streams| {
      NoProgress(st);
    } else {
      TurnsShrink(w, st, i, evOpen, false, false);
      var t0 := Turn(st, false, false, false, false, false, false);
      var t := FullTurn(w, st, i, evOpen, false, false);
      OnlyOpening(w, t0, i, evOpen);
      assert t == OpenTurn(w, t0, i, evOpen);
      OpenTurnProgress(w, t0, i, evOpen);
      var t' := Settled(w, t, i);
      SettledProgress(w, t, i);
      AtMostTwice(st, t.st, t'.st);
      if !t.error && !HoldsUp(t, i) {
        var next := if t.remove then i else i + 1;
        assert !t'.evRead && !t'.evWrite;
        OpenPhaseProgress(w, t'.st, next, evOpen);
        AtMostTwice(st, t'.st, OpenPhase(w, t'.st, next, evOpen, false, false).0);
      }
    }
  }

  lemma NoProgress(st: State)
    ensures AtMost(st, st)
  {
  }

  lemma OnlyOpening(w: World, t: Turn, i: nat, evOpen: bool)
    requires i < |t.st.streams| && !t.evRead && !t.evWrite
    ensures var t' := OpenTurn(w, t, i, evOpen);
            !t'.evRead && !t'.evWrite && ReadTurn(w, t', i) == t' && WriteTurn(w, t', i) == t'
  {
  }

  lemma {:induction false} ClosePhaseProgress(w: World, st: State)
    ensures var (st', closure) := ClosePhase(w, st);
            && AtMost(st', st) && st'.clock >= st.clock
            && (closure == Cancelled ==> st'.clock > st.clock && st'.phase == Connected)
    decreases st.budget, |st.streams|
  {
    hide AtMost, Less, Sent;
    if st.streams == [] {
      NoProgress(st);
    } else {
      SentGrows(w, st, |st.streams| - 1, OnClosing);
      SentProgress(w, st, |st.streams| - 1, OnClosing);
      var st1 := Sent(w, st, |st.streams| - 1, OnClosing);
      PhaseIsFree(st1, Connected);
      AtMostTwice(st, st1, st1.(phase := Connected));
      if w.answer(st.clock) == Ok || w.answer(st.clock) == Close {
        var st2 := st1.(streams := st1.streams[..|st1.streams| - 1]);
        LastIsTaken(st1);
        AtMostTwice(st, st1, st2);
        ClosePhaseProgress(w, st2);
        AtMostTwice(st, st2, ClosePhase(w, st2).0);
      }
    }
  }

  lemma PhaseIsFree(st: State, phase: Phase)
    ensures AtMost(st.(phase := phase), st)
  {
  }

  lemma LastIsTaken(st: State)
    requires st.streams != []
    ensures AtMost(st.(streams := st.streams[..|st.streams| - 1]), st)
  {
    UnopenedAt(st.streams, |st.streams| - 1);
    hide Unopened;
  }

  lemma {:induction false} OpenPhaseClock(w: World, st: State, i: nat, evOpen: bool, evRead: bool, evWrite: bool)
    ensures OpenPhase(w, st, i, evOpen, evRead, evWrite).0.clock >= st.clock
    decreases st.budget, |st.streams| - i
  {
    hide FullTurn, Settled, HoldsUp;
    if i < |st.streams| {
      TurnsShrink(w, st, i, evOpen, evRead, evWrite);
      var t := FullTurn(w, st, i, evOpen, evRead, evWrite);
      var t' := Settled(w, t, i);
      if !t.error && !HoldsUp(t, i) {
        OpenPhaseClock(w, t'.st, if t.remove then i else i + 1, evOpen, t'.evRead, t'.evWrite);
      }
    }
  }

  /**
   A pass that asks for another one has sent events and leaves the descriptor connected; and if nothing was there to be
   read or written, and it did not begin with closing, it leaves fewer streams to be appended or to be opened.
   */
  lemma PassProgress(w: World, st: State, evOpen: bool, evRead: bool, evWrite: bool)
    ensures var (st', outcome) := Pass(w, st, evOpen, evRead, evWrite);
            outcome == Again ==>
              && st'.clock > st.clock && st'.phase == Connected
              && (Quiet(w, st.clock) && !evRead && !evWrite && st.phase != Closing ==> Less(st', st))
  {
    hide OpenPhase, ClosePhase, AtMost, Less, Quiet;
    OpenPhaseClock(w, st, 0, evOpen, evRead, evWrite);
    var st1 := OpenPhase(w, st, 0, evOpen, evRead, evWrite).0;
    ClosePhaseProgress(w, st1);
    if Quiet(w, st.clock) && !evRead && !evWrite {
      OpenPhaseProgress(w, st, 0, evOpen);
      AtMostTwice(st, st1, ClosePhase(w, st1).0);
    }
  }

  /** Whether a call of dispatch that begins like this sends Opening events. */
  predicate BegunOpen(st: State) {
    st.phase == Connected || st.phase == Listening
  }

  /** The first n passes of a call, or fewer when a pass does not ask for another one. */
  function FirstPasses(w: World, st: State, evOpen: bool, evRead: bool, evWrite: bool, n: nat): (State, Outcome)
    decreases n
  {
    if n == 0 then (st, Again)
    else
      var (st', outcome) := Pass(w, st, evOpen, evRead, evWrite);
      if outcome == Again then FirstPasses(w, st', evOpen, false, false, n - 1) else (st', outcome)
  }

  /** However many passes there are, they keep the opened streams in front, and send all their events in turn. */
  lemma {:induction false} AnyPassesKeepOrder(w: World, st: State, evOpen: bool, evRead: bool, evWrite: bool, n: nat)
    requires OpenFirst(st.streams) && OpensInTurn(w, evOpen)
    ensures var (st', outcome) := FirstPasses(w, st, evOpen, evRead, evWrite, n);
            OpenFirst(st'.streams) && SentInTurn(st, st', evOpen) && (outcome == Keep ==> st'.streams != [])
    decreases n
  {
    hide Pass, OpenFirst, SentInTurn, OpensInTurn;
    if n == 0 {
      NothingSent(st, evOpen);
    } else {
      PassKeepsOrder(w, st, evOpen, evRead, evWrite);
      PassLeavesStreams(w, st, evOpen, evRead, evWrite);
      var (st', outcome) := Pass(w, st, evOpen, evRead, evWrite);
      if outcome == Again {
        AnyPassesKeepOrder(w, st', evOpen, false, false, n - 1);
        SentInTurnTwice(st, st', FirstPasses(w, st', evOpen, false, false, n - 1).0, evOpen);
      }
    }
  }

  lemma PassLeavesStreams(w: World, st: State, evOpen: bool, evRead: bool, evWrite: bool)
    ensures var (st', outcome) := Pass(w, st, evOpen, evRead, evWrite);
            outcome != Remove ==> st'.streams != []
  {
    hide OpenPhase, ClosePhase;
  }

  // How far an event is passed on

  /** What happened between st and st' in the log, and at which times. */
  predicate Later(st: State, st': State) {
    st.log <= st'.log && st'.clock - st.clock == |st'.log| - |st.log|
  }

  predicate Has(t: Turn, e: Event) {
    if e == OnReadable then t.evRead else t.evWrite
  }

  /** At most one of the events from st to t.st is e; and when it is answered with Wait, e is not to be passed on. */
  ghost predicate OncePassedOn(w: World, st: State, t: Turn, e: Event) {
    && Later(st, t.st)
    && forall k | |st.log| <= k < |t.st.log| && t.st.log[k].event == e ::
         && (forall l | k < l < |t.st.log| :: t.st.log[l].event != e)
         && (w.answer(st.clock + (k - |st.log|)) == Wait ==> !Has(t, e))
  }

  /** No event from st to st' is e. */
  predicate NoneSent(st: State, st': State, e: Event) {
    Later(st, st') && forall k | |st.log| <= k < |st'.log| :: st'.log[k].event != e
  }

  /** Of the events from st to st', none is e any more once an e has been answered with Wait. */
  ghost predicate WaitIsLast(w: World, st: State, st': State, e: Event) {
    && Later(st, st')
    && forall k, l | |st.log| <= k < l < |st'.log| && st'.log[k].event == e && st'.log[l].event == e ::
         w.answer(st.clock + (k - |st.log|)) != Wait
  }

  /** From a to b at most one event is sent, which is e. */
  predicate AtMostOne(a: State, b: State, e: Event) {
    (b.log == a.log && b.clock == a.clock) ||
    (b.clock == a.clock + 1 && |b.log| == |a.log| + 1 && b.log[..|a.log|] == a.log && b.log[|a.log|].event == e)
  }

  lemma SentIsOne(w: World, st: State, i: nat, e: Event)
    requires i < |st.streams|
    ensures AtMostOne(st, Sent(w, st, i, e), e) && Sent(w, st, i, e).clock == st.clock + 1
  {
  }

  lemma OpenTurnSends(w: World, t: Turn, i: nat, evOpen: bool)
    requires i < |t.st.streams|
    ensures var t' := OpenTurn(w, t, i, evOpen);
            && t'.evRead == t.evRead && t'.evWrite == t.evWrite
            && if evOpen && !t.st.streams[i].isOpen then
                 var st := Sent(w, t.st, i, OnOpening);
                 t'.st == st || t'.st == st.(streams := WithOpened(st.streams, i))
               else t' == t
  {
    hide Sent, WithOpened;
    if evOpen && !t.st.streams[i].isOpen {
      var st := Sent(w, t.st, i, OnOpening);
      var c := w.answer(t.st.clock);
      assert c == Ok || c == Close ==> OpenTurn(w, t, i, evOpen).st == st.(streams := WithOpened(st.streams, i));
      assert c != Ok && c != Close ==> OpenTurn(w, t, i, evOpen).st == st;
    }
  }

  lemma OpenTurnSendsOne(w: World, t: Turn, i: nat, evOpen: bool)
    requires i < |t.st.streams|
    ensures var t' := OpenTurn(w, t, i, evOpen);
            AtMostOne(t.st, t'.st, OnOpening) && t'.evRead == t.evRead && t'.evWrite == t.evWrite
  {
    hide OpenTurn, Sent, WithOpened, AtMostOne;
    OpenTurnSends(w, t, i, evOpen);
    NoneIsSent(t.st, OnOpening);
    if evOpen && !t.st.streams[i].isOpen {
      SentIsOne(w, t.st, i, OnOpening);
      var st := Sent(w, t.st, i, OnOpening);
      StreamsAreFree(t.st, st, WithOpened(st.streams, i), OnOpening);
    }
  }

  lemma NoneIsSent(st: State, e: Event)
    ensures AtMostOne(st, st, e)
  {
  }

  lemma StreamsAreFree(a: State, b: State, streams: seq<Stream>, e: Event)
    requires AtMostOne(a, b, e)
    ensures AtMostOne(a, b.(streams := streams), e)
  {
  }

  lemma ReadTurnSendsOne(w: World, t: Turn, i: nat)
    requires i < |t.st.streams|
    ensures var t' := ReadTurn(w, t, i);
            && AtMostOne(t.st, t'.st, OnReadable) && t'.evWrite == t.evWrite && (t'.evRead ==> t.evRead)
            && (!t.evRead ==> t'.st.clock == t.st.clock)
            && (t'.st.clock != t.st.clock && w.answer(t.st.clock) == Wait ==> !t'.evRead)
  {
  }

  lemma WriteTurnSendsOne(w: World, t: Turn, i: nat)
    requires i < |t.st.streams|
    ensures var t' := WriteTurn(w, t, i);
            && AtMostOne(t.st, t'.st, OnWriteable) && t'.evRead == t.evRead && (t'.evWrite ==> t.evWrite)
            && (!t.evWrite ==> t'.st.clock == t.st.clock)
            && (t'.st.clock != t.st.clock && w.answer(t.st.clock) == Wait ==> !t'.evWrite)
  {
  }

  lemma TurnPassesOnce(w: World, st: State, i: nat, evOpen: bool, evRead: bool, evWrite: bool, e: Event)
    requires i < |st.streams| && (e == OnReadable || e == OnWriteable)
    ensures var t := FullTurn(w, st, i, evOpen, evRead, evWrite);
            && OncePassedOn(w, st, t, e)
            && (!(if e == OnReadable then evRead else evWrite) ==> NoneSent(st, t.st, e) && !Has(t, e))
  {
    hide OpenTurn, ReadTurn, WriteTurn;
    var t0 := Turn(st, evRead, evWrite, false, false, false, false);
    OpenTurnSendsOne(w, t0, i, evOpen);
    var t1 := OpenTurn(w, t0, i, evOpen);
    ReadTurnSendsOne(w, t1, i);
    var t2 := ReadTurn(w, t1, i);
    WriteTurnSendsOne(w, t2, i);
    var t3 := WriteTurn(w, t2, i);
    ThreeEvents(st, t1.st, t2.st, t3.st);
  }

  /** What is in the log behind three steps of one event each. */
  lemma ThreeEvents(a: State, b: State, c: State, d: State)
    requires AtMostOne(a, b, OnOpening) && AtMostOne(b, c, OnReadable) && AtMostOne(c, d, OnWriteable)
    ensures Later(a, d) && |a.log| <= |b.log| <= |c.log| <= |d.log|
    ensures b.clock - a.clock == |b.log| - |a.log| && c.clock - b.clock == |c.log| - |b.log|
    ensures forall k | |a.log| <= k < |d.log| ::
              d.log[k].event == if k < |b.log| then OnOpening else if k < |c.log| then OnReadable else OnWriteable
  {
  }

  /**
   A Readable event that is answered with Wait is not sent to the streams behind, unless one of them has something in
   store; and a Writeable event that is answered with Wait is not sent to them at all.
   */
  lemma {:induction false} WaitStopsEvents(w: World, st: State, i: nat, evOpen: bool, evRead: bool, evWrite: bool,
                                           e: Event)
    requires e == OnWriteable || (e == OnReadable && Quiet(w, st.clock))
    ensures var st' := OpenPhase(w, st, i, evOpen, evRead, evWrite).0;
            && WaitIsLast(w, st, st', e)
            && (!(if e == OnReadable then evRead else evWrite) ==> NoneSent(st, st', e))
    decreases st.budget, |st.streams| - i
  {
    hide FullTurn, HoldsUp, OncePassedOn, NoneSent, WaitIsLast, Later;
    if i >= |st.streams| {
      NoEvents(w, st, e);
    } else {
      TurnsShrink(w, st, i, evOpen, evRead, evWrite);
      TurnPassesOnce(w, st, i, evOpen, evRead, evWrite, e);
      var t := FullTurn(w, st, i, evOpen, evRead, evWrite);
      var t' := Settled(w, t, i);
      TurnAlone(w, st, t, t'.st, e);
      if !t.error && !HoldsUp(t, i) {
        var next := if t.remove then i else i + 1;
        WaitStopsEvents(w, t'.st, next, evOpen, t'.evRead, t'.evWrite, e);
        var st' := OpenPhase(w, t'.st, next, evOpen, t'.evRead, t'.evWrite).0;
        TurnThenRest(w, st, t, t'.st, st', e);
      }
    }
  }

  lemma NoEvents(w: World, st: State, e: Event)
    ensures WaitIsLast(w, st, st, e) && NoneSent(st, st, e)
  {
  }

  lemma TurnAlone(w: World, st: State, t: Turn, st': State, e: Event)
    requires OncePassedOn(w, st, t, e) && st'.log == t.st.log && st'.clock == t.st.clock
    ensures WaitIsLast(w, st, st', e) && (NoneSent(st, t.st, e) ==> NoneSent(st, st', e))
  {
  }

  lemma TurnThenRest(w: World, st: State, t: Turn, mid: State, st': State, e: Event)
    requires OncePassedOn(w, st, t, e) && mid.log == t.st.log && mid.clock == t.st.clock
    requires WaitIsLast(w, mid, st', e) && (!Has(t, e) ==> NoneSent(mid, st', e))
    ensures WaitIsLast(w, st, st', e)
    ensures NoneSent(st, t.st, e) && NoneSent(mid, st', e) ==> NoneSent(st, st', e)
  {
    forall k | |st.log| <= k < |mid.log|
      ensures st'.log[k] == t.st.log[k]
    {
      assert mid.log == st'.log[..|mid.log|];
    }
    forall k, l | |st.log| <= k < l < |st'.log| && st'.log[k].event == e && st'.log[l].event == e
      ensures w.answer(st.clock + (k - |st.log|)) != Wait
    {
      if k >= |mid.log| {
        assert mid.clock + (k - |mid.log|) == st.clock + (k - |st.log|);
      } else {
        assert t.st.log[k].event == e;
        assert l >= |mid.log|;
      }
    }
  }

  // Order of taking down

  /** The handlers of the Closing events from time a to b append streams only if they suspend or cancel the closing. */
  ghost predicate Polite(w: World, a: nat, b: nat) {
    forall k: nat | a <= k < b && w.appends(k) > 0 :: w.answer(k) == Wait || w.answer(k) == End || w.answer(k) == Error
  }

  /** The first m Closing events of a close sequence: each goes to the last stream of what is left of the chain. */
  function BackToFront(chain: seq<Stream>, m: nat): (log: seq<Delivery>)
    requires m <= |chain|
    ensures |log| == m
  {
    if m == 0 then [] else [Delivery(OnClosing, |chain| - 1, chain)] + BackToFront(chain[..|chain| - 1], m - 1)
  }

  /** after has the first k streams of before, and behind them only unopened ones that are new. */
  predicate LeftBehind(before: seq<Stream>, after: seq<Stream>, k: nat, nextId: nat) {
    && k <= |before| && k <= |after| && after[..k] == before[..k]
    && forall j | k <= j < |after| :: after[j].id >= nextId && !after[j].isOpen
  }

  /**
   The close sequence goes through the chain from the back. The streams that are left are a prefix of the chain, behind
   which only a handler that suspends or cancels the closing can have put new ones.
   */
  lemma {:induction false} ClosePhaseIsLastInFirstOut(w: World, st: State)
    requires Polite(w, st.clock, ClosePhase(w, st).0.clock)
    ensures var (st', closure) := ClosePhase(w, st);
            var (m, n) := (st'.clock - st.clock, |st.streams|);
            && 0 <= m <= n && st'.log == st.log + BackToFront(st.streams, m)
            && (if closure == Emptied then m == n && st'.streams == []
                else m > 0 && LeftBehind(st.streams, st'.streams, n - m + 1, st.nextId))
            && (closure == Suspended ==> st'.phase == st.phase || st'.phase == Closed)
            && (closure == Cancelled ==> st'.phase == Connected)
    decreases st.budget, |st.streams|
  {
    hide LeftBehind, BackToFront, Sent, Polite, ClosePhase;
    NoneYet(st);
    ClosePhaseStep(w, st);
    if st.streams != [] {
      var n := |st.streams|;
      var st1 := Sent(w, st, n - 1, OnClosing);
      SentGrows(w, st, n - 1, OnClosing);
      FirstFromTheBack(w, st);
      if w.answer(st.clock) == Ok || w.answer(st.clock) == Close {
        var st2 := st1.(streams := st1.streams[..|st1.streams| - 1]);
        ClosePhaseProgress(w, st2);
        var st3 := ClosePhase(w, st2).0;
        NothingAppended(w, st, st3.clock);
        PoliteLater(w, st.clock, st2.clock, st3.clock);
        ClosePhaseIsLastInFirstOut(w, st2);
        var m := st3.clock - st2.clock;
        MoreFromTheBack(st.log, st.streams, m);
        if ClosePhase(w, st2).1 != Emptied {
          LeftOfLess(st.streams, st3.streams, n - m, st.nextId);
        }
      }
    }
  }

  lemma ClosePhaseStep(w: World, st: State)
    ensures ClosePhase(w, st) ==
            if st.streams == [] then (st, Emptied)
            else
              var st1 := Sent(w, st, |st.streams| - 1, OnClosing);
              match w.answer(st.clock)
              case Wait => (st1, Suspended)
              case End => (st1.(phase := Connected), Cancelled)
              case Error => (st1, Failed)
              case _ => ClosePhase(w, st1.(streams := st1.streams[..|st1.streams| - 1]))
  {
  }

  lemma NoneYet(st: State)
    ensures st.log == st.log + BackToFront(st.streams, 0)
  {
  }

  lemma PoliteLater(w: World, a: nat, b: nat, c: nat)
    requires Polite(w, a, c) && a <= b
    ensures Polite(w, b, c)
  {
  }

  lemma FirstFromTheBack(w: World, st: State)
    requires st.streams != []
    ensures var st' := Sent(w, st, |st.streams| - 1, OnClosing);
            && st'.log == st.log + BackToFront(st.streams, 1)
            && LeftBehind(st.streams, st'.streams, |st.streams|, st.nextId)
            && (st'.phase == st.phase || st'.phase == Closed)
            && LeftBehind(st.streams, st'.(phase := Connected).streams, |st.streams|, st.nextId)
  {
  }

  lemma NothingAppended(w: World, st: State, later: nat)
    requires st.streams != [] && Polite(w, st.clock, later) && st.clock < later
    requires w.answer(st.clock) == Ok || w.answer(st.clock) == Close
    ensures var st' := Sent(w, st, |st.streams| - 1, OnClosing);
            && st'.streams[..|st'.streams| - 1] == st.streams[..|st.streams| - 1]
            && st'.nextId == st.nextId
            && st'.log == st.log + [Delivery(OnClosing, |st.streams| - 1, st.streams)]
  {
  }

  lemma MoreFromTheBack(log: seq<Delivery>, chain: seq<Stream>, m: nat)
    requires m < |chain|
    ensures log + [Delivery(OnClosing, |chain| - 1, chain)] + BackToFront(chain[..|chain| - 1], m)
            == log + BackToFront(chain, m + 1)
  {
  }

  lemma LeftOfLess(chain: seq<Stream>, after: seq<Stream>, k: nat, nextId: nat)
    requires chain != [] && LeftBehind(chain[..|chain| - 1], after, k, nextId)
    ensures LeftBehind(chain, after, k, nextId)
  {
  }
}
