/**
 When the loop of dispatch in sconex/Descriptor.cpp ends.
 */
module DispatchEnds {
  import opened Bytes
  import opened Dispatching
  import opened DispatchProgress

  /** A call that finds nothing to be read from time t on, in no stream, ends. */
  lemma QuietEnds(w: World, st: State, evOpen: bool, evRead: bool, evWrite: bool, first: bool, t: nat) returns (n: nat)
    requires Quiet(w, t) && (!first ==> !evRead && !evWrite && st.phase == Connected)
    ensures FirstPasses(w, st, evOpen, evRead, evWrite, n).1 != Again
    decreases Max(t - st.clock, 0), if first then 1 else 0, st.budget, Unopened(st.streams)
  {
    hide Pass, Quiet;
    PassProgress(w, st, evOpen, evRead, evWrite);
    QuietLater(w, t, st.clock);
    var (st', outcome) := Pass(w, st, evOpen, evRead, evWrite);
    n := 1;
    if outcome == Again {
      var m := QuietEnds(w, st', evOpen, false, false, false, t);
      n := m + 1;
    }
  }

  lemma QuietLater(w: World, t: nat, later: nat)
    requires Quiet(w, t)
    ensures t <= later ==> Quiet(w, later)
  {
  }

  // Streams that always, or never, have something to be read

  /** Exactly the streams with an id in h have something buffered to be read, at all times. */
  ghost predicate Stores(w: World, h: set<nat>) {
    forall k: nat, id: nat :: w.hasReadable(k, id) <==> id in h
  }

  /** The ids of the chain, and of all streams that can still be appended behind it. */
  function Extended(st: State): seq<nat> {
    Ids(st.streams) + seq(st.budget, (k: nat) => st.nextId + k)
  }

  /** No id but the last one is in h. */
  predicate OnlyLast(ids: seq<nat>, h: set<nat>) {
    forall i | 0 <= i < |ids| - 1 :: ids[i] !in h
  }

  lemma SentExtends(w: World, st: State, i: nat, e: Event)
    requires i < |st.streams|
    ensures Extended(Sent(w, st, i, e)) == Extended(st)
  {
  }

  lemma OpeningExtends(st: State, i: nat)
    requires i < |st.streams|
    ensures Extended(st.(streams := WithOpened(st.streams, i))) == Extended(st)
  {
    assert Ids(WithOpened(st.streams, i)) == Ids(st.streams);
  }

  lemma TurnExtends(w: World, st: State, i: nat, evOpen: bool, evRead: bool, evWrite: bool)
    requires i < |st.streams|
    ensures Extended(FullTurn(w, st, i, evOpen, evRead, evWrite).st) == Extended(st)
  {
    hide Sent, WithOpened, Extended;
    var t0 := Turn(st, evRead, evWrite, false, false, false, false);
    SentExtends(w, st, i, OnOpening);
    OpeningExtends(Sent(w, st, i, OnOpening), i);
    var t1 := OpenTurn(w, t0, i, evOpen);
    SentExtends(w, t1.st, i, OnReadable);
    var t2 := ReadTurn(w, t1, i);
    SentExtends(w, t2.st, i, OnWriteable);
  }

  lemma RemovalKeepsLast(st: State, i: nat, h: set<nat>)
    requires i < |st.streams| && OnlyLast(Extended(st), h)
    ensures OnlyLast(Extended(st.(streams := st.streams[..i] + st.streams[i + 1..])), h)
  {
    var st' := st.(streams := st.streams[..i] + st.streams[i + 1..]);
    var a, b := Extended(st), Extended(st');
    assert b == a[..i] + a[i + 1..];
  }

  lemma SettledKeepsLast(w: World, t: Turn, i: nat, h: set<nat>)
    requires i < |t.st.streams| && OnlyLast(Extended(t.st), h)
    ensures OnlyLast(Extended(Settled(w, t, i).st), h)
  {
    hide Extended, OnlyLast;
    PhaseExtends(t.st, Closing);
    RemovalKeepsLast(t.st, i, h);
    RemovalKeepsLast(t.st.(phase := Closing), i, h);
  }

  lemma PhaseExtends(st: State, phase: Phase)
    ensures Extended(st.(phase := phase)) == Extended(st)
  {
  }

  lemma {:induction false} OpenPhaseKeepsLast(w: World, st: State, i: nat, evOpen: bool, evRead: bool, evWrite: bool,
                                              h: set<nat>)
    requires OnlyLast(Extended(st), h)
    ensures OnlyLast(Extended(OpenPhase(w, st, i, evOpen, evRead, evWrite).0), h)
    decreases st.budget, |st.streams| - i
  {
    hide FullTurn, Settled, HoldsUp, Extended, OnlyLast;
    if i < |st.streams| {
      TurnsShrink(w, st, i, evOpen, evRead, evWrite);
      TurnExtends(w, st, i, evOpen, evRead, evWrite);
      var t := FullTurn(w, st, i, evOpen, evRead, evWrite);
      SettledKeepsLast(w, t, i, h);
      var t' := Settled(w, t, i);
      if !t.error && !HoldsUp(t, i) {
        OpenPhaseKeepsLast(w, t'.st, if t.remove then i else i + 1, evOpen, t'.evRead, t'.evWrite, h);
      }
    }
  }

  lemma {:induction false} ClosePhaseKeepsLast(w: World, st: State, h: set<nat>)
    requires OnlyLast(Extended(st), h)
    ensures OnlyLast(Extended(ClosePhase(w, st).0), h)
    decreases st.budget, |st.streams|
  {
    hide Sent, Extended, OnlyLast, ClosePhase;
    ClosePhaseStep(w, st);
    if st.streams != [] {
      var i := |st.streams| - 1;
      SentGrows(w, st, i, OnClosing);
      SentExtends(w, st, i, OnClosing);
      var st1 := Sent(w, st, i, OnClosing);
      PhaseExtends(st1, Connected);
      var last := |st1.streams| - 1;
      RemovalKeepsLast(st1, last, h);
      assert st1.streams[..last] + st1.streams[last + 1..] == st1.streams[..last];
      if w.answer(st.clock) == Ok || w.answer(st.clock) == Close {
        ClosePhaseKeepsLast(w, st1.(streams := st1.streams[..last]), h);
      }
    }
  }

  /**
   When only the very last stream can have something in store, a pass without anything to be read or written sends
   nothing but Opening, and every close request uses up a stream to be opened or appended.
   */
  lemma {:induction false} StoredOpenPhaseProgress(w: World, st: State, i: nat, evOpen: bool, h: set<nat>)
    requires Stores(w, h) && OnlyLast(Extended(st), h)
    ensures var st' := OpenPhase(w, st, i, evOpen, false, false).0;
            AtMost(st', st) && (st.phase != Closing && st'.phase == Closing ==> Less(st', st))
    decreases st.budget, |st.streams| - i
  {
    hide AtMost, Less, OpenTurn, Stores, OnlyLast, Extended;
    if i >= |st.streams| {
      NoProgress(st);
    } else {
      TurnsShrink(w, st, i, evOpen, false, false);
      TurnExtends(w, st, i, evOpen, false, false);
      var t0 := Turn(st, false, false, false, false, false, false);
      var t := FullTurn(w, st, i, evOpen, false, false);
      OnlyOpening(w, t0, i, evOpen);
      OpenTurnProgress(w, t0, i, evOpen);
      var t' := Settled(w, t, i);
      SettledProgress(w, t, i);
      SettledKeepsLast(w, t, i, h);
      AtMostTwice(st, t.st, t'.st);
      if !t.error && !HoldsUp(t, i) {
        var next := if t.remove then i else i + 1;
        if t'.evRead {
          StoringIsLast(w, t.st, i, h);
        } else {
          StoredOpenPhaseProgress(w, t'.st, next, evOpen, h);
        }
        AtMostTwice(st, t'.st, OpenPhase(w, t'.st, next, evOpen, t'.evRead, t'.evWrite).0);
      }
    }
  }

  /** A stream that has something in store has no other behind it. */
  lemma StoringIsLast(w: World, st: State, i: nat, h: set<nat>)
    requires Stores(w, h) && OnlyLast(Extended(st), h) && i < |st.streams|
    ensures w.hasReadable(st.clock, st.streams[i].id) ==> i == |st.streams| - 1
  {
    assert Extended(st)[i] == st.streams[i].id;
  }

  /** The passes end when only the very last stream can have something in store; the second one, if all are open. */
  lemma {:induction false} StoredEnds(w: World, st: State, evOpen: bool, evRead: bool, evWrite: bool, first: bool,
                                      h: set<nat>)
      returns (n: nat)
    requires Stores(w, h) && OnlyLast(Extended(st), h)
    requires !first ==> !evRead && !evWrite && st.phase == Connected
    ensures FirstPasses(w, st, evOpen, evRead, evWrite, n).1 != Again
    ensures st.budget == 0 && Unopened(st.streams) == 0 ==> n <= if first then 2 else 1
    decreases if first then 1 else 0, st.budget, Unopened(st.streams)
  {
    hide OpenPhase, ClosePhase, OnlyLast, Extended, Stores, Unopened;
    PassProgress(w, st, evOpen, evRead, evWrite);
    OpenPhaseKeepsLast(w, st, 0, evOpen, evRead, evWrite, h);
    var st1 := OpenPhase(w, st, 0, evOpen, evRead, evWrite).0;
    ClosePhaseKeepsLast(w, st1, h);
    ClosePhaseProgress(w, st1);
    var (st', outcome) := Pass(w, st, evOpen, evRead, evWrite);
    n := 1;
    if outcome == Again {
      if first {
        PassAtMost(w, st, evOpen, evRead, evWrite);
      } else {
        StoredOpenPhaseProgress(w, st, 0, evOpen, h);
        AtMostTwice(st, st1, st');
      }
      var m := StoredEnds(w, st', evOpen, false, false, false, h);
      n := m + 1;
    }
  }

  lemma {:induction false} OpenPhaseAtMost(w: World, st: State, i: nat, evOpen: bool, evRead: bool, evWrite: bool)
    ensures AtMost(OpenPhase(w, st, i, evOpen, evRead, evWrite).0, st)
    decreases st.budget, |st.streams| - i
  {
    hide FullTurn, Settled, HoldsUp, AtMost, Less;
    if i >= |st.streams| {
      NoProgress(st);
    } else {
      TurnsShrink(w, st, i, evOpen, evRead, evWrite);
      TurnAtMost(w, st, i, evOpen, evRead, evWrite);
      var t := FullTurn(w, st, i, evOpen, evRead, evWrite);
      SettledProgress(w, t, i);
      var t' := Settled(w, t, i);
      AtMostTwice(st, t.st, t'.st);
      if !t.error && !HoldsUp(t, i) {
        var next := if t.remove then i else i + 1;
        OpenPhaseAtMost(w, t'.st, next, evOpen, t'.evRead, t'.evWrite);
        AtMostTwice(st, t'.st, OpenPhase(w, t'.st, next, evOpen, t'.evRead, t'.evWrite).0);
      }
    }
  }

  lemma TurnAtMost(w: World, st: State, i: nat, evOpen: bool, evRead: bool, evWrite: bool)
    requires i < |st.streams|
    ensures AtMost(FullTurn(w, st, i, evOpen, evRead, evWrite).st, st)
  {
    hide Sent, OpenTurn, AtMost, Less;
    var t0 := Turn(st, evRead, evWrite, false, false, false, false);
    OpenTurnProgress(w, t0, i, evOpen);
    var t1 := OpenTurn(w, t0, i, evOpen);
    SentProgress(w, t1.st, i, OnReadable);
    NoProgress(t1.st);
    var t2 := ReadTurn(w, t1, i);
    AtMostTwice(st, t1.st, t2.st);
    SentProgress(w, t2.st, i, OnWriteable);
    NoProgress(t2.st);
    AtMostTwice(st, t2.st, WriteTurn(w, t2, i).st);
  }

  lemma PassAtMost(w: World, st: State, evOpen: bool, evRead: bool, evWrite: bool)
    ensures AtMost(Pass(w, st, evOpen, evRead, evWrite).0, st)
  {
    hide OpenPhase, ClosePhase, AtMost, Less;
    OpenPhaseAtMost(w, st, 0, evOpen, evRead, evWrite);
    var st1 := OpenPhase(w, st, 0, evOpen, evRead, evWrite).0;
    ClosePhaseProgress(w, st1);
    AtMostTwice(st, st1, ClosePhase(w, st1).0);
  }

  // Handlers for which the passes never end

  /** From time c on only the stream with this id asks for events, namely to read, and no handler changes the chain. */
  ghost predicate Steady(w: World, c: nat, last: nat) {
    && (forall k: nat | k >= c :: w.appends(k) == 0 && !w.opens(k) && !w.shuts(k))
    && (forall k: nat, id: nat | k >= c :: !w.writeable(k, id) && (w.readable(k, id) <==> id == last))
  }

  ghost predicate OkThenClose(w: World, c: nat, n: nat) {
    (forall k: nat | c <= k < c + n :: w.answer(k) == Ok) && w.answer(c + n) == Close
  }

  function OpenedFrom(streams: seq<Stream>, i: nat): (s: seq<Stream>)
    ensures |s| == |streams|
  {
    seq(|streams|, j requires 0 <= j < |streams| => if j >= i then streams[j].(isOpen := true) else streams[j])
  }

  predicate AllOpen(streams: seq<Stream>) {
    forall i | 0 <= i < |streams| :: streams[i].isOpen
  }

  /** The chain after a walk, as far as the rest of the run is concerned. */
  predicate After(st: State, phase: Phase, streams: seq<Stream>, clock: nat) {
    st.phase == phase && st.streams == streams && st.clock == clock && st.budget == 0
  }

  lemma SteadySent(w: World, st: State, i: nat, e: Event, last: nat)
    requires Steady(w, st.clock, last) && i < |st.streams|
    ensures var st' := Sent(w, st, i, e);
            && st'.phase == st.phase && st'.streams == st.streams && st'.clock == st.clock + 1
            && st'.budget == st.budget && Steady(w, st'.clock, last)
  {
    assert st.streams + NewStreams(st.nextId, 0) == st.streams;
  }

  /** A stream in front of the last one is opened, if it is not open yet, and nothing else happens to it. */
  lemma SteadyTurn(w: World, st: State, i: nat, last: nat, evRead: bool)
    requires Steady(w, st.clock, last) && i < |st.streams| && st.streams[i].id != last && st.budget == 0
    requires !st.streams[i].isOpen ==> w.answer(st.clock) == Ok
    ensures var t := FullTurn(w, st, i, true, evRead, false);
            && t == Turn(t.st, evRead, false, false, false, false, false)
            && After(t.st, st.phase, WithOpened(st.streams, i), if st.streams[i].isOpen then st.clock else st.clock + 1)
  {
    hide Sent, WithOpened, Steady;
    SteadySent(w, st, i, OnOpening, last);
    SameOpened(st.streams, i);
    var t1 := OpenTurn(w, Turn(st, evRead, false, false, false, false, false), i, true);
    SteadyReads(w, st.clock, last, t1.st.clock, st.streams[i].id);
  }

  lemma SameOpened(streams: seq<Stream>, i: nat)
    requires i < |streams|
    ensures |WithOpened(streams, i)| == |streams| && WithOpened(streams, i)[i].id == streams[i].id
    ensures streams[i].isOpen ==> WithOpened(streams, i) == streams
  {
  }

  lemma SteadyReads(w: World, c: nat, last: nat, k: nat, id: nat)
    requires Steady(w, c, last) && c <= k
    ensures (w.readable(k, id) <==> id == last) && !w.writeable(k, id) && Steady(w, k, last)
  {
  }

  /** The last stream is opened, if it is not open yet, and then asks for the close sequence. */
  lemma SteadyLastTurn(w: World, st: State, i: nat, last: nat)
    requires Steady(w, st.clock, last) && i < |st.streams| && st.streams[i].id == last && st.budget == 0
    requires OkThenClose(w, st.clock, if st.streams[i].isOpen then 0 else 1)
    ensures var t := FullTurn(w, st, i, true, true, false);
            && t == Turn(t.st, true, false, false, false, true, false)
            && After(t.st, st.phase, WithOpened(st.streams, i),
                     if st.streams[i].isOpen then st.clock + 1 else st.clock + 2)
  {
    hide Sent, WithOpened, Steady;
    SteadySent(w, st, i, OnOpening, last);
    SameOpened(st.streams, i);
    var t1 := OpenTurn(w, Turn(st, true, false, false, false, false, false), i, true);
    SteadyReads(w, st.clock, last, t1.st.clock, last);
    SteadySent(w, t1.st, i, OnReadable, last);
  }

  lemma OpenedFromStep(streams: seq<Stream>, i: nat)
    requires i < |streams|
    ensures OpenedFrom(WithOpened(streams, i), i + 1) == OpenedFrom(streams, i)
    ensures WithOpened(streams, i)[i + 1..] == streams[i + 1..] && Ids(WithOpened(streams, i)) == Ids(streams)
    ensures Unopened(streams[i..]) == (if streams[i].isOpen then 0 else 1) + Unopened(streams[i + 1..])
    ensures OpenedFrom(streams, |streams|) == streams
  {
    assert streams[i..][0] == streams[i] && streams[i..][1..] == streams[i + 1..];
  }

  /** Once there is something to be read, all streams are opened, and the last one asks for the close sequence. */
  lemma {:induction false} WalkToClose(w: World, st: State, i: nat, last: nat)
    requires Steady(w, st.clock, last) && st.budget == 0 && i < |st.streams| && st.phase != Closed
    requires Distinct(Ids(st.streams)) && st.streams[|st.streams| - 1].id == last
    requires OkThenClose(w, st.clock, Unopened(st.streams[i..]))
    ensures var (st', error) := OpenPhase(w, st, i, true, true, false);
            !error && After(st', Closing, OpenedFrom(st.streams, i), st.clock + Unopened(st.streams[i..]) + 1)
    decreases |st.streams| - i
  {
    hide FullTurn, Steady, WithOpened, Unopened, OpenedFrom;
    var n := |st.streams|;
    assert Unopened([]) == 0 by {
      NoneUnopened();
    }
    TurnsShrink(w, st, i, true, true, false);
    OpenedFromStep(st.streams, i);
    var t := FullTurn(w, st, i, true, true, false);
    if i == n - 1 {
      SteadyLastTurn(w, st, i, last);
      OpenedFromStep(WithOpened(st.streams, i), i);
      assert OpenPhase(w, st, i, true, true, false) == (Settled(w, t, i).st, false);
    } else {
      assert Ids(st.streams)[i] != Ids(st.streams)[n - 1];
      SteadyTurn(w, st, i, last, true);
      assert Ids(t.st.streams)[n - 1] == last;
      SteadyReads(w, st.clock, last, t.st.clock, last);
      WalkToClose(w, t.st, i + 1, last);
    }
  }

  lemma NoneUnopened()
    ensures Unopened([]) == 0
  {
  }

  lemma {:induction false} AllOpenMeans(streams: seq<Stream>, i: nat)
    requires AllOpen(streams) && i <= |streams|
    ensures Unopened(streams[i..]) == 0 && OpenedFrom(streams, i) == streams
    decreases |streams| - i
  {
    if i < |streams| {
      AllOpenMeans(streams, i + 1);
      OpenedFromStep(streams, i);
    }
  }

  /** With all streams open, and one in front of the last that has something in store, every walk ends with a close. */
  lemma {:induction false} RestlessWalk(w: World, st: State, i: nat, j: nat, last: nat, h: set<nat>)
    requires Steady(w, st.clock, last) && st.budget == 0 && st.phase != Closed && AllOpen(st.streams) && Stores(w, h)
    requires i <= j < |st.streams| - 1 && st.streams[j].id in h
    requires Distinct(Ids(st.streams)) && st.streams[|st.streams| - 1].id == last && w.answer(st.clock) == Close
    ensures var (st', error) := OpenPhase(w, st, i, true, false, false);
            !error && After(st', Closing, st.streams, st.clock + 1)
    decreases j - i
  {
    hide FullTurn, Steady, WithOpened, OpenedFrom, Unopened;
    var n := |st.streams|;
    assert Ids(st.streams)[i] != Ids(st.streams)[n - 1];
    SteadyTurn(w, st, i, last, false);
    SameOpened(st.streams, i);
    TurnsShrink(w, st, i, true, false, false);
    var t := FullTurn(w, st, i, true, false, false);
    if st.streams[i].id in h {
      AllOpenMeans(st.streams, i + 1);
      WalkToClose(w, t.st, i + 1, last);
    } else {
      RestlessWalk(w, t.st, i + 1, j, last, h);
    }
  }

  /** A close sequence that the last stream cancels. */
  lemma Cancelled(w: World, st: State, last: nat)
    requires Steady(w, st.clock, last) && st.streams != [] && st.budget == 0 && w.answer(st.clock) == End
    ensures var (st', closure) := ClosePhase(w, st);
            closure == Closure.Cancelled && After(st', Connected, st.streams, st.clock + 1)
  {
    hide Sent, Steady;
    SteadySent(w, st, |st.streams| - 1, OnClosing, last);
  }

  /** From time c on the handlers answer Close and End in turn. */
  ghost predicate Alternating(w: World, c: nat) {
    forall k: nat | k >= c :: w.answer(k) == if (k - c) % 2 == 0 then Close else End
  }

  /** Every pass over such a chain asks for another one, and leaves it as it is. */
  lemma PassesForEver(w: World, st: State, j: nat, last: nat, h: set<nat>)
    requires Steady(w, st.clock, last) && Stores(w, h) && Alternating(w, st.clock)
    requires st.budget == 0 && st.phase == Connected && AllOpen(st.streams) && Distinct(Ids(st.streams))
    requires j < |st.streams| - 1 && st.streams[j].id in h && st.streams[|st.streams| - 1].id == last
    ensures var (st', outcome) := Pass(w, st, true, false, false);
            outcome == Again && After(st', Connected, st.streams, st.clock + 2)
    ensures Steady(w, st.clock + 2, last) && Alternating(w, st.clock + 2)
  {
    hide OpenPhase, ClosePhase, Steady;
    RestlessWalk(w, st, 0, j, last, h);
    var st1 := OpenPhase(w, st, 0, true, false, false).0;
    SteadyReads(w, st.clock, last, st1.clock, last);
    SteadyReads(w, st.clock, last, st.clock + 2, last);
    Cancelled(w, st1, last);
  }

  lemma {:induction false} NeverEnds(w: World, st: State, j: nat, last: nat, h: set<nat>, n: nat)
    requires Steady(w, st.clock, last) && Stores(w, h) && Alternating(w, st.clock)
    requires st.budget == 0 && st.phase == Connected && AllOpen(st.streams) && Distinct(Ids(st.streams))
    requires j < |st.streams| - 1 && st.streams[j].id in h && st.streams[|st.streams| - 1].id == last
    ensures FirstPasses(w, st, true, false, false, n).1 == Again
    decreases n
  {
    hide Pass, Steady, Stores, Alternating;
    if n > 0 {
      PassesForEver(w, st, j, last, h);
      NeverEnds(w, Pass(w, st, true, false, false).0, j, last, h, n - 1);
    }
  }

  /** The last stream of the chain once all streams have been appended. */
  function LastId(st: State): nat
    requires st.streams != []
  {
    Extended(st)[|Extended(st)| - 1]
  }

  /** How many events are answered with Ok before the last stream asks for the close sequence. */
  function OkEvents(st: State): nat
    requires st.streams != []
  {
    1 + Unopened(st.streams[1..]) + st.budget
  }

  /**
   The first event makes its handler append all streams; then they are all opened, and the last one is readable from
   then on: it answers with Close, and Closing with End.
   */
  function Provoker(st: State, h: set<nat>): World
    requires st.streams != []
  {
    World((k: nat) => if k < st.clock + OkEvents(st) then Ok
                      else if (k - st.clock - OkEvents(st)) % 2 == 0 then Close else End,
          (k: nat) => if k == st.clock then st.budget else 0,
          (k: nat) => false, (k: nat) => false,
          (k: nat, id: nat) => id == LastId(st) || (k == st.clock && id == st.streams[0].id),
          (k: nat, id: nat) => false,
          (k: nat, id: nat) => id in h)
  }

  lemma ProvokerIsSteady(st: State, h: set<nat>)
    requires st.streams != []
    ensures var (w, c) := (Provoker(st, h), st.clock);
            && Stores(w, h) && Steady(w, c + 1, LastId(st))
            && OkThenClose(w, c, OkEvents(st)) && OkThenClose(w, c + 1, OkEvents(st) - 1)
            && w.answer(c + OkEvents(st) + 1) == End && Alternating(w, c + OkEvents(st) + 2)
  {
  }

  /** The chain once the first stream has had its turn. */
  function Appending(st: State): seq<Stream>
    requires st.streams != []
  {
    WithOpened(st.streams + NewStreams(st.nextId, st.budget), 0)
  }

  lemma FirstTurn(st: State, h: set<nat>)
    requires st.streams != [] && Distinct(Extended(st)) && |Extended(st)| > 1
    ensures var t := FullTurn(Provoker(st, h), st, 0, true, true, false);
            && t == Turn(t.st, true, false, false, false, false, false)
            && After(t.st, st.phase, Appending(st), st.clock + 1)
  {
    hide Unopened, LastId, Sent, Provoker, Appending;
    var w := Provoker(st, h);
    LastIsOther(st);
    ProvokerStarts(st, h);
    FirstSent(st, h, OnOpening);
    FirstSent(st, h, OnReadable);
    var t0 := Turn(st, true, false, false, false, false, false);
    var t1 := OpenTurn(w, t0, 0, true);
    if st.streams[0].isOpen {
      assert t1 == t0;
      var t2 := ReadTurn(w, t1, 0);
      assert t2 == t0.(st := Sent(w, st, 0, OnReadable));
      assert WriteTurn(w, t2, 0) == t2;
    } else {
      var st1 := Sent(w, st, 0, OnOpening);
      assert t1 == t0.(st := st1.(streams := WithOpened(st1.streams, 0)));
      assert !w.readable(t1.st.clock, t1.st.streams[0].id);
      assert WriteTurn(w, ReadTurn(w, t1, 0), 0) == t1;
    }
  }

  lemma ProvokerStarts(st: State, h: set<nat>)
    requires st.streams != []
    ensures var (w, c, first) := (Provoker(st, h), st.clock, st.streams[0].id);
            && w.answer(c) == Ok && w.readable(c, first) && !w.writeable(c, first) && !w.writeable(c + 1, first)
            && (w.readable(c + 1, first) <==> first == LastId(st))
  {
    ProvokerIsSteady(st, h);
    assert OkEvents(st) > 0;
  }

  lemma FirstSent(st: State, h: set<nat>, e: Event)
    requires st.streams != [] && e != OnClosing
    ensures var st' := Sent(Provoker(st, h), st, 0, e);
            && st'.phase == st.phase && st'.clock == st.clock + 1 && st'.budget == 0
            && st'.streams == st.streams + NewStreams(st.nextId, st.budget)
            && Appending(st) == (if st.streams[0].isOpen then st'.streams else WithOpened(st'.streams, 0))
  {
    hide Unopened, LastId;
  }

  lemma LastIsOther(st: State)
    requires st.streams != [] && Distinct(Extended(st)) && |Extended(st)| > 1
    ensures LastId(st) != st.streams[0].id
  {
    assert Extended(st)[0] == st.streams[0].id;
  }

  lemma {:induction false} NewAreUnopened(id: nat, n: nat)
    ensures Unopened(NewStreams(id, n)) == n
    decreases n
  {
    if n > 0 {
      NewAreUnopened(id + 1, n - 1);
      assert NewStreams(id, n)[1..] == NewStreams(id + 1, n - 1);
    }
  }

  lemma AppendingIs(st: State)
    requires st.streams != []
    ensures Ids(Appending(st)) == Extended(st)
    ensures Unopened(Appending(st)[1..]) == OkEvents(st) - 1
    ensures AllOpen(OpenedFrom(Appending(st), 1)) && Ids(OpenedFrom(Appending(st), 1)) == Extended(st)
  {
    var s := Appending(st);
    assert s[1..] == st.streams[1..] + NewStreams(st.nextId, st.budget);
    UnopenedConcat(st.streams[1..], NewStreams(st.nextId, st.budget));
    NewAreUnopened(st.nextId, st.budget);
    assert Ids(s) == Extended(st);
    assert Ids(OpenedFrom(s, 1)) == Ids(s);
  }

  lemma FirstPass(st: State, h: set<nat>)
    requires BegunOpen(st) && st.streams != [] && Distinct(Extended(st)) && |Extended(st)| > 1
    ensures var (st', outcome) := Pass(Provoker(st, h), st, true, true, false);
            outcome == Again && After(st', Connected, OpenedFrom(Appending(st), 1), st.clock + OkEvents(st) + 2)
  {
    hide Provoker, OpenPhase, ClosePhase, Steady, OpenedFrom, Appending, OkEvents, OkThenClose, Alternating, Extended;
    var w, c := Provoker(st, h), st.clock;
    ProvokerIsSteady(st, h);
    FirstWalk(st, h);
    var st1 := OpenPhase(w, st, 0, true, true, false).0;
    SteadyReads(w, c + 1, LastId(st), st1.clock, LastId(st));
    assert |st1.streams| == |Extended(st)| by {
      AppendingIs(st);
    }
    Cancelled(w, st1, LastId(st));
  }

  lemma FirstWalk(st: State, h: set<nat>)
    requires BegunOpen(st) && st.streams != [] && Distinct(Extended(st)) && |Extended(st)| > 1
    ensures var (st', error) := OpenPhase(Provoker(st, h), st, 0, true, true, false);
            !error && After(st', Closing, OpenedFrom(Appending(st), 1), st.clock + OkEvents(st) + 1)
  {
    hide Provoker, FullTurn, Steady, OpenedFrom, Appending, OkEvents, Unopened, Extended, OkThenClose;
    hide Alternating, Distinct;
    var w := Provoker(st, h);
    ProvokerIsSteady(st, h);
    AppendingIs(st);
    FirstTurn(st, h);
    TurnsShrink(w, st, 0, true, true, false);
    var t := FullTurn(w, st, 0, true, true, false);
    assert Ids(t.st.streams)[|t.st.streams| - 1] == LastId(st);
    WalkToClose(w, t.st, 1, LastId(st));
    assert OpenPhase(w, st, 0, true, true, false) == OpenPhase(w, t.st, 1, true, true, false);
  }

  lemma ProvokedNeverEnds(st: State, h: set<nat>, n: nat)
    requires BegunOpen(st) && st.streams != [] && Distinct(Extended(st)) && !OnlyLast(Extended(st), h)
    ensures FirstPasses(Provoker(st, h), st, true, true, false, n).1 == Again
  {
    hide Provoker, Pass, Steady, Stores, Alternating, OpenedFrom, Appending, OkEvents, Extended, AllOpen;
    hide OkThenClose, Distinct;
    var w, last := Provoker(st, h), LastId(st);
    var j :| 0 <= j < |Extended(st)| - 1 && Extended(st)[j] in h;
    ProvokerIsSteady(st, h);
    AppendingIs(st);
    FirstPass(st, h);
    if n > 0 {
      var st' := Pass(w, st, true, true, false).0;
      assert Ids(st'.streams)[j] in h && Ids(st'.streams)[|st'.streams| - 1] == last;
      SteadyReads(w, st.clock + 1, last, st'.clock, last);
      NeverEnds(w, st', j, last, h, n - 1);
    }
  }

  ghost predicate Ends(w: World, st: State, evRead: bool, evWrite: bool) {
    exists n :: FirstPasses(w, st, true, evRead, evWrite, n).1 != Again
  }

  /**
   A call that begins connected ends, whatever the handlers do and whatever events it brings, exactly if no stream that
   always has something to be read has another one behind it, or can come to have one.
   */
  lemma EndsExactlyIf(st: State, h: set<nat>)
    requires BegunOpen(st) && st.streams != [] && Distinct(Extended(st))
    ensures (forall w, evRead, evWrite | Stores(w, h) :: Ends(w, st, evRead, evWrite)) <==> OnlyLast(Extended(st), h)
  {
    if OnlyLast(Extended(st), h) {
      forall w, evRead, evWrite | Stores(w, h)
        ensures Ends(w, st, evRead, evWrite)
      {
        var n := StoredEnds(w, st, true, evRead, evWrite, true, h);
        assert FirstPasses(w, st, true, evRead, evWrite, n).1 != Again;
      }
    } else {
      var w := Provoker(st, h);
      ProvokerIsSteady(st, h);
      forall n: nat
        ensures FirstPasses(w, st, true, true, false, n).1 == Again
      {
        ProvokedNeverEnds(st, h, n);
      }
      assert !Ends(w, st, true, false);
    }
  }
}
