/**
 What the open, read and write sequence of sconex/Descriptor.cpp makes of the answers to its events, and which events
 it sends.
 */
module DispatchAnswers {
  import opened Bytes
  import opened Dispatching
  import opened DispatchVisits
  import opened DispatchProgress

  /** The streams have ids of their own, which new ones will not get. */
  predicate Numbered(st: State) {
    Distinct(Ids(st.streams)) && forall k | 0 <= k < |st.streams| :: st.streams[k].id < st.nextId
  }

  function NewIds(id: nat, n: nat): (s: seq<nat>)
    ensures |s| == n
  {
    seq(n, (k: nat) => id + k)
  }

  /** ids without those in gone. */
  function Left(ids: seq<nat>, gone: set<nat>): seq<nat> {
    if ids == [] then [] else (if ids[0] in gone then [] else [ids[0]]) + Left(ids[1..], gone)
  }

  predicate OpenIn(streams: seq<Stream>, id: nat) {
    exists k :: 0 <= k < |streams| && streams[k].id == id && streams[k].isOpen
  }

  function VisitIds(vs: seq<Visit>): (ids: seq<nat>)
    ensures |ids| == |vs|
  {
    seq(|vs|, j requires 0 <= j < |vs| => vs[j].id)
  }

  /** The visits follow one another in time. */
  predicate Consecutive(vs: seq<Visit>, from: nat, upto: nat) {
    if vs == [] then from == upto else vs[0].from == from && Consecutive(vs[1..], vs[0].Upto(), upto)
  }

  predicate During(v: Visit, t: nat) {
    v.from <= t < v.Upto()
  }

  /** Entry k of the log is the event that v gets at time t. */
  predicate Entry(log: seq<Delivery>, k: int, v: Visit, t: nat) {
    && 0 <= k < |log| && log[k].pos < |log[k].chain| && log[k].chain[log[k].pos].id == v.id
    && log[k].event == if t < v.ReadTime() then OnOpening else if t < v.WriteTime() then OnReadable else OnWriteable
  }

  /** The log from one state to the other holds the events of the visits, each at its time, and no others. */
  ghost predicate LogOf(vs: seq<Visit>, st: State, st': State) {
    && Consecutive(vs, st.clock, st'.clock)
    && st.log <= st'.log && |st'.log| - |st.log| == st'.clock - st.clock
    && forall j, t: nat | 0 <= j < |vs| && During(vs[j], t) :: Entry(st'.log, t - st.clock + |st.log|, vs[j], t)
  }

  /** A stream whose Readable event was answered with Wait does not pass it on. */
  predicate ReadWaits(w: World, v: Visit) {
    v.reading && w.answer(v.ReadTime()) == Wait
  }

  predicate WriteWaits(w: World, v: Visit) {
    v.writing && w.answer(v.WriteTime()) == Wait
  }

  /** A stream that stays and has something in store makes Readable be passed on from there. */
  ghost predicate Stocks(w: World, v: Visit) {
    w.hasReadable(v.Upto(), v.id) && !Heard(w, v.from, v.Upto(), End)
  }

  /** No visit from a to b keeps Readable from being passed on. */
  predicate Calm(w: World, vs: seq<Visit>, a: nat, b: nat)
    requires a <= b <= |vs|
  {
    forall l | a <= l < b :: !ReadWaits(w, vs[l])
  }

  /** Readable is passed on to visit j. */
  ghost predicate ReadsOn(w: World, vs: seq<Visit>, j: nat, evRead: bool)
    requires j < |vs|
  {
    (evRead && Calm(w, vs, 0, j)) || exists m :: 0 <= m < j && Stocks(w, vs[m]) && Calm(w, vs, m + 1, j)
  }

  predicate WritesOn(w: World, vs: seq<Visit>, j: nat, evWrite: bool)
    requires j < |vs|
  {
    evWrite && forall m | 0 <= m < j :: !WriteWaits(w, vs[m])
  }

  /**
   A visit has the events that are for it. Opening is sent if the call sends it and it is not complete; Readable and
   Writeable are sent if they are passed on and the stream has enabled them, unless an event before was answered with
   End or Error.
   */
  ghost predicate Rightly(w: World, v: Visit, wasOpen: bool, evOpen: bool, evRead: bool, evWrite: bool) {
    && (v.opening <==> evOpen && !wasOpen)
    && (v.reading <==> evRead && w.readable(v.ReadTime(), v.id) &&
                       !(v.opening && (w.answer(v.from) == End || w.answer(v.from) == Error)))
    && (v.writing <==> evWrite && w.writeable(v.WriteTime(), v.id) &&
                       !Heard(w, v.from, v.WriteTime(), End) && !Heard(w, v.from, v.WriteTime(), Error))
    && !(Heard(w, v.from, v.Upto(), End) && Heard(w, v.from, v.Upto(), Error))
  }

  /** Visit j has the events that are for it, with what is passed on to it. */
  ghost predicate GetsEvents(w: World, st: State, vs: seq<Visit>, j: int, evOpen: bool, evRead: bool, evWrite: bool)
    requires 0 <= j < |vs|
  {
    Rightly(w, vs[j], OpenIn(st.streams, vs[j].id), evOpen, ReadsOn(w, vs, j, evRead), WritesOn(w, vs, j, evWrite))
  }

  /** A visit at which the sequence stops: an error, or an opening that waits and is not completed by its handlers. */
  ghost predicate Stops(w: World, v: Visit) {
    || Heard(w, v.from, v.Upto(), Error)
    || (v.opening && w.answer(v.from) == Wait && !Opens(w, v.from, v.Upto()))
  }

  /** The streams one of whose events was answered with End. */
  ghost function Gone(w: World, vs: seq<Visit>): set<nat> {
    set j | 0 <= j < |vs| && Heard(w, vs[j].from, vs[j].Upto(), End) :: vs[j].id
  }

  /** The visits go along the chain, and along what is appended, and stop early exactly where they must. */
  ghost predicate GoesAlong(w: World, vs: seq<Visit>, ids: seq<nat>, error: bool) {
    && VisitIds(vs) <= ids
    && (forall j | 0 <= j < |vs| - 1 :: !Stops(w, vs[j]))
    && (|vs| < |ids| ==> vs != [] && Stops(w, vs[|vs| - 1]))
    && (error <==> vs != [] && Heard(w, vs[|vs| - 1].from, vs[|vs| - 1].Upto(), Error))
  }

  /** What has become of the chain: who has left, and who is open. */
  ghost predicate LeavesChain(w: World, st: State, vs: seq<Visit>, st': State) {
    && st.nextId <= st'.nextId
    && Ids(st'.streams) == Left(Ids(st.streams) + NewIds(st.nextId, st'.nextId - st.nextId), Gone(w, vs))
    && forall k | 0 <= k < |st'.streams| ::
         st'.streams[k].isOpen <==>
           || OpenIn(st.streams, st'.streams[k].id)
           || exists j :: 0 <= j < |vs| && vs[j].id == st'.streams[k].id && OpenAfter(w, vs[j], false)
  }

  ghost function PhaseAfter(w: World, phase: Phase, from: nat, upto: nat): Phase {
    if phase == Closed || Shuts(w, from, upto) then Closed
    else if Heard(w, from, upto, Close) then Closing
    else phase
  }

  ghost predicate Told(w: World, st: State, i: nat, evOpen: bool, evRead: bool, evWrite: bool, vs: seq<Visit>,
                       st': State, error: bool)
    requires i <= |st.streams|
  {
    var n := Min(Appends(w, st.clock, st'.clock), st.budget);
    && LogOf(vs, st, st')
    && st'.budget == st.budget - n && st'.nextId == st.nextId + n
    && (forall j | 0 <= j < |vs| :: GetsEvents(w, st, vs, j, evOpen, evRead, evWrite))
    && GoesAlong(w, vs, Ids(st.streams[i..]) + NewIds(st.nextId, n), error)
    && LeavesChain(w, st, vs, st')
    && st'.phase == PhaseAfter(w, st.phase, st.clock, st'.clock)
  }

  // Chains with some streams left out

  lemma {:induction false} LeftConcat(a: seq<nat>, b: seq<nat>, gone: set<nat>)
    ensures Left(a + b, gone) == Left(a, gone) + Left(b, gone)
  {
    if a == [] {
      assert a + b == b;
    } else {
      assert (a + b)[1..] == a[1..] + b;
      LeftConcat(a[1..], b, gone);
    }
  }

  lemma {:induction false} LeftTwice(a: seq<nat>, g: set<nat>, h: set<nat>)
    ensures Left(Left(a, g), h) == Left(a, g + h)
  {
    if a != [] {
      LeftTwice(a[1..], g, h);
      LeftConcat(if a[0] in g then [] else [a[0]], Left(a[1..], g), h);
      LeftOfOne(a[0], h);
    }
  }

  lemma LeftOfOne(x: nat, gone: set<nat>)
    ensures Left([x], gone) == if x in gone then [] else [x]
    ensures Left([], gone) == []
  {
    assert [x][1..] == [];
  }

  lemma {:induction false} LeftAll(a: seq<nat>, gone: set<nat>)
    requires forall x | x in a :: x !in gone
    ensures Left(a, gone) == a
  {
    if a != [] {
      LeftAll(a[1..], gone);
    }
  }

  /** Without one id, which is there once. */
  lemma LeftWithout(a: seq<nat>, i: nat)
    requires Distinct(a) && i < |a|
    ensures Left(a, {a[i]}) == a[..i] + a[i + 1..]
  {
    hide Left, Distinct;
    var x, front, back := a[i], a[..i], a[i + 1..];
    assert a == front + ([x] + back);
    DistinctMeans(a, i);
    LeftConcat(front, [x] + back, {x});
    LeftConcat([x], back, {x});
    LeftOfOne(x, {x});
    LeftAll(front, {x});
    LeftAll(back, {x});
  }

  lemma DistinctMeans(a: seq<nat>, i: nat)
    requires Distinct(a) && i < |a|
    ensures a[i] !in a[..i] && a[i] !in a[i + 1..]
  {
  }

  // One visit

  /** A visit gets no more events once one was answered with End or Error. */
  lemma NotBoth(w: World, v: Visit)
    requires v.reading ==> !(v.opening && (w.answer(v.from) == End || w.answer(v.from) == Error))
    requires v.writing ==> !Heard(w, v.from, v.WriteTime(), End) && !Heard(w, v.from, v.WriteTime(), Error)
    ensures !(Heard(w, v.from, v.Upto(), End) && Heard(w, v.from, v.Upto(), Error))
  {
    if Heard(w, v.from, v.Upto(), End) && Heard(w, v.from, v.Upto(), Error) {
      var a: nat :| v.from <= a < v.Upto() && w.answer(a) == End;
      var b: nat :| v.from <= b < v.Upto() && w.answer(b) == Error;
    }
  }

  lemma TurnVisits(w: World, st: State, i: nat, evOpen: bool, evRead: bool, evWrite: bool) returns (v: Visit)
    requires i < |st.streams|
    ensures var t := FullTurn(w, st, i, evOpen, evRead, evWrite);
            Visited(w, st, i, v, t.st) && Tells(w, v, evRead, evWrite, t)
    ensures v.id == st.streams[i].id && v.from == st.clock
    ensures Rightly(w, v, st.streams[i].isOpen, evOpen, evRead, evWrite)
  {
    hide OpenTurn, ReadTurn, WriteTurn, Visited, Tells, Heard;
    var t1 := OpenTurn(w, Turn(st, evRead, evWrite, false, false, false, false), i, evOpen);
    v := OpenTurnVisits(w, st, i, evOpen, evRead, evWrite);
    var t2 := ReadTurn(w, t1, i);
    v := ReadTurnVisits(w, st, i, v, evRead, evWrite, t1);
    v := WriteTurnVisits(w, st, i, v, evRead, evWrite, t2);
    NotBoth(w, v);
  }

  /** What is left behind a visit. */
  ghost predicate Behind(w: World, st: State, i: nat, v: Visit, mid: State)
    requires i < |st.streams|
  {
    var n := Min(Appends(w, v.from, v.Upto()), st.budget);
    var all := Touched(st, i, OpenAfter(w, v, st.streams[i].isOpen), n);
    && v.id == st.streams[i].id && v.from == st.clock && mid.clock == v.Upto()
    && mid.budget == st.budget - n && mid.nextId == st.nextId + n
    && mid.phase == PhaseAfter(w, st.phase, v.from, v.Upto())
    && mid.streams == if Heard(w, v.from, v.Upto(), End) then all[..i] + all[i + 1..] else all
  }

  /** The end of a turn: the stream goes or stays, and what is passed on is settled. */
  lemma SettledTells(w: World, st: State, i: nat, v: Visit, evOpen: bool, evRead: bool, evWrite: bool, t: Turn)
    requires Visited(w, st, i, v, t.st) && Tells(w, v, evRead, evWrite, t)
    requires i < |st.streams| && Rightly(w, v, st.streams[i].isOpen, evOpen, evRead, evWrite)
    ensures i < |st.streams| && i < |t.st.streams|
    ensures var t' := Settled(w, t, i);
            && Behind(w, st, i, v, t'.st) && Logged(v, st, t'.st, i)
            && (t.error <==> Heard(w, v.from, v.Upto(), Error)) && (t.remove <==> Heard(w, v.from, v.Upto(), End))
            && (HoldsUp(t, i) <==> v.opening && w.answer(v.from) == Wait && !Opens(w, v.from, v.Upto()))
            && (!t.error ==> (t'.evRead <==> (evRead && !ReadWaits(w, v)) || Stocks(w, v)))
            && (t'.evWrite <==> evWrite && !WriteWaits(w, v))
  {
    SameId(w, st, i, v, t.st);
    LogIsFree(v, st, t.st, Settled(w, t, i).st, i);
    hide Heard, Opens, Shuts, Appends, Logged;
  }

  /** The chain behind the events of a visit has the ids of the chain before, and those of the new streams. */
  lemma TouchedIds(st: State, i: nat, isOpen: bool, n: nat)
    requires i < |st.streams| && Numbered(st)
    ensures var ids := Ids(Touched(st, i, isOpen, n));
            && ids == Ids(st.streams) + NewIds(st.nextId, n) && Distinct(ids)
            && forall k | 0 <= k < |ids| :: ids[k] < st.nextId + n
  {
    assert Ids(Touched(st, i, isOpen, n)) == Ids(st.streams) + NewIds(st.nextId, n);
  }

  lemma IdsWithout(streams: seq<Stream>, i: nat)
    requires i < |streams|
    ensures Ids(streams[..i] + streams[i + 1..]) == Ids(streams)[..i] + Ids(streams)[i + 1..]
  {
  }

  lemma DistinctWithout(a: seq<nat>, i: nat)
    requires Distinct(a) && i < |a|
    ensures Distinct(a[..i] + a[i + 1..])
  {
  }

  /** The ids that are left behind a visit. */
  lemma IdsBehind(w: World, st: State, i: nat, v: Visit, mid: State)
    requires i < |st.streams| && Numbered(st) && Behind(w, st, i, v, mid)
    ensures st.nextId <= mid.nextId && Numbered(mid)
    ensures Ids(mid.streams) == Left(Ids(st.streams) + NewIds(st.nextId, mid.nextId - st.nextId),
                                     if Heard(w, v.from, v.Upto(), End) then {v.id} else {})
  {
    hide Heard, Opens, Shuts, Appends, Left, Touched, Distinct, OpenAfter, PhaseAfter;
    var n, isOpen := mid.nextId - st.nextId, OpenAfter(w, v, st.streams[i].isOpen);
    var all, ids := Touched(st, i, isOpen, n), Ids(st.streams) + NewIds(st.nextId, n);
    TouchedIds(st, i, isOpen, n);
    assert ids[i] == v.id;
    if Heard(w, v.from, v.Upto(), End) {
      LeftWithout(ids, i);
      IdsWithout(all, i);
      DistinctWithout(ids, i);
      assert forall k | 0 <= k < |mid.streams| :: mid.streams[k].id == Ids(mid.streams)[k];
    } else {
      LeftAll(ids, {});
      assert forall k | 0 <= k < |mid.streams| :: mid.streams[k].id == ids[k];
    }
  }

  /** The ones that are still to be visited. */
  lemma IdsAhead(w: World, st: State, i: nat, v: Visit, mid: State)
    requires i < |st.streams| && Behind(w, st, i, v, mid)
    ensures var next := if Heard(w, v.from, v.Upto(), End) then i else i + 1;
            && st.nextId <= mid.nextId && next <= |mid.streams|
            && Ids(mid.streams[next..]) == Ids(st.streams[i + 1..]) + NewIds(st.nextId, mid.nextId - st.nextId)
            && Ids(st.streams[i..]) == [v.id] + Ids(st.streams[i + 1..])
  {
    hide Heard, Opens, Shuts, Appends, OpenAfter, PhaseAfter;
    var next := if Heard(w, v.from, v.Upto(), End) then i else i + 1;
    var n, isOpen := mid.nextId - st.nextId, OpenAfter(w, v, st.streams[i].isOpen);
    var all := Touched(st, i, isOpen, n);
    assert mid.streams[next..] == all[i + 1..];
    assert all[i + 1..] == st.streams[i + 1..] + NewStreams(st.nextId, n);
  }

  lemma OpenTouched(st: State, i: nat, isOpen: bool, n: nat, k: nat)
    requires i < |st.streams| && Numbered(st) && k < |Touched(st, i, isOpen, n)|
    ensures var all := Touched(st, i, isOpen, n);
            all[k].isOpen <==> if all[k].id == st.streams[i].id then isOpen else OpenIn(st.streams, all[k].id)
  {
    var all := Touched(st, i, isOpen, n);
    TouchedIds(st, i, isOpen, n);
    assert all[k].id == Ids(all)[k] && all[i].id == Ids(all)[i];
    if k < |st.streams| && k != i && OpenIn(st.streams, all[k].id) {
      var m :| 0 <= m < |st.streams| && st.streams[m].id == all[k].id && st.streams[m].isOpen;
      assert Ids(st.streams)[m] == Ids(st.streams)[k];
    }
  }

  /** Who is open behind a visit. */
  lemma OpenBehind(w: World, st: State, i: nat, v: Visit, mid: State, k: nat)
    requires i < |st.streams| && Numbered(st) && Behind(w, st, i, v, mid) && k < |mid.streams|
    ensures mid.streams[k].isOpen <==>
              if mid.streams[k].id == v.id then OpenAfter(w, v, st.streams[i].isOpen)
              else OpenIn(st.streams, mid.streams[k].id)
  {
    hide Heard, Opens, Shuts, Appends, OpenAfter, PhaseAfter, OpenIn, Numbered;
    var n, isOpen := mid.nextId - st.nextId, OpenAfter(w, v, st.streams[i].isOpen);
    OpenTouched(st, i, isOpen, n, if Heard(w, v.from, v.Upto(), End) && k >= i then k + 1 else k);
  }

  lemma StaysBehind(w: World, st: State, i: nat, v: Visit, mid: State, m: nat) returns (k: nat)
    requires i < |st.streams| && Behind(w, st, i, v, mid) && m < |st.streams| && m != i
    ensures k < |mid.streams| && mid.streams[k] == st.streams[m]
  {
    hide Heard, Opens, Shuts, Appends, OpenAfter, PhaseAfter;
    k := if Heard(w, v.from, v.Upto(), End) && m > i then m - 1 else m;
  }

  /** Other streams are open as before. */
  lemma OthersBehind(w: World, st: State, i: nat, v: Visit, mid: State, id: nat)
    requires i < |st.streams| && Numbered(st) && Behind(w, st, i, v, mid) && id != v.id
    ensures OpenIn(mid.streams, id) <==> OpenIn(st.streams, id)
  {
    BehindMeans(w, st, i, v, mid);
    hide Behind, Numbered;
    if OpenIn(mid.streams, id) {
      var k :| 0 <= k < |mid.streams| && mid.streams[k].id == id && mid.streams[k].isOpen;
      OpenBehind(w, st, i, v, mid, k);
    }
    if OpenIn(st.streams, id) {
      var m :| 0 <= m < |st.streams| && st.streams[m].id == id && st.streams[m].isOpen;
      var k := StaysBehind(w, st, i, v, mid, m);
    }
  }

  lemma BehindMeans(w: World, st: State, i: nat, v: Visit, mid: State)
    requires i < |st.streams| && Behind(w, st, i, v, mid)
    ensures v.id == st.streams[i].id
  {
  }

  // Whole sequences

  lemma OpenIsIn(st: State, k: nat)
    requires Numbered(st) && k < |st.streams|
    ensures st.streams[k].isOpen <==> OpenIn(st.streams, st.streams[k].id)
  {
    if OpenIn(st.streams, st.streams[k].id) {
      var m :| 0 <= m < |st.streams| && st.streams[m].id == st.streams[k].id && st.streams[m].isOpen;
      assert Ids(st.streams)[m] == Ids(st.streams)[k];
    }
  }

  lemma NoVisit(w: World, st: State, i: nat, evOpen: bool, evRead: bool, evWrite: bool)
    requires i == |st.streams| && Numbered(st)
    ensures Told(w, st, i, evOpen, evRead, evWrite, [], st, false)
  {
    NothingHeard(w, st.clock);
    hide Heard, Opens, Shuts;
    LeftAll(Ids(st.streams), {});
    assert Ids(st.streams) + NewIds(st.nextId, 0) == Ids(st.streams);
    assert Gone(w, []) == {};
    forall k | 0 <= k < |st.streams|
      ensures st.streams[k].isOpen <==> OpenIn(st.streams, st.streams[k].id)
    {
      OpenIsIn(st, k);
    }
  }

  lemma {:induction false} AppendsJoin(w: World, a: nat, b: nat, c: nat)
    requires a <= b <= c
    ensures Appends(w, a, c) == Appends(w, a, b) + Appends(w, b, c)
    decreases c
  {
    if b < c {
      AppendsJoin(w, a, b, c - 1);
    }
  }

  lemma HeardJoin(w: World, a: nat, b: nat, c: nat, e: Condition)
    requires a <= b <= c
    ensures Heard(w, a, c, e) <==> Heard(w, a, b, e) || Heard(w, b, c, e)
    ensures Shuts(w, a, c) <==> Shuts(w, a, b) || Shuts(w, b, c)
  {
  }

  lemma PhaseJoin(w: World, phase: Phase, a: nat, b: nat, c: nat)
    requires a <= b <= c
    ensures PhaseAfter(w, PhaseAfter(w, phase, a, b), b, c) == PhaseAfter(w, phase, a, c)
  {
    HeardJoin(w, a, b, c, Close);
    hide Heard, Shuts;
  }

  lemma NewIdsJoin(id: nat, m: nat, n: nat)
    ensures NewIds(id, m) + NewIds(id + m, n) == NewIds(id, m + n)
  {
  }

  /** The log of a visit and of those behind it. */
  lemma LogJoin(v: Visit, vs: seq<Visit>, st: State, i: nat, mid: State, st': State)
    requires Logged(v, st, mid, i) && LogOf(vs, mid, st')
    ensures LogOf([v] + vs, st, st')
  {
    var all := [v] + vs;
    assert all[1..] == vs;
    assert st.log == st'.log[..|st.log|] by {
      assert mid.log == st'.log[..|mid.log|];
    }
    forall j, t: nat | 0 <= j < |all| && During(all[j], t)
      ensures Entry(st'.log, t - st.clock + |st.log|, all[j], t)
    {
      if j == 0 {
        assert st'.log[t - st.clock + |st.log|] == mid.log[t - st.clock + |st.log|];
      } else {
        assert During(vs[j - 1], t);
        assert Entry(st'.log, t - mid.clock + |mid.log|, vs[j - 1], t);
      }
    }
  }

  lemma CalmJoin(w: World, v: Visit, vs: seq<Visit>, a: nat, b: nat)
    requires a <= b <= |vs|
    ensures Calm(w, [v] + vs, a + 1, b + 1) <==> Calm(w, vs, a, b)
    ensures Calm(w, [v] + vs, 0, b + 1) <==> !ReadWaits(w, v) && Calm(w, vs, 0, b)
  {
    var all := [v] + vs;
    assert forall l | 0 <= l < |vs| :: all[l + 1] == vs[l];
    if !Calm(w, vs, a, b) {
      var l :| a <= l < b && ReadWaits(w, vs[l]);
      assert ReadWaits(w, all[l + 1]);
    }
    if !Calm(w, vs, 0, b) {
      var l :| 0 <= l < b && ReadWaits(w, vs[l]);
      assert ReadWaits(w, all[l + 1]);
    }
    if ReadWaits(w, v) {
      assert ReadWaits(w, all[0]);
    }
  }

  /** What is passed on to a later visit, as seen from the first one. */
  lemma ReadsJoin(w: World, v: Visit, vs: seq<Visit>, j: nat, evRead: bool)
    requires j < |vs|
    ensures ReadsOn(w, [v] + vs, j + 1, evRead) <==>
              ReadsOn(w, vs, j, (evRead && !ReadWaits(w, v)) || Stocks(w, v))
  {
    hide Stocks, Calm, ReadWaits;
    var all := [v] + vs;
    CalmJoin(w, v, vs, 0, j);
    forall m | 0 <= m < j
      ensures all[m + 1] == vs[m] && (Calm(w, all, m + 2, j + 1) <==> Calm(w, vs, m + 1, j))
    {
      CalmJoin(w, v, vs, m + 1, j);
    }
    if m :| 0 <= m < j && Stocks(w, vs[m]) && Calm(w, vs, m + 1, j) {
      assert Stocks(w, all[m + 1]) && Calm(w, all, m + 1 + 1, j + 1);
    }
    if Stocks(w, v) && Calm(w, vs, 0, j) {
      assert Stocks(w, all[0]) && Calm(w, all, 0 + 1, j + 1);
    }
    if ReadsOn(w, all, j + 1, evRead) && !(evRead && Calm(w, all, 0, j + 1)) {
      var m :| 0 <= m < j + 1 && Stocks(w, all[m]) && Calm(w, all, m + 1, j + 1);
      if m > 0 {
        assert all[m] == vs[m - 1] && Calm(w, vs, m, j);
        assert Stocks(w, vs[m - 1]) && Calm(w, vs, m - 1 + 1, j);
      }
    }
  }

  lemma WritesJoin(w: World, v: Visit, vs: seq<Visit>, j: nat, evWrite: bool)
    requires j < |vs|
    ensures WritesOn(w, [v] + vs, j + 1, evWrite) <==> WritesOn(w, vs, j, evWrite && !WriteWaits(w, v))
  {
    hide WriteWaits;
    var all := [v] + vs;
    assert all[0] == v && forall l | 0 <= l < |vs| :: all[l + 1] == vs[l];
    if WritesOn(w, all, j + 1, evWrite) {
      assert !WriteWaits(w, all[0]);
      forall m | 0 <= m < j
        ensures !WriteWaits(w, vs[m])
      {
        assert !WriteWaits(w, all[m + 1]);
      }
    }
  }

  /** The first visit gets its events, and the later ones do so as seen from there. */
  lemma EventsJoin(w: World, st: State, i: nat, v: Visit, vs: seq<Visit>, mid: State, evOpen: bool, evRead: bool,
                   evWrite: bool)
    requires i < |st.streams| && Numbered(st) && Behind(w, st, i, v, mid)
    requires Rightly(w, v, st.streams[i].isOpen, evOpen, evRead, evWrite)
    requires forall j | 0 <= j < |vs| ::
               vs[j].id != v.id && GetsEvents(w, mid, vs, j, evOpen, (evRead && !ReadWaits(w, v)) || Stocks(w, v),
                                              evWrite && !WriteWaits(w, v))
    ensures forall j | 0 <= j < |vs| + 1 :: GetsEvents(w, st, [v] + vs, j, evOpen, evRead, evWrite)
  {
    BehindMeans(w, st, i, v, mid);
    OpenIsIn(st, i);
    hide Heard, OpenIn, Stocks, ReadWaits, WriteWaits, Behind, Numbered;
    var all := [v] + vs;
    forall j | 0 <= j < |all|
      ensures GetsEvents(w, st, all, j, evOpen, evRead, evWrite)
    {
      if j > 0 {
        assert all[j] == vs[j - 1];
        assert GetsEvents(w, mid, vs, j - 1, evOpen, (evRead && !ReadWaits(w, v)) || Stocks(w, v),
                          evWrite && !WriteWaits(w, v));
        OthersBehind(w, st, i, v, mid, vs[j - 1].id);
        ReadsJoin(w, v, vs, j - 1, evRead);
        WritesJoin(w, v, vs, j - 1, evWrite);
        hide ReadsOn, WritesOn;
      }
    }
  }

  lemma AlongJoin(w: World, v: Visit, vs: seq<Visit>, ids: seq<nat>, error: bool)
    requires GoesAlong(w, vs, ids, error) && !Stops(w, v)
    ensures GoesAlong(w, [v] + vs, [v.id] + ids, error)
  {
    hide Stops;
    StopsAtError(w, v);
    var all := [v] + vs;
    assert VisitIds(all) == [v.id] + VisitIds(vs);
    assert forall j | 0 <= j < |vs| :: all[j + 1] == vs[j];
    forall j | 0 <= j < |all| - 1
      ensures !Stops(w, all[j])
    {
      assert j > 0 ==> all[j] == vs[j - 1];
    }
  }

  lemma StopsAtError(w: World, v: Visit)
    ensures Heard(w, v.from, v.Upto(), Error) ==> Stops(w, v)
  {
  }

  lemma AlongOne(w: World, v: Visit, ids: seq<nat>)
    requires Stops(w, v)
    ensures GoesAlong(w, [v], [v.id] + ids, Heard(w, v.from, v.Upto(), Error))
  {
    hide Stops;
    assert VisitIds([v]) == [v.id];
    assert [v.id] <= [v.id] + ids;
  }

  lemma {:induction false} LeftMeans(a: seq<nat>, gone: set<nat>, x: nat)
    requires x in Left(a, gone)
    ensures x in a && x !in gone
  {
    if x != a[0] || a[0] in gone {
      LeftMeans(a[1..], gone, x);
    }
  }

  lemma GoneJoin(w: World, v: Visit, vs: seq<Visit>)
    ensures Gone(w, [v] + vs) == (if Heard(w, v.from, v.Upto(), End) then {v.id} else {}) + Gone(w, vs)
  {
    hide Heard;
    var all := [v] + vs;
    assert forall j | 0 <= j < |vs| :: all[j + 1] == vs[j];
    forall x | x in Gone(w, vs)
      ensures x in Gone(w, all)
    {
      var j :| 0 <= j < |vs| && Heard(w, vs[j].from, vs[j].Upto(), End) && vs[j].id == x;
      assert all[j + 1].id == x;
    }
    assert all[0] == v;
  }

  lemma LeftJoin(ids: seq<nat>, id: nat, m: nat, n: nat, g: set<nat>, h: set<nat>)
    requires forall x | x in g :: x < id
    ensures Left(Left(ids + NewIds(id, m), g) + NewIds(id + m, n), h) == Left(ids + NewIds(id, m + n), g + h)
  {
    hide Left;
    var a, b := ids + NewIds(id, m), NewIds(id + m, n);
    LeftAll(b, g);
    LeftConcat(a, b, g);
    ConcatAssoc(ids, NewIds(id, m), b);
    NewIdsJoin(id, m, n);
    LeftTwice(ids + NewIds(id, m + n), g, h);
  }

  /** The ids that are left behind the first visit and then behind the others. */
  lemma IdsJoin(w: World, st: State, i: nat, v: Visit, vs: seq<Visit>, mid: State, st': State)
    requires i < |st.streams| && Numbered(st) && Behind(w, st, i, v, mid) && LeavesChain(w, mid, vs, st')
    ensures st.nextId <= st'.nextId
    ensures Ids(st'.streams) == Left(Ids(st.streams) + NewIds(st.nextId, st'.nextId - st.nextId), Gone(w, [v] + vs))
  {
    IdsBehind(w, st, i, v, mid);
    BehindMeans(w, st, i, v, mid);
    GoneJoin(w, v, vs);
    IsNumbered(st, i);
    hide Heard, Left, Gone, Behind, Numbered;
    var m, n := mid.nextId - st.nextId, st'.nextId - mid.nextId;
    LeftJoin(Ids(st.streams), st.nextId, m, n, if Heard(w, v.from, v.Upto(), End) then {v.id} else {}, Gone(w, vs));
  }

  lemma IsNumbered(st: State, i: nat)
    requires Numbered(st) && i < |st.streams|
    ensures st.streams[i].id < st.nextId
  {
  }

  /** Who is open in the end, and why, as seen from the first visit. */
  lemma OpenJoin(w: World, st: State, i: nat, v: Visit, vs: seq<Visit>, mid: State, st': State, k: nat)
    requires i < |st.streams| && Numbered(st) && Behind(w, st, i, v, mid) && LeavesChain(w, mid, vs, st')
    requires (forall j | 0 <= j < |vs| :: vs[j].id != v.id) && k < |st'.streams|
    ensures st'.streams[k].isOpen <==>
              || OpenIn(st.streams, st'.streams[k].id)
              || exists j :: 0 <= j < |vs| + 1 && ([v] + vs)[j].id == st'.streams[k].id &&
                             OpenAfter(w, ([v] + vs)[j], false)
  {
    IdsJoin(w, st, i, v, vs, mid, st');
    BehindMeans(w, st, i, v, mid);
    var id, all := st'.streams[k].id, [v] + vs;
    assert forall j | 0 <= j < |vs| :: all[j + 1] == vs[j];
    assert all[0] == v;
    if id == v.id {
      assert id == Ids(st'.streams)[k];
      hide Heard, Behind, Numbered, Left, OpenAfter;
      FirstIsLeft(w, st, i, v, vs, mid, st');
    } else {
      OthersBehind(w, st, i, v, mid, id);
      hide Heard, Behind, Numbered, Left, Gone, OpenAfter, OpenIn;
    }
  }

  /** The first visited stream is open as its visit left it, if it has not been removed. */
  lemma FirstIsLeft(w: World, st: State, i: nat, v: Visit, vs: seq<Visit>, mid: State, st': State)
    requires i < |st.streams| && Numbered(st) && Behind(w, st, i, v, mid) && LeavesChain(w, mid, vs, st')
    requires v.id in Ids(st'.streams)
    ensures OpenIn(mid.streams, v.id) <==> OpenIn(st.streams, v.id) || OpenAfter(w, v, false)
  {
    IdsJoin(w, st, i, v, vs, mid, st');
    GoneJoin(w, v, vs);
    LeftMeans(Ids(st.streams) + NewIds(st.nextId, st'.nextId - st.nextId), Gone(w, [v] + vs), v.id);
    IdsBehind(w, st, i, v, mid);
    OpenIsIn(st, i);
    BehindMeans(w, st, i, v, mid);
    StaysThere(w, st, i, v, mid);
    OpenBehind(w, st, i, v, mid, i);
    OpenIsIn(mid, i);
  }

  lemma StaysThere(w: World, st: State, i: nat, v: Visit, mid: State)
    requires i < |st.streams| && Behind(w, st, i, v, mid) && !Heard(w, v.from, v.Upto(), End)
    ensures i < |mid.streams| && mid.streams[i].id == v.id
  {
    hide Heard, OpenAfter, PhaseAfter;
  }

  lemma ChainJoin(w: World, st: State, i: nat, v: Visit, vs: seq<Visit>, mid: State, st': State)
    requires i < |st.streams| && Numbered(st) && Behind(w, st, i, v, mid) && LeavesChain(w, mid, vs, st')
    requires forall j | 0 <= j < |vs| :: vs[j].id != v.id
    ensures LeavesChain(w, st, [v] + vs, st')
  {
    IdsJoin(w, st, i, v, vs, mid, st');
    forall k | 0 <= k < |st'.streams|
      ensures st'.streams[k].isOpen <==>
                || OpenIn(st.streams, st'.streams[k].id)
                || exists j :: 0 <= j < |vs| + 1 && ([v] + vs)[j].id == st'.streams[k].id &&
                               OpenAfter(w, ([v] + vs)[j], false)
    {
      OpenJoin(w, st, i, v, vs, mid, st', k);
    }
  }

  /** What the others make of the state behind the first visit, they make of the one before, together with it. */
  lemma ToldJoin(w: World, st: State, i: nat, v: Visit, vs: seq<Visit>, mid: State, next: nat, st': State,
                 evOpen: bool, evRead: bool, evWrite: bool, error: bool)
    requires i < |st.streams| && next <= |mid.streams| && Numbered(st)
    requires Behind(w, st, i, v, mid) && Logged(v, st, mid, i)
    requires Rightly(w, v, st.streams[i].isOpen, evOpen, evRead, evWrite)
    requires forall j | 0 <= j < |vs| :: vs[j].id != v.id
    requires Told(w, mid, next, evOpen, (evRead && !ReadWaits(w, v)) || Stocks(w, v), evWrite && !WriteWaits(w, v), vs,
                  st', error)
    ensures var n := Min(Appends(w, st.clock, st'.clock), st.budget);
            && LogOf([v] + vs, st, st')
            && st'.budget == st.budget - n && st'.nextId == st.nextId + n
            && (forall j | 0 <= j < |vs| + 1 :: GetsEvents(w, st, [v] + vs, j, evOpen, evRead, evWrite))
            && LeavesChain(w, st, [v] + vs, st')
            && st'.phase == PhaseAfter(w, st.phase, st.clock, st'.clock)
  {
    hide GetsEvents, GoesAlong, LeavesChain, PhaseAfter, Heard, Stocks, ReadWaits, WriteWaits, Numbered, Rightly;
    LogJoin(v, vs, st, i, mid, st');
    EventsJoin(w, st, i, v, vs, mid, evOpen, evRead, evWrite);
    ChainJoin(w, st, i, v, vs, mid, st');
    TimesOf(w, st, i, v, vs, mid, st');
    AppendsJoin(w, st.clock, mid.clock, st'.clock);
    PhaseJoin(w, st.phase, st.clock, mid.clock, st'.clock);
    hide Logged, LogOf, Appends;
  }

  lemma TimesOf(w: World, st: State, i: nat, v: Visit, vs: seq<Visit>, mid: State, st': State)
    requires i < |st.streams| && Behind(w, st, i, v, mid) && LogOf(vs, mid, st')
    ensures st.clock == v.from <= mid.clock == v.Upto() <= st'.clock
    ensures mid.phase == PhaseAfter(w, st.phase, st.clock, mid.clock)
    ensures var n := Min(Appends(w, st.clock, mid.clock), st.budget);
            mid.budget == st.budget - n && mid.nextId == st.nextId + n
  {
    hide PhaseAfter, OpenAfter, Heard;
  }

  /** The visits still to come are to other streams. */
  lemma OthersAhead(w: World, st: State, i: nat, v: Visit, vs: seq<Visit>, mid: State, n: nat)
    requires i < |st.streams| && Numbered(st) && Behind(w, st, i, v, mid)
    requires var next := if Heard(w, v.from, v.Upto(), End) then i else i + 1;
             next <= |mid.streams| && VisitIds(vs) <= Ids(mid.streams[next..]) + NewIds(mid.nextId, n)
    ensures forall j | 0 <= j < |vs| :: vs[j].id != v.id
  {
    IdsAhead(w, st, i, v, mid);
    BehindMeans(w, st, i, v, mid);
    NotAhead(st, i, mid.nextId - st.nextId, n);
    hide Behind, Heard, Numbered, Ids, NewIds;
    var next := if Heard(w, v.from, v.Upto(), End) then i else i + 1;
    VisitsAmong(vs, Ids(mid.streams[next..]) + NewIds(mid.nextId, n), v.id);
  }

  lemma VisitsAmong(vs: seq<Visit>, ids: seq<nat>, x: nat)
    requires VisitIds(vs) <= ids && x !in ids
    ensures forall j | 0 <= j < |vs| :: vs[j].id != x
  {
    forall j | 0 <= j < |vs|
      ensures vs[j].id != x
    {
      assert VisitIds(vs)[j] == ids[j] == vs[j].id;
    }
  }

  lemma NotAhead(st: State, i: nat, m: nat, n: nat)
    requires i < |st.streams| && Numbered(st)
    ensures st.streams[i].id !in Ids(st.streams[i + 1..]) + NewIds(st.nextId, m) + NewIds(st.nextId + m, n)
  {
    var ids := Ids(st.streams);
    assert ids[i] == st.streams[i].id < st.nextId;
    DistinctMeans(ids, i);
    assert Ids(st.streams[i + 1..]) == ids[i + 1..];
  }

  /**
   The open, read and write sequence, whatever the handlers do. Its visits go along the chain, and along the streams
   that are appended meanwhile; they stop early exactly at an error, or at a stream whose opening has to wait. Every
   stream gets exactly the events that are for it. Exactly the streams that answered with End have left the chain, and
   exactly those are open that were so before, that answered Opening with Ok or Close, or whose handlers completed the
   opening. The descriptor is closing exactly if an event was answered with Close, unless it is closed.
   */
  lemma {:induction false} OpenPhaseTells(w: World, st: State, i: nat, evOpen: bool, evRead: bool, evWrite: bool)
    returns (vs: seq<Visit>)
    requires i <= |st.streams| && Numbered(st)
    ensures var (st', error) := OpenPhase(w, st, i, evOpen, evRead, evWrite);
            Numbered(st') && Told(w, st, i, evOpen, evRead, evWrite, vs, st', error)
    decreases st.budget, |st.streams| - i
  {
    hide FullTurn, Settled, HoldsUp, Visited, Tells, Told, Rightly, Heard, Stocks, ReadWaits, WriteWaits;
    hide Numbered, Behind, Logged;
    if i == |st.streams| {
      vs := [];
      NoVisit(w, st, i, evOpen, evRead, evWrite);
    } else {
      var t := FullTurn(w, st, i, evOpen, evRead, evWrite);
      var t' := Settled(w, t, i);
      var v := TurnVisits(w, st, i, evOpen, evRead, evWrite);
      TurnsShrink(w, st, i, evOpen, evRead, evWrite);
      SettledTells(w, st, i, v, evOpen, evRead, evWrite, t);
      IdsBehind(w, st, i, v, t'.st);
      IdsAhead(w, st, i, v, t'.st);
      vs := [v];
      if t.error || HoldsUp(t, i) {
        ToldStops(w, st, i, v, t'.st, evOpen, evRead, evWrite);
      } else {
        var next := if t.remove then i else i + 1;
        var rest := OpenPhaseTells(w, t'.st, next, evOpen, t'.evRead, t'.evWrite);
        var (st', error) := OpenPhase(w, t'.st, next, evOpen, t'.evRead, t'.evWrite);
        vs := [v] + rest;
        ToldGoesOn(w, st, i, v, rest, t'.st, next, st', evOpen, evRead, evWrite, error);
      }
    }
  }

  lemma ToldStops(w: World, st: State, i: nat, v: Visit, mid: State, evOpen: bool, evRead: bool, evWrite: bool)
    requires i < |st.streams| && Numbered(st) && Numbered(mid)
    requires Behind(w, st, i, v, mid) && Logged(v, st, mid, i) && Stops(w, v)
    requires Rightly(w, v, st.streams[i].isOpen, evOpen, evRead, evWrite)
    ensures Told(w, st, i, evOpen, evRead, evWrite, [v], mid, Heard(w, v.from, v.Upto(), Error))
  {
    var evR, evW := (evRead && !ReadWaits(w, v)) || Stocks(w, v), evWrite && !WriteWaits(w, v);
    NoVisit(w, mid, |mid.streams|, evOpen, evR, evW);
    ToldJoin(w, st, i, v, [], mid, |mid.streams|, mid, evOpen, evRead, evWrite, false);
    IdsAhead(w, st, i, v, mid);
    hide Heard, Stops, Logged, Numbered, Stocks, ReadWaits, WriteWaits, GetsEvents, LeavesChain, LogOf, Behind;
    hide GoesAlong, Rightly;
    assert [v] + [] == [v];
    var ids := Ids(st.streams[i + 1..]) + NewIds(st.nextId, mid.nextId - st.nextId);
    AlongOne(w, v, ids);
    ConcatAssoc([v.id], Ids(st.streams[i + 1..]), NewIds(st.nextId, mid.nextId - st.nextId));
  }

  lemma ToldGoesOn(w: World, st: State, i: nat, v: Visit, vs: seq<Visit>, mid: State, next: nat, st': State,
                   evOpen: bool, evRead: bool, evWrite: bool, error: bool)
    requires i < |st.streams| && next <= |mid.streams| && Numbered(st)
    requires Behind(w, st, i, v, mid) && Logged(v, st, mid, i) && !Stops(w, v)
    requires next == if Heard(w, v.from, v.Upto(), End) then i else i + 1
    requires Rightly(w, v, st.streams[i].isOpen, evOpen, evRead, evWrite)
    requires Told(w, mid, next, evOpen, (evRead && !ReadWaits(w, v)) || Stocks(w, v), evWrite && !WriteWaits(w, v), vs,
                  st', error)
    ensures Told(w, st, i, evOpen, evRead, evWrite, [v] + vs, st', error)
  {
    hide Heard, Stops, Logged, Numbered, Stocks, ReadWaits, WriteWaits, GetsEvents, LeavesChain, LogOf, Behind;
    hide GoesAlong, Rightly, PhaseAfter, Ids, NewIds;
    var evR, evW := (evRead && !ReadWaits(w, v)) || Stocks(w, v), evWrite && !WriteWaits(w, v);
    VisitsAlong(w, mid, next, evOpen, evR, evW, vs, st', error);
    OthersAhead(w, st, i, v, vs, mid, st'.nextId - mid.nextId);
    ToldJoin(w, st, i, v, vs, mid, next, st', evOpen, evRead, evWrite, error);
    IdsAhead(w, st, i, v, mid);
    var m, n := mid.nextId - st.nextId, st'.nextId - mid.nextId;
    NewIdsJoin(st.nextId, m, n);
    AlongAll(w, v, vs, Ids(mid.streams[next..]), Ids(st.streams[i + 1..]), NewIds(st.nextId, m), NewIds(mid.nextId, n),
             error);
  }

  lemma AlongAll(w: World, v: Visit, vs: seq<Visit>, ahead: seq<nat>, front: seq<nat>, a: seq<nat>, b: seq<nat>,
                 error: bool)
    requires ahead == front + a && GoesAlong(w, vs, ahead + b, error) && !Stops(w, v)
    ensures GoesAlong(w, [v] + vs, [v.id] + front + (a + b), error)
  {
    hide Stops, GoesAlong;
    AlongJoin(w, v, vs, ahead + b, error);
    assert [v.id] + (front + a + b) == [v.id] + front + (a + b);
  }

  lemma VisitsAlong(w: World, st: State, i: nat, evOpen: bool, evRead: bool, evWrite: bool, vs: seq<Visit>, st': State,
                    error: bool)
    requires i <= |st.streams| && Told(w, st, i, evOpen, evRead, evWrite, vs, st', error)
    ensures st.nextId <= st'.nextId
    ensures VisitIds(vs) <= Ids(st.streams[i..]) + NewIds(st.nextId, st'.nextId - st.nextId)
    ensures GoesAlong(w, vs, Ids(st.streams[i..]) + NewIds(st.nextId, st'.nextId - st.nextId), error)
  {
    hide GetsEvents, LeavesChain, LogOf, Stops;
  }

  // Closing

  lemma SentNumbered(w: World, st: State, i: nat, e: Event)
    requires i < |st.streams| && Numbered(st)
    ensures Numbered(Sent(w, st, i, e))
  {
    var isOpen := st.streams[i].isOpen || (w.opens(st.clock) && e != OnClosing);
    TouchedIds(st, i, isOpen, Appended(w, st));
    assert st.streams[i := st.streams[i].(isOpen := st.streams[i].isOpen)] == st.streams;
    var st' := Sent(w, st, i, e);
    assert st'.streams == Touched(st, i, isOpen, Appended(w, st));
    assert forall k | 0 <= k < |st'.streams| :: st'.streams[k].id == Ids(st'.streams)[k];
    hide Distinct;
  }

  lemma FrontNumbered(st: State, n: nat)
    requires Numbered(st) && n <= |st.streams|
    ensures Numbered(st.(streams := st.streams[..n]))
  {
    assert Ids(st.streams[..n]) == Ids(st.streams)[..n];
  }

  /** The answer that ends a close sequence. */
  function LastAnswer(closure: Closure): Condition
    requires closure != Emptied
  {
    match closure
    case Suspended => Wait
    case Cancelled => End
    case Failed => Error
  }

  /** All events of the close sequence are answered with Ok or Close, but for the last one if streams are left. */
  ghost predicate ClosesBy(w: World, st: State, st': State, closure: Closure) {
    && st.log <= st'.log && |st'.log| - |st.log| == st'.clock - st.clock
    && (forall k | |st.log| <= k < |st'.log| :: st'.log[k].event == OnClosing)
    && (closure == Emptied <==> st'.streams == [])
    && st'.phase == (if closure == Cancelled then Connected
                     else if Shuts(w, st.clock, st'.clock) then Closed
                     else st.phase)
    && var last := if closure == Emptied then st'.clock else st'.clock - 1;
       && st.clock <= last && (forall t: nat | st.clock <= t < last :: w.answer(t) == Ok || w.answer(t) == Close)
       && (closure != Emptied ==> w.answer(last) == LastAnswer(closure))
  }

  /** The close sequence ends by the first answer that is neither Ok nor Close, and that answer says how. */
  lemma {:induction false} ClosePhaseTells(w: World, st: State)
    requires Numbered(st)
    ensures var (st', closure) := ClosePhase(w, st);
            ClosesBy(w, st, st', closure) && Numbered(st')
    decreases st.budget, |st.streams|
  {
    hide Numbered, Sent, Shuts, ClosePhase;
    ClosePhaseStep(w, st);
    NothingHeard(w, st.clock);
    if st.streams != [] {
      var n := |st.streams|;
      var st1 := Sent(w, st, n - 1, OnClosing);
      SentGrows(w, st, n - 1, OnClosing);
      SentNumbered(w, st, n - 1, OnClosing);
      SentCloses(w, st);
      AnyPhaseNumbered(st1);
      HeardOneMore(w, st.clock, st.clock);
      var c := w.answer(st.clock);
      if c == Ok || c == Close {
        var st2 := st1.(streams := st1.streams[..|st1.streams| - 1]);
        FrontNumbered(st1, |st1.streams| - 1);
        ClosePhaseTells(w, st2);
        var (st', closure) := ClosePhase(w, st2);
        HeardJoin(w, st.clock, st2.clock, st'.clock, Ok);
        ClosesMore(w, st, st2, st', closure);
      }
    }
  }

  lemma AnyPhaseNumbered(st: State)
    requires Numbered(st)
    ensures Numbered(st.(phase := Connected))
  {
  }

  lemma SentCloses(w: World, st: State)
    requires st.streams != []
    ensures var st1 := Sent(w, st, |st.streams| - 1, OnClosing);
            && st1.log == st.log + [Delivery(OnClosing, |st.streams| - 1, st.streams)] && st1.clock == st.clock + 1
            && st1.phase == (if w.shuts(st.clock) then Closed else st.phase) && st1.streams != []
  {
  }

  lemma ClosesMore(w: World, st: State, mid: State, st': State, closure: Closure)
    requires ClosesBy(w, mid, st', closure) && mid.clock == st.clock + 1 && |mid.log| == |st.log| + 1
    requires st.log <= mid.log && mid.log[|st.log|].event == OnClosing
    requires mid.phase == if w.shuts(st.clock) then Closed else st.phase
    requires w.answer(st.clock) == Ok || w.answer(st.clock) == Close
    requires Shuts(w, st.clock, st'.clock) <==> w.shuts(st.clock) || Shuts(w, mid.clock, st'.clock)
    ensures ClosesBy(w, st, st', closure)
  {
    hide Shuts;
    assert st.log == st'.log[..|st.log|] by {
      assert mid.log == st'.log[..|mid.log|];
    }
    assert st'.log[|st.log|] == mid.log[|st.log|];
  }

  // Passes

  /** The descriptor is to be removed exactly if an event was answered with Error or no stream is left. */
  ghost predicate RemovedFor(w: World, st: State, st': State, outcome: Outcome) {
    outcome == Remove <==> Heard(w, st.clock, st'.clock, Error) || st'.streams == []
  }

  /**
   A pass says that the descriptor is to be removed exactly if an event was answered with Error or no stream is left;
   otherwise it asks for another one exactly if its last event was a Closing that was answered with End.
   */
  lemma PassTells(w: World, st: State, evOpen: bool, evRead: bool, evWrite: bool)
    requires Numbered(st)
    ensures var (st', outcome) := Pass(w, st, evOpen, evRead, evWrite);
            && Numbered(st') && st.clock <= st'.clock
            && st.log <= st'.log && |st'.log| - |st.log| == st'.clock - st.clock
            && RemovedFor(w, st, st', outcome)
            && (outcome == Again <==>
                  && outcome != Remove && st'.clock > st.clock && w.answer(st'.clock - 1) == End
                  && st'.log[|st'.log| - 1].event == OnClosing)
            && (outcome == Again ==> st'.phase == Connected)
  {
    hide OpenPhase, ClosePhase, Numbered, Heard, Shuts, GetsEvents, LeavesChain;
    var (st1, error) := OpenPhase(w, st, 0, evOpen, evRead, evWrite);
    var vs := OpenPhaseTells(w, st, 0, evOpen, evRead, evWrite);
    ErrorIsLast(w, vs, st, st1, Ids(st.streams[0..]) + NewIds(st.nextId, st1.nextId - st.nextId), error);
    ClosePhaseTells(w, st1);
    var (st2, closure) := ClosePhase(w, st1);
    ClosedWithout(w, st1, st2, closure);
    HeardJoin(w, st.clock, st1.clock, st2.clock, Error);
    NoClosing(vs, st, st1);
    assert st1.phase == Closing && !error ==> st.log <= st2.log;
  }

  /** The error of an open sequence is one that was answered. */
  lemma ErrorIsLast(w: World, vs: seq<Visit>, st: State, st': State, ids: seq<nat>, error: bool)
    requires LogOf(vs, st, st') && GoesAlong(w, vs, ids, error)
    ensures st.clock <= st'.clock && (error <==> Heard(w, st.clock, st'.clock, Error))
  {
    if |vs| > 0 {
      WithinVisits(vs, st.clock, st'.clock, |vs| - 1);
    }
    if Heard(w, st.clock, st'.clock, Error) {
      var t: nat :| st.clock <= t < st'.clock && w.answer(t) == Error;
      var j := VisitAt(vs, st.clock, st'.clock, t);
      assert Heard(w, vs[j].from, vs[j].Upto(), Error);
      StopsAtError(w, vs[j]);
    }
  }

  lemma {:induction false} WithinVisits(vs: seq<Visit>, from: nat, upto: nat, j: nat)
    requires Consecutive(vs, from, upto) && j < |vs|
    ensures from <= vs[j].from && vs[j].Upto() <= upto
    decreases |vs|
  {
    if j > 0 {
      WithinVisits(vs[1..], vs[0].Upto(), upto, j - 1);
    } else {
      LaterVisits(vs[1..], vs[0].Upto(), upto);
    }
  }

  lemma {:induction false} LaterVisits(vs: seq<Visit>, from: nat, upto: nat)
    requires Consecutive(vs, from, upto)
    ensures from <= upto
    decreases |vs|
  {
    if vs != [] {
      LaterVisits(vs[1..], vs[0].Upto(), upto);
    }
  }

  lemma {:induction false} VisitAt(vs: seq<Visit>, from: nat, upto: nat, t: nat) returns (j: nat)
    requires Consecutive(vs, from, upto) && from <= t < upto
    ensures j < |vs| && During(vs[j], t)
    decreases |vs|
  {
    if t < vs[0].Upto() {
      j := 0;
    } else {
      var k := VisitAt(vs[1..], vs[0].Upto(), upto, t);
      j := k + 1;
    }
  }

  lemma ClosedWithout(w: World, st: State, st': State, closure: Closure)
    requires ClosesBy(w, st, st', closure)
    ensures st.clock <= st'.clock && st.log <= st'.log && |st'.log| - |st.log| == st'.clock - st.clock
    ensures closure == Failed <==> Heard(w, st.clock, st'.clock, Error)
    ensures closure == Cancelled <==>
              st'.streams != [] && |st'.log| > |st.log| && w.answer(st'.clock - 1) == End
    ensures |st'.log| > |st.log| ==> st'.log[|st'.log| - 1].event == OnClosing
    ensures closure != Emptied ==> |st'.log| > |st.log|
    ensures closure == Cancelled ==> st'.phase == Connected
  {
    if closure == Failed {
      assert w.answer(st'.clock - 1) == Error;
    }
  }

  /** The open sequence sends no Closing events. */
  lemma NoClosing(vs: seq<Visit>, st: State, st': State)
    requires LogOf(vs, st, st')
    ensures |st'.log| > |st.log| ==> st'.log[|st'.log| - 1].event != OnClosing
  {
    if |st'.log| > |st.log| {
      var t := st'.clock - 1;
      var j := VisitAt(vs, st.clock, st'.clock, t);
      assert Entry(st'.log, t - st.clock + |st.log|, vs[j], t);
    }
  }

  /** The same for all the passes of a call. */
  lemma {:induction false} PassesTell(w: World, st: State, evOpen: bool, evRead: bool, evWrite: bool, n: nat)
    requires Numbered(st)
    ensures var (st', outcome) := FirstPasses(w, st, evOpen, evRead, evWrite, n);
            && Numbered(st') && st.clock <= st'.clock && st.log <= st'.log
            && (outcome != Again ==> RemovedFor(w, st, st', outcome))
    decreases n
  {
    hide Pass, Numbered, Heard;
    if n > 0 {
      PassTells(w, st, evOpen, evRead, evWrite);
      var (st1, outcome) := Pass(w, st, evOpen, evRead, evWrite);
      if outcome == Again {
        PassesTell(w, st1, evOpen, false, false, n - 1);
        var st' := FirstPasses(w, st1, evOpen, false, false, n - 1).0;
        HeardJoin(w, st.clock, st1.clock, st'.clock, Error);
      }
    }
  }

  /** The passes of a call begin with an open, read and write sequence of the first one. */
  lemma PassesBegin(w: World, st: State, evOpen: bool, evRead: bool, evWrite: bool, n: nat)
    requires Numbered(st) && n > 0
    ensures OpenPhase(w, st, 0, evOpen, evRead, evWrite).0.log <=
            FirstPasses(w, st, evOpen, evRead, evWrite, n).0.log
  {
    hide OpenPhase, ClosePhase, Numbered, Told;
    var vs := OpenPhaseTells(w, st, 0, evOpen, evRead, evWrite);
    var (st1, error) := OpenPhase(w, st, 0, evOpen, evRead, evWrite);
    ClosePhaseTells(w, st1);
    ClosedWithout(w, st1, ClosePhase(w, st1).0, ClosePhase(w, st1).1);
    PassTells(w, st, evOpen, evRead, evWrite);
    PassesTell(w, Pass(w, st, evOpen, evRead, evWrite).0, evOpen, false, false, n - 1);
  }
}
