/**
 What one stream's turn in the open, read and write sequence of sconex/Descriptor.cpp comes to, told by the events that
 are sent and by their answers.
 */
module DispatchVisits {
  import opened Bytes
  import opened Dispatching

  // Answers, by the times of the events

  /** Some event from one time to the other, which is not included, is answered with c. */
  ghost predicate Heard(w: World, from: nat, upto: nat, c: Condition) {
    exists t: nat :: from <= t < upto && w.answer(t) == c
  }

  /** Some handler then completes the opening of its stream. */
  ghost predicate Opens(w: World, from: nat, upto: nat) {
    exists t: nat :: from <= t < upto && w.opens(t)
  }

  /** Some handler then closes the descriptor. */
  ghost predicate Shuts(w: World, from: nat, upto: nat) {
    exists t: nat :: from <= t < upto && w.shuts(t)
  }

  /** How many streams the handlers then want to append. */
  function Appends(w: World, from: nat, upto: nat): nat
    decreases upto - from
  {
    if from >= upto then 0 else Appends(w, from, upto - 1) + w.appends(upto - 1)
  }

  /** One stream's turn, from one time to the other; opening, reading and writing tell which events it gets. */
  datatype Visit = Visit(id: nat, from: nat, opening: bool, reading: bool, writing: bool) {
    function ReadTime(): nat {
      from + if opening then 1 else 0
    }

    function WriteTime(): nat {
      ReadTime() + if reading then 1 else 0
    }

    function Upto(): nat {
      WriteTime() + if writing then 1 else 0
    }
  }

  /** The events of the visit are what the log holds for these times, all of them sent to the visited stream. */
  predicate Logged(v: Visit, before: State, after: State, i: nat) {
    && before.clock == v.from && after.clock == v.Upto()
    && |after.log| == |before.log| + (v.Upto() - v.from) && before.log == after.log[..|before.log|]
    && forall k | |before.log| <= k < |after.log| ::
         var d := after.log[k];
         && d.pos == i && i < |d.chain| && d.chain[i].id == v.id
         && var t := v.from + (k - |before.log|);
            d.event == if t < v.ReadTime() then OnOpening else if t < v.WriteTime() then OnReadable else OnWriteable
  }

  /** Whether the stream's opening is complete behind the visit. */
  ghost predicate OpenAfter(w: World, v: Visit, wasOpen: bool) {
    || wasOpen || Opens(w, v.from, v.Upto())
    || (v.opening && (w.answer(v.from) == Ok || w.answer(v.from) == Close))
  }

  /** The chain with stream i open or not, and with the streams that were appended. */
  function Touched(st: State, i: nat, isOpen: bool, n: nat): seq<Stream>
    requires i < |st.streams|
  {
    st.streams[i := st.streams[i].(isOpen := isOpen)] + NewStreams(st.nextId, n)
  }

  /** The state behind the events of the visit; whatever else becomes of the stream is still to be decided. */
  ghost predicate Visited(w: World, st: State, i: nat, v: Visit, st': State) {
    && i < |st.streams| && v.id == st.streams[i].id && Logged(v, st, st', i)
    && st'.phase == (if Shuts(w, v.from, v.Upto()) then Closed else st.phase)
    && var n := Min(Appends(w, v.from, v.Upto()), st.budget);
       && st'.budget == st.budget - n && st'.nextId == st.nextId + n
       && st'.streams == Touched(st, i, OpenAfter(w, v, st.streams[i].isOpen), n)
  }

  /** The locals of dispatch in the turn tell what has been answered so far. */
  ghost predicate Tells(w: World, v: Visit, evRead: bool, evWrite: bool, t: Turn) {
    && (t.remove <==> Heard(w, v.from, v.Upto(), End))
    && (t.error <==> Heard(w, v.from, v.Upto(), Error))
    && (t.close <==> Heard(w, v.from, v.Upto(), Close))
    && (t.openWait <==> v.opening && w.answer(v.from) == Wait)
    && (t.evRead <==> evRead && !(v.reading && w.answer(v.ReadTime()) == Wait))
    && (t.evWrite <==> evWrite && !(v.writing && w.answer(v.WriteTime()) == Wait))
  }

  lemma HeardOneMore(w: World, from: nat, upto: nat)
    requires from <= upto
    ensures forall c :: Heard(w, from, upto + 1, c) <==> Heard(w, from, upto, c) || w.answer(upto) == c
    ensures Opens(w, from, upto + 1) <==> Opens(w, from, upto) || w.opens(upto)
    ensures Shuts(w, from, upto + 1) <==> Shuts(w, from, upto) || w.shuts(upto)
    ensures Appends(w, from, upto + 1) == Appends(w, from, upto) + w.appends(upto)
  {
    forall c
      ensures Heard(w, from, upto + 1, c) <==> Heard(w, from, upto, c) || w.answer(upto) == c
    {
    }
  }

  lemma NothingHeard(w: World, from: nat)
    ensures forall c :: !Heard(w, from, from, c)
    ensures !Opens(w, from, from) && !Shuts(w, from, from) && Appends(w, from, from) == 0
  {
  }

  lemma MoreStreams(id: nat, m: nat, n: nat)
    ensures NewStreams(id, m) + NewStreams(id + m, n) == NewStreams(id, m + n)
  {
  }

  /** One more event of a visit: v is the visit with it. */
  predicate OneMore(u: Visit, v: Visit, e: Event) {
    && u.id == v.id && u.from == v.from && v.Upto() == u.Upto() + 1
    && match e
       case OnOpening => !u.opening && !u.reading && !u.writing && v == u.(opening := true)
       case OnReadable => !u.reading && !u.writing && v == u.(reading := true)
       case OnWriteable => !u.writing && v == u.(writing := true)
       case OnClosing => false
  }

  lemma SentLogs(w: World, st: State, i: nat, u: Visit, st1: State, e: Event, v: Visit)
    requires Visited(w, st, i, u, st1) && OneMore(u, v, e)
    ensures i < |st1.streams| && Logged(v, st, Sent(w, st1, i, e), i)
  {
  }

  /** Sending an event in a visit, before its answer has been looked at. */
  lemma SentVisits(w: World, st: State, i: nat, u: Visit, st1: State, e: Event, v: Visit)
    requires Visited(w, st, i, u, st1) && OneMore(u, v, e)
    ensures i < |st1.streams|
    ensures var (st2, n) := (Sent(w, st1, i, e), Min(Appends(w, v.from, v.Upto()), st.budget));
            var isOpen := OpenAfter(w, u, st.streams[i].isOpen) || w.opens(u.Upto());
            && st2.budget == st.budget - n && st2.nextId == st.nextId + n
            && st2.streams == Touched(st, i, isOpen, n)
            && st2.phase == if Shuts(w, v.from, v.Upto()) then Closed else st.phase
  {
    SameId(w, st, i, u, st1);
    hide Logged, OneMore, OpenAfter, Shuts, Opens, Appends, Touched;
    OneMoreMeans(u, v, e);
    HeardOneMore(w, u.from, u.Upto());
    var m, a := Min(Appends(w, u.from, u.Upto()), st.budget), Appended(w, st1);
    var isOpen := OpenAfter(w, u, st.streams[i].isOpen);
    TouchedTwice(st, i, isOpen, m, a);
  }

  lemma OneMoreMeans(u: Visit, v: Visit, e: Event)
    requires OneMore(u, v, e)
    ensures e != OnClosing && v.from == u.from && v.Upto() == u.Upto() + 1 && u.from <= u.Upto()
  {
  }

  lemma SameId(w: World, st: State, i: nat, u: Visit, st1: State)
    requires Visited(w, st, i, u, st1)
    ensures i < |st1.streams| && st1.streams[i].id == u.id && st1.clock == u.Upto()
  {
  }

  /** Behind Opening, an event leaves the stream as its handler does. */
  lemma VisitGoesOn(w: World, st: State, i: nat, u: Visit, st1: State, e: Event, v: Visit)
    requires Visited(w, st, i, u, st1) && OneMore(u, v, e) && e != OnOpening
    ensures i < |st1.streams| && Visited(w, st, i, v, Sent(w, st1, i, e))
  {
    SentVisits(w, st, i, u, st1, e, v);
    SentLogs(w, st, i, u, st1, e, v);
    HeardOneMore(w, u.from, u.Upto());
    hide Sent, Heard, Opens, Shuts, Appends, Logged, Touched;
  }

  lemma TouchedTwice(st: State, i: nat, isOpen: bool, m: nat, n: nat)
    requires i < |st.streams|
    ensures |Touched(st, i, isOpen, m)| == |st.streams| + m
    ensures WithOpened(Touched(st, i, isOpen, m), i) == Touched(st, i, true, m)
    ensures Touched(st, i, isOpen, m) + NewStreams(st.nextId + m, n) == Touched(st, i, isOpen, m + n)
    ensures Touched(st, i, true, m) + NewStreams(st.nextId + m, n) == Touched(st, i, true, m + n)
    ensures Touched(st, i, isOpen, m)[i].id == st.streams[i].id
  {
    MoreStreams(st.nextId, m, n);
    var a, b := NewStreams(st.nextId, m), NewStreams(st.nextId + m, n);
    ConcatAssoc(st.streams[i := st.streams[i].(isOpen := isOpen)], a, b);
    ConcatAssoc(st.streams[i := st.streams[i].(isOpen := true)], a, b);
  }

  lemma VisitBegins(w: World, st: State, i: nat, evRead: bool, evWrite: bool)
    requires i < |st.streams|
    ensures var v := Visit(st.streams[i].id, st.clock, false, false, false);
            && Visited(w, st, i, v, st)
            && Tells(w, v, evRead, evWrite, Turn(st, evRead, evWrite, false, false, false, false))
  {
    NothingHeard(w, st.clock);
    hide Heard, Opens, Shuts, Appends;
    assert st.streams[i := st.streams[i].(isOpen := st.streams[i].isOpen)] == st.streams;
    assert st.streams + NewStreams(st.nextId, 0) == st.streams;
  }

  /** Opening is sent if the call sends it and it is not complete. */
  lemma OpenTurnVisits(w: World, st: State, i: nat, evOpen: bool, evRead: bool, evWrite: bool)
    returns (v: Visit)
    requires i < |st.streams|
    ensures var t := OpenTurn(w, Turn(st, evRead, evWrite, false, false, false, false), i, evOpen);
            Visited(w, st, i, v, t.st) && Tells(w, v, evRead, evWrite, t)
    ensures v == Visit(st.streams[i].id, st.clock, evOpen && !st.streams[i].isOpen, false, false)
  {
    var t0 := Turn(st, evRead, evWrite, false, false, false, false);
    var u := Visit(st.streams[i].id, st.clock, false, false, false);
    VisitBegins(w, st, i, evRead, evWrite);
    v := u;
    if evOpen && !st.streams[i].isOpen {
      v := u.(opening := true);
      SentVisits(w, st, i, u, st, OnOpening, v);
      SentLogs(w, st, i, u, st, OnOpening, v);
      HeardOneMore(w, u.from, u.Upto());
      NothingHeard(w, st.clock);
      hide Sent, Heard, Opens, Shuts, Appends;
      var st2 := Sent(w, st, i, OnOpening);
      var n := Min(Appends(w, v.from, v.Upto()), st.budget);
      TouchedTwice(st, i, w.opens(u.Upto()), n, 0);
      LogIsFree(v, st, st2, st2.(streams := WithOpened(st2.streams, i)), i);
      hide Logged;
    }
  }

  lemma LogIsFree(v: Visit, before: State, a: State, b: State, i: nat)
    requires Logged(v, before, a, i) && a.log == b.log && a.clock == b.clock
    ensures Logged(v, before, b, i)
  {
  }

  lemma HeardAtOpening(w: World, u: Visit)
    requires !u.reading && !u.writing
    ensures forall c :: Heard(w, u.from, u.Upto(), c) <==> u.opening && w.answer(u.from) == c
  {
    forall c
      ensures Heard(w, u.from, u.Upto(), c) <==> u.opening && w.answer(u.from) == c
    {
      if u.opening && w.answer(u.from) == c {
        assert u.from <= u.from < u.Upto();
      }
    }
  }

  lemma ToldOneMore(w: World, u: Visit, v: Visit, t: Turn)
    requires v.from == u.from <= u.Upto() && v.Upto() == u.Upto() + 1
    requires t.remove <==> Heard(w, u.from, u.Upto(), End)
    requires t.error <==> Heard(w, u.from, u.Upto(), Error)
    requires t.close <==> Heard(w, u.from, u.Upto(), Close)
    ensures var c := w.answer(u.Upto());
            && (Heard(w, v.from, v.Upto(), End) <==> t.remove || c == End)
            && (Heard(w, v.from, v.Upto(), Error) <==> t.error || c == Error)
            && (Heard(w, v.from, v.Upto(), Close) <==> t.close || c == Close)
  {
    HeardOneMore(w, u.from, u.Upto());
  }

  /** Readable is sent if it is passed on and enabled, unless Opening was answered with End or Error. */
  lemma ReadTurnVisits(w: World, st: State, i: nat, u: Visit, evRead: bool, evWrite: bool, t: Turn)
    returns (v: Visit)
    requires Visited(w, st, i, u, t.st) && Tells(w, u, evRead, evWrite, t) && !u.reading && !u.writing
    ensures i < |t.st.streams|
    ensures var t' := ReadTurn(w, t, i);
            Visited(w, st, i, v, t'.st) && Tells(w, v, evRead, evWrite, t')
    ensures v == u.(reading := evRead && w.readable(u.ReadTime(), u.id) &&
                               !(u.opening && (w.answer(u.from) == End || w.answer(u.from) == Error)))
  {
    HeardAtOpening(w, u);
    SameId(w, st, i, u, t.st);
    hide Sent, Heard, Visited;
    v := u;
    if t.evRead && w.readable(u.ReadTime(), u.id) && !t.remove && !t.error {
      v := u.(reading := true);
      VisitGoesOn(w, st, i, u, t.st, OnReadable, v);
      ToldOneMore(w, u, v, t);
    }
  }

  lemma TellsMeans(w: World, v: Visit, evRead: bool, evWrite: bool, t: Turn)
    requires Tells(w, v, evRead, evWrite, t)
    ensures t.remove <==> Heard(w, v.from, v.Upto(), End)
    ensures t.error <==> Heard(w, v.from, v.Upto(), Error)
    ensures t.close <==> Heard(w, v.from, v.Upto(), Close)
    ensures !v.writing ==> (t.evWrite <==> evWrite)
  {
  }

  lemma WriteTells(w: World, u: Visit, evRead: bool, evWrite: bool, t: Turn, i: nat)
    requires i < |t.st.streams| && t.st.clock == u.Upto() && t.st.streams[i].id == u.id
    requires Tells(w, u, evRead, evWrite, t) && !u.writing
    requires t.evWrite && w.writeable(u.WriteTime(), u.id) && !t.remove && !t.error
    ensures WriteTurn(w, t, i).st == Sent(w, t.st, i, OnWriteable)
    ensures Tells(w, u.(writing := true), evRead, evWrite, WriteTurn(w, t, i))
  {
    ToldOneMore(w, u, u.(writing := true), t);
    hide Sent, Heard;
  }

  /** Writeable is sent if it is passed on and enabled, unless another event was answered with End or Error. */
  lemma WriteTurnVisits(w: World, st: State, i: nat, u: Visit, evRead: bool, evWrite: bool, t: Turn)
    returns (v: Visit)
    requires Visited(w, st, i, u, t.st) && Tells(w, u, evRead, evWrite, t) && !u.writing
    ensures i < |t.st.streams|
    ensures var t' := WriteTurn(w, t, i);
            Visited(w, st, i, v, t'.st) && Tells(w, v, evRead, evWrite, t')
    ensures v == u.(writing := evWrite && w.writeable(u.WriteTime(), u.id) &&
                               !Heard(w, u.from, u.WriteTime(), End) && !Heard(w, u.from, u.WriteTime(), Error))
  {
    SameId(w, st, i, u, t.st);
    hide Sent, Heard, Visited, Tells;
    TellsMeans(w, u, evRead, evWrite, t);
    v := u;
    if t.evWrite && w.writeable(u.WriteTime(), u.id) && !t.remove && !t.error {
      v := u.(writing := true);
      VisitGoesOn(w, st, i, u, t.st, OnWriteable, v);
      ToldOneMore(w, u, v, t);
      WriteTells(w, u, evRead, evWrite, t, i);
    }
  }
}
