/**
 Whole runs of a stream of http/WebSocket.cpp: reads, writes and events in any order, in pieces of any size.
 */
module WebSocketSessions {
  import opened Bytes
  import opened Frames
  import opened WebSocketWriting
  import opened WebSocketReading

  datatype Event =
    | Reading(n: nat, fills: (Fill, Fill))
    | Readable(fill: Fill)
    | Writing(data: Bytes, acc: Accepts)
    | Writeable(accept: nat)

  /** The length of a write fits into the 32 bits that build_frame takes. */
  predicate Fits(e: Event) {
    e.Writing? ==> |e.data| < Pow256(4)
  }

  /** The stream, what it has handed out, the writes it has taken, and how many bytes of them it has lost. */
  datatype Trace = Trace(st: State, handed: Bytes, texts: seq<Bytes>, lost: nat)

  lemma FittingIsValid(data: Bytes)
    requires |data| < Pow256(4)
    ensures TextFrame(data).Valid()
  {
  }

  function Step(t: Trace, e: Event): Trace
    requires Valid(t.st) && Fits(e)
  {
    match e
    case Reading(n, fills) =>
      var (st, c, out) := ReadBytes(t.st, n, fills);
      t.(st := st, handed := t.handed + out)
    case Readable(fill) => if t.st.phase.InHeader? then t.(st := FrameRead(t.st, fill).0) else t
    case Writing(data, acc) =>
      FittingIsValid(data);
      var (w, na) := Written(t.st.w, data, acc);
      t.(st := t.st.(w := w), texts := if |t.st.w.buf| <= acc.before then t.texts + [data] else t.texts,
         lost := t.lost + Lost(t.st.w, data, acc))
    case Writeable(accept) => t.(st := t.st.(w := Drained(t.st.w, accept)))
  }

  lemma StepIsValid(t: Trace, e: Event)
    requires Valid(t.st) && Fits(e)
    ensures Valid(Step(t, e).st)
  {
    hide FrameRead, Written, Sound, Masked;
    match e {
      case Reading(n, fills) => FrameReadIsValid(t.st, fills.0);
      case Readable(fill) => FrameReadIsValid(t.st, fill);
      case Writing(data, acc) =>
        FittingIsValid(data);
        WriteOut(t.st.w, data, acc);
      case Writeable(accept) => DrainIsSound(t.st.w, accept);
    }
  }

  lemma DrainIsSound(w: Writer, accept: nat)
    requires Sound(w)
    ensures Sound(Drained(w, accept)) && Out(Drained(w, accept)) == Out(w) && Drained(w, accept).sent == w.sent
  {
  }

  function Run(t: Trace, events: seq<Event>): Trace
    requires Valid(t.st) && forall i | 0 <= i < |events| :: Fits(events[i])
    decreases |events|
  {
    if events == [] then t
    else
      StepIsValid(t, events[0]);
      Run(Step(t, events[0]), events[1..])
  }

  /** The payloads of the text frames among fs. */
  function Texts(fs: seq<Frame>): seq<Bytes> {
    if fs == [] then [] else (if fs[0].opcode == TEXT then [fs[0].payload] else []) + Texts(fs[1..])
  }

  function Controls(fs: seq<Frame>): seq<Frame> {
    if fs == [] then [] else (if IsData(fs[0]) then [] else [fs[0]]) + Controls(fs[1..])
  }

  function Replies(fs: seq<Frame>): seq<Frame> {
    if fs == [] then [] else Reply(fs[0]) + Replies(fs[1..])
  }

  lemma {:induction false} TextsSnoc(fs: seq<Frame>, f: Frame)
    ensures Texts(fs + [f]) == Texts(fs) + (if f.opcode == TEXT then [f.payload] else [])
  {
    if fs == [] {
      assert fs + [f] == [f];
    } else {
      TextsSnoc(fs[1..], f);
      assert (fs + [f])[1..] == fs[1..] + [f];
    }
  }

  lemma {:induction false} ControlsSnoc(fs: seq<Frame>, f: Frame)
    ensures Controls(fs + [f]) == Controls(fs) + (if IsData(f) then [] else [f])
  {
    if fs == [] {
      assert fs + [f] == [f];
    } else {
      ControlsSnoc(fs[1..], f);
      assert (fs + [f])[1..] == fs[1..] + [f];
    }
  }

  /** What goes out: the frames sent, but for the bytes lost. */
  ghost predicate Sending(w: Writer, lost: nat) {
    && Sound(w) && |Out(w)| + lost == |Wire(w.sent)|
    && (lost == 0 ==> Out(w) == Wire(w.sent))
  }

  lemma WriteKeepsSending(w: Writer, lost: nat, data: Bytes, acc: Accepts)
    requires Sending(w, lost) && TextFrame(data).Valid()
    ensures var w' := Written(w, data, acc).0;
            && Sound(w') && Sending(w', lost + Lost(w, data, acc))
            && Texts(w'.sent) == Texts(w.sent) + (if |w.buf| <= acc.before then [data] else [])
            && Controls(w'.sent) == Controls(w.sent)
  {
    hide Written, FrameBytes, Lost, Wire, Sound;
    SoundMeans(w);
    WriteOut(w, data, acc);
    if |w.buf| <= acc.before {
      var f := TextFrame(data);
      var bytes := FrameBytes(f);
      WireSnoc(w.sent, f);
      TextsSnoc(w.sent, f);
      ControlsSnoc(w.sent, f);
      LostBehindHead(data, Lost(w, data, acc));
      assert bytes[..|bytes|] == bytes;
    } else {
      NothingLost(w, data, acc);
    }
  }

  lemma SoundMeans(w: Writer)
    requires Sound(w)
    ensures w.size >= 16 && forall i | 0 <= i < |w.sent| :: w.sent[i].Valid()
  {
  }

  lemma AnswerKeepsSending(w: Writer, lost: nat, f: Frame)
    requires Sending(w, lost) && |f.payload| <= 125 && !IsData(f)
    ensures var w' := Answered(w, f);
            && Sending(w', lost) && Texts(w'.sent) == Texts(w.sent)
            && Controls(w'.sent) == Controls(w.sent) + Reply(f)
  {
    hide Wire, Sound;
    if Reply(f) != [] {
      var r := Reply(f)[0];
      SoundMeans(w);
      ReplyIsSound(w, r.opcode, f.payload);
      WireSnoc(w.sent, r);
      TextsSnoc(w.sent, r);
      ControlsSnoc(w.sent, r);
      ConcatAssoc(w.wire, w.buf, FrameBytes(r));
      assert Out(Answered(w, f)) == Out(w) + FrameBytes(r);
    }
  }

  // Reading

  /** What has become of the frames fs: the first one may have been taken, and answered. */
  ghost predicate Advanced(w: Writer, w': Writer, fs: seq<Frame>, fs': seq<Frame>)
    requires Sound(w)
  {
    || (fs' == fs && w' == w)
    || (fs != [] && fs' == fs[1..]
        && if IsData(fs[0]) then w' == w else |fs[0].payload| <= 125 && w' == Answered(w, fs[0]))
  }

  lemma FrameReadTakes(st: State, fill: Fill, fs: seq<Frame>) returns (rem: Bytes, fs': seq<Frame>)
    requires Incoming(st, [], fs) && st.phase.InHeader?
    ensures var (st', c) := FrameRead(st, fill);
            && Incoming(st', rem, fs') && Advanced(st.w, st'.w, fs, fs')
            && rem + Data(fs') == Data(fs)
            && (fill.c == Ok ==> c == Ok || c == Wait)
  {
    hide Parsed, Filled, Wire, Answered, Sound;
    FilledKeeps(st, fill, [], fs);
    var st1 := Filled(st, fill);
    rem, fs' := [], fs;
    assert [] + Data(fs) == Data(fs);
    if fill.c == Ok {
      ParsedTakes(st1, fs);
      if Ready(st1.buf, fs) {
        PayloadFits(fs, st.format);
        rem, fs' := if IsData(fs[0]) then fs[0].payload else [], fs[1..];
      }
    }
  }

  lemma PayloadFits(fs: seq<Frame>, format: Format)
    requires fs != [] && AllAcceptable(fs, format)
    ensures !IsData(fs[0]) ==> |fs[0].payload| <= 125
  {
  }

  lemma ReadTakes(st: State, n: nat, fills: (Fill, Fill), rem: Bytes, fs: seq<Frame>)
    returns (rem': Bytes, fs': seq<Frame>)
    requires Incoming(st, rem, fs)
    ensures var (st', c, out) := ReadBytes(st, n, fills);
            && Incoming(st', rem', fs') && Advanced(st.w, st'.w, fs, fs')
            && out + (rem' + Data(fs')) == rem + Data(fs)
            && (fills.0.c == Ok && fills.1.c == Ok ==> c == Ok || c == Wait)
  {
    hide FrameRead, DataRead, Wire, Answered, Sound, Masked;
    var st1, c := st, Ok;
    rem', fs' := rem, fs;
    FrameReadIsValid(st, fills.0);
    if st.phase.InHeader? {
      assert rem + Data(fs) == Data(fs);
      rem', fs' := FrameReadTakes(st, fills.0, fs);
      st1, c := FrameRead(st, fills.0).0, FrameRead(st, fills.0).1;
    }
    if st1.phase.InData? {
      DataReadTakes(st1, n, fills.1, c, rem', fs');
      DataReadAnswers(st1, n, fills.1, c);
      var out := DataRead(st1, n, fills.1, c).2;
      assert rem' == out + rem'[|out|..];
      ConcatAssoc(out, rem'[|out|..], Data(fs'));
      rem' := rem'[|out|..];
    } else {
      assert [] + (rem' + Data(fs')) == rem' + Data(fs');
    }
  }

  lemma DataReadAnswers(st: State, n: nat, fill: Fill, c0: Condition)
    requires Valid(st) && st.phase.InData?
    ensures DataRead(st, n, fill, c0).1 == fill.c || DataRead(st, n, fill, c0).1 == c0
  {
  }

  // Whole runs

  /** rem and fs are what is still to be handed out and to be answered of the frames all. */
  ghost predicate Serving(t: Trace, all: seq<Frame>, rem: Bytes, fs: seq<Frame>) {
    && Incoming(t.st, rem, fs) && Sending(t.st.w, t.lost)
    && t.handed + (rem + Data(fs)) == Data(all)
    && Controls(t.st.w.sent) + Replies(fs) == Replies(all)
    && Texts(t.st.w.sent) == t.texts
  }

  lemma AdvancedKeeps(w: Writer, w': Writer, lost: nat, fs: seq<Frame>, fs': seq<Frame>)
    requires Sending(w, lost) && Advanced(w, w', fs, fs')
    ensures Sending(w', lost) && Texts(w'.sent) == Texts(w.sent)
    ensures Controls(w'.sent) + Replies(fs') == Controls(w.sent) + Replies(fs)
  {
    hide Sending, Answered, Sound, Controls, Texts;
    if fs != [] {
      assert Replies(fs) == Reply(fs[0]) + Replies(fs[1..]);
      if IsData(fs[0]) {
        assert Reply(fs[0]) == [];
      } else if |fs[0].payload| <= 125 {
        AnswerKeepsSending(w, lost, fs[0]);
        ConcatAssoc(Controls(w.sent), Reply(fs[0]), Replies(fs[1..]));
      }
    }
  }

  lemma StepKeepsServing(t: Trace, e: Event, all: seq<Frame>, rem: Bytes, fs: seq<Frame>)
    returns (rem': Bytes, fs': seq<Frame>)
    requires Serving(t, all, rem, fs) && Fits(e)
    ensures Serving(Step(t, e), all, rem', fs')
  {
    hide Incoming, Sending, ReadBytes, FrameRead, Written, Sound, Lost, Advanced, Controls, Texts, Replies, Data;
    IncomingMeans(t.st, rem, fs);
    rem', fs' := rem, fs;
    match e {
      case Reading(n, fills) =>
        rem', fs' := ReadTakes(t.st, n, fills, rem, fs);
        var (st', c, out) := ReadBytes(t.st, n, fills);
        AdvancedKeeps(t.st.w, st'.w, t.lost, fs, fs');
        ConcatAssoc(t.handed, out, rem' + Data(fs'));
      case Readable(fill) =>
        if t.st.phase.InHeader? {
          rem', fs' := FrameReadTakes(t.st, fill, fs);
          AdvancedKeeps(t.st.w, FrameRead(t.st, fill).0.w, t.lost, fs, fs');
          assert rem == [];
          assert rem + Data(fs) == Data(fs);
        }
      case Writing(data, acc) =>
        FittingIsValid(data);
        ServingIsSound(t, all, rem, fs);
        WriteKeepsSending(t.st.w, t.lost, data, acc);
        WriterIsFree(t.st, Written(t.st.w, data, acc).0, rem, fs);
        assert t.texts + [] == t.texts;
      case Writeable(accept) =>
        DrainIsSound(t.st.w, accept);
        DrainKeepsSending(t.st.w, t.lost, accept);
        WriterIsFree(t.st, Drained(t.st.w, accept), rem, fs);
    }
  }

  lemma IncomingMeans(st: State, rem: Bytes, fs: seq<Frame>)
    requires Incoming(st, rem, fs)
    ensures Valid(st) && (st.phase.InHeader? ==> rem == [])
  {
  }

  lemma ServingIsSound(t: Trace, all: seq<Frame>, rem: Bytes, fs: seq<Frame>)
    requires Serving(t, all, rem, fs)
    ensures Sound(t.st.w) && t.st.w.size >= 16
  {
  }

  lemma DrainKeepsSending(w: Writer, lost: nat, accept: nat)
    requires Sending(w, lost)
    ensures Sending(Drained(w, accept), lost)
  {
    hide Drained, Sound;
    DrainIsSound(w, accept);
  }

  lemma WriterIsFree(st: State, w: Writer, rem: Bytes, fs: seq<Frame>)
    requires Incoming(st, rem, fs) && Sound(w)
    ensures Incoming(st.(w := w), rem, fs)
  {
  }

  lemma {:induction false} RunKeepsServing(t: Trace, events: seq<Event>, all: seq<Frame>, rem: Bytes, fs: seq<Frame>)
    returns (rem': Bytes, fs': seq<Frame>)
    requires Serving(t, all, rem, fs) && forall i | 0 <= i < |events| :: Fits(events[i])
    ensures Serving(Run(t, events), all, rem', fs')
    decreases |events|
  {
    hide Serving, Step;
    rem', fs' := rem, fs;
    ServingIsValid(t, all, rem, fs);
    if events != [] {
      rem', fs' := StepKeepsServing(t, events[0], all, rem, fs);
      StepIsValid(t, events[0]);
      rem', fs' := RunKeepsServing(Step(t, events[0]), events[1..], all, rem', fs');
    }
  }

  lemma ServingIsValid(t: Trace, all: seq<Frame>, rem: Bytes, fs: seq<Frame>)
    requires Serving(t, all, rem, fs)
    ensures Valid(t.st)
  {
  }

  /** The stream as the handshake leaves it; format is what m_read_format happens to be. */
  function Start(frames: seq<Frame>, format: Format): Trace
    requires forall i | 0 <= i < |frames| :: frames[i].Valid()
  {
    Trace(State(InHeader, format, [], Wire(frames), UNUSED), [], [], 0)
  }

  lemma EmptyWire()
    ensures Wire([]) == []
  {
  }

  lemma StartServes(frames: seq<Frame>, format: Format)
    requires AllAcceptable(frames, format) && forall i | 0 <= i < |frames| :: frames[i].Valid()
    ensures Serving(Start(frames, format), frames, [], frames)
  {
    hide Wire;
    assert [] + Wire(frames) == Wire(frames);
    EmptyWire();
    assert [] + ([] + Data(frames)) == Data(frames);
    assert [] + Replies(frames) == Replies(frames);
  }

  /**
   However acceptable frames arrive, whatever sizes are read and written, and whatever the streams below accept:
   - the bytes handed out are a prefix of the unmasked payloads of the data frames, and all of them in the end;
   - the control frames sent are the replies so far, in order, and all of them in the end;
   - the text frames sent carry the writes taken, in order;
   - what is on the wire and in the write buffer is the frames sent, whole and in order, exactly if no write lost
     a byte.
   */
  lemma SessionIsFaithful(frames: seq<Frame>, format: Format, events: seq<Event>)
    requires AllAcceptable(frames, format) && forall i | 0 <= i < |events| :: Fits(events[i])
    ensures (forall i | 0 <= i < |frames| :: frames[i].Valid()) && Valid(Start(frames, format).st)
    ensures var t := Run(Start(frames, format), events);
            var sent := t.st.w.sent;
            && t.handed <= Data(frames) && Controls(sent) <= Replies(frames) && Texts(sent) == t.texts
            && (t.st.phase.InHeader? && t.st.buf + t.st.src == [] ==>
                  t.handed == Data(frames) && Controls(sent) == Replies(frames))
            && (Intact(t.st.w) <==> t.lost == 0)
  {
    hide Run, Serving, Start, AllAcceptable, Data, Controls, Replies, Texts, Intact;
    AllAreValid(frames, format);
    StartServes(frames, format);
    ServingIsValid(Start(frames, format), frames, [], frames);
    var rem, fs := RunKeepsServing(Start(frames, format), events, frames, [], frames);
    ServingMeans(Run(Start(frames, format), events), frames, rem, fs);
  }

  lemma ServingMeans(t: Trace, all: seq<Frame>, rem: Bytes, fs: seq<Frame>)
    requires Serving(t, all, rem, fs)
    ensures var sent := t.st.w.sent;
            && t.handed <= Data(all) && Controls(sent) <= Replies(all) && Texts(sent) == t.texts
            && (t.st.phase.InHeader? && t.st.buf + t.st.src == [] ==>
                  t.handed == Data(all) && Controls(sent) == Replies(all))
            && (Intact(t.st.w) <==> t.lost == 0)
  {
  }

  // Progress

  /** A measure of what a session has still to read. */
  function Cost(st: State): nat {
    2 * |st.src| + |st.buf| + if st.phase.InData? then 1 else 0
  }

  /** Nothing is left to be read. */
  predicate Done(st: State) {
    st.phase.InHeader? && st.buf + st.src == []
  }

  predicate Delivers(fill: Fill) {
    fill.k > 0 && fill.c == Ok
  }

  /** A frame that is taken leaves its header at least. */
  lemma TakenShrinks(st: State, fs: seq<Frame>)
    requires Incoming(st, [], fs) && st.phase.InHeader? && Ready(st.buf, fs)
    ensures Parsed(st).0.src == st.src && |Parsed(st).0.buf| + 2 <= |st.buf|
  {
    hide Masked, HeadBytes, FrameBytes, ParseHead, Replied, Sound;
    var f := fs[0];
    WireIsMore(fs);
    NextHead(st.buf, st.src, f, Wire(fs[1..]));
  }

  /** When a frame cannot be taken, there is room in the buffer and more to come. */
  lemma NotReadyHasRoom(st: State, fs: seq<Frame>)
    requires Incoming(st, [], fs) && st.phase.InHeader? && !Ready(st.buf, fs) && !Done(st)
    ensures Parsed(st) == (st, Wait) && |st.buf| < READ_SIZE && st.src != []
  {
    hide Masked, HeadBytes, ParseHead, Sound, Answered, Controlled, Wire, Data;
    ParsedTakes(st, fs);
    WaitMeans(st);
    UnderflowIsFull(st);
    if st.src == [] {
      assert st.buf + [] == st.buf;
      WholeFrameIsReady(st.buf, fs);
    }
  }

  lemma UnderflowIsFull(st: State)
    requires Valid(st)
    ensures Underflow(st) ==> |st.buf| < READ_SIZE
    ensures !Underflow(st) ==> ParseHead(st.buf).Some? && HeadSize(st.buf[1]) >= 2
  {
    if Underflow(st) {
      UnderflowLeavesRoom(st);
    }
  }

  lemma WholeFrameIsReady(buf: Bytes, fs: seq<Frame>)
    requires (forall i | 0 <= i < |fs| :: fs[i].Valid()) && buf == Wire(fs) && buf != []
    ensures Ready(buf, fs)
  {
    if fs != [] {
      WireIsMore(fs);
      hide HeadBytes, Masked;
    } else {
      EmptyWire();
    }
  }

  /** A read that asks for bytes, and finds some if it has to. */
  predicate Asks(e: Event) {
    e.Reading? && e.n > 0 && Delivers(e.fills.0) && Delivers(e.fills.1)
  }

  /** Reading a header brings bytes into the buffer, or takes a frame. */
  lemma HeaderProgress(st: State, fill: Fill, fs: seq<Frame>)
    requires Incoming(st, [], fs) && st.phase.InHeader? && Delivers(fill) && !Done(st)
    ensures Cost(FrameRead(st, fill).0) < Cost(st)
  {
    FilledKeeps(st, fill, [], fs);
    var st1 := Filled(st, fill);
    assert |st1.buf| + |st1.src| == |st.buf| + |st.src| && |st1.src| <= |st.src|;
    assert |st1.src| == |st.src| ==> st1.buf == st.buf && st1.src == st.src by {
      assert st.src[0..] == st.src && st.buf + st.src[..0] == st.buf;
    }
    hide Incoming, Parsed;
    if Ready(st1.buf, fs) {
      TakenShrinks(st1, fs);
    } else if !Done(st1) {
      NotReadyHasRoom(st1, fs);
    }
  }

  lemma DataProgress(st: State, n: nat, fill: Fill, c0: Condition, rem: Bytes, fs: seq<Frame>)
    requires Incoming(st, rem, fs) && st.phase.InData? && n > 0
    ensures Cost(DataRead(st, n, fill, c0).0) <= Cost(st)
    ensures Delivers(fill) ==> Cost(DataRead(st, n, fill, c0).0) < Cost(st)
  {
    DataReadEnds(st, n, fill, c0);
    hide Wire, Masked, DataRead;
  }

  /** Every read that asks for bytes, and finds some, comes nearer to the end. */
  lemma ReadProgress(st: State, n: nat, fills: (Fill, Fill), rem: Bytes, fs: seq<Frame>)
    requires Incoming(st, rem, fs) && n > 0 && Delivers(fills.0) && Delivers(fills.1)
    ensures if Done(st) then Done(ReadBytes(st, n, fills).0) else Cost(ReadBytes(st, n, fills).0) < Cost(st)
  {
    FrameReadIsValid(st, fills.0);
    IncomingMeans(st, rem, fs);
    if Done(st) {
      NothingMore(st, fills.0);
    } else if st.phase.InHeader? {
      var rem', fs' := FrameReadTakes(st, fills.0, fs);
      HeaderProgress(st, fills.0, fs);
      hide FrameRead, DataRead, Incoming;
      var (st1, c) := FrameRead(st, fills.0);
      if st1.phase.InData? {
        DataProgress(st1, n, fills.1, c, rem', fs');
      }
    } else {
      DataProgress(st, n, fills.1, Ok, rem, fs);
      hide FrameRead, DataRead, Incoming;
    }
  }

  lemma NothingMore(st: State, fill: Fill)
    requires Valid(st) && Done(st)
    ensures Done(FrameRead(st, fill).0)
  {
    assert st.buf == [] && st.src == [];
  }

  /**
   When the client sends acceptable frames, as many reads as twice their bytes, that ask for bytes and find some, hand
   out all the data and place all the replies.
   */
  lemma SessionEnds(frames: seq<Frame>, format: Format, events: seq<Event>)
    requires AllAcceptable(frames, format) && forall i | 0 <= i < |frames| :: frames[i].Valid()
    requires forall i | 0 <= i < |events| :: Asks(events[i]) && Fits(events[i])
    requires |events| >= 2 * |Wire(frames)|
    ensures Valid(Start(frames, format).st)
    ensures var t := Run(Start(frames, format), events);
            t.handed == Data(frames) && Controls(t.st.w.sent) == Replies(frames)
  {
    StartServes(frames, format);
    ServingIsValid(Start(frames, format), frames, [], frames);
    ReadsEnd(Start(frames, format), events, frames, [], frames);
    SessionIsFaithful(frames, format, events);
  }

  lemma {:induction false} ReadsEnd(t: Trace, events: seq<Event>, all: seq<Frame>, rem: Bytes, fs: seq<Frame>)
    requires Serving(t, all, rem, fs) && Valid(t.st)
    requires forall i | 0 <= i < |events| :: Asks(events[i]) && Fits(events[i])
    requires Done(t.st) || |events| >= Cost(t.st)
    ensures Done(Run(t, events).st)
    decreases |events|
  {
    hide ReadBytes, Incoming, Sending;
    if events == [] {
      NoCost(t.st);
    } else {
      var e := events[0];
      StepIsValid(t, e);
      ServedIsIncoming(t, all, rem, fs);
      ReadProgress(t.st, e.n, e.fills, rem, fs);
      var rem', fs' := StepKeepsServing(t, e, all, rem, fs);
      hide Serving;
      ReadsEnd(Step(t, e), events[1..], all, rem', fs');
    }
  }

  lemma NoCost(st: State)
    requires Cost(st) == 0
    ensures Done(st)
  {
  }

  lemma ServedIsIncoming(t: Trace, all: seq<Frame>, rem: Bytes, fs: seq<Frame>)
    requires Serving(t, all, rem, fs)
    ensures Incoming(t.st, rem, fs)
  {
  }
}
