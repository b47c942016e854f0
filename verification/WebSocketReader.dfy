/**
 The reading half of http/WebSocket.cpp, on values: frames are parsed, unmasked, handed out and replied to.
 */
module WebSocketReading {
  import opened Bytes
  import opened Frames
  import opened WebSocketWriting

  datatype Format = NoFormat | Text | Binary

  datatype Phase = InHeader | InData(len: nat, pos: nat, mask: Option<Bytes>)

  /** buf is what the read buffer holds, src what the streams below still hold. */
  datatype State = State(phase: Phase, format: Format, buf: Bytes, src: Bytes, w: Writer)

  const READ_SIZE := 140

  function Filled(st: State, fill: Fill): State
    requires |st.buf| <= READ_SIZE
  {
    var nr := Min(fill.k, Min(READ_SIZE - |st.buf|, |st.src|));
    st.(buf := st.buf + st.src[..nr], src := st.src[nr..])
  }

  /** The format that a data frame sets; None stands for an error. */
  function NextFormat(format: Format, opcode: nat): Option<Format> {
    if opcode == CONT then if format == NoFormat then None else Some(format)
    else if opcode == TEXT then Some(Text)
    else if opcode == BINARY then Some(Binary)
    else None
  }

  /** What handle_close, handle_ping and handle_pong do with a control frame's unmasked payload. */
  function Handled(st: State, opcode: nat, payload: Bytes): (State, Condition)
    requires Sound(st.w) && |payload| <= 125
  {
    if opcode == CLOSE then
      if |payload| < 2 then (st, Wait) else (st.(w := Replied(st.w, CLOSE, payload)), Ok)
    else if opcode == PING then (st.(w := Replied(st.w, PONG, payload)), Ok)
    else if opcode == PONG then (st, Ok)
    else (st, Error)
  }

  /** What read_frame makes of a control frame with a header of k bytes. */
  function Controlled(st: State, h: Head, k: nat): (State, Condition)
    requires Sound(st.w) && k <= |st.buf| && (h.mask.Some? ==> |h.mask.value| == 4)
  {
    if !h.fin || h.len > 125 then (st, Error)
    else if |st.buf| < k + h.len then (st, Wait)
    else Handled(st.(buf := st.buf[k + h.len..]), h.opcode, Masked(st.buf[k..k + h.len], h.mask, 0))
  }

  /** What read_frame makes of the bytes in the read buffer. */
  function Parsed(st: State): (State, Condition)
    requires Sound(st.w)
  {
    var r := ParseHead(st.buf);
    if r.None? then (st, Wait)
    else
      var (h, k) := (r.value, HeadSize(st.buf[1]));
      if h.opcode < 8 then
        var format := NextFormat(st.format, h.opcode);
        if format.None? then (st.(buf := st.buf[k..]), Error)
        else (st.(buf := st.buf[k..], format := format.value, phase := InData(h.len, 0, h.mask)), Ok)
      else Controlled(st, h, k)
  }

  function FrameRead(st: State, fill: Fill): (State, Condition)
    requires |st.buf| <= READ_SIZE && Sound(st.w)
  {
    var st1 := Filled(st, fill);
    if fill.c != Ok then (st1, fill.c) else Parsed(st1)
  }

  /** How many of want bytes come from the read buffer. */
  function FromBuffer(st: State, want: nat): nat {
    Min(|st.buf|, want)
  }

  /** How many of want bytes come from the streams below, which are only asked for what the read buffer lacks. */
  function FromBelow(st: State, want: nat, fill: Fill): nat {
    if |st.buf| < want then Min(fill.k, Min(want - |st.buf|, |st.src|)) else 0
  }

  /** The bytes that are taken for a read of want bytes, and what is left. */
  function Taken(st: State, want: nat, fill: Fill): (Bytes, State) {
    var (a, nr) := (FromBuffer(st, want), FromBelow(st, want, fill));
    (st.buf[..a] + st.src[..nr], st.(buf := st.buf[a..], src := st.src[nr..]))
  }

  /** The part of read that hands out bytes of a data frame. */
  function DataRead(st: State, n: nat, fill: Fill, c0: Condition): (State, Condition, Bytes)
    requires st.phase.InData? && st.phase.pos <= st.phase.len
    requires st.phase.mask.Some? ==> |st.phase.mask.value| == 4
  {
    var InData(len, pos, mask) := st.phase;
    var want := Min(n, len - pos);
    var (raw, st') := Taken(st, want, fill);
    (st'.(phase := if pos + |raw| == len then InHeader else InData(len, pos + |raw|, mask)),
     if |st.buf| < want then fill.c else c0, Masked(raw, mask, pos))
  }

  predicate Valid(st: State) {
    && |st.buf| <= READ_SIZE && Sound(st.w)
    && (st.phase.InData? ==> st.phase.pos <= st.phase.len && (st.phase.mask.Some? ==> |st.phase.mask.value| == 4))
  }

  lemma FrameReadIsValid(st: State, fill: Fill)
    requires Valid(st)
    ensures Valid(FrameRead(st, fill).0)
  {
    hide Controlled, Sound, NextFormat;
    var st1 := Filled(st, fill);
    if ParseHead(st1.buf).Some? {
      ControlledIsValid(st1, ParseHead(st1.buf).value, HeadSize(st1.buf[1]));
    }
  }

  lemma ControlledIsValid(st: State, h: Head, k: nat)
    requires Valid(st) && k <= |st.buf| && (h.mask.Some? ==> |h.mask.value| == 4)
    ensures Valid(Controlled(st, h, k).0)
  {
    hide Handled, Masked;
    if h.len <= 125 && |st.buf| >= k + h.len {
      HandledIsValid(st.(buf := st.buf[k + h.len..]), h.opcode, Masked(st.buf[k..k + h.len], h.mask, 0));
    }
  }

  lemma HandledIsValid(st: State, opcode: nat, payload: Bytes)
    requires Valid(st) && |payload| <= 125
    ensures Valid(Handled(st, opcode, payload).0)
  {
  }

  /** read: the new state, the answer, and the bytes handed out. */
  function ReadBytes(st: State, n: nat, fills: (Fill, Fill)): (State, Condition, Bytes)
    requires Valid(st)
  {
    FrameReadIsValid(st, fills.0);
    var (st1, c) := if st.phase.InHeader? then FrameRead(st, fills.0) else (st, Ok);
    if st1.phase.InData? then DataRead(st1, n, fills.1, c) else (st1, c, [])
  }

  // Sequences of frames

  predicate IsData(f: Frame) {
    f.opcode < 8
  }

  /** A frame that section 5 of RFC 6455 allows when the data frames so far have set this format. */
  predicate Acceptable(f: Frame, format: Format) {
    && f.Valid()
    && if IsData(f) then NextFormat(format, f.opcode).Some?
       else f.fin && |f.payload| <= 125 && (f.opcode == CLOSE || f.opcode == PING || f.opcode == PONG)
  }

  function FormatAfter(format: Format, f: Frame): Format
    requires Acceptable(f, format)
  {
    if IsData(f) then NextFormat(format, f.opcode).value else format
  }

  predicate AllAcceptable(fs: seq<Frame>, format: Format) {
    fs == [] || (Acceptable(fs[0], format) && AllAcceptable(fs[1..], FormatAfter(format, fs[0])))
  }

  /** The payloads of the data frames. */
  function Data(fs: seq<Frame>): Bytes {
    if fs == [] then [] else (if IsData(fs[0]) then fs[0].payload else []) + Data(fs[1..])
  }

  /** The frames with which a frame is answered: the payload is sent back, but for a close frame without a code. */
  function Reply(f: Frame): seq<Frame> {
    if f.opcode == CLOSE && |f.payload| >= 2 then [Frame(true, CLOSE, None, f.payload)]
    else if f.opcode == PING then [Frame(true, PONG, None, f.payload)]
    else []
  }

  lemma {:induction false} AllAreValid(fs: seq<Frame>, format: Format)
    requires AllAcceptable(fs, format)
    ensures forall i | 0 <= i < |fs| :: fs[i].Valid()
  {
    if fs != [] {
      AllAreValid(fs[1..], FormatAfter(format, fs[0]));
      assert fs == [fs[0]] + fs[1..];
    }
  }

  /** The source still holds, behind the read buffer, the rest of the frame being read and then the frames fs. */
  ghost predicate Incoming(st: State, rem: Bytes, fs: seq<Frame>) {
    && Valid(st) && AllAcceptable(fs, st.format)
    && (forall i | 0 <= i < |fs| :: fs[i].Valid())
    && match st.phase
       case InHeader => rem == [] && st.buf + st.src == Wire(fs)
       case InData(len, pos, mask) =>
         |rem| == len - pos && st.buf + st.src == Masked(rem, mask, pos) + Wire(fs)
  }

  lemma FilledKeeps(st: State, fill: Fill, rem: Bytes, fs: seq<Frame>)
    requires Incoming(st, rem, fs)
    ensures Incoming(Filled(st, fill), rem, fs)
    ensures Filled(st, fill).phase == st.phase && Filled(st, fill).w == st.w && Filled(st, fill).format == st.format
    ensures |Filled(st, fill).buf| == Min(140, |st.buf| + Min(fill.k, |st.src|))
  {
    hide Wire, Masked, AllAcceptable;
    var nr := Min(fill.k, Min(READ_SIZE - |st.buf|, |st.src|));
    assert st.src == st.src[..nr] + st.src[nr..];
    ConcatAssoc(st.buf, st.src[..nr], st.src[nr..]);
  }

  lemma WireIsMore(fs: seq<Frame>)
    requires fs != [] && forall i | 0 <= i < |fs| :: fs[i].Valid()
    ensures Wire(fs) == FrameBytes(fs[0]) + Wire(fs[1..])
  {
  }

  /** What the read buffer shows of the next frame's header. */
  lemma NextHead(buf: Bytes, src: Bytes, f: Frame, rest: Bytes)
    requires f.Valid() && buf + src == FrameBytes(f) + rest
    ensures var k := |HeadBytes(f.ToHead())|;
            && (ParseHead(buf).None? <==> |buf| < k)
            && (|buf| >= k ==>
                  && ParseHead(buf).value == f.ToHead() && HeadSize(buf[1]) == k
                  && buf[k..] + src == Masked(f.payload, f.mask, 0) + rest)
  {
    FrameParses(f, rest);
    hide Masked, HeadBytes, FrameBytes, ParseHead;
    var all, k := buf + src, |HeadBytes(f.ToHead())|;
    assert buf == all[..|buf|];
    if |buf| < k {
      BufferHasPartOfHead(buf, f, rest);
    } else {
      HeadInFront(buf, f, all);
      assert all[k..] == buf[k..] + src;
    }
  }

  /** What the read buffer shows of a payload that is there completely. */
  lemma NextPayload(buf: Bytes, src: Bytes, k: nat, body: Bytes, rest: Bytes)
    requires k + |body| <= |buf| && buf[k..] + src == body + rest
    ensures buf[k..k + |body|] == body && buf[k + |body|..] + src == rest
  {
    var all, n := buf[k..] + src, |body|;
    assert all[..n] == buf[k..k + n];
    assert (body + rest)[..n] == body;
    assert all[n..] == buf[k + n..] + src;
    assert (body + rest)[n..] == rest;
  }

  lemma BufferHasPartOfHead(buf: Bytes, f: Frame, rest: Bytes)
    requires f.Valid() && |buf| < |HeadBytes(f.ToHead())| && buf == (FrameBytes(f) + rest)[..|buf|]
    ensures ParseHead(buf).None?
  {
    hide HeadBytes, ParseHead, Masked;
    assert buf == HeadBytes(f.ToHead())[..|buf|];
    HeadNeedsAll(f.ToHead(), |buf|);
  }

  lemma HeadInFront(buf: Bytes, f: Frame, all: Bytes)
    requires f.Valid() && |HeadBytes(f.ToHead())| <= |buf| <= |all| && buf == all[..|buf|]
    requires ParseHead(all) == Some(f.ToHead()) && HeadSize(all[1]) == |HeadBytes(f.ToHead())|
    ensures ParseHead(buf) == ParseHead(all) && HeadSize(buf[1]) == |HeadBytes(f.ToHead())|
  {
    hide HeadBytes, FromBigEndian;
    assert buf[1] == all[1];
    var extra := ExtraLength(buf[1]);
    assert all[0..|buf|] == buf;
    SliceOfSlice(all, 0, |buf|, 2, 2 + extra);
    if buf[1] >= 128 {
      SliceOfSlice(all, 0, |buf|, 2 + extra, 6 + extra);
    }
  }

  // Parsing

  /** The read buffer holds enough of the next frame: the header of a data frame, or all of a control frame. */
  predicate Ready(buf: Bytes, fs: seq<Frame>) {
    fs != [] && fs[0].Valid() && |buf| >= |HeadBytes(fs[0].ToHead())| + if IsData(fs[0]) then 0 else |fs[0].payload|
  }

  /** The replies to a frame, placed in the write buffer. */
  function Answered(w: Writer, f: Frame): Writer
    requires Sound(w) && |f.payload| <= 125
  {
    if Reply(f) == [] then w else Replied(w, Reply(f)[0].opcode, f.payload)
  }

  lemma HandledAnswers(st: State, f: Frame)
    requires Valid(st) && |f.payload| <= 125 && (f.opcode == CLOSE || f.opcode == PING || f.opcode == PONG)
    ensures Handled(st, f.opcode, f.payload).0 == st.(w := Answered(st.w, f))
    ensures Handled(st, f.opcode, f.payload).1 == if f.opcode == CLOSE && |f.payload| < 2 then Wait else Ok
  {
  }

  /** Parsing takes a frame exactly if enough of it is there; the reply, if there is one, is placed in the same step. */
  lemma ParsedTakes(st: State, fs: seq<Frame>)
    requires Incoming(st, [], fs) && st.phase.InHeader?
    ensures var (st', c) := Parsed(st);
            && c != Error && c != End && c != Close
            && if !Ready(st.buf, fs) then st' == st && c == Wait
               else
                 var f := fs[0];
                 && Incoming(st', if IsData(f) then f.payload else [], fs[1..])
                 && st'.w == (if IsData(f) then st.w else Answered(st.w, f))
  {
    hide Controlled, Masked, HeadBytes, FrameBytes, ParseHead, Answered;
    if fs == [] {
      assert st.buf == [];
      NothingParses();
    } else {
      var f := fs[0];
      WireIsMore(fs);
      NextHead(st.buf, st.src, f, Wire(fs[1..]));
      if !IsData(f) && |st.buf| >= |HeadBytes(f.ToHead())| {
        ControlledAnswers(st, f, |HeadBytes(f.ToHead())|, Wire(fs[1..]));
      }
    }
  }

  lemma ControlledAnswers(st: State, f: Frame, k: nat, rest: Bytes)
    requires Valid(st) && k <= |st.buf| && Acceptable(f, st.format) && !IsData(f)
    requires st.buf[k..] + st.src == Masked(f.payload, f.mask, 0) + rest
    ensures var (st', c) := Controlled(st, f.ToHead(), k);
            if |st.buf| < k + |f.payload| then st' == st && c == Wait
            else st' == st.(buf := st'.buf, w := Answered(st.w, f)) && Valid(st') && st'.buf + st.src == rest
                 && (c == Ok || c == Wait)
  {
    hide Handled, Masked, Answered;
    if |st.buf| >= k + |f.payload| {
      NextPayload(st.buf, st.src, k, Masked(f.payload, f.mask, 0), rest);
      MaskedTwice(f.payload, f.mask, 0);
      var st1 := st.(buf := st.buf[k + |f.payload|..]);
      HandledAnswers(st1, f);
      HandledIsValid(st1, f.opcode, f.payload);
    }
  }

  lemma NothingParses()
    ensures ParseHead([]).None?
  {
  }

  lemma TakeFromTwo(buf: Bytes, src: Bytes, x: Bytes, y: Bytes, a: nat, n: nat)
    requires buf + src == x + y && a <= |buf| && n <= |src| && (n > 0 ==> a == |buf|) && a + n <= |x|
    ensures buf[..a] + src[..n] == x[..a + n]
    ensures buf[a..] + src[n..] == x[a + n..] + y
  {
    var k := a + n;
    assert buf[..a] + src[..n] == (buf + src)[..k];
    assert (x + y)[..k] == x[..k];
    assert buf[a..] + src[n..] == (buf + src)[k..];
    assert (x + y)[k..] == x[k..] + y;
  }

  /** What is handed out of a data frame is the next piece of its payload. */
  lemma DataReadTakes(st: State, n: nat, fill: Fill, c0: Condition, rem: Bytes, fs: seq<Frame>)
    requires Incoming(st, rem, fs) && st.phase.InData?
    ensures var (st', c, out) := DataRead(st, n, fill, c0);
            out <= rem && Incoming(st', rem[|out|..], fs) && st'.w == st.w && st'.format == st.format
    ensures var out := DataRead(st, n, fill, c0).2;
            n > 0 && rem != [] && st.buf != [] ==> out != []
  {
    hide Wire, AllAcceptable, Masked;
    var InData(len, pos, mask) := st.phase;
    var want := Min(n, len - pos);
    var a, nr := FromBuffer(st, want), FromBelow(st, want, fill);
    var k := a + nr;
    TakeFromTwo(st.buf, st.src, Masked(rem, mask, pos), Wire(fs), a, nr);
    MaskedInPieces(rem, k, mask, pos);
    MaskedTwice(rem[..k], mask, pos);
  }

  /** Byte j that is handed out is byte j of what is there, with the bits of the masking key flipped. */
  lemma ReadUnmasks(st: State, n: nat, fill: Fill, c0: Condition)
    requires Valid(st) && st.phase.InData?
    ensures var (st', c, out) := DataRead(st, n, fill, c0);
            && |out| <= n
            && |st.buf + st.src| == |out| + |st'.buf| + |st'.src|
            && FlippedBy(out, (st.buf + st.src)[..|out|], st.phase.mask, st.phase.pos)
            && st'.buf + st'.src == (st.buf + st.src)[|out|..]
  {
    hide Masked, FlippedBy;
    var InData(len, pos, mask) := st.phase;
    var want := Min(n, len - pos);
    var a, nr := FromBuffer(st, want), FromBelow(st, want, fill);
    var all := st.buf + st.src;
    TakeFromTwo(st.buf, st.src, all, [], a, nr);
    MaskedFlips(Taken(st, want, fill).0, mask, pos);
  }

  // The opcodes

  /** The octets of section 5.5 of RFC 6455 that a control frame is answered with, by its first octet. */
  lemma ReplyInOctets(f: Frame, format: Format)
    requires Acceptable(f, format) && !IsData(f)
    ensures FrameBytes(f)[0] == 0x88 || FrameBytes(f)[0] == 0x89 || FrameBytes(f)[0] == 0x8A
    ensures (forall i | 0 <= i < |Reply(f)| :: Reply(f)[i].Valid())
    ensures Wire(Reply(f)) == if FrameBytes(f)[0] == 0x89 then [0x8A, |f.payload| as u8] + f.payload
                              else if FrameBytes(f)[0] == 0x88 && |f.payload| >= 2
                              then [0x88, |f.payload| as u8] + f.payload
                              else []
  {
    hide FlippedBy;
    FrameLayout(f);
    if Reply(f) != [] {
      var r := Reply(f)[0];
      FrameLayout(r);
      OneFrame(r);
      var s := FrameBytes(r);
      assert s == [s[0], s[1]] + s[2..];
      assert s[2..] == f.payload by {
        ShortReply(r);
      }
    } else {
      NoFrame();
    }
  }

  lemma OneFrame(f: Frame)
    requires f.Valid()
    ensures Wire([f]) == FrameBytes(f)
  {
    assert Wire([f]) == FrameBytes(f) + Wire([f][1..]);
    NoFrame();
  }

  lemma NoFrame()
    ensures Wire([]) == []
  {
  }

  lemma ShortReply(f: Frame)
    requires f.Valid() && f.mask.None? && |f.payload| <= 125
    ensures FrameBytes(f)[2..] == f.payload
  {
  }

  /** The data frames of section 5.6 of RFC 6455 that are acceptable, by their first octet. */
  lemma AcceptableInOctets(f: Frame, format: Format)
    requires f.Valid() && f.opcode < 8
    ensures Acceptable(f, format) <==>
              var code := FrameBytes(f)[0] % 16;
              code == 1 || code == 2 || (code == 0 && format != NoFormat)
    ensures Acceptable(f, format) ==>
              FormatAfter(format, f) == match FrameBytes(f)[0] % 16
                                        case 1 => Text
                                        case 2 => Binary
                                        case _ => format
  {
    hide FlippedBy;
    FrameLayout(f);
  }

  /** Parsing fails exactly if a header is there and its frame, once there is enough of it, is not acceptable. */
  lemma ErrorMeans(st: State)
    requires Valid(st)
    ensures Parsed(st).1 == Error <==>
              ParseHead(st.buf).Some? &&
              var h := ParseHead(st.buf).value;
              if h.opcode < 8 then h.opcode > 2 || (h.opcode == 0 && st.format == NoFormat)
              else
                || !h.fin || h.len > 125
                || (h.opcode > 10 && |st.buf| >= HeadSize(st.buf[1]) + h.len)
    ensures Parsed(st).1 == Error ==>
              var (h, k) := (ParseHead(st.buf).value, HeadSize(st.buf[1]));
              Parsed(st).0 == st.(buf := if h.opcode < 8 then st.buf[k..]
                                         else if !h.fin || h.len > 125 then st.buf
                                         else st.buf[k + h.len..])
  {
    hide Masked, Replied, Sound, FromBigEndian;
  }

  /**
   A read of a data frame hands out as many bytes as are wanted and left of the frame, and as are buffered or come; the
   streams below are asked only for what is not buffered. The frame is over exactly when all of it is handed out.
   */
  lemma DataReadEnds(st: State, n: nat, fill: Fill, c0: Condition)
    requires Valid(st) && st.phase.InData?
    ensures var (st', c, out) := DataRead(st, n, fill, c0);
            var InData(len, pos, mask) := st.phase;
            && |out| == Min(Min(n, len - pos), |st.buf| + Min(fill.k, |st.src|))
            && c == (if |st.buf| < Min(n, len - pos) then fill.c else c0)
            && |st'.buf| <= |st.buf| && |st'.src| <= |st.src|
            && |st'.buf| + |st'.src| == |st.buf| + |st.src| - |out|
            && st'.phase == if |out| == len - pos then InHeader else InData(len, pos + |out|, mask)
  {
    hide Masked;
  }

  // Underflow

  predicate Underflow(st: State) {
    var r := ParseHead(st.buf);
    r.None? ||
    (r.value.opcode >= 8 && r.value.fin && r.value.len <= 125 && |st.buf| < HeadSize(st.buf[1]) + r.value.len)
  }

  /** The header has the shortest form of the length. */
  predicate Minimal(buf: Bytes) {
    ParseHead(buf).Some? ==> ExtraLength(buf[1]) == if ParseHead(buf).value.len < 126 then 0
                                                    else if ParseHead(buf).value.len < 65536 then 2 else 8
  }

  /** An Underflow leaves everything as it is, and there is room for more in the read buffer. */
  lemma UnderflowLeavesRoom(st: State)
    requires Valid(st) && Underflow(st)
    ensures Parsed(st) == (st, Wait)
    ensures |st.buf| <= 138 && (Minimal(st.buf) ==> |st.buf| <= 130)
  {
  }

  /** Parsing answers Wait on an Underflow, and for a close frame without a code, which is taken but never answered. */
  lemma WaitMeans(st: State)
    requires Valid(st)
    ensures var (st', c) := Parsed(st);
            c == Wait <==>
              Underflow(st) ||
              (var h := ParseHead(st.buf).value;
               h.opcode == CLOSE && h.fin && h.len < 2 && st' == st.(buf := st.buf[HeadSize(st.buf[1]) + h.len..]))
  {
  }

  /** A control frame whose length takes more bytes than it needs leaves an Underflow with 138 bytes buffered. */
  lemma LongHeaderUnderflow(payload: Bytes, key: Bytes)
    requires |payload| == 124 && |key| == 4
    ensures var buf := [137, 255] + ToBigEndian(125, 8) + key + payload;
            |buf| == 138 && Underflow(State(InHeader, NoFormat, buf, [], UNUSED))
  {
    hide ToBigEndian, FromBigEndian;
    LongForm();
    var buf := [137, 255] + ToBigEndian(125, 8) + key + payload;
    assert buf[2..10] == ToBigEndian(125, 8);
  }

  lemma LongForm()
    ensures |ToBigEndian(125, 8)| == 8 && FromBigEndian(ToBigEndian(125, 8)) == 125
  {
    hide FromBigEndian;
    assert 125 < Pow256(1) <= Pow256(8);
    FromToBigEndian(125, 8);
  }
}
