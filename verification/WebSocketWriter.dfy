/**
 The writing half of http/WebSocket.cpp, on values: what a write, a reply and a Writeable event do to the write buffer.
 */
module WebSocketWriting {
  import opened Bytes
  import opened Frames

  /**
   buf is what the write buffer holds, behind head wasted bytes in an array of size bytes; wire is what has been
   accepted by the streams below; sent is the frames begun so far.
   */
  datatype Writer = Writer(buf: Bytes, head: nat, size: nat, writeable: bool, wire: Bytes, sent: seq<Frame>)

  function TextFrame(data: Bytes): Frame {
    Frame(true, TEXT, None, data)
  }

  predicate Sound(w: Writer) {
    && w.head + |w.buf| <= w.size && w.size >= 16
    && forall i | 0 <= i < |w.sent| :: w.sent[i].Valid() && w.sent[i].mask.None?
  }

  /** A write of the buffer of which the streams below accept at most accept bytes. */
  function Flushed(w: Writer, accept: nat): Writer {
    var k := Min(|w.buf|, accept);
    w.(buf := w.buf[k..], head := if k == |w.buf| then 0 else w.head + k, wire := w.wire + w.buf[..k])
  }

  /** resize and push_from: when the array is large enough, the bytes in front of head are not made use of. */
  function Kept(w: Writer, rest: Bytes): Writer
    requires w.head + |w.buf| <= w.size
  {
    if |w.buf| + |rest| > w.size then
      w.(buf := w.buf + rest, head := 0, size := |w.buf| + |rest|, writeable := true)
    else
      var room := w.size - w.head - |w.buf|;
      w.(buf := w.buf + rest[..Min(|rest|, room)], writeable := true)
  }

  /** The data of a frame go to the streams below if nothing of its header is left, and else to the buffer. */
  function DataBehind(w: Writer, data: Bytes, accept: nat): Writer
    requires w.head + |w.buf| <= w.size
  {
    var na := if w.buf == [] then Min(|data|, accept) else 0;
    var w1 := w.(wire := w.wire + data[..na]);
    if na < |data| then Kept(w1, data[na..]) else w1
  }

  /** The part of write that begins a frame, with an empty buffer. */
  function Begun(w: Writer, data: Bytes, acceptHead: nat, accept: nat): Writer
    requires w.size >= 16 && TextFrame(data).Valid()
  {
    var w1 := w.(buf := HeadBytes(TextFrame(data).ToHead()), head := 0, sent := w.sent + [TextFrame(data)]);
    DataBehind(Flushed(w1, acceptHead), data, accept)
  }

  /** What the streams below accept of the old buffer, of the frame's header and of its data. */
  datatype Accepts = Accepts(before: nat, head: nat, data: nat)

  /** write: the new state, and the number of bytes consumed, which is all or nothing. */
  function Written(w: Writer, data: Bytes, acc: Accepts): (Writer, nat)
    requires w.size >= 16 && TextFrame(data).Valid()
  {
    var w1 := if w.buf != [] then Flushed(w, acc.before) else w;
    if w1.buf != [] then (w1, 0) else (Begun(w1, data, acc.head, acc.data), |data|)
  }

  /** The Writeable event. */
  function Drained(w: Writer, accept: nat): Writer {
    var w1 := if w.buf != [] then Flushed(w, accept) else w;
    if w1.buf == [] then w1.(writeable := false) else w1
  }

  /** A control frame placed in the write buffer. */
  function Replied(w: Writer, opcode: nat, payload: Bytes): Writer
    requires Sound(w) && opcode < 16 && |payload| <= 125
  {
    var f := Frame(true, opcode, None, payload);
    var w1 := w.(buf := w.buf + FrameBytes(f), writeable := true, sent := w.sent + [f]);
    var reqd := |payload| + 4;
    var room := w.size - w.head - |w.buf|;
    if room >= reqd then w1
    else if room + w.head >= reqd then w1.(head := 0)
    else w1.(head := 0, size := |w.buf| + reqd)
  }

  // What is on the wire

  /** All that has been written: accepted bytes first, buffered ones behind. */
  function Out(w: Writer): Bytes {
    w.wire + w.buf
  }

  /** Whole frames, in the order in which they were begun, and nothing else. */
  ghost predicate Intact(w: Writer) {
    Sound(w) && Out(w) == Wire(w.sent)
  }

  lemma FlushKeepsOut(w: Writer, accept: nat)
    ensures Out(Flushed(w, accept)) == Out(w)
    ensures Sound(w) ==> Sound(Flushed(w, accept))
  {
  }

  /**
   The bytes of a write that fall behind the end of the write buffer. This takes a header that is accepted in part, an
   array with room for what is left of it and the data, and no room for both behind the accepted part.
   */
  function LostBeginning(w: Writer, data: Bytes, acceptHead: nat): nat
    requires TextFrame(data).Valid()
  {
    var h := |HeadBytes(TextFrame(data).ToHead())|;
    if 0 < acceptHead < h && h - acceptHead + |data| <= w.size < h + |data| then h + |data| - w.size else 0
  }

  function Lost(w: Writer, data: Bytes, acc: Accepts): nat
    requires TextFrame(data).Valid()
  {
    if |w.buf| <= acc.before then LostBeginning(w, data, acc.head) else 0
  }

  /** How much of rest Kept leaves out. */
  function LeftOut(w: Writer, rest: Bytes): nat {
    if |w.buf| + |rest| <= w.size < w.head + |w.buf| + |rest| then w.head + |w.buf| + |rest| - w.size else 0
  }

  lemma KeptOut(w: Writer, rest: Bytes)
    requires Sound(w)
    ensures Sound(Kept(w, rest)) && Kept(w, rest).sent == w.sent
    ensures LeftOut(w, rest) <= |rest| && Out(Kept(w, rest)) == Out(w) + rest[..|rest| - LeftOut(w, rest)]
  {
  }

  /** A frame is begun with its header and its data, but for the lost end of the data. */
  lemma BegunOut(w: Writer, data: Bytes, acceptHead: nat, accept: nat)
    requires Sound(w) && w.buf == [] && TextFrame(data).Valid()
    ensures var w' := Begun(w, data, acceptHead, accept);
            var f := FrameBytes(TextFrame(data));
            var lost := LostBeginning(w, data, acceptHead);
            && Sound(w') && w'.sent == w.sent + [TextFrame(data)]
            && lost <= |data| && Out(w') == Out(w) + f[..|f| - lost]
  {
    hide HeadBytes, Kept, Flushed, LeftOut, FrameBytes, Sound;
    var f := TextFrame(data);
    FrameIs(f);
    SoundBegins(w, data);
    var head := HeadBytes(f.ToHead());
    var w0 := w.(buf := head, head := 0, sent := w.sent + [f]);
    var w1 := Flushed(w0, acceptHead);
    FlushKeepsOut(w0, acceptHead);
    var na := if w1.buf == [] then Min(|data|, accept) else 0;
    var w2 := w1.(wire := w1.wire + data[..na]);
    var lost := LostBeginning(w, data, acceptHead);
    FlushMeans(w0, acceptHead);
    HeadLeavesOut(w0, data, acceptHead, na, w2.wire);
    DataBehindHead(w1, w.wire, head, data, na, lost);
    if na == |data| {
      assert Out(w2) + data[na..][..|data| - lost - na] == Out(w2);
    } else {
      KeptOut(w2, data[na..]);
    }
    assert FrameBytes(f)[..|FrameBytes(f)| - lost] == head + data[..|data| - lost];
    assert Out(w) == w.wire;
  }

  lemma FrameIs(f: Frame)
    requires f.Valid() && f.mask.None?
    ensures FrameBytes(f) == HeadBytes(f.ToHead()) + f.payload
  {
  }

  lemma FlushMeans(w: Writer, accept: nat)
    ensures var w' := Flushed(w, accept);
            && w'.sent == w.sent && w'.size == w.size && (w'.buf == [] <==> |w.buf| <= accept)
            && |w'.buf| == |w.buf| - Min(|w.buf|, accept)
  {
  }

  lemma SoundBegins(w: Writer, data: Bytes)
    requires Sound(w) && TextFrame(data).Valid()
    ensures Sound(w.(buf := HeadBytes(TextFrame(data).ToHead()), head := 0, sent := w.sent + [TextFrame(data)]))
  {
  }

  /** What Kept leaves out when it comes to it is what is counted as lost. */
  lemma HeadLeavesOut(w: Writer, data: Bytes, acceptHead: nat, na: nat, wire: Bytes)
    requires TextFrame(data).Valid() && w.buf == HeadBytes(TextFrame(data).ToHead()) && w.head == 0 && na <= |data|
    requires Sound(w) && (na > 0 ==> acceptHead >= |w.buf|)
    ensures Sound(Flushed(w, acceptHead).(wire := wire))
    ensures na < |data| ==>
              LeftOut(Flushed(w, acceptHead).(wire := wire), data[na..]) == LostBeginning(w, data, acceptHead)
    ensures na > 0 || data == [] ==> LostBeginning(w, data, acceptHead) == 0
  {
  }

  lemma DataBehindHead(w: Writer, before: Bytes, head: Bytes, data: Bytes, na: nat, lost: nat)
    requires Out(w) == before + head && na <= |data| - lost && (na > 0 ==> w.buf == [])
    ensures Out(w.(wire := w.wire + data[..na])) + data[na..][..|data| - lost - na]
            == before + (head + data[..|data| - lost])
  {
    var rest := data[na..][..|data| - lost - na];
    assert na == 0 ==> w.wire + data[..na] == w.wire;
    assert na > 0 ==> w.wire + data[..na] + [] == w.wire + [] + data[..na];
    assert data[..na] + rest == data[..|data| - lost];
    ConcatAssoc(before + head, data[..na], rest);
    ConcatAssoc(before, head, data[..|data| - lost]);
  }

  /** One write sends a whole frame, or nothing, unless bytes are lost; and those are the end of its data. */
  lemma WriteOut(w: Writer, data: Bytes, acc: Accepts)
    requires Sound(w) && TextFrame(data).Valid()
    ensures var (w', na) := Written(w, data, acc);
            var f := FrameBytes(TextFrame(data));
            var lost := Lost(w, data, acc);
            && Sound(w') && lost <= |data|
            && if |w.buf| <= acc.before then
                 na == |data| && w'.sent == w.sent + [TextFrame(data)] && Out(w') == Out(w) + f[..|f| - lost]
               else
                 na == 0 && w'.sent == w.sent && Out(w') == Out(w)
  {
    hide HeadBytes, Begun, FrameBytes, LostBeginning;
    FlushKeepsOut(w, acc.before);
    var w1 := if w.buf != [] then Flushed(w, acc.before) else w;
    if w1.buf == [] {
      BegunOut(w1, data, acc.head, acc.data);
      SizeMatters(w, w1, data, acc.head);
    }
  }

  lemma SizeMatters(w: Writer, w': Writer, data: Bytes, acceptHead: nat)
    requires w.size == w'.size && TextFrame(data).Valid()
    ensures LostBeginning(w, data, acceptHead) == LostBeginning(w', data, acceptHead)
  {
  }

  /** The octets in front of a text of up to 125 bytes. */
  lemma TextInOctets(data: Bytes)
    requires |data| <= 125
    ensures TextFrame(data).Valid() && FrameBytes(TextFrame(data)) == [0x81, |data| as u8] + data
  {
  }

  /** A write keeps whole frames on the wire exactly if it loses nothing. */
  lemma WriteKeepsFrames(w: Writer, data: Bytes, acc: Accepts)
    requires Intact(w) && TextFrame(data).Valid()
    ensures Intact(Written(w, data, acc).0) <==> Lost(w, data, acc) == 0
  {
    hide HeadBytes, Written, FrameBytes, Lost, Wire;
    WriteOut(w, data, acc);
    if |w.buf| <= acc.before {
      var f := FrameBytes(TextFrame(data));
      WireSnoc(w.sent, TextFrame(data));
      var lost := Lost(w, data, acc);
      if lost == 0 {
        assert f[..|f|] == f;
      } else {
        LostBehindHead(data, lost);
        assert |f[..|f| - lost]| < |f|;
      }
    } else {
      NothingLost(w, data, acc);
    }
  }

  lemma NothingLost(w: Writer, data: Bytes, acc: Accepts)
    requires TextFrame(data).Valid() && |w.buf| > acc.before
    ensures Lost(w, data, acc) == 0
  {
  }

  lemma LostBehindHead(data: Bytes, lost: nat)
    requires TextFrame(data).Valid() && lost <= |data|
    ensures lost <= |FrameBytes(TextFrame(data))|
  {
  }

  lemma ReplyIsSound(w: Writer, opcode: nat, payload: Bytes)
    requires Sound(w) && opcode < 16 && |payload| <= 125
    ensures Sound(Replied(w, opcode, payload))
  {
  }

  lemma ReplyKeepsFrames(w: Writer, opcode: nat, payload: Bytes)
    requires Intact(w) && opcode < 16 && |payload| <= 125
    ensures Intact(Replied(w, opcode, payload))
  {
    var f := Frame(true, opcode, None, payload);
    WireSnoc(w.sent, f);
    assert |FrameBytes(f)| == |payload| + 2;
    hide HeadBytes, FrameBytes, Wire;
    ConcatAssoc(w.wire, w.buf, FrameBytes(f));
  }

  lemma DrainKeepsFrames(w: Writer, accept: nat)
    requires Intact(w)
    ensures Intact(Drained(w, accept))
    ensures var (w', k) := (Drained(w, accept), Min(|w.buf|, accept));
            && w'.wire == w.wire + w.buf[..k] && w'.buf == w.buf[k..] && w'.sent == w.sent
            && w'.writeable == (w.writeable && w'.buf != [])
  {
    hide Wire;
    FlushKeepsOut(w, accept);
  }

  /** The stream asks for Writeable events while anything is buffered, unless that is the header of an empty frame. */
  lemma WriteKeepsAwake(w: Writer, data: Bytes, acc: Accepts)
    requires Sound(w) && TextFrame(data).Valid() && (w.buf != [] ==> w.writeable)
    ensures var w' := Written(w, data, acc).0;
            (w'.buf != [] ==> w'.writeable) <==> w.writeable || data != [] || acc.head >= 2
  {
  }

  const UNUSED := Writer([], 0, 16, false, [], [])

  /** Fifteen bytes, of whose header one byte is accepted: all are reported as written, and the last one is lost. */
  lemma TornHeaderLoses(data: Bytes)
    requires |data| == 15
    ensures var (w, na) := Written(UNUSED, data, Accepts(0, 1, 0));
            var f := FrameBytes(TextFrame(data));
            na == 15 && |f| == 17 && Out(w) == f[..16]
  {
  }
}
