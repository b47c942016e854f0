/**
 The stream of http/WebSocket.cpp, with its read and write buffers.
 */
module WebSockets {
  import opened Bytes
  import opened Buffers
  import opened Frames
  import opened WebSocketWriting
  import opened WebSocketReading

  class WebSocketStream {
    const readBuffer: Buffer
    const writeBuffer: Buffer
    var inData: bool
    var readFormat: Format
    var readPos: nat
    var readLen: nat
    var readUsemask: bool
    var readMask: Bytes
    var writeable: bool
    var src: Bytes
    var wire: Bytes
    ghost var sent: seq<Frame>

    ghost predicate Buffers()
      reads this, readBuffer, readBuffer.data, writeBuffer, writeBuffer.data
    {
      && readBuffer.Valid() && writeBuffer.Valid() && readBuffer != writeBuffer && readBuffer.data != writeBuffer.data
      && readBuffer.Size() == READ_SIZE
    }

    ghost function Out(): Writer
      requires Buffers()
      reads this, readBuffer, readBuffer.data, writeBuffer, writeBuffer.data
    {
      Writer(writeBuffer.Contents(), writeBuffer.head, writeBuffer.Size(), writeable, wire, sent)
    }

    ghost function Phase(): Phase
      reads this
    {
      if inData then InData(readLen, readPos, if readUsemask then Some(readMask) else None) else InHeader
    }

    ghost function Abs(): State
      requires Buffers()
      reads this, readBuffer, readBuffer.data, writeBuffer, writeBuffer.data
    {
      State(Phase(), readFormat, readBuffer.Contents(), src, Out())
    }

    ghost predicate Good()
      reads this, readBuffer, readBuffer.data, writeBuffer, writeBuffer.data
    {
      Buffers() && Valid(Abs())
    }

    /** The stream as the handshake leaves it; the constructor of the source does not set m_read_format. */
    constructor (src: Bytes, format: Format)
      ensures Good() && fresh(readBuffer.Repr()) && fresh(writeBuffer.Repr())
      ensures Abs() == State(InHeader, format, [], src, UNUSED)
    {
      readBuffer := new Buffer(READ_SIZE);
      writeBuffer := new Buffer(16);
      inData := false;
      readFormat := format;
      readPos, readLen := 0, 0;
      readUsemask, readMask := false, [];
      writeable := false;
      this.src := src;
      wire := [];
      sent := [];
    }

    // Writing

    /** Stream::write of the write buffer. */
    method Flush(accept: nat)
      requires Buffers()
      modifies `wire, writeBuffer, writeBuffer.data
      ensures Buffers() && writeBuffer.data == old(writeBuffer.data)
      ensures Abs() == old(Abs()).(w := Flushed(old(Out()), accept))
    {
      ghost var w := Out();
      var out := writeBuffer.PopTo(accept);
      wire := wire + out;
      assert |out| == Min(|w.buf|, accept);
      assert writeBuffer.Contents() == w.buf[|out|..];
      assert Out() == w.(buf := writeBuffer.Contents(), head := writeBuffer.head, wire := wire);
    }

    /** resize and push_from, as write uses them for what the streams below do not accept. */
    method Keep(rest: Bytes)
      requires Buffers() && rest != []
      modifies `writeable, writeBuffer, writeBuffer.data
      ensures Buffers() && (writeBuffer.data == old(writeBuffer.data) || fresh(writeBuffer.data))
      ensures Abs() == old(Abs()).(w := Kept(old(Out()), rest))
    {
      var moved := writeBuffer.Resize(writeBuffer.Used() + |rest|);
      var na := writeBuffer.PushFrom(rest);
      assert na == |rest| ==> rest[..na] == rest;
      writeable := true;
    }

    /** The header of the next frame, put into the empty write buffer. */
    method StartFrame(ghost data: Bytes, n: nat)
      requires Good() && writeBuffer.Contents() == [] && n == |data| && TextFrame(data).Valid()
      modifies `sent, writeBuffer, writeBuffer.data
      ensures Buffers() && writeBuffer.data == old(writeBuffer.data)
      ensures Abs() == old(Abs()).(w := old(Out()).(buf := HeadBytes(TextFrame(data).ToHead()), head := 0,
                                                    sent := old(sent) + [TextFrame(data)]))
    {
      hide HeadBytes, Sound;
      SoundMeansRoom(Out());
      writeBuffer.Compact();
      AppendHead(writeBuffer, TEXT, n);
      sent := sent + [TextFrame(data)];
    }

    method BeginFrame(data: Bytes, acceptHead: nat, accept: nat)
      requires Good() && writeBuffer.Contents() == [] && TextFrame(data).Valid()
      modifies `sent, `wire, `writeable, writeBuffer, writeBuffer.data
      ensures Buffers() && (writeBuffer.data == old(writeBuffer.data) || fresh(writeBuffer.data))
      ensures old(Out()).size >= 16
      ensures Abs() == old(Abs()).(w := Begun(old(Out()), data, acceptHead, accept))
    {
      hide HeadBytes, DataBehind, Flushed;
      StartFrame(data, |data|);
      Flush(acceptHead);
      SendData(data, accept);
    }

    method SendData(data: Bytes, accept: nat)
      requires Buffers()
      modifies `wire, `writeable, writeBuffer, writeBuffer.data
      ensures Buffers() && (writeBuffer.data == old(writeBuffer.data) || fresh(writeBuffer.data))
      ensures Abs() == old(Abs()).(w := DataBehind(old(Out()), data, accept))
    {
      hide Kept;
      var na := 0;
      if writeBuffer.Used() == 0 {
        na := Min(|data|, accept);
      }
      wire := wire + data[..na];
      if na < |data| {
        Keep(data[na..]);
      }
    }

    method Write(data: Bytes, acc: Accepts) returns (na: nat)
      requires Good() && TextFrame(data).Valid()
      modifies this, writeBuffer, writeBuffer.data
      ensures Good() && (writeBuffer.data == old(writeBuffer.data) || fresh(writeBuffer.data))
      ensures old(Out()).size >= 16 && Abs() == old(Abs()).(w := Written(old(Out()), data, acc).0)
      ensures na == Written(old(Out()), data, acc).1
    {
      hide Begun, Flushed, Sound, Valid;
      ValidWriter(Abs());
      FlushKeepsOut(Out(), acc.before);
      WriterChanges(Abs(), Flushed(Out(), acc.before));
      WrittenIsValid(Abs(), data, acc);
      na := 0;
      if writeBuffer.Used() > 0 {
        Flush(acc.before);
      }
      if writeBuffer.Used() == 0 {
        BeginFrame(data, acc.head, acc.data);
        na := |data|;
      }
    }

    /** The Writeable event. */
    method OnWriteable(accept: nat)
      requires Good()
      modifies this, writeBuffer, writeBuffer.data
      ensures Good() && writeBuffer.data == old(writeBuffer.data)
      ensures Abs() == old(Abs()).(w := Drained(old(Out()), accept))
    {
      hide Flushed, Valid, Sound;
      ValidWriter(Abs());
      DrainedIsValid(Abs(), accept);
      if writeBuffer.Used() > 0 {
        Flush(accept);
      }
      if writeBuffer.Used() == 0 {
        writeable := false;
      }
    }
  
    // Reading

    /** Stream::read into the read buffer, which is packed down first. */
    method FillBuffer(fill: Fill)
      requires Good()
      modifies `src, readBuffer, readBuffer.data
      ensures Buffers() && readBuffer.data == old(readBuffer.data)
      ensures Abs() == Filled(old(Abs()), fill)
    {
      readBuffer.Compact();
      var nr := Min(fill.k, Min(readBuffer.Free(), |src|));
      var na := readBuffer.PushFrom(src[..nr]);
      src := src[nr..];
    }

    /** read_frame. */
    method ReadFrame(fill: Fill) returns (c: Condition)
      requires Good() && !inData
      modifies this, readBuffer, readBuffer.data, writeBuffer, writeBuffer.data
      ensures Good() && readBuffer.data == old(readBuffer.data)
      ensures writeBuffer.data == old(writeBuffer.data) || fresh(writeBuffer.data)
      ensures (Abs(), c) == FrameRead(old(Abs()), fill)
    {
      hide Filled, Parsed, Sound;
      FrameReadIsValid(Abs(), fill);
      FilledIsValid(Abs(), fill);
      FillBuffer(fill);
      if fill.c != Ok {
        return fill.c;
      }
      c := ParseFrame();
    }

    /** The part of read_frame that looks at the read buffer. */
    method ParseFrame() returns (c: Condition)
      requires Good() && !inData
      modifies this, readBuffer, readBuffer.data, writeBuffer, writeBuffer.data
      ensures Buffers() && readBuffer.data == old(readBuffer.data)
      ensures writeBuffer.data == old(writeBuffer.data) || fresh(writeBuffer.data)
      ensures (Abs(), c) == Parsed(old(Abs()))
    {
      hide Controlled, ParseHead, Sound, NextFormat;
      var br := new BufferReader(readBuffer);
      var head := ParseHeader(br);
      if head.None? {
        return Wait;
      }
      if head.value.opcode < 8 {
        br.Done();
        c := BeginData(head.value);
      } else {
        c := ParseControl(br, head.value);
      }
    }

    /** The part of read_frame for a control frame, behind the header. */
    method ParseControl(br: BufferReader, h: Head) returns (c: Condition)
      requires Good() && br.buffer == readBuffer && br.Valid() && h.Valid()
      modifies `writeable, `sent, br, readBuffer, readBuffer.data, writeBuffer, writeBuffer.data
      ensures Buffers() && readBuffer.data == old(readBuffer.data)
      ensures writeBuffer.data == old(writeBuffer.data) || fresh(writeBuffer.data)
      ensures (Abs(), c) == Controlled(old(Abs()), h, old(br.pos))
    {
      hide Handled, Sound, Masked;
      if !h.fin || h.len > 125 {
        return Error;
      }
      var payload := br.Next(h.len);
      if payload.None? {
        return Wait;
      }
      br.Done();
      c := HandleControl(h, payload.value);
    }

    method SetFormat(opcode: nat) returns (known: bool)
      modifies `readFormat
      ensures known == NextFormat(old(readFormat), opcode).Some?
      ensures readFormat == if known then NextFormat(old(readFormat), opcode).value else old(readFormat)
    {
      if opcode == CONT {
        return readFormat != NoFormat;
      } else if opcode == TEXT {
        readFormat := Text;
      } else if opcode == BINARY {
        readFormat := Binary;
      } else {
        return false;
      }
      return true;
    }

    method BeginData(h: Head) returns (c: Condition)
      requires !inData && h.Valid()
      modifies `inData, `readFormat, `readPos, `readLen, `readUsemask, `readMask
      ensures var format := NextFormat(old(readFormat), h.opcode);
              if format.None? then Phase() == old(Phase()) && readFormat == old(readFormat) && c == Error
              else Phase() == InData(h.len, 0, h.mask) && readFormat == format.value && c == Ok
    {
      hide NextFormat;
      var known := SetFormat(h.opcode);
      if !known {
        return Error;
      }
      readUsemask := h.mask.Some?;
      readMask := if h.mask.Some? then h.mask.value else [];
      readLen := h.len;
      readPos := 0;
      inData := true;
      return Ok;
    }

    /** The part of read_frame behind br.done() for a control frame. */
    method HandleControl(h: Head, payload: Bytes) returns (c: Condition)
      requires Good() && h.Valid() && |payload| == h.len <= 125
      modifies `writeable, `sent, writeBuffer, writeBuffer.data
      ensures Buffers() && (writeBuffer.data == old(writeBuffer.data) || fresh(writeBuffer.data))
      ensures (Abs(), c) == Handled(old(Abs()), h.opcode, Masked(payload, h.mask, 0))
    {
      hide Replied, Sound, Masked;
      var data := new Buffer(128);
      var na := data.PushFrom(payload);
      assert payload[..na] == payload;
      UnmaskPayload(data, h.mask);
      c := Ok;
      if h.opcode == CLOSE {
        c := HandleClose(data);
      } else if h.opcode == PING {
        HandlePing(data);
      } else if h.opcode != PONG {
        c := Error;
      }
    }

    /** A close frame is sent back with the code and the text that came; without a code, read_u16 underflows. */
    method HandleClose(data: Buffer) returns (c: Condition)
      requires Good() && data.Valid() && data != writeBuffer && data.data != writeBuffer.data && data.Used() <= 125
      requires data != readBuffer && data.data != readBuffer.data
      modifies `writeable, `sent, writeBuffer, writeBuffer.data, data, data.data
      ensures Buffers() && (writeBuffer.data == old(writeBuffer.data) || fresh(writeBuffer.data))
      ensures (Abs(), c) == if old(data.Used()) < 2 then (old(Abs()), Wait)
                            else (old(Abs()).(w := Replied(old(Out()), CLOSE, old(data.Contents()))), Ok)
    {
      hide Replied, Sound;
      var close := ReadClose(data);
      if close.None? {
        return Wait;
      }
      PlaceReply(CLOSE, ToBigEndian(close.value.0, 2), close.value.1);
      return Ok;
    }

    method HandlePing(data: Buffer)
      requires Good() && data.Valid() && data != writeBuffer && data.data != writeBuffer.data && data.Used() <= 125
      modifies `writeable, `sent, writeBuffer, writeBuffer.data
      ensures Buffers() && (writeBuffer.data == old(writeBuffer.data) || fresh(writeBuffer.data))
      ensures Abs() == old(Abs()).(w := Replied(old(Out()), PONG, old(data.Contents())))
    {
      hide Replied;
      assert [] + data.Contents() == data.Contents();
      PlaceReply(PONG, [], data.data[data.head..data.tail]);
    }

    /** The end of handle_close and of handle_ping: a frame is put into the write buffer. */
    method PlaceReply(opcode: nat, front: Bytes, back: Bytes)
      requires Good() && opcode < 16 && |front| + |back| <= 125
      modifies `writeable, `sent, writeBuffer, writeBuffer.data
      ensures Buffers() && (writeBuffer.data == old(writeBuffer.data) || fresh(writeBuffer.data))
      ensures Abs() == old(Abs()).(w := Replied(old(Out()), opcode, front + back))
    {
      hide HeadBytes, Sound, Replied, FrameBytes;
      ghost var w, f := Out(), Frame(true, opcode, None, front + back);
      ShortHead(f);
      var moved := writeBuffer.EnsureFree(|front| + |back| + 4);
      AppendFrame(writeBuffer, opcode, front, back);
      writeable := true;
      sent := sent + [f];
      RepliedIs(w, Out(), opcode, front + back);
    }

    /** The Readable event. */
    method OnReadable(fill: Fill) returns (c: Condition)
      requires Good()
      modifies this, readBuffer, readBuffer.data, writeBuffer, writeBuffer.data
      ensures Good() && readBuffer.data == old(readBuffer.data)
      ensures writeBuffer.data == old(writeBuffer.data) || fresh(writeBuffer.data)
      ensures (Abs(), c) == if old(inData) then (old(Abs()), Ok) else FrameRead(old(Abs()), fill)
    {
      hide FrameRead, Sound;
      c := Ok;
      if !inData {
        c := ReadFrame(fill);
      }
    }

    /** The data part of read: bytes from the read buffer first, then from the streams below, unmasked in place. */
    method ReadData(buffer: array<u8>, n: nat, fill: Fill, c0: Condition) returns (c: Condition, na: nat)
      requires Good() && inData && n <= buffer.Length && buffer != readBuffer.data && buffer != writeBuffer.data
      modifies `inData, `readPos, `src, readBuffer, readBuffer.data, buffer
      ensures Buffers() && readBuffer.data == old(readBuffer.data)
      ensures na <= buffer.Length
      ensures (Abs(), c, buffer[..na]) == DataRead(old(Abs()), n, fill, c0)
      ensures buffer[na..] == old(buffer[na..])
    {
      hide Masked, Sound, DataRead;
      var mask, pos := if readUsemask then Some(readMask) else None, readPos;
      var raw;
      raw, c := TakeData(n, fill, c0);
      na := |raw|;
      Deliver(buffer, raw, mask, pos);
    }

    method TakeData(n: nat, fill: Fill, c0: Condition) returns (raw: Bytes, c: Condition)
      requires Good() && inData
      modifies `inData, `readPos, `src, readBuffer, readBuffer.data
      ensures Buffers() && readBuffer.data == old(readBuffer.data) && |raw| <= n
      ensures (Abs(), c, Masked(raw, old(Phase()).mask, old(readPos))) == DataRead(old(Abs()), n, fill, c0)
    {
      hide Masked, Valid, Taken;
      ghost var st := Abs();
      TakenIsPart(st, n, fill);
      var want := Min(n, readLen - readPos);
      raw, c := TakeRaw(want, fill, c0);
      readPos := readPos + |raw|;
      if readPos == readLen {
        inData := false;
      }
    }

    /** Takes bytes from the read buffer, and from the streams below when there are not enough. */
    method TakeRaw(want: nat, fill: Fill, c0: Condition) returns (raw: Bytes, c: Condition)
      requires Buffers()
      modifies `src, readBuffer, readBuffer.data
      ensures Buffers() && readBuffer.data == old(readBuffer.data)
      ensures (raw, Abs()) == Taken(old(Abs()), want, fill)
      ensures c == if |old(readBuffer.Contents())| < want then fill.c else c0
    {
      hide Taken;
      TakenParts(Abs(), want, fill);
      c := c0;
      raw := PopRaw(want);
      if |raw| < want {
        var nr := Min(fill.k, Min(want - |raw|, |src|));
        c := fill.c;
        raw, src := raw + src[..nr], src[nr..];
      }
    }

    method PopRaw(want: nat) returns (raw: Bytes)
      requires Buffers()
      modifies readBuffer, readBuffer.data
      ensures Buffers() && readBuffer.data == old(readBuffer.data)
      ensures var (buf, a) := (old(readBuffer.Contents()), FromBuffer(old(Abs()), want));
              |raw| == a && raw == buf[..a] && Abs() == old(Abs()).(buf := buf[a..])
    {
      raw := readBuffer.PopTo(want);
    }

    method Read(buffer: array<u8>, n: nat, fills: (Fill, Fill)) returns (c: Condition, na: nat)
      requires Good() && n <= buffer.Length && buffer != readBuffer.data && buffer != writeBuffer.data
      modifies this, readBuffer, readBuffer.data, writeBuffer, writeBuffer.data, buffer
      ensures Good() && readBuffer.data == old(readBuffer.data)
      ensures writeBuffer.data == old(writeBuffer.data) || fresh(writeBuffer.data)
      ensures na <= buffer.Length
      ensures (Abs(), c, buffer[..na]) == ReadBytes(old(Abs()), n, fills)
      ensures buffer[na..] == old(buffer[na..])
    {
      hide FrameRead, DataRead, Sound;
      c, na := Ok, 0;
      if !inData {
        c := ReadFrame(fills.0);
      }
      if inData {
        DataReadIsValid(Abs(), n, fills.1, c);
        c, na := ReadData(buffer, n, fills.1, c);
      }
    }
  }

  lemma FilledIsValid(st: State, fill: Fill)
    requires Valid(st)
    ensures Valid(Filled(st, fill))
  {
  }

  lemma TakenIsPart(st: State, n: nat, fill: Fill)
    requires Valid(st) && st.phase.InData?
    ensures var InData(len, pos, mask) := st.phase;
            var (raw, st') := Taken(st, Min(n, len - pos), fill);
            && |raw| <= n && pos + |raw| <= len && (mask.Some? ==> |mask.value| == 4)
            && st'.phase == st.phase
  {
  }

  lemma TakenParts(st: State, want: nat, fill: Fill)
    ensures var a := FromBuffer(st, want);
            var nr := if a < want then Min(fill.k, Min(want - a, |st.src|)) else 0;
            Taken(st, want, fill)
            == if a < want then (st.buf[..a] + st.src[..nr], st.(buf := st.buf[a..], src := st.src[nr..]))
               else (st.buf[..a], st.(buf := st.buf[a..]))
  {
    var a := FromBuffer(st, want);
    assert st.src[0..] == st.src;
    assert st.buf[..a] + st.src[..0] == st.buf[..a];
  }

  lemma DataReadIsValid(st: State, n: nat, fill: Fill, c0: Condition)
    requires Valid(st) && st.phase.InData?
    ensures Valid(DataRead(st, n, fill, c0).0)
  {
  }

  lemma ShortHead(f: Frame)
    requires f.mask.None? && f.opcode < 16 && |f.payload| <= 125
    ensures f.Valid() && |HeadBytes(f.ToHead())| == 2
    ensures FrameBytes(f) == HeadBytes(f.ToHead()) + f.payload
  {
  }

  /** The unmasking loop. */
  method Unmask(buffer: array<u8>, n: nat, mask: Bytes, pos: nat)
    requires n <= buffer.Length && |mask| == 4
    modifies buffer
    ensures buffer[..n] == Masked(old(buffer[..n]), Some(mask), pos)
    ensures buffer[n..] == old(buffer[n..])
  {
    hide Xor, Masked;
    ghost var before := buffer[..];
    ghost var wanted := Masked(before[..n], Some(mask), pos);
    var ir := pos;
    for i := 0 to n
      invariant ir == pos + i
      invariant forall k | 0 <= k < i :: buffer[k] == wanted[k]
      invariant forall k | i <= k < buffer.Length :: buffer[k] == before[k]
    {
      MaskedAt(before[..n], mask, pos, i);
      buffer[i] := Xor(buffer[i], mask[ir % 4]);
      ir := ir + 1;
    }
    assert buffer[..n] == wanted;
    assert before[..n] == old(buffer[..n]);
  }

  lemma MaskedAt(s: Bytes, mask: Bytes, pos: nat, i: nat)
    requires i < |s| && |mask| == 4
    ensures Masked(s, Some(mask), pos)[i] == Xor(s[i], mask[(pos + i) % 4])
  {
  }

  /** Puts raw into the reader's array, and unmasks it there. */
  method Deliver(buffer: array<u8>, raw: Bytes, mask: Option<Bytes>, pos: nat)
    requires |raw| <= buffer.Length && (mask.Some? ==> |mask.value| == 4)
    modifies buffer
    ensures buffer[..|raw|] == Masked(raw, mask, pos)
    ensures buffer[|raw|..] == old(buffer[|raw|..])
  {
    hide Masked;
    forall i | 0 <= i < |raw| {
      buffer[i] := raw[i];
    }
    assert buffer[..|raw|] == raw;
    if mask.Some? {
      Unmask(buffer, |raw|, mask.value, pos);
    } else {
      NotMasked(raw, pos);
    }
  }

  /** The header part of read_frame. */
  method ParseHeader(br: BufferReader) returns (h: Option<Head>)
    requires br.Valid() && br.pos == 0
    modifies br
    ensures br.Valid() && h == ParseHead(br.buffer.Contents())
    ensures h.Some? ==> h.value.Valid() && br.pos == HeadSize(br.buffer.Contents()[1])
  {
    hide FromBigEndian, ToBigEndian, Pow256;
    ghost var buf := br.buffer.Contents();
    var a :- br.Next(1);
    var b :- br.Next(1);
    assert a[0] == buf[0] && b[0] == buf[1];
    var len :- ParseLength(br, b[0]);
    var extra := br.pos - 2;
    var mask := None;
    if b[0] >= 128 {
      var key :- br.Next(4);
      assert key == buf[2 + extra..6 + extra];
      mask := Some(key);
    }
    return Some(Head(a[0] >= 128, (a[0] % 16) as nat, mask, len));
  }

  method ParseLength(br: BufferReader, b: u8) returns (len: Option<nat>)
    requires br.Valid() && br.pos == 2
    modifies br
    ensures br.Valid() && (len.Some? <==> |br.buffer.Contents()| >= 2 + ExtraLength(b))
    ensures len.Some? ==> br.pos == 2 + ExtraLength(b) && len.value < Pow256(8)
    ensures len.Some? ==>
              len.value == if ExtraLength(b) == 0 then (b % 128) as nat
                           else FromBigEndian(br.buffer.Contents()[2..2 + ExtraLength(b)])
  {
    hide FromBigEndian, ToBigEndian;
    assert Pow256(2) <= Pow256(8);
    if b % 128 == 126 {
      len := br.ReadUint(2);
      if len.Some? {
        ToFromBigEndian(br.buffer.Contents()[2..4]);
      }
    } else if b % 128 == 127 {
      len := br.ReadUint(8);
      if len.Some? {
        ToFromBigEndian(br.buffer.Contents()[2..10]);
      }
    } else {
      len := Some((b % 128) as nat);
    }
  }

  /** The part of handle_close that reads the code and the text; None stands for the Underflow of read_u16. */
  method ReadClose(data: Buffer) returns (r: Option<(nat, Bytes)>)
    requires data.Valid()
    modifies data, data.data
    ensures data.Valid() && data.data == old(data.data)
    ensures r.None? <==> old(data.Used()) < 2
    ensures r.Some? ==> old(data.Contents()) == ToBigEndian(r.value.0, 2) + r.value.1
    ensures r.None? ==> data.Contents() == old(data.Contents())
  {
    hide FromBigEndian, ToBigEndian;
    ghost var payload := data.Contents();
    var br := new BufferReader(data);
    var code :- br.ReadUint(2);
    var msglen := data.Used() - 2;
    var msg := br.Next(msglen);
    ToFromBigEndian(payload[0..2]);
    assert payload == payload[0..2] + payload[2..2 + msglen];
    br.Done();
    return Some((code, msg.value));
  }

  method UnmaskPayload(data: Buffer, mask: Option<Bytes>)
    requires data.Valid() && data.head == 0 && (mask.Some? ==> |mask.value| == 4)
    modifies data.data
    ensures data.Valid() && data.Contents() == Masked(old(data.Contents()), mask, 0)
  {
    hide Masked;
    ghost var payload := data.Contents();
    assert payload == data.data[..data.tail];
    if mask.Some? {
      Unmask(data.data, data.tail, mask.value, 0);
      assert data.Contents() == data.data[..data.tail];
    } else {
      NotMasked(payload, 0);
    }
  }

  lemma NotMasked(s: Bytes, pos: nat)
    ensures Masked(s, None, pos) == s
  {
  }

  /** An unmasked header written behind what is in the buffer. */
  method AppendHead(buffer: Buffer, opcode: nat, length: nat)
    requires buffer.Valid() && Head(true, opcode, None, length).Valid()
    requires |HeadBytes(Head(true, opcode, None, length))| <= buffer.Free()
    modifies buffer, buffer.data
    ensures buffer.Valid() && buffer.data == old(buffer.data) && buffer.head == old(buffer.head)
    ensures buffer.Contents() == old(buffer.Contents()) + HeadBytes(Head(true, opcode, None, length))
  {
    hide HeadBytes;
    var bw := new BufferWriter(buffer);
    assert bw.Pending() == [];
    BuildFrame(bw, opcode, length);
    bw.Done();
  }

  /** A control frame written behind what is in the buffer. */
  method AppendFrame(buffer: Buffer, opcode: nat, front: Bytes, back: Bytes)
    requires buffer.Valid() && opcode < 16 && |front| + |back| <= 125 && buffer.Free() >= |front| + |back| + 2
    modifies buffer, buffer.data
    ensures buffer.Valid() && buffer.data == old(buffer.data) && buffer.head == old(buffer.head)
    ensures Frame(true, opcode, None, front + back).Valid()
    ensures buffer.Contents() == old(buffer.Contents()) + FrameBytes(Frame(true, opcode, None, front + back))
  {
    hide HeadBytes, FrameBytes;
    ghost var f := Frame(true, opcode, None, front + back);
    ShortHead(f);
    var bw := new BufferWriter(buffer);
    assert bw.Pending() == [];
    BuildFrame(bw, opcode, |front| + |back|);
    assert bw.Pending() == HeadBytes(f.ToHead());
    var ok := bw.WriteBytes(front);
    ok := bw.WriteBytes(back);
    ConcatAssoc(HeadBytes(f.ToHead()), front, back);
    bw.Done();
  }

  /** The state behind ensure_free and the writing of the frame is the one that Replied describes. */
  lemma RepliedIs(w: Writer, w': Writer, opcode: nat, payload: Bytes)
    requires Sound(w) && opcode < 16 && |payload| <= 125
    requires var f := Frame(true, opcode, None, payload);
             var reqd, room := |payload| + 4, w.size - w.head - |w.buf|;
             && w'.buf == w.buf + FrameBytes(f) && w'.sent == w.sent + [f] && w'.writeable && w'.wire == w.wire
             && w'.head == (if reqd <= room then w.head else 0)
             && w'.size == if reqd > room + w.head then |w.buf| + reqd else w.size
    ensures w' == Replied(w, opcode, payload)
  {
  }

  lemma SoundMeansRoom(w: Writer)
    requires Sound(w)
    ensures w.size >= 16
  {
  }

  lemma ValidWriter(st: State)
    requires Valid(st)
    ensures Sound(st.w) && st.w.size >= 16
  {
  }

  lemma WriterChanges(st: State, w: Writer)
    requires Valid(st) && Sound(w)
    ensures Valid(st.(w := w))
  {
  }

  lemma WrittenIsValid(st: State, data: Bytes, acc: Accepts)
    requires Valid(st) && TextFrame(data).Valid()
    ensures st.w.size >= 16 && Valid(st.(w := Written(st.w, data, acc).0))
  {
    hide Written;
    WriteOut(st.w, data, acc);
  }

  lemma DrainedIsValid(st: State, accept: nat)
    requires Valid(st)
    ensures Valid(st.(w := Drained(st.w, accept)))
  {
  }

  lemma UnmaskedHead(opcode: nat, length: nat)
    requires Head(true, opcode, None, length).Valid()
    ensures HeadBytes(Head(true, opcode, None, length)) == [(128 + opcode) as u8] + LengthBytes(length, 0)
  {
  }

  method BuildFrame(bw: BufferWriter, opcode: nat, length: nat)
    requires bw.Valid() && Head(true, opcode, None, length).Valid()
    requires bw.pos + |HeadBytes(Head(true, opcode, None, length))| <= bw.buffer.Free()
    modifies bw, bw.buffer.data
    ensures bw.Valid() && bw.buffer.Contents() == old(bw.buffer.Contents())
    ensures bw.Pending() == old(bw.Pending()) + HeadBytes(Head(true, opcode, None, length))
  {
    UnmaskedHead(opcode, length);
    hide LengthBytes, HeadBytes;
    ghost var before := bw.Pending();
    var ok := bw.WriteBytes([(128 + opcode) as u8]);
    BuildLength(bw, length);
    ConcatAssoc(before, [(128 + opcode) as u8], LengthBytes(length, 0));
  }

  method BuildLength(bw: BufferWriter, length: nat)
    requires bw.Valid() && length < Pow256(8) && bw.pos + |LengthBytes(length, 0)| <= bw.buffer.Free()
    modifies bw, bw.buffer.data
    ensures bw.Valid() && bw.buffer.Contents() == old(bw.buffer.Contents())
    ensures bw.Pending() == old(bw.Pending()) + LengthBytes(length, 0)
  {
    hide ToBigEndian;
    ghost var before := bw.Pending();
    var ok;
    if length < 126 {
      ok := bw.WriteBytes([length as u8]);
    } else if length < 65536 {
      ok := bw.WriteBytes([126]);
      ok := bw.WriteUint(length, 2);
      ConcatAssoc(before, [126], ToBigEndian(length, 2));
    } else {
      ok := bw.WriteBytes([127]);
      ok := bw.WriteUint(length, 8);
      ConcatAssoc(before, [127], ToBigEndian(length, 8));
    }
  }
}
