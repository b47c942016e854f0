/**
 The byte buffer of sconex/Buffer.cpp: an array with a head and a tail, refining a queue of bytes.
 */
module Buffers {
  import opened Bytes

  /** s with the bytes x put in at position p. */
  function Inserted(s: Bytes, p: nat, x: Bytes): Bytes
    requires p <= |s|
  {
    s[..p] + x + s[p..]
  }

  /** s without the n bytes at position p. */
  function Removed(s: Bytes, p: nat, n: nat): Bytes
    requires p + n <= |s|
  {
    s[..p] + s[p + n..]
  }

  lemma RemoveUndoesInsert(s: Bytes, p: nat, x: Bytes)
    requires p <= |s|
    ensures Removed(Inserted(s, p, x), p, |x|) == s
  {
  }

  class Buffer {
    var data: array<u8>
    var head: nat
    var tail: nat

    ghost predicate Valid()
      reads this, data
    {
      head <= tail <= data.Length
    }

    ghost function Repr(): set<object>
      reads this
    {
      {this, data}
    }

    ghost function Contents(): (s: Bytes)
      requires Valid()
      reads this, data
      ensures |s| == Used()
    {
      data[head..tail]
    }

    function Size(): nat
      reads this
    {
      data.Length
    }

    function Free(): nat
      requires Valid()
      reads this, data
    {
      data.Length - tail
    }

    function Used(): nat
      requires Valid()
      reads this, data
    {
      tail - head
    }

    function Wasted(): nat
      reads this
    {
      head
    }

    constructor (size: nat)
      ensures Valid() && fresh(Repr())
      ensures Contents() == [] && Size() == size && head == 0
    {
      data := new u8[size](_ => 0);
      head := 0;
      tail := 0;
    }

    constructor Copy(c: Buffer)
      requires c.Valid()
      ensures Valid() && fresh(Repr())
      ensures Contents() == c.Contents() && Size() == c.Size() && head == c.head && tail == c.tail
    {
      var fill := c.data[..];
      var from, upto := c.head, c.tail;
      data := new u8[c.data.Length]((i: nat) => if from <= i < upto && i < |fill| then fill[i] else 0);
      head := c.head;
      tail := c.tail;
    }

    /** Takes in n bytes that were written at the tail. */
    method Push(n: nat)
      requires Valid() && n <= Free()
      modifies this
      ensures Valid() && data == old(data) && head == old(head) && tail == old(tail) + n
      ensures Contents() == old(Contents()) + data[old(tail)..tail]
    {
      tail := tail + n;
    }

    method Compact()
      requires Valid()
      modifies this, data
      ensures Valid() && data == old(data) && head == 0
      ensures Contents() == old(Contents())
    {
      if head > 0 {
        if Used() == 0 {
          head := 0;
          tail := 0;
        } else {
          forall i | 0 <= i < tail - head {
            data[i] := data[head + i];
          }
          assert data[..tail - head] == old(data[head..tail]);
          tail := tail - head;
          head := 0;
        }
      }
    }

    method Pop(n: nat)
      requires Valid() && n <= Used()
      modifies this, data
      ensures Valid() && data == old(data)
      ensures Contents() == old(Contents())[n..]
      ensures head == if n == old(Used()) then 0 else old(head) + n
    {
      head := head + n;
      if head == tail {
        Compact();
      }
    }

    method PopTo(n: nat) returns (out: Bytes)
      requires Valid()
      modifies this, data
      ensures Valid() && data == old(data)
      ensures out == old(Contents())[..Min(n, old(Used()))]
      ensures Contents() == old(Contents())[|out|..]
      ensures head == if |out| == old(Used()) then 0 else old(head) + |out|
    {
      var na := if n > Used() then Used() else n;
      out := data[head..head + na];
      assert out == Contents()[..na];
      Pop(na);
    }

    method PushFrom(src: Bytes) returns (na: nat)
      requires Valid()
      modifies this, data
      ensures Valid() && data == old(data) && head == old(head)
      ensures na == Min(|src|, old(Free())) && tail == old(tail) + na
      ensures Contents() == old(Contents()) + src[..na]
    {
      na := if |src| > Free() then Free() else |src|;
      forall i | 0 <= i < na {
        data[tail + i] := src[i];
      }
      assert data[head..tail] == old(data[head..tail]);
      assert data[tail..tail + na] == src[..na];
      Push(na);
    }

    /** memcpy: overwrites the bytes at position at. */
    method Store(at: nat, x: Bytes)
      requires at + |x| <= data.Length
      modifies data
      ensures data[at..at + |x|] == x
      ensures forall i | 0 <= i < data.Length && !(at <= i < at + |x|) :: data[i] == old(data[i])
    {
      forall i | 0 <= i < |x| {
        data[at + i] := x[i];
      }
    }

    /** memmove: shifts everything from position at onwards up by n. */
    method OpenGap(at: nat, n: nat)
      requires Valid() && head <= at <= tail && n <= Free()
      modifies `tail, data
      ensures Valid() && tail == old(tail) + n
      ensures data[at + n..tail] == old(data[at..tail])
      ensures data[head..at] == old(data[head..at])
    {
      var toend := tail - at;
      if toend > 0 {
        Store(at + n, data[at..tail]);
      }
      tail := tail + n;
    }

    /** memcpy into the gap at position at, between front and back. */
    method FillGap(at: nat, x: Bytes, ghost front: Bytes, ghost back: Bytes)
      requires Valid() && head <= at && at + |x| <= tail
      requires data[head..at] == front && data[at + |x|..tail] == back
      modifies data
      ensures Valid() && Contents() == front + x + back
    {
      Store(at, x);
      assert data[head..at] == front && data[at + |x|..tail] == back;
      assert data[head..tail] == data[head..at] + data[at..at + |x|] + data[at + |x|..tail];
    }

    lemma ContentsFrom(p: nat)
      requires Valid() && p <= Used()
      ensures data[head..head + p] == Contents()[..p] && data[head + p..tail] == Contents()[p..]
    {
      SliceOfSlice(data[..], head, tail, 0, p);
      SliceOfSlice(data[..], head, tail, p, Used());
    }

    lemma ContentsJoined(p: nat, front: Bytes, back: Bytes)
      requires Valid() && p <= Used()
      requires data[head..head + p] == front && data[head + p..tail] == back
      ensures Contents() == front + back
    {
      SliceJoin(data[..], head, head + p, tail);
    }

    /** Puts x in at position p, with the room behind the tail. */
    method InsertInPlace(x: Bytes, p: nat)
      requires Valid() && p <= Used() && |x| <= Free()
      modifies `tail, data
      ensures Valid() && Contents() == Inserted(old(Contents()), p, x)
    {
      ghost var front, back := data[head..head + p], data[head + p..tail];
      ContentsFrom(p);
      OpenGap(head + p, |x|);
      FillGap(head + p, x, front, back);
    }

    /** Puts x in at position p, packing down first when there is no room behind the tail. */
    method InsertFrom(x: Bytes, p: nat)
      requires Valid() && p <= Used() && |x| <= Free() + Wasted()
      modifies this, data
      ensures Valid() && data == old(data)
      ensures Contents() == Inserted(old(Contents()), p, x)
      ensures head == if |x| > old(Free()) then 0 else old(head)
    {
      hide Inserted;
      if |x| > Free() {
        Compact();
      }
      InsertInPlace(x, p);
    }

    /** memmove: shifts everything behind the n bytes at position at down onto them. */
    method CloseGap(at: nat, n: nat)
      requires Valid() && head <= at && at + n <= tail
      modifies `tail, data
      ensures Valid() && tail == old(tail) - n
      ensures data[at..tail] == old(data[at + n..tail])
      ensures data[head..at] == old(data[head..at])
    {
      var toend := tail - at - n;
      if toend > 0 {
        Store(at, data[at + n..tail]);
      }
      tail := tail - n;
    }

    /** Takes the n bytes at position p out. */
    method Remove(p: nat, n: nat)
      requires Valid() && p + n <= Used()
      modifies this, data
      ensures Valid() && data == old(data) && head == old(head)
      ensures Contents() == Removed(old(Contents()), p, n)
    {
      ghost var front, back := Contents()[..p], Contents()[p + n..];
      ContentsFrom(p);
      ContentsFrom(p + n);
      CloseGap(head + p, n);
      ContentsJoined(p, front, back);
    }

    /** Moves the contents to a larger array; does nothing when the array is large enough already. */
    method Resize(newSize: nat) returns (moved: bool)
      requires Valid()
      modifies this
      ensures Valid() && moved == (newSize > old(Size()))
      ensures Contents() == old(Contents())
      ensures moved ==> Size() == newSize && head == 0 && fresh(data)
      ensures !moved ==> data == old(data) && head == old(head)
    {
      if newSize <= Size() {
        return false;
      }
      var contents := data[head..tail];
      var bigger := new u8[newSize]((i: nat) => if i < |contents| then contents[i] else 0);
      assert bigger[..tail - head] == contents;
      data := bigger;
      tail := tail - head;
      head := 0;
      return true;
    }

    /** Makes room for reqd more bytes, packing down or moving only when that is needed. */
    method EnsureFree(reqd: nat) returns (moved: bool)
      requires Valid()
      modifies this, data
      ensures Valid() && Free() >= reqd
      ensures Contents() == old(Contents())
      ensures moved == (reqd > old(Free() + Wasted()))
      ensures moved ==> fresh(data) && Free() == reqd
      ensures !moved ==> data == old(data)
      ensures head == if reqd <= old(Free()) then old(head) else 0
    {
      if Free() >= reqd {
        return false;
      }
      if Free() + Wasted() >= reqd {
        Compact();
        return false;
      }
      var extra := reqd - Free() - Wasted();
      moved := Resize(Size() + extra);
    }
  }

  /**
   Reads values from the front of a buffer without consuming them until Done.
   None stands for the Underflow exception.
   */
  class BufferReader {
    const buffer: Buffer
    var pos: nat

    constructor (buffer: Buffer)
      ensures this.buffer == buffer && pos == 0
    {
      this.buffer := buffer;
      pos := 0;
    }

    ghost predicate Valid()
      reads this, buffer, buffer.data
    {
      buffer.Valid() && pos <= buffer.Used()
    }

    method Next(n: nat) returns (r: Option<Bytes>)
      requires Valid()
      modifies this
      ensures Valid()
      ensures r.Some? == (old(pos) + n <= buffer.Used())
      ensures r.None? ==> pos == old(pos)
      ensures r.Some? ==> pos == old(pos) + n && r.value == buffer.Contents()[old(pos)..pos]
    {
      if pos + n > buffer.Used() {
        return None;
      }
      r := Some(buffer.data[buffer.head + pos..buffer.head + pos + n]);
      SliceOfSlice(buffer.data[..], buffer.head, buffer.tail, pos, pos + n);
      pos := pos + n;
    }

    /** read_u8, read_u16, read_u32 and read_u64 for k == 1, 2, 4 and 8, in network order. */
    method ReadUint(k: nat) returns (r: Option<nat>)
      requires Valid()
      modifies this
      ensures Valid()
      ensures r.Some? == (old(pos) + k <= buffer.Used())
      ensures r.None? ==> pos == old(pos)
      ensures r.Some? ==> pos == old(pos) + k && r.value == FromBigEndian(buffer.Contents()[old(pos)..pos])
    {
      var bytes :- Next(k);
      r := Some(FromBigEndian(bytes));
    }

    method Done()
      requires Valid()
      modifies this, buffer, buffer.data
      ensures Valid() && pos == 0 && buffer.data == old(buffer.data)
      ensures buffer.Contents() == old(buffer.Contents())[old(pos)..]
    {
      buffer.Pop(pos);
      pos := 0;
    }
  }

  /**
   Writes values behind the tail of a buffer; Done makes them part of its contents.
   False stands for the Overflow exception.
   */
  class BufferWriter {
    const buffer: Buffer
    var pos: nat

    constructor (buffer: Buffer)
      ensures this.buffer == buffer && pos == 0
    {
      this.buffer := buffer;
      pos := 0;
    }

    ghost predicate Valid()
      reads this, buffer, buffer.data
    {
      buffer.Valid() && pos <= buffer.Free()
    }

    /** What has been written since the last Done. */
    ghost function Pending(): Bytes
      requires Valid()
      reads this, buffer, buffer.data
    {
      buffer.data[buffer.tail..buffer.tail + pos]
    }

    method WriteBytes(v: Bytes) returns (ok: bool)
      requires Valid()
      modifies this, buffer.data
      ensures Valid() && ok == (old(pos) + |v| <= buffer.Free())
      ensures Pending() == if ok then old(Pending()) + v else old(Pending())
      ensures buffer.Contents() == old(buffer.Contents())
    {
      if pos + |v| > buffer.Free() {
        return false;
      }
      var at := buffer.tail + pos;
      forall i | 0 <= i < |v| {
        buffer.data[at + i] := v[i];
      }
      assert buffer.data[buffer.tail..at] == old(buffer.data[buffer.tail..buffer.tail + pos]);
      assert buffer.data[at..at + |v|] == v;
      pos := pos + |v|;
      return true;
    }

    /** write_u8, write_u16, write_u32 and write_u64 for k == 1, 2, 4 and 8, in network order. */
    method WriteUint(v: nat, k: nat) returns (ok: bool)
      requires Valid()
      modifies this, buffer.data
      ensures Valid() && ok == (old(pos) + k <= buffer.Free())
      ensures Pending() == if ok then old(Pending()) + ToBigEndian(v, k) else old(Pending())
      ensures buffer.Contents() == old(buffer.Contents())
    {
      ok := WriteBytes(ToBigEndian(v, k));
    }

    method Done()
      requires Valid()
      modifies this, buffer
      ensures Valid() && pos == 0 && buffer.data == old(buffer.data) && buffer.head == old(buffer.head)
      ensures buffer.Contents() == old(buffer.Contents()) + old(Pending())
    {
      buffer.Push(pos);
      pos := 0;
    }
  }

  /** A reader gets back from a buffer the value a writer put into it, for every width. */
  method WriteThenRead(b: Buffer, v: nat, k: nat) returns (r: Option<nat>)
    requires b.Valid() && b.Contents() == [] && v < Pow256(k)
    modifies b, b.data
    ensures b.Valid()
    ensures r == if k <= old(b.Free()) then Some(v) else None
    ensures b.Contents() == []
  {
    hide FromBigEndian, Pow256;
    FromToBigEndian(v, k);
    var bw := new BufferWriter(b);
    var ok := bw.WriteUint(v, k);
    if !ok {
      return None;
    }
    bw.Done();
    var br := new BufferReader(b);
    r := br.ReadUint(k);
    assert b.Contents()[0..k] == ToBigEndian(v, k);
    br.Done();
  }
}
