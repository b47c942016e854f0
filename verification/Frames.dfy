/**
 The frames of section 5 of RFC 6455, as http/WebSocket.cpp builds and parses them.
 */
module Frames {
  import opened Bytes

  const CONT := 0
  const TEXT := 1
  const BINARY := 2
  const CLOSE := 8
  const PING := 9
  const PONG := 10

  datatype Head = Head(fin: bool, opcode: nat, mask: Option<Bytes>, len: nat) {
    predicate Valid() {
      opcode < 16 && len < Pow256(8) && (mask.Some? ==> |mask.value| == 4)
    }
  }

  /** The length byte without the mask bit, and the longer length behind it. */
  function LengthBytes(len: nat, flag: nat): Bytes
    requires len < Pow256(8) && flag <= 128
  {
    if len < 126 then [(flag + len) as u8]
    else if len < 65536 then [(flag + 126) as u8] + ToBigEndian(len, 2)
    else [(flag + 127) as u8] + ToBigEndian(len, 8)
  }

  /** A frame header, with the shortest form of the length. */
  function HeadBytes(h: Head): (s: Bytes)
    requires h.Valid()
    ensures 2 <= |s| <= 14
  {
    [((if h.fin then 128 else 0) + h.opcode) as u8] +
    LengthBytes(h.len, if h.mask.Some? then 128 else 0) +
    if h.mask.Some? then h.mask.value else []
  }

  function ExtraLength(b: u8): nat {
    if b % 128 == 126 then 2 else if b % 128 == 127 then 8 else 0
  }

  /** The size of a header whose second byte is b. */
  function HeadSize(b: u8): nat {
    2 + ExtraLength(b) + if b >= 128 then 4 else 0
  }

  /** The header at the front of buf; None stands for an Underflow. The reserved bits are ignored. */
  function ParseHead(buf: Bytes): (r: Option<Head>)
    ensures r.Some? ==> |buf| >= 2 && |buf| >= HeadSize(buf[1])
  {
    if |buf| < 2 || |buf| < HeadSize(buf[1]) then None
    else
      var (b, extra) := (buf[1], ExtraLength(buf[1]));
      Some(Head(buf[0] >= 128, (buf[0] % 16) as nat, if b >= 128 then Some(buf[2 + extra..6 + extra]) else None,
                if extra == 0 then (b % 128) as nat else FromBigEndian(buf[2..2 + extra])))
  }

  lemma Pow256Of2()
    ensures Pow256(2) == 65536
  {
  }

  /** Parsing undoes building, for every opcode and every length, whatever follows. */
  lemma HeadParses(h: Head, rest: Bytes)
    requires h.Valid()
    ensures ParseHead(HeadBytes(h) + rest) == Some(h)
    ensures HeadSize((HeadBytes(h) + rest)[1]) == |HeadBytes(h)|
  {
    hide FromBigEndian, ToBigEndian;
    var buf := HeadBytes(h) + rest;
    var k := if h.len < 126 then 0 else if h.len < 65536 then 2 else 8;
    assert buf[2..2 + k] == if k == 0 then [] else ToBigEndian(h.len, k);
    assert h.mask.Some? ==> buf[2 + k..6 + k] == h.mask.value;
    Pow256Of2();
    FromToBigEndian(h.len, k + if k == 0 then 8 else 0);
  }

  /** No header that says the same is shorter than the one that is built. */
  lemma HeadIsShortest(h: Head, buf: Bytes)
    requires h.Valid() && ParseHead(buf) == Some(h)
    ensures |HeadBytes(h)| <= HeadSize(buf[1])
  {
    var extra := ExtraLength(buf[1]);
    if extra == 2 {
      ToFromBigEndian(buf[2..4]);
      assert Pow256(2) == 65536;
    }
  }

  /** A header that has not arrived completely is not taken for another one. */
  lemma HeadNeedsAll(h: Head, n: nat)
    requires h.Valid() && n < |HeadBytes(h)|
    ensures ParseHead(HeadBytes(h)[..n]).None?
  {
    HeadParses(h, []);
    hide HeadBytes, FromBigEndian;
    assert HeadBytes(h) + [] == HeadBytes(h);
    if n >= 2 {
      assert HeadBytes(h)[..n][1] == HeadBytes(h)[1];
    }
  }

  /** Bit k of a number, of which bit 0 is the lowest. */
  predicate Bit(n: nat, k: nat) {
    if k == 0 then n % 2 == 1 else Bit(n / 2, k - 1)
  }

  predicate IsSet(b: u8, k: nat) {
    Bit(b as nat, k)
  }

  lemma {:induction false} TopBit(n: nat, k: nat)
    requires n < Pow2(k + 1)
    ensures Bit(n, k) <==> n >= Pow2(k)
  {
    if k > 0 {
      TopBit(n / 2, k - 1);
    }
  }

  lemma HighestBit(b: u8)
    ensures IsSet(b, 7) <==> b >= 128
  {
    assert Pow2(7) == 128;
    TopBit(b as nat, 7);
  }

  /**
   Every header that is parsed, whatever the reserved bits and however the length is written: the highest bit of the
   first byte is the final bit, its lowest four are the opcode; the highest bit of the second byte tells of a key, and
   the others are the length, or tell of a length in network order that follows.
   */
  lemma HeadOfAny(buf: Bytes)
    ensures ParseHead(buf).Some? <==>
              |buf| >= 2 &&
              var l := buf[1] % 128;
              |buf| >= 2 + (if l == 126 then 2 else if l == 127 then 8 else 0) + if IsSet(buf[1], 7) then 4 else 0
    ensures ParseHead(buf).Some? ==>
              var (h, l) := (ParseHead(buf).value, buf[1] % 128);
              && (h.fin <==> IsSet(buf[0], 7)) && h.opcode == (buf[0] % 16) as nat
              && h.len == (if l == 126 then FromBigEndian(buf[2..4])
                           else if l == 127 then FromBigEndian(buf[2..10])
                           else l as nat)
              && (h.mask.Some? <==> IsSet(buf[1], 7))
              && (h.mask.Some? ==> h.mask.value == buf[HeadSize(buf[1]) - 4..HeadSize(buf[1])])
  {
    if |buf| >= 2 {
      HighestBit(buf[0]);
      HighestBit(buf[1]);
    }
    hide IsSet, FromBigEndian;
  }

  // Masking

  /** The exclusive or of two numbers of k bits. */
  function XorBits(a: nat, b: nat, k: nat): nat {
    if k == 0 then 0 else (a + b) % 2 + 2 * XorBits(a / 2, b / 2, k - 1)
  }

  lemma {:induction false} XorBounds(a: nat, b: nat, k: nat)
    ensures XorBits(a, b, k) < Pow2(k)
  {
    if k > 0 {
      XorBounds(a / 2, b / 2, k - 1);
    }
  }

  function Pow2(k: nat): nat {
    if k == 0 then 1 else 2 * Pow2(k - 1)
  }

  function Xor(a: u8, b: u8): u8 {
    XorBounds(a as nat, b as nat, 8);
    assert Pow2(8) == 256;
    XorBits(a as nat, b as nat, 8) as u8
  }

  lemma LowestBit(a: nat, b: nat, high: nat)
    ensures var c := (a + b) % 2 + 2 * high;
            c / 2 == high && (c + b) % 2 == a % 2
  {
  }

  lemma {:induction false} XorBitsTwice(a: nat, b: nat, k: nat)
    requires a < Pow2(k)
    ensures XorBits(XorBits(a, b, k), b, k) == a
  {
    if k > 0 {
      XorBitsTwice(a / 2, b / 2, k - 1);
      LowestBit(a, b, XorBits(a / 2, b / 2, k - 1));
    }
  }

  lemma XorTwice(a: u8, b: u8)
    ensures Xor(Xor(a, b), b) == a
  {
    assert Pow2(8) == 256;
    XorBitsTwice(a as nat, b as nat, 8);
  }

  lemma {:induction false} BitOfXorBits(a: nat, b: nat, n: nat, k: nat)
    requires k < n
    ensures Bit(XorBits(a, b, n), k) <==> Bit(a, k) != Bit(b, k)
  {
    var high := XorBits(a / 2, b / 2, n - 1);
    LowestBit(a, b, high);
    if k > 0 {
      BitOfXorBits(a / 2, b / 2, n - 1, k - 1);
    }
  }

  /** The exclusive or: a bit is set exactly if it is set in one of the two. */
  lemma BitOfXor(a: u8, b: u8, k: nat)
    requires k < 8
    ensures IsSet(Xor(a, b), k) <==> IsSet(a, k) != IsSet(b, k)
  {
    BitOfXorBits(a as nat, b as nat, 8, k);
  }

  /** Numbers of n bits are told apart by their bits. */
  lemma {:induction false} BitsDecide(a: nat, b: nat, n: nat)
    requires a < Pow2(n) && b < Pow2(n) && forall k: nat | k < n :: Bit(a, k) <==> Bit(b, k)
    ensures a == b
  {
    if n > 0 {
      assert Bit(a, 0) <==> Bit(b, 0);
      forall k: nat | k < n - 1
        ensures Bit(a / 2, k) <==> Bit(b / 2, k)
      {
        assert Bit(a, k + 1) <==> Bit(b, k + 1);
      }
      BitsDecide(a / 2, b / 2, n - 1);
    }
  }

  /** Out is raw with those bits changed that are set in key. */
  ghost predicate Flipped(out: u8, raw: u8, key: u8) {
    forall k: nat | k < 8 :: IsSet(out, k) <==> IsSet(raw, k) != IsSet(key, k)
  }

  /** Byte pos + j of a payload is changed by byte (pos + j) % 4 of the key (section 5.3 of RFC 6455). */
  ghost predicate FlippedBy(out: Bytes, raw: Bytes, key: Option<Bytes>, pos: nat)
    requires key.Some? ==> |key.value| == 4
  {
    if key.None? then out == raw
    else |out| == |raw| && forall j | 0 <= j < |raw| :: Flipped(out[j], raw[j], key.value[(pos + j) % 4])
  }

  lemma MaskedFlips(s: Bytes, key: Option<Bytes>, pos: nat)
    requires key.Some? ==> |key.value| == 4
    ensures FlippedBy(Masked(s, key, pos), s, key, pos)
  {
    hide Xor, Flipped;
    if key.Some? {
      forall j | 0 <= j < |s|
        ensures Flipped(Masked(s, key, pos)[j], s[j], key.value[(pos + j) % 4])
      {
        XorFlips(s[j], key.value[(pos + j) % 4]);
      }
    }
  }

  lemma XorFlips(a: u8, b: u8)
    ensures Flipped(Xor(a, b), a, b)
  {
    hide IsSet, Xor;
    forall k: nat | k < 8
      ensures IsSet(Xor(a, b), k) <==> IsSet(a, k) != IsSet(b, k)
    {
      BitOfXor(a, b, k);
    }
  }

  /** Only one byte is a with the bits of b changed. */
  lemma FlippedIsXor(out: u8, a: u8, b: u8)
    requires Flipped(out, a, b)
    ensures out == Xor(a, b)
  {
    hide Bit, Xor;
    XorFlips(a, b);
    assert Pow2(8) == 256;
    var m: nat, n: nat := out as nat, Xor(a, b) as nat;
    forall k: nat | k < 8
      ensures Bit(m, k) <==> Bit(n, k)
    {
      assert IsSet(out, k) <==> IsSet(Xor(a, b), k);
    }
    BitsDecide(m, n, 8);
  }

  /** The bytes of s, of which the first is byte pos of a payload, under the masking key. */
  function Masked(s: Bytes, key: Option<Bytes>, pos: nat): (r: Bytes)
    requires key.Some? ==> |key.value| == 4
    ensures |r| == |s|
  {
    if key.None? then s else seq(|s|, i requires 0 <= i < |s| => Xor(s[i], key.value[(pos + i) % 4]))
  }

  lemma MaskedTwice(s: Bytes, key: Option<Bytes>, pos: nat)
    requires key.Some? ==> |key.value| == 4
    ensures Masked(Masked(s, key, pos), key, pos) == s
  {
    if key.Some? {
      forall i | 0 <= i < |s|
        ensures Masked(Masked(s, key, pos), key, pos)[i] == s[i]
      {
        XorTwice(s[i], key.value[(pos + i) % 4]);
      }
    }
  }

  /** Unmasking piece by piece is the same as unmasking at once, if each piece starts where the last one ended. */
  lemma MaskedInPieces(s: Bytes, n: nat, key: Option<Bytes>, pos: nat)
    requires n <= |s| && (key.Some? ==> |key.value| == 4)
    ensures Masked(s, key, pos)[..n] == Masked(s[..n], key, pos)
    ensures Masked(s, key, pos)[n..] == Masked(s[n..], key, pos + n)
  {
    hide Xor;
    if key.Some? {
      forall i | 0 <= i < |s| - n
        ensures Masked(s, key, pos)[n..][i] == Masked(s[n..], key, pos + n)[i]
      {
        assert pos + (n + i) == pos + n + i;
      }
    }
  }

  // Frames

  datatype Frame = Frame(fin: bool, opcode: nat, mask: Option<Bytes>, payload: Bytes) {
    predicate Valid() {
      ToHead().Valid()
    }

    function ToHead(): Head {
      Head(fin, opcode, mask, |payload|)
    }
  }

  function FrameBytes(f: Frame): (s: Bytes)
    requires f.Valid()
    ensures |s| > 0
  {
    HeadBytes(f.ToHead()) + Masked(f.payload, f.mask, 0)
  }

  /**
   The layout of section 5.2 of RFC 6455: the final bit and the opcode; the mask bit and the length, or 126 or 127 with
   the length in two or eight bytes, the lowest possible; the key; and the payload, with the bits of the key flipped.
   */
  lemma FrameLayout(f: Frame)
    requires f.Valid()
    ensures var (s, n, b) := (FrameBytes(f), |f.payload|, if f.mask.Some? then 128 else 0);
            var extra := if n < 126 then 0 else if n < 65536 then 2 else 8;
            var k := 2 + extra + if f.mask.Some? then 4 else 0;
            && |s| == k + n
            && s[0] as nat == (if f.fin then 128 else 0) + f.opcode
            && s[1] as nat == b + (if n < 126 then n else if n < 65536 then 126 else 127)
            && (forall i | 2 <= i < 2 + extra :: s[i] as nat == Octet(n, extra + 1 - i))
            && (f.mask.Some? ==> s[2 + extra..k] == f.mask.value)
            && FlippedBy(s[k..], f.payload, f.mask, 0)
  {
    hide ToBigEndian, Masked, FlippedBy, Octet, FrameBytes;
    var n, s := |f.payload|, FrameBytes(f);
    var extra := if n < 126 then 0 else if n < 65536 then 2 else 8;
    LayoutOf(f, extra);
    forall i | 2 <= i < 2 + extra
      ensures s[i] as nat == Octet(n, extra + 1 - i)
    {
      BigEndianAt(n, extra, i - 2);
    }
    MaskedFlips(f.payload, f.mask, 0);
  }

  lemma LayoutOf(f: Frame, extra: nat)
    requires f.Valid() && extra == if |f.payload| < 126 then 0 else if |f.payload| < 65536 then 2 else 8
    ensures var (s, n, b) := (FrameBytes(f), |f.payload|, if f.mask.Some? then 128 else 0);
            var k := 2 + extra + if f.mask.Some? then 4 else 0;
            && |s| == k + n && |ToBigEndian(n, extra)| == extra
            && s[0] as nat == (if f.fin then 128 else 0) + f.opcode
            && s[1] as nat == b + (if n < 126 then n else if n < 65536 then 126 else 127)
            && (forall i | 2 <= i < 2 + extra :: s[i] == ToBigEndian(n, extra)[i - 2])
            && (f.mask.Some? ==> s[2 + extra..k] == f.mask.value)
            && s[k..] == Masked(f.payload, f.mask, 0)
  {
    hide FromBigEndian;
  }

  function Wire(fs: seq<Frame>): Bytes
    requires forall i | 0 <= i < |fs| :: fs[i].Valid()
  {
    if fs == [] then [] else FrameBytes(fs[0]) + Wire(fs[1..])
  }

  lemma {:induction false} WireSnoc(fs: seq<Frame>, f: Frame)
    requires f.Valid() && forall i | 0 <= i < |fs| :: fs[i].Valid()
    ensures Wire(fs + [f]) == Wire(fs) + FrameBytes(f)
  {
    if fs == [] {
      assert fs + [f] == [f];
      assert Wire([f]) == FrameBytes(f) + Wire([]);
    } else {
      WireSnoc(fs[1..], f);
      assert (fs + [f])[1..] == fs[1..] + [f];
      ConcatAssoc(FrameBytes(fs[0]), Wire(fs[1..]), FrameBytes(f));
    }
  }

  lemma FrameParses(f: Frame, rest: Bytes)
    requires f.Valid()
    ensures var all, k := FrameBytes(f) + rest, |HeadBytes(f.ToHead())|;
            && ParseHead(all) == Some(f.ToHead()) && HeadSize(all[1]) == k
            && k + |f.payload| == |FrameBytes(f)|
            && all[k..k + |f.payload|] == Masked(f.payload, f.mask, 0)
            && all[k..] == Masked(f.payload, f.mask, 0) + rest
  {
    var head, body := HeadBytes(f.ToHead()), Masked(f.payload, f.mask, 0);
    ConcatAssoc(head, body, rest);
    HeadParses(f.ToHead(), body + rest);
    assert (head + (body + rest))[|head|..] == body + rest;
    assert (head + (body + rest))[|head|..|head| + |body|] == body;
  }

  /** A run of whole frames can be told apart in one way only. */
  lemma {:induction false} WireIsUnique(fs: seq<Frame>, gs: seq<Frame>)
    requires forall i | 0 <= i < |fs| :: fs[i].Valid()
    requires forall i | 0 <= i < |gs| :: gs[i].Valid()
    requires Wire(fs) == Wire(gs)
    ensures fs == gs
  {
    if fs != [] && gs != [] {
      var f, g := fs[0], gs[0];
      FrameParses(f, Wire(fs[1..]));
      FrameParses(g, Wire(gs[1..]));
      MaskedTwice(f.payload, f.mask, 0);
      MaskedTwice(g.payload, g.mask, 0);
      assert f == g;
      var k := |FrameBytes(f)|;
      assert Wire(fs)[k..] == Wire(fs[1..]);
      assert Wire(gs)[k..] == Wire(gs[1..]);
      WireIsUnique(fs[1..], gs[1..]);
      assert fs == [f] + fs[1..] && gs == [g] + gs[1..];
    }
  }
}
