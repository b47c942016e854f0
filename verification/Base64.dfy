/**
 The base64 codec of sconex/Base64.cpp. Bit operations are written as the arithmetic they amount to.
 */
module Base64 {
  import opened Bytes

  const PAD: u8 := 61
  const NEWLINE: u8 := 10

  /** An input stream: Get answers -1 (EOF) and sets eof when it is called behind the last byte. */
  class IStream {
    const data: Bytes
    var pos: nat
    var eof: bool

    constructor (data: Bytes)
      ensures Valid() && this.data == data && pos == 0 && !eof
    {
      this.data := data;
      pos := 0;
      eof := false;
    }

    ghost predicate Valid()
      reads this
    {
      pos <= |data| && (eof ==> pos == |data|)
    }

    method Get() returns (c: int)
      requires Valid()
      modifies this
      ensures Valid()
      ensures old(pos) < |data| ==> c == data[old(pos)] as int && pos == old(pos) + 1 && eof == old(eof)
      ensures old(pos) == |data| ==> c == -1 && eof && pos == old(pos)
    {
      if pos < |data| {
        c := data[pos] as int;
        pos := pos + 1;
      } else {
        c := -1;
        eof := true;
      }
    }

    /** Gets the first byte that is no white space. */
    method GetVisible() returns (c: int)
      requires Valid()
      modifies this
      ensures Valid()
      ensures var next := Visible(data[old(pos)..]);
              if next.None? then c == -1 && eof && pos == |data|
              else c == next.value.0 as int && data[pos..] == next.value.1 && eof == old(eof) && pos > old(pos)
    {
      ghost var start := pos;
      c := Get();
      while !eof && IsSpace(c)
        invariant Valid() && start <= pos
        invariant eof ==> c == -1 && Visible(data[start..]).None?
        invariant !eof ==> pos > start && c == data[pos - 1] as int && !old(eof)
        invariant !eof ==> Visible(data[start..]) == Visible(data[pos - 1..])
        decreases !eof, |data| - pos
      {
        assert data[pos - 1..][1..] == data[pos..];
        c := Get();
      }
      if !eof {
        assert data[pos - 1..][1..] == data[pos..];
      }
    }
  }

  /** The first byte of s that is no white space, with what follows it. */
  function Visible(s: Bytes): (r: Option<(u8, Bytes)>)
    ensures r.Some? ==> |r.value.1| < |s| && !IsSpace(r.value.0 as int)
  {
    if s == [] then None
    else if IsSpace(s[0] as int) then Visible(s[1..])
    else Some((s[0], s[1..]))
  }

  /** basis_64[i]; the program reads index -1 too, where it finds whatever byte lies before the table. */
  function Basis64(i: int, stray: u8): u8
    requires -1 <= i < 64
  {
    if i < 0 then stray
    else if i < 26 then (65 + i) as u8
    else if i < 52 then (71 + i) as u8
    else if i < 62 then (i - 4) as u8
    else if i == 62 then 43 else 47
  }

  function Char64(c: int): (i: int)
    ensures -1 <= i < 64
  {
    if 65 <= c <= 90 then c - 65
    else if 97 <= c <= 122 then c - 71
    else if 48 <= c <= 57 then c + 4
    else if c == 43 then 62
    else if c == 47 then 63
    else -1
  }

  /** output_chunk; c1 is -1 when the encoder reads past the end of its input. */
  function Chunk(c1: int, c2: int, c3: int, pads: nat, stray: u8): Bytes
    requires -1 <= c1 < 256 && 0 <= c2 < 256 && 0 <= c3 < 256
  {
    [Basis64(c1 / 4, stray), Basis64((c1 % 4) * 16 + c2 / 16, stray)] +
    if pads == 2 then [PAD, PAD]
    else if pads > 0 then [Basis64((c2 % 16) * 4 + c3 / 64, stray), PAD]
    else [Basis64((c2 % 16) * 4 + c3 / 64, stray), Basis64(c3 % 64, stray)]
  }

  function AfterChunk(ct: nat, multiline: bool): nat {
    if ct + 4 > 71 && multiline then 0 else ct + 4
  }

  function LineBreak(ct: nat, multiline: bool): Bytes {
    if ct + 4 > 71 && multiline then [NEWLINE] else []
  }

  function LastBreak(ct: nat, multiline: bool): Bytes {
    if ct != 0 && multiline then [NEWLINE] else []
  }

  /** The quadruple written for the first three bytes of s, or for all of them if there are fewer. */
  function Group(s: Bytes, stray: u8): Bytes {
    if |s| == 0 then Chunk(-1, 0, 0, 2, stray)
    else if |s| == 1 then Chunk(s[0] as int, 0, 0, 2, stray)
    else if |s| == 2 then Chunk(s[0] as int, s[1] as int, 0, 1, stray)
    else Chunk(s[0] as int, s[1] as int, s[2] as int, 0, stray)
  }

  /** What encode writes for the rest s of its input when ct characters stand on the current line. */
  function Encoded(s: Bytes, ct: nat, multiline: bool, stray: u8): Bytes {
    Group(s, stray) + (LineBreak(ct, multiline) +
    if |s| < 3 then LastBreak(AfterChunk(ct, multiline), multiline)
    else Encoded(s[3..], AfterChunk(ct, multiline), multiline, stray))
  }

  method EncodeGroup(input: IStream, stray: u8) returns (out: Bytes)
    requires input.Valid() && !input.eof
    modifies input
    ensures input.Valid() && input.eof == (|input.data| - old(input.pos) < 3)
    ensures out == Group(input.data[old(input.pos)..], stray)
    ensures !input.eof ==> input.pos == old(input.pos) + 3
  {
    var c1 := input.Get();
    var c2 := input.Get();
    if input.eof {
      out := Chunk(c1, 0, 0, 2, stray);
    } else {
      var c3 := input.Get();
      if input.eof {
        out := Chunk(c1, c2, 0, 1, stray);
      } else {
        out := Chunk(c1, c2, c3, 0, stray);
      }
    }
  }

  method Encode(input: IStream, multiline: bool, stray: u8) returns (out: Bytes)
    requires input.Valid() && input.pos == 0 && !input.eof
    modifies input
    ensures out == Encoded(input.data, 0, multiline, stray)
  {
    hide Group;
    ghost var all := Encoded(input.data, 0, multiline, stray);
    var ct := 0;
    out := [];
    while !input.eof
      invariant input.Valid()
      invariant !input.eof ==> out + Encoded(input.data[input.pos..], ct, multiline, stray) == all
      invariant input.eof ==> out + LastBreak(ct, multiline) == all
      decreases !input.eof, |input.data| - input.pos
    {
      ghost var s, was, ct0 := input.data[input.pos..], out, ct;
      var group := EncodeGroup(input, stray);
      out := out + group;
      ct := ct + 4;
      if ct > 71 && multiline {
        out := out + [NEWLINE];
        ct := 0;
      }
      ghost var eol := LineBreak(ct0, multiline);
      assert out == was + group + eol;
      ghost var rest := if |s| < 3 then LastBreak(ct, multiline) else Encoded(s[3..], ct, multiline, stray);
      ConcatAssoc(was, group, eol + rest);
      ConcatAssoc(was + group, eol, rest);
    }
    if ct != 0 && multiline {
      out := out + [NEWLINE];
    }
  }

  /** The byte out.put keeps of v. */
  function Low8(v: int): u8 {
    (v % 256) as u8
  }

  /** The bytes one quadruple of characters stands for. */
  function Quad(c1: u8, c2: u8, c3: u8, c4: u8): Bytes {
    var d1, d2, d3, d4 := Char64(c1 as int), Char64(c2 as int), Char64(c3 as int), Char64(c4 as int);
    [Low8(4 * d1 + d2 / 16 % 4)] +
    if c3 == PAD then []
    else [Low8((d2 % 16) * 16 + d3 / 4 % 16)] +
         if c4 == PAD then []
         else [if d4 < 0 then 255 else Low8((d3 % 4) * 64 + d4)]
  }

  /** What decode writes for s. */
  function Decoded(s: Bytes): Bytes
    decreases |s|
  {
    var v1 := Visible(s);
    if v1.None? then [] else
    var v2 := Visible(v1.value.1);
    if v2.None? then [] else
    var v3 := Visible(v2.value.1);
    if v3.None? then [] else
    var v4 := Visible(v3.value.1);
    if v4.None? then [] else
    var (c1, c2, c3, c4) := (v1.value.0, v2.value.0, v3.value.0, v4.value.0);
    if c1 == PAD || c2 == PAD then []
    else if c3 == PAD || c4 == PAD then Quad(c1, c2, c3, c4)
    else Quad(c1, c2, c3, c4) + Decoded(v4.value.1)
  }

  method DecodeQuad(c1: u8, c2: u8, c3: u8, c4: u8) returns (out: Bytes, done: bool)
    ensures out == Quad(c1, c2, c3, c4) && done == (c3 == PAD || c4 == PAD)
  {
    done := false;
    var d1, d2 := Char64(c1 as int), Char64(c2 as int);
    out := [Low8(4 * d1 + d2 / 16 % 4)];
    if c3 == PAD {
      done := true;
    } else {
      var d3 := Char64(c3 as int);
      out := out + [Low8((d2 % 16) * 16 + d3 / 4 % 16)];
      if c4 == PAD {
        done := true;
      } else {
        var d4 := Char64(c4 as int);
        out := out + [if d4 < 0 then 255 else Low8((d3 % 4) * 64 + d4)];
      }
    }
  }

  /** How decode goes on behind a byte c1 that is no white space, when s follows it. */
  function DecodedBehind(c1: u8, s: Bytes): (r: (Bytes, Bytes))
  {
    var v2 := Visible(s);
    if v2.None? then ([], []) else
    var v3 := Visible(v2.value.1);
    if v3.None? then ([], []) else
    var v4 := Visible(v3.value.1);
    if v4.None? || c1 == PAD || v2.value.0 == PAD then ([], [])
    else if v3.value.0 == PAD || v4.value.0 == PAD then (Quad(c1, v2.value.0, v3.value.0, v4.value.0), [])
    else (Quad(c1, v2.value.0, v3.value.0, v4.value.0), v4.value.1)
  }

  lemma DecodedNothing()
    ensures Decoded([]) == []
  {
  }

  lemma DecodedStep(s: Bytes)
    requires s != []
    ensures IsSpace(s[0] as int) ==> Decoded(s) == Decoded(s[1..])
    ensures !IsSpace(s[0] as int) ==>
              var (quad, rest) := DecodedBehind(s[0], s[1..]);
              Decoded(s) == quad + Decoded(rest)
  {
  }

  method Decode(input: IStream) returns (out: Bytes)
    requires input.Valid() && input.pos == 0 && !input.eof
    modifies input
    ensures out == Decoded(input.data)
  {
    hide Quad, Decoded, Visible;
    ghost var all := Decoded(input.data);
    var done := false;
    out := [];
    DecodedNothing();
    while !input.eof
      invariant input.Valid()
      invariant out + (if done then [] else Decoded(input.data[input.pos..])) == all
      decreases !input.eof, |input.data| - input.pos
    {
      ghost var s := input.data[input.pos..];
      var c1 := input.Get();
      if s != [] {
        DecodedStep(s);
        assert s[1..] == input.data[input.pos..];
      }
      if IsSpace(c1) {
        continue;
      }
      if done {
        continue;
      }
      var c2 := input.GetVisible();
      var c3 := input.GetVisible();
      var c4 := input.GetVisible();
      if c2 == -1 || c3 == -1 || c4 == -1 {
        return;
      }
      if c1 == PAD as int || c2 == PAD as int {
        done := true;
        continue;
      }
      var quad, last := DecodeQuad(c1 as u8, c2 as u8, c3 as u8, c4 as u8);
      ConcatAssoc(out, quad, if last then [] else Decoded(input.data[input.pos..]));
      out := out + quad;
      done := last;
    }
  }

  /** The alphabet of section 4 of RFC 4648. */
  const ALPHABET := CAPITALS + SMALL + DIGITS + "+/"

  lemma BasisIsAlphabet(i: nat, stray: u8)
    requires i < 64
    ensures |ALPHABET| == 64 && Basis64(i, stray) as int == ALPHABET[i] as int
  {
    LetterCount();
    hide CAPITALS, SMALL, DIGITS;
    if i < 26 {
      LetterAt(i);
    } else if i < 52 {
      LetterAt(i - 26);
    } else if i < 62 {
      DigitAt(i - 52);
    }
  }

  /** A character has a digit exactly if it is in the alphabet, and then its place there. */
  lemma DigitIsPlace(c: u8)
    ensures |ALPHABET| == 64
    ensures Char64(c as int) >= 0 ==> ALPHABET[Char64(c as int)] as int == c as int
    ensures Char64(c as int) == -1 ==> forall i | 0 <= i < 64 :: ALPHABET[i] as int != c as int
  {
    BasisIsAlphabet(0, 0);
    hide ALPHABET;
    if Char64(c as int) >= 0 {
      BasisIsAlphabet(Char64(c as int), 0);
    } else {
      forall i: nat | i < 64
        ensures ALPHABET[i] as int != c as int
      {
        BasisIsAlphabet(i, 0);
        Char64Basis(i, 0);
      }
    }
  }

  lemma Char64Basis(i: int, stray: u8)
    requires 0 <= i < 64
    ensures Char64(Basis64(i, stray) as int) == i
    ensures Basis64(i, stray) != PAD && !IsSpace(Basis64(i, stray) as int)
  {
  }

  /** A chunk's four digits are the base-64 digits of its three bytes (section 4 of RFC 4648). */
  lemma ChunkDigits(c1: int, c2: int, c3: int, stray: u8)
    requires 0 <= c1 < 256 && 0 <= c2 < 256 && 0 <= c3 < 256
    ensures var c := Chunk(c1, c2, c3, 0, stray);
            ((Char64(c[0] as int) * 64 + Char64(c[1] as int)) * 64 + Char64(c[2] as int)) * 64 + Char64(c[3] as int)
            == (c1 * 256 + c2) * 256 + c3
  {
    Char64Basis(c1 / 4, stray);
    Char64Basis((c1 % 4) * 16 + c2 / 16, stray);
    Char64Basis((c2 % 16) * 4 + c3 / 64, stray);
    Char64Basis(c3 % 64, stray);
  }

  /** With one or two bytes the missing bits are 0, and the missing digits are padding. */
  lemma PaddedDigits(c1: int, c2: int, stray: u8)
    requires 0 <= c1 < 256 && 0 <= c2 < 256
    ensures var c := Chunk(c1, c2, 0, 1, stray);
            && (Char64(c[0] as int) * 64 + Char64(c[1] as int)) * 64 + Char64(c[2] as int) == (c1 * 256 + c2) * 4
            && c[3] == 61
    ensures var c := Chunk(c1, 0, 0, 2, stray);
            Char64(c[0] as int) * 64 + Char64(c[1] as int) == c1 * 16 && c[2] == 61 && c[3] == 61
  {
    hide Basis64, Char64;
    Char64Basis(c1 / 4, stray);
    Char64Basis((c1 % 4) * 16 + c2 / 16, stray);
    Char64Basis((c1 % 4) * 16, stray);
    Char64Basis((c2 % 16) * 4, stray);
  }

  lemma DigitsToBytes(c1: int, c2: int, c3: int)
    requires 0 <= c1 < 256 && 0 <= c2 < 256 && 0 <= c3 < 256
    ensures Low8(4 * (c1 / 4) + ((c1 % 4) * 16 + c2 / 16) / 16 % 4) as int == c1
    ensures Low8(((c1 % 4) * 16 + c2 / 16) % 16 * 16 + ((c2 % 16) * 4 + c3 / 64) / 4 % 16) as int == c2
    ensures Low8(((c2 % 16) * 4 + c3 / 64) % 4 * 64 + c3 % 64) as int == c3
  {
    assert ((c1 % 4) * 16 + c2 / 16) / 16 == c1 % 4 && ((c1 % 4) * 16 + c2 / 16) % 16 == c2 / 16;
    assert ((c2 % 16) * 4 + c3 / 64) / 4 == c2 % 16 && ((c2 % 16) * 4 + c3 / 64) % 4 == c3 / 64;
  }

  lemma QuadOfDigits(i1: int, i2: int, i3: int, i4: int, pads: nat, c: Bytes, stray: u8)
    requires 0 <= i1 < 64 && 0 <= i2 < 64 && 0 <= i3 < 64 && 0 <= i4 < 64 && |c| == 4
    requires c[0] == Basis64(i1, stray) && c[1] == Basis64(i2, stray)
    requires c[2] == if pads >= 2 then PAD else Basis64(i3, stray)
    requires c[3] == if pads >= 1 then PAD else Basis64(i4, stray)
    ensures Quad(c[0], c[1], c[2], c[3]) ==
            [Low8(4 * i1 + i2 / 16 % 4)] + if pads >= 2 then [] else
            [Low8((i2 % 16) * 16 + i3 / 4 % 16)] + if pads == 1 then [] else [Low8((i3 % 4) * 64 + i4)]
    ensures c[0] != PAD && c[1] != PAD && (c[2] == PAD <==> pads >= 2) && (c[3] == PAD <==> pads > 0)
    ensures forall i | 0 <= i < 4 :: !IsSpace(c[i] as int)
  {
    hide Basis64, Char64;
    Char64Basis(i1, stray);
    Char64Basis(i2, stray);
    Char64Basis(i3, stray);
    Char64Basis(i4, stray);
  }

  lemma QuadOfChunk(c1: int, c2: int, c3: int, pads: nat, stray: u8)
    requires 0 <= c1 < 256 && 0 <= c2 < 256 && 0 <= c3 < 256 && pads <= 2
    requires (pads == 2 ==> c2 == 0) && (pads > 0 ==> c3 == 0)
    ensures var c := Chunk(c1, c2, c3, pads, stray);
            Quad(c[0], c[1], c[2], c[3]) == [c1 as u8, c2 as u8, c3 as u8][..3 - pads]
    ensures var c := Chunk(c1, c2, c3, pads, stray);
            c[0] != PAD && c[1] != PAD && (c[2] == PAD <==> pads == 2) && (c[3] == PAD <==> pads > 0) &&
            forall i | 0 <= i < 4 :: !IsSpace(c[i] as int)
  {
    hide Basis64, Char64, Low8, IsSpace, Quad;
    DigitsToBytes(c1, c2, c3);
    var c := Chunk(c1, c2, c3, pads, stray);
    QuadOfDigits(c1 / 4, (c1 % 4) * 16 + c2 / 16, (c2 % 16) * 4 + c3 / 64, c3 % 64, pads, c, stray);
  }

  /** Four digits decode to the three bytes of the 24-bit number they are. */
  lemma QuadIsNumber(c1: u8, c2: u8, c3: u8, c4: u8)
    requires c3 != PAD && c4 != PAD
    requires forall c | c in [c1, c2, c3, c4] :: Char64(c as int) >= 0
    ensures var (d1, d2, d3, d4) := (Char64(c1 as int), Char64(c2 as int), Char64(c3 as int), Char64(c4 as int));
            var out := Quad(c1, c2, c3, c4);
            && |out| == 3
            && (out[0] as int * 256 + out[1] as int) * 256 + out[2] as int == ((d1 * 64 + d2) * 64 + d3) * 64 + d4
  {
    hide Char64, Low8;
    assert c1 in [c1, c2, c3, c4] && c2 in [c1, c2, c3, c4] && c3 in [c1, c2, c3, c4] && c4 in [c1, c2, c3, c4];
    DigitsAreBytes(Char64(c1 as int), Char64(c2 as int), Char64(c3 as int), Char64(c4 as int));
  }

  lemma DigitsAreBytes(d1: int, d2: int, d3: int, d4: int)
    requires 0 <= d1 < 64 && 0 <= d2 < 64 && 0 <= d3 < 64 && 0 <= d4 < 64
    ensures Low8(4 * d1 + d2 / 16 % 4) as int == 4 * d1 + d2 / 16
    ensures Low8((d2 % 16) * 16 + d3 / 4 % 16) as int == (d2 % 16) * 16 + d3 / 4
    ensures Low8((d3 % 4) * 64 + d4) as int == (d3 % 4) * 64 + d4
  {
    IsLow8(4 * d1 + d2 / 16);
    IsLow8((d2 % 16) * 16 + d3 / 4);
    IsLow8((d3 % 4) * 64 + d4);
    hide Low8;
    assert d2 / 16 % 4 == d2 / 16 && d3 / 4 % 16 == d3 / 4;
  }

  lemma IsLow8(v: int)
    requires 0 <= v < 256
    ensures Low8(v) as int == v
  {
  }

  /** c, or '/' if c is not in the alphabet. */
  function OrSlash(c: u8): u8 {
    if Char64(c as int) < 0 then 47 else c
  }

  /** A character that is not in the alphabet counts as '/', but in the fourth place it makes the byte 255. */
  lemma MalformedQuad(c1: u8, c2: u8, c3: u8, c4: u8)
    ensures var (out, well) := (Quad(c1, c2, c3, c4), Quad(OrSlash(c1), OrSlash(c2), OrSlash(c3), OrSlash(c4)));
            && |out| == (if c3 == PAD then 1 else if c4 == PAD then 2 else 3) && |well| == 3
            && out[0] == well[0]
            && (|out| > 1 ==> out[1] == well[1])
            && (|out| > 2 ==> out[2] == if Char64(c4 as int) < 0 then 255 else well[2])
  {
    var (s1, s2, s3, s4) := (OrSlash(c1), OrSlash(c2), OrSlash(c3), OrSlash(c4));
    OrSlashDigit(c1);
    OrSlashDigit(c2);
    OrSlashDigit(c3);
    OrSlashDigit(c4);
    QuadBytes(c1, c2, c3, c4);
    QuadBytes(s1, s2, s3, s4);
    LowBitsOfNone(Char64(c1 as int), Char64(c2 as int), Char64(c3 as int));
    hide Char64, OrSlash, Low8, Quad;
  }

  lemma QuadBytes(c1: u8, c2: u8, c3: u8, c4: u8)
    ensures var (d1, d2, d3, d4) := (Char64(c1 as int), Char64(c2 as int), Char64(c3 as int), Char64(c4 as int));
            var out := Quad(c1, c2, c3, c4);
            && |out| == (if c3 == PAD then 1 else if c4 == PAD then 2 else 3)
            && out[0] == Low8(4 * d1 + d2 / 16 % 4)
            && (|out| > 1 ==> out[1] == Low8((d2 % 16) * 16 + d3 / 4 % 16))
            && (|out| > 2 ==> out[2] == if d4 < 0 then 255 else Low8((d3 % 4) * 64 + d4))
  {
    hide Char64, Low8;
  }

  lemma OrSlashDigit(c: u8)
    ensures OrSlash(c) != PAD && Char64(OrSlash(c) as int) == if Char64(c as int) < 0 then 63 else Char64(c as int)
  {
  }

  /** The digit -1 has all bits set, as 63 has. */
  lemma LowBitsOfNone(d1: int, d2: int, d3: int)
    requires -1 <= d1 < 64 && -1 <= d2 < 64 && -1 <= d3 < 64
    ensures var (e1, e2, e3) := (if d1 < 0 then 63 else d1, if d2 < 0 then 63 else d2, if d3 < 0 then 63 else d3);
            && Low8(4 * d1 + d2 / 16 % 4) == Low8(4 * e1 + e2 / 16 % 4)
            && Low8((d2 % 16) * 16 + d3 / 4 % 16) == Low8((e2 % 16) * 16 + e3 / 4 % 16)
            && d3 % 4 == e3 % 4
  {
    LowBits(d1);
    LowBits(d2);
    LowBits(d3);
    hide Low8;
    var e1 := if d1 < 0 then 63 else d1;
    LowestEight(4 * d1, 4 * e1, d2 / 16 % 4);
  }

  lemma LowBits(d: int)
    requires -1 <= d < 64
    ensures var e := if d < 0 then 63 else d;
            d / 16 % 4 == e / 16 % 4 && d % 16 == e % 16 && d / 4 % 16 == e / 4 % 16 && d % 4 == e % 4
            && (4 * d) % 256 == (4 * e) % 256
  {
  }

  lemma LowestEight(a: int, b: int, x: int)
    requires a % 256 == b % 256
    ensures Low8(a + x) == Low8(b + x)
  {
  }

  /** What is left of s without white space. */
  function Visibles(s: Bytes): Bytes {
    if s == [] then [] else (if IsSpace(s[0] as int) then [] else [s[0]]) + Visibles(s[1..])
  }

  /** Decoding by fours, up to the padding; what is left over is dropped. */
  function ByFours(v: Bytes): Bytes {
    if |v| < 4 || v[0] == PAD || v[1] == PAD then []
    else Quad(v[0], v[1], v[2], v[3]) + if v[2] == PAD || v[3] == PAD then [] else ByFours(v[4..])
  }

  lemma {:induction false} VisibleIsFirst(s: Bytes)
    ensures if Visible(s).None? then Visibles(s) == []
            else Visibles(s) == [Visible(s).value.0] + Visibles(Visible(s).value.1)
  {
    if s != [] && IsSpace(s[0] as int) {
      VisibleIsFirst(s[1..]);
      assert [] + Visibles(s[1..]) == Visibles(s[1..]);
    }
  }

  /** Whatever is decoded, white space does not count, and the rest is decoded by fours. */
  lemma {:induction false} DecodedByFours(s: Bytes)
    ensures Decoded(s) == ByFours(Visibles(s))
    decreases |s|
  {
    hide Quad, Visible, Visibles;
    VisibleIsFirst(s);
    var v1 := Visible(s);
    if v1.Some? {
      VisibleIsFirst(v1.value.1);
      var v2 := Visible(v1.value.1);
      if v2.Some? {
        VisibleIsFirst(v2.value.1);
        var v3 := Visible(v2.value.1);
        if v3.Some? {
          VisibleIsFirst(v3.value.1);
          var v4 := Visible(v3.value.1);
          if v4.Some? {
            VisibleShortens(s);
            DecodedByFours(v4.value.1);
            assert Visibles(s)[4..] == Visibles(v4.value.1);
          }
        }
      }
    }
  }

  lemma VisibleShortens(s: Bytes)
    ensures Visible(s).Some? ==> |Visible(s).value.1| < |s|
  {
  }

  lemma DecodedFour(c: Bytes, rest: Bytes)
    requires |c| == 4 && forall i | 0 <= i < 4 :: !IsSpace(c[i] as int)
    requires c[0] != PAD && c[1] != PAD
    ensures Decoded(c + rest) ==
            Quad(c[0], c[1], c[2], c[3]) + if c[2] == PAD || c[3] == PAD then [] else Decoded(rest)
  {
  }

  lemma DecodedBreak(eol: Bytes, rest: Bytes)
    requires eol == [] || eol == [NEWLINE]
    ensures Decoded(eol + rest) == Decoded(rest)
  {
    if eol == [] {
      assert eol + rest == rest;
    } else {
      assert (eol + rest)[1..] == rest;
    }
  }

  /** Bytes before the table that make the surplus quadruple of a whole number of groups decode to nothing. */
  predicate Harmless(stray: u8) {
    stray == PAD || IsSpace(stray as int)
  }

  lemma SurplusChunk(ct: nat, multiline: bool, stray: u8)
    ensures Decoded(Encoded([], ct, multiline, stray)) == [] <==> Harmless(stray)
  {
    var eol := LineBreak(ct, multiline) + LastBreak(AfterChunk(ct, multiline), multiline);
    var c := Chunk(-1, 0, 0, 2, stray);
    assert c == [stray, 119, PAD, PAD];
    var s := Encoded([], ct, multiline, stray);
    assert s == c + eol;
    assert eol == [] || eol == [NEWLINE];
    assert Visible(eol).None? by {
      if eol != [] { assert eol[1..] == []; }
    }
    if !IsSpace(stray as int) && stray != PAD {
      DecodedFour(c, eol);
    } else if stray == PAD {
      assert Visible(s) == Some((PAD, s[1..]));
    } else {
      assert Visible(s) == Visible(s[1..]) == Some((119, s[2..])) by { assert s[1..][1..] == s[2..]; }
      assert Visible(s[2..]) == Some((PAD, s[3..])) by { assert s[2..][1..] == s[3..]; }
      assert Visible(s[3..]) == Some((PAD, s[4..])) by { assert s[3..][1..] == s[4..]; }
      assert s[4..] == eol;
    }
  }

  lemma GroupDecodes(s: Bytes, stray: u8)
    requires s != []
    ensures var c := Group(s, stray);
            && |c| == 4 && c[0] != PAD && c[1] != PAD
            && (c[2] == PAD || c[3] == PAD <==> |s| < 3)
            && Quad(c[0], c[1], c[2], c[3]) == s[..Min(|s|, 3)]
            && forall i | 0 <= i < 4 :: !IsSpace(c[i] as int)
  {
    var c1, c2, c3 := s[0] as int, if |s| >= 2 then s[1] as int else 0, if |s| >= 3 then s[2] as int else 0;
    QuadOfChunk(c1, c2, c3, if |s| >= 3 then 0 else 3 - |s|, stray);
    assert [c1 as u8, c2 as u8, c3 as u8][..Min(|s|, 3)] == s[..Min(|s|, 3)];
  }

  lemma SplitAtThree(s: Bytes, x: Bytes)
    requires |s| >= 3
    ensures s[..3] + x == s <==> x == s[3..]
  {
  }

  lemma {:induction false} DecodedEncodedFrom(s: Bytes, ct: nat, multiline: bool, stray: u8)
    ensures Decoded(Encoded(s, ct, multiline, stray)) == s <==> |s| % 3 != 0 || Harmless(stray)
  {
    hide Group, Quad, Decoded;
    if s == [] {
      SurplusChunk(ct, multiline, stray);
    } else {
      var c, eol, ct' := Group(s, stray), LineBreak(ct, multiline), AfterChunk(ct, multiline);
      GroupDecodes(s, stray);
      if |s| < 3 {
        DecodedFour(c, eol + LastBreak(ct', multiline));
      } else {
        var rest := Encoded(s[3..], ct', multiline, stray);
        DecodedFour(c, eol + rest);
        DecodedBreak(eol, rest);
        DecodedEncodedFrom(s[3..], ct', multiline, stray);
        SplitAtThree(s, Decoded(rest));
      }
    }
  }

  /** decode undoes encode exactly when the length is no multiple of three, or the stray byte is harmless. */
  lemma RoundTrip(s: Bytes, multiline: bool, stray: u8)
    ensures Decoded(Encoded(s, 0, multiline, stray)) == s <==> |s| % 3 != 0 || Harmless(stray)
  {
    DecodedEncodedFrom(s, 0, multiline, stray);
  }

  /** Three bytes come back as four when the byte before the table is an 'A'. */
  lemma WholeGroupsGainAByte()
    ensures Decoded(Encoded([1, 2, 3], 0, false, 65)) != [1, 2, 3]
  {
    RoundTrip([1, 2, 3], false, 65);
  }

  // Lines

  /** p in lines of 72 characters, but for the first one, which may have room for fewer. */
  function Lines(p: Bytes, room: nat): Bytes
    requires room > 0
    decreases |p|
  {
    if |p| <= room then p + [10] else p[..room] + [10] + Lines(p[room..], 72)
  }

  lemma LinesOfMore(c: Bytes, p: Bytes, room: nat)
    requires |c| == 4 && p != [] && 4 <= room <= 72
    ensures Lines(c + p, room) == c + if room == 4 then [NEWLINE] + Lines(p, 72) else Lines(p, room - 4)
  {
    hide Lines;
    LinesStep(c + p, room);
    if |c + p| > room {
      SliceBehind(c, p, room);
    }
    if room > 4 {
      LinesStep(p, room - 4);
      ConcatAssoc(c, p, [NEWLINE]);
      if |p| > room - 4 {
        ConcatAssoc(c, p[..room - 4], [NEWLINE]);
        ConcatAssoc(c, p[..room - 4] + [NEWLINE], Lines(p[room - 4..], 72));
      }
    } else {
      assert p[..0] == [] && p[0..] == p && c + [] == c;
      ConcatAssoc(c, [NEWLINE], Lines(p, 72));
    }
  }

  lemma LinesStep(p: Bytes, room: nat)
    requires room > 0
    ensures Lines(p, room) == if |p| <= room then p + [NEWLINE] else p[..room] + [NEWLINE] + Lines(p[room..], 72)
  {
  }

  lemma SliceBehind(c: Bytes, p: Bytes, k: nat)
    requires |c| <= k <= |c| + |p|
    ensures (c + p)[..k] == c + p[..k - |c|] && (c + p)[k..] == p[k - |c|..]
  {
  }

  /** In lines or not, the characters are the same: a line ends behind each 72 of them, and behind the last one. */
  lemma {:induction false} EncodedInLines(s: Bytes, ct: nat, stray: u8)
    requires ct < 72 && ct % 4 == 0
    ensures Encoded(s, ct, true, stray) == Lines(Encoded(s, 0, false, stray), 72 - ct)
    ensures |Encoded(s, 0, false, stray)| == 4 * (|s| / 3 + 1)
    decreases |s|
  {
    hide Group, Lines, Encoded;
    GroupLength(s, stray);
    EncodedStep(s, ct, true, stray);
    EncodedStep(s, 0, false, stray);
    var c, room := Group(s, stray), 72 - ct;
    if |s| < 3 {
      OneLine(c, room);
      assert c + ([] + []) == c && c + ([NEWLINE] + []) == c + [NEWLINE] && c + ([] + [NEWLINE]) == c + [NEWLINE];
    } else {
      var rest, ct' := Encoded(s[3..], 0, false, stray), AfterChunk(ct, true);
      EncodedInLines(s[3..], ct', stray);
      ColumnIsFree(s[3..], 4, stray);
      assert [] + rest == rest && [] + Lines(rest, room) == Lines(rest, room);
      LinesOfMore(c, rest, room);
      if room > 4 {
        assert [] + Lines(rest, room - 4) == Lines(rest, room - 4);
      }
    }
  }

  lemma EncodedStep(s: Bytes, ct: nat, multiline: bool, stray: u8)
    ensures Encoded(s, ct, multiline, stray) ==
            Group(s, stray) + (LineBreak(ct, multiline) +
            if |s| < 3 then LastBreak(AfterChunk(ct, multiline), multiline)
            else Encoded(s[3..], AfterChunk(ct, multiline), multiline, stray))
  {
  }

  lemma OneLine(c: Bytes, room: nat)
    requires |c| <= room && room > 0
    ensures Lines(c, room) == c + [NEWLINE]
  {
  }

  lemma GroupLength(s: Bytes, stray: u8)
    ensures |Group(s, stray)| == 4
  {
  }

  /** Without line breaks the column does not matter. */
  lemma {:induction false} ColumnIsFree(s: Bytes, ct: nat, stray: u8)
    ensures Encoded(s, ct, false, stray) == Encoded(s, 0, false, stray)
    decreases |s|
  {
    hide Group;
    if |s| >= 3 {
      ColumnIsFree(s[3..], ct + 4, stray);
      ColumnIsFree(s[3..], 4, stray);
    }
  }
}
