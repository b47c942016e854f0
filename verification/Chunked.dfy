/**
 The chunked transfer coding of section 4.1 of RFC 7230, without chunk extensions and trailers: how a body that comes
 in chunks is written, and a parser for it that stands for the standard's grammar.
 */
module Chunked {
  import opened Bytes

  predicate IsHex(c: u8) {
    48 <= c <= 57 || 65 <= c <= 70 || 97 <= c <= 102
  }

  function HexDigit(d: nat): u8
    requires d < 16
  {
    if d < 10 then (48 + d) as u8 else (87 + d) as u8
  }

  function DigitValue(c: u8): nat
    requires IsHex(c)
  {
    if c <= 57 then c as int - 48 else if c <= 70 then c as int - 55 else c as int - 87
  }

  /** n as operator<< writes it with base 16. */
  function Hex(n: nat): (s: Bytes)
    ensures s != []
  {
    (if n < 16 then [] else Hex(n / 16)) + [HexDigit(n % 16)]
  }

  /** The value of the hex digits that s starts with, behind digits worth sofar. */
  function HexValue(s: Bytes, sofar: nat): nat {
    if s == [] || !IsHex(s[0]) then sofar else HexValue(s[1..], 16 * sofar + DigitValue(s[0]))
  }

  function HexSpan(s: Bytes): (n: nat)
    ensures n <= |s| && (n < |s| ==> !IsHex(s[n]))
  {
    if s == [] || !IsHex(s[0]) then 0 else 1 + HexSpan(s[1..])
  }

  lemma {:induction false} HexValueSnoc(s: Bytes, c: u8, rest: Bytes, sofar: nat)
    requires IsHex(c) && (forall x | x in s :: IsHex(x)) && (rest == [] || !IsHex(rest[0]))
    ensures HexValue(s + [c] + rest, sofar) == 16 * HexValue(s, sofar) + DigitValue(c)
    ensures HexSpan(s + [c] + rest) == |s| + 1
  {
    var t := s + [c] + rest;
    if s == [] {
      assert t[1..] == rest;
    } else {
      assert t[1..] == s[1..] + [c] + rest && s[0] in s;
      HexValueSnoc(s[1..], c, rest, 16 * sofar + DigitValue(s[0]));
    }
  }

  // Spellings of a size

  const LOWER: Bytes := [48, 49, 50, 51, 52, 53, 54, 55, 56, 57, 97, 98, 99, 100, 101, 102]
  const UPPER: Bytes := [48, 49, 50, 51, 52, 53, 54, 55, 56, 57, 65, 66, 67, 68, 69, 70]

  predicate Denotes(c: u8, d: nat)
    requires d < 16
  {
    c == LOWER[d] || c == UPPER[d]
  }

  /** s is n in base 16, with digits in either case and any leading zeros. */
  predicate Spells(s: Bytes, n: nat)
    decreases |s|
  {
    && s != [] && Denotes(s[|s| - 1], n % 16)
    && if |s| == 1 then n < 16 else Spells(s[..|s| - 1], n / 16)
  }

  lemma DenotedValue(c: u8, d: nat)
    requires d < 16 && Denotes(c, d)
    ensures IsHex(c) && DigitValue(c) == d
  {
  }

  /** There are no other digits. */
  lemma HexIsDenoted(c: u8)
    ensures IsHex(c) <==> exists d: nat :: d < 16 && Denotes(c, d)
  {
    if IsHex(c) {
      assert Denotes(c, DigitValue(c));
    }
    if d: nat :| d < 16 && Denotes(c, d) {
      DenotedValue(c, d);
    }
  }

  lemma {:induction false} SpelledIsHex(s: Bytes, n: nat)
    requires Spells(s, n)
    ensures forall c | c in s :: IsHex(c)
    decreases |s|
  {
    hide Denotes;
    var init, c := s[..|s| - 1], s[|s| - 1];
    assert s == init + [c];
    DenotedValue(c, n % 16);
    if |s| > 1 {
      SpelledIsHex(init, n / 16);
    }
  }

  /** Every spelling has the value that it spells. */
  lemma {:induction false} SpelledValue(s: Bytes, n: nat, rest: Bytes)
    requires Spells(s, n) && (rest == [] || !IsHex(rest[0]))
    ensures HexValue(s + rest, 0) == n && HexSpan(s + rest) == |s|
    decreases |s|
  {
    hide Denotes, HexValue;
    var init, c := s[..|s| - 1], s[|s| - 1];
    assert s == init + [c];
    SpelledIsHex(s, n);
    DenotedValue(c, n % 16);
    HexValueSnoc(init, c, rest, 0);
    if |s| > 1 {
      SpelledValue(init, n / 16, []);
      assert init + [] == init;
    } else {
      NoDigits();
    }
  }

  lemma NoDigits()
    ensures HexValue([], 0) == 0
  {
  }

  /** operator<< writes a spelling, without leading zeros. */
  lemma {:induction false} HexSpells(n: nat)
    ensures Spells(Hex(n), n) && (n > 0 ==> Hex(n)[0] != LOWER[0])
  {
    var s := Hex(n);
    if n >= 16 {
      HexSpells(n / 16);
      assert s[..|s| - 1] == Hex(n / 16);
    }
  }

  lemma HexOfZero()
    ensures Hex(0) == [48]
  {
  }

  lemma HexValueOfHex(n: nat, rest: Bytes)
    requires rest == [] || !IsHex(rest[0])
    ensures HexValue(Hex(n) + rest, 0) == n && HexSpan(Hex(n) + rest) == |Hex(n)|
  {
    HexSpells(n);
    SpelledValue(Hex(n), n, rest);
  }

  lemma {:induction false} HexLength(n: nat, k: nat)
    requires 0 < k && n < Pow16(k)
    ensures |Hex(n)| <= k
  {
    if n >= 16 {
      HexLength(n / 16, k - 1);
    }
  }

  function Pow16(k: nat): (p: nat)
    ensures p > 0
  {
    if k == 0 then 1 else 16 * Pow16(k - 1)
  }

  // The coding

  const LAST: Bytes := [48] + CRLF + CRLF

  function Chunk(c: Bytes): Bytes {
    Hex(|c|) + CRLF + c + CRLF
  }

  function Chunks(cs: seq<Bytes>): Bytes {
    if cs == [] then [] else Chunk(cs[0]) + Chunks(cs[1..])
  }

  /** The octets of a chunk of up to nine bytes, and of the last chunk. */
  lemma ChunkInOctets(c: Bytes)
    requires |c| < 10
    ensures Chunk(c) == [48 + |c| as u8, 13, 10] + c + [13, 10] && LAST == [48, 13, 10, 13, 10]
  {
    assert Hex(|c|) == [HexDigit(|c|)];
  }

  ghost predicate NoEmpty(cs: seq<Bytes>) {
    forall i | 0 <= i < |cs| :: cs[i] != []
  }

  /** The size that w starts with, and what follows its line. */
  function SizeLine(w: Bytes): Option<(nat, Bytes)> {
    var n := HexSpan(w);
    if n == 0 || !(CRLF <= w[n..]) then None else Some((HexValue(w, 0), w[n + 2..]))
  }

  /** The body that the coding at the front of w stands for, and what follows the coding. */
  function ParseCoding(w: Bytes): Option<(Bytes, Bytes)>
    decreases |w|
  {
    var line := SizeLine(w);
    if line.None? then None else
    var (n, rest) := line.value;
    if n > |rest| || !(CRLF <= rest[n..]) then None
    else if n == 0 then Some(([], rest[2..]))
    else
      var more := ParseCoding(rest[n + 2..]);
      if more.None? then None else Some((rest[..n] + more.value.0, more.value.1))
  }

  lemma SizeLineOfHex(n: nat, rest: Bytes)
    ensures SizeLine(Hex(n) + CRLF + rest) == Some((n, rest))
  {
    var w := Hex(n) + CRLF + rest;
    assert w == Hex(n) + (CRLF + rest);
    HexValueOfHex(n, CRLF + rest);
    assert w[|Hex(n)|..] == CRLF + rest;
    assert w[|Hex(n)| + 2..] == rest;
  }

  lemma ParseOneChunk(c: Bytes, rest: Bytes)
    requires c != []
    ensures var more := ParseCoding(rest);
            ParseCoding(Chunk(c) + rest) == if more.None? then None else Some((c + more.value.0, more.value.1))
  {
    hide SizeLine, Hex;
    var w := Chunk(c) + rest;
    assert w == Hex(|c|) + CRLF + (c + CRLF + rest);
    SizeLineOfHex(|c|, c + CRLF + rest);
    assert (c + CRLF + rest)[..|c|] == c && (c + CRLF + rest)[|c|..] == CRLF + rest;
    assert (c + CRLF + rest)[|c| + 2..] == rest;
  }

  /** Chunks that are followed by the last chunk stand for what they hold. */
  lemma {:induction false} ParseChunks(cs: seq<Bytes>, rest: Bytes)
    requires NoEmpty(cs)
    ensures ParseCoding(Chunks(cs) + LAST + rest) == Some((Flatten(cs), rest))
  {
    if cs == [] {
      assert Hex(0) == [48];
      assert Chunks(cs) + LAST + rest == Hex(0) + CRLF + (CRLF + rest);
      SizeLineOfHex(0, CRLF + rest);
      assert (CRLF + rest)[0..] == CRLF + rest && (CRLF + rest)[2..] == rest;
    } else {
      hide Chunk, ParseCoding;
      ParseChunks(cs[1..], rest);
      ConcatAssoc(Chunk(cs[0]), Chunks(cs[1..]), LAST);
      ConcatAssoc(Chunk(cs[0]), Chunks(cs[1..]) + LAST, rest);
      ParseOneChunk(cs[0], Chunks(cs[1..]) + LAST + rest);
    }
  }

  lemma {:induction false} ChunksAppend(a: seq<Bytes>, b: seq<Bytes>)
    ensures Chunks(a + b) == Chunks(a) + Chunks(b)
  {
    if a == [] {
      assert a + b == b;
    } else {
      ChunksAppend(a[1..], b);
      assert (a + b)[1..] == a[1..] + b;
      ConcatAssoc(Chunk(a[0]), Chunks(a[1..]), Chunks(b));
    }
  }

  lemma ChunksSnoc(cs: seq<Bytes>, c: Bytes)
    ensures Chunks(cs + [c]) == Chunks(cs) + Chunk(c)
  {
    ChunksAppend(cs, [c]);
    assert Chunks([c]) == Chunk(c) + Chunks([]);
  }
}
