/**
 Bytes, big-endian integers and the result types shared by the other modules.
 */
module Bytes {

  newtype u8 = x: int | 0 <= x < 256

  type Bytes = seq<u8>

  const CR: u8 := 13
  const LF: u8 := 10
  const DASH: u8 := 45

  const CRLF: Bytes := [CR, LF]

  datatype Option<+T> = None | Some(value: T) {
    predicate IsFailure() {
      None?
    }

    function PropagateFailure<U>(): Option<U>
      requires None?
    {
      None
    }

    function Extract(): T
      requires Some?
    {
      value
    }
  }

  /** The answers a stream gives to an event, a read or a write. */
  datatype Condition = Ok | Wait | End | Close | Error

  /** One read from the stream below: at most k bytes, answered with c. */
  datatype Fill = Fill(k: nat, c: Condition)

  /** White space, as isspace of the C library has it. */
  predicate IsSpace(c: int) {
    c == 32 || 9 <= c <= 13
  }

  const CAPITALS := "ABCDEFGHIJKLMNOPQRSTUVWXYZ"
  const SMALL := "abcdefghijklmnopqrstuvwxyz"
  const DIGITS := "0123456789"

  lemma LetterCount()
    ensures |CAPITALS| == |SMALL| == 26 && |DIGITS| == 10
  {
  }

  lemma LetterAt(k: nat)
    requires k < 26
    ensures |CAPITALS| == |SMALL| == 26
    ensures CAPITALS[k] as int == 65 + k && SMALL[k] as int == 97 + k
  {
  }

  lemma DigitAt(k: nat)
    requires k < 10
    ensures |DIGITS| == 10 && DIGITS[k] as int == 48 + k
  {
  }

  function Min(a: int, b: int): int {
    if a < b then a else b
  }

  function Max(a: int, b: int): int {
    if a < b then b else a
  }

  function Pow256(k: nat): (p: nat)
    ensures p > 0
  {
    if k == 0 then 1 else 256 * Pow256(k - 1)
  }

  /** The k low-order bytes of v, most significant first. */
  function ToBigEndian(v: nat, k: nat): (s: Bytes)
    ensures |s| == k
  {
    if k == 0 then [] else ToBigEndian(v / 256, k - 1) + [(v % 256) as u8]
  }

  function FromBigEndian(s: Bytes): nat {
    if s == [] then 0 else FromBigEndian(s[..|s| - 1]) * 256 + s[|s| - 1] as int
  }

  lemma {:induction false} FromToBigEndian(v: nat, k: nat)
    requires v < Pow256(k)
    ensures FromBigEndian(ToBigEndian(v, k)) == v
  {
    if k > 0 {
      FromToBigEndian(v / 256, k - 1);
      assert ToBigEndian(v, k)[..k - 1] == ToBigEndian(v / 256, k - 1);
    }
  }

  lemma {:induction false} ToFromBigEndian(s: Bytes)
    ensures FromBigEndian(s) < Pow256(|s|)
    ensures ToBigEndian(FromBigEndian(s), |s|) == s
  {
    if s != [] {
      var init := s[..|s| - 1];
      ToFromBigEndian(init);
      assert FromBigEndian(s) / 256 == FromBigEndian(init);
      assert s == init + [s[|s| - 1]];
    }
  }

  /** Digit i of v in base 256, of which digit 0 is the lowest. */
  function Octet(v: nat, i: nat): nat {
    if i == 0 then v % 256 else Octet(v / 256, i - 1)
  }

  /** Network byte order: the highest digit comes first. */
  lemma {:induction false} BigEndianAt(v: nat, k: nat, i: nat)
    requires i < k
    ensures ToBigEndian(v, k)[i] as nat == Octet(v, k - 1 - i)
  {
    if i < k - 1 {
      BigEndianAt(v / 256, k - 1, i);
    }
  }

  lemma ConcatAssoc<T>(a: seq<T>, b: seq<T>, c: seq<T>)
    ensures a + b + c == a + (b + c)
  {
  }

  lemma SliceOfSlice<T>(s: seq<T>, lo: nat, hi: nat, i: nat, j: nat)
    requires lo + i <= lo + j <= hi <= |s|
    ensures s[lo..hi][i..j] == s[lo + i..lo + j]
  {
    var a, b := s[lo..hi][i..j], s[lo + i..lo + j];
    forall k | 0 <= k < j - i
      ensures a[k] == b[k]
    {
      assert a[k] == s[lo..hi][i + k] == s[lo + i + k];
    }
  }

  lemma SliceJoin<T>(s: seq<T>, lo: nat, mid: nat, hi: nat)
    requires lo <= mid <= hi <= |s|
    ensures s[lo..mid] + s[mid..hi] == s[lo..hi]
  {
  }

  /** All the sequences of ss, one after the other. */
  function Flatten<T>(ss: seq<seq<T>>): seq<T> {
    if ss == [] then [] else ss[0] + Flatten(ss[1..])
  }

  lemma {:induction false} FlattenAppend<T>(a: seq<seq<T>>, b: seq<seq<T>>)
    ensures Flatten(a + b) == Flatten(a) + Flatten(b)
  {
    if a == [] {
      assert a + b == b;
    } else {
      FlattenAppend(a[1..], b);
      assert (a + b)[1..] == a[1..] + b;
      ConcatAssoc(a[0], Flatten(a[1..]), Flatten(b));
    }
  }

  lemma FlattenSnoc<T>(a: seq<seq<T>>, x: seq<T>)
    ensures Flatten(a + [x]) == Flatten(a) + x
  {
    FlattenAppend(a, [x]);
    assert Flatten([x]) == x + Flatten<T>([]);
  }
}
