/**
 Decimal numbers, as operator<< writes them and atoi reads them.
 */
module Decimals {
  import opened Bytes

  predicate IsDigit(c: char) {
    '0' <= c <= '9'
  }

  function Digit(d: nat): char
    requires d < 10
  {
    ('0' as int + d) as char
  }

  function Decimal(n: nat): (s: string)
    ensures s != []
  {
    (if n < 10 then [] else Decimal(n / 10)) + [Digit(n % 10)]
  }

  function FromDecimal(s: string): int {
    if s == [] then 0 else FromDecimal(s[..|s| - 1]) * 10 + (s[|s| - 1] as int - '0' as int)
  }

  lemma {:induction false} FromDecimalOfDecimal(n: nat)
    ensures FromDecimal(Decimal(n)) == n
  {
    var s, init := Decimal(n), if n < 10 then [] else Decimal(n / 10);
    assert s[..|s| - 1] == init && s[|s| - 1] as int - '0' as int == n % 10;
    if n >= 10 {
      FromDecimalOfDecimal(n / 10);
    }
    assert FromDecimal(s) == FromDecimal(init) * 10 + n % 10;
  }

  lemma {:induction false} DecimalHasDigits(n: nat)
    ensures forall c | c in Decimal(n) :: IsDigit(c)
  {
    if n >= 10 {
      DecimalHasDigits(n / 10);
    }
  }

  /** atoi: blanks, a sign, and digits up to the first other character. */
  function Atoi(s: string): int {
    if s == "" then 0
    else if IsSpace(s[0] as int) then Atoi(s[1..])
    else if s[0] == '-' then 0 - AtoiDigits(s[1..], 0)
    else if s[0] == '+' then AtoiDigits(s[1..], 0)
    else AtoiDigits(s, 0)
  }

  function AtoiDigits(s: string, sofar: nat): nat {
    if s == "" || !IsDigit(s[0]) then sofar
    else AtoiDigits(s[1..], 10 * sofar + (s[0] as int - '0' as int))
  }

  lemma {:induction false} AtoiDigitsSnoc(s: string, d: nat, rest: string, sofar: nat)
    requires d < 10 && (forall c | c in s :: IsDigit(c)) && (rest == "" || !IsDigit(rest[0]))
    ensures AtoiDigits(s + [Digit(d)] + rest, sofar) == 10 * AtoiDigits(s, sofar) + d
  {
    var t := s + [Digit(d)] + rest;
    if s == "" {
      assert t[1..] == rest;
    } else {
      assert t[1..] == s[1..] + [Digit(d)] + rest && s[0] in s;
      AtoiDigitsSnoc(s[1..], d, rest, 10 * sofar + (s[0] as int - '0' as int));
    }
  }

  lemma {:induction false} AtoiDigitsOfDecimal(n: nat, rest: string)
    requires rest == "" || !IsDigit(rest[0])
    ensures AtoiDigits(Decimal(n) + rest, 0) == n
  {
    var init := if n < 10 then [] else Decimal(n / 10);
    if n >= 10 {
      DecimalHasDigits(n / 10);
      AtoiDigitsOfDecimal(n / 10, "");
      assert Decimal(n / 10) + "" == Decimal(n / 10);
    }
    AtoiDigitsSnoc(init, n % 10, rest, 0);
  }

  /** atoi reads a number in decimal, behind white space and a sign, up to the first other character. */
  lemma {:induction false} AtoiReads(blanks: string, n: nat, rest: string)
    requires (forall c | c in blanks :: IsSpace(c as int)) && (rest == "" || !IsDigit(rest[0]))
    ensures Atoi(blanks + (Decimal(n) + rest)) == n
    ensures Atoi(blanks + ("+" + (Decimal(n) + rest))) == n
    ensures Atoi(blanks + ("-" + (Decimal(n) + rest))) == 0 - n
    decreases |blanks|
  {
    hide AtoiDigits, Decimal;
    var number := Decimal(n) + rest;
    if blanks == "" {
      AtoiDigitsOfDecimal(n, rest);
      DecimalStarts(n);
      assert ("+" + number)[1..] == number && ("-" + number)[1..] == number;
      assert blanks + number == number && blanks + ("+" + number) == "+" + number;
      assert blanks + ("-" + number) == "-" + number;
    } else {
      assert blanks[0] in blanks && forall c | c in blanks[1..] :: c in blanks;
      AtoiReads(blanks[1..], n, rest);
      BehindBlank(blanks, number);
      BehindBlank(blanks, "+" + number);
      BehindBlank(blanks, "-" + number);
    }
  }

  lemma DecimalStarts(n: nat)
    ensures Decimal(n) != "" && IsDigit(Decimal(n)[0])
  {
    DecimalHasDigits(n);
    assert Decimal(n)[0] in Decimal(n);
  }

  lemma BehindBlank(blanks: string, s: string)
    requires blanks != "" && IsSpace(blanks[0] as int)
    ensures Atoi(blanks + s) == Atoi(blanks[1..] + s)
  {
    assert (blanks + s)[1..] == blanks[1..] + s;
  }

  /** What is no number counts as 0. */
  lemma AtoiOfNone(s: string)
    requires s == "" || (!IsDigit(s[0]) && !IsSpace(s[0] as int) && s[0] != '+' && s[0] != '-')
    ensures Atoi(s) == 0
  {
  }

  /** atoi reads back what operator<< wrote. */
  lemma AtoiOfDecimal(n: nat)
    ensures Atoi(Decimal(n)) == n
  {
    AtoiReads("", n, "");
    assert "" + (Decimal(n) + "") == Decimal(n);
  }
}
