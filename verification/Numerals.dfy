/**
 Numerals: the strings of digits, whatever zeros they start with, and the number each of them stands for.
 */
module Numerals {
  import opened Wrappers
  import opened Framing

  function Zeros(z: nat): string {
    seq(z, i requires 0 <= i < z => '0')
  }

  /** The decimal form of a number, possibly with leading zeros. */
  ghost predicate Numeral(s: string, n: nat) {
    exists z: nat :: s == Zeros(z) + Decimal(n)
  }

  predicate AllDigits(s: string) {
    s != "" && forall k :: 0 <= k < |s| ==> IsDigit(s[k])
  }

  lemma DecimalShift(n: nat, d: nat)
    requires d < 10
    ensures n > 0 ==> Decimal(10 * n + d) == Decimal(n) + [Digit(d)]
    ensures Decimal(d) == [Digit(d)]
  {
    assert (10 * n + d) / 10 == n && (10 * n + d) % 10 == d;
  }

  lemma ZeroDigit()
    ensures Digit(0) == '0'
  {
  }

  lemma NumeralAppend(s: string, n: nat, d: nat)
    requires Numeral(s, n) && d < 10
    ensures Numeral(s + [Digit(d)], 10 * n + d)
  {
    hide Decimal, Digit;
    var z: nat :| s == Zeros(z) + Decimal(n);
    DecimalShift(n, d);
    if n == 0 {
      DecimalShift(0, 0);
      ZeroDigit();
      assert s + [Digit(d)] == Zeros(z + 1) + Decimal(d);
    } else {
      assert s + [Digit(d)] == Zeros(z) + Decimal(10 * n + d);
    }
  }

  /** Every string of digits is a numeral of its value. */
  lemma {:induction false} DigitsAreNumeral(s: string)
    requires AllDigits(s)
    ensures Numeral(s, DigitsValue(s, 0))
    decreases |s|
  {
    hide Numeral, Decimal;
    var n := |s| - 1;
    var before, d := s[..n], s[n] as int - '0' as int;
    assert s == before + [s[n]] && Digit(d) == s[n];
    DigitsValueAppend(before, s[n], 0);
    if before == "" {
      SingleDigit(d);
      assert s == [Digit(d)];
    } else {
      DigitsAreNumeral(before);
      NumeralAppend(before, DigitsValue(before, 0), d);
    }
  }

  lemma SingleDigit(d: nat)
    requires d < 10
    ensures Numeral([Digit(d)], d)
  {
    assert [Digit(d)] == Zeros(0) + Decimal(d);
  }

  lemma {:induction false} ZerosValue(z: nat, s: string)
    ensures DigitsValue(Zeros(z) + s, 0) == DigitsValue(s, 0)
  {
    if z > 0 {
      ZerosValue(z - 1, s);
      assert (Zeros(z) + s)[1..] == Zeros(z - 1) + s;
    } else {
      assert Zeros(0) + s == s;
    }
  }

  lemma NumeralValue(s: string, n: nat)
    requires Numeral(s, n)
    ensures AllDigits(s) && DigitsValue(s, 0) == n
  {
    hide Decimal;
    var z: nat :| s == Zeros(z) + Decimal(n);
    ZerosValue(z, Decimal(n));
    DecimalValue(n);
  }

  lemma {:induction false} ValueStops(s: string, tail: string, acc: nat)
    requires (forall k :: 0 <= k < |s| ==> IsDigit(s[k])) && (tail == "" || !IsDigit(tail[0]))
    ensures DigitsValue(s + tail, acc) == DigitsValue(s, acc)
  {
    if s != "" {
      ValueStops(s[1..], tail, 10 * acc + (s[0] as int - '0' as int));
      assert (s + tail)[1..] == s[1..] + tail;
    } else {
      assert s + tail == tail;
    }
  }

  /** A length is read up to the first character that is not a digit, and only if it fits in 63 bits and a sign; leading
      zeros and whatever follows the number are ignored. */
  lemma LengthRead(s: string, n: nat, tail: string)
    requires Numeral(s, n) && (tail == "" || !IsDigit(tail[0]))
    ensures FromChars(s + tail) == if n <= MAX_STREAMSIZE then Some(n) else None
    ensures FromChars("-" + s + tail) == var m: int := n; if m <= MAX_STREAMSIZE + 1 then Some(-m) else None
  {
    NumeralValue(s, n);
    ValueStops(s, tail, 0);
    assert ("-" + s + tail)[1..] == s + tail;
  }

  lemma NoLengthRead(s: string)
    requires s == "" || (!IsDigit(s[0]) && (s[0] == '-' ==> |s| == 1 || !IsDigit(s[1])))
    ensures FromChars(s) == None
  {
  }
}
