/** Decimal notation: the canonical digits of a number, and reading digits back. */
module DecimalDigits {

  predicate IsDigit(c: char) { '0' <= c <= '9' }

  function DigitValue(c: char): nat
    requires IsDigit(c)
  {
    c as int - '0' as int
  }

  function Digit(d: nat): (c: char)
    requires d < 10
    ensures IsDigit(c) && DigitValue(c) == d
  {
    ('0' as int + d) as char
  }

  // The digits of n, most significant first, without leading zeros.
  function Decimal(n: nat): (s: string)
    ensures s != "" && forall i :: 0 <= i < |s| ==> IsDigit(s[i])
  {
    if n < 10 then [Digit(n)] else Decimal(n / 10) + [Digit(n % 10)]
  }

  // Reading digits on to a number.
  function Digits(s: string, value: nat): nat {
    if s != "" && IsDigit(s[0]) then Digits(s[1..], 10 * value + DigitValue(s[0])) else value
  }

  lemma {:induction false} DigitsAppend(s: string, t: string, value: nat)
    requires forall i :: 0 <= i < |s| ==> IsDigit(s[i])
    ensures Digits(s + t, value) == Digits(t, Digits(s, value))
    decreases |s|
  {
    if s == "" {
      assert s + t == t;
    } else {
      assert (s + t)[0] == s[0] && (s + t)[1..] == s[1..] + t;
      DigitsAppend(s[1..], t, 10 * value + DigitValue(s[0]));
    }
  }

  // Reading the digits of n gives n, whatever follows them that is not a digit.
  lemma {:induction false} DecimalReadsBack(n: nat, rest: string)
    requires rest != "" ==> !IsDigit(rest[0])
    ensures Digits(Decimal(n) + rest, 0) == n
    decreases n
  {
    DigitsAppend(Decimal(n), rest, 0);
    if n < 10 {
      assert Digits([Digit(n)], 0) == Digits([Digit(n)][1..], n);
    } else {
      var last := [Digit(n % 10)];
      DecimalReadsBack(n / 10, "");
      assert Decimal(n / 10) + "" == Decimal(n / 10);
      DigitsAppend(Decimal(n / 10), last, 0);
      assert Digits(last, n / 10) == Digits(last[1..], n);
    }
  }

  function Pow10(k: nat): (p: nat)
    ensures p > 0
  {
    if k == 0 then 1 else 10 * Pow10(k - 1)
  }

  // A number has k digits exactly if it lies between the powers of ten.
  lemma {:induction false} DecimalLength(n: nat, k: nat)
    requires k > 0
    ensures |Decimal(n)| == k <==> (k == 1 || Pow10(k - 1) <= n) && n < Pow10(k)
    decreases n
  {
    if n < 10 {
      if k > 1 {
        Pow10Grows(1, k - 1);
      }
      Pow10Grows(1, k);
    } else if k == 1 {
    } else {
      DecimalLength(n / 10, k - 1);
    }
  }

  lemma {:induction false} Pow10Grows(i: nat, k: nat)
    requires i <= k
    ensures Pow10(i) <= Pow10(k)
    decreases k
  {
    if i < k {
      Pow10Grows(i, k - 1);
    }
  }
}
