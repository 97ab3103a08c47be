/** Writing numbers in decimal, two digits at a time, and reading them back. */
module DataConvert {
  import opened DecimalDigits

  const UINT32_LIMIT := 0x1_0000_0000
  const UINT64_LIMIT := 0x1_0000_0000_0000_0000

  // The digits of 00, 01, ..., 99, one after the other.
  const DIGITS: seq<char> := seq(200, j requires 0 <= j < 200 => Digit(if j % 2 == 0 then j / 2 / 10 else j / 2 % 10))

  // digits10, for numbers of 64 bits (and of 32, for which the later branches are not reached).
  function Digits10(value: nat): nat {
    if value < 10 then 1
    else if value < 100 then 2
    else if value < 1000 then 3
    else if value < 10000 then 4
    else if value < 100000 then 5
    else if value < 1000000 then 6
    else if value < 10000000 then 7
    else if value < 100000000 then 8
    else if value < 1000000000 then 9
    else if value < 10000000000 then 10
    else if value < 100000000000 then 11
    else if value < 1000000000000 then 12
    else if value < 10000000000000 then 13
    else if value < 100000000000000 then 14
    else if value < 1000000000000000 then 15
    else if value < 10000000000000000 then 16
    else if value < 100000000000000000 then 17
    else if value < 1000000000000000000 then 18
    else if value < 10000000000000000000 then 19
    else 20
  }

  lemma Powers()
    ensures Pow10(1) == 10 && Pow10(2) == 100 && Pow10(3) == 1000 && Pow10(4) == 10000 && Pow10(5) == 100000
    ensures Pow10(6) == 1000000 && Pow10(7) == 10000000 && Pow10(8) == 100000000 && Pow10(9) == 1000000000
    ensures Pow10(10) == 10000000000
  {
    assert Pow10(2) == 100;
    assert Pow10(4) == 10000;
    assert Pow10(6) == 1000000;
    assert Pow10(8) == 100000000;
  }

  lemma HigherPowers()
    ensures Pow10(11) == 100000000000 && Pow10(12) == 1000000000000 && Pow10(13) == 10000000000000
    ensures Pow10(14) == 100000000000000 && Pow10(15) == 1000000000000000 && Pow10(16) == 10000000000000000
    ensures Pow10(17) == 100000000000000000 && Pow10(18) == 1000000000000000000 && Pow10(19) == 10000000000000000000
    ensures Pow10(20) == 100000000000000000000
  {
    Powers();
    assert Pow10(12) == 1000000000000;
    assert Pow10(14) == 100000000000000;
    assert Pow10(16) == 10000000000000000;
    assert Pow10(18) == 1000000000000000000;
  }

  // The branches count the digits.
  lemma Digits10IsLength(value: nat)
    requires value < UINT64_LIMIT
    ensures Digits10(value) == |Decimal(value)|
  {
    Powers();
    HigherPowers();
    DecimalLength(value, Digits10(value));
  }

  lemma TwoDigits(v: nat)
    requires v >= 10
    ensures v < 100 ==> Decimal(v) == [DIGITS[2 * v], DIGITS[2 * v + 1]]
    ensures v >= 100 ==>
      var i := 2 * (v - v / 100 * 100);
      0 <= i < 199 && Decimal(v) == Decimal(v / 100) + [DIGITS[i], DIGITS[i + 1]]
  {
    hide Digit, DigitValue;
    if v < 100 {
      assert Decimal(v / 10) == [Digit(v / 10)];
    } else {
      var i := 2 * (v - v / 100 * 100);
      assert v / 10 / 10 == v / 100 && v / 10 % 10 == (v - v / 100 * 100) / 10 && v % 10 == (v - v / 100 * 100) % 10;
      assert Decimal(v / 10) == Decimal(v / 100) + [Digit(v / 10 % 10)];
      assert Decimal(v) == Decimal(v / 100) + [Digit(v / 10 % 10)] + [Digit(v % 10)];
    }
  }

  // The last two digits of v go where they belong, and what remains is v / 100.
  method Mod100(v: nat, a: array<char>, x: nat) returns (rest: nat)
    requires v >= 100 && 0 < x < a.Length
    modifies a
    ensures rest == v / 100 && Decimal(v) == Decimal(rest) + a[x - 1..x + 1]
    ensures a[..x - 1] == old(a[..x - 1]) && a[x + 1..] == old(a[x + 1..])
  {
    TwoDigits(v);
    var temp := v / 100;
    var i := 2 * (v - temp * 100);
    a[x] := DIGITS[i + 1];
    a[x - 1] := DIGITS[i];
    rest := temp;
  }

  // One or two digits at the front.
  method Less100(v: nat, a: array<char>, x: nat)
    requires v < 100 && x < a.Length && (v >= 10 ==> x > 0)
    modifies a
    ensures var from := x + 1 - |Decimal(v)|;
      from >= 0 && a[from..x + 1] == Decimal(v) && a[..from] == old(a[..from]) && a[x + 1..] == old(a[x + 1..])
  {
    if v < 10 {
      a[x] := Digit(v);
    } else {
      TwoDigits(v);
      var i := 2 * v;
      a[x] := DIGITS[i + 1];
      a[x - 1] := DIGITS[i];
    }
  }

  // uitoa and ulltoa with the loop: the number, if it fits, and a terminating NUL behind it.
  method ToDecimal(value: nat, a: array<char>, strLen: int) returns (n: nat)
    requires value < UINT64_LIMIT && strLen < a.Length
    modifies a
    ensures n == if strLen >= |Decimal(value)| then |Decimal(value)| else 0
    ensures n > 0 ==> a[..n] == Decimal(value) && a[n] == 0 as char && a[n + 1..] == old(a[n + 1..])
    ensures n == 0 ==> a[..] == old(a[..])
  {
    Digits10IsLength(value);
    var need := Digits10(value);
    if strLen < need {
      return 0;
    }
    var next, v := need - 1, value;
    assert a[next + 1..need] == "";
    while v >= 100
      invariant 0 <= next < need && next + 1 == |Decimal(v)|
      invariant Decimal(value) == Decimal(v) + a[next + 1..need] && a[need..] == old(a[need..])
    {
      v := DigitPair(value, v, a, next, need);
      next := next - 2;
    }
    FrontDigits(v, a, next, need);
    assert old(a[need..])[1..] == old(a[need + 1..]);
    n := Terminate(a, need);
  }

  // What the loop leaves: one or two digits at the front.
  method FrontDigits(v: nat, a: array<char>, next: nat, ghost need: nat)
    requires v < 100 && next < need < a.Length && next + 1 == |Decimal(v)|
    modifies a
    ensures a[..need] == Decimal(v) + old(a[next + 1..need]) && a[need..] == old(a[need..])
  {
    ghost var back := a[next + 1..];
    KeepTail(a, next, need);
    Less100(v, a, next);
    KeepTail(a, next, need);
    assert a[..need] == a[0..next + 1] + a[next + 1..need];
  }

  method Terminate(a: array<char>, need: nat) returns (n: nat)
    requires need < a.Length
    modifies a
    ensures n == need && a[..n] == old(a[..n]) && a[n] == 0 as char && a[n + 1..] == old(a[n..])[1..]
  {
    a[need] := 0 as char;
    n := need;
  }

  // One turn of the loop.
  method DigitPair(ghost value: nat, v: nat, a: array<char>, next: nat, ghost need: nat) returns (rest: nat)
    requires v >= 100 && next < need < a.Length && next + 1 == |Decimal(v)|
      && Decimal(value) == Decimal(v) + a[next + 1..need]
    modifies a
    ensures rest == v / 100 && next >= 2 && next - 1 == |Decimal(rest)|
    ensures Decimal(value) == Decimal(rest) + a[next - 1..need] && a[need..] == old(a[need..])
  {
    ghost var tail := a[next + 1..need];
    LastDigits(v);
    KeepTail(a, next, need);
    rest := Mod100(v, a, next);
    KeepTail(a, next, need);
    assert a[next - 1..need] == a[next - 1..next + 1] + tail;
    assert Decimal(rest) + a[next - 1..next + 1] + tail == Decimal(rest) + (a[next - 1..next + 1] + tail);
  }

  lemma LastDigits(v: nat)
    ensures v >= 100 ==> |Decimal(v)| >= 3
    ensures v >= 10 ==> |Decimal(v)| >= 2
    ensures v < 100 ==> |Decimal(v)| == if v < 10 then 1 else 2
  {
    if v >= 100 {
      TwoDigits(v);
    }
  }

  // What has been written further back stays.
  lemma KeepTail(a: array<char>, next: nat, need: nat)
    requires next < need < a.Length
    ensures a[next + 1..need] == a[next + 1..][..need - next - 1]
    ensures a[need..] == a[next + 1..][need - next - 1..]
  {
  }

  // The branch for a number of k digits of the unrolled form: MOD100(k - 1), MOD100(k - 3), ..., and at
  // the end LESS10 or LESS100.
  method Branch(value: nat, a: array<char>, k: nat)
    requires |Decimal(value)| == k < a.Length
    modifies a
    ensures a[..k] == Decimal(value) && a[k..] == old(a[k..])
    decreases k
  {
    LastDigits(value);
    if value < 100 {
      Less100(value, a, k - 1);
    } else {
      var rest := Mod100(value, a, k - 1);
      ghost var pair, tail := a[k - 2..k], a[k..];
      assert a[k - 2..] == pair + tail;
      Branch(rest, a, k - 2);
      assert a[..k] == a[..k - 2] + a[k - 2..][..2] && a[k..] == a[k - 2..][2..];
    }
  }

  // The unrolled uitoa and ulltoa, which choose the branch by the size of the number.
  method ToDecimalUnrolled(value: nat, a: array<char>, strLen: int) returns (n: nat)
    requires value < UINT64_LIMIT && strLen < a.Length
    modifies a
    ensures n == if strLen >= |Decimal(value)| then |Decimal(value)| else 0
    ensures n > 0 ==> a[..n] == Decimal(value) && a[n] == 0 as char && a[n + 1..] == old(a[n + 1..])
    ensures n == 0 ==> a[..] == old(a[..])
  {
    Digits10IsLength(value);
    if strLen < Digits10(value) {
      return 0;
    }
    Branch(value, a, Digits10(value));
    n := Terminate(a, Digits10(value));
    assert old(a[n..])[1..] == old(a[n + 1..]);
  }

  // ---------- reading ----------

  // Blanks, at most one plus sign, digits.
  function Number(s: string): nat {
    if s != "" && s[0] == ' ' then Number(s[1..])
    else if s != "" && s[0] == '+' then Digits(s[1..], 0)
    else Digits(s, 0)
  }

  // Blanks, a plus sign perhaps, and the digits of a number, whatever follows them.
  lemma {:induction false} NumberReads(blanks: string, plus: string, n: nat, rest: string)
    requires (forall i :: 0 <= i < |blanks| ==> blanks[i] == ' ') && plus in {"", "+"}
    requires rest == "" || !IsDigit(rest[0])
    ensures Number(blanks + (plus + (Decimal(n) + rest))) == n
    decreases |blanks|
  {
    var digits := Decimal(n) + rest;
    var s := plus + digits;
    if blanks == "" {
      assert blanks + s == s && digits[0] == Decimal(n)[0] && IsDigit(digits[0]);
      assert if plus == "" then s == digits else s[0] == '+' && s[1..] == digits;
      DecimalReadsBack(n, rest);
      hide Decimal, Digits;
    } else {
      NumberReads(blanks[1..], plus, n, rest);
      assert (blanks + s)[0] == ' ' && (blanks + s)[1..] == blanks[1..] + s;
    }
  }

  // Without digits it is 0; a second sign or a blank behind the sign is no digit.
  lemma {:induction false} NumberNothing(blanks: string, rest: string)
    requires forall i :: 0 <= i < |blanks| ==> blanks[i] == ' '
    requires rest == "" || (!IsDigit(rest[0]) && rest[0] != ' ' && (rest[0] == '+' && |rest| > 1 ==> !IsDigit(rest[1])))
    ensures Number(blanks + rest) == 0
    decreases |blanks|
  {
    if blanks == "" {
      assert blanks + rest == rest;
      assert rest != "" && |rest| > 1 ==> rest[1..][0] == rest[1];
    } else {
      NumberNothing(blanks[1..], rest);
      assert (blanks + rest)[0] == ' ' && (blanks + rest)[1..] == blanks[1..] + rest;
    }
  }

  // The number read from what is left of the string, given what has been read of it.
  ghost function Remaining(found: bool, acc: nat, rest: string): nat {
    if found then Digits(rest, acc) else Number(rest)
  }

  // The characters before `end` are blanks, a plus sign perhaps, and digits, and as many of them as there are.
  ghost predicate ReadTo(s: string, end: nat) {
    && end <= |s| && (end < |s| ==> !IsDigit(s[end]))
    && exists i, j ::
         && 0 <= i <= j <= end && ReadFrom(s, i, j, end)
         && (i == end < |s| ==> s[end] != ' ' && s[end] != '+')
  }

  ghost predicate ReadFrom(s: string, i: nat, j: nat, end: nat)
    requires i <= j <= end <= |s|
  {
    && (forall k :: 0 <= k < i ==> s[k] == ' ') && (j == i || (j == i + 1 && s[i] == '+'))
    && forall k :: j <= k < end ==> IsDigit(s[k])
  }

  lemma ReadMore(s: string, i: nat, j: nat, end: nat)
    requires i <= j <= end < |s| && ReadFrom(s, i, j, end)
    ensures IsDigit(s[end]) ==> ReadFrom(s, i, j, end + 1)
    ensures i == end && s[end] == ' ' ==> ReadFrom(s, end + 1, end + 1, end + 1)
    ensures i == end && s[end] == '+' ==> ReadFrom(s, end, end + 1, end + 1)
  {
  }

  lemma ReadEnds(s: string, i: nat, j: nat, end: nat)
    requires i <= j <= end <= |s| && ReadFrom(s, i, j, end)
    requires end < |s| ==> !IsDigit(s[end]) && (i == end ==> s[end] != ' ' && s[end] != '+')
    ensures ReadTo(s, end)
  {
  }

  function Width(wide: bool): nat { if wide then UINT64_LIMIT else UINT32_LIMIT }

  lemma Wrap(acc: nat, d: nat, wide: bool)
    ensures (acc % Width(wide) * 10 + d) % Width(wide) == (acc * 10 + d) % Width(wide)
  {
    if wide {
      Wrap64(acc, d);
    } else {
      Wrap32(acc, d);
    }
  }

  lemma Wrap64(acc: nat, d: nat)
    ensures (acc % 0x1_0000_0000_0000_0000 * 10 + d) % 0x1_0000_0000_0000_0000 ==
      (acc * 10 + d) % 0x1_0000_0000_0000_0000
  {
    var q, r := acc / 0x1_0000_0000_0000_0000, acc % 0x1_0000_0000_0000_0000;
    var q1 := (r * 10 + d) / 0x1_0000_0000_0000_0000;
    assert acc * 10 + d == 0x1_0000_0000_0000_0000 * (10 * q + q1) + (r * 10 + d) % 0x1_0000_0000_0000_0000;
  }

  lemma Wrap32(acc: nat, d: nat)
    ensures (acc % 0x1_0000_0000 * 10 + d) % 0x1_0000_0000 == (acc * 10 + d) % 0x1_0000_0000
  {
    var q, r := acc / 0x1_0000_0000, acc % 0x1_0000_0000;
    var q1 := (r * 10 + d) / 0x1_0000_0000;
    assert acc * 10 + d == 0x1_0000_0000 * (10 * q + q1) + (r * 10 + d) % 0x1_0000_0000;
  }

  // One more character is read.
  lemma ReadOne(found: bool, acc: nat, rest: string)
    requires rest != "" && (!found ==> acc == 0)
    ensures var c := rest[0];
      if IsDigit(c) then Remaining(found, acc, rest) == Remaining(true, 10 * acc + DigitValue(c), rest[1..])
      else if c == ' ' && !found then Remaining(found, acc, rest) == Remaining(false, 0, rest[1..])
      else if c == '+' && !found then Remaining(found, acc, rest) == Remaining(true, 0, rest[1..])
      else Remaining(found, acc, rest) == acc
  {
  }

  lemma StartReading(s: string)
    ensures s[0..] == s && Remaining(false, 0, s) == Number(s) && ReadFrom(s, 0, 0, 0)
  {
  }

  lemma NothingLeft(found: bool, acc: nat)
    ensures !found ==> Remaining(found, acc, "") == 0
    ensures found ==> Remaining(found, acc, "") == acc
  {
  }

  lemma SmallDigit(c: char, wide: bool)
    requires IsDigit(c)
    ensures DigitValue(c) % Width(wide) == DigitValue(c)
  {
  }

  // atoui and atoull: without a length the string ends with a NUL.  The arithmetic wraps.
  method FromDecimal(str: string, len: nat, wide: bool) returns (ret: nat, end: nat)
    requires if len > 0 then len <= |str| else 0 as char in str
    ensures var s := if len > 0 then str[..len] else str;
      ret == Number(s) % (if wide then UINT64_LIMIT else UINT32_LIMIT) && ReadTo(s, end)
  {
    hide DigitValue, Number, Remaining, ReadFrom;
    var s := if len > 0 then str[..len] else str;
    ret, end := 0, 0;
    var found := false;
    ghost var acc: nat := 0;
    ghost var i: nat, j: nat := 0, 0;
    StartReading(s);
    while len == 0 || end < len
      invariant end <= |s| && (len == 0 ==> 0 as char in s[end..])
      invariant Remaining(found, acc, s[end..]) == Number(s) && ret == acc % Width(wide) && (!found ==> acc == 0)
      invariant i <= j <= end && ReadFrom(s, i, j, end) && (found <==> i < end)
      decreases |s| - end
    {
      ghost var rest := s[end..];
      assert rest[0] == s[end] && rest[1..] == s[end + 1..];
      ReadOne(found, acc, rest);
      ReadMore(s, i, j, end);
      var c := s[end];
      if IsDigit(c) {
        if found {
          Wrap(acc, DigitValue(c), wide);
          ret := (ret * 10 + DigitValue(c)) % Width(wide);
          acc := 10 * acc + DigitValue(c);
        } else {
          SmallDigit(c, wide);
          found, i, j := true, end, end;
          ret := DigitValue(c);
          acc := DigitValue(c);
        }
      } else if c == ' ' && !found {
        i, j := end + 1, end + 1;
      } else if c == '+' && !found {
        found, i, j := true, end, end + 1;
      } else {
        break;
      }
      end := end + 1;
    }
    NothingLeft(found, acc);
    ReadEnds(s, i, j, end);
  }

  // Both ways of writing a number, read back, give the number.
  method WriteAndRead(value: nat, a: array<char>, wide: bool, unrolled: bool) returns (back: nat)
    requires value < (if wide then UINT64_LIMIT else UINT32_LIMIT) && |Decimal(value)| < a.Length
    modifies a
    ensures back == value
  {
    var n;
    if unrolled {
      n := ToDecimalUnrolled(value, a, a.Length - 1);
    } else {
      n := ToDecimal(value, a, a.Length - 1);
    }
    DecimalReadsBack(value, "");
    assert Decimal(value) + "" == Decimal(value);
    var end;
    back, end := FromDecimal(a[..], n, wide);
  }
}
