/** Decimal printing and parsing of tags, lengths and numbers. */
module Decimal {
  import opened Text

  newtype int32 = x: int | -0x8000_0000 <= x < 0x8000_0000
  newtype int64 = x: int | -0x8000_0000_0000_0000 <= x < 0x8000_0000_0000_0000

  const U32: nat := 0x1_0000_0000
  const U64: nat := 0x1_0000_0000_0000_0000

  /** Unsigned 64 bit increment and decrement. */
  function Inc64(n: nat): (m: nat)
    ensures m < U64
  {
    if n + 1 < U64 then n + 1 else 0
  }

  function Dec64(n: nat): (m: nat) {
    if n == 0 then U64 - 1 else n - 1
  }

  /** Above these a further digit could overflow the accumulator. */
  const MAX_TAG: int32 := 214_748_363
  const MAX_LENGTH: int64 := 922_337_203_685_477_579

  predicate IsDigit(c: char) {
    '0' <= c <= '9'
  }

  predicate AllDigits(s: string) {
    forall i :: 0 <= i < |s| ==> IsDigit(s[i])
  }

  function DigitChar(d: nat): (c: char)
    requires d < 10
    ensures IsDigit(c) && DigitValue(c) == d
  {
    ('0' as int + d) as char
  }

  function DigitValue(c: char): (d: nat)
    requires IsDigit(c)
    ensures d < 10
  {
    c as int - '0' as int
  }

  /** The decimal digits of n, most significant first. */
  function Digits(n: nat): (s: string)
    ensures 1 <= |s| && AllDigits(s)
  {
    if n < 10 then [DigitChar(n)] else Digits(n / 10) + [DigitChar(n % 10)]
  }

  /** The number a digit string stands for. */
  function Value(s: string): (n: nat)
    requires AllDigits(s)
  {
    if s == [] then 0 else Value(s[..|s| - 1]) * 10 + DigitValue(s[|s| - 1])
  }

  function Pow10(k: nat): (p: nat)
    ensures 1 <= p
  {
    if k == 0 then 1 else 10 * Pow10(k - 1)
  }

  lemma {:induction false} ValueOfDigits(n: nat)
    ensures Value(Digits(n)) == n
  {
    var s := Digits(n);
    if n < 10 {
      assert s[..|s| - 1] == [];
    } else {
      assert s[..|s| - 1] == Digits(n / 10);
      ValueOfDigits(n / 10);
    }
  }

  lemma {:induction false} DigitsLength(n: nat, k: nat)
    requires 1 <= k
    ensures |Digits(n)| <= k <==> n < Pow10(k)
  {
    if k == 1 {
      assert Pow10(0) == 1;
    } else if 10 <= n {
      DigitsLength(n / 10, k - 1);
    } else {
      PowAtLeastTen(k);
    }
  }

  lemma {:induction false} PowAtLeastTen(k: nat)
    requires 1 <= k
    ensures 10 <= Pow10(k)
  {
    if k == 1 {
      assert Pow10(0) == 1;
    } else {
      PowAtLeastTen(k - 1);
    }
  }

  lemma NoLeadingZero(n: nat)
    ensures Digits(n)[0] == '0' <==> n == 0
    decreases n
  {
    if 10 <= n {
      NoLeadingZero(n / 10);
    }
  }

  // ---------------------------------------------------------------- get_digit_count

  /** Number of decimal digits of a 64 bit number. */
  function GetDigitCount(num: nat): (k: nat)
    requires num < U64
  {
    if 10 > num then 1
    else if 100 > num then 2
    else if 1000 > num then 3
    else if 10000 > num then 4
    else if 100000 > num then 5
    else if 1000000 > num then 6
    else if 10000000 > num then 7
    else if 100000000 > num then 8
    else if 1000000000 > num then 9
    else if 10000000000 > num then 10
    else if 100000000000 > num then 11
    else if 1000000000000 > num then 12
    else if 10000000000000 > num then 13
    else if 100000000000000 > num then 14
    else if 1000000000000000 > num then 15
    else if 10000000000000000 > num then 16
    else if 100000000000000000 > num then 17
    else if 1000000000000000000 > num then 18
    else if 10000000000000000000 > num then 19
    else 20
  }

  lemma PowersOfTen()
    ensures Pow10(1) == 10 && Pow10(2) == 100 && Pow10(3) == 1000 && Pow10(4) == 10000
    ensures Pow10(5) == 100000 && Pow10(6) == 1000000 && Pow10(7) == 10000000 && Pow10(8) == 100000000
    ensures Pow10(9) == 1000000000 && Pow10(10) == 10000000000
    ensures Pow10(11) == 100000000000 && Pow10(12) == 1000000000000 && Pow10(13) == 10000000000000
    ensures Pow10(14) == 100000000000000 && Pow10(15) == 1000000000000000 && Pow10(16) == 10000000000000000
    ensures Pow10(17) == 100000000000000000 && Pow10(18) == 1000000000000000000
    ensures Pow10(19) == 10000000000000000000 && Pow10(20) == 100000000000000000000
  {
    assert Pow10(0) == 1;
    assert Pow10(5) == 100000;
    assert Pow10(10) == 10000000000;
    assert Pow10(15) == 1000000000000000;
  }

  /** If 10^(k-1) <= n < 10^k then n prints as k digits. */
  lemma LengthBetween(n: nat, k: nat)
    requires 1 <= k && n < Pow10(k) && (k == 1 || Pow10(k - 1) <= n)
    ensures |Digits(n)| == k
  {
    DigitsLength(n, k);
    if k != 1 {
      DigitsLength(n, k - 1);
    }
  }

  lemma DigitCountIsPrintedLength(num: nat)
    requires num < U64
    ensures GetDigitCount(num) == |Digits(num)|
  {
    PowersOfTen();
    LengthBetween(num, GetDigitCount(num));
  }

  // ---------------------------------------------------------------- get_fix_tag

  /** Stands for the missing result where the source reads on behind the message. */
  const OVERRUN := -2

  /** What get_fix_tag does from position i on, having accumulated num. */
  function TagFrom(msg: string, i: nat, num: nat): (r: (int, nat))
    requires i <= |msg|
    ensures i <= r.1 <= |msg|
    decreases |msg| - i
  {
    if i == |msg| then (OVERRUN, i)
    else if !IsDigit(msg[i]) || MAX_TAG as int < num then (-1, i)
    else if i + 1 < |msg| && msg[i + 1] == '=' then (10 * num + DigitValue(msg[i]), i + 2)
    else TagFrom(msg, i + 1, 10 * num + DigitValue(msg[i]))
  }

  /** The tag at position i, or -1, or OVERRUN; and the position after its '='. */
  function TagAt(msg: string, i: nat): (r: (int, nat))
    requires i <= |msg|
  {
    if i < |msg| && (msg[i] == '=' || msg[i] == '0') then (-1, i) else TagFrom(msg, i, 0)
  }

  method GetFixTag(msg: string, start: nat) returns (tag: int32, pos: nat)
    requires start <= |msg|
    ensures (tag as int, pos) == TagAt(msg, start)
    ensures start <= pos <= |msg|
  {
    pos := start;
    var num: int32 := 0;
    if pos < |msg| && (msg[pos] == '=' || msg[pos] == '0') {
      return -1, pos;
    }
    while true
      invariant start <= pos <= |msg|
      invariant 0 <= num
      invariant TagAt(msg, start) == TagFrom(msg, pos, num as int)
      decreases |msg| - pos
    {
      if pos == |msg| {
        return OVERRUN as int32, pos;
      }
      if !IsDigit(msg[pos]) {
        return -1, pos;
      }
      if MAX_TAG < num {
        return -1, pos;
      }
      num := 10 * num + DigitValue(msg[pos]) as int32;
      pos := pos + 1;
      if pos < |msg| && msg[pos] == '=' {
        return num, pos + 1;
      }
    }
  }

  lemma {:induction false} TagFromPrefix(digits: string, rest: string, k: nat)
    requires AllDigits(digits) && k < |digits|
    requires Value(digits[..k]) <= MAX_TAG as int || k == 0
    ensures var r := TagFrom(digits + "=" + rest, k, Value(digits[..k]));
            if Value(digits[..|digits| - 1]) <= MAX_TAG as int then r == (Value(digits), |digits| + 1) else r.0 == -1
    decreases |digits| - k
  {
    var msg := digits + "=" + rest;
    assert msg[k] == digits[k];
    assert digits[..k + 1][..k] == digits[..k];
    if k + 1 == |digits| {
      assert digits[..k + 1] == digits;
      assert msg[k + 1] == '=';
    } else {
      assert msg[k + 1] == digits[k + 1];
      if Value(digits[..k + 1]) <= MAX_TAG as int {
        TagFromPrefix(digits, rest, k + 1);
      } else {
        PrefixValueGrows(digits, k + 1, |digits| - 1);
      }
    }
  }

  lemma {:induction false} PrefixValueGrows(digits: string, i: nat, j: nat)
    requires AllDigits(digits) && i <= j <= |digits|
    ensures Value(digits[..i]) <= Value(digits[..j])
    decreases j
  {
    if i < j {
      PrefixValueGrows(digits, i, j - 1);
      assert digits[..j][..j - 1] == digits[..j - 1];
    }
  }

  /** get_fix_tag reads back exactly the tags 1 .. 2147483639 and refuses every other printed number. */
  lemma TagOfPrinted(t: nat, rest: string)
    ensures TagAt(Digits(t) + "=" + rest, 0).0 == if 1 <= t <= 2_147_483_639 then t else -1
    ensures 1 <= t <= 2_147_483_639 ==> TagAt(Digits(t) + "=" + rest, 0).1 == |Digits(t)| + 1
  {
    var digits := Digits(t);
    NoLeadingZero(t);
    ValueOfDigits(t);
    assert digits[..0] == [];
    assert (digits + "=" + rest)[0] == digits[0];
    if t != 0 {
      TagFromPrefix(digits, rest, 0);
      if 10 <= t {
        assert digits[..|digits| - 1] == Digits(t / 10);
        ValueOfDigits(t / 10);
      } else {
        assert digits[..|digits| - 1] == [];
      }
    }
  }

  /** get_fix_tag looks only at the message from its start position on. */
  lemma {:induction false} TagFromShift(before: string, msg: string, i: nat, num: nat)
    requires i <= |msg|
    ensures TagFrom(before + msg, |before| + i, num)
            == (TagFrom(msg, i, num).0, |before| + TagFrom(msg, i, num).1)
    decreases |msg| - i
  {
    if i < |msg| {
      assert (before + msg)[|before| + i] == msg[i];
      if i + 1 < |msg| {
        assert (before + msg)[|before| + i + 1] == msg[i + 1];
      }
      if IsDigit(msg[i]) {
        TagFromShift(before, msg, i + 1, 10 * num + DigitValue(msg[i]));
      }
    }
  }

  // ---------------------------------------------------------------- get_fix_length_value

  function LengthFrom(soh: char, msg: string, i: nat, num: nat): (r: int)
    requires i <= |msg|
    decreases |msg| - i
  {
    if i == |msg| then OVERRUN
    else if !IsDigit(msg[i]) || MAX_LENGTH as int < num then -1
    else if i + 1 < |msg| && msg[i + 1] == soh then 10 * num + DigitValue(msg[i])
    else LengthFrom(soh, msg, i + 1, 10 * num + DigitValue(msg[i]))
  }

  method GetFixLengthValue(soh: char, msg: string, start: nat) returns (length: int64)
    requires start <= |msg|
    ensures length as int == LengthFrom(soh, msg, start, 0)
  {
    var num: int64 := 0;
    var pos := start;
    while true
      invariant start <= pos <= |msg|
      invariant 0 <= num
      invariant LengthFrom(soh, msg, start, 0) == LengthFrom(soh, msg, pos, num as int)
      decreases |msg| - pos
    {
      if pos == |msg| {
        return OVERRUN as int64;
      }
      if !IsDigit(msg[pos]) {
        return -1;
      }
      if MAX_LENGTH < num {
        return -1;
      }
      num := 10 * num + DigitValue(msg[pos]) as int64;
      pos := pos + 1;
      if pos < |msg| && msg[pos] == soh {
        return num;
      }
    }
  }

  /** A digit string up to soh, leading zeros and all, is read as its value; larger ones are refused. */
  lemma {:induction false} LengthOfDigits(soh: char, before: string, digits: string, rest: string, k: nat)
    requires !IsDigit(soh) && AllDigits(digits) && k < |digits|
    requires Value(digits) < 9_223_372_036_854_775_800
    ensures LengthFrom(soh, before + digits + [soh] + rest, |before| + k, Value(digits[..k])) == Value(digits)
    decreases |digits| - k
  {
    var msg := before + digits + [soh] + rest;
    assert msg[|before| + k] == digits[k];
    assert digits[..k + 1][..k] == digits[..k];
    PrefixValueGrows(digits, k + 1, |digits|);
    assert digits[..|digits|] == digits;
    if k + 1 == |digits| {
      assert msg[|before| + k + 1] == soh;
    } else {
      assert msg[|before| + k + 1] == digits[k + 1];
      LengthOfDigits(soh, before, digits, rest, k + 1);
    }
  }

  // ---------------------------------------------------------------- uint_to_str

  /** Digits needed for a number below 10^10, by the comparison tree of uint_to_str. */
  function SizeBelow10G(value: nat): (size: nat)
    requires value < 10_000_000_000
  {
    if value >= 10000 then
      if value >= 10000000 then
        if value >= 1000000000 then 10 else if value >= 100000000 then 9 else 8
      else
        if value >= 1000000 then 7 else if value >= 100000 then 6 else 5
    else
      if value >= 100 then
        if value >= 1000 then 4 else 3
      else
        if value >= 10 then 2 else 1
  }

  lemma SizeIsPrintedLength(value: nat)
    requires value < 10_000_000_000
    ensures SizeBelow10G(value) == |Digits(value)|
  {
    PowersOfTen();
    LengthBetween(value, SizeBelow10G(value));
  }

  /**
   Print value and the terminator into the buffer at str; `end` is the terminator's position. Exactly
   the digits and the terminator are written.
   */
  method UintToStr(terminator: char, value: nat, a: array<char>, str: nat) returns (end: nat)
    requires value < U64
    requires str + |Digits(value)| < a.Length
    modifies a
    ensures end == str + |Digits(value)|
    ensures a[..] == Splice(old(a[..]), str, Digits(value) + [terminator])
  {
    if value >= 10_000_000_000 {
      Write(a, str, Digits(value) + ['\0']);
      end := str + |Digits(value)|;
      a[end] := terminator;
    } else {
      SizeIsPrintedLength(value);
      end := str + SizeBelow10G(value);
      DigitsBackwards(terminator, value, a, str, end);
    }
  }

  /** What is left to print of v: nothing once it is zero. */
  function Left(v: nat): (s: string) {
    if v == 0 then "" else Digits(v)
  }

  /** One more digit printed is one less left. */
  lemma LeftStep(v: nat, printed: string)
    ensures Digits(v) + printed == Left(v / 10) + ([DigitChar(v % 10)] + printed)
    ensures |Digits(v)| == |Left(v / 10)| + 1
  {
    assert Digits(v) == Left(v / 10) + [DigitChar(v % 10)];
    Assoc(Left(v / 10), [DigitChar(v % 10)], printed);
  }

  /** The terminator at `end`, then the digits from the last to the first. */
  method DigitsBackwards(terminator: char, value: nat, a: array<char>, str: nat, end: nat)
    requires end == str + |Digits(value)| < a.Length
    modifies a
    ensures a[..] == Splice(old(a[..]), str, Digits(value) + [terminator])
  {
    ghost var before := a[..];
    var pos, v := end, value;
    a[pos] := terminator;
    ghost var printed := [terminator];
    assert a[..] == Splice(before, pos, printed);
    assert Left(0) == "" && "" + printed == printed;
    hide Splice, Digits;
    LeftStep(v, printed);
    pos, printed := PutDigit(a, before, pos, v, printed);
    v := v / 10;
    while v != 0
      invariant pos == str + |Left(v)|
      invariant pos + |printed| <= |before| == a.Length
      invariant Left(v) + printed == Digits(value) + [terminator]
      invariant a[..] == Splice(before, pos, printed)
    {
      LeftStep(v, printed);
      pos, printed := PutDigit(a, before, pos, v, printed);
      v := v / 10;
    }
    assert Left(v) + printed == printed;
  }

  /** One round of the digit loop. */
  method PutDigit(a: array<char>, ghost before: string, pos: nat, v: nat, ghost printed: string)
    returns (pos': nat, ghost printed': string)
    requires 1 <= pos && pos + |printed| <= |before| == a.Length
    requires a[..] == Splice(before, pos, printed)
    modifies a
    ensures pos' == pos - 1 && printed' == [DigitChar(v % 10)] + printed
    ensures a[..] == Splice(before, pos', printed')
  {
    pos' := pos - 1;
    printed' := [DigitChar(v % 10)] + printed;
    a[pos'] := DigitChar(v % 10);
  }

  // ---------------------------------------------------------------- uint_to_str_zero_padded

  /** The last k digits of v. */
  function Padded(v: nat, k: nat): (s: string)
    ensures |s| == k && AllDigits(s)
    decreases k
  {
    if k == 0 then [] else Padded(v / 10, k - 1) + [DigitChar(v % 10)]
  }

  /** v after k divisions by ten. */
  function Shifted(v: nat, k: nat): (r: nat)
    decreases k
  {
    if k == 0 then v else Shifted(v / 10, k - 1)
  }

  lemma {:induction false} PaddedFits(v: nat, k: nat)
    ensures Shifted(v, k) == 0 <==> v < Pow10(k)
    ensures v < Pow10(k) ==> Value(Padded(v, k)) == v
    decreases k
  {
    if k != 0 {
      PaddedFits(v / 10, k - 1);
      assert Padded(v, k)[..k - 1] == Padded(v / 10, k - 1);
    }
  }

  /** The terminator, then digits from the last to the first until the space is used up; what is left of value. */
  method PadBackwards(available: nat, terminator: char, value: nat, a: array<char>, str: nat) returns (v: nat)
    requires 1 <= available && str + available <= a.Length
    modifies a
    ensures v == Shifted(value, available - 1)
    ensures a[..] == Splice(old(a[..]), str, Padded(value, available - 1) + [terminator])
  {
    ghost var before := a[..];
    var pos := str + available - 1;
    v := value;
    a[pos] := terminator;
    ghost var printed := [terminator];
    assert a[..] == Splice(before, pos, printed);
    hide Splice;
    while pos != str
      invariant str <= pos && pos + |printed| == str + available
      invariant a[..] == Splice(before, pos, printed)
      invariant Padded(v, pos - str) + printed == Padded(value, available - 1) + [terminator]
      invariant Shifted(v, pos - str) == Shifted(value, available - 1)
      decreases pos - str
    {
      Assoc(Padded(v / 10, pos - str - 1), [DigitChar(v % 10)], printed);
      pos, printed := PutDigit(a, before, pos, v, printed);
      v := v / 10;
    }
  }

  /**
   Print value zero padded into `available` bytes, the last of which is the terminator. The result is 0
   exactly if the value fits; the position moves to the terminator only then.
   */
  method UintToStrZeroPadded(available: nat, terminator: char, value: nat, a: array<char>, str: nat)
    returns (failed: int, end: nat)
    requires str + available <= a.Length
    modifies a
    ensures failed == 0 <==> 1 <= available && value < Pow10(available - 1)
    ensures failed == 0 || failed == 1
    ensures failed == 0 ==> Value(Padded(value, available - 1)) == value
    ensures end == if failed == 0 then str + available - 1 else str
    ensures a[..] == if available == 0 then old(a[..])
                     else Splice(old(a[..]), str, Padded(value, available - 1) + [terminator])
  {
    if available == 0 {
      return 1, str;
    }
    var v := PadBackwards(available, terminator, value, a, str);
    PaddedFits(value, available - 1);
    if v == 0 {
      return 0, str + available - 1;
    } else {
      return 1, str;
    }
  }
}
