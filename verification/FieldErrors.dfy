/** When the walk through a complete message goes on, ends, or reports a parsing error. */
module FieldErrors {
  import opened Text
  import opened Decimal
  import opened Fields

  const LARGEST_TAG: nat := 2_147_483_639
  const LARGEST_LENGTH: nat := 9_223_372_036_854_775_799

  /** Where the run of digits that starts at i ends. */
  function RunEnd(msg: string, i: nat): (e: nat)
    requires i <= |msg|
    ensures i <= e <= |msg| && AllDigits(msg[i..e]) && (e < |msg| ==> !IsDigit(msg[e]))
    decreases |msg| - i
  {
    if i < |msg| && IsDigit(msg[i]) then
      var e := RunEnd(msg, i + 1);
      assert msg[i..e] == [msg[i]] + msg[i + 1..e];
      e
    else i
  }

  function Run(msg: string, i: nat): (d: string)
    requires i <= |msg|
    ensures AllDigits(d)
  {
    msg[i..RunEnd(msg, i)]
  }

  /** The run of digits at i cannot be a tag, whatever comes later in the message. */
  predicate NoTag(msg: string, i: nat)
    requires i <= |msg|
  {
    var d, e := Run(msg, i), RunEnd(msg, i);
    && i < |msg|
    && (d == [] || d[0] == '0' || LARGEST_TAG < Value(d) || (e < |msg| && msg[e] != '='))
  }

  /** The message ends before the tag does. */
  predicate TagIsCut(msg: string, i: nat)
    requires i <= |msg|
  {
    RunEnd(msg, i) == |msg| && !NoTag(msg, i)
  }

  /** The tag t stands at i, as it is printed. */
  predicate TagStands(msg: string, i: nat, t: nat) {
    1 <= t <= LARGEST_TAG && Occurs(msg, Digits(t) + "=", i)
  }

  /** The run of digits d stands at `start` and ends there. */
  ghost predicate IsRun(msg: string, start: nat, d: string) {
    && start + |d| <= |msg| && AllDigits(d) && msg[start..start + |d|] == d
    && (start + |d| < |msg| ==> !IsDigit(msg[start + |d|]))
  }

  lemma RunAt(msg: string, start: nat, d: string, k: nat)
    requires IsRun(msg, start, d) && k < |d|
    ensures msg[start + k] == d[k] && IsDigit(d[k])
  {
    assert msg[start + k] == msg[start..start + |d|][k];
  }

  /** One more digit of a run. */
  lemma OneMoreDigit(d: string, k: nat)
    requires AllDigits(d) && k < |d|
    ensures Value(d[..k + 1]) == 10 * Value(d[..k]) + DigitValue(d[k])
    ensures 10 * Value(d[..k]) <= Value(d)
  {
    assert d[..k + 1][..k] == d[..k];
    PrefixValueGrows(d, k + 1, |d|);
    assert d[..|d|] == d;
  }

  /** get_fix_tag in the middle of a run of digits. */
  lemma {:induction false} TagFromRun(msg: string, start: nat, d: string, k: nat)
    requires IsRun(msg, start, d) && k < |d| && Value(d[..k]) <= MAX_TAG as int
    ensures var r, e := TagFrom(msg, start + k, Value(d[..k])), start + |d|;
            if LARGEST_TAG < Value(d) then r.0 == -1
            else if e == |msg| then r.0 == OVERRUN
            else if msg[e] == '=' then r == (Value(d), e + 1)
            else r.0 == -1
    decreases |d| - k
  {
    RunAt(msg, start, d, k);
    OneMoreDigit(d, k);
    if k + 1 == |d| {
      assert d[..k + 1] == d;
    } else {
      RunAt(msg, start, d, k + 1);
      OneMoreDigit(d, k + 1);
      if Value(d[..k + 1]) <= MAX_TAG as int {
        TagFromRun(msg, start, d, k + 1);
      }
    }
  }

  /** get_fix_length_value in the middle of a run of digits. */
  lemma {:induction false} LengthFromRun(soh: char, msg: string, start: nat, d: string, k: nat)
    requires !IsDigit(soh) && IsRun(msg, start, d) && k < |d| && Value(d[..k]) <= MAX_LENGTH as int
    ensures var r, e := LengthFrom(soh, msg, start + k, Value(d[..k])), start + |d|;
            r == if LARGEST_LENGTH < Value(d) then -1
                 else if e == |msg| then OVERRUN
                 else if msg[e] == soh then Value(d)
                 else -1
    decreases |d| - k
  {
    RunAt(msg, start, d, k);
    OneMoreDigit(d, k);
    if k + 1 == |d| {
      assert d[..k + 1] == d;
    } else {
      RunAt(msg, start, d, k + 1);
      OneMoreDigit(d, k + 1);
      if Value(d[..k + 1]) <= MAX_LENGTH as int {
        LengthFromRun(soh, msg, start, d, k + 1);
      }
    }
  }

  /** A number without leading zeros is the printed form of its value. */
  lemma {:induction false} DigitsOfValue(d: string)
    requires d != [] && AllDigits(d) && d[0] != '0'
    ensures 1 <= Value(d) && Digits(Value(d)) == d
    decreases |d|
  {
    var front, last := d[..|d| - 1], d[|d| - 1];
    assert [last] == [DigitChar(DigitValue(last))];
    if front == [] {
      assert d == [last];
      assert Value(front) == 0;
    } else {
      DigitsOfValue(front);
      assert Value(d) / 10 == Value(front) && Value(d) % 10 == DigitValue(last);
      assert d == front + [last];
    }
  }

  /** A printed tag and its '=' are the run of digits where they stand. */
  lemma PrintedIsRun(msg: string, i: nat, p: string)
    requires i <= |msg| && AllDigits(p) && Occurs(msg, p + "=", i)
    ensures RunEnd(msg, i) == i + |p| < |msg| && msg[i + |p|] == '=' && Run(msg, i) == p
  {
    var u := i + |p|;
    assert msg[u] == msg[i..u + 1][|p|] == '=';
    assert forall j :: i <= j < u ==> msg[j] == msg[i..u + 1][j - i] == p[j - i];
    RunEndIs(msg, i, u);
    assert msg[i..u + 1][..|p|] == p;
  }

  /** What stands at i, if a tag stands there, is the run of digits at i. */
  lemma TagStandsIsRun(msg: string, i: nat, t: nat)
    requires i <= |msg|
    ensures TagStands(msg, i, t) <==>
            i < |msg| && !NoTag(msg, i) && RunEnd(msg, i) < |msg| && Value(Run(msg, i)) == t
  {
    hide RunEnd, Digits, Value;
    if TagStands(msg, i, t) {
      PrintedIsRun(msg, i, Digits(t));
      ValueOfDigits(t);
      NoLeadingZero(t);
    }
    if i < |msg| && !NoTag(msg, i) && RunEnd(msg, i) < |msg| && Value(Run(msg, i)) == t {
      var d, e := Run(msg, i), RunEnd(msg, i);
      DigitsOfValue(d);
      assert msg[i..e + 1] == d + "=";
    }
  }

  lemma {:induction false} RunEndIs(msg: string, i: nat, u: nat)
    requires i <= u < |msg| && !IsDigit(msg[u]) && forall j :: i <= j < u ==> IsDigit(msg[j])
    ensures RunEnd(msg, i) == u
    decreases u - i
  {
    if i < u {
      RunEndIs(msg, i + 1, u);
    }
  }

  /**
   get_fix_tag, for every message and position: it reports the tag that stands there as it is printed,
   -1 if none can, and reads behind the message exactly if the message ends within a possible tag.
   */
  lemma TagIsExact(msg: string, i: nat)
    requires i <= |msg|
    ensures forall t: nat :: TagStands(msg, i, t) <==> TagAt(msg, i) == (t, i + |Digits(t)| + 1) && t != 0
    ensures TagAt(msg, i).0 == -1 <==> NoTag(msg, i)
    ensures TagAt(msg, i).0 == OVERRUN <==> TagIsCut(msg, i)
  {
    TagByRun(msg, i);
    forall t: nat ensures TagStands(msg, i, t) <==> TagAt(msg, i) == (t, i + |Digits(t)| + 1) && t != 0 {
      TagStandsIsRun(msg, i, t);
      if i < |msg| && !NoTag(msg, i) {
        DigitsOfValue(Run(msg, i));
      }
    }
  }

  lemma TagByRun(msg: string, i: nat)
    requires i <= |msg|
    ensures var e := RunEnd(msg, i);
            if NoTag(msg, i) then TagAt(msg, i).0 == -1
            else if e == |msg| then TagAt(msg, i).0 == OVERRUN
            else TagAt(msg, i) == (Value(Run(msg, i)), e + 1)
  {
    var d := Run(msg, i);
    if d != [] {
      RunAt(msg, i, d, 0);
      assert d[..0] == [];
      TagFromRun(msg, i, d, 0);
    }
  }

  /** The value at p cannot be a length: no number, too large, not ended by soh, or negative once stored in an int. */
  predicate BadLength(soh: char, msg: string, p: nat)
    requires p <= |msg|
  {
    var d, e := Run(msg, p), RunEnd(msg, p);
    && p < |msg|
    && (d == [] || LARGEST_LENGTH < Value(d) || (e < |msg| && (msg[e] != soh || INT_MAX < Value(d) % U32)))
  }

  lemma LengthIsExact(soh: char, msg: string, p: nat)
    requires !IsDigit(soh) && p <= |msg|
    ensures var length, e := LengthFrom(soh, msg, p, 0), RunEnd(msg, p);
            if BadLength(soh, msg, p) then ToInt(length) < 0 && length != OVERRUN
            else if e == |msg| then length == OVERRUN
            else msg[e] == soh && length == Value(Run(msg, p)) && ToInt(length) == length % U32
  {
    var d := Run(msg, p);
    if d != [] {
      assert d[..0] == [];
      LengthFromRun(soh, msg, p, d, 0);
    }
  }

  /**
   next_field, for every message and position: it reports the end exactly at the checksum's tag, and a
   parsing error exactly if no tag can stand there or a data field's length is no good.
   */
  lemma NextIsExact(soh: char, dataTags: set<int>, msg: string, pos: nat, prev: Option<nat>)
    requires !IsDigit(soh) && pos <= |msg|
    ensures NextField(soh, dataTags, msg, pos, prev).NoMore? <==> Occurs(msg, "10=", pos)
    ensures NextField(soh, dataTags, msg, pos, prev).BadField? <==>
            || NoTag(msg, pos)
            || (&& prev.Some? && prev.value <= |msg| && BadLength(soh, msg, prev.value)
                && exists t: nat :: t in dataTags && t != 10 && TagStands(msg, pos, t))
  {
    TagIsExact(msg, pos);
    assert Digits(10) + "=" == "10=";
    assert TagStands(msg, pos, 10) <==> Occurs(msg, "10=", pos);
    if prev.Some? && prev.value <= |msg| {
      LengthIsExact(soh, msg, prev.value);
    }
    TagByRun(msg, pos);
    if !NoTag(msg, pos) && !TagIsCut(msg, pos) {
      TagStandsIsRun(msg, pos, Value(Run(msg, pos)));
    }
    hide TagAt, LengthFrom, NoTag, TagStands, BadLength, Run, RunEnd, ToInt, Value, Digits;
  }
}
