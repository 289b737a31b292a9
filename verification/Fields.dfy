/** Building a partial message field by field (FIXMessageTX) and walking a complete one (FIXMessageRX). */
module Fields {
  import opened Text
  import opened Decimal

  datatype Option<T> = None | Some(value: T)

  datatype Field = Field(tag: nat, value: string)

  const INT_MAX: nat := 0x7FFF_FFFF

  function FieldBytes(soh: char, f: Field): (s: string)
    ensures |s| == |Digits(f.tag)| + 1 + |f.value| + 1
  {
    Digits(f.tag) + "=" + f.value + [soh]
  }

  function AllBytes(soh: char, fields: seq<Field>): (s: string) {
    if fields == [] then [] else AllBytes(soh, fields[..|fields| - 1]) + FieldBytes(soh, fields[|fields| - 1])
  }

  lemma {:induction false} AllBytesConcat(soh: char, a: seq<Field>, b: seq<Field>)
    ensures AllBytes(soh, a + b) == AllBytes(soh, a) + AllBytes(soh, b)
    decreases |b|
  {
    if b == [] {
      assert a + b == a;
    } else {
      var c, f := b[..|b| - 1], b[|b| - 1];
      assert (a + b)[..|a + b| - 1] == a + c;
      AllBytesConcat(soh, a, c);
      Assoc(AllBytes(soh, a), AllBytes(soh, c), FieldBytes(soh, f));
    }
  }

  /** What expose hands to the pusher for the fields appended. */
  function PartialOf(soh: char, fields: seq<Field>): (s: string) {
    [soh] + AllBytes(soh, fields) + "10="
  }

  // ---------------------------------------------------------------- FIXMessageTX

  const INITIAL_TX_BUFFER_SIZE: nat := 2048

  /** The buffer size after doubling until `need` bytes fit. */
  function Grown(size: nat, need: nat): (n: nat)
    requires 1 <= size
    ensures size <= n && need <= n
    decreases need - size
  {
    if need <= size then size else Grown(2 * size, need)
  }

  /** The new size is a multiple of the old one, and not twice as large as it has to be. */
  lemma {:induction false} GrownIsTight(size: nat, need: nat) returns (k: nat)
    requires 1 <= size
    ensures Grown(size, need) == k * size
    ensures Grown(size, need) == size || Grown(size, need) < 2 * need
    decreases need - size
  {
    if need <= size {
      k := 1;
    } else {
      var j := GrownIsTight(2 * size, need);
      k := j * 2;
    }
  }

  /** A field with a value of n bytes and the closing tag fit behind the first pos bytes, once the buffer has grown. */
  predicate FieldFits(size: nat, pos: nat, tag: nat, n: nat)
    requires 1 <= size
  {
    pos + |Digits(tag)| + 1 + n + 1 + 3 <= Grown(size, 25 + n)
  }

  /** The size test looks at one field only: alone it is enough exactly while little has been appended. */
  lemma SizeTestSuffices(size: nat, pos: nat, tag: nat)
    requires INITIAL_TX_BUFFER_SIZE <= size
    ensures (forall n: nat :: FieldFits(size, pos, tag, n)) <==> pos + |Digits(tag)| <= 20
  {
    assert Grown(size, 25 + (size - 25)) == size;
    assert FieldFits(size, pos, tag, size - 25) ==> pos + |Digits(tag)| <= 20;
  }

  /**
   Overflow is where the source writes behind its buffer, or through the old pos_ into a block that
   realloc has moved.
   */
  datatype Appended = Done | Refused | Overflow

  /** `fields` are the fields appended since the last expose; `pos` is the offset of pos_ in buf_. */
  class FIXMessageTX {
    const soh: char
    const maxMsgTypeLength: nat
    var msgType: string
    var buf: array<char>
    var pos: nat
    var length: nat
    var sendingTimeAppended: bool
    var ttlSec: int
    var ttlUsec: int
    ghost var fields: seq<Field>

    ghost predicate Valid()
      reads this, buf
    {
      && INITIAL_TX_BUFFER_SIZE <= buf.Length
      && pos == length && pos + 3 <= buf.Length
      && buf[..pos] == [soh] + AllBytes(soh, fields)
    }

    /** Construction followed by init. */
    constructor (soh: char, maxMsgTypeLength: nat)
      ensures Valid() && fields == [] && msgType == "" && !sendingTimeAppended && ttlSec == ttlUsec == 0
      ensures buf.Length == INITIAL_TX_BUFFER_SIZE
      ensures this.soh == soh && this.maxMsgTypeLength == maxMsgTypeLength && fresh(buf)
    {
      this.soh, this.maxMsgTypeLength := soh, maxMsgTypeLength;
      buf := new char[INITIAL_TX_BUFFER_SIZE];
      pos, length := 1, 1;
      msgType, sendingTimeAppended, fields := "", false, [];
      ttlSec, ttlUsec := 0, 0;
      new;
      buf[0] := soh;
      assert buf[..1] == [soh];
    }

    /** The appended field and the closing tag fit behind what is already there. */
    ghost predicate Fits(tag: nat, value: string)
      requires Valid()
      reads this, buf
    {
      FieldFits(buf.Length, pos, tag, |value|)
    }

    /**
     Append a field; tag 35 sets the message type instead, if it is short enough. `moves` says whether
     realloc, if it is called, moves the buffer.
     */
    method AppendField(tag: nat, value: string, moves: bool) returns (r: Appended)
      requires Valid() && tag < U32
      modifies this, buf
      ensures Valid() && (buf == old(buf) || fresh(buf))
      ensures r == Overflow <==> tag != 35 && (!old(Fits(tag, value)) || (moves && old(buf.Length) < 25 + |value|))
      ensures r == Refused <==> tag == 35 && maxMsgTypeLength <= |value|
      ensures fields == if r == Done && tag != 35 then old(fields) + [Field(tag, value)] else old(fields)
      ensures msgType == if r == Done && tag == 35 then value else old(msgType)
      ensures sendingTimeAppended == (old(sendingTimeAppended) || tag == 52)
      ensures ttlSec == old(ttlSec) && ttlUsec == old(ttlUsec)
      ensures buf.Length == if r == Done && tag != 35 then Grown(old(buf.Length), 25 + |value|) else old(buf.Length)
      ensures tag == 35 ==> buf == old(buf) && buf[..] == old(buf[..]) && pos == old(pos)
    {
      if tag == 52 {
        sendingTimeAppended := true;
      }
      if tag != 35 {
        var need := 25 + |value|;
        if (moves && buf.Length < need) || !FieldFits(buf.Length, pos, tag, |value|) {
          return Overflow;
        }
        Grow(need);
        Put(tag, value);
        return Done;
      }
      if |value| < maxMsgTypeLength {
        msgType := value;
        return Done;
      }
      return Refused;
    }

    /** Double the buffer until it has `need` bytes. */
    method Grow(need: nat)
      requires Valid()
      modifies this`buf
      ensures Valid() && buf.Length == Grown(old(buf.Length), need) && (buf == old(buf) || fresh(buf))
      ensures buf[..pos] == old(buf[..pos])
    {
      while buf.Length < need
        invariant Valid() && (buf == old(buf) || fresh(buf))
        invariant Grown(buf.Length, need) == Grown(old(buf.Length), need)
        invariant buf[..pos] == old(buf[..pos])
        decreases need - buf.Length
      {
        var was := buf;
        buf := new char[2 * was.Length](i requires 0 <= i < 2 * was.Length reads was =>
                                          if i < was.Length then was[i] else '\0');
        assert buf[..pos] == was[..pos];
      }
    }

    /** "tag=value<SOH>" at pos. */
    method Put(tag: nat, value: string)
      requires Valid() && tag < U32
      requires pos + |Digits(tag)| + 1 + |value| + 1 + 3 <= buf.Length
      modifies this`pos, this`length, this`fields, buf
      ensures Valid() && fields == old(fields) + [Field(tag, value)]
    {
      ghost var before := buf[..];
      var start := pos;
      pos := UintToStr('=', tag, buf, pos);
      pos := pos + 1;
      Write(buf, pos, value + [soh]);
      pos := pos + |value| + 1;
      length := length + (pos - start);
      ghost var f := Field(tag, value);
      AppendedBytes(before, buf[..], start, soh, f);
      fields := fields + [f];
      assert fields[..|fields| - 1] == old(fields);
      Assoc([soh], AllBytes(soh, old(fields)), FieldBytes(soh, f));
    }

    method SetTimeToLive(sec: int, usec: int)
      requires Valid()
      modifies this`ttlSec, this`ttlUsec
      ensures Valid() && ttlSec == sec && ttlUsec == usec
    {
      ttlSec, ttlUsec := sec, usec;
    }

    /**
     Hand out the partial message, which is the object's own buffer; afterwards the message is blank but
     keeps its type and its time to live.
     */
    method Expose() returns (ok: bool, sec: int, usec: int, len: nat, data: array<char>, exposedType: string)
      requires Valid()
      modifies this, buf
      ensures Valid() && buf == old(buf) && data == buf
      ensures msgType == old(msgType) && ttlSec == old(ttlSec) && ttlUsec == old(ttlUsec)
      ensures ok <==> old(msgType) != "" && old(sendingTimeAppended)
      ensures ok ==> len <= data.Length && data[..len] == PartialOf(soh, old(fields))
      ensures ok ==> exposedType == msgType && sec == ttlSec && usec == ttlUsec
      ensures ok ==> fields == [] && !sendingTimeAppended
      ensures !ok ==> fields == old(fields) && sendingTimeAppended == old(sendingTimeAppended)
    {
      ok, sec, usec, len, data, exposedType := false, 0, 0, 0, buf, "";
      if msgType != "" && sendingTimeAppended {
        ghost var before := buf[..];
        Write(buf, pos, "10=");
        assert buf[..pos + 3] == before[..pos] + "10=";
        ok, sec, usec, len, exposedType := true, ttlSec, ttlUsec, length + 3, msgType;
        assert before[..pos][0] == soh;
        assert buf[0] == before[0];
        length, pos, sendingTimeAppended, fields := 1, 1, false, [];
        assert buf[..1] == [soh];
      }
    }
  }

  /**
   Two texts of 1100 bytes into a new message: the second passes the size test, and does not fit behind
   the first.
   */
  method TwoLongTexts(soh: char, text: string) returns (first: Appended, second: Appended)
    requires |text| == 1100
    ensures first == Done && second == Overflow
    ensures 25 + |text| <= INITIAL_TX_BUFFER_SIZE
  {
    var tx := new FIXMessageTX(soh, 64);
    assert Digits(58) == "58";
    first := tx.AppendField(58, text, false);
    assert tx.fields == [Field(58, text)];
    OneFieldBytes(soh, Field(58, text));
    second := tx.AppendField(58, text, false);
  }

  lemma OneFieldBytes(soh: char, f: Field)
    ensures AllBytes(soh, [f]) == FieldBytes(soh, f)
  {
    assert [f][..0] == [];
  }

  /** The buffer after a tag and a value were written one behind the other. */
  lemma AppendedBytes(before: string, after: string, pos: nat, soh: char, f: Field)
    requires pos + |FieldBytes(soh, f)| <= |before|
    requires after == Splice(Splice(before, pos, Digits(f.tag) + ['=']), pos + |Digits(f.tag)| + 1, f.value + [soh])
    ensures after[..pos + |FieldBytes(soh, f)|] == before[..pos] + FieldBytes(soh, f)
  {
    SpliceTwice(before, pos, Digits(f.tag) + ['='], f.value + [soh]);
    Assoc(Digits(f.tag) + "=", f.value, [soh]);
    var bytes := FieldBytes(soh, f);
    assert after == Splice(before, pos, bytes);
    assert after[..pos + |bytes|] == before[..pos] + bytes;
  }

  // ---------------------------------------------------------------- FIXMessageRX

  /** A 64 bit number stored into an int. */
  function ToInt(n: int): (m: int) {
    var low := n % U32;
    if low <= INT_MAX then low else low - U32
  }

  /**
   What next_field reports: a field and where the walk then stands; 0 for the end; -1 for a parsing
   error; or Overrun where the source reads behind the message or through a null pointer.
   */
  datatype Next =
    | Found(tag: int, start: nat, length: nat, pos: nat, prev: Option<nat>)
    | NoMore
    | BadField(prev: Option<nat>)
    | Overrun

  /** next_field at position pos, where the previous field's value starts at prev. */
  function NextField(soh: char, dataTags: set<int>, msg: string, pos: nat, prev: Option<nat>): (r: Next) {
    if |msg| < pos then Overrun
    else
      var (tag, start) := TagAt(msg, pos);
      if tag == OVERRUN then Overrun
      else if tag <= 0 then BadField(prev)
      else if tag == 10 then NoMore
      else if tag in dataTags then
        if prev == None || |msg| < prev.value then Overrun
        else
          var length := LengthFrom(soh, msg, prev.value, 0);
          if length == OVERRUN then Overrun
          else if ToInt(length) < 0 then BadField(Some(start))
          else Found(tag, start, ToInt(length), start + ToInt(length) + 1, Some(start))
      else
        var end := IndexFrom(soh, msg, start);
        if end == |msg| then Overrun
        else Found(tag, start, end - start, end + 1, Some(start))
  }

  class FIXMessageRX {
    const soh: char
    var dataTags: set<int>
    var msg: string
    /** None stands for a null pointer. */
    var pos: Option<nat>
    var prevValue: Option<nat>

    constructor (soh: char, dataTags: set<int>)
      ensures this.soh == soh && this.dataTags == dataTags && pos == None && prevValue == None
    {
      this.soh, this.dataTags := soh, dataTags;
      msg, pos, prevValue := "", None, None;
    }

    /** A custom data field; other custom tags do not matter to the walk. */
    method AddCustomDataTag(tag: nat)
      modifies this`dataTags
      ensures dataTags == old(dataTags) + {tag}
    {
      dataTags := dataTags + {tag};
    }

    /** Start walking a message whose type is at that offset, behind "35=". */
    method Imprint(msgTypeOffset: nat, msg: string)
      requires 3 <= msgTypeOffset
      modifies this
      ensures this.msg == msg && pos == Some(msgTypeOffset - 3) && prevValue == None && dataTags == old(dataTags)
    {
      this.msg := msg;
      prevValue := None;
      pos := Some(msgTypeOffset - 3);
    }

    method Done()
      modifies this
      ensures msg == "" && pos == None && prevValue == None && dataTags == old(dataTags)
    {
      msg, pos, prevValue := "", None, None;
    }

    /** The next field; 0 also if there is no message. */
    method NextFieldOf() returns (r: Next)
      modifies this`pos, this`prevValue
      ensures r == if old(pos) == None then NoMore else NextField(soh, dataTags, msg, old(pos).value, old(prevValue))
      ensures pos == if r.Found? then Some(r.pos) else old(pos)
      ensures !r.Overrun? ==> prevValue == if r.Found? || r.BadField? then r.prev else old(prevValue)
    {
      if pos == None {
        return NoMore;
      }
      if |msg| < pos.value {
        return Overrun;
      }
      var t, valueAt := GetFixTag(msg, pos.value);
      if t as int == OVERRUN {
        return Overrun;
      }
      if t <= 0 {
        return BadField(prevValue);
      }
      if t == 10 {
        return NoMore;
      }
      if t as int in dataTags {
        r := DataField(t as int, valueAt);
        return;
      }
      prevValue := Some(valueAt);
      var at := valueAt;
      while at < |msg| && msg[at] != soh
        invariant valueAt <= at <= |msg|
        invariant forall j :: valueAt <= j < at ==> msg[j] != soh
      {
        at := at + 1;
      }
      IndexFromIs(soh, msg, valueAt, at);
      if at == |msg| {
        return Overrun;
      }
      pos := Some(at + 1);
      return Found(t as int, valueAt, at - valueAt, at + 1, prevValue);
    }

    /** A data field is as long as the value before it says. */
    method DataField(tag: int, valueAt: nat) returns (r: Next)
      requires pos.Some? && pos.value <= |msg| && TagAt(msg, pos.value) == (tag, valueAt)
      requires 1 <= tag && tag != 10 && tag in dataTags
      modifies this`pos, this`prevValue
      ensures r == NextField(soh, dataTags, msg, old(pos).value, old(prevValue))
      ensures pos == if r.Found? then Some(r.pos) else old(pos)
      ensures !r.Overrun? ==> !r.NoMore? && prevValue == r.prev
    {
      if prevValue == None || |msg| < prevValue.value {
        return Overrun;
      }
      var length := GetFixLengthValue(soh, msg, prevValue.value);
      if length as int == OVERRUN {
        return Overrun;
      }
      var prev := ToInt(length as int);
      prevValue := Some(valueAt);
      if prev < 0 {
        return BadField(prevValue);
      }
      pos := Some(valueAt + prev + 1);
      return Found(tag, valueAt, prev, valueAt + prev + 1, prevValue);
    }
  }

  // ---------------------------------------------------------------- round trip

  /** A whole walk: the fields next_field reports, and what it reports at last. */
  datatype Walked = Walked(fields: seq<Field>, last: Next)

  function Walk(soh: char, dataTags: set<int>, msg: string, pos: nat, prev: Option<nat>): (r: Walked)
    decreases if pos <= |msg| then |msg| - pos + 1 else 0
  {
    var next := NextField(soh, dataTags, msg, pos, prev);
    if !next.Found? then Walked([], next)
    else if next.pos <= pos || |msg| < next.start + next.length then Walked([], Overrun)
    else
      var rest := Walk(soh, dataTags, msg, next.pos, next.prev);
      rest.(fields := [Field(next.tag, msg[next.start..next.start + next.length])] + rest.fields)
  }

  /** The value is a data field's length: digits, possibly zero padded. */
  predicate IsLengthOf(value: string, n: nat) {
    value != [] && AllDigits(value) && Value(value) == n <= INT_MAX
  }

  /** The i-th field can be read back. */
  predicate Readable(soh: char, dataTags: set<int>, fields: seq<Field>, i: nat)
    requires i < |fields|
  {
    var f := fields[i];
    && 1 <= f.tag <= 2_147_483_639 && f.tag != 10
    && if f.tag in dataTags then 1 <= i && IsLengthOf(fields[i - 1].value, |f.value|)
       else soh !in f.value
  }

  /** Tags are in range, plain values are free of soh, data fields follow their length field. */
  ghost predicate WellFormed(soh: char, dataTags: set<int>, fields: seq<Field>) {
    forall i :: 0 <= i < |fields| ==> Readable(soh, dataTags, fields, i)
  }

  lemma TagAtIs(before: string, tag: nat, rest: string)
    requires 1 <= tag <= 2_147_483_639
    ensures TagAt(before + (Digits(tag) + "=" + rest), |before|) == (tag, |before| + |Digits(tag)| + 1)
  {
    var msg := Digits(tag) + "=" + rest;
    TagOfPrinted(tag, rest);
    NoLeadingZero(tag);
    assert (before + msg)[|before|] == msg[0] == Digits(tag)[0];
    TagFromShift(before, msg, 0, 0);
  }

  lemma SohAtIs(soh: char, before: string, value: string, rest: string)
    requires soh !in value
    ensures IndexFrom(soh, before + value + [soh] + rest, |before|) == |before| + |value|
  {
    var msg, i, k := before + value + [soh] + rest, |before|, |before| + |value|;
    assert msg[k] == soh;
    assert forall j :: i <= j < k ==> msg[j] == value[j - i];
    IndexFromIs(soh, msg, i, k);
  }

  /** One field in the middle of a message. */
  lemma FieldIsRead(soh: char, dataTags: set<int>, msg: string, before: string, f: Field, rest: string, prev: Option<nat>)
    requires msg == before + (FieldBytes(soh, f) + rest)
    requires 1 <= f.tag <= 2_147_483_639 && f.tag != 10
    requires if f.tag in dataTags then
               && prev.Some? && prev.value <= |msg|
               && LengthFrom(soh, msg, prev.value, 0) == |f.value| <= INT_MAX
             else soh !in f.value
    ensures var start := |before| + |Digits(f.tag)| + 1;
            && NextField(soh, dataTags, msg, |before|, prev)
               == Found(f.tag, start, |f.value|, |before| + |FieldBytes(soh, f)|, Some(start))
            && start + |f.value| <= |msg| && msg[start..start + |f.value|] == f.value
  {
    var head := Digits(f.tag) + "=";
    FieldIsAt(soh, msg, before, f, rest);
    ValueIsAt(msg, before + head, f.value, soh, rest);
    assert |before + head| == |before| + |Digits(f.tag)| + 1;
    if f.tag !in dataTags {
      SohAtIs(soh, before + head, f.value, rest);
    }
    NextIs(soh, dataTags, msg, |before|, prev, f.tag, |before + head|, |f.value|);
  }

  /** The result of next_field from where the tag ends and how long the value is. */
  lemma NextIs(soh: char, dataTags: set<int>, msg: string, pos: nat, prev: Option<nat>, tag: nat, start: nat, length: nat)
    requires pos <= |msg| && 1 <= tag && tag != 10 && TagAt(msg, pos) == (tag, start) && start + length < |msg|
    requires if tag in dataTags then
               prev.Some? && prev.value <= |msg| && LengthFrom(soh, msg, prev.value, 0) == length <= INT_MAX
             else IndexFrom(soh, msg, start) == start + length
    ensures NextField(soh, dataTags, msg, pos, prev) == Found(tag, start, length, start + length + 1, Some(start))
  {
    hide TagAt, LengthFrom, IndexFrom;
  }

  lemma ValueIsAt(msg: string, before: string, value: string, soh: char, rest: string)
    requires msg == before + value + [soh] + rest
    ensures |before| + |value| < |msg| && msg[|before|..|before| + |value|] == value
  {
    Assoc(before + value, [soh], rest);
    ValueReadsBack(before, value, [soh] + rest);
  }

  /** Tag and value of a field in the middle of a message. */
  lemma FieldIsAt(soh: char, msg: string, before: string, f: Field, rest: string)
    requires msg == before + (FieldBytes(soh, f) + rest)
    requires 1 <= f.tag <= 2_147_483_639
    ensures TagAt(msg, |before|) == (f.tag, |before| + |Digits(f.tag)| + 1)
    ensures msg == before + (Digits(f.tag) + "=") + f.value + [soh] + rest
  {
    FieldRegrouped(soh, f, rest);
    TagAtIs(before, f.tag, f.value + [soh] + rest);
    FieldRegrouped2(before, Digits(f.tag) + "=", f.value, [soh], rest);
  }

  lemma ValueReadsBack(before: string, value: string, rest: string)
    ensures (before + value + rest)[|before|..|before| + |value|] == value
  {
  }

  lemma FieldRegrouped(soh: char, f: Field, rest: string)
    ensures FieldBytes(soh, f) + rest == Digits(f.tag) + "=" + (f.value + [soh] + rest)
  {
    Assoc(Digits(f.tag) + "=", f.value, [soh]);
    Assoc(Digits(f.tag) + "=", f.value + [soh], rest);
  }

  lemma FieldRegrouped2(before: string, head: string, value: string, s: string, rest: string)
    ensures before + (head + value + s + rest) == before + head + value + s + rest
  {
    Assoc(before, head, value);
    Assoc(before, head + value, s);
    Assoc(before, head + value + s, rest);
  }

  /** The previous field's value, when it is this field's length, is read as that length. */
  lemma LengthIsRead(soh: char, before: string, f: Field, rest: string, n: nat)
    requires !IsDigit(soh) && IsLengthOf(f.value, n)
    ensures LengthFrom(soh, before + FieldBytes(soh, f) + rest, |before| + |Digits(f.tag)| + 1, 0) == n
  {
    var head := Digits(f.tag) + "=";
    FieldRegrouped2(before, head, f.value, [soh], rest);
    Assoc(before, FieldBytes(soh, f), rest);
    assert f.value[..0] == [];
    LengthOfDigits(soh, before + head, f.value, rest, 0);
  }

  /** Where the i-th field starts. */
  function FieldAt(soh: char, before: string, fields: seq<Field>, i: nat): (p: nat)
    requires i <= |fields|
  {
    |before| + |AllBytes(soh, fields[..i])|
  }

  /** Where the walk remembers the value of the field before the i-th. */
  function PrevAt(soh: char, before: string, fields: seq<Field>, i: nat): (p: Option<nat>)
    requires i <= |fields|
  {
    if i == 0 then None else Some(FieldAt(soh, before, fields, i - 1) + |Digits(fields[i - 1].tag)| + 1)
  }

  /** msg has the fields between `before` and `tail`. */
  ghost predicate Holds(soh: char, msg: string, before: string, fields: seq<Field>, tail: string) {
    msg == before + AllBytes(soh, fields) + tail
  }

  /** A message cut before its i-th field. */
  lemma CutAt(soh: char, msg: string, before: string, fields: seq<Field>, tail: string, i: nat) returns (p: string, rest: string)
    requires i < |fields| && Holds(soh, msg, before, fields, tail)
    ensures msg == p + (FieldBytes(soh, fields[i]) + rest)
    ensures |p| == FieldAt(soh, before, fields, i)
    ensures FieldAt(soh, before, fields, i + 1) == |p| + |FieldBytes(soh, fields[i])|
  {
    var a, f, b := fields[..i], fields[i], fields[i + 1..];
    var x, y, z := AllBytes(soh, a), FieldBytes(soh, f), AllBytes(soh, b);
    assert AllBytes(soh, fields) == x + (y + z) by {
      assert fields == a + ([f] + b);
      AllBytesConcat(soh, a, [f] + b);
      AllBytesConcat(soh, [f], b);
      assert [f][..0] == [];
      assert AllBytes(soh, [f]) == y;
    }
    p, rest := before + x, z + tail;
    Assoc(before, x, y + z);
    Assoc(before + x, y + z, tail);
    Assoc(y, z, tail);
    assert fields[..i + 1][..i] == a;
  }

  lemma PrevLengthIsRead(soh: char, msg: string, before: string, fields: seq<Field>, tail: string, i: nat)
    requires !IsDigit(soh) && Holds(soh, msg, before, fields, tail)
    requires 1 <= i < |fields| && IsLengthOf(fields[i - 1].value, |fields[i].value|)
    ensures PrevAt(soh, before, fields, i).value <= |msg|
    ensures LengthFrom(soh, msg, PrevAt(soh, before, fields, i).value, 0) == |fields[i].value|
  {
    hide Holds, FieldAt, FieldBytes, LengthFrom, Digits, IsLengthOf, AllBytes;
    var p, rest := CutAt(soh, msg, before, fields, tail, i - 1);
    Assoc(p, FieldBytes(soh, fields[i - 1]), rest);
    LengthIsRead(soh, p, fields[i - 1], rest, |fields[i].value|);
  }

  /** next_field at the i-th field of a message. */
  lemma IthFieldIsRead(soh: char, dataTags: set<int>, msg: string, before: string, fields: seq<Field>, tail: string, i: nat)
    requires !IsDigit(soh) && Holds(soh, msg, before, fields, tail)
    requires i < |fields| && Readable(soh, dataTags, fields, i)
    ensures var f, next := fields[i], NextField(soh, dataTags, msg, FieldAt(soh, before, fields, i), PrevAt(soh, before, fields, i));
            && next.Found? && next.tag == f.tag >= 1 && next.length == |f.value|
            && next.start + next.length <= |msg| && msg[next.start..next.start + next.length] == f.value
            && next.pos == FieldAt(soh, before, fields, i + 1) > FieldAt(soh, before, fields, i)
            && next.prev == PrevAt(soh, before, fields, i + 1)
  {
    var f, prev := fields[i], PrevAt(soh, before, fields, i);
    if f.tag in dataTags {
      PrevLengthIsRead(soh, msg, before, fields, tail, i);
    }
    var p, rest := CutAt(soh, msg, before, fields, tail, i);
    assert 1 <= |FieldBytes(soh, f)|;
    hide Holds, FieldAt, NextField, FieldBytes, LengthFrom;
    FieldIsRead(soh, dataTags, msg, p, f, rest, prev);
  }

  lemma {:induction false} WalkFromField(soh: char, dataTags: set<int>, msg: string, before: string, fields: seq<Field>,
                                         rest: string, i: nat)
    requires !IsDigit(soh) && WellFormed(soh, dataTags, fields) && i <= |fields|
    requires Holds(soh, msg, before, fields, "10=" + rest)
    ensures Walk(soh, dataTags, msg, FieldAt(soh, before, fields, i), PrevAt(soh, before, fields, i)) == Walked(fields[i..], NoMore)
    decreases |fields| - i
  {
    hide Holds, FieldAt, NextField, PrevAt, Readable;
    if i == |fields| {
      WalkEnds(soh, dataTags, msg, before, fields, rest, PrevAt(soh, before, fields, i));
      assert fields[i..] == [];
    } else {
      assert Readable(soh, dataTags, fields, i);
      IthFieldIsRead(soh, dataTags, msg, before, fields, "10=" + rest, i);
      WalkFromField(soh, dataTags, msg, before, fields, rest, i + 1);
      assert fields[i..] == [fields[i]] + fields[i + 1..];
    }
  }

  lemma WalkEnds(soh: char, dataTags: set<int>, msg: string, before: string, fields: seq<Field>, rest: string, prev: Option<nat>)
    requires Holds(soh, msg, before, fields, "10=" + rest)
    ensures Walk(soh, dataTags, msg, FieldAt(soh, before, fields, |fields|), prev) == Walked([], NoMore)
  {
    assert fields[..|fields|] == fields;
    assert Digits(10) + "=" == "10=";
    TagAtIs(before + AllBytes(soh, fields), 10, rest);
  }

  /**
   Every well formed list of fields, data fields with any bytes included, is read back field by field
   from a message that continues with the checksum tag.
   */
  lemma WalkReadsBack(soh: char, dataTags: set<int>, before: string, fields: seq<Field>, rest: string)
    requires !IsDigit(soh) && WellFormed(soh, dataTags, fields)
    ensures Walk(soh, dataTags, before + AllBytes(soh, fields) + ("10=" + rest), |before|, None) == Walked(fields, NoMore)
  {
    WalkFromField(soh, dataTags, before + AllBytes(soh, fields) + ("10=" + rest), before, fields, rest, 0);
    assert fields[..0] == [];
    assert fields[0..] == fields;
  }
}
