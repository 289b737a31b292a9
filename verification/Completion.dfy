/** Building a complete FIX message in the push buffer that holds its partial message. */
module Completion {
  import opened Text
  import opened Decimal
  import opened Primitives

  const MSG_TYPE_STRING_OFFSET: nat := 4
  const MSG_TYPE_MAX_LENGTH: nat := 16
  const FIX_BUFFER_RESERVED_HEAD: nat := 256
  const FIX_BUFFER_RESERVED_TAIL: nat := 4
  const TV_SEC_OFFSET: nat := MSG_TYPE_STRING_OFFSET + MSG_TYPE_MAX_LENGTH
  const TV_USEC_OFFSET: nat := TV_SEC_OFFSET + 8
  /** First byte after the stored expire time. */
  const WORK_AREA: nat := TV_USEC_OFFSET + 8
  /** First byte of the partial message. */
  const DATA: nat := MSG_TYPE_STRING_OFFSET + FIX_BUFFER_RESERVED_HEAD

  const ALFA_ENTRY_SIZE: nat := 4096
  const CHARLIE_ENTRY_SIZE: nat := 512
  /** The buffer for "8=version<SOH>9=" has 32 bytes, terminator included. */
  const FIX_START_SIZE: nat := 32

  function Checksum(s: string): (n: nat)
    ensures n < 256
  {
    Sum(s) % 256
  }

  /** The heartbeat of FIX 4.2 with no further fields has checksum 161. */
  lemma HeartbeatChecksum()
    ensures var soh: char := 1 as char;
            Checksum("8=FIX.4.2" + [soh] + "9=5" + [soh] + "35=0" + [soh]) == 161
  {
    var soh: char := 1 as char;
    var msg := "8=FIX.4.2" + [soh] + "9=5" + [soh] + "35=0" + [soh];
    var a, b, c, d, e: string := "8=FI", "X.4.", ['2', soh, '9', '='], ['5', soh, '3', '5'], "=0";
    assert msg == a + b + c + d + (e + [soh]);
    SumConcat(a, b);
    SumConcat(a + b, c);
    SumConcat(a + b + c, d);
    SumConcat(a + b + c + d, e + [soh]);
    SumOfFour('8', '=', 'F', 'I');
    SumOfFour('X', '.', '4', '.');
    SumOfFour('2', soh, '9', '=');
    SumOfFour('5', soh, '3', '5');
    SumConcat("=", "0");
    SumConcat(e, [soh]);
    SumOfOne('=');
    SumOfOne('0');
    SumOfOne(soh);
    assert e == "=" + "0";
    assert Sum(msg) == 929;
  }

  /** get_FIX_checksum over the `len` bytes from `from` on. */
  method GetFixChecksum(a: array<char>, from: nat, len: nat) returns (sum: nat)
    requires from + len <= a.Length
    ensures sum == Checksum(a[from..from + len])
  {
    sum := 0;
    for n := 0 to len
      invariant sum == Sum(a[from..from + n])
    {
      sum := sum + a[from + n] as int;
      assert a[from..from + n + 1][..n] == a[from..from + n];
    }
    sum := sum % 256;
  }

  // ---------------------------------------------------------------- the complete message

  /** "8=version<SOH>9=". */
  function FixStart(version: string, soh: char): (s: string) {
    "8=" + version + [soh] + "9="
  }

  function BodyLength(msgType: string, partial: string, seqNumber: nat): (n: nat)
    requires 3 <= |partial|
  {
    3 + |msgType| + 1 + 3 + |Digits(seqNumber)| + |partial| - 3
  }

  /** Fields 8, 9, 35 and 34 for a given body length. */
  function HeaderOf(start: string, soh: char, msgType: string, bodyLength: nat, seqNumber: nat): (s: string)
    ensures |s| == |start| + |Digits(bodyLength)| + 1 + |msgType| + 1 + |Digits(seqNumber)| + 6
  {
    start + Digits(bodyLength) + [soh] + "35=" + msgType + [soh] + "34=" + Digits(seqNumber)
  }

  /** Everything in front of the partial message. */
  function Header(start: string, soh: char, msgType: string, partial: string, seqNumber: nat): (s: string)
    requires 3 <= |partial|
  {
    HeaderOf(start, soh, msgType, BodyLength(msgType, partial, seqNumber), seqNumber)
  }

  /** The complete message; the partial message's first byte is overwritten by soh. */
  function Complete(start: string, soh: char, msgType: string, partial: string, seqNumber: nat): (s: string)
    requires 4 <= |partial|
  {
    Finished(Header(start, soh, msgType, partial, seqNumber), soh, partial)
  }

  /** A header, the partial message with its first byte replaced, and the checksum. */
  function Finished(header: string, soh: char, partial: string): (s: string)
    requires 4 <= |partial|
    ensures |s| == |header| + |partial| + 4
  {
    var front := header + [soh] + partial[1..];
    front + Padded(Checksum(front[..|front| - 3]), 3) + [soh]
  }

  /** A partial message starts with soh and ends with soh and the tag of the checksum. */
  predicate IsPartial(soh: char, partial: string) {
    && 4 <= |partial|
    && partial[0] == soh
    && partial[|partial| - 4..] == [soh] + "10="
  }

  /**
   The message as its receiver sees it: a declared body length and a declared checksum around a body.
   */
  ghost predicate Consistent(start: string, soh: char, msg: string, length: string, body: string, sum: string) {
    && msg == start + length + [soh] + body + "10=" + sum + [soh]
    && AllDigits(length) && Value(length) == |body|
    && |sum| == 3 && AllDigits(sum) && Value(sum) == Checksum(start + length + [soh] + body)
    && body != [] && body[|body| - 1] == soh
  }

  /** Fields 35 and 34 and then the partial message without its trailing checksum tag. */
  function Body(soh: char, msgType: string, partial: string, seqNumber: nat): (s: string)
    requires 3 <= |partial|
  {
    "35=" + msgType + [soh] + "34=" + Digits(seqNumber) + partial[..|partial| - 3]
  }

  /** BodyLength and CheckSum written ahead are the ones a receiver computes from the finished bytes. */
  lemma CompleteIsConsistent(start: string, soh: char, msgType: string, partial: string, seqNumber: nat)
    requires IsPartial(soh, partial)
    ensures var body := Body(soh, msgType, partial, seqNumber);
            var length := Digits(|body|);
            Consistent(start, soh, Complete(start, soh, msgType, partial, seqNumber), length, body,
                       Padded(Checksum(start + length + [soh] + body), 3))
  {
    var body := Body(soh, msgType, partial, seqNumber);
    var length := Digits(BodyLength(msgType, partial, seqNumber));
    var summed := start + length + [soh] + body;
    FrontRegrouped(start, soh, msgType, partial, seqNumber);
    ValueOfDigits(|body|);
    PaddedFits(Checksum(summed), 3);
    assert Pow10(3) == 1000 by { PowersOfTen(); }
    assert body[|body| - 1] == partial[|partial| - 4];
  }

  /** The bytes in front of the checksum, as written and as read. */
  lemma FrontRegrouped(start: string, soh: char, msgType: string, partial: string, seqNumber: nat)
    requires IsPartial(soh, partial)
    ensures var front := Header(start, soh, msgType, partial, seqNumber) + [soh] + partial[1..];
            var summed := start + Digits(BodyLength(msgType, partial, seqNumber)) + [soh]
                          + Body(soh, msgType, partial, seqNumber);
            front == summed + "10=" && front[..|front| - 3] == summed
  {
    var x := start + Digits(BodyLength(msgType, partial, seqNumber)) + [soh];
    var digits, p := Digits(seqNumber), partial[..|partial| - 3];
    assert partial == [soh] + partial[1..] == p + "10=";
    Regroup(x, msgType, [soh], digits, p);
    Assoc(x + "35=" + msgType + [soh] + "34=" + digits, [soh], partial[1..]);
    Assoc(x + "35=" + msgType + [soh] + "34=" + digits, p, "10=");
    var summed := x + Body(soh, msgType, partial, seqNumber);
    assert (summed + "10=")[..|summed|] == summed;
  }

  lemma Regroup(x: string, t: string, s: string, d: string, p: string)
    ensures x + "35=" + t + s + "34=" + d + p == x + ("35=" + t + s + "34=" + d + p)
  {
    Assoc(x, "35=", t);
    Assoc(x, "35=" + t, s);
    Assoc(x, "35=" + t + s, "34=");
    Assoc(x, "35=" + t + s + "34=", d);
    Assoc(x, "35=" + t + s + "34=" + d, p);
  }

  // ---------------------------------------------------------------- the push buffer

  /** Length of the zero terminated string at position i. */
  function StrLen(s: string, i: nat): (n: nat)
    requires i <= |s|
    ensures i + n <= |s|
    decreases |s| - i
  {
    if i == |s| || s[i] == '\0' then 0 else 1 + StrLen(s, i + 1)
  }

  lemma {:induction false} StrLenOf(s: string, i: nat, t: string)
    requires i + |t| + 1 <= |s| && s[i..i + |t| + 1] == t + ['\0']
    requires '\0' !in t
    ensures StrLen(s, i) == |t|
    decreases |t|
  {
    assert s[i] == (t + ['\0'])[0];
    if t != [] {
      assert s[i + 1..i + |t| + 1] == t[1..] + ['\0'];
      StrLenOf(s, i + 1, t[1..]);
    }
  }

  /** What push and session_push leave in an entry. */
  ghost predicate HoldsPartial(s: string, msgType: string, sec: nat, usec: nat, partial: string) {
    && DATA + |partial| + FIX_BUFFER_RESERVED_TAIL <= |s|
    && |msgType| < MSG_TYPE_MAX_LENGTH && '\0' !in msgType
    && s[..MSG_TYPE_STRING_OFFSET] == SetU(|partial|, 4)
    && s[MSG_TYPE_STRING_OFFSET..MSG_TYPE_STRING_OFFSET + |msgType| + 1] == msgType + ['\0']
    && s[TV_SEC_OFFSET..TV_USEC_OFFSET] == SetU(sec, 8)
    && s[TV_USEC_OFFSET..WORK_AREA] == SetU(usec, 8)
    && s[DATA..DATA + |partial|] == partial
  }

  /** The length test of push (alfa) and session_push (charlie) for an entry of that size. */
  predicate Admits(entrySize: nat, len: nat)
  {
    len + FIX_BUFFER_RESERVED_TAIL + FIX_BUFFER_RESERVED_HEAD + MSG_TYPE_STRING_OFFSET <= entrySize - 4
  }

  /** Up to 3828 bytes on alfa and 244 on charlie: the entry less its length, head, tail and size field. */
  lemma AdmittedLengths(len: nat)
    ensures Admits(ALFA_ENTRY_SIZE, len) <==> len <= 3828
    ensures Admits(CHARLIE_ENTRY_SIZE, len) <==> len <= 244
  {
  }

  /**
   session_push into a charlie entry. Refused are message types that do not fit and partial messages the
   entry does not admit; the entry is then untouched.
   */
  method SessionPush(entry: array<char>, msgType: string, sec: nat, usec: nat, data: string) returns (ok: bool)
    requires entry.Length == CHARLIE_ENTRY_SIZE && '\0' !in msgType
    modifies entry
    ensures ok <==> |msgType| <= 15 && |data| <= 244
    ensures ok ==> HoldsPartial(entry[..], msgType, sec, usec, data)
    ensures !ok ==> entry[..] == old(entry[..])
  {
    if MSG_TYPE_MAX_LENGTH < |msgType| + 1 || !Admits(entry.Length, |data|) {
      return false;
    }
    Fill(entry, msgType, sec, usec, data);
    return true;
  }

  /** Length, type, expire time and data at their places. */
  method Fill(entry: array<char>, msgType: string, sec: nat, usec: nat, data: string)
    requires '\0' !in msgType && |msgType| < MSG_TYPE_MAX_LENGTH
    requires DATA + |data| + FIX_BUFFER_RESERVED_TAIL <= entry.Length
    modifies entry
    ensures HoldsPartial(entry[..], msgType, sec, usec, data)
  {
    hide Splice, HoldsPartial;
    ghost var s0 := entry[..];
    Write(entry, 0, SetU(|data|, 4));
    ghost var s1 := entry[..];
    Write(entry, MSG_TYPE_STRING_OFFSET, msgType + ['\0']);
    ghost var s2 := entry[..];
    Write(entry, TV_SEC_OFFSET, SetU(sec, 8));
    ghost var s3 := entry[..];
    Write(entry, TV_USEC_OFFSET, SetU(usec, 8));
    ghost var s4 := entry[..];
    Write(entry, DATA, data);
    FilledEntry(s0, s1, s2, s3, s4, entry[..], msgType, sec, usec, data);
  }

  /** An entry of the slow queue: memory of its own, kept from one message to the next. */
  class BravoEntry {
    var allocatedSize: nat
    var data: array<char>

    ghost predicate Valid()
      reads this
    {
      allocatedSize == data.Length
    }

    constructor ()
      ensures Valid() && fresh(data) && allocatedSize == 0
    {
      allocatedSize, data := 0, new char[0];
    }
  }

  /** EINVAL, or the queue the message goes on. */
  datatype Pushed = Invalid | OnAlfa | OnBravo

  /** push: into the alfa entry if that admits the message, else into the bravo entry, made large enough. */
  method Push(alfa: array<char>, bravo: BravoEntry, msgType: string, sec: nat, usec: nat, data: string) returns (r: Pushed)
    requires alfa.Length == ALFA_ENTRY_SIZE && bravo.Valid() && bravo.data != alfa && '\0' !in msgType
    modifies alfa, bravo, bravo.data
    ensures bravo.Valid() && (bravo.data == old(bravo.data) || fresh(bravo.data))
    ensures r == Invalid <==> 15 < |msgType|
    ensures r == OnAlfa <==> |msgType| <= 15 && |data| <= 3828
    ensures r == OnAlfa ==> HoldsPartial(alfa[..], msgType, sec, usec, data)
    ensures r == OnBravo ==> HoldsPartial(bravo.data[..], msgType, sec, usec, data)
    ensures r != OnAlfa ==> alfa[..] == old(alfa[..])
    ensures r != OnBravo ==> bravo.data == old(bravo.data) && bravo.data[..] == old(bravo.data[..])
  {
    hide HoldsPartial;
    if MSG_TYPE_MAX_LENGTH < |msgType| + 1 {
      return Invalid;
    }
    if Admits(ALFA_ENTRY_SIZE, |data|) {
      Fill(alfa, msgType, sec, usec, data);
      return OnAlfa;
    }
    var needed := |data| + MSG_TYPE_STRING_OFFSET + FIX_BUFFER_RESERVED_HEAD + FIX_BUFFER_RESERVED_TAIL;
    if bravo.allocatedSize < needed {
      bravo.data := new char[needed];
      bravo.allocatedSize := needed;
    }
    Fill(bravo.data, msgType, sec, usec, data);
    return OnBravo;
  }

  /** The five fields of an entry do not overlap. */
  lemma FilledEntry(s0: string, s1: string, s2: string, s3: string, s4: string, s5: string,
                    msgType: string, sec: nat, usec: nat, data: string)
    requires |msgType| < MSG_TYPE_MAX_LENGTH && '\0' !in msgType
    requires DATA + |data| + FIX_BUFFER_RESERVED_TAIL <= |s0|
    requires s1 == Splice(s0, 0, SetU(|data|, 4))
    requires s2 == Splice(s1, MSG_TYPE_STRING_OFFSET, msgType + ['\0'])
    requires s3 == Splice(s2, TV_SEC_OFFSET, SetU(sec, 8))
    requires s4 == Splice(s3, TV_USEC_OFFSET, SetU(usec, 8))
    requires s5 == Splice(s4, DATA, data)
    ensures HoldsPartial(s5, msgType, sec, usec, data)
  {
    var m, n := MSG_TYPE_STRING_OFFSET, MSG_TYPE_STRING_OFFSET + |msgType| + 1;
    assert s5[0..4] == SetU(|data|, 4) by {
      SpliceRead(s0, 0, SetU(|data|, 4), 0, 4);
      SpliceRead(s1, m, msgType + ['\0'], 0, 4);
      SpliceRead(s2, TV_SEC_OFFSET, SetU(sec, 8), 0, 4);
      SpliceRead(s3, TV_USEC_OFFSET, SetU(usec, 8), 0, 4);
      SpliceRead(s4, DATA, data, 0, 4);
    }
    assert s5[m..n] == msgType + ['\0'] by {
      SpliceRead(s1, m, msgType + ['\0'], m, n);
      SpliceRead(s2, TV_SEC_OFFSET, SetU(sec, 8), m, n);
      SpliceRead(s3, TV_USEC_OFFSET, SetU(usec, 8), m, n);
      SpliceRead(s4, DATA, data, m, n);
    }
    assert s5[TV_SEC_OFFSET..TV_USEC_OFFSET] == SetU(sec, 8) by {
      SpliceRead(s2, TV_SEC_OFFSET, SetU(sec, 8), TV_SEC_OFFSET, TV_USEC_OFFSET);
      SpliceRead(s3, TV_USEC_OFFSET, SetU(usec, 8), TV_SEC_OFFSET, TV_USEC_OFFSET);
      SpliceRead(s4, DATA, data, TV_SEC_OFFSET, TV_USEC_OFFSET);
    }
    assert s5[TV_USEC_OFFSET..WORK_AREA] == SetU(usec, 8) by {
      SpliceRead(s3, TV_USEC_OFFSET, SetU(usec, 8), TV_USEC_OFFSET, WORK_AREA);
      SpliceRead(s4, DATA, data, TV_USEC_OFFSET, WORK_AREA);
    }
    SpliceRead(s4, DATA, data, 0, 0);
  }

  /** The prefix always fits between the stored expire time and the partial message. */
  lemma PrefixFits(start: string, soh: char, msgType: string, partial: string, seqNumber: nat)
    requires |start| < FIX_START_SIZE && |msgType| < MSG_TYPE_MAX_LENGTH
    requires 4 <= |partial| < Pow256(4) && seqNumber < U64
    ensures BodyLength(msgType, partial, seqNumber) < U64
    ensures |Header(start, soh, msgType, partial, seqNumber)| <= 94
  {
    PowersOfTen();
    assert Pow256(4) == 0x1_0000_0000;
    DigitsLength(seqNumber, 20);
    DigitsLength(BodyLength(msgType, partial, seqNumber), 20);
  }

  /**
   complete_FIX_message: number, header and checksum around the partial message, in place. The header
   ends where the partial message starts; length, type and expire time stay as they were; nothing past
   the reserved tail is written. `begin` and `total` say where the complete message lies.
   */
  method CompleteFixMessage(buffer: array<char>, msgLength: nat, seqNumber: nat, start: string, soh: char,
                            ghost msgType: string, ghost sec: nat, ghost usec: nat, ghost partial: string)
    returns (seqNumber': nat, begin: nat, total: nat)
    requires seqNumber < U64 && |start| < FIX_START_SIZE
    requires HoldsPartial(buffer[..], msgType, sec, usec, partial)
    requires 4 <= |partial| == msgLength < Pow256(4)
    modifies buffer
    ensures seqNumber' == Inc64(seqNumber)
    ensures WORK_AREA <= begin < DATA && begin + total == DATA + msgLength + FIX_BUFFER_RESERVED_TAIL
    ensures begin + |Header(start, soh, msgType, partial, seqNumber')| == DATA
    ensures buffer[begin..begin + total] == Complete(start, soh, msgType, partial, seqNumber')
    ensures buffer[..begin] == old(buffer[..begin]) && buffer[begin + total..] == old(buffer[begin + total..])
  {
    seqNumber' := Inc64(seqNumber);
    var prefixLength, header := BuildHeader(buffer, msgLength, seqNumber', start, soh, msgType, sec, usec, partial);
    begin := DATA - prefixLength;
    total := msgLength + prefixLength + 4;
    ghost var before, done := buffer[..], Finished(header, soh, partial);
    FinishMessage(buffer, begin, header, msgLength, soh, partial);
    SpliceRead(before, begin, done, 0, begin);
    SpliceRead(before, begin, done, begin + total, |before|);
  }

  lemma StoredType(s: string, msgType: string, sec: nat, usec: nat, partial: string)
    requires HoldsPartial(s, msgType, sec, usec, partial)
    ensures |msgType| < MSG_TYPE_MAX_LENGTH && MSG_TYPE_STRING_OFFSET + |msgType| <= |s|
    ensures StrLen(s, MSG_TYPE_STRING_OFFSET) == |msgType|
    ensures s[MSG_TYPE_STRING_OFFSET..MSG_TYPE_STRING_OFFSET + |msgType|] == msgType
  {
    hide SetU;
    StrLenOf(s, MSG_TYPE_STRING_OFFSET, msgType);
    assert s[MSG_TYPE_STRING_OFFSET..MSG_TYPE_STRING_OFFSET + |msgType| + 1][..|msgType|] == msgType;
  }

  /** The header, from the type stored in the buffer, with the lengths computed ahead. */
  method BuildHeader(buffer: array<char>, msgLength: nat, seqNumber: nat, start: string, soh: char,
                     ghost msgType: string, ghost sec: nat, ghost usec: nat, ghost partial: string)
    returns (prefixLength: nat, header: string)
    requires seqNumber < U64 && |start| < FIX_START_SIZE
    requires HoldsPartial(buffer[..], msgType, sec, usec, partial)
    requires 4 <= |partial| == msgLength < Pow256(4)
    ensures header == Header(start, soh, msgType, partial, seqNumber)
    ensures prefixLength == |header| <= 94
  {
    var seqDigits := GetDigitCount(seqNumber);
    DigitCountIsPrintedLength(seqNumber);
    hide GetDigitCount, Digits, HoldsPartial, StrLen;
    StoredType(buffer[..], msgType, sec, usec, partial);
    var typeLength := StrLen(buffer[..], MSG_TYPE_STRING_OFFSET);
    var bodyLength := 3 + typeLength + 1 + 3 + seqDigits + msgLength - 3;
    PrefixFits(start, soh, msgType, partial, seqNumber);
    DigitCountIsPrintedLength(bodyLength);
    prefixLength := |start| + GetDigitCount(bodyLength) + 1 + typeLength + 1 + seqDigits + 6;
    var storedType := buffer[MSG_TYPE_STRING_OFFSET..MSG_TYPE_STRING_OFFSET + typeLength];
    assert storedType == buffer[..][MSG_TYPE_STRING_OFFSET..MSG_TYPE_STRING_OFFSET + typeLength];
    header := HeaderOf(start, soh, storedType, bodyLength, seqNumber);
  }

  /** Print the header, which leaves a zero byte behind it, and put soh there. */
  method PutHeader(buffer: array<char>, begin: nat, header: string, soh: char, ghost partial: string)
    requires begin + |header| == DATA && 4 <= |partial|
    requires DATA + |partial| <= buffer.Length && buffer[DATA..DATA + |partial|] == partial
    modifies buffer
    ensures buffer[..] == Splice(old(buffer[..]), begin, header + [soh] + partial[1..])
  {
    hide Splice;
    ghost var before := buffer[..];
    Write(buffer, begin, header + ['\0']);
    ghost var printed := buffer[..];
    buffer[DATA] := soh;
    assert buffer[..] == printed[DATA := soh];
    SpliceLast(before, begin, header, '\0', soh);
    assert before[DATA..DATA + |partial|][1..] == before[DATA + 1..DATA + |partial|];
    SpliceMore(before, begin, header + [soh], partial[1..]);
  }

  /** Header, soh and checksum. */
  method FinishMessage(buffer: array<char>, begin: nat, header: string, msgLength: nat, soh: char, ghost partial: string)
    requires begin + |header| == DATA && 4 <= msgLength == |partial|
    requires DATA + msgLength + 4 <= buffer.Length && buffer[DATA..DATA + msgLength] == partial
    modifies buffer
    ensures buffer[..] == Splice(old(buffer[..]), begin, Finished(header, soh, partial))
  {
    hide Splice;
    ghost var before, front := buffer[..], header + [soh] + partial[1..];
    PutHeader(buffer, begin, header, soh, partial);
    SplicePart(before, begin, front, |front| - 3);
    var checksum := GetFixChecksum(buffer, begin, |header| + msgLength - 3);
    assert checksum == Checksum(front[..|front| - 3]);
    var failed, end := UintToStrZeroPadded(4, soh, checksum, buffer, DATA + msgLength);
    ghost var tail := Padded(checksum, 3) + [soh];
    SpliceTwice(before, begin, front, tail);
    Assoc(front, Padded(checksum, 3), [soh]);
  }
}
