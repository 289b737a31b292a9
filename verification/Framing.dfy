/**
 The splitter as a machine that takes one byte at a time: it looks for the begin string, reads the body
 length, copies the body, and puts the finished message through checksum, sequence number and type.
 */
module Framing {
  import opened Text
  import opened Decimal
  import Completion

  const LLONG_MAX: nat := 0x7FFF_FFFF_FFFF_FFFF
  const ECHO_MAX_DATA_SIZE: nat := 512 - 8
  /** Size of the array the begin string is kept in, zero padded. */
  const BEGIN_SIZE: nat := 32
  /** The body length may have fewer than this many characters. */
  const LENGTH_LIMIT: nat := 21

  /** `begin` is "8=version<SOH>9="; `isSession` tells session message types from the others. */
  datatype Config = Config(soh: char, begin: string, isSession: string -> bool)

  predicate ValidConfig(cfg: Config) {
    1 <= |cfg.begin| < BEGIN_SIZE && '\0' !in cfg.begin
  }

  datatype Queue = Delta | Echo

  datatype Event =
    | Delivered(queue: Queue, msg: string, typeOffset: nat, seqNumber: nat)
    | Rejected(seqNumber: nat)
    | Oversized(seqNumber: nat)
    | ResendRequested(from: nat)
    | BadChecksum

  /**
   Halted is where the source leaves its own memory: past the zero padding of the begin string; with a
   declared length whose total does not fit the 32 bit size field; with a message too short to have a
   checksum field; or in a message whose number or type runs on to its end.
   */
  datatype Mode =
    | FindingBeginString(l: nat)
    | FindingBodyLength(digits: string)
    | CopyingBody(digits: string, copied: string, left: nat)
    | Halted

  /** `expected` is the last number accepted; `erange` is errno stuck at ERANGE. */
  datatype Machine = Machine(mode: Mode, expected: nat, erange: bool, events: seq<Event>)

  /** The zero padded begin string. */
  function BeginAt(cfg: Config, l: nat): (c: char) {
    if l < |cfg.begin| then cfg.begin[l] else '\0'
  }

  // ---------------------------------------------------------------- a finished message

  /** Position of the first occurrence of pat at or after i, or |msg|. */
  function Find(msg: string, pat: string, i: nat): (k: nat)
    requires i <= |msg|
    ensures i <= k <= |msg|
    decreases |msg| - i
  {
    if i == |msg| then i
    else if Occurs(msg, pat, i) then i
    else Find(msg, pat, i + 1)
  }

  /** End of the digits from position i on; soh ends them too. */
  function DigitsEnd(soh: char, msg: string, i: nat): (e: nat)
    requires i <= |msg|
    ensures i <= e <= |msg| && (e < |msg| ==> msg[e] == soh || !IsDigit(msg[e]))
    ensures forall k :: i <= k < e ==> msg[k] != soh && IsDigit(msg[k])
    decreases |msg| - i
  {
    if i == |msg| || msg[i] == soh || !IsDigit(msg[i]) then i else DigitsEnd(soh, msg, i + 1)
  }

  lemma DigitsEndIs(soh: char, msg: string, i: nat, e: nat)
    requires i <= e <= |msg| && (e < |msg| ==> msg[e] == soh || !IsDigit(msg[e]))
    requires forall k :: i <= k < e ==> msg[k] != soh && IsDigit(msg[k])
    ensures DigitsEnd(soh, msg, i) == e
  {
  }

  /** Where the number of the first field 34 starts, or a position past the message. */
  function NumberAt(soh: char, msg: string): (k: nat) {
    Find(msg, [soh] + "34=", 0) + 4
  }

  predicate HasNumber(soh: char, msg: string) {
    NumberAt(soh, msg) <= |msg|
  }

  /** The byte behind the digits of that number. */
  function NumberEnd(soh: char, msg: string): (e: nat)
    requires HasNumber(soh, msg)
    ensures NumberAt(soh, msg) <= e <= |msg|
    ensures AllDigits(msg[NumberAt(soh, msg)..e])
  {
    DigitsEnd(soh, msg, NumberAt(soh, msg))
  }

  function NumberRead(soh: char, msg: string): (v: nat)
    requires HasNumber(soh, msg)
  {
    Value(msg[NumberAt(soh, msg)..NumberEnd(soh, msg)])
  }

  /** What get_sequence_number returns: 0 if there is no field 34 or its number is not below ULLONG_MAX. */
  function SequenceNumber(soh: char, msg: string): (n: nat)
    ensures n < U64 - 1
  {
    if HasNumber(soh, msg) && NumberRead(soh, msg) < U64 - 1 then NumberRead(soh, msg) else 0
  }

  /** The message after get_sequence_number: the byte behind the digits has become soh. */
  function Restored(soh: char, msg: string): (s: string)
    ensures |s| == |msg|
  {
    if HasNumber(soh, msg) && NumberEnd(soh, msg) < |msg| then msg[NumberEnd(soh, msg) := soh] else msg
  }

  /** The digits run on to the end of the message, and the scan with them. */
  predicate NumberRunsOff(soh: char, msg: string) {
    HasNumber(soh, msg) && NumberEnd(soh, msg) == |msg|
  }

  /** strtoull reports ERANGE. */
  predicate NumberOverflows(soh: char, msg: string) {
    HasNumber(soh, msg) && U64 <= NumberRead(soh, msg)
  }

  /**
   get_sequence_number on the first `size` bytes of a buffer: memmem for the tag, a scan over its digits
   up to a byte that is overwritten by a zero, and then by soh whatever it was before.
   */
  method GetSequenceNumber(soh: char, data: array<char>, size: nat) returns (runsOff: bool, n: nat, overflows: bool)
    requires size <= data.Length
    modifies data
    ensures runsOff <==> NumberRunsOff(soh, old(data[..size]))
    ensures data[size..] == old(data[size..])
    ensures !runsOff ==>
              && n == SequenceNumber(soh, old(data[..size]))
              && (overflows <==> NumberOverflows(soh, old(data[..size])))
              && data[..size] == Restored(soh, old(data[..size]))
  {
    hide Find, Value;
    ghost var msg := data[..size];
    var start := Find(data[..size], [soh] + "34=", 0);
    runsOff, n, overflows := false, 0, false;
    if start + 4 > size {
      return;
    }
    start := start + 4;
    var end := start;
    while end < size && data[end] != soh && IsDigit(data[end])
      invariant start <= end <= size
      invariant forall k :: start <= k < end ==> msg[k] != soh && IsDigit(msg[k])
    {
      end := end + 1;
    }
    DigitsEndIs(soh, msg, start, end);
    if end == size {
      runsOff := true;
      return;
    }
    data[end] := '\0';
    assert data[..size] == msg[end := '\0'];
    n := Value(data[..size][start..end]);
    overflows := U64 <= n;
    data[end] := soh;
    if U64 - 1 <= n {
      n := 0;
    }
  }

  /** The three bytes before the last are the checksum of all but the last seven. */
  predicate ChecksumMatches(msg: string)
    requires 7 <= |msg|
  {
    msg[|msg| - 4..|msg| - 1] == Padded(Completion.Checksum(msg[..|msg| - 7]), 3)
  }

  /** What a finished message leads to: the number then expected, errno, and the event. */
  datatype Outcome = Leaves | Judged(expected: nat, erange: bool, event: Event)

  function Judge(cfg: Config, expected: nat, erange: bool, msg: string, typeOffset: nat): (o: Outcome)
    requires 7 <= |msg|
  {
    if !ChecksumMatches(msg) then Judged(expected, erange, BadChecksum)
    else if NumberRunsOff(cfg.soh, msg) then Leaves
    else
      var next, got := Inc64(expected), SequenceNumber(cfg.soh, msg);
      var e := erange || NumberOverflows(cfg.soh, msg);
      if got != next then Judged(expected, e, ResendRequested(expected))
      else Route(cfg, expected, e, Restored(cfg.soh, msg), typeOffset, got)
  }

  /** A message with the number expected goes where its type belongs. */
  function Route(cfg: Config, expected: nat, erange: bool, msg: string, typeOffset: nat, got: nat): (o: Outcome) {
    if |msg| <= typeOffset then Leaves
    else if msg[typeOffset] == cfg.soh then Judged(got, erange, Rejected(got))
    else
      var end := IndexFrom(cfg.soh, msg, typeOffset);
      if end == |msg| then Leaves
      else if !cfg.isSession(msg[typeOffset..end]) then Judged(got, erange, Delivered(Delta, msg, typeOffset, got))
      else if ECHO_MAX_DATA_SIZE < |msg| then Judged(expected, erange, Oversized(got))
      else Judged(got, erange, Delivered(Echo, msg, typeOffset, got))
  }

  function TypeOffset(cfg: Config, digits: string): (n: nat) {
    |cfg.begin| + |digits| + 4
  }

  function EndMessage(cfg: Config, m: Machine, digits: string, msg: string): (m': Machine) {
    if |msg| < 7 then m.(mode := Halted)
    else
      match Judge(cfg, m.expected, m.erange, msg, TypeOffset(cfg, digits))
      case Leaves => m.(mode := Halted)
      case Judged(expected, erange, event) => Machine(FindingBeginString(0), expected, erange, m.events + [event])
  }

  lemma EndIgnoresMode(cfg: Config, m: Machine, m': Machine, digits: string, msg: string)
    requires m' == m.(mode := m'.mode)
    ensures EndMessage(cfg, m, digits, msg) == EndMessage(cfg, m', digits, msg)
  {
    hide Judge;
  }

  // ---------------------------------------------------------------- one byte

  function CopyByte(cfg: Config, m: Machine, digits: string, copied: string, left: nat, b: char): (m': Machine) {
    if left <= 1 then EndMessage(cfg, m, digits, copied + [b])
    else m.(mode := CopyingBody(digits, copied + [b], left - 1))
  }

  /** atoll stored into 32 bits. */
  function Atoll32(digits: string): (n: nat)
    requires AllDigits(digits)
    ensures n < U32
  {
    (if Value(digits) <= LLONG_MAX then Value(digits) else LLONG_MAX) % U32
  }

  /**
   The soh after the body length: start copying, with this byte as the first one. The number of bytes to
   copy has 32 bits; if it wraps to zero the message ends at once and soh is looked at again.
   */
  function EndLength(cfg: Config, m: Machine, digits: string): (m': Machine)
    requires AllDigits(digits)
  {
    var erange := m.erange || LLONG_MAX < Value(digits);
    var left := ToCopy(Atoll32(digits));
    var m1 := m.(erange := erange);
    if Atoll32(digits) == 0 || erange then m1.(mode := FindingBeginString(0))
    else if U32 <= |cfg.begin| + |digits| + left then m1.(mode := Halted)
    else if left == 0 then LookAgain(cfg, EndMessage(cfg, m1, digits, cfg.begin + digits))
    else CopyByte(cfg, m1, digits, cfg.begin + digits, left, cfg.soh)
  }

  /** The soh in front of the body, the body, and the checksum field, counted in 32 bits. */
  function ToCopy(bodyLength: nat): (n: nat)
    requires bodyLength < U32
    ensures n < U32
  {
    if bodyLength + 8 < U32 then bodyLength + 8 else bodyLength + 8 - U32
  }

  /** soh as the first byte after a message. */
  function LookAgain(cfg: Config, m: Machine): (m': Machine) {
    if m.mode.Halted? then m else m.(mode := FindingBeginString(if BeginAt(cfg, 0) == cfg.soh then 1 else 0))
  }

  function LengthByte(cfg: Config, m: Machine, digits: string, b: char): (m': Machine) {
    if |digits| == LENGTH_LIMIT then m.(mode := FindingBeginString(0))
    else if b == cfg.soh then
      if AllDigits(digits) then EndLength(cfg, m, digits) else m.(mode := Halted)
    else if IsDigit(b) then m.(mode := FindingBodyLength(digits + [b]))
    else m.(mode := FindingBeginString(0))
  }

  function BeginByte(cfg: Config, m: Machine, l: nat, b: char): (m': Machine) {
    if BEGIN_SIZE <= l then m.(mode := Halted)
    else if BeginAt(cfg, l) == b then m.(mode := FindingBeginString(l + 1))
    else if BeginAt(cfg, l) == '\0' && IsDigit(b) then LengthByte(cfg, m, "", b)
    else if BeginAt(cfg, 0) == b then m.(mode := FindingBeginString(1))
    else m.(mode := FindingBeginString(0))
  }

  function StepByte(cfg: Config, m: Machine, b: char): (m': Machine) {
    match m.mode
    case FindingBeginString(l) => BeginByte(cfg, m, l, b)
    case FindingBodyLength(digits) => LengthByte(cfg, m, digits, b)
    case CopyingBody(digits, copied, left) => CopyByte(cfg, m, digits, copied, left, b)
    case Halted => m
  }

  /** The machine after all bytes of s. */
  function Steps(cfg: Config, m: Machine, s: string): (m': Machine) {
    if s == [] then m else StepByte(cfg, Steps(cfg, m, s[..|s| - 1]), s[|s| - 1])
  }

  lemma {:induction false} StepsConcat(cfg: Config, m: Machine, s: string, t: string)
    ensures Steps(cfg, m, s + t) == Steps(cfg, Steps(cfg, m, s), t)
    decreases |t|
  {
    if t == [] {
      assert s + t == s;
    } else {
      assert (s + t)[..|s + t| - 1] == s + t[..|t| - 1];
      StepsConcat(cfg, m, s, t[..|t| - 1]);
    }
  }

  lemma StepsNone(cfg: Config, m: Machine)
    ensures Steps(cfg, m, []) == m
  {
  }

  lemma StepsOne(cfg: Config, m: Machine, b: char)
    ensures Steps(cfg, m, [b]) == StepByte(cfg, m, b)
  {
    assert [b][..0] == [];
    assert Steps(cfg, m, []) == m;
  }

  /** Bytes of a body that does not end yet are only copied. */
  lemma {:induction false} CopyMany(cfg: Config, m: Machine, t: string)
    requires m.mode.CopyingBody? && |t| < m.mode.left
    ensures Steps(cfg, m, t)
            == m.(mode := CopyingBody(m.mode.digits, m.mode.copied + t, m.mode.left - |t|))
    decreases |t|
  {
    if t == [] {
      assert m.mode.copied + t == m.mode.copied;
    } else {
      CopyMany(cfg, m, t[..|t| - 1]);
      assert m.mode.copied + t[..|t| - 1] + [t[|t| - 1]] == m.mode.copied + t;
    }
  }

  /** The last bytes of a body finish the message. */
  lemma CopyLast(cfg: Config, m: Machine, t: string)
    requires m.mode.CopyingBody? && 1 <= |t| == m.mode.left
    ensures Steps(cfg, m, t) == EndMessage(cfg, m, m.mode.digits, m.mode.copied + t)
  {
    CopyMany(cfg, m, t[..|t| - 1]);
    assert m.mode.copied + t[..|t| - 1] + [t[|t| - 1]] == m.mode.copied + t;
  }
}
