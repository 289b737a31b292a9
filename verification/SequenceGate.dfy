/** What the splitter lets through, over whole streams of arbitrary bytes. */
module SequenceGate {
  import opened Text
  import opened Decimal
  import opened Framing
  import Completion

  /** Shape of the machine's state between bytes. */
  ghost predicate Sane(cfg: Config, m: Machine) {
    match m.mode
    case FindingBeginString(l) => l <= BEGIN_SIZE
    case FindingBodyLength(digits) => AllDigits(digits) && |digits| <= LENGTH_LIMIT
    case CopyingBody(digits, copied, left) =>
      && AllDigits(digits) && 1 <= |digits| <= LENGTH_LIMIT && 1 <= left && |copied| + left < U32
      && cfg.begin + digits <= copied
    case Halted => true
  }

  /** The number a message that was not rolled back took. */
  function Taken(e: Event): (s: seq<nat>) {
    match e
    case Delivered(_, _, _, n) => [n]
    case Rejected(n) => [n]
    case _ => []
  }

  function AllTaken(events: seq<Event>): (s: seq<nat>) {
    if events == [] then [] else AllTaken(events[..|events| - 1]) + Taken(events[|events| - 1])
  }

  /** n+1, n+2, ..., n+k. */
  function CountUp(n: nat, k: nat): (s: seq<nat>)
    ensures |s| == k
  {
    if k == 0 then [] else CountUp(n, k - 1) + [n + k]
  }

  // ---------------------------------------------------------------- where a delivered message comes from

  /** The begin string as its array holds it. */
  function PaddedBegin(cfg: Config): (s: string)
    requires ValidConfig(cfg)
    ensures |s| == BEGIN_SIZE && cfg.begin <= s
  {
    seq(BEGIN_SIZE, i requires 0 <= i < BEGIN_SIZE => BeginAt(cfg, i))
  }

  /** raw came in one piece, but for zero bytes the scan let pass behind the begin string. */
  ghost predicate Received(cfg: Config, stream: string, raw: string)
    requires ValidConfig(cfg)
  {
    && cfg.begin <= raw
    && exists l: nat, p: nat ::
         |cfg.begin| <= l <= BEGIN_SIZE && Occurs(stream, PaddedBegin(cfg)[..l] + raw[|cfg.begin|..], p)
  }

  /** The stream ends with the begin string, possibly zero bytes, and then x. */
  ghost predicate Ends(cfg: Config, stream: string, x: string)
    requires ValidConfig(cfg)
  {
    exists l: nat :: |cfg.begin| <= l <= BEGIN_SIZE && EndsWith(stream, PaddedBegin(cfg)[..l] + x)
  }

  predicate EndsWith(s: string, t: string) {
    |t| <= |s| && s[|s| - |t|..] == t
  }

  /** What the machine has matched, collected or copied is the end of what it was fed. */
  ghost predicate Traced(cfg: Config, stream: string, mode: Mode)
    requires ValidConfig(cfg)
  {
    match mode
    case FindingBeginString(l) => l <= BEGIN_SIZE && EndsWith(stream, PaddedBegin(cfg)[..l])
    case FindingBodyLength(digits) => Ends(cfg, stream, digits)
    case CopyingBody(_, copied, _) => cfg.begin <= copied && Ends(cfg, stream, copied[|cfg.begin|..])
    case Halted => true
  }

  lemma EndsWithMore(s: string, t: string, b: char)
    requires EndsWith(s, t)
    ensures EndsWith(s + [b], t + [b])
  {
  }

  lemma EndsMore(cfg: Config, stream: string, x: string, b: char)
    requires ValidConfig(cfg) && Ends(cfg, stream, x)
    ensures Ends(cfg, stream + [b], x + [b])
  {
    var l: nat :| |cfg.begin| <= l <= BEGIN_SIZE && EndsWith(stream, PaddedBegin(cfg)[..l] + x);
    EndsWithMore(stream, PaddedBegin(cfg)[..l] + x, b);
    Assoc(PaddedBegin(cfg)[..l], x, [b]);
  }

  lemma EndsIsReceived(cfg: Config, stream: string, raw: string)
    requires ValidConfig(cfg) && cfg.begin <= raw && Ends(cfg, stream, raw[|cfg.begin|..])
    ensures Received(cfg, stream, raw)
  {
    var l: nat :| |cfg.begin| <= l <= BEGIN_SIZE && EndsWith(stream, PaddedBegin(cfg)[..l] + raw[|cfg.begin|..]);
    var t := PaddedBegin(cfg)[..l] + raw[|cfg.begin|..];
    assert Occurs(stream, t, |stream| - |t|);
  }

  lemma ReceivedStays(cfg: Config, stream: string, b: char, raw: string)
    requires ValidConfig(cfg) && Received(cfg, stream, raw)
    ensures Received(cfg, stream + [b], raw)
  {
    var l: nat, p: nat :|
      |cfg.begin| <= l <= BEGIN_SIZE && Occurs(stream, PaddedBegin(cfg)[..l] + raw[|cfg.begin|..], p);
    var t := PaddedBegin(cfg)[..l] + raw[|cfg.begin|..];
    assert (stream + [b])[p..p + |t|] == stream[p..p + |t|];
    assert Occurs(stream + [b], t, p);
  }

  /** Without zero bytes in the stream the message stands there as it is. */
  lemma ReceivedAsIs(cfg: Config, stream: string, raw: string) returns (p: nat)
    requires ValidConfig(cfg) && Received(cfg, stream, raw) && '\0' !in stream
    ensures Occurs(stream, raw, p)
  {
    var l: nat, q: nat :|
      |cfg.begin| <= l <= BEGIN_SIZE && Occurs(stream, PaddedBegin(cfg)[..l] + raw[|cfg.begin|..], q);
    var t, n := PaddedBegin(cfg)[..l] + raw[|cfg.begin|..], |cfg.begin|;
    assert forall k :: 0 <= k < l ==> BeginAt(cfg, k) == t[k] == stream[q..q + |t|][k] == stream[q + k];
    assert forall k: nat :: k < l ==> BeginAt(cfg, k) != '\0';
    assert BeginAt(cfg, n) == '\0';
    assert PaddedBegin(cfg)[..n] == cfg.begin;
    assert raw == cfg.begin + raw[n..];
    p := q;
  }

  // ---------------------------------------------------------------- what is delivered

  /** e delivers raw with the byte behind its number overwritten. */
  predicate Delivers(cfg: Config, raw: string, e: Event) {
    && e.Delivered? && 7 <= |raw| && ChecksumMatches(raw)
    && HasNumber(cfg.soh, raw) && NumberEnd(cfg.soh, raw) < |raw|
    && SequenceNumber(cfg.soh, raw) == e.seqNumber
    && e.msg == Restored(cfg.soh, raw)
    && e.typeOffset < |e.msg| && e.typeOffset < IndexFrom(cfg.soh, e.msg, e.typeOffset) < |e.msg|
    && (e.queue == Echo <==> cfg.isSession(e.msg[e.typeOffset..IndexFrom(cfg.soh, e.msg, e.typeOffset)]))
    && (e.queue == Echo ==> |e.msg| <= ECHO_MAX_DATA_SIZE)
  }

  /** Every delivery has its origin in the stream. */
  ghost predicate Vouched(cfg: Config, stream: string, e: Event)
    requires ValidConfig(cfg)
  {
    e.Delivered? ==> exists raw :: Received(cfg, stream, raw) && Delivers(cfg, raw, e)
  }

  /** Counting from s, the numbers taken have no gap, and the last one is the expected one. */
  ghost predicate Counted(s: nat, m: Machine) {
    && m.expected == s + |AllTaken(m.events)| < U64 - 1
    && AllTaken(m.events) == CountUp(s, |AllTaken(m.events)|)
  }

  ghost predicate AllVouched(cfg: Config, stream: string, events: seq<Event>)
    requires ValidConfig(cfg)
  {
    forall i :: 0 <= i < |events| ==> Vouched(cfg, stream, events[i])
  }

  ghost predicate GateInv(cfg: Config, s: nat, stream: string, m: Machine)
    requires ValidConfig(cfg)
  {
    Sane(cfg, m) && Traced(cfg, stream, m.mode) && Counted(s, m) && AllVouched(cfg, stream, m.events)
  }

  /** Judging takes the next number or none, and delivers only what it was given. */
  lemma JudgeTakesNextOrNone(cfg: Config, expected: nat, erange: bool, msg: string, typeOffset: nat)
    requires 7 <= |msg| && expected < U64 - 1
    ensures var o := Judge(cfg, expected, erange, msg, typeOffset);
            o.Judged? ==>
              && (o.event.Delivered? ==> Delivers(cfg, msg, o.event))
              && o.expected == expected + |Taken(o.event)| < U64 - 1
              && (Taken(o.event) == [] || Taken(o.event) == [expected + 1])
  {
    hide ChecksumMatches, Find;
  }

  lemma EventKeepsCount(s: nat, m: Machine, m': Machine, event: Event)
    requires Counted(s, m) && m'.events == m.events + [event]
    requires m'.expected == m.expected + |Taken(event)| < U64 - 1
    requires Taken(event) == [] || Taken(event) == [m.expected + 1]
    ensures Counted(s, m')
  {
    assert m'.events[..|m'.events| - 1] == m.events;
    assert AllTaken(m'.events) == AllTaken(m.events) + Taken(event);
  }

  lemma VouchedStays(cfg: Config, stream: string, b: char, events: seq<Event>)
    requires ValidConfig(cfg) && AllVouched(cfg, stream, events)
    ensures AllVouched(cfg, stream + [b], events)
  {
    forall i | 0 <= i < |events|
      ensures Vouched(cfg, stream + [b], events[i])
    {
      assert Vouched(cfg, stream, events[i]);
      if events[i].Delivered? {
        var raw :| Received(cfg, stream, raw) && Delivers(cfg, raw, events[i]);
        ReceivedStays(cfg, stream, b, raw);
      }
    }
  }

  lemma FinishKeepsGate(cfg: Config, s: nat, stream: string, m: Machine, digits: string, msg: string)
    requires ValidConfig(cfg) && Counted(s, m) && AllVouched(cfg, stream, m.events) && Received(cfg, stream, msg)
    ensures var m' := EndMessage(cfg, m, digits, msg);
            && Counted(s, m') && AllVouched(cfg, stream, m'.events)
            && (m'.mode == Halted || m'.mode == FindingBeginString(0))
  {
    hide Judge, Delivers, Received;
    if 7 <= |msg| {
      JudgeTakesNextOrNone(cfg, m.expected, m.erange, msg, TypeOffset(cfg, digits));
      var o := Judge(cfg, m.expected, m.erange, msg, TypeOffset(cfg, digits));
      if o.Judged? {
        EventKeepsCount(s, m, EndMessage(cfg, m, digits, msg), o.event);
        assert Vouched(cfg, stream, o.event);
      }
    }
  }

  lemma CopyKeepsGate(cfg: Config, s: nat, stream: string, m: Machine, digits: string, copied: string, left: nat, b: char)
    requires ValidConfig(cfg) && Counted(s, m) && AllVouched(cfg, stream + [b], m.events)
    requires Sane(cfg, m.(mode := CopyingBody(digits, copied, left)))
    requires cfg.begin <= copied && Ends(cfg, stream, copied[|cfg.begin|..])
    ensures GateInv(cfg, s, stream + [b], CopyByte(cfg, m, digits, copied, left, b))
  {
    hide Counted, AllVouched, Ends, Received, EndMessage;
    var more := copied + [b];
    EndsMore(cfg, stream, copied[|cfg.begin|..], b);
    assert more[|cfg.begin|..] == copied[|cfg.begin|..] + [b];
    if left <= 1 {
      EndsIsReceived(cfg, stream + [b], more);
      FinishKeepsGate(cfg, s, stream + [b], m, digits, more);
    } else {
      CountedIgnores(s, m, CopyByte(cfg, m, digits, copied, left, b));
    }
  }

  /** The length that wraps: the message ends without its soh, which is looked at again. */
  lemma WrapKeepsGate(cfg: Config, s: nat, stream: string, m: Machine, digits: string)
    requires ValidConfig(cfg) && Counted(s, m) && AllVouched(cfg, stream, m.events) && Ends(cfg, stream, digits)
    ensures GateInv(cfg, s, stream + [cfg.soh], LookAgain(cfg, EndMessage(cfg, m, digits, cfg.begin + digits)))
  {
    hide Counted, AllVouched, Ends, Received, EndMessage;
    var raw := cfg.begin + digits;
    assert raw[|cfg.begin|..] == digits;
    EndsIsReceived(cfg, stream, raw);
    FinishKeepsGate(cfg, s, stream, m, digits, raw);
    var m' := EndMessage(cfg, m, digits, raw);
    VouchedStays(cfg, stream, cfg.soh, m'.events);
    CountedIgnores(s, m', LookAgain(cfg, m'));
    assert PaddedBegin(cfg)[..1] == [BeginAt(cfg, 0)];
  }

  lemma LengthKeepsGate(cfg: Config, s: nat, stream: string, m: Machine, digits: string, b: char)
    requires ValidConfig(cfg) && Counted(s, m) && AllVouched(cfg, stream, m.events)
    requires AllDigits(digits) && |digits| <= LENGTH_LIMIT && Ends(cfg, stream, digits)
    ensures GateInv(cfg, s, stream + [b], LengthByte(cfg, m, digits, b))
  {
    hide Counted, AllVouched, Ends, Received, EndMessage, CopyByte, LookAgain;
    VouchedStays(cfg, stream, b, m.events);
    EndsMore(cfg, stream, digits, b);
    if |digits| != LENGTH_LIMIT && b == cfg.soh {
      var m1 := m.(erange := m.erange || LLONG_MAX < Value(digits));
      var left := ToCopy(Atoll32(digits));
      CountedIgnores(s, m, m1);
      if Atoll32(digits) != 0 && !m1.erange && |cfg.begin| + |digits| + left < U32 {
        if left == 0 {
          WrapKeepsGate(cfg, s, stream, m1, digits);
        } else {
          assert (cfg.begin + digits)[|cfg.begin|..] == digits;
          CopyKeepsGate(cfg, s, stream, m1, digits, cfg.begin + digits, left, b);
        }
      } else {
        CountedIgnores(s, m, LengthByte(cfg, m, digits, b));
      }
    } else {
      CountedIgnores(s, m, LengthByte(cfg, m, digits, b));
    }
  }

  lemma CountedIgnores(s: nat, m: Machine, m': Machine)
    requires Counted(s, m) && m'.expected == m.expected && m'.events == m.events
    ensures Counted(s, m')
  {
  }

  /** One more matched byte, or a first one. */
  lemma MatchIsTraced(cfg: Config, stream: string, l: nat, b: char)
    requires ValidConfig(cfg) && l < BEGIN_SIZE && EndsWith(stream, PaddedBegin(cfg)[..l])
    ensures BeginAt(cfg, l) == b ==> EndsWith(stream + [b], PaddedBegin(cfg)[..l + 1])
    ensures BeginAt(cfg, 0) == b ==> EndsWith(stream + [b], PaddedBegin(cfg)[..1])
    ensures EndsWith(stream + [b], PaddedBegin(cfg)[..0])
    ensures BeginAt(cfg, l) == '\0' ==> Ends(cfg, stream, "")
  {
    var p := PaddedBegin(cfg);
    EndsWithMore(stream, p[..l], b);
    assert p[..l + 1] == p[..l] + [BeginAt(cfg, l)];
    assert p[..1] == [BeginAt(cfg, 0)];
    assert p[..l] + "" == p[..l];
  }

  lemma BeginKeepsGate(cfg: Config, s: nat, stream: string, m: Machine, l: nat, b: char)
    requires ValidConfig(cfg) && Counted(s, m) && AllVouched(cfg, stream, m.events)
    requires l <= BEGIN_SIZE && EndsWith(stream, PaddedBegin(cfg)[..l])
    ensures GateInv(cfg, s, stream + [b], BeginByte(cfg, m, l, b))
  {
    hide Counted, AllVouched, Received, LengthByte, EndsWith, Ends, PaddedBegin, BeginAt;
    VouchedStays(cfg, stream, b, m.events);
    if l < BEGIN_SIZE {
      MatchIsTraced(cfg, stream, l, b);
    }
    if l < BEGIN_SIZE && BeginAt(cfg, l) != b && BeginAt(cfg, l) == '\0' && IsDigit(b) {
      LengthKeepsGate(cfg, s, stream, m, "", b);
    } else {
      CountedIgnores(s, m, BeginByte(cfg, m, l, b));
    }
  }

  lemma ByteKeepsGate(cfg: Config, s: nat, stream: string, m: Machine, b: char)
    requires ValidConfig(cfg) && GateInv(cfg, s, stream, m)
    ensures GateInv(cfg, s, stream + [b], StepByte(cfg, m, b))
  {
    hide Counted, AllVouched, Ends, CopyByte, LengthByte, BeginByte;
    VouchedStays(cfg, stream, b, m.events);
    match m.mode
    case FindingBeginString(l) => BeginKeepsGate(cfg, s, stream, m, l, b);
    case FindingBodyLength(digits) => LengthKeepsGate(cfg, s, stream, m, digits, b);
    case CopyingBody(digits, copied, left) => CopyKeepsGate(cfg, s, stream, m, digits, copied, left, b);
    case Halted =>
  }

  /** A machine that starts at the beginning of a stream. */
  function Start(s: nat): (m: Machine) {
    Machine(FindingBeginString(0), s, false, [])
  }

  lemma {:induction false} StreamKeepsGate(cfg: Config, s: nat, stream: string)
    requires ValidConfig(cfg) && s < U64 - 1
    ensures GateInv(cfg, s, stream, Steps(cfg, Start(s), stream))
    decreases |stream|
  {
    if stream != [] {
      hide GateInv, StepByte;
      var shorter, b := stream[..|stream| - 1], stream[|stream| - 1];
      assert stream == shorter + [b];
      StreamKeepsGate(cfg, s, shorter);
      ByteKeepsGate(cfg, s, shorter, Steps(cfg, Start(s), shorter), b);
    }
  }

  lemma {:induction false} CountUpAt(n: nat, k: nat, i: nat)
    requires i < k
    ensures CountUp(n, k)[i] == n + 1 + i
  {
    if i < k - 1 {
      CountUpAt(n, k - 1, i);
    }
  }

  /** Position among the taken numbers of the i-th event's number. */
  lemma {:induction false} TakenAt(events: seq<Event>, i: nat)
    requires i < |events| && Taken(events[i]) != []
    ensures |AllTaken(events[..i])| < |AllTaken(events)|
    ensures AllTaken(events)[|AllTaken(events[..i])|] == Taken(events[i])[0]
    decreases |events|
  {
    if i == |events| - 1 {
    } else {
      var shorter := events[..|events| - 1];
      assert shorter[..i] == events[..i];
      TakenAt(shorter, i);
    }
  }

  lemma {:induction false} TakenGrows(events: seq<Event>, i: nat, j: nat)
    requires i <= j <= |events|
    ensures |AllTaken(events[..i])| <= |AllTaken(events[..j])|
    ensures i < j && Taken(events[i]) != [] ==> |AllTaken(events[..i])| < |AllTaken(events[..j])|
    decreases j
  {
    if i < j {
      TakenGrows(events, i, j - 1);
      assert events[..j][..j - 1] == events[..j - 1];
    }
  }

  // ---------------------------------------------------------------- the byte that is overwritten

  /** The same byte as far as a checksum is concerned. */
  predicate SameByte(a: char, b: char) {
    a as int % 256 == b as int % 256
  }

  lemma {:induction false} SumChanged(s: string, i: nat, b: char)
    requires i < |s|
    ensures Sum(s[i := b]) == Sum(s) - s[i] as int + b as int
    decreases |s|
  {
    var n := |s| - 1;
    if i < n {
      assert s[i := b][..n] == s[..n][i := b];
      SumChanged(s[..n], i, b);
    } else {
      assert s[i := b][..n] == s[..n];
    }
  }

  lemma ChecksumChanged(s: string, i: nat, b: char)
    requires i < |s|
    ensures Completion.Checksum(s[i := b]) == Completion.Checksum(s) <==> SameByte(s[i], b)
  {
    SumChanged(s, i, b);
  }

  lemma PaddedInjective(u: nat, v: nat)
    requires u < 256 && v < 256
    ensures Padded(u, 3) == Padded(v, 3) <==> u == v
  {
    PowersOfTen();
    PaddedFits(u, 3);
    PaddedFits(v, 3);
  }

  /** Overwriting a byte in front of the checksum field breaks the checksum unless it is the same byte. */
  lemma OverwrittenChecksum(msg: string, i: nat, b: char)
    requires 7 <= |msg| && ChecksumMatches(msg) && i < |msg| - 7
    ensures ChecksumMatches(msg[i := b]) <==> SameByte(msg[i], b)
  {
    hide Padded, Completion.Checksum;
    var n := |msg| - 7;
    assert msg[i := b][..n] == msg[..n][i := b];
    assert msg[i := b][|msg| - 4..|msg| - 1] == msg[|msg| - 4..|msg| - 1];
    ChecksumChanged(msg[..n], i, b);
    PaddedInjective(Completion.Checksum(msg[..n]), Completion.Checksum(msg[..n][i := b]));
  }

  /** A byte of the checksum field that is no digit is none the checksum test looks at. */
  lemma OverwrittenField(msg: string, i: nat, b: char)
    requires 7 <= |msg| && ChecksumMatches(msg) && |msg| - 7 <= i < |msg| && !IsDigit(msg[i])
    ensures ChecksumMatches(msg[i := b])
  {
    var n := |msg|;
    assert forall k :: n - 4 <= k < n - 1 ==> msg[k] == msg[n - 4..n - 1][k - (n - 4)] && IsDigit(msg[k]);
    assert msg[i := b][..n - 7] == msg[..n - 7];
    assert msg[i := b][n - 4..n - 1] == msg[n - 4..n - 1];
  }

  /**
   Exactly when reading the number does no harm: the bytes stay as they were if and only if the number
   ends with soh, and the checksum stays right if and only if that byte counts like soh or lies in the
   checksum field itself. The number reads the same afterwards in every case.
   */
  lemma ReadingTheNumber(soh: char, raw: string)
    requires 7 <= |raw| && ChecksumMatches(raw) && HasNumber(soh, raw) && NumberEnd(soh, raw) < |raw|
    ensures var (after, end) := (Restored(soh, raw), NumberEnd(soh, raw));
            && (after == raw <==> raw[end] == soh)
            && (ChecksumMatches(after) <==> SameByte(raw[end], soh) || |raw| - 7 <= end)
            && SequenceNumber(soh, after) == SequenceNumber(soh, raw)
  {
    hide ChecksumMatches, Find;
    var after, end := Restored(soh, raw), NumberEnd(soh, raw);
    if end < |raw| - 7 {
      OverwrittenChecksum(raw, end, soh);
    } else if raw[end] != soh {
      OverwrittenField(raw, end, soh);
    } else {
      assert after == raw;
    }
    NumberStays(soh, raw, end);
    assert after[end] == soh;
  }

  /** The first field 34 is still where it was, with the same digits. */
  lemma NumberStays(soh: char, raw: string, end: nat)
    requires HasNumber(soh, raw) && NumberEnd(soh, raw) == end < |raw|
    ensures var after := raw[end := soh];
            HasNumber(soh, after) && NumberAt(soh, after) == NumberAt(soh, raw) && NumberEnd(soh, after) == end
            && after[NumberAt(soh, raw)..end] == raw[NumberAt(soh, raw)..end]
  {
    var after, at := raw[end := soh], NumberAt(soh, raw);
    var pat := [soh] + "34=";
    FindStays(raw, after, pat, 0, at - 4);
    DigitsEndIs(soh, after, at, end);
  }

  lemma OccursInBoth(s: string, t: string, pat: string, i: nat, n: nat)
    requires i + |pat| <= n <= |s| && n <= |t| && s[..n] == t[..n]
    ensures Occurs(s, pat, i) <==> Occurs(t, pat, i)
  {
    assert s[i..i + |pat|] == s[..n][i..i + |pat|] && t[i..i + |pat|] == t[..n][i..i + |pat|];
  }

  lemma {:induction false} FindStays(s: string, t: string, pat: string, i: nat, k: nat)
    requires i <= k && k + |pat| <= |s| == |t| && 1 <= |pat| && s[..k + |pat|] == t[..k + |pat|]
    requires Find(s, pat, i) == k
    ensures Find(t, pat, i) == k
    decreases k - i
  {
    hide Occurs;
    OccursInBoth(s, t, pat, i, k + |pat|);
    if i < k {
      FindStays(s, t, pat, i + 1, k);
    }
  }

  /** A delivered message is as it arrived exactly if its number ends with soh. */
  ghost predicate DeliveredExactly(cfg: Config, raw: string, e: Event)
    requires Delivers(cfg, raw, e)
  {
    var end := NumberEnd(cfg.soh, raw);
    && (e.msg == raw <==> raw[end] == cfg.soh)
    && (ChecksumMatches(e.msg) <==> SameByte(raw[end], cfg.soh) || |raw| - 7 <= end)
    && SequenceNumber(cfg.soh, e.msg) == e.seqNumber
  }

  /**
   From stored number s, whatever bytes arrive: the messages that pass and are not rolled back carry
   s+1, s+2, ... without a gap; the numbers delivered on delta and echo together strictly increase; and
   every delivered message arrived in the stream with a right checksum, still carries the number it is
   delivered under, and is as it arrived, or still has a right checksum, exactly under the conditions of
   ReadingTheNumber.
   */
  lemma GateOverWholeStreams(cfg: Config, s: nat, stream: string)
    requires ValidConfig(cfg) && s < U64 - 1
    ensures var m := Steps(cfg, Start(s), stream);
            && AllTaken(m.events) == CountUp(s, |AllTaken(m.events)|)
            && m.expected == s + |AllTaken(m.events)| < U64 - 1
            && (forall i, j :: 0 <= i < j < |m.events| && m.events[i].Delivered? && m.events[j].Delivered?
                               ==> m.events[i].seqNumber < m.events[j].seqNumber)
            && (forall i :: 0 <= i < |m.events| && m.events[i].Delivered? ==> Accounted(cfg, stream, m.events[i]))
  {
    StreamKeepsGate(cfg, s, stream);
    var events := Steps(cfg, Start(s), stream).events;
    forall i, j | 0 <= i < j < |events| && events[i].Delivered? && events[j].Delivered?
      ensures events[i].seqNumber < events[j].seqNumber
    {
      TakenAt(events, i);
      TakenAt(events, j);
      TakenGrows(events, i, j);
      CountUpAt(s, |AllTaken(events)|, |AllTaken(events[..i])|);
      CountUpAt(s, |AllTaken(events)|, |AllTaken(events[..j])|);
    }
    forall i | 0 <= i < |events| && events[i].Delivered?
      ensures Accounted(cfg, stream, events[i])
    {
      assert Vouched(cfg, stream, events[i]);
      VouchedIsAccounted(cfg, stream, events[i]);
    }
  }

  ghost predicate Accounted(cfg: Config, stream: string, e: Event)
    requires ValidConfig(cfg)
  {
    exists raw :: Received(cfg, stream, raw) && Delivers(cfg, raw, e) && DeliveredExactly(cfg, raw, e)
  }

  lemma VouchedIsAccounted(cfg: Config, stream: string, e: Event)
    requires ValidConfig(cfg) && e.Delivered? && Vouched(cfg, stream, e)
    ensures Accounted(cfg, stream, e)
  {
    hide Received, ChecksumMatches, Find;
    var raw :| Received(cfg, stream, raw) && Delivers(cfg, raw, e);
    ReadingTheNumber(cfg.soh, raw);
    assert DeliveredExactly(cfg, raw, e);
  }
}
