/** From push to pop: what the pusher completes, the splitter delivers, however the bytes are cut. */
module RoundTrip {
  import opened Text
  import opened Decimal
  import opened Completion
  import opened Framing
  import opened SequenceGate
  import opened HeaderScan
  import Primitives

  /** A message as pushed: its type and the partial message. */
  datatype Outgoing = Outgoing(msgType: string, partial: string)

  /** The configuration both ends share for a version. */
  function ConfigFor(version: string, soh: char, isSession: string -> bool): (cfg: Framing.Config) {
    Framing.Config(soh, FixStart(version, soh), isSession)
  }

  function Bytes(cfg: Framing.Config, o: Outgoing, n: nat): (s: string)
    requires IsPartial(cfg.soh, o.partial)
  {
    Complete(cfg.begin, cfg.soh, o.msgType, o.partial, n)
  }

  /** A partial message with its type, as documented for push, whose completed size has 32 bits. */
  ghost predicate Sendable(cfg: Framing.Config, o: Outgoing, n: nat) {
    && IsPartial(cfg.soh, o.partial)
    && o.msgType != [] && cfg.soh !in o.msgType
    && |Bytes(cfg, o, n)| < U32
  }

  /** The queue for session messages has short entries. */
  predicate Fits(cfg: Framing.Config, o: Outgoing, n: nat)
    requires IsPartial(cfg.soh, o.partial)
  {
    cfg.isSession(o.msgType) ==> |Bytes(cfg, o, n)| <= ECHO_MAX_DATA_SIZE
  }

  /** The length field of the completed message. */
  function LengthField(cfg: Framing.Config, o: Outgoing, n: nat): (s: string)
    requires IsPartial(cfg.soh, o.partial)
  {
    Digits(|Body(cfg.soh, o.msgType, o.partial, n)|)
  }

  /** The event a message ought to cause: the right queue, all its bytes, its type's place, its number. */
  function Arrival(cfg: Framing.Config, o: Outgoing, n: nat): (e: Event)
    requires IsPartial(cfg.soh, o.partial)
  {
    Delivered(if cfg.isSession(o.msgType) then Echo else Delta, Bytes(cfg, o, n),
              |cfg.begin| + |LengthField(cfg, o, n)| + 4, n)
  }

  /** What message number n causes when `expected` was the last one accepted. */
  function Reception(cfg: Framing.Config, o: Outgoing, n: nat, expected: nat): (e: Event)
    requires IsPartial(cfg.soh, o.partial)
  {
    if n != expected + 1 then ResendRequested(expected)
    else if Fits(cfg, o, n) then Arrival(cfg, o, n)
    else Oversized(n)
  }

  ghost predicate AllSendable(cfg: Framing.Config, n0: nat, msgs: seq<Outgoing>) {
    forall i :: 0 <= i < |msgs| ==> Sendable(cfg, msgs[i], n0 + 1 + i)
  }

  /** The bytes of the messages, numbered from n0+1 on. */
  ghost function Stream(cfg: Framing.Config, n0: nat, msgs: seq<Outgoing>): (s: string)
    requires AllSendable(cfg, n0, msgs)
  {
    if msgs == [] then []
    else
      hide IsPartial, Complete;
      var k := |msgs| - 1;
      assert Sendable(cfg, msgs[k], n0 + 1 + k);
      Stream(cfg, n0, msgs[..k]) + Bytes(cfg, msgs[k], n0 + 1 + k)
  }

  /** How many messages there are before the first one that does not fit. */
  ghost function Fitting(cfg: Framing.Config, n0: nat, msgs: seq<Outgoing>): (l: nat)
    requires AllSendable(cfg, n0, msgs)
    ensures l <= |msgs|
  {
    if msgs == [] then 0
    else
      hide IsPartial, Complete;
      var k := |msgs| - 1;
      assert Sendable(cfg, msgs[k], n0 + 1 + k);
      var l := Fitting(cfg, n0, msgs[..k]);
      if l == k && Fits(cfg, msgs[k], n0 + 1 + k) then k + 1 else l
  }

  /** One event for each message. */
  ghost function Events(cfg: Framing.Config, n0: nat, msgs: seq<Outgoing>): (s: seq<Event>)
    requires AllSendable(cfg, n0, msgs)
    ensures |s| == |msgs|
  {
    if msgs == [] then []
    else
      hide IsPartial, Complete;
      var k := |msgs| - 1;
      assert Sendable(cfg, msgs[k], n0 + 1 + k);
      Events(cfg, n0, msgs[..k]) + [Reception(cfg, msgs[k], n0 + 1 + k, n0 + Fitting(cfg, n0, msgs[..k]))]
  }

  // ---------------------------------------------------------------- framing of one message

  lemma {:induction false} BeginIsMatched(cfg: Framing.Config, m: Machine, k: nat)
    requires Framing.ValidConfig(cfg) && m.mode == FindingBeginString(0) && k <= |cfg.begin|
    ensures Steps(cfg, m, cfg.begin[..k]) == m.(mode := FindingBeginString(k))
  {
    if k != 0 {
      BeginIsMatched(cfg, m, k - 1);
      assert cfg.begin[..k][..k - 1] == cfg.begin[..k - 1];
    }
  }

  lemma {:induction false} LengthIsCollected(cfg: Framing.Config, m: Machine, digits: string, t: string)
    requires m.mode == FindingBodyLength(digits) && AllDigits(t) && !IsDigit(cfg.soh)
    requires |digits| + |t| <= LENGTH_LIMIT
    ensures Steps(cfg, m, t) == m.(mode := FindingBodyLength(digits + t))
    decreases |t|
  {
    if t == [] {
      assert digits + t == digits;
    } else {
      var v := t[..|t| - 1];
      LengthIsCollected(cfg, m, digits, v);
      assert digits + v + [t[|t| - 1]] == digits + t;
    }
  }

  /** Begin string and length field, up to the soh that starts the copying. */
  lemma PrologueIsFramed(cfg: Framing.Config, m: Machine, digits: string)
    requires Framing.ValidConfig(cfg) && m.mode == FindingBeginString(0) && !IsDigit(cfg.soh)
    requires AllDigits(digits) && 1 <= |digits| <= LENGTH_LIMIT
    ensures Steps(cfg, m, cfg.begin + digits) == m.(mode := FindingBodyLength(digits))
  {
    var h := cfg.begin;
    BeginIsMatched(cfg, m, |h|);
    assert h[..|h|] == h;
    var m1 := m.(mode := FindingBeginString(|h|));
    DigitAfterFullMatch(cfg, m1, digits[0]);
    var m2 := m.(mode := FindingBodyLength([digits[0]]));
    LengthIsCollected(cfg, m2, [digits[0]], digits[1..]);
    assert digits == [digits[0]] + digits[1..];
    StepsConcat(cfg, m1, [digits[0]], digits[1..]);
    StepsOne(cfg, m1, digits[0]);
    StepsConcat(cfg, m, h, digits);
  }

  /** A declared length and that many bytes, with the checksum field behind them, become one message. */
  lemma BodyIsFramed(cfg: Framing.Config, m: Machine, digits: string, rest: string)
    requires m.mode == FindingBodyLength(digits) && !m.erange && AllDigits(digits) && 1 <= |digits| < LENGTH_LIMIT
    requires 1 <= Value(digits) && |cfg.begin| + |digits| + Value(digits) + 8 < U32
    requires |rest| == Value(digits) + 7
    ensures Steps(cfg, m, [cfg.soh] + rest) == EndMessage(cfg, m, digits, cfg.begin + digits + [cfg.soh] + rest)
  {
    var copied := cfg.begin + digits + [cfg.soh];
    var m1 := m.(mode := CopyingBody(digits, copied, Value(digits) + 7));
    assert Atoll32(digits) == Value(digits);
    assert StepByte(cfg, m, cfg.soh) == m1;
    StepsOne(cfg, m, cfg.soh);
    StepsConcat(cfg, m, [cfg.soh], rest);
    CopyLast(cfg, m1, rest);
  }

  lemma ShortLength(n: nat)
    requires n < U32
    ensures |Digits(n)| <= 10
  {
    PowersOfTen();
    DigitsLength(n, 10);
  }

  /** The bytes of a message as its receiver reads them. */
  lemma Parts(cfg: Framing.Config, o: Outgoing, n: nat) returns (digits: string, body: string, sum: string)
    requires IsPartial(cfg.soh, o.partial)
    ensures digits == LengthField(cfg, o, n) && body == Body(cfg.soh, o.msgType, o.partial, n)
    ensures Consistent(cfg.begin, cfg.soh, Bytes(cfg, o, n), digits, body, sum)
    ensures |Bytes(cfg, o, n)| == |cfg.begin| + |digits| + |body| + 8
    ensures sum == Padded(Checksum(cfg.begin + digits + [cfg.soh] + body), 3)
  {
    CompleteIsConsistent(cfg.begin, cfg.soh, o.msgType, o.partial, n);
    body, digits := Body(cfg.soh, o.msgType, o.partial, n), LengthField(cfg, o, n);
    sum := Padded(Checksum(cfg.begin + digits + [cfg.soh] + body), 3);
  }

  lemma ConsistentChecksumMatches(start: string, soh: char, msg: string, digits: string, body: string, sum: string)
    requires Consistent(start, soh, msg, digits, body, sum)
    requires sum == Padded(Checksum(start + digits + [soh] + body), 3)
    ensures 7 <= |msg| && ChecksumMatches(msg)
  {
    var summed := start + digits + [soh] + body;
    assert msg == summed + "10=" + sum + [soh];
    assert msg[..|msg| - 7] == summed;
    assert msg[|msg| - 4..|msg| - 1] == sum;
  }

  /** Begin string, length, body and checksum field in sequence. */
  lemma ConsistentIsFramed(cfg: Framing.Config, m: Machine, msg: string, digits: string, body: string, sum: string)
    requires Framing.ValidConfig(cfg) && !IsDigit(cfg.soh) && m.mode == FindingBeginString(0) && !m.erange
    requires Consistent(cfg.begin, cfg.soh, msg, digits, body, sum)
    requires sum == Padded(Checksum(cfg.begin + digits + [cfg.soh] + body), 3)
    requires 1 <= |digits| < LENGTH_LIMIT && |cfg.begin| + |digits| + |body| + 8 < U32
    ensures 7 <= |msg| && TypeOffset(cfg, digits) < |msg| && ChecksumMatches(msg)
    ensures Steps(cfg, m, msg) == EndMessage(cfg, m, digits, msg)
  {
    hide Steps, Judge, ChecksumMatches, Checksum, Padded;
    ConsistentChecksumMatches(cfg.begin, cfg.soh, msg, digits, body, sum);
    var rest, x := body + "10=" + sum + [cfg.soh], cfg.begin + digits + [cfg.soh];
    Assoc(x, body, "10=");
    Assoc(x, body + "10=", sum);
    Assoc(x, body + "10=" + sum, [cfg.soh]);
    Assoc(cfg.begin + digits, [cfg.soh], rest);
    PrologueIsFramed(cfg, m, digits);
    var m1 := m.(mode := FindingBodyLength(digits));
    BodyIsFramed(cfg, m1, digits, rest);
    StepsConcat(cfg, m, cfg.begin + digits, [cfg.soh] + rest);
  }

  // ---------------------------------------------------------------- judgement of one message

  /** Fields 8, 9 and 35 of a message. */
  function Front(cfg: Framing.Config, digits: string, msgType: string): (s: string) {
    cfg.begin + digits + [cfg.soh] + "35=" + msgType
  }

  /** The message: fields 8, 9 and 35, then field 34, then the rest. */
  lemma Layout(cfg: Framing.Config, o: Outgoing, n: nat) returns (rest: string)
    requires IsPartial(cfg.soh, o.partial)
    ensures Bytes(cfg, o, n)
            == Front(cfg, LengthField(cfg, o, n), o.msgType) + [cfg.soh] + "34=" + Digits(n) + [cfg.soh] + rest
  {
    hide Checksum, Padded;
    var header := Header(cfg.begin, cfg.soh, o.msgType, o.partial, n);
    assert |Body(cfg.soh, o.msgType, o.partial, n)| == BodyLength(o.msgType, o.partial, n);
    var front := header + [cfg.soh] + o.partial[1..];
    var tail := Padded(Checksum(front[..|front| - 3]), 3);
    rest := o.partial[1..] + (tail + [cfg.soh]);
    Assoc(front, tail, [cfg.soh]);
    Assoc(header + [cfg.soh], o.partial[1..], tail + [cfg.soh]);
  }

  lemma {:induction false} FindFirst(msg: string, pat: string, i: nat, k: nat)
    requires i <= k < |msg| && Occurs(msg, pat, k)
    requires forall p :: i <= p < k ==> !Occurs(msg, pat, p)
    ensures Find(msg, pat, i) == k
    decreases k - i
  {
    if i < k {
      FindFirst(msg, pat, i + 1, k);
    }
  }

  /** In front of field 34, soh stands only before fields 9 and 35. */
  lemma NoEarlierField34(version: string, soh: char, digits: string, msgType: string, p: nat)
    requires ValidVersion(version, soh) && AllDigits(digits) && soh !in msgType
    requires p < |FixStart(version, soh) + digits + [soh] + "35=" + msgType|
    ensures var front := FixStart(version, soh) + digits + [soh] + "35=" + msgType;
            front[p] == soh ==> p + 2 < |front| && (front[p + 1] != '3' || front[p + 2] != '4')
  {
    var h := FixStart(version, soh);
    var front := h + digits + [soh] + "35=" + msgType;
    if p < |h| {
      assert front[p] == h[p];
      if p == |h| - 3 {
        assert front[p + 1] == '9';
      } else if 2 <= p < |h| - 3 {
        assert h[p] == version[p - 2];
      }
    } else if p < |h| + |digits| {
      assert front[p] == digits[p - |h|];
    } else if p == |h| + |digits| {
      assert front[p + 2] == '5';
    } else if |h| + |digits| + 4 <= p {
      assert front[p] == msgType[p - |h| - |digits| - 4];
    }
  }

  lemma NotAt34(msg: string, soh: char, p: nat)
    requires p + 2 < |msg| && (msg[p] != soh || msg[p + 1] != '3' || msg[p + 2] != '4')
    ensures !Occurs(msg, [soh] + "34=", p)
  {
    if p + 4 <= |msg| {
      var at := msg[p..p + 4];
      assert at[0] == msg[p] && at[1] == msg[p + 1] && at[2] == msg[p + 2];
    }
  }

  /** Field 34 with these digits, ended by byte c, is found right behind `front`. */
  ghost predicate NumberIs(soh: char, msg: string, front: string, n: nat, c: char) {
    && HasNumber(soh, msg) && NumberAt(soh, msg) == |front| + 4
    && NumberEnd(soh, msg) == |front| + 4 + |Digits(n)| < |msg|
    && msg[NumberEnd(soh, msg)] == c
    && NumberRead(soh, msg) == n
  }

  /** If the tag of field 34 does not start inside `front`, it is found right behind it. */
  lemma NumberBehind(soh: char, front: string, n: nat, c: char, rest: string)
    requires !IsDigit(soh) && !IsDigit(c)
    requires forall p :: 0 <= p < |front| && front[p] == soh ==>
               p + 2 < |front| && (front[p + 1] != '3' || front[p + 2] != '4')
    ensures NumberIs(soh, front + [soh] + "34=" + Digits(n) + [c] + rest, front, n, c)
  {
    var pat, digits := [soh] + "34=", Digits(n);
    var msg := front + [soh] + "34=" + digits + [c] + rest;
    Assoc(front, [soh], "34=");
    assert msg == front + pat + digits + [c] + rest;
    forall p | 0 <= p < |front|
      ensures !Occurs(msg, pat, p)
    {
      NotAt34(msg, soh, p);
      assert msg[p] == front[p];
    }
    FindFirst(msg, pat, 0, |front|);
    var at, end := |front| + 4, |front| + 4 + |digits|;
    assert msg[at..end] == digits && msg[end] == c;
    assert forall k :: at <= k < end ==> msg[k] == digits[k - at];
    DigitsEndIs(soh, msg, at, end);
    ValueOfDigits(n);
  }

  lemma NumberIsFound(version: string, soh: char, isSession: string -> bool, digits: string, msgType: string, n: nat,
                      c: char, rest: string)
    requires ValidVersion(version, soh) && AllDigits(digits) && soh !in msgType && !IsDigit(c)
    ensures var front := Front(ConfigFor(version, soh, isSession), digits, msgType);
            NumberIs(soh, front + [soh] + "34=" + Digits(n) + [c] + rest, front, n, c)
  {
    var front := Front(ConfigFor(version, soh, isSession), digits, msgType);
    forall p | 0 <= p < |front| && front[p] == soh
      ensures p + 2 < |front| && (front[p + 1] != '3' || front[p + 2] != '4')
    {
      NoEarlierField34(version, soh, digits, msgType, p);
    }
    NumberBehind(soh, front, n, c, rest);
  }

  /** Reading a number that ends with soh changes nothing. */
  lemma NumberLeavesMessage(soh: char, msg: string, front: string, n: nat)
    requires NumberIs(soh, msg, front, n, soh)
    ensures Restored(soh, msg) == msg && !NumberRunsOff(soh, msg)
    ensures n < U64 - 1 ==> SequenceNumber(soh, msg) == n && !NumberOverflows(soh, msg)
  {
  }

  /** The nonempty type at that offset of the message, ended by soh. */
  predicate TypeIs(cfg: Framing.Config, msg: string, offset: nat, msgType: string) {
    && offset < |msg| && offset < IndexFrom(cfg.soh, msg, offset) < |msg|
    && msg[offset..IndexFrom(cfg.soh, msg, offset)] == msgType
  }

  /** The type is where the splitter looks for it. */
  lemma TypeIsFound(cfg: Framing.Config, digits: string, msgType: string, after: string)
    requires msgType != [] && cfg.soh !in msgType
    ensures TypeIs(cfg, Front(cfg, digits, msgType) + [cfg.soh] + after, TypeOffset(cfg, digits), msgType)
  {
    var before := cfg.begin + digits + [cfg.soh] + "35=";
    var msg, i, k := before + msgType + [cfg.soh] + after, |before|, |before| + |msgType|;
    assert msg[i..k] == msgType && msg[k] == cfg.soh;
    assert forall j :: i <= j < k ==> msg[j] == msgType[j - i] != cfg.soh;
    IndexFromIs(cfg.soh, msg, i, k);
  }

  /** The verdict on a message with a right checksum, number n and a type. */
  ghost predicate Verdict(cfg: Framing.Config, m: Machine, offset: nat, received: string, msg: string, msgType: string,
                          n: nat, m': Machine)
  {
    if n != m.expected + 1 then m' == m.(events := m.events + [ResendRequested(m.expected)])
    else if cfg.isSession(msgType) && ECHO_MAX_DATA_SIZE < |received| then m' == m.(events := m.events + [Oversized(n)])
    else
      m' == m.(expected := n,
               events := m.events + [Delivered(if cfg.isSession(msgType) then Echo else Delta, msg, offset, n)])
  }

  lemma MessageEnds(cfg: Framing.Config, m: Machine, digits: string, msg: string, msgType: string, n: nat)
    requires n < U64 - 1 && m.expected < U64 - 1 && m.mode == FindingBeginString(0) && !m.erange
    requires 7 <= |msg| && ChecksumMatches(msg)
    requires !NumberRunsOff(cfg.soh, msg) && !NumberOverflows(cfg.soh, msg) && SequenceNumber(cfg.soh, msg) == n
    requires TypeIs(cfg, Restored(cfg.soh, msg), TypeOffset(cfg, digits), msgType)
    ensures Verdict(cfg, m, TypeOffset(cfg, digits), msg, Restored(cfg.soh, msg), msgType, n, EndMessage(cfg, m, digits, msg))
  {
    hide ChecksumMatches, SequenceNumber, NumberRunsOff, NumberOverflows, Restored;
  }

  /** Number and type of a completed message are where the splitter looks for them. */
  lemma NumberAndType(version: string, soh: char, isSession: string -> bool, o: Outgoing, n: nat)
    requires ValidVersion(version, soh) && n < U64 - 1
    requires IsPartial(soh, o.partial) && o.msgType != [] && soh !in o.msgType
    ensures var cfg := ConfigFor(version, soh, isSession);
            var msg := Bytes(cfg, o, n);
            && SequenceNumber(soh, msg) == n && !NumberRunsOff(soh, msg) && !NumberOverflows(soh, msg)
            && Restored(soh, msg) == msg
            && TypeIs(cfg, msg, TypeOffset(cfg, LengthField(cfg, o, n)), o.msgType)
  {
    hide NumberIs, SequenceNumber, NumberRunsOff, NumberOverflows, Restored, TypeIs, Bytes;
    var cfg := ConfigFor(version, soh, isSession);
    var rest := Layout(cfg, o, n);
    var digits := LengthField(cfg, o, n);
    var front := Front(cfg, digits, o.msgType);
    NumberIsFound(version, soh, isSession, digits, o.msgType, n, soh, rest);
    NumberLeavesMessage(soh, Bytes(cfg, o, n), front, n);
    Assoc(front + [soh], "34=", Digits(n));
    Assoc(front + [soh], "34=" + Digits(n), [soh]);
    Assoc(front + [soh], "34=" + Digits(n) + [soh], rest);
    TypeIsFound(cfg, digits, o.msgType, "34=" + Digits(n) + [soh] + rest);
  }

  lemma ConfigForIsValid(version: string, soh: char, isSession: string -> bool)
    requires ValidVersion(version, soh) && |version| <= 26
    ensures Framing.ValidConfig(ConfigFor(version, soh, isSession))
  {
  }

  /**
   What one completed message does to a splitter that has accepted numbers up to m.expected: it is
   delivered if and only if it has the next number and fits, and nothing is accepted otherwise.
   */
  lemma OneMessageRoundTrip(version: string, soh: char, isSession: string -> bool, m: Machine, o: Outgoing, n: nat)
    requires ValidVersion(version, soh) && |version| <= 26 && n < U64 - 1
    requires Sendable(ConfigFor(version, soh, isSession), o, n)
    requires m.mode == FindingBeginString(0) && !m.erange && m.expected < U64 - 1
    ensures var cfg := ConfigFor(version, soh, isSession);
            Steps(cfg, m, Bytes(cfg, o, n))
            == m.(expected := if n == m.expected + 1 && Fits(cfg, o, n) then n else m.expected,
                  events := m.events + [Reception(cfg, o, n, m.expected)])
  {
    hide Consistent, TypeIs, SequenceNumber, NumberRunsOff, NumberOverflows, Restored;
    hide Steps, FixStart, Complete, Checksum, ChecksumMatches, EndMessage;
    var cfg := ConfigFor(version, soh, isSession);
    ConfigForIsValid(version, soh, isSession);
    NumberAndType(version, soh, isSession, o, n);
    var digits, body, sum := Parts(cfg, o, n);
    ShortLength(|body|);
    ConsistentIsFramed(cfg, m, Bytes(cfg, o, n), digits, body, sum);
    MessageEnds(cfg, m, digits, Bytes(cfg, o, n), o.msgType, n);
  }

  /** Whatever push accepts, on alfa or bravo, is a message that can be sent and framed. */
  lemma AcceptedIsSendable(cfg: Framing.Config, o: Outgoing, n: nat)
    requires |cfg.begin| < FIX_START_SIZE && n < U64
    requires IsPartial(cfg.soh, o.partial) && o.msgType != [] && cfg.soh !in o.msgType
    requires |o.msgType| + 1 <= MSG_TYPE_MAX_LENGTH && |o.partial| + 98 < U32
    ensures Sendable(cfg, o, n)
    ensures Admits(CHARLIE_ENTRY_SIZE, |o.partial|) ==> Fits(cfg, o, n)
    ensures |o.partial| <= 406 ==> Fits(cfg, o, n)
    ensures cfg.isSession(o.msgType) && ECHO_MAX_DATA_SIZE < |o.partial| ==> !Fits(cfg, o, n)
  {
    assert Primitives.Pow256(4) == U32;
    PrefixFits(cfg.begin, cfg.soh, o.msgType, o.partial, n);
  }

  // ---------------------------------------------------------------- whole streams

  /**
   For every list of partial messages and types: completed with consecutive numbers and concatenated,
   they cause one event each, and the splitter ends up waiting for the first one that did not fit, or
   for the one after the last.
   */
  lemma {:induction false} PushPopRoundTrip(version: string, soh: char, isSession: string -> bool,
                                            n0: nat, msgs: seq<Outgoing>)
    requires ValidVersion(version, soh) && |version| <= 26
    requires AllSendable(ConfigFor(version, soh, isSession), n0, msgs) && n0 + |msgs| < U64 - 1
    ensures var cfg := ConfigFor(version, soh, isSession);
            Steps(cfg, Start(n0), Stream(cfg, n0, msgs))
            == Machine(FindingBeginString(0), n0 + Fitting(cfg, n0, msgs), false, Events(cfg, n0, msgs))
    decreases |msgs|
  {
    hide Complete, FixStart, ValidVersion, Steps, Bytes, Reception, IsPartial, Fits;
    var cfg := ConfigFor(version, soh, isSession);
    if msgs == [] {
      StepsNone(cfg, Start(n0));
    } else {
      var k := |msgs| - 1;
      var before := msgs[..k];
      assert Sendable(cfg, msgs[k], n0 + 1 + k);
      PushPopRoundTrip(version, soh, isSession, n0, before);
      var m := Machine(FindingBeginString(0), n0 + Fitting(cfg, n0, before), false, Events(cfg, n0, before));
      StepsConcat(cfg, Start(n0), Stream(cfg, n0, before), Bytes(cfg, msgs[k], n0 + 1 + k));
      OneMessageRoundTrip(version, soh, isSession, m, msgs[k], n0 + 1 + k);
    }
  }

  /** Fitting is what its name says. */
  lemma {:induction false} FittingAt(cfg: Framing.Config, n0: nat, msgs: seq<Outgoing>, i: nat)
    requires AllSendable(cfg, n0, msgs) && i < |msgs|
    ensures IsPartial(cfg.soh, msgs[i].partial)
    ensures i < Fitting(cfg, n0, msgs) ==> Fits(cfg, msgs[i], n0 + 1 + i)
    ensures i == Fitting(cfg, n0, msgs) ==> !Fits(cfg, msgs[i], n0 + 1 + i)
    decreases |msgs|
  {
    hide Fits, Bytes, IsPartial;
    assert Sendable(cfg, msgs[i], n0 + 1 + i);
    var k := |msgs| - 1;
    if i < k {
      FittingAt(cfg, n0, msgs[..k], i);
    }
  }

  lemma {:induction false} FittingOfPrefix(cfg: Framing.Config, n0: nat, msgs: seq<Outgoing>, k: nat)
    requires AllSendable(cfg, n0, msgs) && k <= |msgs|
    ensures var l := Fitting(cfg, n0, msgs);
            Fitting(cfg, n0, msgs[..k]) == if l < k then l else k
    decreases |msgs|
  {
    hide Fits, Bytes, IsPartial;
    var n := |msgs| - 1;
    if k == |msgs| {
      assert msgs[..k] == msgs;
    } else {
      FittingOfPrefix(cfg, n0, msgs[..n], k);
      assert msgs[..n][..k] == msgs[..k];
    }
  }

  /**
   What becomes of the i-th message: delivered as it was sent before the first one that does not fit;
   dropped as oversized if it is that one; and from then on every message only draws a resend request.
   */
  lemma {:induction false} EventAt(cfg: Framing.Config, n0: nat, msgs: seq<Outgoing>, i: nat)
    requires AllSendable(cfg, n0, msgs) && i < |msgs|
    ensures IsPartial(cfg.soh, msgs[i].partial)
    ensures var l := Fitting(cfg, n0, msgs);
            Events(cfg, n0, msgs)[i]
            == if i < l then Arrival(cfg, msgs[i], n0 + 1 + i)
               else if i == l then Oversized(n0 + 1 + i)
               else ResendRequested(n0 + l)
    decreases |msgs|
  {
    hide Fits, Arrival, IsPartial, Bytes;
    assert Sendable(cfg, msgs[i], n0 + 1 + i);
    var k := |msgs| - 1;
    FittingOfPrefix(cfg, n0, msgs, k);
    if i < k {
      EventAt(cfg, n0, msgs[..k], i);
      assert Events(cfg, n0, msgs)[i] == Events(cfg, n0, msgs[..k])[i];
    } else {
      FittingAt(cfg, n0, msgs, i);
    }
  }

  /** A message is delivered if and only if it and all before it fit. */
  lemma DeliveredIffAllFit(cfg: Framing.Config, n0: nat, msgs: seq<Outgoing>, i: nat)
    requires AllSendable(cfg, n0, msgs) && i < |msgs|
    ensures forall j :: 0 <= j < |msgs| ==> IsPartial(cfg.soh, msgs[j].partial)
    ensures Events(cfg, n0, msgs)[i].Delivered?
            <==> forall j :: 0 <= j <= i ==> Fits(cfg, msgs[j], n0 + 1 + j)
  {
    hide Fits, Bytes, IsPartial;
    EventAt(cfg, n0, msgs, i);
    forall j | 0 <= j < |msgs|
      ensures IsPartial(cfg.soh, msgs[j].partial)
      ensures j < Fitting(cfg, n0, msgs) ==> Fits(cfg, msgs[j], n0 + 1 + j)
      ensures j == Fitting(cfg, n0, msgs) ==> !Fits(cfg, msgs[j], n0 + 1 + j)
    {
      FittingAt(cfg, n0, msgs, j);
    }
    var l := Fitting(cfg, n0, msgs);
    if l <= i {
      assert !Fits(cfg, msgs[l], n0 + 1 + l);
    }
  }

  /** One message that does not fit takes the next one with it. */
  lemma LostTogether(version: string, soh: char, isSession: string -> bool, o: Outgoing, later: Outgoing)
    requires ValidVersion(version, soh) && |version| <= 26
    requires Sendable(ConfigFor(version, soh, isSession), o, 1) && !Fits(ConfigFor(version, soh, isSession), o, 1)
    requires Sendable(ConfigFor(version, soh, isSession), later, 2)
    ensures var cfg := ConfigFor(version, soh, isSession);
            && AllSendable(cfg, 0, [o, later])
            && Steps(cfg, Start(0), Stream(cfg, 0, [o, later]))
               == Start(0).(events := [Oversized(1), ResendRequested(0)])
  {
    hide Sendable, Fits, Bytes, Steps, ConfigFor, Stream, Events, ValidVersion;
    var cfg, msgs := ConfigFor(version, soh, isSession), [o, later];
    PushPopRoundTrip(version, soh, isSession, 0, msgs);
    assert Fitting(cfg, 0, msgs) == 0 by {
      FittingAt(cfg, 0, msgs, 0);
    }
    EventAt(cfg, 0, msgs, 0);
    EventAt(cfg, 0, msgs, 1);
    assert Events(cfg, 0, msgs) == [Oversized(1), ResendRequested(0)];
  }

  /** A text field of n bytes as a partial message. */
  function LongText(soh: char, n: nat): (s: string)
    ensures |s| == n + 8 && IsPartial(soh, s)
  {
    var s := [soh] + "58=" + seq(n, _ => 'x') + [soh] + "10=";
    assert s[|s| - 4..] == [soh] + "10=";
    s
  }

  /**
   A session message of 600 bytes is accepted by push, on alfa, and lost; and so is whatever is sent
   after it. XMLnonFIX ("n") is such a type, and push does not look at types.
   */
  lemma LongSessionMessageIsLost(version: string, soh: char, isSession: string -> bool, later: Outgoing)
    requires ValidVersion(version, soh) && |version| <= 26 && soh != 'n' && isSession("n")
    requires Sendable(ConfigFor(version, soh, isSession), later, 2)
    ensures var cfg, o := ConfigFor(version, soh, isSession), Outgoing("n", LongText(soh, 592));
            && Admits(ALFA_ENTRY_SIZE, |o.partial|) && AllSendable(cfg, 0, [o, later])
            && Steps(cfg, Start(0), Stream(cfg, 0, [o, later]))
               == Start(0).(events := [Oversized(1), ResendRequested(0)])
  {
    var cfg, o := ConfigFor(version, soh, isSession), Outgoing("n", LongText(soh, 592));
    hide LongText, Bytes, Steps, FixStart, IsPartial, Stream;
    assert |FixStart(version, soh)| == |version| + 5 by { StartLength(version, soh); }
    AcceptedIsSendable(cfg, o, 1);
    LostTogether(version, soh, isSession, o, later);
  }

  lemma StartLength(version: string, soh: char)
    ensures |FixStart(version, soh)| == |version| + 5
  {
  }
}
