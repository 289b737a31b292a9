/**
 What the splitter does with messages it refuses: one event or none, and then it looks for the next begin
 string with the number it expected before.
 */
module Resync {
  import opened Text
  import opened Decimal
  import opened Completion
  import opened Framing
  import opened SequenceGate
  import opened HeaderScan
  import opened RoundTrip
  import AlteredNumber

  /** A machine between two messages. */
  predicate Looking(m: Machine) {
    m.mode == FindingBeginString(0) && !m.erange
  }

  /** A declared length that is taken as it is, and as many bytes as it says. */
  ghost predicate WholeMessage(cfg: Framing.Config, digits: string, rest: string) {
    && Framing.ValidConfig(cfg) && !IsDigit(cfg.soh)
    && AllDigits(digits) && 1 <= |digits| <= 20 && 1 <= Value(digits)
    && |rest| == Value(digits) + 7 && |cfg.begin| + |digits| + 1 + |rest| < U32
  }

  function Message(cfg: Framing.Config, digits: string, rest: string): (msg: string)
    ensures |msg| == |cfg.begin| + |digits| + 1 + |rest|
  {
    cfg.begin + digits + [cfg.soh] + rest
  }

  lemma WholeMessageEnds(cfg: Framing.Config, m: Machine, digits: string, rest: string)
    requires WholeMessage(cfg, digits, rest) && Looking(m)
    ensures Steps(cfg, m, Message(cfg, digits, rest)) == EndMessage(cfg, m, digits, Message(cfg, digits, rest))
  {
    hide Steps, Judge;
    PrologueIsFramed(cfg, m, digits);
    var m1 := m.(mode := FindingBodyLength(digits));
    BodyIsFramed(cfg, m1, digits, rest);
    Assoc(cfg.begin + digits, [cfg.soh], rest);
    StepsConcat(cfg, m, cfg.begin + digits, [cfg.soh] + rest);
  }

  // ---------------------------------------------------------------- refused messages

  /** A wrong checksum: the message is dropped, and nothing else changes. */
  lemma BadChecksumIsDropped(cfg: Framing.Config, m: Machine, digits: string, rest: string)
    requires WholeMessage(cfg, digits, rest) && Looking(m)
    requires var msg := Message(cfg, digits, rest);
             msg[|msg| - 4..|msg| - 1] != Padded(Checksum(msg[..|msg| - 7]), 3)
    ensures Steps(cfg, m, Message(cfg, digits, rest)) == m.(events := m.events + [BadChecksum])
  {
    hide Steps, EndMessage, Checksum, Padded;
    WholeMessageEnds(cfg, m, digits, rest);
    DroppedEnds(cfg, m, digits, Message(cfg, digits, rest));
  }

  lemma DroppedEnds(cfg: Framing.Config, m: Machine, digits: string, msg: string)
    requires Looking(m) && 7 <= |msg| && !ChecksumMatches(msg)
    ensures EndMessage(cfg, m, digits, msg) == m.(events := m.events + [BadChecksum])
  {
    hide ChecksumMatches, TypeOffset, NumberRunsOff, SequenceNumber, NumberOverflows, Restored, Route;
  }

  /**
   A right checksum and another number than the next, or none: a resend request, and nothing else
   changes, but that a number of 2^64 or more leaves errno behind.
   */
  lemma WrongNumberIsRefused(cfg: Framing.Config, m: Machine, digits: string, rest: string)
    requires WholeMessage(cfg, digits, rest) && Looking(m) && m.expected < U64 - 1
    requires var msg := Message(cfg, digits, rest);
             && msg[|msg| - 4..|msg| - 1] == Padded(Checksum(msg[..|msg| - 7]), 3)
             && !NumberRunsOff(cfg.soh, msg) && SequenceNumber(cfg.soh, msg) != m.expected + 1
    ensures var msg := Message(cfg, digits, rest);
            Steps(cfg, m, msg)
            == m.(erange := HasNumber(cfg.soh, msg) && U64 <= NumberRead(cfg.soh, msg),
                  events := m.events + [ResendRequested(m.expected)])
  {
    hide Steps, EndMessage, Checksum, Padded, NumberRunsOff, SequenceNumber, HasNumber, NumberRead;
    WholeMessageEnds(cfg, m, digits, rest);
    RefusedEnds(cfg, m, digits, Message(cfg, digits, rest));
  }

  lemma RefusedEnds(cfg: Framing.Config, m: Machine, digits: string, msg: string)
    requires Looking(m) && m.expected < U64 - 1 && 7 <= |msg| && ChecksumMatches(msg)
    requires !NumberRunsOff(cfg.soh, msg) && SequenceNumber(cfg.soh, msg) != m.expected + 1
    ensures EndMessage(cfg, m, digits, msg)
            == m.(erange := NumberOverflows(cfg.soh, msg), events := m.events + [ResendRequested(m.expected)])
  {
    hide ChecksumMatches, TypeOffset, NumberRunsOff, SequenceNumber, NumberOverflows, Restored, Route;
  }

  /** An empty type: the message takes its number and is answered by a reject. */
  lemma EmptyTypeIsRejected(version: string, soh: char, isSession: string -> bool, m: Machine, n: nat, rest: string)
    requires ValidVersion(version, soh) && |version| <= 26 && Looking(m) && 1 <= n < U64 - 1 && m.expected == n - 1
    requires rest != [] && rest[|rest| - 1] == soh && |rest| + 100 < U32
    ensures var cfg := ConfigFor(version, soh, isSession);
            Steps(cfg, m, AlteredNumber.Framed(cfg, AlteredNumber.BodyWith(soh, "", n, soh, rest)))
            == m.(expected := n, events := m.events + [Rejected(n)])
  {
    var cfg, body := ConfigFor(version, soh, isSession), AlteredNumber.BodyWith(soh, "", n, soh, rest);
    var msg, digits := AlteredNumber.Framed(cfg, body), Digits(|body|);
    AlteredNumber.ConfigIs(version, soh, isSession);
    AlteredNumber.LastByte(soh, "", n, soh, rest);
    AlteredNumber.FramedIsConsistent(cfg, body);
    AlteredNumber.LengthsFit(n, |body|);
    hide Steps, Consistent, Checksum, ChecksumMatches, AlteredNumber.Framed, AlteredNumber.BodyWith, Digits, EndMessage;
    ConsistentIsFramed(cfg, m, msg, digits, body, Padded(Checksum(cfg.begin + digits + [soh] + body), 3));
    EmptyTypeIsSeen(version, soh, isSession, n, rest);
    RejectedEnds(cfg, m, digits, msg, n);
  }

  /** What the splitter finds in such a message. */
  lemma EmptyTypeIsSeen(version: string, soh: char, isSession: string -> bool, n: nat, rest: string)
    requires ValidVersion(version, soh) && n < U64 - 1
    ensures var cfg, body := ConfigFor(version, soh, isSession), AlteredNumber.BodyWith(soh, "", n, soh, rest);
            var msg, offset := AlteredNumber.Framed(cfg, body), TypeOffset(cfg, Digits(|body|));
            && offset < |msg| && msg[offset] == soh && Restored(soh, msg) == msg
            && SequenceNumber(soh, msg) == n && !NumberRunsOff(soh, msg) && !NumberOverflows(soh, msg)
  {
    hide AlteredNumber.BodyWith, AlteredNumber.Framed, Digits, FixStart;
    var cfg, body := ConfigFor(version, soh, isSession), AlteredNumber.BodyWith(soh, "", n, soh, rest);
    var digits := Digits(|body|);
    var front := Front(cfg, digits, "");
    var after := AlteredNumber.FramedLayout(cfg, "", n, soh, rest);
    NumberIsFound(version, soh, isSession, digits, "", n, soh, after);
    NumberLeavesMessage(soh, AlteredNumber.Framed(cfg, body), front, n);
  }

  lemma RejectedEnds(cfg: Framing.Config, m: Machine, digits: string, msg: string, n: nat)
    requires Looking(m) && 1 <= n < U64 - 1 && m.expected == n - 1
    requires 7 <= |msg| && ChecksumMatches(msg) && Restored(cfg.soh, msg) == msg
    requires !NumberRunsOff(cfg.soh, msg) && !NumberOverflows(cfg.soh, msg) && SequenceNumber(cfg.soh, msg) == n
    requires TypeOffset(cfg, digits) < |msg| && msg[TypeOffset(cfg, digits)] == cfg.soh
    ensures EndMessage(cfg, m, digits, msg) == m.(expected := n, events := m.events + [Rejected(n)])
  {
    hide ChecksumMatches, SequenceNumber, NumberRunsOff, NumberOverflows, Restored;
  }

  // ---------------------------------------------------------------- refused lengths

  lemma LengthIsReached(cfg: Framing.Config, m: Machine, digits: string, c: char)
    requires Framing.ValidConfig(cfg) && !IsDigit(cfg.soh) && Looking(m)
    requires AllDigits(digits) && 1 <= |digits| <= LENGTH_LIMIT
    ensures Steps(cfg, m, cfg.begin + digits + [c])
            == StepByte(cfg, m.(mode := FindingBodyLength(digits)), c)
  {
    PrologueIsFramed(cfg, m, digits);
    StepsConcat(cfg, m, cfg.begin + digits, [c]);
    StepsOne(cfg, m.(mode := FindingBodyLength(digits)), c);
  }

  /** A length with something else than digits in it, or with more than twenty digits, is skipped. */
  lemma BadLengthIsSkipped(cfg: Framing.Config, m: Machine, digits: string, c: char)
    requires Framing.ValidConfig(cfg) && !IsDigit(cfg.soh) && Looking(m)
    requires AllDigits(digits) && 1 <= |digits| <= 21
    requires (!IsDigit(c) && c != cfg.soh) || |digits| == 21
    ensures Steps(cfg, m, cfg.begin + digits + [c]) == m
  {
    LengthIsReached(cfg, m, digits, c);
    hide Steps;
  }

  /** A length whose low 32 bits are zero is skipped. */
  lemma ZeroLengthIsSkipped(cfg: Framing.Config, m: Machine, digits: string)
    requires Framing.ValidConfig(cfg) && !IsDigit(cfg.soh) && Looking(m)
    requires AllDigits(digits) && 1 <= |digits| <= 20
    requires Value(digits) <= LLONG_MAX && Value(digits) % U32 == 0
    ensures Steps(cfg, m, cfg.begin + digits + [cfg.soh]) == m
  {
    hide Steps, Value, EndMessage, CopyByte, LookAgain;
    LengthIsReached(cfg, m, digits, cfg.soh);
  }

  /** A length above LLONG_MAX is skipped, and leaves errno behind. */
  lemma HugeLengthSetsErange(cfg: Framing.Config, m: Machine, digits: string)
    requires Framing.ValidConfig(cfg) && !IsDigit(cfg.soh) && Looking(m)
    requires AllDigits(digits) && 1 <= |digits| <= 20 && LLONG_MAX < Value(digits)
    ensures Steps(cfg, m, cfg.begin + digits + [cfg.soh]) == m.(erange := true)
  {
    hide Steps, Value, EndMessage, CopyByte, LookAgain;
    LengthIsReached(cfg, m, digits, cfg.soh);
  }

  /** A length that does not fit the size field together with what surrounds it ends the splitting. */
  lemma TooLongHalts(cfg: Framing.Config, m: Machine, digits: string)
    requires Framing.ValidConfig(cfg) && !IsDigit(cfg.soh) && Looking(m)
    requires AllDigits(digits) && 1 <= |digits| <= 20 && Value(digits) <= LLONG_MAX
    requires var n := Value(digits) % U32; n != 0 && n + 8 < U32 <= |cfg.begin| + |digits| + n + 8
    ensures Steps(cfg, m, cfg.begin + digits + [cfg.soh]) == m.(mode := Halted)
  {
    hide Steps, Value, EndMessage, CopyByte, LookAgain;
    LengthIsReached(cfg, m, digits, cfg.soh);
  }

  /**
   With a length of 2^32 - 8 the number of bytes to copy wraps to zero. The message is over before its
   first byte, and unless its last digits happen to be its checksum it is dropped; the soh behind the
   length counts as the first byte after it.
   */
  lemma WrappedLengthEndsAtOnce(cfg: Framing.Config, m: Machine, digits: string)
    requires Framing.ValidConfig(cfg) && !IsDigit(cfg.soh) && Looking(m)
    requires AllDigits(digits) && 1 <= |digits| <= 20 && Value(digits) <= LLONG_MAX && Value(digits) % U32 == 4_294_967_288
    requires var msg := cfg.begin + digits;
             7 <= |msg| && msg[|msg| - 4..|msg| - 1] != Padded(Checksum(msg[..|msg| - 7]), 3)
    ensures Steps(cfg, m, cfg.begin + digits + [cfg.soh])
            == m.(mode := FindingBeginString(if cfg.begin[0] == cfg.soh then 1 else 0), events := m.events + [BadChecksum])
  {
    hide Steps, Value, EndMessage, CopyByte, Checksum, Padded;
    LengthIsReached(cfg, m, digits, cfg.soh);
    var m1 := m.(mode := FindingBodyLength(digits));
    EndIgnoresMode(cfg, m1, m, digits, cfg.begin + digits);
    DroppedEnds(cfg, m, digits, cfg.begin + digits);
  }

  /** And with errno left at ERANGE, between messages, no event ever comes again, whatever arrives. */
  lemma {:induction false} ErangeIsForGood(cfg: Framing.Config, m: Machine, stream: string)
    requires m.erange && !m.mode.CopyingBody?
    ensures var m' := Steps(cfg, m, stream);
            m' == m.(mode := m'.mode) && !m'.mode.CopyingBody?
    decreases |stream|
  {
    if stream != [] {
      ErangeIsForGood(cfg, m, stream[..|stream| - 1]);
    }
  }

  // ---------------------------------------------------------------- and then the next message

  /**
   After whatever was refused with some events and no number taken, the next good message is delivered
   as if nothing had been there.
   */
  lemma NextIsDelivered(version: string, soh: char, isSession: string -> bool, m: Machine, refused: string,
                        events: seq<Event>, o: Outgoing, n: nat)
    requires ValidVersion(version, soh) && |version| <= 26 && Looking(m) && 1 <= n < U64 - 1 && m.expected == n - 1
    requires Steps(ConfigFor(version, soh, isSession), m, refused) == m.(events := m.events + events)
    requires Sendable(ConfigFor(version, soh, isSession), o, n) && Fits(ConfigFor(version, soh, isSession), o, n)
    ensures var cfg := ConfigFor(version, soh, isSession);
            Steps(cfg, m, refused + Bytes(cfg, o, n))
            == m.(expected := n, events := m.events + events + [Arrival(cfg, o, n)])
  {
    hide Steps, Bytes, Fits, Arrival, ValidVersion, ConfigFor;
    var cfg := ConfigFor(version, soh, isSession);
    StepsConcat(cfg, m, refused, Bytes(cfg, o, n));
    OneMessageRoundTrip(version, soh, isSession, m.(events := m.events + events), o, n);
  }

  /** In particular a message with a wrong checksum costs only itself. */
  lemma BadThenGood(version: string, soh: char, isSession: string -> bool, m: Machine, digits: string, rest: string,
                    o: Outgoing, n: nat)
    requires ValidVersion(version, soh) && |version| <= 26 && Looking(m) && 1 <= n < U64 - 1 && m.expected == n - 1
    requires WholeMessage(ConfigFor(version, soh, isSession), digits, rest)
    requires var msg := Message(ConfigFor(version, soh, isSession), digits, rest);
             msg[|msg| - 4..|msg| - 1] != Padded(Checksum(msg[..|msg| - 7]), 3)
    requires Sendable(ConfigFor(version, soh, isSession), o, n) && Fits(ConfigFor(version, soh, isSession), o, n)
    ensures var cfg := ConfigFor(version, soh, isSession);
            Steps(cfg, m, Message(cfg, digits, rest) + Bytes(cfg, o, n))
            == m.(expected := n, events := m.events + [BadChecksum] + [Arrival(cfg, o, n)])
  {
    hide Steps, Bytes, Fits, Arrival, ValidVersion, ConfigFor, Message;
    var cfg := ConfigFor(version, soh, isSession);
    BadChecksumIsDropped(cfg, m, digits, rest);
    NextIsDelivered(version, soh, isSession, m, Message(cfg, digits, rest), [BadChecksum], o, n);
  }

  /** "10=000" where 161 is right: dropped. */
  lemma HeartbeatWithWrongSum(isSession: string -> bool, m: Machine)
    requires Looking(m)
    ensures var soh: char := 1 as char;
            var cfg := ConfigFor("FIX.4.2", soh, isSession);
            Steps(cfg, m, cfg.begin + "5" + [soh] + ("35=0" + [soh] + "10=000" + [soh]))
            == m.(events := m.events + [BadChecksum])
  {
    var soh: char := 1 as char;
    var cfg, rest := ConfigFor("FIX.4.2", soh, isSession), "35=0" + [soh] + "10=000" + [soh];
    var msg := Message(cfg, "5", rest);
    HeartbeatChecksum();
    assert msg[..|msg| - 7] == "8=FIX.4.2" + [soh] + "9=5" + [soh] + "35=0" + [soh];
    assert msg[|msg| - 4..|msg| - 1] == "000" == Padded(0, 3) by { assert Padded(0, 0) == ""; }
    PaddedInjective(0, 161);
    assert Value("5") == 5 by { assert "5"[..0] == ""; }
    BadChecksumIsDropped(cfg, m, "5", rest);
  }
}
