/**
 A message whose number is followed by something else than soh. get_sequence_number accepts it, and the
 message is delivered with that byte overwritten and with a checksum that is no longer its own.
 */
module AlteredNumber {
  import opened Text
  import opened Decimal
  import opened Completion
  import opened Framing
  import opened SequenceGate
  import opened HeaderScan
  import opened RoundTrip

  /** A body with type, number, byte c behind the number, and the rest. */
  function BodyWith(soh: char, msgType: string, n: nat, c: char, rest: string): (s: string)
    ensures |s| == |msgType| + |Digits(n)| + |rest| + 8
  {
    "35=" + msgType + [soh] + "34=" + Digits(n) + [c] + rest
  }

  /** That body in a message with its length and its checksum. */
  function Framed(cfg: Framing.Config, body: string): (s: string)
    ensures |s| == |cfg.begin| + |Digits(|body|)| + |body| + 8
  {
    var front := cfg.begin + Digits(|body|) + [cfg.soh] + body;
    front + "10=" + Padded(Checksum(front), 3) + [cfg.soh]
  }

  /** Where byte c stands in it. */
  function ByteAt(cfg: Framing.Config, body: string, msgType: string, n: nat): (i: nat) {
    |cfg.begin| + |Digits(|body|)| + |msgType| + |Digits(n)| + 8
  }

  lemma FramedIsConsistent(cfg: Framing.Config, body: string)
    requires body != [] && body[|body| - 1] == cfg.soh
    ensures var sum := Padded(Checksum(cfg.begin + Digits(|body|) + [cfg.soh] + body), 3);
            Consistent(cfg.begin, cfg.soh, Framed(cfg, body), Digits(|body|), body, sum)
  {
    hide Checksum;
    var front := cfg.begin + Digits(|body|) + [cfg.soh] + body;
    ValueOfDigits(|body|);
    PowersOfTen();
    PaddedFits(Checksum(front), 3);
  }

  /** The message as front, number, byte and what follows. */
  lemma FramedLayout(cfg: Framing.Config, msgType: string, n: nat, c: char, rest: string) returns (after: string)
    ensures var body := BodyWith(cfg.soh, msgType, n, c, rest);
            && Framed(cfg, body)
               == Front(cfg, Digits(|body|), msgType) + [cfg.soh] + "34=" + Digits(n) + [c] + after
            && |Front(cfg, Digits(|body|), msgType)| + 4 + |Digits(n)| == ByteAt(cfg, body, msgType, n)
  {
    hide Checksum, Digits, Padded;
    var soh, body, d := [cfg.soh], BodyWith(cfg.soh, msgType, n, c, rest), Digits(n);
    var x := cfg.begin + Digits(|body|) + soh;
    var tail := Padded(Checksum(x + body), 3) + soh;
    after := rest + ("10=" + tail);
    Assoc(x + body + "10=", Padded(Checksum(x + body), 3), soh);
    Assoc(x + body, "10=", tail);
    BodyRegrouped(x, msgType, soh, d, [c], rest);
    Assoc(x + "35=" + msgType + soh + "34=" + d + [c], rest, "10=" + tail);
  }

  lemma BodyRegrouped(x: string, t: string, s: string, d: string, c: string, rest: string)
    ensures x + ("35=" + t + s + "34=" + d + c + rest) == x + "35=" + t + s + "34=" + d + c + rest
  {
    Assoc(x, "35=", t);
    Assoc(x, "35=" + t, s);
    Assoc(x, "35=" + t + s, "34=");
    Assoc(x, "35=" + t + s + "34=", d);
    Assoc(x, "35=" + t + s + "34=" + d, c);
    Assoc(x, "35=" + t + s + "34=" + d + c, rest);
  }

  /** What the splitter reads from the message, and what reading leaves behind. */
  lemma ByteIsOverwritten(version: string, soh: char, isSession: string -> bool, msgType: string, n: nat, c: char, rest: string)
    requires ValidVersion(version, soh) && n < U64 - 1 && msgType != [] && soh !in msgType && !IsDigit(c)
    ensures var cfg, body := ConfigFor(version, soh, isSession), BodyWith(soh, msgType, n, c, rest);
            var msg, i := Framed(cfg, body), ByteAt(cfg, body, msgType, n);
            && i < |msg| && msg[i] == c && HasNumber(soh, msg) && NumberEnd(soh, msg) == i
            && Restored(soh, msg) == msg[i := soh] && SequenceNumber(soh, msg) == n
            && !NumberRunsOff(soh, msg) && !NumberOverflows(soh, msg)
            && TypeIs(cfg, msg[i := soh], TypeOffset(cfg, Digits(|body|)), msgType)
  {
    hide BodyWith, Framed, TypeIs, Digits, FixStart, ValidVersion;
    var cfg, body := ConfigFor(version, soh, isSession), BodyWith(soh, msgType, n, c, rest);
    var front, i := Front(cfg, Digits(|body|), msgType), ByteAt(cfg, body, msgType, n);
    var after := FramedLayout(cfg, msgType, n, c, rest);
    NumberIsFound(version, soh, isSession, Digits(|body|), msgType, n, c, after);
    var before := front + [soh] + "34=" + Digits(n);
    assert Framed(cfg, body)[i := soh] == before + [soh] + after;
    var behind := "34=" + Digits(n) + ([soh] + after);
    Assoc(before, [soh], after);
    Assoc(front + [soh], "34=", Digits(n));
    Assoc(front + [soh], "34=" + Digits(n), [soh] + after);
    TypeIsFound(cfg, Digits(|body|), msgType, behind);
  }

  /**
   For every type, number, byte behind it that is no digit and every rest: the framed message has a
   right checksum and is delivered as the next one, with the byte overwritten; if the byte does not
   count like soh, what is delivered fails the checksum test the message had passed.
   */
  lemma DeliveredAltered(version: string, soh: char, isSession: string -> bool, m: Machine,
                         msgType: string, n: nat, c: char, rest: string)
    requires ValidVersion(version, soh) && |version| <= 26 && 1 <= n < U64 - 1
    requires m.mode == FindingBeginString(0) && !m.erange && m.expected == n - 1
    requires msgType != [] && soh !in msgType && !isSession(msgType)
    requires !IsDigit(c) && !SameByte(c, soh) && rest != [] && rest[|rest| - 1] == soh
    requires |msgType| + |rest| + 100 < U32
    ensures var cfg, body := ConfigFor(version, soh, isSession), BodyWith(soh, msgType, n, c, rest);
            var msg, i := Framed(cfg, body), ByteAt(cfg, body, msgType, n);
            && 7 <= |msg| && i < |msg| && ChecksumMatches(msg) && !ChecksumMatches(msg[i := soh])
            && Steps(cfg, m, msg)
               == m.(expected := n,
                     events := m.events + [Delivered(Delta, msg[i := soh], TypeOffset(cfg, Digits(|body|)), n)])
  {
    hide BodyWith, Framed, Consistent, Checksum, ChecksumMatches, TypeIs, Steps, EndMessage, ConfigFor, Digits;
    hide SequenceNumber, NumberRunsOff, NumberOverflows, Restored, HasNumber, NumberEnd, ValidVersion;
    var cfg, body := ConfigFor(version, soh, isSession), BodyWith(soh, msgType, n, c, rest);
    var msg, i := Framed(cfg, body), ByteAt(cfg, body, msgType, n);
    ConfigIs(version, soh, isSession);
    LastByte(soh, msgType, n, c, rest);
    FramedIsConsistent(cfg, body);
    LengthsFit(n, |body|);
    ConsistentIsFramed(cfg, m, msg, Digits(|body|), body, Padded(Checksum(cfg.begin + Digits(|body|) + [soh] + body), 3));
    ByteIsOverwritten(version, soh, isSession, msgType, n, c, rest);
    OverwrittenChecksum(msg, i, soh);
    MessageEnds(cfg, m, Digits(|body|), msg, msgType, n);
  }

  lemma ConfigIs(version: string, soh: char, isSession: string -> bool)
    requires ValidVersion(version, soh) && |version| <= 26
    ensures var cfg := ConfigFor(version, soh, isSession);
            Framing.ValidConfig(cfg) && cfg.soh == soh && cfg.isSession == isSession && |cfg.begin| <= 31 && !IsDigit(soh)
  {
  }

  lemma LastByte(soh: char, msgType: string, n: nat, c: char, rest: string)
    requires rest != [] && rest[|rest| - 1] == soh
    ensures var body := BodyWith(soh, msgType, n, c, rest);
            body != [] && body[|body| - 1] == soh
  {
  }

  lemma LengthsFit(n: nat, length: nat)
    requires n < U64
    ensures |Digits(n)| <= 20
    ensures length < U32 ==> 1 <= |Digits(length)| <= 10
  {
    PowersOfTen();
    DigitsLength(n, 20);
    if length < U32 {
      ShortLength(length);
    }
  }

  /** "34=1x": the first message of a session is delivered as "34=1" and two delimiters. */
  lemma OneX(isSession: string -> bool)
    requires !isSession("D")
    ensures var soh: char := 1 as char;
            var cfg, body := ConfigFor("FIX.4.2", soh, isSession), "35=D" + [soh] + "34=1x" + [soh];
            var msg, i := Framed(cfg, body), |cfg.begin| + 12;
            && 7 <= |msg| && i < |msg| && msg[i] == 'x' && ChecksumMatches(msg) && !ChecksumMatches(msg[i := soh])
            && Steps(cfg, Start(0), msg) == Start(0).(expected := 1, events := [Delivered(Delta, msg[i := soh], |cfg.begin| + 6, 1)])
  {
    var soh: char := 1 as char;
    var body := BodyWith(soh, "D", 1, 'x', [soh]);
    assert Digits(1) == "1";
    assert body == "35=D" + [soh] + "34=1x" + [soh];
    assert |body| == 11 && Digits(11) == "11";
    hide Framed, Steps, ChecksumMatches, FixStart;
    DeliveredAltered("FIX.4.2", soh, isSession, Start(0), "D", 1, 'x', [soh]);
    ByteIsOverwritten("FIX.4.2", soh, isSession, "D", 1, 'x', [soh]);
  }
}
