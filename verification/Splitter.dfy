/**
 The splitter as the source runs it: chunk by chunk, with the parser's variables carried from one chunk
 to the next and whole stretches of a body copied at once. Its view is a state of the byte machine.
 */
module Splitter {
  import opened Text
  import opened Decimal
  import opened Framing
  import opened SequenceGate
  import Completion

  datatype ParseState = BeginString | BodyLength | Body | Stopped

  class Splitter {
    const cfg: Config
    var state: ParseState
    var l: nat
    const lengthStr: array<char>
    var offset: nat
    var bytesLeftToCopy: nat
    /** Buffer and size field of the current delta entry. */
    var data: array<char>
    var size: nat
    var expected: nat
    var erange: bool
    var events: seq<Event>

    ghost predicate Valid()
      reads this, lengthStr, data
    {
      && ValidConfig(cfg)
      && lengthStr.Length == 32 && data != lengthStr && size <= data.Length && expected < U64
      && match state
         case BeginString => l <= BEGIN_SIZE
         case BodyLength => l <= LENGTH_LIMIT
         case Body =>
           && offset <= size
           && Completion.StrLen(lengthStr[..], 0) <= LENGTH_LIMIT
           && offset + bytesLeftToCopy == size
         case Stopped => true
    }

    /** The state of the byte machine these variables stand for. */
    ghost function View(): (m: Machine)
      requires Valid()
      reads this, lengthStr, data
    {
      var mode :=
        match state
        case BeginString => FindingBeginString(l)
        case BodyLength => FindingBodyLength(lengthStr[..l])
        case Body => CopyingBody(LengthDigits(), data[..offset], bytesLeftToCopy)
        case Stopped => Halted;
      Machine(mode, expected, erange, events)
    }

    /** The zero terminated string in lengthStr. */
    function LengthDigits(): (s: string)
      reads this, lengthStr
    {
      lengthStr[..Completion.StrLen(lengthStr[..], 0)]
    }

    constructor (cfg: Config, s: nat)
      requires ValidConfig(cfg) && s < U64 - 1
      ensures Valid() && View() == Start(s) && this.cfg == cfg
      ensures fresh(lengthStr) && fresh(data)
    {
      this.cfg := cfg;
      state, l, offset, bytesLeftToCopy, size := BeginString, 0, 0, 0, 0;
      lengthStr := new char[32](i => '\0');
      data := new char[0];
      expected, erange, events := s, false, [];
    }

    /** All chunks in the order they came: the batches of the blob queue. */
    method FeedAll(chunks: seq<string>)
      requires Valid() && Sane(cfg, View())
      modifies this, lengthStr, data
      ensures Valid() && Sane(cfg, View())
      ensures View() == Steps(cfg, old(View()), Concat(chunks))
      ensures data == old(data) || fresh(data)
    {
      assert chunks[..0] == [];
      for n := 0 to |chunks|
        invariant Valid() && Sane(cfg, View())
        invariant View() == Steps(cfg, old(View()), Concat(chunks[..n]))
        invariant data == old(data) || fresh(data)
      {
        ghost var before := View();
        Feed(chunks[n]);
        assert chunks[..n + 1] == chunks[..n] + [chunks[n]];
        ConcatAppend(chunks[..n], chunks[n]);
        StepsConcat(cfg, old(View()), Concat(chunks[..n]), chunks[n]);
      }
      assert chunks[..|chunks|] == chunks;
    }

    /** One chunk. */
    method Feed(chunk: string)
      requires Valid() && Sane(cfg, View())
      modifies this, lengthStr, data
      ensures Valid() && Sane(cfg, View())
      ensures View() == Steps(cfg, old(View()), chunk)
      ensures data == old(data) || fresh(data)
    {
      var k := 0;
      while k < |chunk|
        invariant k <= |chunk|
        invariant Valid() && Sane(cfg, View())
        invariant View() == Steps(cfg, old(View()), chunk[..k])
        invariant data == old(data) || fresh(data)
      {
        ghost var from := k;
        k := Turn(chunk, k);
        assert chunk[..k] == chunk[..from] + chunk[from..k];
        StepsConcat(cfg, old(View()), chunk[..from], chunk[from..k]);
      }
      assert chunk[..k] == chunk;
    }

    /** One turn of the switch; it may fall through to the next case and consume many bytes. */
    method Turn(chunk: string, k: nat) returns (k': nat)
      requires Valid() && Sane(cfg, View()) && k < |chunk|
      modifies this, lengthStr, data
      ensures Valid() && Sane(cfg, View())
      ensures k < k' <= |chunk|
      ensures View() == Steps(cfg, old(View()), chunk[k..k'])
      ensures data == old(data) || fresh(data)
    {
      ghost var m := View();
      var b := chunk[k];
      k' := k + 1;
      assert chunk[k..k + 1] == [b];
      StepsOne(cfg, m, b);
      match state {
        case Stopped =>
        case BeginString =>
          var fallsThrough := BeginTurn(b);
          if fallsThrough {
            k' := LengthTurn(chunk, k, m);
          }
        case BodyLength =>
          k' := LengthTurn(chunk, k, m);
        case Body =>
          k' := BodyTurn(chunk, k, m);
      }
      StepsKeepSane(cfg, m, chunk[k..k']);
    }

    /** The case FindingBeginString. */
    method BeginTurn(b: char) returns (fallsThrough: bool)
      requires Valid() && state == BeginString
      modifies this
      ensures Valid() && data == old(data)
      ensures !fallsThrough ==> View() == StepByte(cfg, old(View()), b)
      ensures fallsThrough ==>
                && state == BodyLength && l == 0 && BeginAt(cfg, old(l)) == '\0'
                && View() == old(View()).(mode := FindingBodyLength(""))
                && StepByte(cfg, old(View()), b) == LengthByte(cfg, View(), "", b)
    {
      fallsThrough := false;
      if l == BEGIN_SIZE {
        state := Stopped;
      } else if BeginAt(cfg, l) == b {
        l := l + 1;
      } else if BeginAt(cfg, l) == '\0' && IsDigit(b) {
        l := 0;
        state := BodyLength;
        fallsThrough := true;
        LengthIgnoresMode(cfg, old(View()), View(), "", b);
      } else if BeginAt(cfg, 0) == b {
        l := 1;
      } else {
        l := 0;
      }
    }

    /** The case FindingBodyLength, falling through to CopyingBody at soh. */
    method LengthTurn(chunk: string, k: nat, ghost m: Machine) returns (k': nat)
      requires Valid() && state == BodyLength && Sane(cfg, View()) && k < |chunk|
      requires LengthByte(cfg, View(), lengthStr[..l], chunk[k]) == StepByte(cfg, m, chunk[k])
      modifies this, lengthStr, data
      ensures Valid() && k < k' <= |chunk|
      ensures View() == Steps(cfg, m, chunk[k..k'])
      ensures data == old(data) || fresh(data)
    {
      k' := k + 1;
      assert chunk[k..k'] == [chunk[k]];
      StepsOne(cfg, m, chunk[k]);
      var copies := LengthChar(chunk[k]);
      if copies && bytesLeftToCopy == 0 {
        NothingToCopy();
      } else if copies {
        ghost var m1 := View();
        k' := BodyTurn(chunk, k, m1);
        StepsSameFirst(cfg, m1, m, chunk[k..k']);
      }
    }

    /** A length that wraps to zero bytes to copy: the message ends, and the same soh is looked at again. */
    method NothingToCopy()
      requires Valid() && state == Body && bytesLeftToCopy == 0
      modifies this, data
      ensures Valid() && (data == old(data) || fresh(data))
      ensures View() == LookAgain(cfg, EndMessage(cfg, old(View()), old(LengthDigits()), old(data[..size])))
    {
      hide EndMessage;
      ghost var m := View();
      EndIgnoresMode(cfg, m.(mode := FindingBeginString(0)), m, LengthDigits(), data[..size]);
      EndOfMessage();
      if state != Stopped {
        LookAgainIsBegin(cfg, View());
        var _ := BeginTurn(cfg.soh);
      }
    }

    /** One character of the body length; `copies` if it ends the length and starts a body. */
    method LengthChar(b: char) returns (copies: bool)
      requires Valid() && state == BodyLength && Sane(cfg, View())
      modifies this, lengthStr, data
      ensures Valid() && (data == old(data) || fresh(data))
      ensures !copies ==> View() == old(LengthByte(cfg, View(), lengthStr[..l], b))
      ensures copies ==> Starts(old(LengthByte(cfg, View(), lengthStr[..l], b)), b)
    {
      copies := false;
      if l == LENGTH_LIMIT {
        l, state := 0, BeginString;
        return;
      }
      lengthStr[l] := b;
      if !IsDigit(b) && cfg.soh != b {
        state, l := BeginString, 0;
        return;
      }
      l := l + 1;
      if cfg.soh != b {
        assert lengthStr[..l] == old(lengthStr[..l]) + [b];
        return;
      }
      l := l - 1;
      lengthStr[l] := '\0';
      assert lengthStr[..l] == old(lengthStr[..l]);
      DigitsAreLengthStr(lengthStr[..], lengthStr[..l]);
      copies := LengthEnd(old(View()), old(lengthStr[..l]));
    }

    /** A body starts with byte b, and leads to m' with it, or at once if there is nothing to copy. */
    ghost predicate Starts(m': Machine, b: char)
      reads this, lengthStr, data
    {
      && Valid() && state == Body
      && if bytesLeftToCopy == 0 then LookAgain(cfg, EndMessage(cfg, View(), LengthDigits(), data[..size])) == m'
         else Sane(cfg, View()) && StepByte(cfg, View(), b) == m'
    }

    /** The number is complete: skip the message, or start copying its body. */
    method LengthEnd(ghost m: Machine, ghost digits: string) returns (copies: bool)
      requires Valid() && state == BodyLength && LengthDigits() == digits && AllDigits(digits) && |digits| < LENGTH_LIMIT
      requires m == View().(mode := m.mode)
      modifies this, data
      ensures Valid() && (data == old(data) || fresh(data))
      ensures !copies ==> View() == EndLength(cfg, m, digits)
      ensures copies ==> Starts(EndLength(cfg, m, digits), cfg.soh)
    {
      hide EndMessage;
      l, copies := 0, false;
      if LLONG_MAX < Value(LengthDigits()) {
        erange := true;
      }
      var bodyLength := Atoll32(LengthDigits());
      if bodyLength == 0 || erange {
        state := BeginString;
        return;
      }
      var needed := |cfg.begin| + |LengthDigits()| + ToCopy(bodyLength);
      if U32 <= needed {
        state := Stopped;
        return;
      }
      bytesLeftToCopy := ToCopy(bodyLength);
      StartBody(needed);
      NonemptyDigits(digits);
      if bytesLeftToCopy == 0 {
        assert data[..size] == cfg.begin + digits;
        EndIgnoresMode(cfg, m.(erange := erange), View(), digits, data[..size]);
      } else {
        CopyIgnoresMode(cfg, m.(erange := erange), View(), digits, cfg.begin + digits, bytesLeftToCopy, cfg.soh);
      }
      copies := true;
    }

    /** Make room in the delta entry and put begin string and length there. */
    method StartBody(needed: nat)
      requires ValidConfig(cfg) && lengthStr.Length == 32 && data != lengthStr && size <= data.Length && expected < U64
      requires |LengthDigits()| <= LENGTH_LIMIT
      requires needed == |cfg.begin| + |LengthDigits()| + bytesLeftToCopy
      modifies this`data, this`size, this`offset, this`state, data
      ensures Valid() && state == Body && size == needed
      ensures View() == Machine(CopyingBody(old(LengthDigits()), cfg.begin + old(LengthDigits()), bytesLeftToCopy),
                                expected, erange, events)
      ensures data == old(data) || fresh(data)
    {
      if size < needed {
        data := new char[needed];
      }
      size := needed;
      ghost var before := data[..];
      Write(data, 0, cfg.begin);
      Write(data, |cfg.begin|, LengthDigits());
      SpliceTwice(before, 0, cfg.begin, LengthDigits());
      offset := |cfg.begin| + |LengthDigits()|;
      SplicePart(before, 0, cfg.begin + LengthDigits(), offset);
      assert data[..offset] == cfg.begin + LengthDigits();
      state := Body;
    }

    /** The case CopyingBody: finish the message if the chunk holds its rest, else take all there is. */
    method BodyTurn(chunk: string, k: nat, ghost m: Machine) returns (k': nat)
      requires Valid() && state == Body && k < |chunk| && View() == m && Sane(cfg, m)
      modifies this, data
      ensures Valid() && k < k' <= |chunk|
      ensures View() == Steps(cfg, m, chunk[k..k'])
      ensures data == old(data) || fresh(data)
    {
      if |chunk| - k >= bytesLeftToCopy {
        k' := k + bytesLeftToCopy;
        ghost var digits, copied := LengthDigits(), data[..offset];
        Copy(chunk[k..k']);
        CopyLast(cfg, m, chunk[k..k']);
        assert data[..size] == copied + chunk[k..k'];
        EndIgnoresMode(cfg, m, m.(mode := FindingBeginString(0)), digits, data[..size]);
        EndOfMessage();
      } else {
        k' := |chunk|;
        Copy(chunk[k..]);
        CopyMany(cfg, m, chunk[k..]);
        bytesLeftToCopy := bytesLeftToCopy - (|chunk| - k);
        assert chunk[k..k'] == chunk[k..];
      }
    }

    /** memcpy to the end of what was copied so far. */
    method Copy(t: string)
      requires Valid() && state == Body && |t| <= bytesLeftToCopy
      modifies this`offset, data
      ensures offset == old(offset) + |t| <= data.Length
      ensures data[..offset] == old(data[..offset]) + t
      ensures lengthStr[..] == old(lengthStr[..])
    {
      Write(data, offset, t);
      offset := offset + |t|;
    }

    /** Checksum, sequence number, type; then the message goes out or is dropped. */
    method EndOfMessage()
      requires ValidConfig(cfg) && lengthStr.Length == 32 && data != lengthStr && size <= data.Length && expected < U64
      requires state == Body
      modifies this, data
      ensures Valid() && (data == old(data) || fresh(data))
      ensures state == Stopped || (state == BeginString && l == 0)
      ensures View() == EndMessage(cfg, Machine(FindingBeginString(0), old(expected), old(erange), old(events)),
                                   old(LengthDigits()), old(data[..size]))
    {
      hide Judge;
      if size < 7 {
        state := Stopped;
        return;
      }
      var leaves, event := Decide(|cfg.begin| + |LengthDigits()| + 4);
      if leaves {
        state := Stopped;
        return;
      }
      events := events + [event];
      if event.Delivered? && event.queue == Delta {
        // the message leaves with its buffer; the next delta entry comes without one
        data, size := new char[0], 0;
      }
      state, l := BeginString, 0;
    }

    /** The tests on a finished message, in the order of the source. */
    method Decide(typeOffset: nat) returns (leaves: bool, event: Event)
      requires 7 <= size <= data.Length && expected < U64
      modifies this`expected, this`erange, data
      ensures leaves <==> Judge(cfg, old(expected), old(erange), old(data[..size]), typeOffset) == Leaves
      ensures leaves ==> expected == old(expected) && erange == old(erange)
      ensures !leaves ==>
                Judge(cfg, old(expected), old(erange), old(data[..size]), typeOffset) == Judged(expected, erange, event)
      ensures expected < U64
    {
      hide Route, Restored, SequenceNumber, NumberRunsOff, NumberOverflows;
      ghost var msg := data[..size];
      leaves := false;
      var sum := Completion.GetFixChecksum(data, 0, size - 7);
      assert data[0..0 + (size - 7)] == msg[..size - 7];
      assert data[size - 4..size - 1] == msg[size - 4..size - 1];
      if data[size - 4..size - 1] != Padded(sum, 3) {
        return false, BadChecksum;
      }
      var runsOff, received, overflows := GetSequenceNumber(cfg.soh, data, size);
      if runsOff {
        return true, BadChecksum;
      }
      if received != Inc64(expected) {
        erange := erange || overflows;
        return false, ResendRequested(expected);
      }
      leaves, event := Deliver(typeOffset, received, erange || overflows);
    }

    /** The message has the number expected: look at its type. */
    method Deliver(typeOffset: nat, received: nat, errno: bool) returns (leaves: bool, event: Event)
      requires size <= data.Length && expected < U64 && received == Inc64(expected)
      modifies this`expected, this`erange
      ensures leaves <==> Route(cfg, old(expected), errno, data[..size], typeOffset, received) == Leaves
      ensures leaves ==> expected == old(expected) && erange == old(erange)
      ensures !leaves ==>
                Route(cfg, old(expected), errno, data[..size], typeOffset, received) == Judged(expected, erange, event)
      ensures expected < U64
    {
      leaves, event := true, BadChecksum;
      if size <= typeOffset {
        return;
      }
      expected := Inc64(expected);
      if cfg.soh == data[typeOffset] {
        erange := errno;
        return false, Rejected(received);
      }
      var end := TypeEnd(typeOffset);
      if end == size {
        expected := Dec64(expected);
        return;
      }
      leaves, erange := false, errno;
      if !cfg.isSession(data[..size][typeOffset..end]) {
        return false, Delivered(Delta, data[..size], typeOffset, received);
      }
      if ECHO_MAX_DATA_SIZE < size {
        expected := Dec64(expected);
        return false, Oversized(received);
      }
      return false, Delivered(Echo, data[..size], typeOffset, received);
    }

    /** The loop of get_fix_msgtype. */
    method TypeEnd(typeOffset: nat) returns (end: nat)
      requires typeOffset < size <= data.Length
      ensures end == IndexFrom(cfg.soh, data[..size], typeOffset)
    {
      end := typeOffset;
      while end < size && data[end] != cfg.soh
        invariant typeOffset <= end <= size
        invariant forall j :: typeOffset <= j < end ==> data[j] != cfg.soh
      {
        end := end + 1;
      }
      IndexFromIs(cfg.soh, data[..size], typeOffset, end);
    }
  }

  /** The mode is not looked at once a byte is known to belong to the length. */
  lemma LengthIgnoresMode(cfg: Config, m: Machine, m': Machine, digits: string, b: char)
    requires m' == m.(mode := m'.mode) || m == m'.(mode := m.mode)
    ensures LengthByte(cfg, m, digits, b) == LengthByte(cfg, m', digits, b)
  {
  }

  /** Nor at the end of a message. */
  lemma LookAgainIsBegin(cfg: Config, m: Machine)
    requires ValidConfig(cfg) && m.mode == FindingBeginString(0)
    ensures StepByte(cfg, m, cfg.soh) == LookAgain(cfg, m)
  {
  }

  lemma CopyIgnoresMode(cfg: Config, m: Machine, m': Machine, digits: string, copied: string, left: nat, b: char)
    requires m' == m.(mode := m'.mode)
    ensures CopyByte(cfg, m, digits, copied, left, b) == CopyByte(cfg, m', digits, copied, left, b)
  {
    EndIgnoresMode(cfg, m, m', digits, copied + [b]);
  }

  lemma SaneKept(cfg: Config, m: Machine, b: char)
    requires Sane(cfg, m)
    ensures Sane(cfg, StepByte(cfg, m, b))
  {
  }

  lemma {:induction false} StepsKeepSane(cfg: Config, m: Machine, t: string)
    requires Sane(cfg, m)
    ensures Sane(cfg, Steps(cfg, m, t))
    decreases |t|
  {
    if t != [] {
      StepsKeepSane(cfg, m, t[..|t| - 1]);
      SaneKept(cfg, Steps(cfg, m, t[..|t| - 1]), t[|t| - 1]);
    }
  }

  lemma NonemptyDigits(digits: string)
    requires AllDigits(digits) && Atoll32(digits) != 0
    ensures 1 <= |digits|
  {
  }

  lemma DigitsAreLengthStr(s: string, digits: string)
    requires |digits| < |s| && s[..|digits|] == digits && s[|digits|] == '\0' && AllDigits(digits)
    ensures Completion.StrLen(s, 0) == |digits|
  {
    assert s[0..|digits| + 1] == digits + ['\0'];
    Completion.StrLenOf(s, 0, digits);
  }

  /** Machines that agree after the first byte agree after all. */
  lemma StepsSameFirst(cfg: Config, m: Machine, m': Machine, t: string)
    requires 1 <= |t| && StepByte(cfg, m, t[0]) == StepByte(cfg, m', t[0])
    ensures Steps(cfg, m, t) == Steps(cfg, m', t)
  {
    assert t == [t[0]] + t[1..];
    StepsConcat(cfg, m, [t[0]], t[1..]);
    StepsConcat(cfg, m', [t[0]], t[1..]);
    StepsOne(cfg, m, t[0]);
    StepsOne(cfg, m', t[0]);
  }

  /** A whole session: however the bytes were cut, the events are those of the byte machine. */
  method Receive(cfg: Config, s: nat, chunks: seq<string>) returns (events: seq<Event>)
    requires ValidConfig(cfg) && s < U64 - 1
    ensures events == Steps(cfg, Start(s), Concat(chunks)).events
  {
    hide Steps;
    var splitter := new Splitter(cfg, s);
    splitter.FeedAll(chunks);
    events := splitter.events;
  }
}
