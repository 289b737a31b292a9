/**
 How the splitter finds the begin string. On a mismatch it restarts at the byte that did not match,
 which is right exactly if the begin string's first byte does not occur in it again.
 */
module HeaderScan {
  import opened Decimal
  import opened Framing
  import opened SequenceGate
  import Completion

  /** The last j bytes of u are the first j of h. */
  predicate Matches(h: string, u: string, j: nat) {
    j <= |h| && j <= |u| && u[|u| - j..] == h[..j]
  }

  /** l is the length of the longest suffix of u that is a prefix of h. */
  ghost predicate IsLongest(h: string, u: string, l: nat) {
    Matches(h, u, l) && forall j: nat :: Matches(h, u, j) ==> j <= l
  }

  /** A digit at position i right after an occurrence of h. */
  predicate HeaderBefore(h: string, u: string, i: nat) {
    |h| <= i < |u| && u[i - |h|..i] == h && IsDigit(u[i])
  }

  ghost predicate NoHeaderIn(h: string, u: string) {
    forall i: nat :: !HeaderBefore(h, u, i)
  }

  ghost predicate FirstByteUnique(h: string) {
    h != [] && forall k :: 1 <= k < |h| ==> h[k] != h[0]
  }

  /** Extending a match by one byte. */
  lemma MatchExtends(h: string, u: string, b: char, j: nat)
    requires 1 <= j
    ensures Matches(h, u + [b], j) <==> Matches(h, u, j - 1) && j <= |h| && h[j - 1] == b
  {
    if j <= |h| && j <= |u| + 1 {
      var tail := (u + [b])[|u| + 1 - j..];
      assert tail == u[|u| + 1 - j..] + [b];
      assert h[..j] == h[..j - 1] + [h[j - 1]];
    }
  }

  /** With a unique first byte a match cannot hide inside a longer one. */
  lemma NoNestedMatch(h: string, u: string, l: nat, j: nat)
    requires FirstByteUnique(h) && Matches(h, u, l) && Matches(h, u, j) && 1 <= j
    requires j <= l
    ensures j == l
  {
    assert u[|u| - l..][l - j] == u[|u| - j..][0];
    assert h[..l][l - j] == h[..j][0];
  }

  /** The restart rule by itself. */
  function Next(h: string, l: nat, b: char): (l': nat)
    requires h != []
    ensures l <= |h| ==> l' <= |h|
  {
    if l < |h| && h[l] == b then l + 1 else if h[0] == b then 1 else 0
  }

  /** The restart rule keeps l the longest match. */
  lemma RestartIsExact(h: string, u: string, l: nat, b: char)
    requires FirstByteUnique(h) && IsLongest(h, u, l)
    ensures IsLongest(h, u + [b], Next(h, l, b))
  {
    var l' := Next(h, l, b);
    assert Matches(h, u, 0);
    if 1 <= l' {
      MatchExtends(h, u, b, l');
    }
    forall j: nat | Matches(h, u + [b], j)
      ensures j <= l'
    {
      if 1 <= j {
        MatchExtends(h, u, b, j);
        if 2 <= j {
          NoNestedMatch(h, u, l, j - 1);
        }
      }
    }
  }

  /** Unless a digit follows a full match, one byte is one application of the rule. */
  lemma BeginByteRestarts(cfg: Config, m: Machine, l: nat, b: char)
    requires ValidConfig(cfg) && m.mode == FindingBeginString(l) && l <= |cfg.begin| && b != '\0'
    requires !(l == |cfg.begin| && IsDigit(b))
    ensures StepByte(cfg, m, b) == m.(mode := FindingBeginString(Next(cfg.begin, l, b)))
  {
  }

  /** No digit follows a full match in front of which there is no header. */
  lemma NoDigitAfter(h: string, v: string, b: char)
    requires NoHeaderIn(h, v + [b]) && Matches(h, v, |h|)
    ensures !IsDigit(b)
  {
    assert (v + [b])[|v| - |h|..|v|] == v[|v| - |h|..] == h[..|h|] == h;
    assert !HeaderBefore(h, v + [b], |v|);
  }

  lemma {:induction false} ScanTracksLongest(cfg: Config, m: Machine, u: string)
    requires ValidConfig(cfg) && FirstByteUnique(cfg.begin) && '\0' !in u
    requires m.mode == FindingBeginString(0) && NoHeaderIn(cfg.begin, u)
    ensures var m' := Steps(cfg, m, u);
            m'.mode.FindingBeginString? && IsLongest(cfg.begin, u, m'.mode.l) && m' == m.(mode := m'.mode)
    decreases |u|
  {
    hide NoHeaderIn, StepByte, FirstByteUnique, Next;
    var h := cfg.begin;
    if u != [] {
      var v, b := u[..|u| - 1], u[|u| - 1];
      assert u == v + [b];
      ShorterHasNoHeader(h, v, b);
      ScanTracksLongest(cfg, m, v);
      var l := Steps(cfg, m, v).mode.l;
      RestartIsExact(h, v, l, b);
      if l == |h| {
        NoDigitAfter(h, v, b);
      }
      BeginByteRestarts(cfg, Steps(cfg, m, v), l, b);
    }
  }

  lemma ShorterHasNoHeader(h: string, v: string, b: char)
    requires NoHeaderIn(h, v + [b])
    ensures NoHeaderIn(h, v)
  {
    assert forall j: nat :: j < |v| ==> !HeaderBefore(h, v + [b], j);
    PrefixHasNoHeader(h, v + [b], |v|);
    assert (v + [b])[..|v|] == v;
  }

  lemma PrefixHasNoHeader(h: string, u: string, i: nat)
    requires i <= |u| && forall j :: 0 <= j < i ==> !HeaderBefore(h, u, j)
    ensures NoHeaderIn(h, u[..i])
  {
    forall j: nat
      ensures !HeaderBefore(h, u[..i], j)
    {
      if j < i {
        assert !HeaderBefore(h, u, j);
        if |h| <= j {
          assert u[..i][j - |h|..j] == u[j - |h|..j];
        }
      }
    }
  }

  lemma DigitAfterFullMatch(cfg: Config, m: Machine, b: char)
    requires ValidConfig(cfg) && m.mode == FindingBeginString(|cfg.begin|) && IsDigit(b) && b != cfg.soh
    ensures StepByte(cfg, m, b) == m.(mode := FindingBodyLength([b]))
  {
    assert "" + [b] == [b];
  }

  /** The first occurrence of the begin string followed by a digit starts a message. */
  lemma FirstHeaderIsFound(cfg: Config, m: Machine, u: string, i: nat)
    requires ValidConfig(cfg) && FirstByteUnique(cfg.begin) && !IsDigit(cfg.soh) && '\0' !in u
    requires m.mode == FindingBeginString(0)
    requires HeaderBefore(cfg.begin, u, i) && forall j :: 0 <= j < i ==> !HeaderBefore(cfg.begin, u, j)
    ensures Steps(cfg, m, u[..i + 1]) == m.(mode := FindingBodyLength([u[i]]))
  {
    hide NoHeaderIn, StepByte, FirstByteUnique;
    var h, v := cfg.begin, u[..i];
    PrefixHasNoHeader(h, u, i);
    ScanTracksLongest(cfg, m, v);
    assert Matches(h, v, |h|) by {
      assert v[|v| - |h|..] == u[i - |h|..i];
      assert h[..|h|] == h;
    }
    assert u[..i + 1][..i] == v;
    DigitAfterFullMatch(cfg, Steps(cfg, m, v), u[i]);
  }

  // ---------------------------------------------------------------- exactly which versions

  /** On every stream without zero bytes, the first begin string followed by a digit is found. */
  ghost predicate FindsEveryFirstHeader(cfg: Config) {
    forall u, i: nat {:trigger HeaderBefore(cfg.begin, u, i)} ::
      '\0' !in u && HeaderBefore(cfg.begin, u, i) && (forall j :: 0 <= j < i ==> !HeaderBefore(cfg.begin, u, j))
      ==> Steps(cfg, Start(0), u[..i + 1]).mode == FindingBodyLength([u[i]])
  }

  ghost predicate ValidVersion(version: string, soh: char) {
    && '\0' !in version && soh !in version
    && !IsDigit(soh) && soh != '=' && soh != '\0'
  }

  /** First position after the start where the begin string's first byte occurs again. */
  lemma RecurrenceOf8(version: string, soh: char) returns (j: nat)
    requires ValidVersion(version, soh) && '8' in version
    ensures var h := Completion.FixStart(version, soh);
            1 <= j < |h| - 3 && h[j] == h[0] == '8' && forall k :: 1 <= k < j ==> h[k] != '8'
  {
    var h := Completion.FixStart(version, soh);
    j := 1;
    assert h[1] == '=';
    var w :| 0 <= w < |version| && version[w] == '8';
    assert h[2 + w] == '8';
    while h[j] != '8'
      invariant 1 <= j <= 2 + w < |h| - 3
      invariant forall k :: 1 <= k < j ==> h[k] != '8'
      decreases 2 + w - j
    {
      j := j + 1;
    }
  }

  lemma UniqueIf8Absent(version: string, soh: char)
    requires ValidVersion(version, soh) && '8' !in version
    ensures FirstByteUnique(Completion.FixStart(version, soh))
  {
    var h := Completion.FixStart(version, soh);
    forall k | 1 <= k < |h|
      ensures h[k] != h[0]
    {
      if 2 <= k < 2 + |version| {
        assert h[k] == version[k - 2];
      }
    }
  }

  /** The begin string does not overlap itself at distance j: it has one soh. */
  lemma NoSelfOverlap(version: string, soh: char, j: nat)
    requires ValidVersion(version, soh)
    requires 1 <= j < |Completion.FixStart(version, soh)| - 3
    ensures var h := Completion.FixStart(version, soh);
            h[..j] + h[..|h| - j] != h
  {
    var h := Completion.FixStart(version, soh);
    var n := |h|;
    assert h[n - 3] == soh;
    assert (h[..j] + h[..n - j])[n - 3] == h[n - 3 - j];
    assert h[n - 3 - j] == if 2 <= n - 3 - j then version[n - 5 - j] else "8="[n - 3 - j];
  }

  /** The stream that is missed: the begin string up to the recurrence, then the begin string and a digit. */
  function Decoy(h: string, j: nat): (u: string)
    requires j <= |h|
  {
    h[..j] + h + "1"
  }

  function ScanRun(h: string, u: string): (l: nat)
    requires h != []
    ensures l <= |h|
  {
    if u == [] then 0 else Next(h, ScanRun(h, u[..|u| - 1]), u[|u| - 1])
  }

  /** As long as no digit follows a full match, the splitter follows the restart rule. */
  lemma {:induction false} StepsFollowScanRun(cfg: Config, u: string)
    requires ValidConfig(cfg) && '\0' !in u
    requires forall t :: 0 <= t < |u| ==> ScanRun(cfg.begin, u[..t]) < |cfg.begin|
    ensures Steps(cfg, Start(0), u) == Start(0).(mode := FindingBeginString(ScanRun(cfg.begin, u)))
    decreases |u|
  {
    if u != [] {
      var v := u[..|u| - 1];
      forall t | 0 <= t < |v|
        ensures ScanRun(cfg.begin, v[..t]) < |cfg.begin|
      {
        assert v[..t] == u[..t];
      }
      StepsFollowScanRun(cfg, v);
      assert ScanRun(cfg.begin, u[..|u| - 1]) < |cfg.begin|;
    }
  }

  /** The restart rule only ever claims what it has seen. */
  lemma {:induction false} ScanRunMatches(h: string, u: string)
    requires h != []
    ensures Matches(h, u, ScanRun(h, u))
    decreases |u|
  {
    if u != [] {
      var v, b := u[..|u| - 1], u[|u| - 1];
      assert u == v + [b];
      ScanRunMatches(h, v);
      assert Matches(h, v, 0);
      if 1 <= ScanRun(h, u) {
        MatchExtends(h, v, b, ScanRun(h, u));
      }
    }
  }

  /** Where the scan of the decoy stands after t bytes: on the false start, or beyond the true one. */
  lemma {:induction false} DecoyRun(h: string, j: nat, t: nat)
    requires 1 <= j < |h| && h[j] == h[0] && t <= |Decoy(h, j)|
    ensures var l := ScanRun(h, Decoy(h, j)[..t]);
            if t <= j then l == t else t == l || j < t - l
    decreases t
  {
    var u := Decoy(h, j);
    if t != 0 {
      DecoyRun(h, j, t - 1);
      assert u[..t][..t - 1] == u[..t - 1];
      assert u[..t][t - 1] == u[t - 1];
      if t - 1 < j {
        assert u[t - 1] == h[t - 1];
      } else if t - 1 == j {
        assert u[t - 1] == h[0];
      }
    }
  }

  lemma NotFull(h: string, v: string)
    requires |v| == |h| && v != h
    ensures !Matches(h, v, |h|)
  {
    assert v[0..] == v && h[..|h|] == h;
  }

  lemma DecoyHead(h: string, j: nat)
    requires 1 <= j < |h|
    ensures |Decoy(h, j)| == j + |h| + 1 && Decoy(h, j)[..|h|] == h[..j] + h[..|h| - j]
  {
  }

  /** So a full match is never reached while there are bytes left. */
  lemma DecoyNeverFull(h: string, j: nat, t: nat)
    requires 1 <= j < |h| && h[j] == h[0] && t < |Decoy(h, j)|
    requires h[..j] + h[..|h| - j] != h
    ensures ScanRun(h, Decoy(h, j)[..t]) < |h|
  {
    hide ScanRun, Decoy, Matches;
    DecoyHead(h, j);
    DecoyRun(h, j, t);
    if t == |h| {
      ScanRunMatches(h, Decoy(h, j)[..t]);
      NotFull(h, Decoy(h, j)[..t]);
    }
  }

  lemma DecoyMissedBy(cfg: Config, j: nat)
    requires ValidConfig(cfg) && 1 <= j < |cfg.begin| && cfg.begin[j] == cfg.begin[0]
    requires cfg.begin[..j] + cfg.begin[..|cfg.begin| - j] != cfg.begin
    ensures Steps(cfg, Start(0), Decoy(cfg.begin, j)).mode.FindingBeginString?
  {
    var u := Decoy(cfg.begin, j);
    forall t | 0 <= t < |u|
      ensures ScanRun(cfg.begin, u[..t]) < |cfg.begin|
    {
      DecoyNeverFull(cfg.begin, j, t);
    }
    StepsFollowScanRun(cfg, u);
  }

  /** No earlier digit of the decoy follows the begin string. */
  lemma DecoyHasOneHeader(h: string, j: nat, k: nat)
    requires 1 <= j < |h| && h[j] == h[0] && forall i :: 1 <= i < j ==> h[i] != h[0]
    requires h[..j] + h[..|h| - j] != h
    ensures HeaderBefore(h, Decoy(h, j), j + |h|)
    ensures k < j + |h| ==> !HeaderBefore(h, Decoy(h, j), k)
  {
    var u, n := Decoy(h, j), |h|;
    assert u[j..j + n] == h && u[j + n] == '1';
    assert u[..n] == h[..j] + h[..n - j];
    if n <= k < j + n {
      assert u[k - n..k][0] == u[k - n] == h[k - n];
      assert u[0..n] == u[..n];
    }
  }

  lemma DecoyRefutes(cfg: Config, j: nat)
    requires ValidConfig(cfg) && 1 <= j < |cfg.begin| && cfg.begin[j] == cfg.begin[0]
    requires forall i :: 1 <= i < j ==> cfg.begin[i] != cfg.begin[0]
    requires cfg.begin[..j] + cfg.begin[..|cfg.begin| - j] != cfg.begin
    ensures !FindsEveryFirstHeader(cfg)
  {
    var u, i := Decoy(cfg.begin, j), j + |cfg.begin|;
    assert HeaderBefore(cfg.begin, u, i) by {
      DecoyHasOneHeader(cfg.begin, j, i);
    }
    forall k: nat | k < i
      ensures !HeaderBefore(cfg.begin, u, k)
    {
      DecoyHasOneHeader(cfg.begin, j, k);
    }
    assert Steps(cfg, Start(0), u[..i + 1]).mode.FindingBeginString? by {
      DecoyMissedBy(cfg, j);
      assert u[..i + 1] == u;
    }
    assert '\0' !in u;
  }

  lemma DecoyIsMissed(version: string, soh: char, isSession: string -> bool)
    requires ValidVersion(version, soh) && |version| <= 26 && '8' in version
    ensures !FindsEveryFirstHeader(Config(soh, Completion.FixStart(version, soh), isSession))
  {
    var j := RecurrenceOf8(version, soh);
    NoSelfOverlap(version, soh, j);
    DecoyRefutes(Config(soh, Completion.FixStart(version, soh), isSession), j);
  }

  /**
   The scan finds the first message start on every stream if and only if the version contains no '8':
   FIX.4.2 is safe, FIX.78.9 is not.
   */
  lemma ScanIsRightIffNo8(version: string, soh: char, isSession: string -> bool)
    requires ValidVersion(version, soh) && |version| <= 26
    ensures FindsEveryFirstHeader(Config(soh, Completion.FixStart(version, soh), isSession)) <==> '8' !in version
  {
    var cfg := Config(soh, Completion.FixStart(version, soh), isSession);
    if '8' in version {
      DecoyIsMissed(version, soh, isSession);
    } else {
      UniqueIf8Absent(version, soh);
      forall u, i: nat {:trigger HeaderBefore(cfg.begin, u, i)}
        | '\0' !in u && HeaderBefore(cfg.begin, u, i) && (forall j :: 0 <= j < i ==> !HeaderBefore(cfg.begin, u, j))
        ensures Steps(cfg, Start(0), u[..i + 1]).mode == FindingBodyLength([u[i]])
      {
        FirstHeaderIsFound(cfg, Start(0), u, i);
      }
    }
  }

  /** Zero bytes behind the begin string pass for more of it, up to the 32 bytes of its array. */
  lemma {:induction false} ZerosPass(cfg: Config, m: Machine, zeros: string)
    requires m.mode == FindingBeginString(|cfg.begin|) && |cfg.begin| + |zeros| <= 32
    requires forall c :: c in zeros ==> c == '\0'
    ensures Steps(cfg, m, zeros) == m.(mode := FindingBeginString(|cfg.begin| + |zeros|))
    decreases |zeros|
  {
    hide StepByte;
    if zeros != [] {
      var front := zeros[..|zeros| - 1];
      assert forall c :: c in front ==> c in zeros;
      ZerosPass(cfg, m, front);
      assert zeros[|zeros| - 1] in zeros;
      ZeroPasses(cfg, Steps(cfg, m, front), |cfg.begin| + |front|);
    }
  }

  lemma ZeroPasses(cfg: Config, m: Machine, l: nat)
    requires |cfg.begin| <= l < 32 && m.mode == FindingBeginString(l)
    ensures StepByte(cfg, m, '\0') == m.(mode := FindingBeginString(l + 1))
  {
    hide LengthByte;
  }

  /** A digit after at most 31 bytes starts the length; after 32 the next byte leaves the array, whatever it is. */
  lemma BehindZeros(cfg: Config, m: Machine, zeros: string, b: char)
    requires m.mode == FindingBeginString(|cfg.begin|) && |cfg.begin| + |zeros| <= 32
    requires forall c :: c in zeros ==> c == '\0'
    ensures |cfg.begin| + |zeros| == 32 ==> Steps(cfg, m, zeros + [b]).mode == Halted
    ensures |cfg.begin| + |zeros| < 32 && IsDigit(b) && b != cfg.soh ==>
              Steps(cfg, m, zeros + [b]) == m.(mode := FindingBodyLength([b]))
  {
    hide Steps, EndLength;
    ZerosPass(cfg, m, zeros);
    StepsConcat(cfg, m, zeros, [b]);
    StepsOne(cfg, m.(mode := FindingBeginString(|cfg.begin| + |zeros|)), b);
    assert "" + [b] == [b];
  }
}
