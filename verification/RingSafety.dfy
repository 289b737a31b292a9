/** Safety of the disruptor ring: what holds in every state of every run. */
module RingSafety {
  import opened Ring

  /** Two different sequence numbers share a slot only if they are a whole ring apart. */
  lemma SharedSlotIsFar(c: Config, a: nat, b: nat)
    requires ValidConfig(c)
    requires a < b && Slot(c, a) == Slot(c, b)
    ensures c.entries <= b - a
  {
    var k: nat :| c.entries == Pow2(k);
    MaskEqualIsFar(k, a, b);
  }

  lemma {:induction false} MaskEqualIsFar(k: nat, a: nat, b: nat)
    requires a < b && Mask(Pow2(k) - 1, a) == Mask(Pow2(k) - 1, b)
    ensures Pow2(k) <= b - a
  {
    if k != 0 {
      assert (Pow2(k) - 1) / 2 == Pow2(k - 1) - 1 && (Pow2(k) - 1) % 2 == 1;
      assert a % 2 == b % 2 && Mask(Pow2(k - 1) - 1, a / 2) == Mask(Pow2(k - 1) - 1, b / 2);
      MaskEqualIsFar(k - 1, a / 2, b / 2);
    }
  }

  /** The mask is the remainder: the ring's index computation is modulo its capacity. */
  lemma {:induction false} MaskIsRemainder(k: nat, e: nat)
    ensures Mask(Pow2(k) - 1, e) == e % Pow2(k)
  {
    if k == 0 {
      assert e % 1 == 0;
    } else {
      MaskIsRemainder(k - 1, e / 2);
      assert (Pow2(k) - 1) / 2 == Pow2(k - 1) - 1 && (Pow2(k) - 1) % 2 == 1;
      HalvedRemainder(e, Pow2(k - 1));
    }
  }

  lemma HalvedRemainder(e: nat, h: nat)
    requires 0 < h
    ensures e % (2 * h) == (e / 2) % h * 2 + e % 2
  {
    var q, m := (e / 2) / h, (e / 2) % h;
    assert e == (2 * h) * q + (m * 2 + e % 2) by {
      assert e / 2 == h * q + m;
      assert e == (h * q + m) * 2 + e % 2;
    }
    RemainderUnique(e, 2 * h, q, m * 2 + e % 2);
  }

  lemma RemainderUnique(e: nat, d: nat, q: nat, m: nat)
    requires 0 < d && m < d && e == d * q + m
    ensures e % d == m
  {
    QuotientUnique(d, q, m, e / d, e % d);
  }

  lemma QuotientUnique(d: nat, q: nat, m: nat, q': nat, m': nat)
    requires m < d && m' < d && d * q + m == d * q' + m'
    ensures m == m'
  {
    if q < q' {
      MulStep(d, q, q');
    } else if q' < q {
      MulStep(d, q', q);
    }
  }

  lemma {:induction false} MulStep(d: nat, q: nat, q': nat)
    requires q < q'
    ensures d * q + d <= d * q'
    decreases q'
  {
    if q + 1 < q' {
      MulStep(d, q, q' - 1);
      assert d * q' == d * (q' - 1) + d;
    } else {
      assert d * q' == d * q + d;
    }
  }

  lemma InitInv<T>(c: Config, s: State<T>)
    requires ValidConfig(c) && Init(c, s)
    ensures Inv(c, s)
  {
  }

  // ---------------------------------------------------------------- the invariant implies safety

  /** A publisher that may write is less than one ring ahead of every entry still needed. */
  lemma ClearOfReaders<T>(c: Config, maxRead: nat, writeCursor: nat, pubs: seq<Publisher>, holders: seq<nat>,
                          readers: seq<Reader<T>>)
    requires ValidConfig(c) && maxRead <= writeCursor
    requires ClaimsOk(maxRead, writeCursor, pubs, holders) && ScansOk(c, pubs, readers)
    ensures WritersClearOfReaders(c, maxRead, pubs, readers)
  {
    forall p: nat, r: nat, e: nat {:trigger pubs[p], MayTouch(readers[r], e, maxRead)}
      | 0 <= p < |pubs| && pubs[p].MayWrite() && 0 <= r < |readers| && MayTouch(readers[r], e, maxRead)
      ensures Slot(c, pubs[p].claim) != Slot(c, e)
    {
      assert ScanOk(c, pubs[p], readers);
      if Slot(c, pubs[p].claim) == Slot(c, e) {
        SharedSlotIsFar(c, e, pubs[p].claim);
      }
    }
  }

  lemma TwoWritersApart<T>(c: Config, s: State<T>, p: nat, q: nat)
    requires ValidConfig(c) && WellShaped(c, s) && CursorsOk(s) && s.started
    requires ClaimsOk(s.maxRead, s.writeCursor, s.pubs, s.holders)
    requires ReadersOk(s.maxRead, s.cursors, s.readers) && ScansOk(c, s.pubs, s.readers)
    requires p < |s.pubs| && q < |s.pubs| && p != q
    requires s.pubs[p].MayWrite() && s.pubs[q].MayWrite()
    ensures s.pubs[p].claim != s.pubs[q].claim
    ensures s.pubs[p].claim < s.pubs[q].claim ==> Slot(c, s.pubs[p].claim) != Slot(c, s.pubs[q].claim)
  {
    var i := s.pubs[p].claim - s.maxRead - 1;
    assert Holds(s.maxRead, s.pubs, p, i);
    assert s.pubs[p].claim == s.pubs[q].claim ==> Holds(s.maxRead, s.pubs, q, i);
    var r :| 0 <= r < |s.readers| && s.readers[r].Active?;
    assert ScanOk(c, s.pubs[q], s.readers);
    assert ReaderOk(s.cursors[r], s.readers[r], s.maxRead);
    if s.pubs[p].claim < s.pubs[q].claim && Slot(c, s.pubs[p].claim) == Slot(c, s.pubs[q].claim) {
      SharedSlotIsFar(c, s.pubs[p].claim, s.pubs[q].claim);
    }
  }

  lemma InvIsSafe<T>(c: Config, s: State<T>)
    requires Inv(c, s)
    ensures Safe(c, s)
  {
    ClearOfReaders(c, s.maxRead, s.writeCursor, s.pubs, s.holders, s.readers);
    forall p, q | 0 <= p < |s.pubs| && 0 <= q < |s.pubs| && p != q
                  && s.pubs[p].MayWrite() && s.pubs[q].MayWrite()
      ensures Slot(c, s.pubs[p].claim) != Slot(c, s.pubs[q].claim)
    {
      TwoWritersApart(c, s, p, q);
      TwoWritersApart(c, s, q, p);
    }
  }

  // ---------------------------------------------------------------- parts of the invariant under parts of a step

  /** Replacing a publisher by one with the same claim keeps the claim table. */
  lemma SameClaimKept(maxRead: nat, writeCursor: nat, pubs: seq<Publisher>, holders: seq<nat>, p: nat, pub: Publisher)
    requires maxRead <= writeCursor && ClaimsOk(maxRead, writeCursor, pubs, holders) && p < |pubs|
    requires pub.Owns() == pubs[p].Owns()
    requires pub.Owns() ==> pub.claim == pubs[p].claim
    requires pub.Committing? ==> pub.claim == maxRead + 1
    ensures ClaimsOk(maxRead, writeCursor, pubs[p := pub], holders)
  {
    var pubs' := pubs[p := pub];
    assert forall q: nat, i: nat :: Holds(maxRead, pubs', q, i) <==> Holds(maxRead, pubs, q, i);
  }

  /** A new claim extends the claim table by one. */
  lemma NewClaimKept(maxRead: nat, writeCursor: nat, pubs: seq<Publisher>, holders: seq<nat>, p: nat, pub: Publisher)
    requires maxRead <= writeCursor && ClaimsOk(maxRead, writeCursor, pubs, holders) && p < |pubs|
    requires !pubs[p].Owns()
    requires pub.Owns() && !pub.Committing? && pub.claim == writeCursor + 1
    ensures ClaimsOk(maxRead, writeCursor + 1, pubs[p := pub], holders + [p])
  {
    var pubs' := pubs[p := pub];
    assert forall q: nat, i: nat :: Holds(maxRead, pubs, q, i) ==> q != p;
    assert forall q: nat, i: nat :: Holds(maxRead, pubs', q, i) <==>
                          Holds(maxRead, pubs, q, i) || (q == p && i == writeCursor - maxRead);
    forall i | 0 <= i < |holders + [p]|
      ensures Holds(maxRead, pubs', (holders + [p])[i], i)
    {
      if i < |holders| {
        assert Holds(maxRead, pubs, holders[i], i);
      }
    }
  }

  /** The commit of the lowest claim drops the first holder. */
  lemma CommitClaimKept(maxRead: nat, writeCursor: nat, pubs: seq<Publisher>, holders: seq<nat>, p: nat)
    requires maxRead <= writeCursor && ClaimsOk(maxRead, writeCursor, pubs, holders) && p < |pubs|
    requires pubs[p].Committing?
    ensures 0 < |holders| && holders[0] == p && pubs[p].claim == maxRead + 1 <= writeCursor
    ensures ClaimsOk(maxRead + 1, writeCursor, pubs[p := Idle], holders[1..])
  {
    var pubs' := pubs[p := Idle];
    assert Holds(maxRead, pubs, p, 0);
    forall q: nat, i: nat {:trigger Holds(maxRead + 1, pubs', q, i)}
      ensures Holds(maxRead + 1, pubs', q, i) <==> Holds(maxRead, pubs, q, i + 1)
    {
      if Holds(maxRead, pubs, q, i + 1) {
        assert holders[i + 1] == q;
      }
    }
    forall q | 0 <= q < |pubs'| && pubs'[q].Owns()
      ensures maxRead + 1 < pubs'[q].claim
    {
      assert Holds(maxRead, pubs, q, pubs[q].claim - maxRead - 1);
    }
  }

  /** Raising one reader's `need` keeps what every publisher knows. */
  lemma ScansSurviveReader<T>(c: Config, pubs: seq<Publisher>, readers: seq<Reader<T>>, r: nat, reader: Reader<T>)
    requires ScansOk(c, pubs, readers) && r < |readers|
    requires reader.Active? ==> readers[r].Active? && readers[r].need <= reader.need
    ensures ScansOk(c, pubs, readers[r := reader])
  {
    forall p | 0 <= p < |pubs|
      ensures ScanOk(c, pubs[p], readers[r := reader])
    {
      assert ScanOk(c, pubs[p], readers);
    }
  }

  /** Raising one reader's `need` keeps the entries intact. */
  lemma IntactSurvivesReader<T>(c: Config, maxRead: nat, slots: seq<T>, log: seq<T>, readers: seq<Reader<T>>, r: nat,
                                reader: Reader<T>)
    requires 0 < c.entries == |slots| && |log| == maxRead && r < |readers|
    requires EntriesIntact(c, maxRead, slots, log, readers)
    requires reader.Active? ==> maxRead == 0 || (readers[r].Active? && readers[r].need <= reader.need)
    ensures EntriesIntact(c, maxRead, slots, log, readers[r := reader])
  {
    var readers' := readers[r := reader];
    forall q: nat, e: nat {:trigger MayTouch(readers'[q], e, maxRead)}
      | 0 <= q < |readers'| && MayTouch(readers'[q], e, maxRead)
      ensures slots[Slot(c, e)] == log[e - 1]
    {
      assert MayTouch(readers[q], e, maxRead);
    }
  }

  /** A write by a publisher that may write touches no entry a reader may touch. */
  lemma IntactSurvivesWrite<T>(c: Config, maxRead: nat, slots: seq<T>, log: seq<T>, pubs: seq<Publisher>,
                               readers: seq<Reader<T>>, p: nat, value: T)
    requires 0 < c.entries == |slots| && |log| == maxRead && p < |pubs| && pubs[p].MayWrite()
    requires EntriesIntact(c, maxRead, slots, log, readers)
    requires WritersClearOfReaders(c, maxRead, pubs, readers)
    ensures EntriesIntact(c, maxRead, slots[Slot(c, pubs[p].claim) := value], log, readers)
  {
  }

  /** The committed value becomes the next entry of the log. */
  lemma IntactSurvivesCommit<T>(c: Config, maxRead: nat, slots: seq<T>, log: seq<T>, readers: seq<Reader<T>>)
    requires 0 < c.entries == |slots| && |log| == maxRead
    requires EntriesIntact(c, maxRead, slots, log, readers)
    ensures EntriesIntact(c, maxRead + 1, slots, log + [slots[Slot(c, maxRead + 1)]], readers)
  {
    forall r: nat, e: nat {:trigger MayTouch(readers[r], e, maxRead + 1)}
      | 0 <= r < |readers| && MayTouch(readers[r], e, maxRead + 1)
      ensures slots[Slot(c, e)] == (log + [slots[Slot(c, maxRead + 1)]])[e - 1]
    {
      if e <= maxRead {
        assert MayTouch(readers[r], e, maxRead);
      }
    }
  }

  lemma ReadersSurviveCommit<T>(maxRead: nat, cursors: seq<nat>, readers: seq<Reader<T>>, log: seq<T>, value: T)
    requires |cursors| == |readers| && ReadersOk(maxRead, cursors, readers)
    requires SeenOk(readers, log)
    ensures ReadersOk(maxRead + 1, cursors, readers)
    ensures SeenOk(readers, log + [value])
  {
    forall r | 0 <= r < |readers|
      ensures ReaderOk(cursors[r], readers[r], maxRead + 1)
      ensures SeenIsLogPrefix(readers[r], log + [value])
    {
      assert ReaderOk(cursors[r], readers[r], maxRead) && SeenIsLogPrefix(readers[r], log);
      if readers[r].Active? {
        assert (log + [value])[..readers[r].next - 1] == log[..readers[r].next - 1];
      }
    }
  }

  // ---------------------------------------------------------------- one lemma per kind of action

  lemma RegisterKeepsInv<T>(c: Config, s: State<T>, a: Action<T>)
    requires Inv(c, s) && Enabled(c, s, a) && (a.RegisterSwap? || a.RegisterStore?)
    ensures Inv(c, Apply(c, s, a))
  {
    var s' := Apply(c, s, a);
    assert ReaderOk(s.cursors[a.r], s.readers[a.r], s.maxRead);
    IntactSurvivesReader(c, s.maxRead, s.slots, s.log, s.readers, a.r, s'.readers[a.r]);
  }

  lemma ClaimKeepsInv<T>(c: Config, s: State<T>, a: Action<T>)
    requires Inv(c, s) && Enabled(c, s, a) && (a.ClaimBlocking? || a.LoadNonblocking?)
    ensures Inv(c, Apply(c, s, a))
  {
    var s' := Apply(c, s, a);
    if a.ClaimBlocking? {
      NewClaimKept(s.maxRead, s.writeCursor, s.pubs, s.holders, a.p, s'.pubs[a.p]);
    } else {
      SameClaimKept(s.maxRead, s.writeCursor, s.pubs, s.holders, a.p, s'.pubs[a.p]);
    }
    assert ScanOk(c, s'.pubs[a.p], s.readers);
  }

  lemma ScanOneKeepsInv<T>(c: Config, s: State<T>, a: Action<T>)
    requires Inv(c, s) && Enabled(c, s, a) && a.ScanOne?
    ensures Inv(c, Apply(c, s, a))
  {
    var s' := Apply(c, s, a);
    var me := s.pubs[a.p];
    SameClaimKept(s.maxRead, s.writeCursor, s.pubs, s.holders, a.p, s'.pubs[a.p]);
    assert ScanOk(c, me, s.readers);
    assert ReaderOk(s.cursors[me.idx], s.readers[me.idx], s.maxRead);
    assert ScanOk(c, s'.pubs[a.p], s.readers);
  }

  /** The scan read each cursor at a different time; `need` never falls, so the minimum is still a bound. */
  lemma RoomMeansGrant<T>(c: Config, pub: Publisher, readers: seq<Reader<T>>)
    requires ValidConfig(c) && pub.Scanning? && pub.idx == |readers| && ScanOk(c, pub, readers)
    requires exists r :: 0 <= r < |readers| && readers[r].Active?
    requires Room(c, pub.claim, pub.slowest)
    ensures ScanOk(c, Granted(pub.claim), readers) && ScanOk(c, Swapping(pub.claim), readers)
  {
  }

  lemma ScanEndKeepsInv<T>(c: Config, s: State<T>, a: Action<T>)
    requires Inv(c, s) && Enabled(c, s, a) && a.ScanEnd?
    ensures Inv(c, Apply(c, s, a))
  {
    var s' := Apply(c, s, a);
    var me := s.pubs[a.p];
    SameClaimKept(s.maxRead, s.writeCursor, s.pubs, s.holders, a.p, s'.pubs[a.p]);
    assert ScanOk(c, me, s.readers);
    if Room(c, me.claim, me.slowest) {
      RoomMeansGrant(c, me, s.readers);
    }
    assert ScanOk(c, s'.pubs[a.p], s.readers);
  }

  lemma SwapKeepsInv<T>(c: Config, s: State<T>, a: Action<T>)
    requires Inv(c, s) && Enabled(c, s, a) && a.SwapWriteCursor?
    ensures Inv(c, Apply(c, s, a))
  {
    var s' := Apply(c, s, a);
    assert ScanOk(c, s.pubs[a.p], s.readers);
    if s.writeCursor + 1 == s.pubs[a.p].claim {
      NewClaimKept(s.maxRead, s.writeCursor, s.pubs, s.holders, a.p, s'.pubs[a.p]);
    } else {
      SameClaimKept(s.maxRead, s.writeCursor, s.pubs, s.holders, a.p, s'.pubs[a.p]);
    }
    assert ScanOk(c, s'.pubs[a.p], s.readers);
  }

  lemma WriteKeepsInv<T>(c: Config, s: State<T>, a: Action<T>)
    requires Inv(c, s) && Enabled(c, s, a) && a.WriteSlot?
    ensures Inv(c, Apply(c, s, a))
  {
    ClearOfReaders(c, s.maxRead, s.writeCursor, s.pubs, s.holders, s.readers);
    IntactSurvivesWrite(c, s.maxRead, s.slots, s.log, s.pubs, s.readers, a.p, a.value);
  }

  lemma CommitKeepsInv<T>(c: Config, s: State<T>, a: Action<T>)
    requires Inv(c, s) && Enabled(c, s, a) && (a.CommitTest? || a.CommitAdd?)
    ensures Inv(c, Apply(c, s, a))
  {
    hide ClaimsOk, EntriesIntact, ReadersOk, SeenOk;
    var s' := Apply(c, s, a);
    assert ScanOk(c, s.pubs[a.p], s.readers);
    assert ScanOk(c, s'.pubs[a.p], s.readers);
    if a.CommitTest? {
      SameClaimKept(s.maxRead, s.writeCursor, s.pubs, s.holders, a.p, s'.pubs[a.p]);
    } else {
      CommitClaimKept(s.maxRead, s.writeCursor, s.pubs, s.holders, a.p);
      IntactSurvivesCommit(c, s.maxRead, s.slots, s.log, s.readers);
      ReadersSurviveCommit(s.maxRead, s.cursors, s.readers, s.log, s'.log[s.maxRead]);
    }
  }

  lemma ReaderKeepsInv<T>(c: Config, s: State<T>, a: Action<T>)
    requires Inv(c, s) && Enabled(c, s, a)
    requires a.WaitTest? || a.WaitLoad? || a.ReadNext? || a.Release?
    ensures Inv(c, Apply(c, s, a))
  {
    var s' := Apply(c, s, a);
    var me := s.readers[a.r];
    assert ReaderOk(s.cursors[a.r], me, s.maxRead) && SeenIsLogPrefix(me, s.log);
    if a.ReadNext? {
      assert MayTouch(me, me.next, s.maxRead);
      assert s.log[..me.next] == s.log[..me.next - 1] + [s.log[me.next - 1]];
    }
    assert ReaderOk(s'.cursors[a.r], s'.readers[a.r], s'.maxRead) && SeenIsLogPrefix(s'.readers[a.r], s.log);
    ScansSurviveReader(c, s.pubs, s.readers, a.r, s'.readers[a.r]);
    IntactSurvivesReader(c, s.maxRead, s.slots, s.log, s.readers, a.r, s'.readers[a.r]);
    ReadyKept(s, a.r, s'.readers[a.r]);
  }

  lemma ReadyKept<T>(s: State<T>, r: nat, reader: Reader<T>)
    requires r < |s.readers| && s.readers[r].Active? && reader.Active?
    ensures Ready(s) ==> Ready(s.(readers := s.readers[r := reader]))
  {
    assert s.readers[r := reader][r].Active?;
  }

  lemma StepKeepsInv<T>(c: Config, s: State<T>, a: Action<T>)
    requires Inv(c, s) && Enabled(c, s, a)
    ensures Inv(c, Apply(c, s, a))
  {
    match a
    case RegisterSwap(_) => RegisterKeepsInv(c, s, a);
    case RegisterStore(_) => RegisterKeepsInv(c, s, a);
    case ClaimBlocking(_) => ClaimKeepsInv(c, s, a);
    case LoadNonblocking(_) => ClaimKeepsInv(c, s, a);
    case ScanOne(_) => ScanOneKeepsInv(c, s, a);
    case ScanEnd(_) => ScanEndKeepsInv(c, s, a);
    case SwapWriteCursor(_) => SwapKeepsInv(c, s, a);
    case WriteSlot(_, _) => WriteKeepsInv(c, s, a);
    case CommitTest(_) => CommitKeepsInv(c, s, a);
    case CommitAdd(_) => CommitKeepsInv(c, s, a);
    case WaitTest(_) => ReaderKeepsInv(c, s, a);
    case WaitLoad(_) => ReaderKeepsInv(c, s, a);
    case ReadNext(_) => ReaderKeepsInv(c, s, a);
    case Release(_, _, _) => ReaderKeepsInv(c, s, a);
  }
}
