/**
 The disruptor ring as a step system. Every atomic operation of the ring (a load, a store, a
 fetch-and-add, a compare-and-swap) is one action, so the publisher's scan of the reader cursors
 takes one action per cursor and may interleave with everything else.

 Memory is sequentially consistent. `log`, `holders` and the reader fields `need` and `seen` are
 history variables: no action's guard or effect on the shared words depends on them, except that a
 reader promises with `need` which entries it will not touch again.
 */
module Ring {

  /** Value of a vacant reader cursor: UINT_FAST64_MAX. */
  const VACANT: nat := 0xFFFF_FFFF_FFFF_FFFF

  /** `entries` is the ring capacity, `processors` the number of cursor spots. */
  datatype Config = Config(entries: nat, processors: nat, publishers: nat)

  datatype Publisher =
    | Idle
    | Scanning(claim: nat, blocking: bool, idx: nat, slowest: nat)
    | Swapping(claim: nat)
    | Granted(claim: nat)
    | Committing(claim: nat)
  {
    /** The publisher holds a sequence number nobody else may use. */
    predicate Owns() {
      match this
      case Scanning(_, blocking, _, _) => blocking
      case Granted(_) => true
      case Committing(_) => true
      case _ => false
    }

    /** The publisher may write into the slot of its claim. */
    predicate MayWrite() {
      Granted? || Committing?
    }
  }

  /**
   A reader in use has read entries 1 .. next-1, may read on up to `limit`, and may still touch
   every entry from `need` on.
   */
  datatype Reader<T> =
    | Absent
    | Registering
    | Active(need: nat, next: nat, limit: nat, passed: bool, seen: seq<T>)

  datatype State<T> = State(
    started: bool,
    slowestProcessor: nat,
    maxRead: nat,
    writeCursor: nat,
    cursors: seq<nat>,
    slots: seq<T>,
    pubs: seq<Publisher>,
    readers: seq<Reader<T>>,
    log: seq<T>,
    holders: seq<nat>)

  datatype Action<T> =
    | RegisterSwap(r: nat)
    | RegisterStore(r: nat)
    | ClaimBlocking(p: nat)
    | LoadNonblocking(p: nat)
    | ScanOne(p: nat)
    | ScanEnd(p: nat)
    | SwapWriteCursor(p: nat)
    | WriteSlot(p: nat, value: T)
    | CommitTest(p: nat)
    | CommitAdd(p: nat)
    | WaitTest(r: nat)
    | WaitLoad(r: nat)
    | ReadNext(r: nat)
    | Release(r: nat, cursor: nat, keep: nat)

  /** Bitwise and of two numbers. */
  function Mask(m: nat, s: nat): (b: nat)
    ensures b <= m && b <= s
  {
    if m == 0 || s == 0 then 0
    else Mask(m / 2, s / 2) * 2 + (if m % 2 == 1 && s % 2 == 1 then 1 else 0)
  }

  function Pow2(k: nat): (p: nat)
    ensures 0 < p
  {
    if k == 0 then 1 else 2 * Pow2(k - 1)
  }

  ghost predicate IsPow2(n: nat) {
    exists k: nat :: n == Pow2(k)
  }

  /** The capacity is a power of two, as the mask in `Slot` needs. */
  ghost predicate ValidConfig(c: Config) {
    2 <= c.entries < VACANT && IsPow2(c.entries)
  }

  /** Index of the slot of a sequence number: reduced_size & sequence. */
  function Slot(c: Config, e: nat): (i: nat)
    requires 0 < c.entries
    ensures i < c.entries
  {
    Mask(c.entries - 1, e)
  }

  ghost predicate Init<T>(c: Config, s: State<T>) {
    && !s.started
    && s.slowestProcessor == 0 && s.maxRead == 0 && s.writeCursor == 0
    && s.cursors == seq(c.processors, i => VACANT)
    && |s.slots| == c.entries
    && s.pubs == seq(c.publishers, i => Idle)
    && s.readers == seq(c.processors, i => Absent)
    && s.log == [] && s.holders == []
  }

  predicate WellShaped<T>(c: Config, s: State<T>) {
    && |s.cursors| == c.processors
    && |s.slots| == c.entries
    && |s.pubs| == c.publishers
    && |s.readers| == c.processors
  }

  /** At least one reader is registered and no registration is half way. */
  predicate Ready<T>(s: State<T>) {
    && (exists r :: 0 <= r < |s.readers| && s.readers[r].Active?)
    && (forall r :: 0 <= r < |s.readers| ==> !s.readers[r].Registering?)
  }

  /** Unsigned 64 bit subtraction. */
  function Sub64(a: nat, b: nat): (d: nat)
    requires a <= VACANT && b <= VACANT
  {
    if b <= a then a - b else a + (VACANT + 1) - b
  }

  /** What the scan compares the claim with; the second case is the ring without readers. */
  function Barrier(c: Config, claim: nat, slowest: nat): (b: nat)
    requires 0 < c.entries
  {
    if slowest == VACANT then claim - Slot(c, claim) else slowest
  }

  predicate Room(c: Config, claim: nat, slowest: nat)
    requires 0 < c.entries
    requires claim <= VACANT && slowest <= VACANT
  {
    Sub64(claim, Barrier(c, claim, slowest)) <= c.entries - 1
  }

  predicate Enabled<T>(c: Config, s: State<T>, a: Action<T>)
    requires 0 < c.entries && WellShaped(c, s)
  {
    match a
    case RegisterSwap(r) =>
      r < c.processors && !s.started && s.cursors[r] == VACANT && s.readers[r].Absent?
    case RegisterStore(r) =>
      r < c.processors && !s.started && s.readers[r].Registering?
    case ClaimBlocking(p) =>
      p < c.publishers && s.pubs[p].Idle? && Ready(s) && s.writeCursor + 3 < VACANT
    case LoadNonblocking(p) =>
      p < c.publishers && s.pubs[p].Idle? && Ready(s) && s.writeCursor + 3 < VACANT
    case ScanOne(p) =>
      p < c.publishers && s.pubs[p].Scanning? && s.pubs[p].idx < c.processors
    case ScanEnd(p) =>
      && p < c.publishers && s.pubs[p].Scanning? && s.pubs[p].idx == c.processors
      && s.pubs[p].claim <= VACANT && s.pubs[p].slowest <= VACANT
    case SwapWriteCursor(p) =>
      p < c.publishers && s.pubs[p].Swapping?
    case WriteSlot(p, _) =>
      p < c.publishers && s.pubs[p].Granted?
    case CommitTest(p) =>
      p < c.publishers && s.pubs[p].Granted?
    case CommitAdd(p) =>
      p < c.publishers && s.pubs[p].Committing? && 0 < |s.holders|
    case WaitTest(r) =>
      r < c.processors && s.readers[r].Active? && !s.readers[r].passed
    case WaitLoad(r) =>
      r < c.processors && s.readers[r].Active? && s.readers[r].passed
    case ReadNext(r) =>
      && r < c.processors && s.readers[r].Active? && !s.readers[r].passed
      && s.readers[r].next <= s.readers[r].limit
    case Release(r, cursor, keep) =>
      && r < c.processors && s.readers[r].Active?
      && cursor <= keep && s.readers[r].need <= keep <= s.readers[r].next
  }

  function Apply<T>(c: Config, s: State<T>, a: Action<T>): (s': State<T>)
    requires 0 < c.entries && WellShaped(c, s) && Enabled(c, s, a)
    ensures WellShaped(c, s')
  {
    match a
    case RegisterSwap(r) =>
      s.(cursors := s.cursors[r := s.slowestProcessor], readers := s.readers[r := Registering])
    case RegisterStore(r) =>
      s.(cursors := if s.cursors[r] == 0 then s.cursors[r := 1] else s.cursors,
         readers := s.readers[r := Active(1, 1, 0, false, [])])
    case ClaimBlocking(p) =>
      s.(started := true,
         writeCursor := s.writeCursor + 1,
         pubs := s.pubs[p := Scanning(s.writeCursor + 1, true, 0, VACANT)],
         holders := s.holders + [p])
    case LoadNonblocking(p) =>
      s.(started := true,
         pubs := s.pubs[p := Scanning(s.writeCursor + 1, false, 0, VACANT)])
    case ScanOne(p) =>
      var me := s.pubs[p];
      var seen := s.cursors[me.idx];
      s.(pubs := s.pubs[p := me.(idx := me.idx + 1,
                                 slowest := if seen < me.slowest then seen else me.slowest)])
    case ScanEnd(p) =>
      var me := s.pubs[p];
      var next :=
        if Room(c, me.claim, me.slowest) then
          if me.blocking then Granted(me.claim) else Swapping(me.claim)
        else
          if me.blocking then Scanning(me.claim, true, 0, VACANT) else Idle;
      s.(slowestProcessor := Barrier(c, me.claim, me.slowest), pubs := s.pubs[p := next])
    case SwapWriteCursor(p) =>
      var me := s.pubs[p];
      if s.writeCursor + 1 == me.claim then
        s.(writeCursor := me.claim, pubs := s.pubs[p := Granted(me.claim)],
           holders := s.holders + [p])
      else
        s.(pubs := s.pubs[p := Idle])
    case WriteSlot(p, value) =>
      s.(slots := s.slots[Slot(c, s.pubs[p].claim) := value])
    case CommitTest(p) =>
      if s.maxRead + 1 == s.pubs[p].claim then
        s.(pubs := s.pubs[p := Committing(s.pubs[p].claim)])
      else
        s
    case CommitAdd(p) =>
      s.(maxRead := s.maxRead + 1,
         pubs := s.pubs[p := Idle],
         log := s.log + [s.slots[Slot(c, s.pubs[p].claim)]],
         holders := s.holders[1..])
    case WaitTest(r) =>
      s.(readers := s.readers[r := s.readers[r].(passed := s.readers[r].next <= s.maxRead)])
    case WaitLoad(r) =>
      s.(readers := s.readers[r := s.readers[r].(passed := false, limit := s.maxRead)])
    case ReadNext(r) =>
      var me := s.readers[r];
      s.(readers := s.readers[r := me.(next := me.next + 1,
                                       seen := me.seen + [s.slots[Slot(c, me.next)]])])
    case Release(r, cursor, keep) =>
      s.(cursors := s.cursors[r := cursor],
         readers := s.readers[r := s.readers[r].(need := keep)])
  }

  /** `states` is a run: it starts in an initial state and every action was enabled. */
  ghost predicate IsRun<T>(c: Config, states: seq<State<T>>, actions: seq<Action<T>>) {
    && ValidConfig(c)
    && |states| == |actions| + 1
    && (forall i :: 0 <= i < |states| ==> WellShaped(c, states[i]))
    && Init(c, states[0])
    && (forall i :: 0 <= i < |actions| ==>
          Enabled(c, states[i], actions[i]) && states[i + 1] == Apply(c, states[i], actions[i]))
  }

  // ---------------------------------------------------------------- what readers and publishers rely on

  /** No two publishers may write the same slot. */
  ghost predicate WritersApart(c: Config, pubs: seq<Publisher>)
    requires 0 < c.entries
  {
    forall p, q :: 0 <= p < |pubs| && 0 <= q < |pubs| && p != q && pubs[p].MayWrite() && pubs[q].MayWrite()
                   ==> Slot(c, pubs[p].claim) != Slot(c, pubs[q].claim)
  }

  /** Sequence number `e` is committed and the reader may still touch its slot. */
  predicate MayTouch<T>(reader: Reader<T>, e: nat, maxRead: nat) {
    reader.Active? && 1 <= e && reader.need <= e <= maxRead
  }

  /** No publisher may write a slot that holds a committed entry some reader may still touch. */
  ghost predicate WritersClearOfReaders<T>(c: Config, maxRead: nat, pubs: seq<Publisher>, readers: seq<Reader<T>>)
    requires 0 < c.entries
  {
    forall p: nat, r: nat, e: nat {:trigger pubs[p], MayTouch(readers[r], e, maxRead)} ::
      p < |pubs| && pubs[p].MayWrite() && r < |readers| && MayTouch(readers[r], e, maxRead)
      ==> Slot(c, pubs[p].claim) != Slot(c, e)
  }

  /** Every committed entry a reader may still touch is in its slot, whole. */
  ghost predicate EntriesIntact<T>(c: Config, maxRead: nat, slots: seq<T>, log: seq<T>, readers: seq<Reader<T>>)
    requires 0 < c.entries == |slots| && |log| == maxRead
  {
    forall r: nat, e: nat {:trigger MayTouch(readers[r], e, maxRead)} ::
      r < |readers| && MayTouch(readers[r], e, maxRead) ==> slots[Slot(c, e)] == log[e - 1]
  }

  /** The reader has seen exactly the first next-1 committed values, in order. */
  ghost predicate SeenIsLogPrefix<T>(reader: Reader<T>, log: seq<T>) {
    reader.Active? ==> 1 <= reader.next <= |log| + 1 && reader.seen == log[..reader.next - 1]
  }

  ghost predicate Safe<T>(c: Config, s: State<T>) {
    && 0 < c.entries == |s.slots| && |s.log| == s.maxRead
    && WritersApart(c, s.pubs)
    && WritersClearOfReaders(c, s.maxRead, s.pubs, s.readers)
    && EntriesIntact(c, s.maxRead, s.slots, s.log, s.readers)
    && (forall r :: 0 <= r < |s.readers| ==> SeenIsLogPrefix(s.readers[r], s.log))
  }

  // ---------------------------------------------------------------- the inductive invariant

  ghost predicate CursorsOk<T>(s: State<T>) {
    && s.maxRead <= s.writeCursor
    && s.writeCursor + 2 < VACANT
    && |s.log| == s.maxRead
    && (!s.started ==> s.slowestProcessor == 0 && s.writeCursor == 0)
    && (s.started ==> Ready(s))
  }

  ghost predicate AllIdle(pubs: seq<Publisher>) {
    forall p :: 0 <= p < |pubs| ==> pubs[p].Idle?
  }

  /** Publisher `p` owns the i-th claimed and uncommitted sequence number. */
  ghost predicate Holds(maxRead: nat, pubs: seq<Publisher>, p: nat, i: nat) {
    p < |pubs| && pubs[p].Owns() && pubs[p].claim == maxRead + 1 + i
  }

  /** `holders` lists, in claim order, who owns each claimed and uncommitted sequence number. */
  ghost predicate ClaimsOk(maxRead: nat, writeCursor: nat, pubs: seq<Publisher>, holders: seq<nat>) {
    && |holders| == writeCursor - maxRead
    && (forall i :: 0 <= i < |holders| ==> Holds(maxRead, pubs, holders[i], i))
    && (forall p: nat, i: nat {:trigger Holds(maxRead, pubs, p, i)} ::
          Holds(maxRead, pubs, p, i) ==> i < |holders| && holders[i] == p)
    && (forall p :: 0 <= p < |pubs| && pubs[p].Owns() ==> maxRead < pubs[p].claim <= writeCursor)
    && (forall p :: 0 <= p < |pubs| && pubs[p].Committing? ==> pubs[p].claim == maxRead + 1)
  }

  ghost predicate ReaderOk<T>(cursor: nat, reader: Reader<T>, maxRead: nat) {
    match reader
    case Absent => cursor == VACANT
    case Registering => cursor == 0
    case Active(need, next, limit, passed, seen) =>
      && cursor <= need <= next <= maxRead + 1
      && 1 <= need
      && limit <= maxRead
      && (passed ==> next <= maxRead)
  }

  ghost predicate ReadersOk<T>(maxRead: nat, cursors: seq<nat>, readers: seq<Reader<T>>)
    requires |cursors| == |readers|
  {
    forall r :: 0 <= r < |readers| ==> ReaderOk(cursors[r], readers[r], maxRead)
  }

  /** What a publisher in the middle of a scan knows, although cursors have moved since. */
  ghost predicate ScanOk<T>(c: Config, pub: Publisher, readers: seq<Reader<T>>) {
    match pub
    case Scanning(claim, _, idx, slowest) =>
      && 1 <= claim && claim + 2 < VACANT && slowest <= VACANT && idx <= |readers|
      && (forall r :: 0 <= r < idx && readers[r].Active? ==>
            slowest <= readers[r].need && slowest < VACANT)
    case Idle => true
    case _ =>
      && 1 <= pub.claim && pub.claim + 2 < VACANT
      && (forall r :: 0 <= r < |readers| && readers[r].Active? ==>
            pub.claim < readers[r].need + c.entries)
  }

  ghost predicate ScansOk<T>(c: Config, pubs: seq<Publisher>, readers: seq<Reader<T>>) {
    forall p :: 0 <= p < |pubs| ==> ScanOk(c, pubs[p], readers)
  }

  ghost predicate SeenOk<T>(readers: seq<Reader<T>>, log: seq<T>) {
    forall r :: 0 <= r < |readers| ==> SeenIsLogPrefix(readers[r], log)
  }

  ghost predicate Inv<T>(c: Config, s: State<T>) {
    && ValidConfig(c) && WellShaped(c, s)
    && CursorsOk(s)
    && (!s.started ==> AllIdle(s.pubs))
    && ClaimsOk(s.maxRead, s.writeCursor, s.pubs, s.holders)
    && ReadersOk(s.maxRead, s.cursors, s.readers)
    && ScansOk(c, s.pubs, s.readers)
    && EntriesIntact(c, s.maxRead, s.slots, s.log, s.readers)
    && SeenOk(s.readers, s.log)
  }
}
