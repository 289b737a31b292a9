/**
 FIX_Popper::pop and FIX_Popper::session_pop as drivers of one ring reader. Both keep a counter and a
 cached limit, and ask the ring for a new limit only when the counter meets the cached one. A driver
 decides the reader's next ring action; everybody else's actions interleave freely.
 */
module Popper {
  import opened Ring
  import opened RingSafety
  import opened RingTheorems

  /** Pop reads an entry and then releases it; SessionPop releases the previous entry and then reads. */
  datatype Kind = Pop | SessionPop

  /**
   `n` is the entry being fetched, or the one last returned when Between calls. `upper` is the cached
   limit: entries below it are known to be readable.
   */
  datatype Driver =
    | Testing(n: nat, upper: nat)
    | Loading(n: nat, upper: nat)
    | Reading(n: nat, upper: nat)
    | Releasing(n: nat, upper: nat)
    | Between(n: nat, upper: nat)

  /** Start of the fetch of entry n: wait only if the cached limit is used up. */
  function Fetch(n: nat, upper: nat): (d: Driver) {
    if n == upper then Testing(n, upper) else Reading(n, upper)
  }

  /** The counter and the cached limit both start at the number the registration returned, 1. */
  function InitialDriver(kind: Kind): (d: Driver) {
    match kind
    case Pop => Fetch(1, 1)
    case SessionPop => Between(0, 1)
  }

  function DriverAction<T>(d: Driver, r: nat): (a: Action<T>) {
    match d
    case Testing(_, _) => WaitTest(r)
    case Loading(_, _) => WaitLoad(r)
    case Reading(_, _) => ReadNext(r)
    case Releasing(n, _) => Release(r, n, n + 1)
    case Between(n, _) => Release(r, n, n + 1)
  }

  function DriverNext(kind: Kind, d: Driver, maxRead: nat): (d': Driver) {
    match d
    case Testing(n, upper) => if upper > maxRead then d else Loading(n, upper)
    case Loading(n, _) => Reading(n, maxRead + 1)
    case Reading(n, upper) => if kind == Pop then Releasing(n, upper) else Between(n, upper)
    case Releasing(n, upper) => Fetch(n + 1, upper)
    case Between(n, upper) => Fetch(n + 1, upper)
  }

  predicate ByReader<T>(a: Action<T>, r: nat) {
    match a
    case RegisterSwap(q) => q == r
    case RegisterStore(q) => q == r
    case WaitTest(q) => q == r
    case WaitLoad(q) => q == r
    case ReadNext(q) => q == r
    case Release(q, _, _) => q == r
    case _ => false
  }

  /** From state `start` on, where reader r has just registered, its actions are the driver's. */
  ghost predicate IsDriven<T>(c: Config, states: seq<State<T>>, actions: seq<Action<T>>, start: nat,
                              kind: Kind, r: nat, drivers: seq<Driver>) {
    && IsRun(c, states, actions) && start < |states| && r < c.processors
    && |drivers| == |states|
    && states[start].readers[r] == Active(1, 1, 0, false, [])
    && drivers[start] == InitialDriver(kind)
    && (forall i :: start <= i < |actions| ==>
          if ByReader(actions[i], r) then
            && actions[i] == DriverAction(drivers[i], r)
            && drivers[i + 1] == DriverNext(kind, drivers[i], states[i].maxRead)
          else
            drivers[i + 1] == drivers[i])
  }

  ghost predicate DriverOk<T>(kind: Kind, d: Driver, reader: Reader<T>, maxRead: nat) {
    && reader.Active?
    && reader.passed == d.Loading?
    && reader.limit <= maxRead
    && match d
       case Testing(n, upper) => n == reader.next == reader.need == upper
       case Loading(n, upper) => n == reader.next == reader.need == upper && upper <= maxRead
       case Reading(n, upper) => n == reader.next == reader.need < upper <= reader.limit + 1
       case Releasing(n, upper) =>
         kind == Pop && 1 <= n && n + 1 == reader.next && reader.need == n < upper <= reader.limit + 1
       case Between(n, upper) =>
         && kind == SessionPop && n + 1 == reader.next && n < upper <= reader.limit + 1
         && reader.need == (if n == 0 then 1 else n)
  }

  /** Nobody but reader r changes reader r, and the limit of what is readable only grows. */
  lemma OthersLeaveReader<T>(c: Config, s: State<T>, a: Action<T>, r: nat)
    requires Inv(c, s) && Enabled(c, s, a) && r < c.processors && !ByReader(a, r)
    ensures Apply(c, s, a).readers[r] == s.readers[r] && s.maxRead <= Apply(c, s, a).maxRead
    ensures Apply(c, s, a).cursors[r] == s.cursors[r]
  {
  }

  lemma DriverStep<T>(c: Config, s: State<T>, kind: Kind, r: nat, d: Driver)
    requires Inv(c, s) && r < c.processors && DriverOk(kind, d, s.readers[r], s.maxRead)
    ensures Enabled(c, s, DriverAction(d, r))
    ensures var s' := Apply(c, s, DriverAction(d, r));
            DriverOk(kind, DriverNext(kind, d, s.maxRead), s'.readers[r], s'.maxRead)
  {
    assert ReaderOk(s.cursors[r], s.readers[r], s.maxRead);
  }

  lemma {:induction false} DriverStaysOk<T>(c: Config, states: seq<State<T>>, actions: seq<Action<T>>, start: nat,
                                            kind: Kind, r: nat, drivers: seq<Driver>, i: nat)
    requires IsDriven(c, states, actions, start, kind, r, drivers) && start <= i < |states|
    ensures DriverOk(kind, drivers[i], states[i].readers[r], states[i].maxRead)
    decreases i
  {
    if start < i {
      hide Apply, Enabled, CursorsOk, ClaimsOk, ReadersOk, ScansOk, EntriesIntact, SeenOk;
      DriverStaysOk(c, states, actions, start, kind, r, drivers, i - 1);
      RunKeepsInv(c, states, actions, i - 1);
      if ByReader(actions[i - 1], r) {
        DriverStep(c, states[i - 1], kind, r, drivers[i - 1]);
      } else {
        OthersLeaveReader(c, states[i - 1], actions[i - 1], r);
      }
    }
  }

  /**
   At every moment of every run the next action of pop or session_pop is possible (it may find that it
   has to wait), and what was returned so far is the log up to the counter: in ring order, each entry
   once. When an entry is fetched without waiting, it is committed and intact.
   */
  lemma PopsInRingOrder<T>(c: Config, states: seq<State<T>>, actions: seq<Action<T>>, start: nat,
                           kind: Kind, r: nat, drivers: seq<Driver>, i: nat)
    requires IsDriven(c, states, actions, start, kind, r, drivers) && start <= i < |states|
    ensures Enabled(c, states[i], DriverAction(drivers[i], r))
    ensures var returned := if drivers[i].Releasing? || drivers[i].Between? then drivers[i].n else drivers[i].n - 1;
            && 0 <= returned <= |states[i].log|
            && states[i].readers[r].Active?
            && states[i].readers[r].seen == states[i].log[..returned]
    ensures drivers[i].Reading? ==>
              && 1 <= drivers[i].n <= states[i].readers[r].limit <= states[i].maxRead == |states[i].log|
              && states[i].slots[Slot(c, drivers[i].n)] == states[i].log[drivers[i].n - 1]
  {
    var s := states[i];
    RunKeepsInv(c, states, actions, i);
    DriverStaysOk(c, states, actions, start, kind, r, drivers, i);
    DriverStep(c, s, kind, r, drivers[i]);
    assert SeenIsLogPrefix(s.readers[r], s.log);
    if drivers[i].Reading? {
      ReadIsLogEntry(c, s, r);
    }
  }

  /** What a driver's cached limit tells, once some entries are known to be readable. */
  predicate Knows(d: Driver, limit: nat) {
    limit < d.upper && (d.Testing? || d.Loading? ==> d.n == d.upper)
  }

  /**
   One look at the ring lets the driver fetch everything committed by then: it does not look again
   before it has come to a later entry.
   */
  lemma {:induction false} OneLookPerBatch<T>(c: Config, states: seq<State<T>>, actions: seq<Action<T>>, start: nat,
                                              kind: Kind, r: nat, drivers: seq<Driver>, i: nat, j: nat)
    requires IsDriven(c, states, actions, start, kind, r, drivers) && start <= i < j < |states|
    requires drivers[i].Loading? && ByReader(actions[i], r)
    ensures Knows(drivers[j], states[i].maxRead)
    ensures drivers[j].Testing? || drivers[j].Loading? ==> states[i].maxRead < drivers[j].n
    decreases j
  {
    assert |actions| + 1 == |states|;
    hide Apply, Enabled, Inv, DriverAction, DriverNext, DriverOk, IsRun;
    if j == i + 1 {
      LookedUp(kind, drivers[i], states[i].maxRead);
    } else {
      OneLookPerBatch(c, states, actions, start, kind, r, drivers, i, j - 1);
      DriverStaysOk(c, states, actions, start, kind, r, drivers, j - 1);
      KnowsOn(kind, drivers[j - 1], states[j - 1].readers[r], states[j - 1].maxRead, states[i].maxRead);
    }
  }

  lemma LookedUp(kind: Kind, d: Driver, maxRead: nat)
    requires d.Loading?
    ensures Knows(DriverNext(kind, d, maxRead), maxRead)
  {
  }

  lemma KnowsOn<T>(kind: Kind, d: Driver, reader: Reader<T>, maxRead: nat, limit: nat)
    requires Knows(d, limit) && DriverOk(kind, d, reader, maxRead)
    ensures Knows(DriverNext(kind, d, maxRead), limit)
  {
  }

  /**
   The buffer session_pop handed out stays the committed entry, and no publisher may write it, until
   the next session_pop releases it.
   */
  lemma SessionBufferIsNotReused<T>(c: Config, states: seq<State<T>>, actions: seq<Action<T>>, start: nat,
                                    r: nat, drivers: seq<Driver>, i: nat)
    requires IsDriven(c, states, actions, start, SessionPop, r, drivers) && start <= i < |states|
    requires drivers[i].Between? && 1 <= drivers[i].n
    ensures drivers[i].n <= |states[i].log|
    ensures states[i].slots[Slot(c, drivers[i].n)] == states[i].log[drivers[i].n - 1]
    ensures forall p :: 0 <= p < c.publishers && states[i].pubs[p].MayWrite() ==>
              Slot(c, states[i].pubs[p].claim) != Slot(c, drivers[i].n)
  {
    var s := states[i];
    RunKeepsInv(c, states, actions, i);
    InvIsSafe(c, s);
    DriverStaysOk(c, states, actions, start, SessionPop, r, drivers, i);
    assert ReaderOk(s.cursors[r], s.readers[r], s.maxRead);
    assert MayTouch(s.readers[r], drivers[i].n, s.maxRead);
  }
}
