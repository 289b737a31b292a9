/** The disruptor ring over whole runs: safety, and refinement of an append-only log. */
module RingTheorems {
  import opened Ring
  import opened RingSafety

  lemma {:induction false} RunKeepsInv<T>(c: Config, states: seq<State<T>>, actions: seq<Action<T>>, i: nat)
    requires IsRun(c, states, actions) && i < |states|
    ensures Inv(c, states[i])
  {
    if i == 0 {
      InitInv(c, states[0]);
    } else {
      RunKeepsInv(c, states, actions, i - 1);
      StepKeepsInv(c, states[i - 1], actions[i - 1]);
    }
  }

  /**
   In every state of every run, whatever the interleaving: no two publishers may write one slot, no
   publisher may write a slot some reader may still touch, such slots hold the committed values, and
   each reader has seen exactly the committed values in order.
   */
  lemma EveryRunIsSafe<T>(c: Config, states: seq<State<T>>, actions: seq<Action<T>>)
    requires IsRun(c, states, actions)
    ensures forall i :: 0 <= i < |states| ==> Safe(c, states[i])
  {
    forall i | 0 <= i < |states|
      ensures Safe(c, states[i])
    {
      RunKeepsInv(c, states, actions, i);
      InvIsSafe(c, states[i]);
    }
  }

  // ---------------------------------------------------------------- refinement of a log

  /** A log that only grows, and how many of its entries each reader has consumed. */
  datatype Log<T> = Log(entries: seq<T>, consumed: seq<nat>)

  datatype LogEvent<T> = Nothing | Appended(value: T) | Consumed(r: nat, value: T)

  ghost predicate LogStep<T>(a: Log<T>, e: LogEvent<T>, b: Log<T>) {
    match e
    case Nothing => b == a
    case Appended(v) => b == a.(entries := a.entries + [v])
    case Consumed(r, v) =>
      && r < |a.consumed| && a.consumed[r] < |a.entries|
      && v == a.entries[a.consumed[r]]
      && b == a.(consumed := a.consumed[r := a.consumed[r] + 1])
  }

  ghost function Position<T>(reader: Reader<T>): (n: nat) {
    if reader.Active? && 1 <= reader.next then reader.next - 1 else 0
  }

  ghost function AbstractLog<T>(s: State<T>): (a: Log<T>) {
    Log(s.log, seq(|s.readers|, r requires 0 <= r < |s.readers| => Position(s.readers[r])))
  }

  /** What the action shows outside: the value in the slot committed, or the value in the slot read. */
  ghost function Observed<T>(c: Config, s: State<T>, a: Action<T>): (e: LogEvent<T>)
    requires 0 < c.entries && WellShaped(c, s) && Enabled(c, s, a)
  {
    match a
    case CommitAdd(p) => Appended(s.slots[Slot(c, s.pubs[p].claim)])
    case ReadNext(r) => Consumed(r, s.slots[Slot(c, s.readers[r].next)])
    case _ => Nothing
  }

  /** Every ring action is a step of the log, or leaves the log alone. */
  lemma StepRefinesLog<T>(c: Config, s: State<T>, a: Action<T>)
    requires Inv(c, s) && Enabled(c, s, a)
    ensures LogStep(AbstractLog(s), Observed(c, s, a), AbstractLog(Apply(c, s, a)))
  {
    hide CursorsOk, ClaimsOk, ReadersOk, ScansOk, EntriesIntact, SeenOk;
    var s' := Apply(c, s, a);
    var a0, a1 := AbstractLog(s), AbstractLog(s');
    match a
    case ReadNext(r) =>
      ReadIsLogEntry(c, s, r);
      assert a1.consumed == a0.consumed[r := a0.consumed[r] + 1];
    case RegisterStore(r) =>
      assert a1.consumed == a0.consumed;
    case _ =>
      assert a1.consumed == a0.consumed;
  }

  lemma ReadIsLogEntry<T>(c: Config, s: State<T>, r: nat)
    requires Inv(c, s) && Enabled(c, s, Action<T>.ReadNext(r))
    ensures 1 <= s.readers[r].next <= |s.log|
    ensures s.slots[Slot(c, s.readers[r].next)] == s.log[s.readers[r].next - 1]
  {
    assert ReaderOk(s.cursors[r], s.readers[r], s.maxRead);
    assert MayTouch(s.readers[r], s.readers[r].next, s.maxRead);
  }

  /** The whole run refines the log. */
  lemma RunRefinesLog<T>(c: Config, states: seq<State<T>>, actions: seq<Action<T>>)
    requires IsRun(c, states, actions)
    ensures AbstractLog(states[0]) == Log([], seq(c.processors, r => 0))
    ensures forall i :: 0 <= i < |actions| ==>
              LogStep(AbstractLog(states[i]), Observed(c, states[i], actions[i]), AbstractLog(states[i + 1]))
  {
    forall i | 0 <= i < |actions|
      ensures LogStep(AbstractLog(states[i]), Observed(c, states[i], actions[i]), AbstractLog(states[i + 1]))
    {
      RunKeepsInv(c, states, actions, i);
      StepRefinesLog(c, states[i], actions[i]);
    }
  }

  // ---------------------------------------------------------------- a committed entry is what its publisher wrote

  /** The publisher neither writes nor commits in actions[i..j]. */
  ghost predicate Quiet<T>(actions: seq<Action<T>>, p: nat, i: nat, j: nat) {
    forall k :: i <= k < j && k < |actions| ==>
      !(actions[k].WriteSlot? && actions[k].p == p) && !(actions[k].CommitAdd? && actions[k].p == p)
  }

  lemma StepKeepsDraft<T>(c: Config, s: State<T>, a: Action<T>, p: nat)
    requires Inv(c, s) && Enabled(c, s, a) && p < |s.pubs| && s.pubs[p].MayWrite()
    requires !(a.WriteSlot? && a.p == p) && !(a.CommitAdd? && a.p == p)
    ensures Apply(c, s, a).pubs[p].MayWrite() && Apply(c, s, a).pubs[p].claim == s.pubs[p].claim
    ensures Apply(c, s, a).slots[Slot(c, s.pubs[p].claim)] == s.slots[Slot(c, s.pubs[p].claim)]
  {
    if a.WriteSlot? {
      InvIsSafe(c, s);
    }
  }

  lemma {:induction false} DraftSurvives<T>(c: Config, states: seq<State<T>>, actions: seq<Action<T>>, p: nat, i: nat, j: nat)
    requires IsRun(c, states, actions) && i <= j < |states|
    requires p < |states[i].pubs| && states[i].pubs[p].MayWrite()
    requires Quiet(actions, p, i, j)
    ensures p < |states[j].pubs| && states[j].pubs[p].MayWrite() && states[j].pubs[p].claim == states[i].pubs[p].claim
    ensures states[j].slots[Slot(c, states[i].pubs[p].claim)] == states[i].slots[Slot(c, states[i].pubs[p].claim)]
    decreases j
  {
    if i < j {
      DraftSurvives(c, states, actions, p, i, j - 1);
      RunKeepsInv(c, states, actions, j - 1);
      StepKeepsDraft(c, states[j - 1], actions[j - 1], p);
    }
  }

  /**
   The value a commit adds to the log is the last one its own publisher wrote, although any number of
   other publishers and readers ran in between.
   */
  lemma CommitsLastWrite<T>(c: Config, states: seq<State<T>>, actions: seq<Action<T>>, p: nat, i: nat, j: nat)
    requires IsRun(c, states, actions) && i < j < |actions|
    requires actions[i].WriteSlot? && actions[i].p == p
    requires actions[j].CommitAdd? && actions[j].p == p
    requires Quiet(actions, p, i + 1, j)
    ensures states[j + 1].log == states[j].log + [actions[i].value]
  {
    DraftSurvives(c, states, actions, p, i + 1, j);
  }
}
