/**
 The region lock: a 64 bit word whose low half counts the accessors inside and whose high half is the
 blocker's lock. Every atomic operation is one action of one thread.
 */
module RegionLock {

  const HALF: nat := 0x1_0000_0000

  datatype Word = Word(high: nat, low: nat)

  /** The 64 bit word plus one and minus one, with carry and borrow between the halves. */
  function Plus1(w: Word): (v: Word) {
    if w.low + 1 < HALF then w.(low := w.low + 1) else Word((w.high + 1) % HALF, 0)
  }

  function Minus1(w: Word): (v: Word) {
    if 0 < w.low then w.(low := w.low - 1)
    else Word(if 0 < w.high then w.high - 1 else HALF - 1, HALF - 1)
  }

  /** Where a thread is in enter_region, leave_region, block_region, waitfor_region or unblock_region. */
  datatype Pc =
    | Outside
    | EnterLoading
    | EnterSwapping(lck: Word)
    | Inside
    | Blocking
    | Blocked
    | Exclusive

  datatype State = State(word: Word, pcs: seq<Pc>)

  /** `spurious` lets a weak compare-and-swap fail although the values agree. */
  datatype Action =
    | CallEnter(t: nat)
    | LoadWord(t: nat)
    | SwapWord(t: nat, spurious: bool)
    | Leave(t: nat)
    | CallBlock(t: nat)
    | SwapHigh(t: nat, spurious: bool)
    | LoadLow(t: nat)
    | Unblock(t: nat)

  predicate Init(s: State) {
    s.word == Word(0, 0) && forall t :: 0 <= t < |s.pcs| ==> s.pcs[t] == Outside
  }

  predicate Enabled(s: State, a: Action) {
    && a.t < |s.pcs|
    && match a
       case CallEnter(t) => s.pcs[t].Outside?
       case LoadWord(t) => s.pcs[t].EnterLoading?
       case SwapWord(t, _) => s.pcs[t].EnterSwapping?
       case Leave(t) => s.pcs[t].Inside?
       case CallBlock(t) => s.pcs[t].Outside?
       case SwapHigh(t, _) => s.pcs[t].Blocking?
       case LoadLow(t) => s.pcs[t].Blocked?
       case Unblock(t) => s.pcs[t].Blocked? || s.pcs[t].Exclusive?
  }

  function Apply(s: State, a: Action): (s': State)
    requires Enabled(s, a)
  {
    match a
    case CallEnter(t) => s.(pcs := s.pcs[t := EnterLoading])
    case LoadWord(t) =>
      // keep loading while a blocker holds the high half
      if s.word.high != 0 then s else s.(pcs := s.pcs[t := EnterSwapping(s.word)])
    case SwapWord(t, spurious) =>
      if s.word == s.pcs[t].lck && !spurious then State(Plus1(s.word), s.pcs[t := Inside])
      else s.(pcs := s.pcs[t := EnterLoading])
    case Leave(t) => State(Minus1(s.word), s.pcs[t := Outside])
    case CallBlock(t) => s.(pcs := s.pcs[t := Blocking])
    case SwapHigh(t, spurious) =>
      if s.word.high == 0 && !spurious then State(s.word.(high := 1), s.pcs[t := Blocked]) else s
    case LoadLow(t) => if s.word.low != 0 then s else s.(pcs := s.pcs[t := Exclusive])
    case Unblock(t) => State(s.word.(high := 0), s.pcs[t := Outside])
  }

  ghost predicate IsRun(states: seq<State>, actions: seq<Action>) {
    && |states| == |actions| + 1
    && Init(states[0])
    && (forall i :: 0 <= i < |actions| ==>
          Enabled(states[i], actions[i]) && states[i + 1] == Apply(states[i], actions[i]))
  }

  predicate Holds(pc: Pc) {
    pc.Blocked? || pc.Exclusive?
  }

  function CountInside(pcs: seq<Pc>): (n: nat)
    ensures n <= |pcs|
  {
    if pcs == [] then 0 else CountInside(pcs[1..]) + (if pcs[0].Inside? then 1 else 0)
  }

  function CountHolders(pcs: seq<Pc>): (n: nat)
    ensures n <= |pcs|
  {
    if pcs == [] then 0 else CountHolders(pcs[1..]) + (if Holds(pcs[0]) then 1 else 0)
  }

  /** One blocker at most; and while a thread has exclusive access, nobody is inside. */
  ghost predicate Excludes(s: State) {
    && (forall t, u :: 0 <= t < |s.pcs| && 0 <= u < |s.pcs| && Holds(s.pcs[t]) && Holds(s.pcs[u]) ==> t == u)
    && (forall t, u :: 0 <= t < |s.pcs| && 0 <= u < |s.pcs| && s.pcs[t].Exclusive? ==> !s.pcs[u].Inside?)
  }

  ghost predicate Inv(s: State) {
    && |s.pcs| < HALF
    && s.word.low == CountInside(s.pcs)
    && s.word.high == CountHolders(s.pcs) <= 1
    && (forall t :: 0 <= t < |s.pcs| && s.pcs[t].EnterSwapping? ==> s.pcs[t].lck.high == 0)
    && (forall t :: 0 <= t < |s.pcs| && s.pcs[t].Exclusive? ==> s.word.low == 0)
  }

  /** How the two counts change with one thread. */
  lemma {:induction false} CountUpdate(pcs: seq<Pc>, t: nat, pc: Pc)
    requires t < |pcs|
    ensures CountInside(pcs[t := pc]) + (if pcs[t].Inside? then 1 else 0)
            == CountInside(pcs) + (if pc.Inside? then 1 else 0)
    ensures CountHolders(pcs[t := pc]) + (if Holds(pcs[t]) then 1 else 0)
            == CountHolders(pcs) + (if Holds(pc) then 1 else 0)
  {
    if t == 0 {
      assert pcs[t := pc][1..] == pcs[1..];
    } else {
      assert pcs[t := pc][1..] == pcs[1..][t - 1 := pc];
      CountUpdate(pcs[1..], t - 1, pc);
    }
  }

  lemma {:induction false} NoneInside(pcs: seq<Pc>, t: nat)
    requires CountInside(pcs) == 0 && t < |pcs|
    ensures !pcs[t].Inside?
  {
    if t != 0 {
      NoneInside(pcs[1..], t - 1);
    }
  }

  lemma {:induction false} NotEmpty(pcs: seq<Pc>, t: nat)
    requires t < |pcs|
    ensures pcs[t].Inside? ==> 1 <= CountInside(pcs)
    ensures Holds(pcs[t]) ==> 1 <= CountHolders(pcs)
  {
    if t != 0 {
      NotEmpty(pcs[1..], t - 1);
    }
  }

  lemma {:induction false} TwoHolders(pcs: seq<Pc>, t: nat, u: nat)
    requires t < u < |pcs| && Holds(pcs[t]) && Holds(pcs[u])
    ensures 2 <= CountHolders(pcs)
  {
    if t == 0 {
      NotEmpty(pcs[1..], u - 1);
    } else {
      TwoHolders(pcs[1..], t - 1, u - 1);
    }
  }

  lemma StepKeepsInv(s: State, a: Action)
    requires Inv(s) && Enabled(s, a)
    ensures Inv(Apply(s, a))
  {
    var s' := Apply(s, a);
    CountUpdate(s.pcs, a.t, s'.pcs[a.t]);
    NotEmpty(s.pcs, a.t);
    assert s'.pcs == s.pcs[a.t := s'.pcs[a.t]];
    if a.SwapWord? {
      // a blocker with exclusive access would have made the word differ from the loaded one
      forall t | 0 <= t < |s.pcs| && s.pcs[t].Exclusive?
        ensures s.word.high != 0
      {
        NotEmpty(s.pcs, t);
      }
    }
  }

  lemma InvExcludes(s: State)
    requires Inv(s)
    ensures Excludes(s)
  {
    forall t, u | 0 <= t < |s.pcs| && 0 <= u < |s.pcs| && Holds(s.pcs[t]) && Holds(s.pcs[u])
      ensures t == u
    {
      if t < u {
        TwoHolders(s.pcs, t, u);
      } else if u < t {
        TwoHolders(s.pcs, u, t);
      }
    }
    forall t, u | 0 <= t < |s.pcs| && 0 <= u < |s.pcs| && s.pcs[t].Exclusive?
      ensures !s.pcs[u].Inside?
    {
      NoneInside(s.pcs, u);
    }
  }

  lemma {:induction false} AllOutside(pcs: seq<Pc>)
    requires forall t :: 0 <= t < |pcs| ==> pcs[t] == Outside
    ensures CountInside(pcs) == 0 && CountHolders(pcs) == 0
  {
    if pcs != [] {
      AllOutside(pcs[1..]);
    }
  }

  lemma {:induction false} RunKeepsInv(states: seq<State>, actions: seq<Action>, i: nat)
    requires IsRun(states, actions) && |states[0].pcs| < HALF && i < |states|
    ensures Inv(states[i])
  {
    if i == 0 {
      AllOutside(states[0].pcs);
    } else {
      RunKeepsInv(states, actions, i - 1);
      StepKeepsInv(states[i - 1], actions[i - 1]);
    }
  }

  /**
   Over every interleaving of fewer than 2^32 threads the lock excludes, and its low half is the number
   of accessors inside.
   */
  lemma EveryRunExcludes(states: seq<State>, actions: seq<Action>)
    requires IsRun(states, actions) && |states[0].pcs| < HALF
    ensures forall i :: 0 <= i < |states| ==>
              Excludes(states[i]) && states[i].word.low == CountInside(states[i].pcs)
  {
    forall i | 0 <= i < |states|
      ensures Excludes(states[i]) && states[i].word.low == CountInside(states[i].pcs)
    {
      RunKeepsInv(states, actions, i);
      InvExcludes(states[i]);
    }
  }
}
