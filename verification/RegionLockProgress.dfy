/** Progress of the region lock: from every reachable state every thread can be let in, shared or alone. */
module RegionLockProgress {
  import opened RegionLock

  /** `acts`, each enabled in turn, lead from s to t. */
  ghost predicate Leads(s: State, acts: seq<Action>, t: State)
    decreases |acts|
  {
    if acts == [] then s == t
    else Enabled(s, acts[0]) && Leads(Apply(s, acts[0]), acts[1..], t)
  }

  ghost predicate By(acts: seq<Action>, t: nat) {
    forall i :: 0 <= i < |acts| ==> acts[i].t == t
  }

  lemma {:induction false} LeadsOn(s: State, first: seq<Action>, t: State, then_: seq<Action>, u: State)
    requires Leads(s, first, t) && Leads(t, then_, u)
    ensures Leads(s, first + then_, u)
    decreases |first|
  {
    hide Apply, Enabled;
    if first == [] {
      assert first + then_ == then_;
    } else {
      LeadsOn(Apply(s, first[0]), first[1..], t, then_, u);
      assert (first + then_)[1..] == first[1..] + then_;
    }
  }

  lemma OneStep(s: State, a: Action)
    requires Inv(s) && Enabled(s, a)
    ensures Leads(s, [a], Apply(s, a)) && Inv(Apply(s, a))
  {
    StepKeepsInv(s, a);
    hide Inv, Apply, Enabled;
    assert Leads(Apply(s, a), [a][1..], Apply(s, a));
  }

  lemma TwoSteps(s: State, a: Action, b: Action)
    requires Inv(s) && Enabled(s, a) && Enabled(Apply(s, a), b)
    ensures Leads(s, [a, b], Apply(Apply(s, a), b)) && Inv(Apply(Apply(s, a), b))
  {
    hide Inv, Apply, Enabled;
    OneStep(s, a);
    OneStep(Apply(s, a), b);
    LeadsOn(s, [a], Apply(s, a), [b], Apply(Apply(s, a), b));
    assert [a] + [b] == [a, b];
  }

  /** Nobody holds or wants the high half. */
  lemma HighIsZero(s: State)
    requires Inv(s) && forall t :: 0 <= t < |s.pcs| ==> !Holds(s.pcs[t])
    ensures s.word.high == 0
  {
    NoHolders(s.pcs);
  }

  lemma {:induction false} NoHolders(pcs: seq<Pc>)
    requires forall t :: 0 <= t < |pcs| ==> !Holds(pcs[t])
    ensures CountHolders(pcs) == 0
  {
    if pcs != [] {
      NoHolders(pcs[1..]);
    }
  }

  lemma {:induction false} NobodyInside(pcs: seq<Pc>)
    requires forall t :: 0 <= t < |pcs| ==> !pcs[t].Inside?
    ensures CountInside(pcs) == 0
  {
    if pcs != [] {
      NobodyInside(pcs[1..]);
    }
  }

  /** While no blocker is about, a thread outside gets in by itself, whoever else is inside. */
  lemma LoneEnter(s: State, t: nat) returns (acts: seq<Action>, s': State)
    requires Inv(s) && t < |s.pcs| && s.pcs[t].Outside? && s.word.high == 0
    ensures Leads(s, acts, s') && Inv(s') && By(acts, t)
    ensures s' == State(s.word.(low := s.word.low + 1), s.pcs[t := Inside])
  {
    var a, b, c := CallEnter(t), LoadWord(t), SwapWord(t, false);
    OneStep(s, a);
    var u := Apply(s, a);
    TwoSteps(u, b, c);
    s' := Apply(Apply(u, b), c);
    LeadsOn(s, [a], u, [b, c], s');
    acts := [a] + [b, c];
    NotAllInside(s.pcs, t);
    assert s'.pcs == s.pcs[t := Inside];
  }

  /** With a thread outside, the count cannot be full. */
  lemma {:induction false} NotAllInside(pcs: seq<Pc>, t: nat)
    requires t < |pcs| && !pcs[t].Inside?
    ensures CountInside(pcs) < |pcs|
  {
    if t != 0 {
      NotAllInside(pcs[1..], t - 1);
    }
  }

  /** With nobody inside and no blocker about, a thread outside gets exclusive access by itself. */
  lemma LoneBlock(s: State, t: nat) returns (acts: seq<Action>, s': State)
    requires Inv(s) && t < |s.pcs| && s.pcs[t].Outside? && s.word == Word(0, 0)
    ensures Leads(s, acts, s') && Inv(s') && By(acts, t)
    ensures s' == State(Word(1, 0), s.pcs[t := Exclusive])
  {
    var a, b, c := CallBlock(t), SwapHigh(t, false), LoadLow(t);
    OneStep(s, a);
    var u := Apply(s, a);
    TwoSteps(u, b, c);
    s' := Apply(Apply(u, b), c);
    LeadsOn(s, [a], u, [b, c], s');
    acts := [a] + [b, c];
    assert s'.pcs == s.pcs[t := Exclusive];
  }

  /** Nobody among the first k threads is inside or holds the lock. */
  predicate Cleared(s: State, k: nat)
    requires k <= |s.pcs|
  {
    forall t :: 0 <= t < k ==> !s.pcs[t].Inside? && !Holds(s.pcs[t])
  }

  predicate OnlyLeaving(acts: seq<Action>) {
    forall i :: 0 <= i < |acts| ==> acts[i].Leave? || acts[i].Unblock?
  }

  /** Those inside leave and the blocker unblocks, one after the other. */
  lemma {:induction false} EverybodyLeaves(s: State, k: nat) returns (acts: seq<Action>, s': State)
    requires Inv(s) && k <= |s.pcs|
    ensures Leads(s, acts, s') && Inv(s') && |s'.pcs| == |s.pcs| && Cleared(s', k) && OnlyLeaving(acts)
    ensures forall t :: 0 <= t < |s.pcs| ==> s'.pcs[t] == s.pcs[t] || (s'.pcs[t].Outside? && !s.pcs[t].Outside?)
  {
    if k == 0 {
      acts, s' := [], s;
    } else {
      acts, s' := EverybodyLeaves(s, k - 1);
      var pc := s'.pcs[k - 1];
      if pc.Inside? || Holds(pc) {
        var a := if pc.Inside? then Leave(k - 1) else Unblock(k - 1);
        OneStep(s', a);
        LeadsOn(s, acts, s', [a], Apply(s', a));
        acts, s' := acts + [a], Apply(s', a);
      }
    }
  }

  /**
   From every reachable state, for every thread outside the lock: if those inside leave and the blocker
   unblocks, the thread gets in by itself, shared or with exclusive access as it likes.
   */
  lemma EverybodyGetsIn(states: seq<State>, actions: seq<Action>, i: nat, t: nat)
    returns (leave: seq<Action>, u: State, enter: seq<Action>, shared: State, block: seq<Action>, alone: State)
    requires IsRun(states, actions) && |states[0].pcs| < HALF && i < |states|
    requires t < |states[i].pcs| && states[i].pcs[t].Outside?
    ensures Leads(states[i], leave, u) && Leads(u, enter, shared) && Leads(u, block, alone)
    ensures OnlyLeaving(leave) && By(enter, t) && By(block, t)
    ensures |shared.pcs| == |alone.pcs| == |states[i].pcs| && shared.pcs[t].Inside? && alone.pcs[t].Exclusive?
    ensures forall q :: 0 <= q < |alone.pcs| && q != t ==> !alone.pcs[q].Inside? && !Holds(alone.pcs[q])
  {
    RunKeepsInv(states, actions, i);
    leave, u := EverybodyLeaves(states[i], |states[i].pcs|);
    HighIsZero(u);
    NobodyInside(u.pcs);
    enter, shared := LoneEnter(u, t);
    block, alone := LoneBlock(u, t);
  }
}
