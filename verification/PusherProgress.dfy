/** Whatever was pushed is sent: the thread alone gets everything out, from every reachable state. */
module PusherProgress {
  import opened Decimal
  import opened RoundTrip
  import opened Pusher

  /** Actions of the thread with nobody asking it to pause. */
  predicate ThreadAction(a: Action) {
    a == CheckPause(false) || a.Resume? || a.Poll? || a.SendOne? || a.Finish?
  }

  /** `acts`, each enabled in turn, lead from s to t. */
  ghost predicate ThreadLeads(s: State, acts: seq<Action>, t: State)
    decreases |acts|
  {
    if acts == [] then s == t
    else
      && ThreadAction(acts[0]) && WellShaped(s) && Enabled(s, acts[0])
      && ThreadLeads(Apply(s, acts[0]), acts[1..], t)
  }

  lemma {:induction false} LeadsOn(s: State, first: seq<Action>, t: State, then_: seq<Action>, u: State)
    requires ThreadLeads(s, first, t) && ThreadLeads(t, then_, u)
    ensures ThreadLeads(s, first + then_, u)
    decreases |first|
  {
    hide Apply, Enabled;
    if first == [] {
      assert first + then_ == then_;
    } else {
      LeadsOn(Apply(s, first[0]), first[1..], t, then_, u);
      assert (first + then_)[1..] == first[1..] + then_;
    }
  }

  lemma OneStep(n0: nat, s: State, a: Action)
    requires Inv(n0, s) && Enabled(s, a) && ThreadAction(a)
    ensures ThreadLeads(s, [a], Apply(s, a)) && Inv(n0, Apply(s, a))
  {
    ShapeOf(n0, s);
    hide Inv, Apply, Enabled;
    StepKeepsInv(n0, s, a);
    assert ThreadLeads(Apply(s, a), [a][1..], Apply(s, a));
  }

  /** The rest of a batch goes out. */
  lemma {:induction false} BatchIsSent(n0: nat, s: State) returns (acts: seq<Action>, t: State)
    requires Inv(n0, s) && s.pc.Sending?
    ensures ThreadLeads(s, acts, t) && Inv(n0, t)
    ensures t.logs == s.logs && t.cursors == s.cursors[s.pc.queue := s.pc.limit + 1] && t.pc == After(s.pc.queue)
    decreases s.pc.limit + 1 - s.pc.next
  {
    hide QueueOk, Numbered;
    var a := if s.pc.next <= s.pc.limit then SendOne else Finish;
    OneStep(n0, s, a);
    acts, t := [a], Apply(s, a);
    if a == SendOne {
      var u, more := t, [];
      more, t := BatchIsSent(n0, u);
      LeadsOn(s, [a], u, more, t);
      acts := [a] + more;
    }
  }

  /** One visit of a queue sends all of it. */
  lemma QueueIsSent(n0: nat, s: State) returns (acts: seq<Action>, t: State)
    requires Inv(n0, s) && s.pc.Polling?
    ensures ThreadLeads(s, acts, t) && Inv(n0, t)
    ensures t.logs == s.logs && t.pc == After(s.pc.queue)
    ensures t.cursors == s.cursors[s.pc.queue := |s.logs[s.pc.queue]| + 1]
  {
    assert QueueOk(s, s.pc.queue);
    hide Numbered;
    OneStep(n0, s, Poll);
    acts, t := [Poll], Apply(s, Poll);
    if t.pc.Sending? {
      var u, more := t, [];
      more, t := BatchIsSent(n0, u);
      LeadsOn(s, [Poll], u, more, t);
      acts := [Poll] + more;
    } else {
      assert s.cursors[s.pc.queue := |s.logs[s.pc.queue]| + 1] == s.cursors;
    }
  }

  /** The thread finishes its round, from wherever it is, and starts a new one at alfa. */
  lemma RoundEnds(n0: nat, s: State) returns (acts: seq<Action>, t: State)
    requires Inv(n0, s)
    ensures ThreadLeads(s, acts, t) && Inv(n0, t) && t.logs == s.logs && t.pc == Polling(Alfa)
  {
    hide Inv;
    acts, t := [], s;
    if s.pc.Sending? {
      acts, t := BatchIsSent(n0, s);
    }
    assert t.pc.Polling? ==> t.pc.queue.Alfa? || t.pc.queue.Bravo? || t.pc.queue.Charlie?;
    if t.pc == Polling(Bravo) {
      var more, u := QueueIsSent(n0, t);
      LeadsOn(s, acts, t, more, u);
      acts, t := acts + more, u;
    }
    if t.pc == Polling(Charlie) {
      var more, u := QueueIsSent(n0, t);
      LeadsOn(s, acts, t, more, u);
      acts, t := acts + more, u;
    }
    if t.pc == CheckingPause || t.pc == Paused {
      var a := if t.pc == Paused then Resume else CheckPause(false);
      ShapeOf(n0, t);
      OneStep(n0, t, a);
      LeadsOn(s, acts, t, [a], Apply(t, a));
      acts, t := acts + [a], Apply(t, a);
    }
  }

  lemma ShapeOf(n0: nat, s: State)
    requires Inv(n0, s)
    ensures WellShaped(s)
  {
  }

  /** A round that starts at alfa sends everything there is. */
  lemma RoundSendsAll(n0: nat, s: State) returns (acts: seq<Action>, t: State)
    requires Inv(n0, s) && s.pc == Polling(Alfa)
    ensures ThreadLeads(s, acts, t) && Inv(n0, t) && t.logs == s.logs && t.pc == CheckingPause
    ensures forall q :: t.cursors[q] == |t.logs[q]| + 1
  {
    hide QueueOk, Numbered;
    var more, u;
    acts, t := QueueIsSent(n0, s);
    more, u := QueueIsSent(n0, t);
    LeadsOn(s, acts, t, more, u);
    acts, t := acts + more, u;
    more, u := QueueIsSent(n0, t);
    LeadsOn(s, acts, t, more, u);
    acts, t := acts + more, u;
    forall q: QueueName
      ensures t.cursors[q] == |t.logs[q]| + 1
    {
      assert q == Alfa || q == Bravo || q == Charlie;
    }
  }

  lemma SentUpTo(n0: nat, s: State, q: QueueName)
    requires Inv(n0, s) && s.pc == CheckingPause && s.cursors[q] == |s.logs[q]| + 1
    ensures Only(s.sink, q) == s.logs[q]
  {
    assert QueueOk(s, q);
  }

  /** From every reachable state the thread alone, if nobody pauses it, sends whatever was pushed. */
  lemma EverythingIsSent(n0: nat, s: State) returns (acts: seq<Action>, t: State)
    requires Inv(n0, s)
    ensures ThreadLeads(s, acts, t) && Inv(n0, t) && t.logs == s.logs && t.pc == CheckingPause
    ensures forall q :: t.cursors[q] == |t.logs[q]| + 1 && Only(t.sink, q) == s.logs[q]
  {
    var u, more;
    acts, u := RoundEnds(n0, s);
    more, t := RoundSendsAll(n0, u);
    LeadsOn(s, acts, u, more, t);
    acts := acts + more;
    forall q: QueueName
      ensures t.cursors[q] == |t.logs[q]| + 1 && Only(t.sink, q) == s.logs[q]
    {
      SentUpTo(n0, t, q);
    }
  }

  /** The same over runs. */
  lemma EveryRunCanSendAll(n0: nat, states: seq<State>, actions: seq<Action>, i: nat)
    returns (acts: seq<Action>, t: State)
    requires IsRun(n0, states, actions) && i < |states|
    ensures ThreadLeads(states[i], acts, t) && t.logs == states[i].logs
    ensures forall q :: Only(t.sink, q) == states[i].logs[q]
  {
    RunKeepsInv(n0, states, actions, i);
    acts, t := EverythingIsSent(n0, states[i]);
  }
}
