/**
 Progress of the pusher on its rings: the thread alone sends whatever was committed, and releases enough
 for the publishers to go on.
 */
module PusherRingsProgress {
  import opened Decimal
  import opened Pusher
  import opened PusherRings
  import PusherProgress
  import Ring
  import RingSafety
  import RingProgress
  import Popper
  import RoundTrip

  /** Steps of the thread with nobody asking it to pause. */
  predicate ThreadStep(step: Step) {
    Mine(step) || step == SeePause(false) || step == Continue
  }

  /** `steps`, each possible in turn, lead from s to t. */
  ghost predicate SystemLeads(cs: Configs, s: System, steps: seq<Step>, t: System)
    decreases |steps|
  {
    if steps == [] then s == t
    else
      && ThreadStep(steps[0]) && Shaped(cs, s) && CanStep(cs, s, steps[0])
      && SystemLeads(cs, Take(cs, s, steps[0]), steps[1..], t)
  }

  lemma {:induction false} SystemLeadsOn(cs: Configs, s: System, first: seq<Step>, t: System, then_: seq<Step>, u: System)
    requires SystemLeads(cs, s, first, t) && SystemLeads(cs, t, then_, u)
    ensures SystemLeads(cs, s, first + then_, u)
    decreases |first|
  {
    hide Take, CanStep, Shaped;
    if first == [] {
      assert first + then_ == then_;
    } else {
      SystemLeadsOn(cs, Take(cs, s, first[0]), first[1..], t, then_, u);
      assert (first + then_)[1..] == first[1..] + then_;
    }
  }

  /** The thread's last release in each ring is not behind its own cursor. */
  ghost predicate Released(cs: Configs, s: System)
    requires Shaped(cs, s)
  {
    forall q :: s.cursors[q] <= s.rings[q].cursors[ME] + 1
  }

  /** t's rings differ from s's only in readers and their cursors. */
  ghost predicate SameRings(cs: Configs, s: System, t: System)
    requires Shaped(cs, s) && Shaped(cs, t)
  {
    forall q :: RingProgress.OnlyReaders(s.rings[q], t.rings[q])
  }

  /** What holds between the thread's steps. */
  ghost predicate Good(cs: Configs, s: System) {
    Shaped(cs, s) && AllInStep(cs, s) && Released(cs, s) && !s.place.Registering?
  }

  // ---------------------------------------------------------------- releases

  lemma CursorOnRing(c: Ring.Config, ring: RingState, a: RingAction)
    requires Ring.ValidConfig(c) && Ring.WellShaped(c, ring) && Ring.Enabled(c, ring, a) && 1 <= c.processors
    requires a.WaitTest? || a.WaitLoad? || a.ReadNext? || a.Release?
    requires a.r == ME
    ensures var ring' := Ring.Apply(c, ring, a);
            && RingProgress.OnlyReaders(ring, ring')
            && ring'.cursors[ME] == if a.Release? then a.cursor else ring.cursors[ME]
  {
  }

  /** The ring operation of a step of the thread, and what it does to the thread's reader there. */
  lemma OperationReleases(cs: Configs, s: System, step: Step)
    requires Shaped(cs, s) && CanStep(cs, s, step) && Mine(step)
    ensures var (q, a) := (s.place.queue, Operation(s, step));
            var ring := Ring.Apply(cs[q], s.rings[q], a);
            && |s.rings[q].cursors| == |ring.cursors| == cs[q].processors && ME < cs[q].processors
            && RingProgress.OnlyReaders(s.rings[q], ring)
            && ring.cursors[ME] == if step.Done? then s.place.limit else s.rings[q].cursors[ME]
  {
    var q := s.place.queue;
    assert Ring.ValidConfig(cs[q]) && Ring.WellShaped(cs[q], s.rings[q]);
    hide Ring.Apply, Ring.Enabled, RingProgress.OnlyReaders;
    CursorOnRing(cs[q], s.rings[q], Operation(s, step));
  }

  lemma MineReleases(cs: Configs, s: System, step: Step)
    requires Shaped(cs, s) && Released(cs, s) && CanStep(cs, s, step) && Mine(step)
    ensures Released(cs, Take(cs, s, step)) && SameRings(cs, s, Take(cs, s, step))
  {
    assert Fits(s, step);
    hide Ring.Apply, Ring.Enabled, Take, Named, ThreadAfter, CanStep, Operation;
    OperationReleases(cs, s, step);
    TakeMine(cs, s, step);
    AfterCursors(s, step, s.rings[s.place.queue].maxRead, Named(cs, s));
    var t := Take(cs, s, step);
    forall p: QueueName
      ensures t.cursors[p] <= t.rings[p].cursors[ME] + 1 && RingProgress.OnlyReaders(s.rings[p], t.rings[p])
    {
      assert s.cursors[p] <= s.rings[p].cursors[ME] + 1;
    }
  }

  lemma AfterCursors(s: System, step: Step, maxRead: nat, msg: RoundTrip.Outgoing)
    requires Mine(step) && Fits(s, step) && s.place.queue in s.cursors
    ensures ThreadAfter(s, step, maxRead, msg).cursors
            == if step.Done? then s.cursors[s.place.queue := s.place.limit + 1] else s.cursors
  {
  }

  lemma StepReleases(cs: Configs, s: System, step: Step)
    requires Shaped(cs, s) && AllInStep(cs, s) && Released(cs, s) && CanStep(cs, s, step)
    ensures Released(cs, Take(cs, s, step))
  {
    if Mine(step) {
      MineReleases(cs, s, step);
    } else if step.OnRing? {
      assert InStep(cs, s, step.q);
      OthersRelease(cs, s, step.q, step.a);
    } else {
      hide Ring.WellShaped;
    }
  }

  lemma OthersRelease(cs: Configs, s: System, q: QueueName, a: RingAction)
    requires Shaped(cs, s) && InStep(cs, s, q) && Released(cs, s) && CanStep(cs, s, OnRing(q, a))
    ensures Released(cs, Take(cs, s, OnRing(q, a)))
  {
    if !Popper.ByReader(a, ME) {
      Popper.OthersLeaveReader(cs[q], s.rings[q], a, ME);
      hide Ring.Apply, Ring.Enabled, Ring.Inv, Popper.ByReader;
    } else {
      hide Ring.Inv;
    }
  }

  lemma {:induction false} RunReleases(cs: Configs, n0: nat, states: seq<System>, steps: seq<Step>, i: nat)
    requires IsSystemRun(cs, n0, states, steps) && i < |states|
    ensures AllInStep(cs, states[i]) && Released(cs, states[i])
    decreases i
  {
    hide Take, CanStep, InStep, Ring.WellShaped, Released, Initial, AllInStep;
    var _, _ := RunRefines(cs, n0, states, steps, i);
    if i == 0 {
      InitialReleases(cs, n0, states[0]);
    } else {
      RunReleases(cs, n0, states, steps, i - 1);
      StepReleases(cs, states[i - 1], steps[i - 1]);
    }
  }

  lemma InitialReleases(cs: Configs, n0: nat, s: System)
    requires Shaped(cs, s) && Initial(cs, n0, s)
    ensures Released(cs, s)
  {
    hide Ring.Init;
    assert forall q :: s.cursors[q] == 1;
  }

  // ---------------------------------------------------------------- lifting the thread's actions

  /** One step of the thread that is possible. */
  lemma ThreadCanStep(cs: Configs, s: System, step: Step)
    requires Good(cs, s) && ThreadStep(step) && Fits(s, step)
    ensures CanStep(cs, s, step)
  {
    hide Released, Ring.WellShaped;
    if Mine(step) {
      assert InStep(cs, s, s.place.queue);
      MineIsEnabled(cs, s, step);
    }
  }

  lemma StepStaysGood(cs: Configs, s: System, step: Step)
    requires Good(cs, s) && ThreadStep(step) && CanStep(cs, s, step)
    ensures Good(cs, Take(cs, s, step)) && SameRings(cs, s, Take(cs, s, step))
  {
    StepKeepsStep(cs, s, step);
    StepReleases(cs, s, step);
    if Mine(step) {
      hide Take, CanStep, InStep, Ring.WellShaped, Released, RingProgress.OnlyReaders;
      MineReleases(cs, s, step);
      StaysRegistered(cs, s, step);
    } else {
      hide CanStep, InStep, Ring.WellShaped, Released;
    }
  }

  /** One step of the thread, and what it keeps. */
  lemma OneThreadStep(cs: Configs, s: System, step: Step) returns (t: System)
    requires Good(cs, s) && ThreadStep(step) && Fits(s, step)
    ensures CanStep(cs, s, step) && t == Take(cs, s, step) && SystemLeads(cs, s, [step], t)
    ensures Good(cs, t) && SameRings(cs, s, t) && Refines(cs, s, step)
  {
    hide Take, CanStep, InStep, Refines, Ring.WellShaped, Released, SameRings;
    ThreadCanStep(cs, s, step);
    StepStaysGood(cs, s, step);
    StepRefines(cs, s, step);
    t := Take(cs, s, step);
    assert SystemLeads(cs, t, [step][1..], t);
  }

  lemma StaysRegistered(cs: Configs, s: System, step: Step)
    requires Shaped(cs, s) && CanStep(cs, s, step) && Mine(step)
    ensures !Take(cs, s, step).place.Registering?
  {
    hide Ring.Apply, Ring.Enabled, Ring.WellShaped, Named;
  }

  /** The thread's step for an action of the pusher on logs. */
  function StepFor(s: System, a: Action): (step: Step)
    requires PusherProgress.ThreadAction(a)
  {
    match a
    case CheckPause(_) => SeePause(false)
    case Resume => Continue
    case Poll => if s.place.Loading? then Load else Test
    case SendOne => Send
    case Finish => Done
  }

  /** Every action of the thread on logs can be done on the rings, in one step or two. */
  lemma ActionIsDone(cs: Configs, s: System, a: Action) returns (steps: seq<Step>, t: System)
    requires Good(cs, s) && PusherProgress.ThreadAction(a) && Enabled(Abstract(cs, s), a)
    ensures SystemLeads(cs, s, steps, t) && Good(cs, t) && SameRings(cs, s, t)
    ensures Abstract(cs, t) == Apply(Abstract(cs, s), a)
  {
    hide Ring.WellShaped, InStep, Released, Apply, Take, CanStep, SameRings;
    var step := StepFor(s, a);
    t := OneThreadStep(cs, s, step);
    steps := [step];
    if ShadowOf(cs, s, step).Idle? {
      var u := t;
      TestPassed(cs, s);
      t := OneThreadStep(cs, u, Load);
      SystemLeadsOn(cs, s, [step], u, [Load], t);
      SameRingsTwice(cs, s, u, t);
      steps := [step] + [Load];
    }
  }

  lemma TestPassed(cs: Configs, s: System)
    requires Shaped(cs, s) && CanStep(cs, s, Test) && ShadowOf(cs, s, Test).Idle?
    ensures Take(cs, s, Test).place == Loading(s.place.queue)
  {
    hide Ring.Apply, Ring.Enabled, Ring.WellShaped, Named;
  }

  lemma SameRingsTwice(cs: Configs, s: System, t: System, u: System)
    requires Shaped(cs, s) && Shaped(cs, t) && Shaped(cs, u) && SameRings(cs, s, t) && SameRings(cs, t, u)
    ensures SameRings(cs, s, u)
  {
    hide Ring.WellShaped;
    forall q: QueueName
      ensures RingProgress.OnlyReaders(s.rings[q], u.rings[q])
    {
      assert RingProgress.OnlyReaders(s.rings[q], t.rings[q]) && RingProgress.OnlyReaders(t.rings[q], u.rings[q]);
    }
  }

  lemma {:induction false} ActionsAreDone(cs: Configs, s: System, acts: seq<Action>, p: State) returns (steps: seq<Step>, t: System)
    requires Good(cs, s) && PusherProgress.ThreadLeads(Abstract(cs, s), acts, p)
    ensures SystemLeads(cs, s, steps, t) && Good(cs, t) && SameRings(cs, s, t) && Abstract(cs, t) == p
    decreases |acts|
  {
    hide Ring.WellShaped, InStep, Released, Apply, Enabled, Abstract;
    if acts == [] {
      steps, t := [], s;
    } else {
      var u, more;
      steps, u := ActionIsDone(cs, s, acts[0]);
      more, t := ActionsAreDone(cs, u, acts[1..], p);
      SystemLeadsOn(cs, s, steps, u, more, t);
      SameRingsTwice(cs, s, u, t);
      steps := steps + more;
    }
  }

  // ---------------------------------------------------------------- theorems

  /**
   From every reachable state in which the thread has registered, it alone, if nobody pauses it, sends
   whatever was committed to any of the three rings.
   */
  lemma CommittedIsSent(cs: Configs, n0: nat, states: seq<System>, steps: seq<Step>, i: nat)
    returns (more: seq<Step>, t: System)
    requires IsSystemRun(cs, n0, states, steps) && i < |states| && !states[i].place.Registering?
    ensures SystemLeads(cs, states[i], more, t) && Good(cs, t) && SameRings(cs, states[i], t)
    ensures t.place == AtPause && forall q :: t.cursors[q] == |t.rings[q].log| + 1
    ensures forall q :: Only(t.sink, q) == states[i].rings[q].log
  {
    hide Inv, InStep, Take, CanStep, Ring.WellShaped, Released, Initial, AllInStep;
    var s := states[i];
    RunReleases(cs, n0, states, steps, i);
    var ps, pa := RunRefines(cs, n0, states, steps, i);
    RunKeepsInv(n0, ps, pa, |ps| - 1);
    hide IsSystemRun, IsRun;
    var acts, p := PusherProgress.EverythingIsSent(n0, Abstract(cs, s));
    more, t := ActionsAreDone(cs, s, acts, p);
    LogsOf(cs, s);
    LogsOf(cs, t);
  }

  lemma LogsOf(cs: Configs, s: System)
    requires Shaped(cs, s)
    ensures forall q :: Abstract(cs, s).logs[q] == s.rings[q].log
  {
  }

  /** Then the lowest open claim of any ring with no other reader can be committed by its owner alone. */
  lemma PublishersGetRoom(cs: Configs, n0: nat, states: seq<System>, steps: seq<Step>, i: nat, q: QueueName)
    returns (more: seq<Step>, t: System, commit: seq<RingAction>, ring: RingState)
    requires IsSystemRun(cs, n0, states, steps) && i < |states| && !states[i].place.Registering?
    requires cs[q].processors == 1 && states[i].rings[q].maxRead < states[i].rings[q].writeCursor
    ensures SystemLeads(cs, states[i], more, t) && q in t.rings && 0 < |states[i].rings[q].holders|
    ensures RingProgress.Leads(cs[q], t.rings[q], commit, ring)
    ensures RingProgress.ByPublisher(commit, states[i].rings[q].holders[0])
    ensures ring.maxRead == states[i].rings[q].maxRead + 1
  {
    var before := states[i].rings[q];
    more, t := CommittedIsSent(cs, n0, states, steps, i);
    assert RingProgress.OnlyReaders(before, t.rings[q]);
    assert InStep(cs, t, q) && t.cursors[q] <= t.rings[q].cursors[ME] + 1;
    hide IsSystemRun, SystemLeads, AllInStep, Released, Shaped, SameRings, Agrees, Ring.Inv, Only;
    commit, ring := AloneCommits(cs[q], t.rings[q]);
  }

  /** A reader alone on its ring that released everything. */
  lemma AloneCommits(c: Ring.Config, ring: RingState) returns (commit: seq<RingAction>, ring': RingState)
    requires Ring.Inv(c, ring) && c.processors == 1 && |ring.log| <= ring.cursors[ME] && ring.maxRead < ring.writeCursor
    ensures 0 < |ring.holders| && RingProgress.Leads(c, ring, commit, ring')
    ensures RingProgress.ByPublisher(commit, ring.holders[0]) && ring'.maxRead == ring.maxRead + 1
  {
    assert RingProgress.CaughtUp(c, ring);
    assert 0 < |ring.holders|;
    hide Ring.Inv, RingProgress.CaughtUp, RingProgress.Leads;
    commit, ring' := RingProgress.LowestClaimCommits(c, ring);
  }
}
