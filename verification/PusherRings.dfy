/**
 The pusher thread on its three rings. Each of its steps is one operation on a ring or on its own
 variables; the publishers' operations on the rings interleave freely. Every run of this system is a run of
 the pusher on plain logs.
 */
module PusherRings {
  import opened Decimal
  import opened Pusher
  import opened RoundTrip
  import Ring
  import RingSafety
  import RingTheorems
  import Popper

  type RingState = Ring.State<Outgoing>
  type RingAction = Ring.Action<Outgoing>

  /** The thread is reader 0 of each ring. */
  const ME: nat := 0

  /** Where the thread is; Testing and Loading are the two loads of wait_for_nonblocking. */
  datatype Place =
    | Registering
    | AtPause
    | InPause
    | Testing(queue: QueueName)
    | Loading(queue: QueueName)
    | Batch(queue: QueueName, next: nat, limit: nat)

  datatype System = System(
    rings: map<QueueName, RingState>,
    cursors: map<QueueName, nat>,
    place: Place,
    number: nat,
    stored: nat,
    sink: seq<Sent>)

  datatype Step =
    | OnRing(q: QueueName, a: RingAction)
    | Begin
    | SeePause(paused: bool)
    | FailToClose
    | Continue
    | Test
    | Load
    | Send
    | Done

  type Configs = map<QueueName, Ring.Config>

  ghost predicate ValidConfigs(cs: Configs) {
    forall q :: q in cs && Ring.ValidConfig(cs[q]) && 1 <= cs[q].processors
  }

  ghost predicate Shaped(cs: Configs, s: System) {
    && ValidConfigs(cs) && (forall q :: q in s.cursors)
    && (forall q :: q in s.rings && Ring.WellShaped(cs[q], s.rings[q]))
  }

  ghost predicate Initial(cs: Configs, n0: nat, s: System)
    requires Shaped(cs, s)
  {
    && (forall q :: Ring.Init(cs[q], s.rings[q]) && s.cursors[q] == 1)
    && s.place == Registering && s.number == s.stored == n0 && s.sink == []
  }

  /** Steps in which the thread operates on the ring of the queue it is at. */
  predicate Mine(step: Step) {
    step.Test? || step.Load? || step.Send? || step.Done?
  }

  /** The ring operation the thread's step consists of. */
  function Operation(s: System, step: Step): (a: RingAction)
    requires Mine(step) && Fits(s, step)
  {
    match step
    case Test => Ring.WaitTest(ME)
    case Load => Ring.WaitLoad(ME)
    case Send => Ring.ReadNext(ME)
    case Done => Ring.Release(ME, s.place.limit, s.place.limit + 1)
  }

  /** Whose turn it can be: the thread's place fits the step. */
  predicate Fits(s: System, step: Step) {
    match step
    case OnRing(_, a) =>
      !Popper.ByReader(a, ME) || (s.place.Registering? && (a == Ring.RegisterSwap(ME) || a == Ring.RegisterStore(ME)))
    case Begin => s.place.Registering?
    case SeePause(_) => s.place.AtPause?
    case FailToClose => s.place.AtPause?
    case Continue => s.place.InPause?
    case Test => s.place.Testing?
    case Load => s.place.Loading?
    case Send => s.place.Batch? && s.place.next <= s.place.limit
    case Done => s.place.Batch? && s.place.limit < s.place.next
  }

  ghost predicate CanStep(cs: Configs, s: System, step: Step)
    requires Shaped(cs, s)
  {
    && Fits(s, step)
    && (step.OnRing? ==> Ring.Enabled(cs[step.q], s.rings[step.q], step.a))
    && (step.Begin? ==> forall q :: s.rings[q].readers[ME].Active?)
    && (Mine(step) ==> Ring.Enabled(cs[s.place.queue], s.rings[s.place.queue], Operation(s, step)))
  }

  function Onward(q: QueueName): (p: Place) {
    match q
    case Alfa => Testing(Bravo)
    case Bravo => Testing(Charlie)
    case Charlie => AtPause
  }

  /** The thread's variables after its own step; `msg` is in the slot of the entry its counter names. */
  function ThreadAfter(s: System, step: Step, maxRead: nat, msg: Outgoing): (s': System)
    requires Mine(step) && Fits(s, step) && s.place.queue in s.cursors
    ensures s'.rings == s.rings
  {
    var q := s.place.queue;
    match step
    case Test => s.(place := if s.cursors[q] <= maxRead then Loading(q) else Onward(q))
    case Load => s.(place := Batch(q, s.cursors[q], maxRead))
    case Send =>
      var n := Inc64(s.number);
      s.(number := n, sink := s.sink + [Sent(q, msg, n)], place := s.place.(next := s.place.next + 1))
    case Done => s.(cursors := s.cursors[q := s.place.limit + 1], place := Onward(q))
  }

  /** The first entry of queue q the thread has not sent. */
  function Counter(s: System, q: QueueName): (n: nat)
    requires q in s.cursors
  {
    if s.place.Batch? && s.place.queue == q then s.place.next else s.cursors[q]
  }

  /** The message in the slot of the entry the thread's counter names. */
  ghost function Named(cs: Configs, s: System): (msg: Outgoing)
    requires Shaped(cs, s) && (s.place.Testing? || s.place.Loading? || s.place.Batch?)
  {
    var q := s.place.queue;
    s.rings[q].slots[Ring.Slot(cs[q], Counter(s, q))]
  }

  ghost function Take(cs: Configs, s: System, step: Step): (s': System)
    requires Shaped(cs, s) && CanStep(cs, s, step)
    ensures Shaped(cs, s')
  {
    hide Ring.Apply, Ring.Enabled, Ring.WellShaped;
    match step
    case OnRing(q, a) => s.(rings := s.rings[q := Ring.Apply(cs[q], s.rings[q], a)])
    case Begin => s.(place := AtPause)
    case SeePause(paused) => if paused then s.(place := InPause, stored := s.number) else s.(place := Testing(Alfa))
    case FailToClose => s.(stored := s.number)
    case Continue => s.(place := Testing(Alfa), number := s.stored)
    case _ =>
      var q := s.place.queue;
      ThreadAfter(s, step, s.rings[q].maxRead, Named(cs, s)).(
        rings := s.rings[q := Ring.Apply(cs[q], s.rings[q], Operation(s, step))])
  }

  ghost predicate IsSystemRun(cs: Configs, n0: nat, states: seq<System>, steps: seq<Step>) {
    && |states| == |steps| + 1
    && (forall i :: 0 <= i < |states| ==> Shaped(cs, states[i]))
    && Initial(cs, n0, states[0])
    && (forall i :: 0 <= i < |steps| ==> CanStep(cs, states[i], steps[i]) && states[i + 1] == Take(cs, states[i], steps[i]))
  }

  // ---------------------------------------------------------------- the pusher on logs

  function PcOf(p: Place): (pc: Pc) {
    match p
    case Registering => CheckingPause
    case AtPause => CheckingPause
    case InPause => Paused
    case Testing(q) => Polling(q)
    case Loading(q) => Polling(q)
    case Batch(q, next, limit) => Sending(q, next, limit)
  }

  ghost function Abstract(cs: Configs, s: System): (p: Pusher.State)
    requires Shaped(cs, s)
    ensures WellShaped(p)
  {
    State(map q: QueueName | q in s.rings :: s.rings[q].log, s.cursors, PcOf(s.place), s.number, s.stored, s.sink)
  }

  /** The step of the pusher on logs a step stands for; Idle if it changes nothing there. */
  datatype Shadow = Idle | As(a: Pusher.Action)

  ghost function ShadowOf(cs: Configs, s: System, step: Step): (sh: Shadow)
    requires Shaped(cs, s) && CanStep(cs, s, step)
  {
    match step
    case OnRing(q, a) =>
      if a.CommitAdd? then As(Push(q, s.rings[q].slots[Ring.Slot(cs[q], s.rings[q].pubs[a.p].claim)])) else Idle
    case Begin => Idle
    case SeePause(paused) => As(CheckPause(paused))
    case FailToClose => As(CloseFails)
    case Continue => As(Resume)
    case Test => if s.cursors[s.place.queue] <= s.rings[s.place.queue].maxRead then Idle else As(Poll)
    case Load => As(Poll)
    case Send => As(SendOne)
    case Done => As(Finish)
  }

  // ---------------------------------------------------------------- the invariant

  /** The thread's reader in ring q agrees with the thread's own variables. */
  ghost predicate Agrees(place: Place, cursor: nat, me: Ring.Reader<Outgoing>, q: QueueName) {
    && (place.Registering? ==> cursor == 1 && (me.Active? ==> me == Ring.Active(1, 1, 0, false, [])))
    && (!place.Registering? ==>
          && me.Active? && me.passed == (place == Loading(q))
          && me.next == if place.Batch? && place.queue == q then place.next else cursor)
    && (place.Batch? && place.queue == q ==> place.limit == me.limit && me.next <= me.limit + 1)
  }

  ghost predicate InStep(cs: Configs, s: System, q: QueueName)
    requires Shaped(cs, s)
  {
    Ring.Inv(cs[q], s.rings[q]) && Agrees(s.place, s.cursors[q], s.rings[q].readers[ME], q)
  }

  ghost predicate AllInStep(cs: Configs, s: System)
    requires Shaped(cs, s)
  {
    forall q :: InStep(cs, s, q)
  }

  /** A ring operation of somebody else leaves the thread's reader alone. */
  lemma OthersOnRing(c: Ring.Config, ring: RingState, a: RingAction)
    requires Ring.Inv(c, ring) && Ring.Enabled(c, ring, a) && 1 <= c.processors
    ensures var ring' := Ring.Apply(c, ring, a);
            && Ring.Inv(c, ring')
            && (!Popper.ByReader(a, ME) ==> ring'.readers[ME] == ring.readers[ME])
            && (a == Ring.RegisterSwap(ME) ==> ring'.readers[ME] == Ring.Reader.Registering)
            && (a == Ring.RegisterStore(ME) ==> ring'.readers[ME] == Ring.Active(1, 1, 0, false, []))
  {
    RingSafety.StepKeepsInv(c, ring, a);
    if !Popper.ByReader(a, ME) {
      Popper.OthersLeaveReader(c, ring, a, ME);
    }
    hide Ring.Inv;
  }

  /** What the thread's operations do to its reader, and that they do nothing to the log. */
  lemma MineOnRing(c: Ring.Config, ring: RingState, a: RingAction)
    requires Ring.Inv(c, ring) && Ring.Enabled(c, ring, a) && 1 <= c.processors
    requires a.WaitTest? || a.WaitLoad? || a.ReadNext? || a.Release?
    requires a.r == ME
    ensures var (ring', me) := (Ring.Apply(c, ring, a), ring.readers[ME]);
            && Ring.Inv(c, ring') && ring'.log == ring.log && me.Active? && ring'.readers[ME].Active?
            && ring'.readers[ME].next == (if a.ReadNext? then me.next + 1 else me.next)
            && ring'.readers[ME].limit == (if a.WaitLoad? then ring.maxRead else me.limit)
            && ring'.readers[ME].passed == (if a.WaitTest? then me.next <= ring.maxRead
                                            else if a.WaitLoad? then false else me.passed)
  {
    RingSafety.StepKeepsInv(c, ring, a);
    hide Ring.Inv;
  }

  lemma OthersKeepStep(cs: Configs, s: System, q: QueueName, a: RingAction, p: QueueName)
    requires Shaped(cs, s) && InStep(cs, s, p) && InStep(cs, s, q) && CanStep(cs, s, OnRing(q, a))
    ensures InStep(cs, Take(cs, s, OnRing(q, a)), p)
  {
    hide Ring.Inv, Ring.Apply, Ring.Enabled, Ring.WellShaped, Popper.ByReader;
    OthersOnRing(cs[q], s.rings[q], a);
  }

  /** The thread's own operations do to its reader what they do to its variables. */
  lemma MineAgrees(s: System, step: Step, maxRead: nat, msg: Outgoing,
                   me: Ring.Reader<Outgoing>, me': Ring.Reader<Outgoing>, p: QueueName)
    requires Mine(step) && Fits(s, step) && (forall q :: q in s.cursors)
    requires Agrees(s.place, s.cursors[p], me, p)
    requires if p == s.place.queue then Follows(s, step, maxRead, me, me') else me' == me
    ensures Agrees(ThreadAfter(s, step, maxRead, msg).place, ThreadAfter(s, step, maxRead, msg).cursors[p], me', p)
  {
  }

  /** The thread's step on its ring and on its variables. */
  lemma TakeMine(cs: Configs, s: System, step: Step)
    requires Shaped(cs, s) && CanStep(cs, s, step) && Mine(step)
    ensures var (q, s') := (s.place.queue, Take(cs, s, step));
            && s'.rings == s.rings[q := Ring.Apply(cs[q], s.rings[q], Operation(s, step))]
            && s' == ThreadAfter(s, step, s.rings[q].maxRead, Named(cs, s)).(rings := s'.rings)
  {
    hide Ring.Apply, Ring.Enabled, Ring.WellShaped, ThreadAfter, Named;
  }

  /** The reader after the step, as far as the thread's variables tell. */
  ghost predicate Follows(s: System, step: Step, maxRead: nat, me: Ring.Reader<Outgoing>, me': Ring.Reader<Outgoing>) {
    && me.Active? && (me.passed ==> me.next <= maxRead)
    && me'.Active? && me'.next == (if step.Send? then me.next + 1 else me.next)
    && me'.limit == (if step.Load? then maxRead else me.limit)
    && me'.passed == (if step.Test? then me.next <= maxRead else if step.Load? then false else me.passed)
  }

  lemma ReaderFollows(cs: Configs, s: System, step: Step)
    requires Shaped(cs, s) && CanStep(cs, s, step) && Mine(step) && InStep(cs, s, s.place.queue)
    ensures var (q, ring) := (s.place.queue, s.rings[s.place.queue]);
            var ring' := Ring.Apply(cs[q], ring, Operation(s, step));
            Follows(s, step, ring.maxRead, ring.readers[ME], ring'.readers[ME]) && Ring.Inv(cs[q], ring')
  {
    var q, ring := s.place.queue, s.rings[s.place.queue];
    assert Ring.ReaderOk(ring.cursors[ME], ring.readers[ME], ring.maxRead);
    hide Ring.Inv, Ring.Apply, Ring.Enabled, Ring.WellShaped;
    MineOnRing(cs[q], ring, Operation(s, step));
  }

  lemma MineKeepsStep(cs: Configs, s: System, step: Step, p: QueueName)
    requires Shaped(cs, s) && CanStep(cs, s, step) && Mine(step)
    requires InStep(cs, s, p) && InStep(cs, s, s.place.queue)
    ensures InStep(cs, Take(cs, s, step), p)
  {
    hide Ring.Inv, Ring.Apply, Ring.Enabled, Named, Agrees, ThreadAfter, Take, Operation, Follows;
    var q, me := s.place.queue, s.rings[p].readers[ME];
    ReaderFollows(cs, s, step);
    TakeMine(cs, s, step);
    MineAgrees(s, step, s.rings[q].maxRead, Named(cs, s), me, Take(cs, s, step).rings[p].readers[ME], p);
  }

  lemma StepKeepsStep(cs: Configs, s: System, step: Step)
    requires Shaped(cs, s) && AllInStep(cs, s) && CanStep(cs, s, step)
    ensures AllInStep(cs, Take(cs, s, step))
  {
    hide Take, Ring.Enabled, Ring.WellShaped, InStep;
    forall p: QueueName
      ensures InStep(cs, Take(cs, s, step), p)
    {
      assert InStep(cs, s, p);
      if step.OnRing? {
        assert InStep(cs, s, step.q);
        OthersKeepStep(cs, s, step.q, step.a, p);
      } else if Mine(step) {
        assert InStep(cs, s, s.place.queue);
        MineKeepsStep(cs, s, step, p);
      } else {
        RestKeepsStep(cs, s, step, p);
      }
    }
  }

  lemma RestKeepsStep(cs: Configs, s: System, step: Step, p: QueueName)
    requires Shaped(cs, s) && CanStep(cs, s, step) && !Mine(step) && !step.OnRing? && InStep(cs, s, p)
    ensures InStep(cs, Take(cs, s, step), p)
  {
    hide Ring.Inv, Ring.WellShaped, Ring.Apply, Ring.Enabled;
  }

  // ---------------------------------------------------------------- refinement

  /** The logs after ring q changed. */
  lemma LogsAfter(cs: Configs, s: System, s': System, q: QueueName, log: seq<Outgoing>)
    requires Shaped(cs, s) && Shaped(cs, s') && s'.rings == s.rings[q := s'.rings[q]] && s'.rings[q].log == log
    ensures Abstract(cs, s').logs == Abstract(cs, s).logs[q := log]
    ensures log == s.rings[q].log ==> Abstract(cs, s').logs == Abstract(cs, s).logs
  {
    hide Ring.WellShaped;
  }

  /** On a ring only commits change the log. */
  lemma LogOnRing(c: Ring.Config, ring: RingState, a: RingAction)
    requires Ring.ValidConfig(c) && Ring.WellShaped(c, ring) && Ring.Enabled(c, ring, a)
    ensures Ring.Apply(c, ring, a).log
            == if a.CommitAdd? then ring.log + [ring.slots[Ring.Slot(c, ring.pubs[a.p].claim)]] else ring.log
  {
  }

  lemma OthersRefine(cs: Configs, s: System, q: QueueName, a: RingAction)
    requires Shaped(cs, s) && CanStep(cs, s, OnRing(q, a))
    ensures Refines(cs, s, OnRing(q, a))
  {
    LogOnRing(cs[q], s.rings[q], a);
    hide Ring.Apply, Ring.Slot, Popper.ByReader;
    LogsAfter(cs, s, Take(cs, s, OnRing(q, a)), q, Ring.Apply(cs[q], s.rings[q], a).log);
  }

  /** The entry the thread is about to send is the log's. */
  lemma NamedIsLogEntry(cs: Configs, s: System)
    requires Shaped(cs, s) && CanStep(cs, s, Send) && InStep(cs, s, s.place.queue)
    ensures 1 <= s.place.next <= |s.rings[s.place.queue].log|
    ensures Named(cs, s) == s.rings[s.place.queue].log[s.place.next - 1]
  {
    RingTheorems.ReadIsLogEntry(cs[s.place.queue], s.rings[s.place.queue], ME);
    hide Ring.Inv;
  }

  /** The pusher on logs does with its variables what the thread does. */
  lemma AfterIsApply(s: System, step: Step, logs: map<QueueName, seq<Outgoing>>, msg: Outgoing)
    requires Mine(step) && Fits(s, step) && (forall q :: q in logs && q in s.cursors)
    requires s.place.Loading? ==> s.cursors[s.place.queue] <= |logs[s.place.queue]|
    requires step.Send? ==> 1 <= s.place.next <= |logs[s.place.queue]| && msg == logs[s.place.queue][s.place.next - 1]
    ensures var q := s.place.queue;
            var p := State(logs, s.cursors, PcOf(s.place), s.number, s.stored, s.sink);
            var s' := ThreadAfter(s, step, |logs[q]|, msg);
            var p' := State(logs, s'.cursors, PcOf(s'.place), s'.number, s'.stored, s'.sink);
            match step
            case Test =>
              if s.cursors[q] <= |logs[q]| then p' == p else Enabled(p, Poll) && p' == Apply(p, Poll)
            case Load => Enabled(p, Poll) && p' == Apply(p, Poll)
            case Send => Enabled(p, SendOne) && p' == Apply(p, SendOne)
            case Done => Enabled(p, Finish) && p' == Apply(p, Finish)
  {
  }

  /** What the thread's place and its ring say about the log. */
  lemma MineOnLogs(cs: Configs, s: System, step: Step)
    requires Shaped(cs, s) && CanStep(cs, s, step) && Mine(step) && InStep(cs, s, s.place.queue)
    ensures var (q, log) := (s.place.queue, s.rings[s.place.queue].log);
            && |log| == s.rings[q].maxRead
            && Ring.Apply(cs[q], s.rings[q], Operation(s, step)).log == log
            && (s.place.Loading? ==> s.cursors[q] <= |log|)
            && (step.Send? ==> 1 <= s.place.next <= |log| && Named(cs, s) == log[s.place.next - 1])
  {
    var q, ring := s.place.queue, s.rings[s.place.queue];
    assert |ring.log| == ring.maxRead;
    assert Ring.ReaderOk(ring.cursors[ME], ring.readers[ME], ring.maxRead);
    hide Ring.Inv, Ring.Apply, Ring.Enabled, Named;
    MineOnRing(cs[q], ring, Operation(s, step));
    if step.Send? {
      NamedIsLogEntry(cs, s);
    }
  }

  /** The abstraction of the state after the thread's step. */
  lemma AbstractAfter(cs: Configs, s: System, step: Step)
    requires Shaped(cs, s) && CanStep(cs, s, step) && Mine(step) && InStep(cs, s, s.place.queue)
    ensures var (p, s') := (Abstract(cs, s), ThreadAfter(s, step, s.rings[s.place.queue].maxRead, Named(cs, s)));
            Abstract(cs, Take(cs, s, step)) == State(p.logs, s'.cursors, PcOf(s'.place), s'.number, s'.stored, s'.sink)
  {
    hide Ring.Inv, Ring.Apply, Ring.Enabled, Ring.WellShaped, Named, ThreadAfter, Take, InStep, Operation;
    var q := s.place.queue;
    MineOnLogs(cs, s, step);
    TakeMine(cs, s, step);
    LogsAfter(cs, s, Take(cs, s, step), q, s.rings[q].log);
  }

  lemma MineRefines(cs: Configs, s: System, step: Step)
    requires Shaped(cs, s) && CanStep(cs, s, step) && Mine(step) && InStep(cs, s, s.place.queue)
    ensures Refines(cs, s, step)
  {
    MineOnLogs(cs, s, step);
    AbstractAfter(cs, s, step);
    hide Ring.Inv, Ring.Apply, Ring.Enabled, Ring.WellShaped, Named, ThreadAfter, Take, InStep, Operation, Apply, Enabled;
    AfterIsApply(s, step, Abstract(cs, s).logs, Named(cs, s));
  }

  /** The step is one of the pusher on logs, or changes nothing there. */
  ghost predicate Refines(cs: Configs, s: System, step: Step)
    requires Shaped(cs, s) && CanStep(cs, s, step)
  {
    var (p, p', sh) := (Abstract(cs, s), Abstract(cs, Take(cs, s, step)), ShadowOf(cs, s, step));
    if sh.Idle? then p' == p else Enabled(p, sh.a) && p' == Apply(p, sh.a)
  }

  lemma StepRefines(cs: Configs, s: System, step: Step)
    requires Shaped(cs, s) && AllInStep(cs, s) && CanStep(cs, s, step)
    ensures Refines(cs, s, step)
  {
    if step.OnRing? {
      OthersRefine(cs, s, step.q, step.a);
    } else if Mine(step) {
      assert InStep(cs, s, s.place.queue);
      MineRefines(cs, s, step);
    } else {
      hide Ring.Inv, Ring.WellShaped;
    }
  }

  lemma InitialRefines(cs: Configs, n0: nat, s: System)
    requires Shaped(cs, s) && Initial(cs, n0, s)
    ensures AllInStep(cs, s) && Init(n0, Abstract(cs, s))
  {
    forall q: QueueName
      ensures InStep(cs, s, q)
    {
      RingSafety.InitInv(cs[q], s.rings[q]);
    }
  }

  /** A run on rings is a run on logs. */
  lemma {:induction false} RunRefines(cs: Configs, n0: nat, states: seq<System>, steps: seq<Step>, i: nat)
    returns (ps: seq<Pusher.State>, acts: seq<Pusher.Action>)
    requires IsSystemRun(cs, n0, states, steps) && i < |states|
    ensures AllInStep(cs, states[i])
    ensures IsRun(n0, ps, acts) && ps[|ps| - 1] == Abstract(cs, states[i])
    decreases i
  {
    hide Take, CanStep, InStep, Abstract, Apply, Enabled, ShadowOf, Init, Initial, Ring.WellShaped;
    if i == 0 {
      InitialRefines(cs, n0, states[0]);
      ps, acts := [Abstract(cs, states[0])], [];
    } else {
      ps, acts := RunRefines(cs, n0, states, steps, i - 1);
      StepRefines(cs, states[i - 1], steps[i - 1]);
      StepKeepsStep(cs, states[i - 1], steps[i - 1]);
      var sh := ShadowOf(cs, states[i - 1], steps[i - 1]);
      if sh.As? {
        ps, acts := ps + [Abstract(cs, states[i])], acts + [sh.a];
      }
    }
  }

  /**
   Over every interleaving of the thread with any number of publishers on the three rings: the sink is
   numbered n0+1, n0+2, ... and holds of each queue what was committed to its ring, in ring order.
   */
  lemma RingsAreNumberedInOrder(cs: Configs, n0: nat, states: seq<System>, steps: seq<Step>, i: nat)
    requires IsSystemRun(cs, n0, states, steps) && i < |states| && n0 + |states[i].sink| < U64
    ensures Numbered(n0, states[i].sink)
    ensures forall q :: Only(states[i].sink, q) <= states[i].rings[q].log
  {
    var ps, acts := RunRefines(cs, n0, states, steps, i);
    EveryRunNumbersInOrder(n0, ps, acts, |ps| - 1);
    assert forall q :: Abstract(cs, states[i]).logs[q] == states[i].rings[q].log;
  }

  lemma MineIsEnabled(cs: Configs, s: System, step: Step)
    requires Shaped(cs, s) && Mine(step) && Fits(s, step) && InStep(cs, s, s.place.queue)
    ensures Ring.Enabled(cs[s.place.queue], s.rings[s.place.queue], Operation(s, step))
  {
    var q := s.place.queue;
    assert Ring.ReaderOk(s.rings[q].cursors[ME], s.rings[q].readers[ME], s.rings[q].maxRead);
    hide Ring.Inv;
  }

  /** The thread's own step is never blocked by the rings: it has the entries its variables say it has. */
  lemma ThreadCanGoOn(cs: Configs, n0: nat, states: seq<System>, steps: seq<Step>, i: nat, step: Step)
    requires IsSystemRun(cs, n0, states, steps) && i < |states|
    requires !step.OnRing? && !step.Begin? && Fits(states[i], step)
    ensures CanStep(cs, states[i], step)
  {
    var s := states[i];
    var _, _ := RunRefines(cs, n0, states, steps, i);
    if Mine(step) {
      assert InStep(cs, s, s.place.queue);
      MineIsEnabled(cs, s, step);
    }
  }
}
