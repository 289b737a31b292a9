/**
 The pusher thread: it visits its three queues in turn, completes what each holds and writes it to the
 sink, and can be paused. Publishers push at any time. A queue is the log of what was pushed; PusherRings
 shows that three rings with the thread as reader behave like that.
 */
module Pusher {
  import opened Decimal
  import opened RoundTrip

  datatype QueueName = Alfa | Bravo | Charlie

  /** A completed message in the sink: where it came from, and the number it was given. */
  datatype Sent = Sent(queue: QueueName, msg: Outgoing, number: nat)

  /** Where the thread is; `next` and `limit` are the entries of the batch still to be sent. */
  datatype Pc =
    | CheckingPause
    | Paused
    | Polling(queue: QueueName)
    | Sending(queue: QueueName, next: nat, limit: nat)

  /** `number` is the thread's own counter, `stored` the one it leaves behind when it pauses. */
  datatype State = State(
    logs: map<QueueName, seq<Outgoing>>,
    cursors: map<QueueName, nat>,
    pc: Pc,
    number: nat,
    stored: nat,
    sink: seq<Sent>)

  datatype Action =
    | Push(queue: QueueName, msg: Outgoing)
    | CheckPause(paused: bool)
    | CloseFails
    | Resume
    | Poll
    | SendOne
    | Finish

  predicate WellShaped(s: State) {
    && (forall q :: q in s.logs) && (forall q :: q in s.cursors)
  }

  predicate Init(n0: nat, s: State) {
    && WellShaped(s)
    && (forall q :: s.logs[q] == [] && s.cursors[q] == 1)
    && s.pc == CheckingPause && s.number == n0 && s.stored == n0 && s.sink == []
  }

  /** Where the thread goes after queue q. */
  function After(q: QueueName): (pc: Pc) {
    match q
    case Alfa => Polling(Bravo)
    case Bravo => Polling(Charlie)
    case Charlie => CheckingPause
  }

  predicate Enabled(s: State, a: Action)
    requires WellShaped(s)
  {
    match a
    case Push(_, _) => true
    case CheckPause(_) => s.pc.CheckingPause?
    case CloseFails => s.pc.CheckingPause?
    case Resume => s.pc.Paused?
    case Poll => s.pc.Polling?
    case SendOne => s.pc.Sending? && s.pc.next <= s.pc.limit && 1 <= s.pc.next <= |s.logs[s.pc.queue]|
    case Finish => s.pc.Sending? && s.pc.limit < s.pc.next
  }

  function Apply(s: State, a: Action): (s': State)
    requires WellShaped(s) && Enabled(s, a)
    ensures WellShaped(s')
  {
    match a
    case Push(q, o) => s.(logs := s.logs[q := s.logs[q] + [o]])
    case CheckPause(paused) =>
      if paused then s.(pc := Paused, stored := s.number) else s.(pc := Polling(Alfa))
    case CloseFails => s.(stored := s.number) // the database did not close: check again
    case Resume => s.(pc := Polling(Alfa), number := s.stored)
    case Poll =>
      var q := s.pc.queue;
      // the batch reaches to the last entry committed now
      if s.cursors[q] <= |s.logs[q]| then s.(pc := Sending(q, s.cursors[q], |s.logs[q]|)) else s.(pc := After(q))
    case SendOne =>
      var q, n := s.pc.queue, Inc64(s.number);
      s.(number := n, sink := s.sink + [Sent(q, s.logs[q][s.pc.next - 1], n)], pc := s.pc.(next := s.pc.next + 1))
    case Finish =>
      s.(cursors := s.cursors[s.pc.queue := s.pc.limit + 1], pc := After(s.pc.queue))
  }

  ghost predicate IsRun(n0: nat, states: seq<State>, actions: seq<Action>) {
    && |states| == |actions| + 1
    && (forall i :: 0 <= i < |states| ==> WellShaped(states[i]))
    && Init(n0, states[0])
    && (forall i :: 0 <= i < |actions| ==>
          Enabled(states[i], actions[i]) && states[i + 1] == Apply(states[i], actions[i]))
  }

  /** The messages of one queue, in the order they were sent. */
  function Only(sink: seq<Sent>, q: QueueName): (s: seq<Outgoing>) {
    if sink == [] then []
    else
      var last := sink[|sink| - 1];
      Only(sink[..|sink| - 1], q) + (if last.queue == q then [last.msg] else [])
  }

  /** The first entry of queue q that was not sent yet. */
  function FirstUnsent(s: State, q: QueueName): (n: nat)
    requires q in s.cursors
  {
    if s.pc.Sending? && s.pc.queue == q then s.pc.next else s.cursors[q]
  }

  ghost predicate Numbered(n0: nat, sink: seq<Sent>) {
    forall i :: 0 <= i < |sink| ==> sink[i].number == n0 + 1 + i
  }

  /** Queue q has been sent up to its cursor, in push order. */
  ghost predicate QueueOk(s: State, q: QueueName)
    requires WellShaped(s)
  {
    && 1 <= FirstUnsent(s, q) <= |s.logs[q]| + 1
    && Only(s.sink, q) == s.logs[q][..FirstUnsent(s, q) - 1]
  }

  ghost predicate Inv(n0: nat, s: State) {
    && WellShaped(s)
    && (n0 + |s.sink| < U64 ==> Numbered(n0, s.sink) && s.number == n0 + |s.sink|)
    && (s.pc.Paused? ==> s.stored == s.number)
    && (forall q :: QueueOk(s, q))
    && (s.pc.Sending? ==> 1 <= s.pc.next <= s.pc.limit + 1 && s.pc.limit <= |s.logs[s.pc.queue]|)
  }

  lemma PushKeepsInv(n0: nat, s: State, q: QueueName, o: Outgoing)
    requires Inv(n0, s)
    ensures Inv(n0, Apply(s, Push(q, o)))
  {
    var s' := Apply(s, Push(q, o));
    forall p: QueueName
      ensures QueueOk(s', p)
    {
      assert QueueOk(s, p);
      if p == q {
        assert s'.logs[q][..FirstUnsent(s', q) - 1] == s.logs[q][..FirstUnsent(s, q) - 1];
      }
    }
  }

  lemma SendKeepsInv(n0: nat, s: State)
    requires Inv(n0, s) && Enabled(s, SendOne)
    ensures Inv(n0, Apply(s, SendOne))
  {
    var s', q := Apply(s, SendOne), s.pc.queue;
    assert s'.sink[..|s'.sink| - 1] == s.sink;
    forall p: QueueName
      ensures QueueOk(s', p)
    {
      assert QueueOk(s, p);
      if p == q {
        assert s.logs[q][..s.pc.next] == s.logs[q][..s.pc.next - 1] + [s.logs[q][s.pc.next - 1]];
      }
    }
  }

  lemma PollKeepsInv(n0: nat, s: State)
    requires Inv(n0, s) && Enabled(s, Poll)
    ensures Inv(n0, Apply(s, Poll))
  {
    var s' := Apply(s, Poll);
    assert QueueOk(s, s.pc.queue);
    forall q: QueueName
      ensures QueueOk(s', q)
    {
      assert QueueOk(s, q);
    }
  }

  lemma FinishKeepsInv(n0: nat, s: State)
    requires Inv(n0, s) && Enabled(s, Finish)
    ensures Inv(n0, Apply(s, Finish))
  {
    var s' := Apply(s, Finish);
    forall q: QueueName
      ensures QueueOk(s', q)
    {
      assert QueueOk(s, q);
    }
  }

  lemma PauseKeepsInv(n0: nat, s: State, a: Action)
    requires Inv(n0, s) && Enabled(s, a) && (a.CheckPause? || a.CloseFails? || a.Resume?)
    ensures Inv(n0, Apply(s, a))
  {
    var s' := Apply(s, a);
    forall q: QueueName
      ensures QueueOk(s', q)
    {
      assert QueueOk(s, q);
    }
  }

  lemma StepKeepsInv(n0: nat, s: State, a: Action)
    requires Inv(n0, s) && Enabled(s, a)
    ensures Inv(n0, Apply(s, a))
  {
    hide Inv, Apply, Enabled;
    match a
    case Push(q, o) => PushKeepsInv(n0, s, q, o);
    case SendOne => SendKeepsInv(n0, s);
    case Poll => PollKeepsInv(n0, s);
    case Finish => FinishKeepsInv(n0, s);
    case CheckPause(_) => PauseKeepsInv(n0, s, a);
    case CloseFails => PauseKeepsInv(n0, s, a);
    case Resume => PauseKeepsInv(n0, s, a);
  }

  lemma {:induction false} RunKeepsInv(n0: nat, states: seq<State>, actions: seq<Action>, i: nat)
    requires IsRun(n0, states, actions) && i < |states|
    ensures Inv(n0, states[i])
  {
    if i != 0 {
      RunKeepsInv(n0, states, actions, i - 1);
      StepKeepsInv(n0, states[i - 1], actions[i - 1]);
    }
  }

  /**
   Over any interleaving of pushes, batches and pauses: the sink's messages are numbered n0+1, n0+2, ...
   without gap or repeat, and those of each queue are a prefix of what was pushed there, in push order.
   */
  lemma EveryRunNumbersInOrder(n0: nat, states: seq<State>, actions: seq<Action>, i: nat)
    requires IsRun(n0, states, actions) && i < |states| && n0 + |states[i].sink| < U64
    ensures Numbered(n0, states[i].sink)
    ensures forall q :: Only(states[i].sink, q) <= states[i].logs[q]
  {
    RunKeepsInv(n0, states, actions, i);
    forall q: QueueName
      ensures Only(states[i].sink, q) <= states[i].logs[q]
    {
      assert QueueOk(states[i], q);
    }
  }
}
