/**
 Progress of a ring whose readers are poppers: they release entries only when pop and session_pop do, and
 that is enough.
 */
module PopperProgress {
  import opened Ring
  import opened RingSafety
  import opened RingTheorems
  import opened RingProgress
  import opened Popper

  /** The reader's cursor is at most one behind the first entry it needs. */
  predicate Close<T>(cursor: nat, reader: Reader<T>) {
    reader.Active? && reader.need <= cursor + 1
  }

  ghost predicate ReaderDriven<T>(c: Config, s: State<T>, kind: Kind, d: Driver, r: nat)
    requires WellShaped(c, s) && r < c.processors
  {
    s.readers[r].Active? ==> DriverOk(kind, d, s.readers[r], s.maxRead) && Close(s.cursors[r], s.readers[r])
  }

  ghost predicate AllDriven<T>(c: Config, s: State<T>, kinds: seq<Kind>, ds: seq<Driver>)
    requires WellShaped(c, s)
  {
    && |kinds| == |ds| == c.processors
    && forall r :: 0 <= r < c.processors ==> ReaderDriven(c, s, kinds[r], ds[r], r)
  }

  /** The readers named in `turns`, each taking its driver's next action, lead from s and ds to t and dt. */
  ghost predicate DriversLead<T>(c: Config, kinds: seq<Kind>, s: State<T>, ds: seq<Driver>, turns: seq<nat>,
                                 t: State<T>, dt: seq<Driver>)
    decreases |turns|
  {
    if turns == [] then s == t && ds == dt
    else
      var r := turns[0];
      && r < |ds| == |kinds| && 0 < c.entries && WellShaped(c, s) && Enabled(c, s, DriverAction(ds[r], r))
      && DriversLead(c, kinds, Apply(c, s, DriverAction(ds[r], r)), ds[r := DriverNext(kinds[r], ds[r], s.maxRead)],
                     turns[1..], t, dt)
  }

  lemma {:induction false} DriversLeadOn<T>(c: Config, kinds: seq<Kind>, s: State<T>, ds: seq<Driver>, first: seq<nat>,
                                            t: State<T>, dt: seq<Driver>, then_: seq<nat>, u: State<T>, du: seq<Driver>)
    requires DriversLead(c, kinds, s, ds, first, t, dt) && DriversLead(c, kinds, t, dt, then_, u, du)
    ensures DriversLead(c, kinds, s, ds, first + then_, u, du)
    decreases |first|
  {
    hide Apply, Enabled, DriverNext, DriverAction;
    if first == [] {
      assert first + then_ == then_;
    } else {
      var r := first[0];
      DriversLeadOn(c, kinds, Apply(c, s, DriverAction(ds[r], r)), ds[r := DriverNext(kinds[r], ds[r], s.maxRead)],
                    first[1..], t, dt, then_, u, du);
      assert (first + then_)[1..] == first[1..] + then_;
    }
  }

  lemma NoTurns<T>(c: Config, kinds: seq<Kind>, s: State<T>, ds: seq<Driver>)
    ensures DriversLead(c, kinds, s, ds, [], s, ds)
  {
  }

  /** A driver's action changes its own reader only, and leaves the cursor close. */
  lemma DriverActionIsLocal<T>(c: Config, s: State<T>, kind: Kind, r: nat, d: Driver)
    requires Inv(c, s) && r < c.processors && s.readers[r].Active? && ReaderDriven(c, s, kind, d, r)
    ensures Enabled(c, s, DriverAction(d, r))
    ensures var s' := Apply(c, s, DriverAction(d, r));
            OnlyReader(s, s', r) && s'.readers[r].Active? && ReaderDriven(c, s', kind, DriverNext(kind, d, s.maxRead), r)
  {
    DriverStep(c, s, kind, r, d);
  }

  lemma OthersStayDriven<T>(c: Config, s: State<T>, kinds: seq<Kind>, ds: seq<Driver>, s': State<T>, r: nat, d': Driver)
    requires WellShaped(c, s) && WellShaped(c, s') && AllDriven(c, s, kinds, ds) && OnlyReader(s, s', r) && r < c.processors
    requires ReaderDriven(c, s', kinds[r], d', r)
    ensures AllDriven(c, s', kinds, ds[r := d'])
  {
    forall q | 0 <= q < c.processors
      ensures ReaderDriven(c, s', kinds[q], ds[r := d'][q], q)
    {
      assert ReaderDriven(c, s, kinds[q], ds[q], q);
    }
  }

  /** The driver waits for an entry that is not committed. */
  predicate Waits(d: Driver, maxRead: nat) {
    d.Testing? && d.n == maxRead + 1
  }

  /** Steps of a driver until it has to look at its limit again for the next entry. */
  function Phase(d: Driver): (k: nat) {
    match d
    case Testing(_, _) => 4
    case Loading(_, _) => 3
    case Reading(_, _) => 2
    case _ => 1
  }

  /** Each step of a driver that does not wait brings it nearer to where it does. */
  lemma DriverAdvances<T>(kind: Kind, d: Driver, cursor: nat, reader: Reader<T>, maxRead: nat)
    requires DriverOk(kind, d, reader, maxRead) && ReaderOk(cursor, reader, maxRead) && !Waits(d, maxRead)
    ensures var d' := DriverNext(kind, d, maxRead);
            d.n <= d'.n <= maxRead + 1 && (d.n < d'.n || Phase(d') < Phase(d))
  {
  }

  lemma OnlyReaderTwice<T>(s: State<T>, t: State<T>, u: State<T>, r: nat)
    requires OnlyReader(s, t, r) && OnlyReader(t, u, r)
    ensures OnlyReader(s, u, r)
  {
  }

  /** One driver alone gets to where it waits. */
  lemma {:induction false} DriverCatchesUp<T>(c: Config, kinds: seq<Kind>, s: State<T>, ds: seq<Driver>, r: nat)
    returns (turns: seq<nat>, t: State<T>, dt: seq<Driver>)
    requires Inv(c, s) && AllDriven(c, s, kinds, ds) && r < c.processors && s.readers[r].Active?
    ensures DriversLead(c, kinds, s, ds, turns, t, dt) && Inv(c, t) && AllDriven(c, t, kinds, dt)
    ensures OnlyReader(s, t, r) && t.readers[r].Active? && dt == ds[r := dt[r]] && Waits(dt[r], s.maxRead)
    decreases s.maxRead + 1 - ds[r].n, Phase(ds[r])
  {
    assert |ds| == |kinds| == |s.readers| == |s.cursors| == c.processors;
    assert OnlyReader(s, s, r);
    hide AllDriven, Inv, DriversLead, DriverNext, DriverAction, Apply, Enabled, OnlyReader;
    if Waits(ds[r], s.maxRead) {
      NoTurns(c, kinds, s, ds);
      turns, t, dt := [], s, ds;
    } else {
      var s', d' := DriverTurn(c, kinds, s, ds, r);
      var rest;
      rest, t, dt := DriverCatchesUp(c, kinds, s', ds[r := d'], r);
      turns := [r] + rest;
      DriversLeadOn(c, kinds, s, ds, [r], s', ds[r := d'], rest, t, dt);
      OnlyReaderTwice(s, s', t, r);
    }
  }

  /** One step of a driver that does not wait. */
  lemma DriverTurn<T>(c: Config, kinds: seq<Kind>, s: State<T>, ds: seq<Driver>, r: nat) returns (s': State<T>, d': Driver)
    requires Inv(c, s) && AllDriven(c, s, kinds, ds) && r < c.processors && s.readers[r].Active?
    requires !Waits(ds[r], s.maxRead)
    ensures DriversLead(c, kinds, s, ds, [r], s', ds[r := d'])
    ensures Inv(c, s') && AllDriven(c, s', kinds, ds[r := d']) && OnlyReader(s, s', r) && s'.readers[r].Active?
    ensures s'.maxRead == s.maxRead && r < |ds|
    ensures ds[r].n <= d'.n <= s.maxRead + 1 && (ds[r].n < d'.n || Phase(d') < Phase(ds[r]))
  {
    assert ReaderDriven(c, s, kinds[r], ds[r], r);
    assert ReaderOk(s.cursors[r], s.readers[r], s.maxRead);
    hide CursorsOk, ClaimsOk, ReadersOk, ScansOk, EntriesIntact, SeenOk;
    hide DriverOk, ReaderOk, Close, DriverNext, DriverAction, Apply, Enabled, AllDriven;
    d' := DriverNext(kinds[r], ds[r], s.maxRead);
    s' := Apply(c, s, DriverAction(ds[r], r));
    DriverAdvances(kinds[r], ds[r], s.cursors[r], s.readers[r], s.maxRead);
    DriverActionIsLocal(c, s, kinds[r], r, ds[r]);
    StepKeepsInv(c, s, DriverAction(ds[r], r));
    OthersStayDriven(c, s, kinds, ds, s', r, d');
    assert DriversLead(c, kinds, s', ds[r := d'], [r][1..], s', ds[r := d']);
  }

  /** All drivers below k, one after the other. */
  lemma {:induction false} DriversCatchUp<T>(c: Config, kinds: seq<Kind>, s: State<T>, ds: seq<Driver>, k: nat)
    returns (turns: seq<nat>, t: State<T>, dt: seq<Driver>)
    requires Inv(c, s) && AllDriven(c, s, kinds, ds) && k <= c.processors
    ensures DriversLead(c, kinds, s, ds, turns, t, dt) && Inv(c, t) && AllDriven(c, t, kinds, dt) && OnlyReaders(s, t)
    ensures forall r :: 0 <= r < k && t.readers[r].Active? ==> Waits(dt[r], s.maxRead)
  {
    hide CursorsOk, ClaimsOk, ReadersOk, ScansOk, EntriesIntact, SeenOk, DriverOk;
    if k == 0 {
      turns, t, dt := [], s, ds;
    } else {
      turns, t, dt := DriversCatchUp(c, kinds, s, ds, k - 1);
      if t.readers[k - 1].Active? {
        var first, u, du := turns, t, dt;
        var more;
        more, t, dt := DriverCatchesUp(c, kinds, u, du, k - 1);
        DriversLeadOn(c, kinds, s, ds, first, u, du, more, t, dt);
        turns := first + more;
      }
    }
  }

  /** Drivers that wait have released enough. */
  lemma WaitingIsCaughtUp<T>(c: Config, s: State<T>, kinds: seq<Kind>, ds: seq<Driver>)
    requires Inv(c, s) && AllDriven(c, s, kinds, ds)
    requires forall r :: 0 <= r < c.processors && s.readers[r].Active? ==> Waits(ds[r], s.maxRead)
    ensures CaughtUp(c, s)
  {
    forall r | 0 <= r < c.processors && s.readers[r].Active?
      ensures s.maxRead + 1 < s.cursors[r] + c.entries
    {
      assert ReaderDriven(c, s, kinds[r], ds[r], r);
    }
  }

  // ---------------------------------------------------------------- over runs

  lemma DrivenStep<T>(c: Config, states: seq<State<T>>, actions: seq<Action<T>>, start: nat,
                      kind: Kind, r: nat, drivers: seq<Driver>, i: nat)
    requires IsDriven(c, states, actions, start, kind, r, drivers) && start <= i < |actions|
    ensures WellShaped(c, states[i]) && Enabled(c, states[i], actions[i])
    ensures states[i + 1] == Apply(c, states[i], actions[i])
    ensures ByReader(actions[i], r) ==> actions[i] == DriverAction<T>(drivers[i], r)
  {
    hide Apply, Enabled;
    var next := drivers[i + 1];
  }

  lemma CloseStep<T>(c: Config, s: State<T>, a: Action<T>, kind: Kind, r: nat, d: Driver)
    requires Inv(c, s) && Enabled(c, s, a) && r < c.processors
    requires DriverOk(kind, d, s.readers[r], s.maxRead) && Close(s.cursors[r], s.readers[r])
    requires ByReader(a, r) ==> a == DriverAction<T>(d, r)
    ensures var s' := Apply(c, s, a);
            Close(s'.cursors[r], s'.readers[r])
  {
    hide CursorsOk, ClaimsOk, ReadersOk, ScansOk, EntriesIntact, SeenOk;
    if ByReader(a, r) {
      hide Apply, Enabled, DriverAction, DriverNext;
      DriverActionIsLocal(c, s, kind, r, d);
    } else {
      hide Apply, Enabled;
      OthersLeaveReader(c, s, a, r);
    }
  }

  lemma {:induction false} StaysClose<T>(c: Config, states: seq<State<T>>, actions: seq<Action<T>>, start: nat,
                                         kind: Kind, r: nat, drivers: seq<Driver>, i: nat)
    requires IsDriven(c, states, actions, start, kind, r, drivers) && start <= i < |states|
    ensures Close(states[i].cursors[r], states[i].readers[r])
    decreases i
  {
    hide Inv, DriverOk, Apply, Enabled, ByReader, DriverAction, DriverNext, Init;
    if start < i {
      StaysClose(c, states, actions, start, kind, r, drivers, i - 1);
      RunKeepsInv(c, states, actions, i - 1);
      DriverStaysOk(c, states, actions, start, kind, r, drivers, i - 1);
      DrivenStep(c, states, actions, start, kind, r, drivers, i - 1);
      CloseStep(c, states[i - 1], actions[i - 1], kind, r, drivers[i - 1]);
    }
  }

  /** Every reader in use has been a popper since it registered. */
  ghost predicate AllPoppers<T>(c: Config, states: seq<State<T>>, actions: seq<Action<T>>, i: nat,
                                kinds: seq<Kind>, starts: seq<nat>, drivers: seq<seq<Driver>>)
  {
    && IsRun(c, states, actions) && i < |states|
    && |kinds| == |starts| == |drivers| == c.processors
    && forall r :: 0 <= r < c.processors && states[i].readers[r].Active? ==>
         starts[r] <= i && IsDriven(c, states, actions, starts[r], kinds[r], r, drivers[r])
  }

  /** The drivers at state i; readers not in use have none. */
  ghost function DriversAt(drivers: seq<seq<Driver>>, i: nat): (ds: seq<Driver>)
    ensures |ds| == |drivers|
  {
    seq(|drivers|, r requires 0 <= r < |drivers| => if i < |drivers[r]| then drivers[r][i] else Between(0, 1))
  }

  /**
   From every reachable state with an open claim of a ring whose readers are poppers, there is a
   continuation in which they go on popping and then the owner of the lowest claim commits it.
   */
  lemma PoppersLetPublishersCommit<T>(c: Config, states: seq<State<T>>, actions: seq<Action<T>>, i: nat,
                                      kinds: seq<Kind>, starts: seq<nat>, drivers: seq<seq<Driver>>)
    returns (turns: seq<nat>, u: State<T>, du: seq<Driver>, commit: seq<Action<T>>, t: State<T>)
    requires AllPoppers(c, states, actions, i, kinds, starts, drivers)
    requires states[i].maxRead < states[i].writeCursor
    ensures DriversLead(c, kinds, states[i], DriversAt(drivers, i), turns, u, du)
    ensures Leads(c, u, commit, t) && t.maxRead == states[i].maxRead + 1
    ensures 0 < |states[i].holders| && ByPublisher(commit, states[i].holders[0])
  {
    var s, ds := states[i], DriversAt(drivers, i);
    RunKeepsInv(c, states, actions, i);
    forall r | 0 <= r < c.processors
      ensures ReaderDriven(c, s, kinds[r], ds[r], r)
    {
      if s.readers[r].Active? {
        DriverStaysOk(c, states, actions, starts[r], kinds[r], r, drivers[r], i);
        StaysClose(c, states, actions, starts[r], kinds[r], r, drivers[r], i);
      }
    }
    hide DriverOk, Close;
    turns, u, du := DriversCatchUp(c, kinds, s, ds, c.processors);
    WaitingIsCaughtUp(c, u, kinds, du);
    commit, t := LowestClaimCommits(c, u);
  }
}
