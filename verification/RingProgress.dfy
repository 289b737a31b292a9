/** Progress of the disruptor ring: no reachable state is stuck. */
module RingProgress {
  import opened Ring
  import opened RingSafety
  import opened RingTheorems

  /** `actions`, each enabled in turn, lead from s to t. */
  ghost predicate Leads<T>(c: Config, s: State<T>, actions: seq<Action<T>>, t: State<T>)
    decreases |actions|
  {
    if actions == [] then s == t
    else
      && 0 < c.entries && WellShaped(c, s) && Enabled(c, s, actions[0])
      && Leads(c, Apply(c, s, actions[0]), actions[1..], t)
  }

  ghost predicate ByReaders<T>(actions: seq<Action<T>>) {
    forall i :: 0 <= i < |actions| ==>
      actions[i].WaitTest? || actions[i].WaitLoad? || actions[i].ReadNext? || actions[i].Release?
  }

  ghost predicate ByPublisher<T>(actions: seq<Action<T>>, p: nat) {
    forall i :: 0 <= i < |actions| ==>
      && (actions[i].ScanOne? || actions[i].ScanEnd? || actions[i].CommitTest? || actions[i].CommitAdd?)
      && actions[i].p == p
  }

  lemma {:induction false} LeadsOn<T>(c: Config, s: State<T>, first: seq<Action<T>>, t: State<T>, then_: seq<Action<T>>, u: State<T>)
    requires Leads(c, s, first, t) && Leads(c, t, then_, u)
    ensures Leads(c, s, first + then_, u)
    decreases |first|
  {
    hide Apply, Enabled;
    if first == [] {
      assert first + then_ == then_;
    } else {
      LeadsOn(c, Apply(c, s, first[0]), first[1..], t, then_, u);
      assert (first + then_)[1..] == first[1..] + then_;
    }
  }

  lemma OneStep<T>(c: Config, s: State<T>, a: Action<T>)
    requires Inv(c, s) && Enabled(c, s, a)
    ensures Leads(c, s, [a], Apply(c, s, a)) && Inv(c, Apply(c, s, a))
  {
    StepKeepsInv(c, s, a);
    assert Leads(c, Apply(c, s, a), [a][1..], Apply(c, s, a));
  }

  // ---------------------------------------------------------------- readers can always catch up

  /** t differs from s only in reader r and its cursor. */
  ghost predicate OnlyReader<T>(s: State<T>, t: State<T>, r: nat) {
    && |t.cursors| == |s.cursors| && |t.readers| == |s.readers| && r < |s.readers| && r < |s.cursors|
    && t == s.(cursors := s.cursors[r := t.cursors[r]], readers := s.readers[r := t.readers[r]])
  }

  lemma {:induction false} ReadsToLimit<T>(c: Config, s: State<T>, r: nat) returns (acts: seq<Action<T>>, t: State<T>)
    requires Inv(c, s) && r < c.processors && s.readers[r].Active? && !s.readers[r].passed
    requires s.readers[r].limit == s.maxRead
    ensures Leads(c, s, acts, t) && Inv(c, t) && ByReaders(acts) && OnlyReader(s, t, r)
    ensures t.readers[r].Active? && t.readers[r].next == s.maxRead + 1
    decreases s.maxRead + 1 - s.readers[r].next
  {
    assert ReaderOk(s.cursors[r], s.readers[r], s.maxRead);
    if s.readers[r].next == s.maxRead + 1 {
      acts, t := [], s;
    } else {
      var a := Action<T>.ReadNext(r);
      OneStep(c, s, a);
      var rest;
      rest, t := ReadsToLimit(c, Apply(c, s, a), r);
      LeadsOn(c, s, [a], Apply(c, s, a), rest, t);
      acts := [a] + rest;
    }
  }

  lemma RefreshesLimit<T>(c: Config, s: State<T>, r: nat) returns (acts: seq<Action<T>>, t: State<T>)
    requires Inv(c, s) && r < c.processors && s.readers[r].Active? && s.readers[r].next <= s.maxRead
    ensures Leads(c, s, acts, t) && Inv(c, t) && ByReaders(acts) && OnlyReader(s, t, r)
    ensures t.readers[r].Active? && !t.readers[r].passed && t.readers[r].limit == s.maxRead
  {
    hide ClaimsOk, ScansOk, EntriesIntact, SeenOk;
    var u := s;
    acts := [];
    if !s.readers[r].passed {
      var test := Action<T>.WaitTest(r);
      OneStep(c, s, test);
      acts, u := [test], Apply(c, s, test);
    }
    var load := Action<T>.WaitLoad(r);
    OneStep(c, u, load);
    t := Apply(c, u, load);
    LeadsOn(c, s, acts, u, [load], t);
    acts := acts + [load];
  }

  lemma ReadsEverything<T>(c: Config, s: State<T>, r: nat) returns (acts: seq<Action<T>>, t: State<T>)
    requires Inv(c, s) && r < c.processors && s.readers[r].Active?
    ensures Leads(c, s, acts, t) && Inv(c, t) && ByReaders(acts) && OnlyReader(s, t, r)
    ensures t.readers[r].Active? && t.readers[r].next == s.maxRead + 1
  {
    assert ReaderOk(s.cursors[r], s.readers[r], s.maxRead);
    hide CursorsOk, ClaimsOk, ReadersOk, ScansOk, EntriesIntact, SeenOk;
    acts, t := [], s;
    if s.readers[r].next <= s.maxRead {
      var u, more;
      acts, u := RefreshesLimit(c, s, r);
      more, t := ReadsToLimit(c, u, r);
      LeadsOn(c, s, acts, u, more, t);
      acts := acts + more;
    }
  }

  lemma ReaderCatchesUp<T>(c: Config, s: State<T>, r: nat) returns (acts: seq<Action<T>>, t: State<T>)
    requires Inv(c, s) && r < c.processors && s.readers[r].Active?
    ensures Leads(c, s, acts, t) && Inv(c, t) && ByReaders(acts) && OnlyReader(s, t, r)
    ensures t.readers[r].Active? && t.cursors[r] == s.maxRead
  {
    hide CursorsOk, ClaimsOk, ScansOk, EntriesIntact, SeenOk;
    var u;
    acts, u := ReadsEverything(c, s, r);
    assert ReaderOk(u.cursors[r], u.readers[r], u.maxRead);
    var done := Action<T>.Release(r, s.maxRead, s.maxRead + 1);
    OneStep(c, u, done);
    t := Apply(c, u, done);
    LeadsOn(c, s, acts, u, [done], t);
    acts := acts + [done];
  }

  /** t differs from s only in readers and their cursors. */
  ghost predicate OnlyReaders<T>(s: State<T>, t: State<T>) {
    t == s.(cursors := t.cursors, readers := t.readers)
  }

  lemma {:induction false} ReadersCatchUp<T>(c: Config, s: State<T>, k: nat) returns (acts: seq<Action<T>>, t: State<T>)
    requires Inv(c, s) && k <= c.processors
    ensures Leads(c, s, acts, t) && Inv(c, t) && ByReaders(acts) && OnlyReaders(s, t)
    ensures forall r :: 0 <= r < c.processors ==> t.readers[r].Active? == s.readers[r].Active?
    ensures forall r :: 0 <= r < c.processors - k ==> t.cursors[r] == s.cursors[r]
    ensures forall r :: c.processors - k <= r < c.processors && t.readers[r].Active? ==> t.cursors[r] == s.maxRead
  {
    hide ClaimsOk, ScansOk, EntriesIntact, SeenOk, ReadersOk, CursorsOk;
    if k == 0 {
      acts, t := [], s;
    } else {
      var u;
      acts, u := ReadersCatchUp(c, s, k - 1);
      var r := c.processors - k;
      t := u;
      if u.readers[r].Active? {
        var more;
        more, t := ReaderCatchesUp(c, u, r);
        LeadsOn(c, s, acts, u, more, t);
        acts := acts + more;
      }
    }
  }

  // ---------------------------------------------------------------- the lowest claim can then commit alone

  /** Every reader has released enough for the lowest uncommitted claim. */
  ghost predicate CaughtUp<T>(c: Config, s: State<T>)
    requires WellShaped(c, s)
  {
    forall r :: 0 <= r < c.processors && s.readers[r].Active? ==> s.maxRead + 1 < s.cursors[r] + c.entries
  }

  lemma {:induction false} ScanThrough<T>(c: Config, s: State<T>, p: nat) returns (acts: seq<Action<T>>, t: State<T>)
    requires Inv(c, s) && p < c.publishers && s.pubs[p].Scanning? && CaughtUp(c, s)
    ensures Leads(c, s, acts, t) && Inv(c, t) && ByPublisher(acts, p)
    ensures p < |t.pubs| && t.pubs[p].Scanning?
    ensures t == s.(pubs := s.pubs[p := s.pubs[p].(idx := c.processors, slowest := t.pubs[p].slowest)])
    ensures s.maxRead + 1 < s.pubs[p].slowest + c.entries ==> s.maxRead + 1 < t.pubs[p].slowest + c.entries
    decreases c.processors - s.pubs[p].idx
  {
    hide ClaimsOk, EntriesIntact, SeenOk;
    assert ScanOk(c, s.pubs[p], s.readers);
    if s.pubs[p].idx == c.processors {
      acts, t := [], s;
    } else {
      assert ReaderOk(s.cursors[s.pubs[p].idx], s.readers[s.pubs[p].idx], s.maxRead);
      assert s.maxRead + 2 < VACANT;
      hide CursorsOk, ReadersOk, ScansOk;
      var a := Action<T>.ScanOne(p);
      OneStep(c, s, a);
      var rest;
      rest, t := ScanThrough(c, Apply(c, s, a), p);
      LeadsOn(c, s, [a], Apply(c, s, a), rest, t);
      acts := [a] + rest;
    }
  }

  ghost predicate OnlyPublisher<T>(s: State<T>, t: State<T>, p: nat, pub: Publisher) {
    p < |s.pubs| && t == s.(slowestProcessor := t.slowestProcessor, pubs := s.pubs[p := pub])
  }

  lemma GoodScanHasRoom<T>(c: Config, s: State<T>, p: nat)
    requires Inv(c, s) && p < c.publishers && s.pubs[p].Scanning? && s.pubs[p].idx == c.processors
    requires s.pubs[p].claim == s.maxRead + 1 < s.pubs[p].slowest + c.entries
    ensures s.pubs[p].claim <= VACANT && s.pubs[p].slowest <= VACANT
    ensures Room(c, s.pubs[p].claim, s.pubs[p].slowest)
  {
    assert s.started;
    assert ScanOk(c, s.pubs[p], s.readers);
    var r :| 0 <= r < |s.readers| && s.readers[r].Active?;
    assert ReaderOk(s.cursors[r], s.readers[r], s.maxRead);
  }

  /** One scan to its end: a grant, or a new scan; certainly a grant if the scan is a fresh one. */
  lemma ScanEnds<T>(c: Config, s: State<T>, p: nat) returns (acts: seq<Action<T>>, t: State<T>)
    requires Inv(c, s) && p < c.publishers && CaughtUp(c, s)
    requires s.pubs[p].Scanning? && s.pubs[p].blocking && s.pubs[p].claim == s.maxRead + 1
    ensures Leads(c, s, acts, t) && Inv(c, t) && ByPublisher(acts, p)
    ensures OnlyPublisher(s, t, p, Granted(s.maxRead + 1))
            || (OnlyPublisher(s, t, p, Scanning(s.maxRead + 1, true, 0, VACANT)) && s.pubs[p].slowest != VACANT)
  {
    hide ClaimsOk, EntriesIntact, SeenOk, ReadersOk, CursorsOk;
    var u;
    acts, u := ScanThrough(c, s, p);
    assert ScanOk(c, u.pubs[p], u.readers);
    if s.pubs[p].slowest == VACANT {
      GoodScanHasRoom(c, u, p);
    }
    var a := Action<T>.ScanEnd(p);
    OneStep(c, u, a);
    t := Apply(c, u, a);
    LeadsOn(c, s, acts, u, [a], t);
    acts := acts + [a];
  }

  lemma ScannerGetsGrant<T>(c: Config, s: State<T>, p: nat) returns (acts: seq<Action<T>>, t: State<T>)
    requires Inv(c, s) && p < c.publishers && CaughtUp(c, s)
    requires s.pubs[p].Scanning? && s.pubs[p].blocking && s.pubs[p].claim == s.maxRead + 1
    ensures Leads(c, s, acts, t) && Inv(c, t) && ByPublisher(acts, p)
    ensures OnlyPublisher(s, t, p, Granted(s.maxRead + 1))
  {
    hide CursorsOk, ClaimsOk, ReadersOk, ScansOk, EntriesIntact, SeenOk;
    acts, t := ScanEnds(c, s, p);
    if !t.pubs[p].Granted? {
      var u, more := t, [];
      more, t := ScanEnds(c, u, p);
      LeadsOn(c, s, acts, u, more, t);
      acts := acts + more;
    }
  }

  lemma WriterCommits<T>(c: Config, s: State<T>, p: nat) returns (acts: seq<Action<T>>, t: State<T>)
    requires Inv(c, s) && p < c.publishers && s.pubs[p].MayWrite() && s.pubs[p].claim == s.maxRead + 1
    ensures Leads(c, s, acts, t) && Inv(c, t) && ByPublisher(acts, p)
    ensures t.maxRead == s.maxRead + 1 && t.readers == s.readers && t.cursors == s.cursors
  {
    hide ScansOk, EntriesIntact, SeenOk, ReadersOk;
    var u := s;
    acts := [];
    if s.pubs[p].Granted? {
      var test := Action<T>.CommitTest(p);
      OneStep(c, s, test);
      acts, u := [test], Apply(c, s, test);
    }
    CommitClaimKept(u.maxRead, u.writeCursor, u.pubs, u.holders, p);
    var add := Action<T>.CommitAdd(p);
    OneStep(c, u, add);
    t := Apply(c, u, add);
    LeadsOn(c, s, acts, u, [add], t);
    acts := acts + [add];
  }

  /** Once the readers caught up, the owner of the lowest claim commits it without help from anybody. */
  lemma LowestClaimCommits<T>(c: Config, s: State<T>) returns (acts: seq<Action<T>>, t: State<T>)
    requires Inv(c, s) && s.maxRead < s.writeCursor && CaughtUp(c, s)
    ensures Leads(c, s, acts, t) && Inv(c, t) && ByPublisher(acts, s.holders[0])
    ensures t.maxRead == s.maxRead + 1 && t.readers == s.readers && t.cursors == s.cursors
  {
    var p := s.holders[0];
    assert Holds(s.maxRead, s.pubs, p, 0);
    if s.pubs[p].Scanning? {
      var u, more;
      acts, u := ScannerGetsGrant(c, s, p);
      more, t := WriterCommits(c, u, p);
      LeadsOn(c, s, acts, u, more, t);
      acts := acts + more;
    } else {
      acts, t := WriterCommits(c, s, p);
    }
  }

  /** If the lowest claim cannot commit alone, some reader lags: it has an unread or an unreleased entry. */
  lemma OnlyLaggingReadersBlock<T>(c: Config, s: State<T>)
    requires Inv(c, s) && !CaughtUp(c, s)
    ensures exists r :: 0 <= r < c.processors && s.readers[r].Active?
                        && (s.readers[r].next <= s.maxRead || s.cursors[r] + 1 < s.readers[r].next)
  {
    var r :| 0 <= r < c.processors && s.readers[r].Active? && s.cursors[r] + c.entries <= s.maxRead + 1;
    assert ReaderOk(s.cursors[r], s.readers[r], s.maxRead);
  }

  /**
   From every reachable state with an uncommitted claim there is a continuation that commits the lowest
   one: first readers catch up, then its owner runs alone.
   */
  lemma NoReachableStateIsStuck<T>(c: Config, states: seq<State<T>>, actions: seq<Action<T>>, i: nat)
    returns (catchUp: seq<Action<T>>, commit: seq<Action<T>>, t: State<T>)
    requires IsRun(c, states, actions) && i < |states|
    requires states[i].maxRead < states[i].writeCursor
    ensures Leads(c, states[i], catchUp + commit, t) && t.maxRead == states[i].maxRead + 1
    ensures 0 < |states[i].holders| && ByReaders(catchUp) && ByPublisher(commit, states[i].holders[0])
    ensures CaughtUp(c, states[i]) ==> catchUp == []
  {
    var s := states[i];
    RunKeepsInv(c, states, actions, i);
    var u := s;
    catchUp := [];
    if !CaughtUp(c, s) {
      catchUp, u := ReadersCatchUp(c, s, c.processors);
    }
    commit, t := LowestClaimCommits(c, u);
    LeadsOn(c, s, catchUp, u, commit, t);
  }
}
