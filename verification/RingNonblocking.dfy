/** The claim that does not wait: when it succeeds, and why it can fail. */
module RingNonblocking {
  import opened Ring
  import opened RingSafety
  import opened RingTheorems
  import opened RingProgress

  /** Every reader has released enough for the next number. */
  ghost predicate Free<T>(c: Config, s: State<T>, claim: nat, k: nat)
    requires WellShaped(c, s) && k <= c.processors
  {
    forall r :: 0 <= r < k && s.readers[r].Active? ==> claim < s.cursors[r] + c.entries
  }

  /** Actions of one call of next_entry_nonblocking. */
  ghost predicate OneCall<T>(actions: seq<Action<T>>, p: nat) {
    forall i :: 0 <= i < |actions| ==>
      && (actions[i].LoadNonblocking? || actions[i].ScanOne? || actions[i].ScanEnd? || actions[i].SwapWriteCursor?)
      && actions[i].p == p
  }

  /** What the scan has found when it has looked at all readers below idx. */
  ghost predicate Found<T>(c: Config, s: State<T>, pub: Publisher)
    requires WellShaped(c, s)
  {
    && pub.Scanning? && !pub.blocking && pub.idx <= c.processors && pub.slowest <= VACANT
    && (pub.claim < pub.slowest + c.entries <==> Free(c, s, pub.claim, pub.idx))
    && (forall r :: 0 <= r < pub.idx ==> pub.slowest <= s.cursors[r])
    && (pub.slowest == VACANT || pub.slowest in s.cursors)
  }

  /** n is the cursor of the slowest reader. */
  predicate IsSlowest(cursors: seq<nat>, n: nat) {
    n in cursors && forall r :: 0 <= r < |cursors| ==> n <= cursors[r]
  }

  /** The scan of a publisher nobody interrupts sees the readers as they are. */
  lemma {:induction false} ScanFinds<T>(c: Config, s: State<T>, p: nat) returns (acts: seq<Action<T>>, t: State<T>)
    requires Inv(c, s) && p < c.publishers && Found(c, s, s.pubs[p]) && s.pubs[p].claim + 2 < VACANT
    ensures Leads(c, s, acts, t) && Inv(c, t) && OneCall(acts, p)
    ensures p < |t.pubs| && Found(c, t, t.pubs[p]) && t.pubs[p].claim == s.pubs[p].claim && t.pubs[p].idx == c.processors
    ensures t == s.(pubs := s.pubs[p := t.pubs[p]])
    decreases c.processors - s.pubs[p].idx
  {
    if s.pubs[p].idx == c.processors {
      acts, t := [], s;
    } else {
      hide Inv, Apply, Enabled, Leads;
      var a := Action<T>.ScanOne(p);
      var s' := FindOne(c, s, p);
      hide Found;
      var rest;
      rest, t := ScanFinds(c, s', p);
      LeadsOn(c, s, [a], s', rest, t);
      acts := [a] + rest;
    }
  }

  lemma FindOne<T>(c: Config, s: State<T>, p: nat) returns (s': State<T>)
    requires Inv(c, s) && p < c.publishers && Found(c, s, s.pubs[p]) && s.pubs[p].claim + 2 < VACANT
    requires s.pubs[p].idx < c.processors
    ensures Leads(c, s, [Action<T>.ScanOne(p)], s') && Inv(c, s')
    ensures p < |s'.pubs| && Found(c, s', s'.pubs[p]) && s'.pubs[p].claim == s.pubs[p].claim
    ensures s'.pubs[p].idx == s.pubs[p].idx + 1 && s' == s.(pubs := s.pubs[p := s'.pubs[p]])
  {
    var a := Action<T>.ScanOne(p);
    assert ReaderOk(s.cursors[s.pubs[p].idx], s.readers[s.pubs[p].idx], s.maxRead);
    assert s.started;
    hide ClaimsOk, EntriesIntact, SeenOk, ReadersOk, ScansOk, ReaderOk, Found;
    OneStep(c, s, a);
    s' := Apply(c, s, a);
    OneMoreFound(c, s, p);
  }

  lemma OneMoreFound<T>(c: Config, s: State<T>, p: nat)
    requires WellShaped(c, s) && 0 < c.entries && p < c.publishers && Found(c, s, s.pubs[p])
    requires s.pubs[p].idx < c.processors && s.pubs[p].claim + 2 < VACANT
    requires var r := s.pubs[p].idx;
             ReaderOk(s.cursors[r], s.readers[r], s.maxRead) && !s.readers[r].Registering? && s.maxRead + 2 < VACANT
    ensures var s' := Apply(c, s, Action<T>.ScanOne(p));
            Found(c, s', s'.pubs[p]) && s'.pubs[p].claim == s.pubs[p].claim && s'.pubs[p].idx == s.pubs[p].idx + 1
  {
    var s', r := Apply(c, s, Action<T>.ScanOne(p)), s.pubs[p].idx;
    assert Free(c, s, s.pubs[p].claim, r + 1)
      <==> Free(c, s, s.pubs[p].claim, r) && (s.readers[r].Active? ==> s.pubs[p].claim < s.cursors[r] + c.entries);
  }

  /** At the end of such a scan there is room exactly if every reader has released enough. */
  lemma RoomIsFree<T>(c: Config, s: State<T>, pub: Publisher)
    requires Inv(c, s) && s.started && Found(c, s, pub) && pub.idx == c.processors
    requires pub.claim == s.writeCursor + 1
    ensures pub.claim <= VACANT && pub.slowest <= VACANT
    ensures Room(c, pub.claim, pub.slowest) <==> Free(c, s, pub.claim, c.processors)
    ensures pub.slowest != VACANT && IsSlowest(s.cursors, pub.slowest)
  {
    var r :| 0 <= r < |s.readers| && s.readers[r].Active?;
    assert ReaderOk(s.cursors[r], s.readers[r], s.maxRead);
    hide Free;
  }

  /** The load and the scan of a call nobody interrupts. */
  lemma CallScans<T>(c: Config, s: State<T>, p: nat) returns (acts: seq<Action<T>>, t: State<T>)
    requires Inv(c, s) && p < c.publishers && s.pubs[p].Idle? && Ready(s) && s.writeCursor + 3 < VACANT
    ensures Leads(c, s, acts, t) && Inv(c, t) && OneCall(acts, p)
    ensures p < |t.pubs| && t == s.(started := true, pubs := s.pubs[p := t.pubs[p]])
    ensures Found(c, t, t.pubs[p]) && t.pubs[p].claim == s.writeCursor + 1 && t.pubs[p].idx == c.processors
  {
    hide CursorsOk, ClaimsOk, ReadersOk, ScansOk, EntriesIntact, SeenOk;
    var load := Action<T>.LoadNonblocking(p);
    OneStep(c, s, load);
    var u := Apply(c, s, load);
    assert Found(c, u, u.pubs[p]);
    hide Found;
    var more;
    more, t := ScanFinds(c, u, p);
    LeadsOn(c, s, [load], u, more, t);
    acts := [load] + more;
  }

  /** Its end: the number if there is room, nothing otherwise. */
  lemma CallEnds<T>(c: Config, s: State<T>, p: nat) returns (acts: seq<Action<T>>, t: State<T>)
    requires Inv(c, s) && p < c.publishers && s.started && Found(c, s, s.pubs[p]) && s.pubs[p].idx == c.processors
    requires s.pubs[p].claim == s.writeCursor + 1
    ensures Leads(c, s, acts, t) && Inv(c, t) && OneCall(acts, p)
    ensures var rest := s.(slowestProcessor := t.slowestProcessor);
            t == if Free(c, s, s.writeCursor + 1, c.processors) then
                   rest.(writeCursor := s.writeCursor + 1, pubs := s.pubs[p := Granted(s.writeCursor + 1)],
                         holders := s.holders + [p])
                 else rest.(pubs := s.pubs[p := Idle])
    ensures IsSlowest(s.cursors, t.slowestProcessor)
  {
    RoomIsFree(c, s, s.pubs[p]);
    hide IsSlowest, CursorsOk, ClaimsOk, ReadersOk, ScansOk, EntriesIntact, SeenOk, Room, Free;
    var end := Action<T>.ScanEnd(p);
    OneStep(c, s, end);
    acts, t := [end], Apply(c, s, end);
    if Free(c, s, s.writeCursor + 1, c.processors) {
      var swap, u := Action<T>.SwapWriteCursor(p), t;
      OneStep(c, u, swap);
      t := Apply(c, u, swap);
      LeadsOn(c, s, [end], u, [swap], t);
      acts := [end] + [swap];
    }
  }

  /**
   A call nobody interrupts gets the next number if every reader has released enough for it, and gives
   up without a trace otherwise.
   */
  lemma UninterruptedCall<T>(c: Config, s: State<T>, p: nat) returns (acts: seq<Action<T>>, t: State<T>)
    requires Inv(c, s) && p < c.publishers && s.pubs[p].Idle? && Ready(s) && s.writeCursor + 3 < VACANT
    ensures Leads(c, s, acts, t) && Inv(c, t) && OneCall(acts, p)
    ensures var rest := s.(started := true, slowestProcessor := t.slowestProcessor);
            t == if Free(c, s, s.writeCursor + 1, c.processors) then
                   rest.(writeCursor := s.writeCursor + 1, pubs := s.pubs[p := Granted(s.writeCursor + 1)],
                         holders := s.holders + [p])
                 else rest
    ensures IsSlowest(s.cursors, t.slowestProcessor)
  {
    hide CursorsOk, ClaimsOk, ReadersOk, ScansOk, EntriesIntact, SeenOk, Found, Apply, Enabled;
    var u, more;
    acts, u := CallScans(c, s, p);
    assert Free(c, s, s.writeCursor + 1, c.processors) <==> Free(c, u, s.writeCursor + 1, c.processors);
    hide Free;
    more, t := CallEnds(c, u, p);
    LeadsOn(c, s, acts, u, more, t);
    acts := acts + more;
    var granted := Granted(s.writeCursor + 1);
    assert u.pubs[p := Idle] == s.pubs && u.pubs[p := granted] == s.pubs[p := granted];
  }

  // ---------------------------------------------------------------- the first lap

  /** A reader that has released nothing yet. */
  predicate Fresh<T>(reader: Reader<T>, cursor: nat) {
    (reader.Active? ==> cursor == 1) && (reader.Registering? ==> cursor == 0)
  }

  ghost predicate AllFresh<T>(c: Config, s: State<T>)
    requires WellShaped(c, s)
  {
    forall r :: 0 <= r < c.processors ==> Fresh(s.readers[r], s.cursors[r])
  }

  lemma StepKeepsFresh<T>(c: Config, s: State<T>, a: Action<T>)
    requires Inv(c, s) && Enabled(c, s, a) && AllFresh(c, s) && !a.Release?
    ensures AllFresh(c, Apply(c, s, a))
  {
    hide ClaimsOk, ReadersOk, ScansOk, EntriesIntact, SeenOk;
    var s' := Apply(c, s, a);
    forall r | 0 <= r < c.processors
      ensures Fresh(s'.readers[r], s'.cursors[r])
    {
      assert Fresh(s.readers[r], s.cursors[r]);
    }
  }

  /** Until a reader releases something, there is room for one entry in each slot and no more. */
  lemma {:induction false} FirstLap<T>(c: Config, states: seq<State<T>>, actions: seq<Action<T>>, i: nat)
    requires IsRun(c, states, actions) && i < |states| && forall k :: 0 <= k < i ==> !actions[k].Release?
    ensures AllFresh(c, states[i])
    ensures Ready(states[i]) ==> forall claim: nat :: Free(c, states[i], claim, c.processors) <==> claim <= c.entries
    decreases i
  {
    if i != 0 {
      FirstLap(c, states, actions, i - 1);
      RunKeepsInv(c, states, actions, i - 1);
      hide Inv, Apply, Enabled, Ready, Free;
      StepKeepsFresh(c, states[i - 1], actions[i - 1]);
    }
    FreshHaveRoom(c, states[i]);
  }

  lemma FreshHaveRoom<T>(c: Config, s: State<T>)
    requires WellShaped(c, s) && AllFresh(c, s)
    ensures Ready(s) ==> forall claim: nat :: Free(c, s, claim, c.processors) <==> claim <= c.entries
  {
    if Ready(s) {
      var r :| 0 <= r < |s.readers| && s.readers[r].Active?;
      assert Fresh(s.readers[r], s.cursors[r]);
      assert forall q :: 0 <= q < c.processors ==> Fresh(s.readers[q], s.cursors[q]);
    }
  }

  // ---------------------------------------------------------------- failure in the middle of a run

  /** The publisher is inside the call. */
  predicate Trying(pub: Publisher) {
    (pub.Scanning? && !pub.blocking) || pub.Swapping?
  }

  /** The smallest cursor found so far was really there, at some time since the call began at state i. */
  ghost predicate Seen<T>(c: Config, states: seq<State<T>>, slowest: nat, i: nat, k: nat) {
    slowest == VACANT
    || exists r: nat, j: nat ::
         i < j <= k < |states| && r < |states[j].readers| == |states[j].cursors|
         && states[j].readers[r].Active? && states[j].cursors[r] == slowest
  }

  ghost predicate Tracked<T>(c: Config, states: seq<State<T>>, p: nat, i: nat, k: nat)
    requires i < k < |states| && p < |states[k].pubs|
  {
    var pub := states[k].pubs[p];
    Trying(pub) ==>
      pub.claim == states[i].writeCursor + 1 && (pub.Scanning? ==> Seen(c, states, pub.slowest, i, k))
  }

  lemma {:induction false} CallIsTracked<T>(c: Config, states: seq<State<T>>, actions: seq<Action<T>>, p: nat, i: nat, k: nat)
    requires IsRun(c, states, actions) && i < k < |states| && p < c.publishers
    requires actions[i] == LoadNonblocking(p)
    requires forall j :: i < j <= k ==> p < |states[j].pubs| && Trying(states[j].pubs[p])
    ensures Tracked(c, states, p, i, k)
    decreases k
  {
    hide Inv, Init, Enabled;
    if i + 1 < k {
      hide Apply, Tracked;
      CallIsTracked(c, states, actions, p, i, k - 1);
      RunKeepsInv(c, states, actions, k - 1);
      TrackedStep(c, states, actions[k - 1], p, i, k);
    }
  }

  lemma TrackedStep<T>(c: Config, states: seq<State<T>>, a: Action<T>, p: nat, i: nat, k: nat)
    requires i + 1 < k < |states| && p < c.publishers && Inv(c, states[k - 1]) && Enabled(c, states[k - 1], a)
    requires states[k] == Apply(c, states[k - 1], a)
    requires Trying(states[k - 1].pubs[p]) && Tracked(c, states, p, i, k - 1)
    ensures Tracked(c, states, p, i, k)
  {
    var s := states[k - 1];
    if a == ScanOne(p) {
      var r := s.pubs[p].idx;
      assert ReaderOk(s.cursors[r], s.readers[r], s.maxRead);
      assert s.started && Ready(s);
      hide ClaimsOk, ReadersOk, ScansOk, EntriesIntact, SeenOk;
      SeenOn(c, states, s.pubs[p].slowest, i, k);
      if s.cursors[r] < s.pubs[p].slowest {
        assert Seen(c, states, s.cursors[r], i, k);
      }
    } else {
      hide CursorsOk, ClaimsOk, ReadersOk, ScansOk, EntriesIntact, SeenOk;
      if s.pubs[p].Scanning? {
        SeenOn(c, states, s.pubs[p].slowest, i, k);
      }
    }
  }

  lemma SeenOn<T>(c: Config, states: seq<State<T>>, slowest: nat, i: nat, k: nat)
    requires i + 1 < k < |states| && Seen(c, states, slowest, i, k - 1)
    ensures Seen(c, states, slowest, i, k)
  {
  }

  lemma {:induction false} CursorOnlyGrows<T>(c: Config, states: seq<State<T>>, actions: seq<Action<T>>, i: nat, j: nat)
    requires IsRun(c, states, actions) && i <= j < |states|
    ensures states[i].writeCursor <= states[j].writeCursor
    decreases j
  {
    if i < j {
      CursorOnlyGrows(c, states, actions, i, j - 1);
    }
  }

  /** A reader that had not released enough for a claim made at state i, at some time after that. */
  ghost predicate Lagged<T>(c: Config, states: seq<State<T>>, i: nat, j: nat) {
    exists r: nat, k: nat ::
      i < k <= j < |states| && r < |states[k].readers| == |states[k].cursors|
      && states[k].readers[r].Active? && states[k].cursors[r] + c.entries <= states[i].writeCursor + 1
  }

  /** A call that gives up met a reader that lagged behind, or somebody else took the number meanwhile. */
  lemma FailedCall<T>(c: Config, states: seq<State<T>>, actions: seq<Action<T>>, p: nat, i: nat, j: nat)
    requires IsRun(c, states, actions) && i < j < |actions| && p < c.publishers
    requires actions[i] == LoadNonblocking(p)
    requires forall k :: i < k <= j ==> p < |states[k].pubs| && Trying(states[k].pubs[p])
    requires p < |states[j + 1].pubs| && states[j + 1].pubs[p].Idle?
    ensures states[i].writeCursor < states[j].writeCursor || Lagged(c, states, i, j)
  {
    CallIsTracked(c, states, actions, p, i, j);
    RunKeepsInv(c, states, actions, j);
    CursorOnlyGrows(c, states, actions, i, j);
    var s := states[j];
    if actions[j] == ScanEnd(p) {
      var pub := s.pubs[p];
      NoRoomMeans(c, pub.claim, pub.slowest);
      var r: nat, k: nat :|
        i < k <= j < |states| && r < |states[k].readers| == |states[k].cursors|
        && states[k].readers[r].Active? && states[k].cursors[r] == pub.slowest;
      RunKeepsInv(c, states, actions, k);
      assert ReaderOk(states[k].cursors[r], states[k].readers[r], states[k].maxRead);
      CursorOnlyGrows(c, states, actions, k, j);
    }
  }

  lemma NoRoomMeans(c: Config, claim: nat, slowest: nat)
    requires 0 < c.entries && claim <= VACANT && slowest <= VACANT && !Room(c, claim, slowest) && 1 <= claim
    ensures slowest != VACANT && (claim < slowest || slowest + c.entries <= claim)
  {
  }
}
