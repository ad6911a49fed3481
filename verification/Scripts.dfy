/**
  A run written out for any links: each worker in its turn pings in no time, starts its download,
  which fails, and runs to its end; one worker, if any, stops short of writing its endone.
*/
module Scripts {
  import opened Counting
  import opened Protocol
  import opened ProtocolSafety
  import opened ProtocolProgress
  import opened ProtocolMessages

  /** Pings take no time and come without an error, and speed phases fail without a sample. */
  predicate Unlucky(e: Event) {
    e.Work? ==> e.ch.Go? || e.ch == Answer(0, false) || e.ch == Finish(true)
  }

  ghost predicate AllUnlucky(evs: seq<Event>) {
    forall e :: e in evs ==> Unlucky(e)
  }

  /** Worker i can keep its slot while the others run: there is a second one, or no other to come. */
  predicate CanHold(p: Params, i: nat) {
    i + 1 >= p.N() || p.concurrency >= 2
  }

  /** A step of worker j that moves it on and touches neither the main loop nor another worker. */
  ghost predicate MovesOn(p: Params, s: State, j: nat, e: Event)
    requires Shaped(p, s) && j < p.N()
  {
    var s' := Apply(p, s, e);
    && s'.main == s.main && s'.pcs == s.pcs[j := s'.pcs[j]]
    && (s'.pcs[j].Working() || s'.pcs[j].Closing?) && PcRank(s'.pcs[j]) < PcRank(s.pcs[j])
  }

  function Reply(pc: Pc): Choice {
    if pc.Pinging? then Answer(0, false) else if pc.Speed? || pc.Upload? then Finish(true) else Go
  }

  lemma LocalStep(p: Params, s: State, j: nat)
    requires Shaped(p, s) && j < p.N() && s.pcs[j].Working() && !s.pcs[j].Sending? && !s.pcs[j].Returning?
    ensures MovesOn(p, s, j, Work(j, Reply(s.pcs[j])))
  {
  }

  /** A next step of worker j that needs nobody else. */
  lemma NextStep(p: Params, s: State, j: nat) returns (e: Event)
    requires Shaped(p, s) && p.Valid() && Channel(p, s) && j < p.N() && s.pcs[j].Working()
    ensures MovesOn(p, s, j, e) && Unlucky(e)
  {
    if s.pcs[j].Sending? {
      RoomToSend(p, s, j);
      hide Channel;
      e := Send(j);
    } else if s.pcs[j].Returning? {
      hide Channel;
      e := Done(j);
    } else {
      hide MovesOn, Channel;
      LocalStep(p, s, j);
      e := Work(j, Reply(s.pcs[j]));
    }
  }

  lemma Advance(p: Params, evs: seq<Event>, j: nat) returns (e: Event)
    requires p.Valid() && j < p.N() && After(p, evs).pcs[j].Working()
    ensures Unlucky(e)
    ensures
      var s, s' := After(p, evs), After(p, evs + [e]);
      && s'.main == s.main && s'.pcs == s.pcs[j := s'.pcs[j]]
      && (s'.pcs[j].Working() || s'.pcs[j].Closing?) && PcRank(s'.pcs[j]) < PcRank(s.pcs[j])
  {
    AlwaysSafe(p, evs);
    e := NextStep(p, After(p, evs), j);
    AfterAppend(p, evs, e);
    hide After, Apply, Safe, Shaped, PcRank;
  }

  lemma {:induction false} ToClosing(p: Params, evs: seq<Event>, j: nat) returns (more: seq<Event>)
    requires p.Valid() && j < p.N() && After(p, evs).pcs[j].Working()
    ensures AllUnlucky(more)
    ensures
      var s, s' := After(p, evs), After(p, evs + more);
      s'.main == s.main && s'.pcs == s.pcs[j := Closing]
    decreases PcRank(After(p, evs).pcs[j])
  {
    hide After, Apply, PcRank;
    var e := Advance(p, evs, j);
    if After(p, evs + [e]).pcs[j].Closing? {
      more := [e];
    } else {
      var rest := ToClosing(p, evs + [e], j);
      more := [e] + rest;
      assert evs + more == evs + [e] + rest;
    }
  }

  /** Where the workers stand when the first k were run to their end, but for the endone of worker i. */
  function Placed(n: nat, k: nat, i: nat): seq<Pc> {
    seq(n, x => if x >= k then Idle else if x == i then Closing else Finished)
  }

  ghost predicate Ready(p: Params, s: State, k: nat, i: nat) {
    s.main == Spawning(k, false) && s.pcs == Placed(p.N(), k, i)
  }

  lemma BatchStep(p: Params, s: State)
    requires Shaped(p, s) && s.main.Announcing? && s.main.i < p.N()
    ensures
      var s' := Apply(p, s, Batch);
      && s'.pcs == s.pcs
      && (s'.main == Spawning(0, false) || (s'.main.Announcing? && s.main.i < s'.main.i < p.N()))
  {
    hide Local;
  }

  lemma OneBatch(p: Params, evs: seq<Event>)
    requires p.Valid() && After(p, evs).main.Announcing? && After(p, evs).main.i < p.N()
    ensures
      var s, s' := After(p, evs), After(p, evs + [Batch]);
      && s'.pcs == s.pcs
      && (s'.main == Spawning(0, false) || (s'.main.Announcing? && s.main.i < s'.main.i < p.N()))
  {
    AfterAppend(p, evs, Batch);
    BatchStep(p, After(p, evs));
    hide After, Apply;
  }

  lemma {:induction false} AnnounceRest(p: Params, evs: seq<Event>) returns (more: seq<Event>)
    requires p.Valid() && After(p, evs).main.Announcing? && After(p, evs).main.i < p.N()
    requires After(p, evs).pcs == Placed(p.N(), 0, 0)
    ensures Ready(p, After(p, evs + more), 0, 0) && AllUnlucky(more)
    decreases p.N() - After(p, evs).main.i
  {
    hide Local;
    hide After, Placed;
    OneBatch(p, evs);
    if After(p, evs + [Batch]).main.Spawning? {
      more := [Batch];
    } else {
      var rest := AnnounceRest(p, evs + [Batch]);
      more := [Batch] + rest;
      assert evs + more == evs + [Batch] + rest;
    }
  }

  lemma AnnounceAll(p: Params) returns (evs: seq<Event>)
    requires p.Valid()
    ensures Ready(p, After(p, evs), 0, 0) && AllUnlucky(evs)
  {
    AfterAppend(p, [], Begin);
    assert [] + [Begin] == [Begin];
    assert Init(p).pcs == Placed(p.N(), 0, 0);
    var rest := AnnounceRest(p, [Begin]);
    evs := [Begin] + rest;
  }

  lemma HoldersPlaced(n: nat, k: nat, i: nat)
    requires k <= n
    ensures Count(Placed(n, k, i), HOLDING) <= if i < k then 1 else 0
    ensures Count(Placed(n, k, i), WORKING) == 0
  {
    var pcs := Placed(n, k, i);
    CountBound(pcs, WORKING);
    CountWhere(pcs, HOLDING);
    assert forall x :: x in Where(pcs, HOLDING) ==> x == i && i < k;
    if i < k {
      AtMostOne(Where(pcs, HOLDING), i);
    } else {
      assert Where(pcs, HOLDING) == {};
    }
  }

  lemma AtMostOne(s: set<nat>, i: nat)
    requires forall x :: x in s ==> x == i
    ensures |s| <= 1
  {
    if i in s {
      assert s == {i};
    } else {
      assert s == {};
    }
  }

  /** wg.Add and a free slot bring the next worker in. */
  lemma SpawnNext(p: Params, evs: seq<Event>, k: nat, i: nat)
    requires p.Valid() && k < p.N() && CanHold(p, i) && Ready(p, After(p, evs), k, i)
    ensures
      var s := After(p, evs + [AddWg] + [Spawn]);
      s.main == Spawning(k + 1, false) && s.pcs == Placed(p.N(), k, i)[k := Parsing]
  {
    hide Local;
    AlwaysSafe(p, evs);
    HoldersPlaced(p.N(), k, i);
    AfterAppend(p, evs, AddWg);
    AfterAppend(p, evs + [AddWg], Spawn);
    hide After, Spawned, Workers, Channel, Collected, Count;
  }

  lemma CloseWorker(p: Params, s: State, j: nat)
    requires Shaped(p, s) && j < p.N() && s.pcs[j].Closing? && s.guard > 0
    ensures
      var s' := Apply(p, Apply(p, s, Work(j, Go)), Release(j));
      s'.main == s.main && s'.pcs == s.pcs[j := Finished]
  {
    var s1 := Apply(p, s, Work(j, Go));
    assert s1.main == s.main && s1.pcs == s.pcs[j := Releasing] && s1.guard == s.guard;
  }

  lemma HolderCounted(p: Params, s: State, j: nat)
    requires Shaped(p, s) && Slots(p, s) && j < p.N() && s.pcs[j].Holding()
    ensures s.guard > 0
  {
    CountBound(s.pcs, HOLDING);
    assert HOLDING(s.pcs[j]);
  }

  lemma FinishWorker(p: Params, evs: seq<Event>, j: nat)
    requires p.Valid() && j < p.N() && After(p, evs).pcs[j].Closing?
    ensures
      var s, s' := After(p, evs), After(p, evs + [Work(j, Go)] + [Release(j)]);
      s'.main == s.main && s'.pcs == s.pcs[j := Finished]
  {
    AlwaysSafe(p, evs);
    HolderCounted(p, After(p, evs), j);
    CloseWorker(p, After(p, evs), j);
    AfterAppend(p, evs, Work(j, Go));
    AfterAppend(p, evs + [Work(j, Go)], Release(j));
    hide *;
  }

  lemma {:induction false} RunWorkers(p: Params, k: nat, i: nat) returns (evs: seq<Event>)
    requires p.Valid() && k <= p.N() && CanHold(p, i)
    ensures Ready(p, After(p, evs), k, i) && AllUnlucky(evs)
  {
    hide After;
    if k == 0 {
      evs := AnnounceAll(p);
      assert Placed(p.N(), 0, i) == Placed(p.N(), 0, 0);
    } else {
      var before := RunWorkers(p, k - 1, i);
      SpawnNext(p, before, k - 1, i);
      evs := before + [AddWg] + [Spawn];
      var more := ToClosing(p, evs, k - 1);
      evs := evs + more;
      if k - 1 != i {
        FinishWorker(p, evs, k - 1);
        evs := evs + [Work(k - 1, Go)] + [Release(k - 1)];
      }
      assert After(p, evs).pcs == Placed(p.N(), k, i);
    }
  }

  lemma NobodyCounted(p: Params, s: State, i: nat)
    requires Shaped(p, s) && Slots(p, s) && Ready(p, s, p.N(), i)
    ensures s.wg == 0
  {
    HoldersPlaced(p.N(), p.N(), i);
  }
}
