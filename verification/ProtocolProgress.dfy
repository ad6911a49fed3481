/** Every run comes to rest; where it rests says whether it completed. */
module ProtocolProgress {
  import opened Options
  import opened Counting
  import opened Protocol
  import opened ProtocolSafety

  const RANK: Pc -> int := (pc: Pc) => PcRank(pc)

  function PcRank(pc: Pc): nat {
    match pc
    case Idle => 13
    case Parsing => 12
    case PingStart => 11
    case Pinging => 10
    case NoSpeed(_, _) => 9
    case SpeedStart => 8
    case Speed => 7
    case SpeedDone => 6
    case Upload => 5
    case Sending(_) => 4
    case Returning => 3
    case Closing => 2
    case Releasing => 1
    case Finished => 0
  }

  function MainRank(n: nat, m: Main): int {
    match m
    case Opening => 4 * n + 4
    case Announcing(i) => 3 * n + 2 + n - i + 1
    case Spawning(k, added) => n + 1 + 2 * (n - k) + 1 - Bit(added)
    case Collecting(taken) => n - taken
    case Aborted(_) => 0
  }

  function Rank(p: Params, s: State): int {
    Sum(s.pcs, RANK) + MainRank(p.N(), s.main)
  }

  /** Steps a run can repeat without limit: samples arrive as long as a speed phase lasts. */
  predicate Sampling(e: Event) {
    e.Work? && e.ch.Sample?
  }

  lemma LocalRank(p: Params, i: nat, cancelled: bool, down: nat, pc: Pc, ch: Choice)
    requires i < p.N() == |p.direct| && Local(p, i, cancelled, down, pc, ch).Some?
    ensures PcRank(Local(p, i, cancelled, down, pc, ch).value.next) <= PcRank(pc) - 1 + Bit(ch.Sample?)
  {
  }

  lemma PcMove(p: Params, s: State, i: nat, pc: Pc)
    requires Shaped(p, s) && i < p.N()
    ensures Sum(s.pcs[i := pc], RANK) == Sum(s.pcs, RANK) - PcRank(s.pcs[i]) + PcRank(pc)
  {
    SumUpdate(s.pcs, i, pc, RANK);
  }

  lemma WorkRanks(p: Params, s: State, i: nat, ch: Choice)
    requires Shaped(p, s) && Enabled(p, s, Work(i, ch))
    ensures Rank(p, Apply(p, s, Work(i, ch))) <= Rank(p, s) - 1 + Bit(ch.Sample?)
  {
    hide Local;
    LocalRank(p, i, s.cancelled, s.down[i], s.pcs[i], ch);
    PcMove(p, s, i, Local(p, i, s.cancelled, s.down[i], s.pcs[i], ch).value.next);
  }

  lemma RankMoved(p: Params, s: State, s': State, i: nat, pc: Pc)
    requires Shaped(p, s) && Shaped(p, s') && i < p.N() && s'.main == s.main && s'.pcs == s.pcs[i := pc]
    ensures Rank(p, s') == Rank(p, s) - PcRank(s.pcs[i]) + PcRank(pc)
  {
    PcMove(p, s, i, pc);
  }

  lemma SharedRanks(p: Params, s: State, e: Event)
    requires Shaped(p, s) && Enabled(p, s, e)
    requires e.Send? || e.Done? || e.Release?
    ensures Rank(p, Apply(p, s, e)) <= Rank(p, s) - 1
  {
    hide Local, Rank;
    RankMoved(p, s, Apply(p, s, e), e.i, if e.Send? then Returning else if e.Done? then Closing else Finished);
  }

  lemma MainRanks(p: Params, s: State, e: Event)
    requires Shaped(p, s) && p.Valid() && Spawned(p, s) && Enabled(p, s, e)
    requires !e.Work? && !e.Send? && !e.Done? && !e.Release?
    ensures Rank(p, Apply(p, s, e)) <= Rank(p, s) - Bit(e.Progress())
  {
    hide Local;
    if e.Spawn? {
      PcMove(p, s, s.main.k, Parsing);
    }
  }

  lemma StepRanks(p: Params, s: State, e: Event)
    requires Shaped(p, s) && p.Valid() && Spawned(p, s) && Enabled(p, s, e)
    ensures Rank(p, Apply(p, s, e)) <= Rank(p, s) - Bit(e.Progress() && !Sampling(e))
  {
    hide Local;
    match e
    case Work(i, ch) => WorkRanks(p, s, i, ch);
    case Send(_) => SharedRanks(p, s, e);
    case Done(_) => SharedRanks(p, s, e);
    case Release(_) => SharedRanks(p, s, e);
    case _ => MainRanks(p, s, e);
  }

  /** The steps a run took by its own doing, samples aside. */
  function Moves(p: Params, evs: seq<Event>): nat
    requires p.Valid()
  {
    if evs == [] then 0
    else
      var before, e := evs[..|evs| - 1], evs[|evs| - 1];
      Moves(p, before) + Bit(Enabled(p, After(p, before), e) && e.Progress() && !Sampling(e))
  }

  lemma {:induction false} MovesRank(p: Params, evs: seq<Event>)
    requires p.Valid()
    ensures Moves(p, evs) + Rank(p, After(p, evs)) <= Rank(p, Init(p))
  {
    if evs != [] {
      var before, e := evs[..|evs| - 1], evs[|evs| - 1];
      MovesRank(p, before);
      AlwaysSafe(p, before);
      if Enabled(p, After(p, before), e) {
        StepRanks(p, After(p, before), e);
      }
    }
  }

  lemma {:induction false} RankNonNegative(pcs: seq<Pc>)
    ensures 0 <= Sum(pcs, RANK) <= 13 * |pcs|
    ensures (forall i :: 0 <= i < |pcs| ==> pcs[i].Idle?) ==> Sum(pcs, RANK) == 13 * |pcs|
  {
    if pcs != [] {
      RankNonNegative(pcs[1..]);
    }
  }

  /** However its steps interleave, a run takes at most 17 steps a link and four more besides its samples. */
  lemma RunIsBounded(p: Params, evs: seq<Event>)
    requires p.Valid()
    ensures Moves(p, evs) <= 17 * p.N() + 4
  {
    hide Moves, After, Safe;
    MovesRank(p, evs);
    AlwaysSafe(p, evs);
    RankNonNegative(After(p, evs).pcs);
    RankNonNegative(Init(p).pcs);
    MainRankNonNegative(p, After(p, evs));
  }

  lemma MainRankNonNegative(p: Params, s: State)
    requires Shaped(p, s) && Safe(p, s)
    ensures MainRank(p.N(), s.main) >= 0
  {
  }

  /** Nothing is left that the run could do by itself. */
  ghost predicate AtRest(p: Params, s: State)
    requires Shaped(p, s)
  {
    forall e: Event :: e.Progress() ==> !Enabled(p, s, e)
  }

  /** No worker is ever stuck: whoever holds a slot can take a step. */
  lemma HolderCanMove(p: Params, s: State, i: nat) returns (e: Event)
    requires Shaped(p, s) && p.Valid() && Safe(p, s) && i < p.N() && s.pcs[i].Holding()
    ensures e.Progress() && Enabled(p, s, e)
  {
    match s.pcs[i]
    case Pinging => e := Work(i, Answer(0, true));
    case Speed => e := Work(i, Finish(false));
    case Upload => e := Work(i, Finish(false));
    case Sending(_) =>
      RoomToSend(p, s, i);
      e := Send(i);
    case Returning => e := Done(i);
    case Releasing =>
      CountBound(s.pcs, HOLDING);
      assert HOLDING(s.pcs[i]);
      e := Release(i);
    case _ => e := Work(i, Go);
  }

  /** A run at rest, cancelled or not, leaves no worker behind, no slot taken and no spawning pending. */
  lemma RestLeavesNoWorker(p: Params, evs: seq<Event>)
    requires p.Valid() && AtRest(p, After(p, evs))
    ensures
      var s := After(p, evs);
      && (forall i :: 0 <= i < p.N() ==> s.pcs[i].Idle? || s.pcs[i].Finished?)
      && s.guard == 0
      && (s.main.Collecting? || (s.main.Aborted? && s.cancelled))
  {
    hide Local;
    var s := After(p, evs);
    AlwaysSafe(p, evs);
    AbortNeedsCancel(p, evs);
    NobodyLeft(p, s);
    hide After;
    assert !Enabled(p, s, Begin) && !Enabled(p, s, Batch);
    assert !Enabled(p, s, AddWg) && !Enabled(p, s, Spawn) && !Enabled(p, s, PassWait);
  }

  lemma NobodyLeft(p: Params, s: State)
    requires Shaped(p, s) && p.Valid() && Safe(p, s) && AtRest(p, s)
    ensures forall i :: 0 <= i < p.N() ==> s.pcs[i].Idle? || s.pcs[i].Finished?
    ensures s.guard == 0 && s.wg == Bit(Pending(s.main))
  {
    hide Workers;
    forall i | 0 <= i < p.N() ensures !s.pcs[i].Holding() {
      if s.pcs[i].Holding() {
        var e := HolderCanMove(p, s, i);
      }
    }
    hide AtRest;
    CountBound(s.pcs, HOLDING);
    CountBound(s.pcs, WORKING);
    assert forall i :: 0 <= i < p.N() ==> !HOLDING(s.pcs[i]) && !WORKING(s.pcs[i]);
  }

  lemma AbortStep(p: Params, s: State, e: Event)
    requires Shaped(p, s) && (s.main.Aborted? ==> s.cancelled)
    ensures Apply(p, s, e).main.Aborted? ==> Apply(p, s, e).cancelled
  {
    hide Local;
  }

  lemma {:induction false} AbortNeedsCancel(p: Params, evs: seq<Event>)
    requires p.Valid()
    ensures After(p, evs).main.Aborted? ==> After(p, evs).cancelled
  {
    if evs != [] {
      hide Apply;
      var before := evs[..|evs| - 1];
      AbortNeedsCancel(p, before);
      AbortStep(p, After(p, before), evs[|evs| - 1]);
    }
  }

  lemma DrainedTaken(p: Params, s: State)
    requires Shaped(p, s) && p.Valid() && Safe(p, s) && s.main.Collecting?
    requires s.chan == [] && forall i :: 0 <= i < p.N() ==> s.pcs[i].Finished?
    ensures s.main.taken == Count(p.parses, YES)
  {
    forall i | 0 <= i < p.N() ensures TAKEN(s.nodes[i]) == YES(p.parses[i]) {
      assert i !in Ids(s.chan);
    }
    CountAgree(s.nodes, p.parses, TAKEN, YES);
  }

  lemma AllTaken(p: Params, s: State)
    requires Shaped(p, s) && Safe(p, s) && s.main == Collecting(p.N())
    ensures forall i :: 0 <= i < p.N() ==> p.parses[i]
  {
    CountBound(s.nodes, TAKEN);
    forall i | 0 <= i < p.N() ensures p.parses[i] {
      assert TAKEN(s.nodes[i]);
    }
  }

  lemma HeadInRange(p: Params, s: State)
    requires Shaped(p, s) && Channel(p, s) && s.chan != []
    ensures s.chan[0].id < p.N()
  {
    assert Genuine(p, s, s.chan[0]);
  }

  /**
    An uncancelled run that can do nothing more has passed wg.Wait and collected one node for each
    link that parses. It has completed if and only if every link parses: otherwise the main loop
    waits for ever on the result channel.
  */
  lemma CompletesExactly(p: Params, evs: seq<Event>)
    requires p.Valid() && !After(p, evs).cancelled && AtRest(p, After(p, evs))
    ensures
      var s := After(p, evs);
      && s.main == Collecting(Count(p.parses, YES))
      && (s.main == Collecting(p.N()) <==> forall i :: 0 <= i < p.N() ==> p.parses[i])
  {
    var s := After(p, evs);
    RestLeavesNoWorker(p, evs);
    AlwaysSafe(p, evs);
    RestTaken(p, s);
    AllParse(p.parses);
  }

  /** A main loop that waits for nodes when all workers have finished has taken all there were. */
  lemma RestTaken(p: Params, s: State)
    requires Shaped(p, s) && p.Valid() && Safe(p, s) && s.main.Collecting? && !Enabled(p, s, Event.Collect)
    requires forall i :: 0 <= i < p.N() ==> s.pcs[i].Idle? || s.pcs[i].Finished?
    ensures s.main.taken == Count(p.parses, YES)
  {
    hide Local;
    if s.main.taken < p.N() {
      if s.chan != [] {
        HeadInRange(p, s);
      }
      DrainedTaken(p, s);
    } else {
      AllTaken(p, s);
      AllParse(p.parses);
    }
  }

  lemma AllParse(parses: seq<bool>)
    ensures Count(parses, YES) == |parses| <==> forall i :: 0 <= i < |parses| ==> parses[i]
  {
    CountBound(parses, YES);
    assert forall i :: 0 <= i < |parses| ==> YES(parses[i]) == parses[i];
  }
}
