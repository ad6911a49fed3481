/**
  How late an endone can be: wg.Done runs before endone is written, so eof can overtake it. Which
  links this can happen to, and to how many at once.
*/
module LateEndone {
  import opened Counting
  import opened Protocol
  import opened ProtocolSafety
  import opened ProtocolProgress
  import opened ProtocolMessages
  import opened Scripts

  ghost predicate EofBefore(msgs: seq<Message>, i: nat) {
    exists a, b :: 0 <= a < b < |msgs| && msgs[a] == Eof && msgs[b] == EndOne(i)
  }

  /** The links whose endone eof can overtake: all if there is a second slot, and otherwise the last. */
  predicate CanBeLate(p: Params, i: nat) {
    i + 1 == p.N() || p.concurrency >= 2
  }

  // ------------------------------------------------- a run that is late

  lemma LateSteps(p: Params, s: State, i: nat)
    requires Shaped(p, s) && i < p.N() && Ready(p, s, p.N(), i) && s.wg == 0
    ensures Apply(p, Apply(p, s, PassWait), Work(i, Go)).msgs == s.msgs + [Eof] + [EndOne(i)]
  {
    var s1 := Apply(p, s, PassWait);
    assert s1.pcs == s.pcs && s1.pcs[i].Closing? && s1.msgs == s.msgs + [Eof];
  }

  lemma LateRun(p: Params, i: nat) returns (evs: seq<Event>)
    requires p.Valid() && i < p.N() && CanBeLate(p, i)
    ensures EofBefore(After(p, evs).msgs, i)
  {
    var before := RunWorkers(p, p.N(), i);
    var s := After(p, before);
    AlwaysSafe(p, before);
    NobodyCounted(p, s, i);
    LateSteps(p, s, i);
    AfterAppend(p, before, PassWait);
    AfterAppend(p, before + [PassWait], Work(i, Go));
    evs := before + [PassWait] + [Work(i, Go)];
    hide After, Safe, Ready, Apply;
    var msgs := After(p, evs).msgs;
    assert msgs[|s.msgs|] == Eof && msgs[|s.msgs| + 1] == EndOne(i);
  }

  // ------------------------------------------------- one slot

  /** With one slot, a worker is spawned only when those before it have finished. */
  ghost predicate SingleFile(p: Params, s: State)
    requires Shaped(p, s)
  {
    forall j :: 0 <= j < ProtocolSafety.Started(p, s.main) - 1 && j < p.N() ==> s.pcs[j].Finished?
  }

  lemma NobodyHolds(s: State, j: nat)
    requires Count(s.pcs, HOLDING) == 0 && j < |s.pcs|
    ensures !s.pcs[j].Holding()
  {
    CountBound(s.pcs, HOLDING);
    assert !HOLDING(s.pcs[j]);
  }

  lemma SingleFileStep(p: Params, s: State, e: Event)
    requires Shaped(p, s) && p.Valid() && p.concurrency == 1 && Slots(p, s) && Spawned(p, s) && SingleFile(p, s)
    ensures SingleFile(p, Apply(p, s, e))
  {
    hide Local;
    if Enabled(p, s, e) {
      if e.Spawn? {
        forall j: nat | j < s.main.k
          ensures s.pcs[j].Finished?
        {
          NobodyHolds(s, j);
        }
      } else if e.Work? {
        LocalFacts(p, e.i, s.cancelled, s.down[e.i], s.pcs[e.i], e.ch);
      }
    }
  }

  lemma {:induction false} AlwaysSingleFile(p: Params, evs: seq<Event>)
    requires p.Valid() && p.concurrency == 1
    ensures SingleFile(p, After(p, evs))
  {
    if evs != [] {
      var before := evs[..|evs| - 1];
      AlwaysSingleFile(p, before);
      AlwaysSafe(p, before);
      hide Apply, SingleFile, Slots, Spawned, Workers, Channel, Collected;
      SingleFileStep(p, After(p, before), evs[|evs| - 1]);
    }
  }

  /** So eof finds the endone of every link but the last already written. */
  lemma EarlyEndone(p: Params, evs: seq<Event>, i: nat)
    requires p.Valid() && p.concurrency == 1 && i + 1 < p.N()
    requires Eof in After(p, evs).msgs
    ensures EndOne(i) in After(p, evs).msgs
  {
    AlwaysSingleFile(p, evs);
    AlwaysInTune(p, evs);
    assert ENDED(After(p, evs).pcs[i]);
  }

  lemma NeverLate(p: Params, evs: seq<Event>, i: nat)
    requires p.Valid() && i < p.N() && !CanBeLate(p, i)
    ensures !EofBefore(After(p, evs).msgs, i)
  {
    var msgs := After(p, evs).msgs;
    forall a, b | 0 <= a < b < |msgs| && msgs[a] == Eof && msgs[b] == EndOne(i)
      ensures false
    {
      var k := PrefixOfRun(p, evs, a + 1);
      assert Eof in msgs[..a + 1];
      EarlyEndone(p, evs[..k], i);
      var c :| 0 <= c < a + 1 && msgs[c] == EndOne(i);
      StreamOrder(p, evs, c, b);
    }
  }

  /**
    The exact reach of the late endone: some run writes eof before the endone of link i if and only
    if i is the last link or there are at least two slots.
  */
  lemma LateExactly(p: Params, i: nat)
    requires p.Valid() && i < p.N()
    ensures (exists evs :: EofBefore(After(p, evs).msgs, i)) <==> CanBeLate(p, i)
  {
    if CanBeLate(p, i) {
      var evs := LateRun(p, i);
    } else {
      forall evs
        ensures !EofBefore(After(p, evs).msgs, i)
      {
        NeverLate(p, evs, i);
      }
    }
  }

  // ------------------------------------------------- how many

  lemma {:induction false} HeldOrEnded(pcs: seq<Pc>)
    requires forall j :: 0 <= j < |pcs| ==> !pcs[j].Idle?
    ensures |pcs| <= Count(pcs, HOLDING) + Count(pcs, ENDED)
  {
    if pcs != [] {
      HeldOrEnded(pcs[1..]);
    }
  }

  lemma EndedAtEof(p: Params, evs: seq<Event>)
    requires p.Valid() && Eof in After(p, evs).msgs
    ensures p.N() <= p.concurrency + Count(After(p, evs).msgs, IS_END)
  {
    var s := After(p, evs);
    AlwaysSafe(p, evs);
    AlwaysInTune(p, evs);
    hide After, Workers, Channel, Collected, Disciplined, Announced;
    HeldOrEnded(s.pcs);
  }

  lemma CountBounded(p: Params, evs: seq<Event>)
    requires p.Valid()
    ensures Count(After(p, evs).msgs, IS_END) <= p.N()
  {
    AlwaysInTune(p, evs);
    CountBound(After(p, evs).pcs, ENDED);
  }

  /** In every run at most as many endone messages follow eof as there are slots. */
  lemma FewLate(p: Params, evs: seq<Event>, a: nat)
    requires p.Valid() && a < |After(p, evs).msgs| && After(p, evs).msgs[a] == Eof
    ensures Count(After(p, evs).msgs[a + 1..], IS_END) <= p.concurrency
  {
    hide *;
    var msgs := After(p, evs).msgs;
    var k := PrefixOfRun(p, evs, a + 1);
    assert Eof in msgs[..a + 1];
    EndedAtEof(p, evs[..k]);
    CountBounded(p, evs);
    CountAppend(msgs[..a + 1], msgs[a + 1..], IS_END);
    assert msgs[..a + 1] + msgs[a + 1..] == msgs;
  }
}
