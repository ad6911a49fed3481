/** Which links a run can count as a success while the command line prints them as failed. */
module Misjudged {
  import opened Options
  import opened Counting
  import opened Protocol
  import opened ProtocolSafety
  import opened ProtocolMessages
  import opened ProtocolStreams
  import opened CmdProgress
  import opened Scripts
  import opened Verdicts

  /** Link i has a line that says failed, and its node says success. */
  ghost predicate PrintsFailed(p: Params, s: State, i: nat)
    requires Shaped(p, s) && i < p.N()
  {
    && s.nodes[i].Some? && s.nodes[i].value.success
    && exists line :: line in EndedLines(Watch(s.msgs).out) && line.Ended? && line.id == i && !line.ok
  }

  // ------------------------------------------------- runs without a ping or a speed

  predicate Dull(m: Message) {
    && (m.GotPing? ==> m.ping <= 0)
    && (m.GotSpeed? ==> m.avg < 1)
  }

  /** No worker is about to give up. */
  predicate Hopeful(pc: Pc) {
    && (pc.NoSpeed? ==> pc.elapse <= 0 && !pc.failed)
    && (pc.Sending? ==> pc.node.success)
  }

  /** Nothing worth printing was reported, and all nodes are successes. */
  ghost predicate Unprinted(p: Params, s: State)
    requires Shaped(p, s)
  {
    && (forall m :: m in s.msgs ==> Dull(m))
    && (forall j :: 0 <= j < p.N() ==> Hopeful(s.pcs[j]))
    && (forall x :: x in s.chan ==> x.success)
    && (forall j :: 0 <= j < p.N() && s.nodes[j].Some? ==> s.nodes[j].value.success)
  }

  lemma LocalUnprinted(p: Params, i: nat, cancelled: bool, down: nat, pc: Pc, ch: Choice)
    requires i < p.N() == |p.direct| && Hopeful(pc) && Unlucky(Work(i, ch))
    requires Local(p, i, cancelled, down, pc, ch).Some?
    ensures
      var eff := Local(p, i, cancelled, down, pc, ch).value;
      Hopeful(eff.next) && (eff.msg.Some? ==> Dull(eff.msg.value))
  {
  }

  lemma StepUnprinted(p: Params, s: State, e: Event)
    requires Shaped(p, s) && p.Valid() && Unprinted(p, s) && Unlucky(e)
    ensures Unprinted(p, Apply(p, s, e))
  {
    if Enabled(p, s, e) {
      if e.Work? {
        LocalUnprinted(p, e.i, s.cancelled, s.down[e.i], s.pcs[e.i], e.ch);
      } else if Writes(e) {
        assert Dull(Written(p, s, e));
      }
      hide Local, Dull, Unlucky;
    }
  }

  lemma {:induction false} AlwaysUnprinted(p: Params, evs: seq<Event>)
    requires p.Valid() && AllUnlucky(evs)
    ensures Unprinted(p, After(p, evs))
  {
    if evs != [] {
      hide Apply, Unlucky, Hopeful, Dull;
      var front, e := evs[..|evs| - 1], evs[|evs| - 1];
      assert e in evs && forall d :: d in front ==> d in evs;
      AlwaysUnprinted(p, front);
      StepUnprinted(p, After(p, front), e);
    }
  }

  // ------------------------------------------------- collecting

  /** A node that waits is collected. */
  lemma CollectOne(p: Params, s: State)
    requires Shaped(p, s) && Safe(p, s) && s.main.Collecting? && s.chan != []
    ensures
      var s' := Apply(p, s, Event.Collect);
      && s'.main.Collecting? && s'.chan == s.chan[1..] && s'.pcs == s.pcs && s'.msgs == s.msgs
  {
    var x := s.chan[0];
    assert x in s.chan && Genuine(p, s, x);
    assert s.nodes[x.id].None?;
    hide Genuine, Local, Slots, Spawned, Workers;
    CountBound(s.nodes, TAKEN);
    assert !TAKEN(s.nodes[x.id]);
  }

  lemma {:induction false} CollectRest(p: Params, evs: seq<Event>) returns (more: seq<Event>)
    requires p.Valid() && After(p, evs).main.Collecting?
    ensures AllUnlucky(more)
    ensures
      var s, s' := After(p, evs), After(p, evs + more);
      s'.main.Collecting? && s'.chan == [] && s'.pcs == s.pcs && s'.msgs == s.msgs
    decreases |After(p, evs).chan|
  {
    hide After, Apply, Safe;
    if After(p, evs).chan == [] {
      more := [];
      assert evs + more == evs;
    } else {
      AlwaysSafe(p, evs);
      CollectOne(p, After(p, evs));
      AfterAppend(p, evs, Event.Collect);
      var rest := CollectRest(p, evs + [Event.Collect]);
      more := [Event.Collect] + rest;
      assert evs + more == evs + [Event.Collect] + rest;
    }
  }

  lemma PassesWait(p: Params, s: State)
    requires Shaped(p, s) && Safe(p, s) && Ready(p, s, p.N(), p.N())
    ensures Apply(p, s, PassWait).main.Collecting? && Apply(p, s, PassWait).pcs == s.pcs
  {
    NobodyCounted(p, s, p.N());
    hide Safe, Local;
  }

  /** A run of any links that collects a node from each that parses. */
  lemma WholeRun(p: Params) returns (evs: seq<Event>)
    requires p.Valid()
    ensures AllUnlucky(evs)
    ensures var s := After(p, evs); s.main.Collecting? && s.chan == [] && s.pcs == Placed(p.N(), p.N(), p.N())
  {
    var before := RunWorkers(p, p.N(), p.N());
    AlwaysSafe(p, before);
    PassesWait(p, After(p, before));
    AfterAppend(p, before, PassWait);
    hide After, Apply, Safe;
    var rest := CollectRest(p, before + [PassWait]);
    evs := before + [PassWait] + rest;
  }

  lemma NodeCollected(p: Params, s: State, i: nat)
    requires Shaped(p, s) && Channel(p, s) && i < p.N() && s.chan == [] && s.pcs[i].Past() && p.parses[i]
    ensures s.nodes[i].Some?
  {
    assert Made(p, s, i) && i !in Ids(s.chan);
  }

  // ------------------------------------------------- the line

  lemma {:induction false} LineExists(msgs: seq<Message>, id: nat) returns (line: Line)
    requires EndOne(id) in msgs
    ensures line in EndedLines(Watch(msgs).out) && line.Ended? && line.id == id
  {
    var front, m := msgs[..|msgs| - 1], msgs[|msgs| - 1];
    assert msgs == front + [m];
    WatchAppend(front, m);
    hide Watch, EndedLines, Observe;
    if m.EndOne? {
      NewEndLine(Watch(front), m.id);
    } else if m.GotServers? {
      QuietBatch(Watch(front), m.lo, m.hi);
    } else {
      OldLines(Watch(front), m);
    }
    if m == EndOne(id) {
      line := EndLine(Watch(front), id);
    } else {
      line := LineExists(front, id);
    }
  }

  lemma {:induction false} AboutIn(msgs: seq<Message>, i: nat)
    ensures forall m :: m in About(msgs, i) ==> m in msgs
  {
    if msgs != [] {
      var front, last := msgs[..|msgs| - 1], msgs[|msgs| - 1];
      assert msgs == front + [last];
      AboutIn(front, i);
    }
  }

  lemma {:induction false} DullFails(ms: seq<Message>)
    requires forall m :: m in ms ==> Dull(m)
    ensures !Ok(Tell(ms))
  {
    if ms != [] {
      var front, last := ms[..|ms| - 1], ms[|ms| - 1];
      assert ms == front + [last];
      DullFails(front);
      assert Dull(last);
    }
  }

  lemma FailedRun(p: Params, i: nat) returns (evs: seq<Event>)
    requires p.Valid() && i < p.N() && p.parses[i]
    ensures PrintsFailed(p, After(p, evs), i)
  {
    evs := WholeRun(p);
    var s := After(p, evs);
    AlwaysSafe(p, evs);
    AlwaysInTune(p, evs);
    AlwaysUnprinted(p, evs);
    hide After, Slots, Spawned, Workers, Channel, Collected, Disciplined, Announced;
    hide Watch, EndedLines, About, Tell, Ok, Dull;
    NodeCollected(p, s, i);
    assert ENDED(s.pcs[i]);
    var line := LineExists(s.msgs, i);
    LineTold(p, evs, line);
    AboutIn(s.msgs, i);
    DullFails(About(s.msgs, i));
  }

  lemma NodeParses(p: Params, evs: seq<Event>, i: nat)
    requires p.Valid() && i < p.N() && After(p, evs).nodes[i].Some?
    ensures p.parses[i]
  {
    AlwaysSafe(p, evs);
  }

  /** Any link can count as a success in a run and print as failed, if and only if it parses. */
  lemma FailedExactly(p: Params, i: nat)
    requires p.Valid() && i < p.N()
    ensures (exists evs :: PrintsFailed(p, After(p, evs), i)) <==> p.parses[i]
  {
    if p.parses[i] {
      var evs := FailedRun(p, i);
    }
    forall evs | PrintsFailed(p, After(p, evs), i)
      ensures p.parses[i]
    {
      NodeParses(p, evs, i);
    }
  }
}
