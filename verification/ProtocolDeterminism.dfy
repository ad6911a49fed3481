/**
  The result of a run depends only on what each worker met by itself: not on how the workers were
  interleaved, not on when they finished, not even on the number of slots.
*/
module ProtocolDeterminism {
  import opened Options
  import opened Counting
  import opened Protocol
  import opened ProtocolSafety

  /** What worker i met while the WaitGroup counted it: the outside's choices, and whether the run was cancelled by then. */
  function Log(p: Params, evs: seq<Event>, i: nat): seq<(Choice, bool)>
    requires p.Valid() && i < p.N()
  {
    if evs == [] then []
    else
      var before, e := evs[..|evs| - 1], evs[|evs| - 1];
      var s := After(p, before);
      Log(p, before, i) + if Logged(p, s, e, i) then [(e.ch, s.cancelled)] else []
  }

  predicate Logged(p: Params, s: State, e: Event, i: nat)
    requires Shaped(p, s) && i < p.N()
  {
    e.Work? && e.i == i && Enabled(p, s, e) && s.pcs[i].Working()
  }

  /** A worker on its own, fed with a log. */
  function Replay(p: Params, i: nat, log: seq<(Choice, bool)>): (Pc, nat)
    requires p.Valid() && i < p.N()
  {
    if log == [] then (Parsing, 0)
    else
      var (pc, down) := Replay(p, i, log[..|log| - 1]);
      var (ch, cancelled) := log[|log| - 1];
      var eff := Local(p, i, cancelled, down, pc, ch);
      if eff.Some? then (eff.value.next, down + eff.value.bytes) else (pc, down)
  }

  /** Worker i stands where its log leads; past that, the node it sent is the one its log leads to. */
  ghost predicate Follows(p: Params, s: State, i: nat, log: seq<(Choice, bool)>)
    requires Shaped(p, s) && p.Valid() && i < p.N()
  {
    var (pc, down) := Replay(p, i, log);
    && (s.pcs[i].Idle? ==> log == [])
    && (s.pcs[i].Working() && !s.pcs[i].Returning? ==> pc == s.pcs[i])
    && (Made(p, s, i) ==> pc.Sending?)
    && down == s.down[i]
    && (forall x :: x in s.chan && x.id == i ==> pc == Sending(x))
    && (s.nodes[i].Some? ==> pc == Sending(s.nodes[i].value))
  }

  lemma ReplayAppend(p: Params, i: nat, log: seq<(Choice, bool)>, ch: Choice, cancelled: bool)
    requires p.Valid() && i < p.N()
    ensures
      var (pc, down) := Replay(p, i, log);
      var eff := Local(p, i, cancelled, down, pc, ch);
      Replay(p, i, log + [(ch, cancelled)]) == if eff.Some? then (eff.value.next, down + eff.value.bytes) else (pc, down)
  {
    assert (log + [(ch, cancelled)])[..|log|] == log;
  }

  lemma FollowsOwnWork(p: Params, s: State, ch: Choice, i: nat, log: seq<(Choice, bool)>)
    requires Shaped(p, s) && p.Valid() && i < p.N() && Safe(p, s) && Follows(p, s, i, log)
    requires Enabled(p, s, Work(i, ch)) && s.pcs[i].Working()
    ensures Follows(p, Apply(p, s, Work(i, ch)), i, log + [(ch, s.cancelled)])
  {
    var s' := Apply(p, s, Work(i, ch));
    var eff := Local(p, i, s.cancelled, s.down[i], s.pcs[i], ch).value;
    LocalFacts(p, i, s.cancelled, s.down[i], s.pcs[i], ch);
    ReplayAppend(p, i, log, ch, s.cancelled);
    NotYetSent(p, s, i);
    assert s'.chan == s.chan && s'.nodes == s.nodes;
    assert s'.pcs[i] == eff.next && s'.down[i] == s.down[i] + eff.bytes;
    hide Local, Apply, Enabled, Replay, Safe;
  }

  lemma FollowsOtherWork(p: Params, s: State, j: nat, ch: Choice, i: nat, log: seq<(Choice, bool)>)
    requires Shaped(p, s) && p.Valid() && i < p.N() && Safe(p, s) && Follows(p, s, i, log)
    requires Enabled(p, s, Work(j, ch)) && (j != i || !s.pcs[i].Working())
    ensures Follows(p, Apply(p, s, Work(j, ch)), i, log)
  {
    hide Local;
    LocalFacts(p, j, s.cancelled, s.down[j], s.pcs[j], ch);
  }

  /** A worker that still has local steps to do before it returns has nothing in the channel or the results. */
  lemma NotYetSent(p: Params, s: State, i: nat)
    requires Shaped(p, s) && i < p.N() && Channel(p, s) && !Made(p, s, i)
    ensures s.nodes[i].None? && forall x :: x in s.chan ==> x.id != i
  {
    forall x | x in s.chan ensures x.id != i {
      assert Genuine(p, s, x);
    }
  }

  lemma FollowsSend(p: Params, s: State, j: nat, i: nat, log: seq<(Choice, bool)>)
    requires Shaped(p, s) && p.Valid() && i < p.N() && Safe(p, s) && Follows(p, s, i, log)
    requires Enabled(p, s, Send(j))
    ensures Follows(p, Apply(p, s, Send(j)), i, log)
  {
    hide Local;
    var s' := Apply(p, s, Send(j));
    forall x | x in s'.chan && x.id == i ensures Replay(p, i, log).0 == Sending(x) {
      if x !in s.chan {
        assert x == s.pcs[j].node;
      }
    }
  }

  lemma FollowsOther(p: Params, s: State, e: Event, i: nat, log: seq<(Choice, bool)>)
    requires Shaped(p, s) && p.Valid() && i < p.N() && Safe(p, s) && Follows(p, s, i, log)
    requires Enabled(p, s, e) && !e.Work? && !e.Collect? && !e.Send?
    ensures Follows(p, Apply(p, s, e), i, log)
  {
    hide Local;
  }

  lemma FollowsCollect(p: Params, s: State, i: nat, log: seq<(Choice, bool)>)
    requires Shaped(p, s) && p.Valid() && i < p.N() && Safe(p, s) && Follows(p, s, i, log)
    requires Enabled(p, s, Event.Collect)
    ensures Follows(p, Apply(p, s, Event.Collect), i, log)
  {
    hide Local;
    assert s.chan[0] in s.chan;
  }

  lemma FollowsStep(p: Params, s: State, e: Event, i: nat, log: seq<(Choice, bool)>)
    requires Shaped(p, s) && p.Valid() && i < p.N() && Safe(p, s) && Follows(p, s, i, log)
    ensures Logged(p, s, e, i) ==> Follows(p, Apply(p, s, e), i, log + [(e.ch, s.cancelled)])
    ensures !Logged(p, s, e, i) ==> Follows(p, Apply(p, s, e), i, log)
  {
    hide Local;
    if Logged(p, s, e, i) {
      FollowsOwnWork(p, s, e.ch, i, log);
    } else if Enabled(p, s, e) {
      match e
      case Work(j, ch) => FollowsOtherWork(p, s, j, ch, i, log);
      case Collect => FollowsCollect(p, s, i, log);
      case Send(j) => FollowsSend(p, s, j, i, log);
      case _ => FollowsOther(p, s, e, i, log);
    }
  }

  lemma {:induction false} AlwaysFollows(p: Params, evs: seq<Event>, i: nat)
    requires p.Valid() && i < p.N()
    ensures Follows(p, After(p, evs), i, Log(p, evs, i))
  {
    if evs != [] {
      var before := evs[..|evs| - 1];
      AlwaysFollows(p, before, i);
      AlwaysSafe(p, before);
      FollowsStep(p, After(p, before), evs[|evs| - 1], i, Log(p, before, i));
      assert Log(p, before, i) + [] == Log(p, before, i);
    }
  }

  lemma {:induction false} ReplaySame(p: Params, q: Params, i: nat, log: seq<(Choice, bool)>)
    requires p.Valid() && q.Valid() && q == p.(concurrency := q.concurrency) && i < p.N()
    ensures Replay(p, i, log) == Replay(q, i, log)
  {
    if log != [] {
      ReplaySame(p, q, i, log[..|log| - 1]);
    }
  }

  ghost predicate Completed(p: Params, evs: seq<Event>)
    requires p.Valid()
  {
    After(p, evs).main == Collecting(p.N())
  }

  /**
    Two completed runs over the same links, at any two concurrency levels, in which every worker met
    the same choices, return the same nodes and the same totals, whatever the order of completion.
  */
  lemma ResultsIndependent(p: Params, q: Params, evs: seq<Event>, evs': seq<Event>)
    requires p.Valid() && q.Valid() && q == p.(concurrency := q.concurrency)
    requires Completed(p, evs) && Completed(q, evs')
    requires forall i :: 0 <= i < p.N() ==> Log(p, evs, i) == Log(q, evs', i)
    ensures
      var s, t := After(p, evs), After(q, evs');
      s.nodes == t.nodes && s.traffic == t.traffic && s.successes == t.successes
  {
    var s, t := After(p, evs), After(q, evs');
    SummaryIsOrderFree(p, evs);
    SummaryIsOrderFree(q, evs');
    forall i | 0 <= i < p.N() ensures s.nodes[i] == t.nodes[i] {
      AlwaysFollows(p, evs, i);
      AlwaysFollows(q, evs', i);
      ReplaySame(p, q, i, Log(p, evs, i));
    }
    assert s.nodes == t.nodes;
    AlwaysSafe(p, evs);
    AlwaysSafe(q, evs');
  }
}
