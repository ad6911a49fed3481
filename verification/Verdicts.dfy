/** What the command line prints about a link when it ends, against what the run records for it. */
module Verdicts {
  import opened Options
  import opened Counting
  import opened Protocol
  import opened ProtocolSafety
  import opened ProtocolMessages
  import opened ProtocolDeterminism
  import opened ProtocolStreams
  import opened CmdProgress

  /** What the messages about one link leave in the table. */
  function Tell(ms: seq<Message>): NodeProgress {
    if ms == [] then BLANK else Noted(Tell(ms[..|ms| - 1]), ms[|ms| - 1])
  }

  function Noted(np: NodeProgress, m: Message): NodeProgress {
    match m
    case GotPing(_, ping) => np.(ping := Some(ping))
    case GotSpeed(_, avg, _) => np.(down := RateOf(avg))
    case GotUpload(_, avg, _) => np.(up := RateOf(avg))
    case _ => np
  }

  lemma TellSnoc(ms: seq<Message>, m: Message)
    ensures Tell(ms + [m]) == Noted(Tell(ms), m)
  {
    assert (ms + [m])[..|ms|] == ms;
  }

  /** The table holds, for each link announced, what the messages about it leave. */
  ghost predicate Kept(nodes: map<nat, NodeProgress>, msgs: seq<Message>) {
    forall i: nat :: i < Announced(msgs) ==> i in nodes && nodes[i] == Tell(About(msgs, i))
  }

  lemma {:induction false} EnrolNodes(g: Progress, lo: nat, hi: nat)
    requires lo <= hi
    ensures forall i: nat :: lo <= i < hi ==> i in Enrol(g, lo, hi).nodes && Enrol(g, lo, hi).nodes[i] == BLANK
    ensures forall i: nat :: i < lo ==> (i in Enrol(g, lo, hi).nodes <==> i in g.nodes)
    ensures forall i: nat :: i < lo && i in g.nodes ==> Enrol(g, lo, hi).nodes[i] == g.nodes[i]
    decreases hi - lo
  {
    if lo < hi {
      EnrolNodes(g.(total := if lo in g.nodes then g.total else g.total + 1, nodes := g.nodes[lo := BLANK]), lo + 1, hi);
    }
  }

  lemma {:induction false} AboutNobody(msgs: seq<Message>, i: nat)
    requires forall m :: m in msgs ==> !m.FromWorker()
    ensures About(msgs, i) == []
  {
    if msgs != [] {
      AboutNobody(msgs[..|msgs| - 1], i);
    }
  }

  lemma BatchKept(p: Params, msgs: seq<Message>, lo: nat, hi: nat)
    requires Disciplined(p, msgs) && MayFollow(p, msgs, GotServers(lo, hi)) && Kept(Watch(msgs).nodes, msgs)
    ensures Kept(Watch(msgs + [GotServers(lo, hi)]).nodes, msgs + [GotServers(lo, hi)])
  {
    var m := GotServers(lo, hi);
    WatchAppend(msgs, m);
    AnnouncedSnoc(msgs, m);
    EnrolNodes(Watch(msgs), lo, hi);
    AnnouncedFirst(p, msgs);
    forall i: nat | i < hi
      ensures About(msgs + [m], i) == About(msgs, i) == []
    {
      AboutSnoc(msgs, m, i);
      AboutNobody(msgs, i);
    }
    hide Watch, Enrol, About, Announced;
  }

  /** A message that announces nothing is noted for the link it is about. */
  lemma ObserveNodes(g: Progress, m: Message, i: nat)
    requires !m.GotServers? && i in g.nodes
    ensures i in Observe(g, m).nodes
    ensures Observe(g, m).nodes[i] == if m.From(i) then Noted(g.nodes[i], m) else g.nodes[i]
  {
  }

  lemma AboutNoted(msgs: seq<Message>, m: Message, i: nat)
    ensures Tell(About(msgs + [m], i)) == if m.From(i) then Noted(Tell(About(msgs, i)), m) else Tell(About(msgs, i))
  {
    hide About, Tell, Noted;
    AboutSnoc(msgs, m, i);
    TellSnoc(About(msgs, i), m);
    assert About(msgs, i) + [] == About(msgs, i);
  }

  lemma OtherKept(p: Params, msgs: seq<Message>, m: Message)
    requires MayFollow(p, msgs, m) && !m.GotServers? && Kept(Watch(msgs).nodes, msgs)
    ensures Kept(Watch(msgs + [m]).nodes, msgs + [m])
  {
    hide Watch, About, Announced, Tell, Observe, MayFollow, Noted;
    WatchAppend(msgs, m);
    AnnouncedSnoc(msgs, m);
    forall i: nat | i < Announced(msgs)
      ensures i in Watch(msgs + [m]).nodes && Watch(msgs + [m]).nodes[i] == Tell(About(msgs + [m], i))
    {
      ObserveNodes(Watch(msgs), m, i);
      AboutNoted(msgs, m, i);
    }
  }

  lemma {:induction false} AlwaysKept(p: Params, msgs: seq<Message>)
    requires Disciplined(p, msgs)
    ensures Kept(Watch(msgs).nodes, msgs)
  {
    if msgs != [] {
      var front, m := msgs[..|msgs| - 1], msgs[|msgs| - 1];
      assert msgs == front + [m];
      AlwaysKept(p, front);
      hide Kept;
      if m.GotServers? {
        BatchKept(p, front, m.lo, m.hi);
      } else {
        OtherKept(p, front, m);
      }
    }
  }

  // ------------------------------------------------- the verdict on each line

  ghost predicate Judged(lines: seq<Line>, msgs: seq<Message>) {
    forall k :: 0 <= k < |lines| && lines[k].Ended? ==> lines[k].ok == Ok(Tell(About(msgs, lines[k].id)))
  }

  /** What is written after the endone of a link is not about that link. */
  lemma JudgedSnoc(p: Params, msgs: seq<Message>, m: Message)
    requires Disciplined(p, msgs) && MayFollow(p, msgs, m)
    requires Numbered(p, Watch(msgs), msgs) && Judged(EndedLines(Watch(msgs).out), msgs)
    ensures Judged(EndedLines(Watch(msgs).out), msgs + [m])
  {
    var lines := EndedLines(Watch(msgs).out);
    forall k | 0 <= k < |lines|
      ensures About(msgs + [m], lines[k].id) == About(msgs, lines[k].id)
    {
      assert EndOne(lines[k].id) in msgs;
      AboutSnoc(msgs, m, lines[k].id);
      assert About(msgs, lines[k].id) + [] == About(msgs, lines[k].id);
    }
    hide Watch, About, EndedLines, Tell, Numbered;
  }

  lemma NewLine(p: Params, msgs: seq<Message>, id: nat)
    requires MayFollow(p, msgs, EndOne(id)) && Kept(Watch(msgs).nodes, msgs)
    ensures
      var line := EndLine(Watch(msgs), id);
      && EndedLines(Watch(msgs + [EndOne(id)]).out) == EndedLines(Watch(msgs).out) + [line]
      && line.ok == Ok(Tell(About(msgs + [EndOne(id)], id)))
  {
    hide Watch, About, EndedLines, Tell, Announced, Observe, Ok;
    WatchAppend(msgs, EndOne(id));
    NewEndLine(Watch(msgs), id);
    AboutNoted(msgs, EndOne(id), id);
  }

  lemma {:induction false} EnrolQuiet(g: Progress, lo: nat, hi: nat)
    ensures Enrol(g, lo, hi).out == g.out
    decreases hi - lo
  {
    if lo < hi {
      EnrolQuiet(g.(total := if lo in g.nodes then g.total else g.total + 1, nodes := g.nodes[lo := BLANK]), lo + 1, hi);
    }
  }

  lemma JudgedEnd(p: Params, msgs: seq<Message>, id: nat)
    requires Disciplined(p, msgs) && MayFollow(p, msgs, EndOne(id)) && Kept(Watch(msgs).nodes, msgs)
    requires Judged(EndedLines(Watch(msgs).out), msgs + [EndOne(id)])
    ensures Judged(EndedLines(Watch(msgs + [EndOne(id)]).out), msgs + [EndOne(id)])
  {
    NewLine(p, msgs, id);
    hide Watch, About, EndedLines, Tell, Ok, Kept, Disciplined, MayFollow, Judged;
    JudgedAppend(EndedLines(Watch(msgs).out), EndLine(Watch(msgs), id), msgs + [EndOne(id)]);
  }

  lemma JudgedAppend(lines: seq<Line>, line: Line, msgs: seq<Message>)
    requires Judged(lines, msgs) && line.Ended? && line.ok == Ok(Tell(About(msgs, line.id)))
    ensures Judged(lines + [line], msgs)
  {
    hide Ok, Tell, About;
  }

  lemma JudgedOther(p: Params, msgs: seq<Message>, m: Message)
    requires MayFollow(p, msgs, m) && !m.EndOne? && Judged(EndedLines(Watch(msgs).out), msgs + [m])
    ensures Judged(EndedLines(Watch(msgs + [m]).out), msgs + [m])
  {
    WatchAppend(msgs, m);
    hide Watch, About, EndedLines, Tell, Ok, MayFollow, Observe, Judged;
    if m.GotServers? {
      QuietBatch(Watch(msgs), m.lo, m.hi);
    } else {
      OldLines(Watch(msgs), m);
    }
  }

  lemma QuietBatch(g: Progress, lo: nat, hi: nat)
    ensures Observe(g, GotServers(lo, hi)).out == g.out
  {
    EnrolQuiet(g, lo, hi);
  }

  lemma {:induction false} AlwaysJudged(p: Params, msgs: seq<Message>)
    requires Disciplined(p, msgs)
    ensures Judged(EndedLines(Watch(msgs).out), msgs)
  {
    if msgs != [] {
      var front, m := msgs[..|msgs| - 1], msgs[|msgs| - 1];
      assert msgs == front + [m];
      AlwaysJudged(p, front);
      DisciplinedNumbered(p, front);
      AlwaysKept(p, front);
      hide Watch, EndedLines, Numbered, Judged, Kept, MayFollow;
      JudgedSnoc(p, front, m);
      if m.EndOne? {
        JudgedEnd(p, front, m.id);
      } else {
        JudgedOther(p, front, m);
      }
    }
  }

  // ------------------------------------------------- the verdict and the node

  ghost predicate Pinged(ms: seq<Message>) {
    exists m :: m in ms && m.GotPing? && m.ping > 0
  }

  ghost predicate Started(ms: seq<Message>) {
    exists m :: m in ms && m.StartSpeed?
  }

  /** What the table can say at each place of a worker's code. */
  ghost predicate Consistent(pc: Pc, np: NodeProgress, pinged: bool, started: bool) {
    && (np.ping.Some? && np.ping.value > 0 <==> pinged)
    && (np.down.PerSecond? ==> started)
    && (pc.Speed? ==> started)
    && (pc.Parsing? || pc.PingStart? || pc.Pinging? ==> !pinged)
  }

  lemma ConsistentStep(p: Params, i: nat, cancelled: bool, down: nat, pc: Pc, ch: Choice,
                       np: NodeProgress, pinged: bool, started: bool)
    requires p.Valid() && i < p.N() && Consistent(pc, np, pinged, started)
    requires Local(p, i, cancelled, down, pc, ch).Some?
    ensures
      var eff := Local(p, i, cancelled, down, pc, ch).value;
      var m := eff.msg;
      Consistent(eff.next, if m.Some? then Noted(np, m.value) else np,
                 pinged || (m.Some? && m.value.GotPing? && m.value.ping > 0), started || (m.Some? && m.value.StartSpeed?))
  {
  }

  lemma MarksSnoc(ms: seq<Message>, m: Option<Message>)
    ensures Pinged(ms + Optional(m)) <==> Pinged(ms) || (m.Some? && m.value.GotPing? && m.value.ping > 0)
    ensures Started(ms + Optional(m)) <==> Started(ms) || (m.Some? && m.value.StartSpeed?)
    ensures Tell(ms + Optional(m)) == if m.Some? then Noted(Tell(ms), m.value) else Tell(ms)
  {
    if m.Some? {
      TellSnoc(ms, m.value);
    } else {
      assert ms + [] == ms;
    }
  }

  lemma {:induction false} ReplayConsistent(p: Params, i: nat, log: seq<(Choice, bool)>)
    requires p.Valid() && i < p.N()
    ensures
      var ms := Emitted(p, i, log);
      Consistent(Replay(p, i, log).0, Tell(ms), Pinged(ms), Started(ms))
  {
    if log != [] {
      hide Local, Consistent, Pinged, Started, Tell;
      var front := log[..|log| - 1];
      var (ch, cancelled) := log[|log| - 1];
      var (pc, down) := Replay(p, i, front);
      var eff := Local(p, i, cancelled, down, pc, ch);
      var ms := Emitted(p, i, front);
      ReplayConsistent(p, i, front);
      MarksSnoc(ms, if eff.Some? then eff.value.msg else None);
      if eff.Some? {
        ConsistentStep(p, i, cancelled, down, pc, ch, Tell(ms), Pinged(ms), Started(ms));
      }
    }
  }

  /** In every run, of the messages about a link. */
  lemma LinkConsistent(p: Params, evs: seq<Event>, i: nat)
    requires p.Valid() && i < p.N()
    ensures
      var ms := About(After(p, evs).msgs, i);
      (Ok(Tell(ms)) <==> Pinged(ms) || Tell(ms).down.PerSecond?) && (Tell(ms).down.PerSecond? ==> Started(ms))
  {
    var log, pc := Log(p, evs, i), After(p, evs).pcs[i];
    LinkStream(p, evs, i);
    ReplayConsistent(p, i, log);
    hide After, Log, Replay, Emitted, About, Tell, Pinged, Started;
    var m := if ENDED(pc) then Some(EndOne(i)) else None;
    assert Last(pc, i) == Optional(m);
    MarksSnoc(Emitted(p, i, log), m);
  }

  lemma LineTold(p: Params, evs: seq<Event>, line: Line)
    requires p.Valid() && line in EndedLines(Watch(After(p, evs).msgs).out)
    ensures line.Ended? && line.ok == Ok(Tell(About(After(p, evs).msgs, line.id)))
  {
    AlwaysInTune(p, evs);
    AlwaysJudged(p, After(p, evs).msgs);
    hide After, Watch, EndedLines, About, Tell, Disciplined, Ok;
  }

  // ------------------------------------------------- the last ping and the last speed

  /** The latest ping that was reported for a link. */
  function LastPing(msgs: seq<Message>, i: nat): Option<int> {
    if msgs == [] then None
    else
      var m := msgs[|msgs| - 1];
      if m.GotPing? && m.id == i then Some(m.ping) else LastPing(msgs[..|msgs| - 1], i)
  }

  /** The latest average speed that was reported for its download. */
  function LastAvg(msgs: seq<Message>, i: nat): Option<int> {
    if msgs == [] then None
    else
      var m := msgs[|msgs| - 1];
      if m.GotSpeed? && m.id == i then Some(m.avg) else LastAvg(msgs[..|msgs| - 1], i)
  }

  /** The last ping took some time, or the last speed was at least 1. */
  predicate Deserved(msgs: seq<Message>, i: nat) {
    || (LastPing(msgs, i).Some? && LastPing(msgs, i).value > 0)
    || (LastAvg(msgs, i).Some? && LastAvg(msgs, i).value >= 1)
  }

  lemma LastSnoc(msgs: seq<Message>, m: Message, i: nat)
    ensures LastPing(msgs + [m], i) == if m.GotPing? && m.id == i then Some(m.ping) else LastPing(msgs, i)
    ensures LastAvg(msgs + [m], i) == if m.GotSpeed? && m.id == i then Some(m.avg) else LastAvg(msgs, i)
  {
    assert (msgs + [m])[..|msgs|] == msgs;
  }

  lemma {:induction false} TellIsLast(msgs: seq<Message>, i: nat)
    ensures
      var np := Tell(About(msgs, i));
      np.ping == LastPing(msgs, i) && (np.down.PerSecond? <==> LastAvg(msgs, i).Some? && LastAvg(msgs, i).value >= 1)
  {
    if msgs != [] {
      hide About, Tell;
      var front, m := msgs[..|msgs| - 1], msgs[|msgs| - 1];
      TellIsLast(front, i);
      AboutNoted(front, m, i);
      LastSnoc(front, m, i);
      assert msgs == front + [m];
      hide LastPing, LastAvg;
    }
  }

  /** In every run a line prints ok if and only if its link's last ping was positive or its last speed at least 1. */
  lemma LineJudged(p: Params, evs: seq<Event>, line: Line)
    requires p.Valid() && line in EndedLines(Watch(After(p, evs).msgs).out)
    ensures line.Ended? && (line.ok <==> Deserved(After(p, evs).msgs, line.id))
  {
    hide After, Watch, EndedLines, About, Tell, LastPing, LastAvg;
    LineTold(p, evs, line);
    TellIsLast(After(p, evs).msgs, line.id);
  }

  lemma ReachedParts(ms: seq<Message>)
    ensures Reached(ms) <==> Pinged(ms) || Started(ms)
  {
  }

  /**
    In every run a line that prints a link as ok is about a link that counts as a success; and it
    agrees with the node exactly unless no ping came back, a download began, and the last speed
    reported for it was below 1: that link counts as a success and prints as failed.
  */
  lemma VerdictExactly(p: Params, evs: seq<Event>, line: Line)
    requires p.Valid() && line in EndedLines(Watch(After(p, evs).msgs).out)
    requires line.id < p.N() && After(p, evs).nodes[line.id].Some?
    ensures
      var s := After(p, evs);
      var node, ms := s.nodes[line.id].value, About(s.msgs, line.id);
      && line.Ended? && (line.ok ==> node.success)
      && (line.ok != node.success <==>
            && !Pinged(ms) && Started(ms)
            && (LastAvg(s.msgs, line.id).None? || LastAvg(s.msgs, line.id).value < 1))
  {
    hide After, Watch, EndedLines, About, Tell, Ok, Reached, Pinged, Started, LastPing, LastAvg;
    LineTold(p, evs, line);
    TellIsLast(After(p, evs).msgs, line.id);
    NodeExplained(p, evs, line.id);
    LinkConsistent(p, evs, line.id);
    ReachedParts(About(After(p, evs).msgs, line.id));
  }
}
