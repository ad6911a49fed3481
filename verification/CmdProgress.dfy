/** The command line's progress counter, reading the message stream of a run. */
module CmdProgress {
  import opened Options
  import opened Counting
  import opened Protocol
  import opened ProtocolSafety
  import opened ProtocolMessages

  /** A speed as the messages print it: "N/A" below 1. */
  datatype Rate = Unset | NotAvailable | PerSecond(avg: int)

  datatype NodeProgress = NodeProgress(ping: Option<int>, down: Rate, up: Rate)

  /** A printed line, without its text: the numbers in brackets and whom it is about. */
  datatype Line = Live(done: nat, total: nat, id: nat, up: bool) | Ended(done: nat, total: nat, id: nat, ok: bool)

  datatype Progress = Progress(nodes: map<nat, NodeProgress>, total: nat, done: nat, out: seq<Line>)

  const BLANK := NodeProgress(None, Unset, Unset)

  function RateOf(avg: int): Rate {
    if avg < 1 then NotAvailable else PerSecond(avg)
  }

  predicate Ok(np: NodeProgress) {
    (np.ping.Some? && np.ping.value > 0) || np.down.PerSecond?
  }

  function Enrol(g: Progress, lo: nat, hi: nat): Progress
    decreases hi - lo
  {
    if lo >= hi then g
    else Enrol(g.(total := if lo in g.nodes then g.total else g.total + 1, nodes := g.nodes[lo := BLANK]), lo + 1, hi)
  }

  function Observe(g: Progress, m: Message): Progress {
    match m
    case GotServers(lo, hi) => Enrol(g, lo, hi)
    case GotPing(id, ping) =>
      if id in g.nodes then g.(nodes := g.nodes[id := g.nodes[id].(ping := Some(ping))]) else g
    case GotSpeed(id, avg, _) =>
      if id in g.nodes then
        g.(nodes := g.nodes[id := g.nodes[id].(down := RateOf(avg))], out := g.out + [Live(g.done, g.total, id, false)])
      else g
    case GotUpload(id, avg, _) =>
      if id in g.nodes then
        g.(nodes := g.nodes[id := g.nodes[id].(up := RateOf(avg))], out := g.out + [Live(g.done, g.total, id, true)])
      else g
    case EndOne(id) =>
      g.(done := g.done + 1,
         out := g.out + [Ended(g.done + 1, g.total, id, Ok(if id in g.nodes then g.nodes[id] else BLANK))])
    case _ => g
  }

  const FRESH := Progress(map[], 0, 0, [])

  function Watch(msgs: seq<Message>): Progress {
    if msgs == [] then FRESH else Observe(Watch(msgs[..|msgs| - 1]), msgs[|msgs| - 1])
  }

  class CmdProgressWriter {
    var nodes: map<nat, NodeProgress>
    var total: nat
    var done: nat
    var out: seq<Line>

    ghost function State(): Progress
      reads this
    {
      Progress(nodes, total, done, out)
    }

    constructor ()
      ensures State() == FRESH
    {
      nodes, total, done, out := map[], 0, 0, [];
    }

    method WriteMessage(m: Message)
      modifies this
      ensures State() == Observe(old(State()), m)
    {
      match m {
        case GotServers(lo, hi) =>
          var id := lo;
          while id < hi
            invariant Enrol(State(), id, hi) == Enrol(old(State()), lo, hi)
            decreases hi - id
          {
            if id !in nodes {
              total := total + 1;
            }
            nodes := nodes[id := BLANK];
            id := id + 1;
          }
        case GotPing(id, ping) =>
          if id in nodes {
            nodes := nodes[id := nodes[id].(ping := Some(ping))];
          }
        case GotSpeed(id, avg, _) =>
          if id in nodes {
            nodes := nodes[id := nodes[id].(down := RateOf(avg))];
            out := out + [Live(done, total, id, false)];
          }
        case GotUpload(id, avg, _) =>
          if id in nodes {
            nodes := nodes[id := nodes[id].(up := RateOf(avg))];
            out := out + [Live(done, total, id, true)];
          }
        case EndOne(id) =>
          done := done + 1;
          var np := if id in nodes then nodes[id] else BLANK;
          out := out + [Ended(done, total, id, Ok(np))];
        case _ =>
      }
    }
  }

  // ------------------------------------------------- the numbers on the lines

  /** Exactly the links below i are known. */
  ghost predicate Enrolled(g: Progress, i: nat) {
    g.total == i && forall k: nat :: k in g.nodes <==> k < i
  }

  lemma {:induction false} EnrolBatch(g: Progress, lo: nat, hi: nat)
    requires Enrolled(g, lo) && lo <= hi
    ensures Enrolled(Enrol(g, lo, hi), hi)
    ensures Enrol(g, lo, hi).done == g.done && Enrol(g, lo, hi).out == g.out
    decreases hi - lo
  {
    if lo < hi {
      EnrolBatch(g.(total := g.total + 1, nodes := g.nodes[lo := BLANK]), lo + 1, hi);
    }
  }

  lemma WatchAppend(msgs: seq<Message>, m: Message)
    ensures Watch(msgs + [m]) == Observe(Watch(msgs), m)
  {
    assert (msgs + [m])[..|msgs|] == msgs;
  }

  function EndedLines(out: seq<Line>): (lines: seq<Line>)
    ensures forall k :: 0 <= k < |lines| ==> lines[k].Ended?
  {
    if out == [] then []
    else EndedLines(out[..|out| - 1]) + if out[|out| - 1].Ended? then [out[|out| - 1]] else []
  }

  lemma EndedLinesAppend(out: seq<Line>, l: Line)
    ensures EndedLines(out + [l]) == EndedLines(out) + if l.Ended? then [l] else []
  {
    assert (out + [l])[..|out|] == out;
  }

  /**
    After the messages so far: the links announced are known, and the endone lines count up to done,
    which is the number of endone messages; no link ends twice.
  */
  ghost predicate Numbered(p: Params, g: Progress, msgs: seq<Message>) {
    var lines := EndedLines(g.out);
    && Enrolled(g, Announced(msgs))
    && g.done == |lines| == Count(msgs, IS_END)
    && InOrder(p, lines, msgs)
  }

  ghost predicate InOrder(p: Params, lines: seq<Line>, msgs: seq<Message>) {
    && (forall k :: 0 <= k < |lines| ==>
          lines[k].Ended? && lines[k].done == k + 1 && lines[k].total == p.N() && lines[k].id < p.N())
    && (forall k :: 0 <= k < |lines| ==> EndOne(lines[k].id) in msgs)
    && (forall a, b :: 0 <= a < b < |lines| ==> lines[a].id != lines[b].id)
  }

  lemma InOrderLater(p: Params, lines: seq<Line>, msgs: seq<Message>, m: Message)
    requires InOrder(p, lines, msgs)
    ensures InOrder(p, lines, msgs + [m])
  {
  }

  /** The line an endone message prints. */
  function EndLine(g: Progress, id: nat): Line {
    Ended(g.done + 1, g.total, id, Ok(if id in g.nodes then g.nodes[id] else BLANK))
  }

  lemma NewEndLine(g: Progress, id: nat)
    ensures
      var g' := Observe(g, EndOne(id));
      && EndedLines(g'.out) == EndedLines(g.out) + [EndLine(g, id)]
      && g'.done == g.done + 1 && g'.total == g.total && g'.nodes == g.nodes
  {
    EndedLinesAppend(g.out, EndLine(g, id));
  }

  lemma EndOneNumbered(p: Params, msgs: seq<Message>, id: nat)
    requires Numbered(p, Watch(msgs), msgs) && MayFollow(p, msgs, EndOne(id))
    ensures Numbered(p, Watch(msgs + [EndOne(id)]), msgs + [EndOne(id)])
  {
    var g, m := Watch(msgs), EndOne(id);
    WatchAppend(msgs, m);
    TallyAppend(msgs, m);
    AnnouncedSnoc(msgs, m);
    NewEndLine(g, id);
    hide Watch, EndedLines, Announced, Count, Observe, Ok;
    assert forall k :: 0 <= k < |EndedLines(g.out)| ==> EndedLines(g.out)[k].id != id;
  }

  lemma AnnouncedSnoc(msgs: seq<Message>, m: Message)
    ensures Announced(msgs + [m]) == if m.GotServers? then m.hi else Announced(msgs)
  {
    assert (msgs + [m])[..|msgs|] == msgs;
  }

  lemma BatchNumbered(p: Params, msgs: seq<Message>, lo: nat, hi: nat)
    requires Numbered(p, Watch(msgs), msgs) && lo == Announced(msgs) <= hi
    ensures Numbered(p, Watch(msgs + [GotServers(lo, hi)]), msgs + [GotServers(lo, hi)])
  {
    var m := GotServers(lo, hi);
    WatchAppend(msgs, m);
    TallyAppend(msgs, m);
    AnnouncedSnoc(msgs, m);
    EnrolBatch(Watch(msgs), lo, hi);
    InOrderLater(p, EndedLines(Watch(msgs).out), msgs, m);
    hide Watch, EndedLines, Announced, Count, Enrol, InOrder;
  }

  /** Other messages print no endone line and change no count. */
  lemma OldLines(g: Progress, m: Message)
    requires !m.EndOne? && !m.GotServers?
    ensures
      var g' := Observe(g, m);
      EndedLines(g'.out) == EndedLines(g.out) && g'.done == g.done && g'.total == g.total && g'.nodes.Keys == g.nodes.Keys
  {
    hide EndedLines;
    match m
    case GotSpeed(id, _, _) => EndedLinesAppend(g.out, Live(g.done, g.total, id, false));
    case GotUpload(id, _, _) => EndedLinesAppend(g.out, Live(g.done, g.total, id, true));
    case _ =>
  }

  lemma OtherNumbered(p: Params, msgs: seq<Message>, m: Message)
    requires Numbered(p, Watch(msgs), msgs) && MayFollow(p, msgs, m) && !m.EndOne? && !m.GotServers?
    ensures Numbered(p, Watch(msgs + [m]), msgs + [m])
  {
    WatchAppend(msgs, m);
    TallyAppend(msgs, m);
    AnnouncedSnoc(msgs, m);
    OldLines(Watch(msgs), m);
    InOrderLater(p, EndedLines(Watch(msgs).out), msgs, m);
    hide Watch, EndedLines, Announced, Count, Observe, MayFollow, InOrder;
    assert forall k: nat :: k in Watch(msgs + [m]).nodes <==> k in Watch(msgs).nodes;
  }

  lemma {:induction false} DisciplinedNumbered(p: Params, msgs: seq<Message>)
    requires Disciplined(p, msgs)
    ensures Numbered(p, Watch(msgs), msgs)
  {
    if msgs != [] {
      var front, m := msgs[..|msgs| - 1], msgs[|msgs| - 1];
      assert msgs == front + [m];
      DisciplinedNumbered(p, front);
      hide Numbered;
      match m {
        case EndOne(id) => EndOneNumbered(p, front, id);
        case GotServers(lo, hi) => BatchNumbered(p, front, lo, hi);
        case _ => OtherNumbered(p, front, m);
      }
    }
  }

  /**
    In every run, cancelled or not, the k-th endone line prints k out of the number of links, with
    k never above it; each line is about another link. The total is what was announced so far.
  */
  lemma ProgressNumbers(p: Params, evs: seq<Event>)
    requires p.Valid()
    ensures
      var msgs := After(p, evs).msgs;
      var g := Watch(msgs);
      var lines := EndedLines(g.out);
      && g.total == Announced(msgs) && g.done == |lines| <= p.N()
      && (forall k :: 0 <= k < |lines| ==> lines[k].done == k + 1 <= p.N() && lines[k].total == p.N() && lines[k].id < p.N())
      && (forall a, b :: 0 <= a < b < |lines| ==> lines[a].id != lines[b].id)
  {
    AlwaysInTune(p, evs);
    DisciplinedNumbered(p, After(p, evs).msgs);
    CountBound(After(p, evs).pcs, ENDED);
    hide After, Watch, EndedLines, Announced, Disciplined;
  }
}
