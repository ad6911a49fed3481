/** All that the command line prints about a run, told from the message stream alone. */
module PrintedLines {
  import opened Options
  import opened Counting
  import opened Protocol
  import opened ProtocolSafety
  import opened ProtocolMessages
  import opened ProtocolStreams
  import opened CmdProgress
  import opened Verdicts

  /**
    What a message prints, of a run over n links: a live line for a speed, with the number of links that
    have ended, and a last line for the end of a link, with the number of this end and the verdict.
  */
  function Printed(n: nat, before: seq<Message>, m: Message): seq<Line> {
    match m
    case GotSpeed(id, _, _) => [Live(Count(before, IS_END), n, id, false)]
    case GotUpload(id, _, _) => [Live(Count(before, IS_END), n, id, true)]
    case EndOne(id) => [Ended(Count(before, IS_END) + 1, n, id, Deserved(before, id))]
    case _ => []
  }

  function AllPrinted(n: nat, msgs: seq<Message>): seq<Line> {
    if msgs == [] then []
    else AllPrinted(n, msgs[..|msgs| - 1]) + Printed(n, msgs[..|msgs| - 1], msgs[|msgs| - 1])
  }

  /** What one message adds to what is printed, if the link it is about is known. */
  lemma OnePrinted(g: Progress, m: Message)
    requires m.FromWorker() ==> m.id in g.nodes
    ensures
      Observe(g, m).out == g.out +
        match m
        case GotSpeed(id, _, _) => [Live(g.done, g.total, id, false)]
        case GotUpload(id, _, _) => [Live(g.done, g.total, id, true)]
        case EndOne(id) => [Ended(g.done + 1, g.total, id, Ok(g.nodes[id]))]
        case _ => []
  {
    if m.GotServers? {
      QuietBatch(g, m.lo, m.hi);
    }
    assert g.out + [] == g.out;
  }

  lemma PrintedKnown(p: Params, msgs: seq<Message>, m: Message)
    requires Disciplined(p, msgs) && MayFollow(p, msgs, m)
    ensures Watch(msgs + [m]).out == Watch(msgs).out + Printed(p.N(), msgs, m)
  {
    DisciplinedNumbered(p, msgs);
    AlwaysKept(p, msgs);
    WatchAppend(msgs, m);
    hide Watch, Disciplined, Observe, EndedLines, Announced, Count, About, Tell, LastPing, LastAvg;
    OnePrinted(Watch(msgs), m);
    if m.EndOne? {
      TellIsLast(msgs, m.id);
    }
  }

  lemma {:induction false} DisciplinedPrinted(p: Params, msgs: seq<Message>)
    requires Disciplined(p, msgs)
    ensures Watch(msgs).out == AllPrinted(p.N(), msgs)
  {
    if msgs != [] {
      var front, m := msgs[..|msgs| - 1], msgs[|msgs| - 1];
      assert msgs == front + [m];
      DisciplinedPrinted(p, front);
      hide Watch, Printed;
      PrintedKnown(p, front, m);
    }
  }

  /** In every run, cancelled or not, what is printed is exactly that, line by line and in that order. */
  lemma OutputExactly(p: Params, evs: seq<Event>)
    requires p.Valid()
    ensures Watch(After(p, evs).msgs).out == AllPrinted(p.N(), After(p, evs).msgs)
  {
    AlwaysInTune(p, evs);
    hide After, Watch, AllPrinted;
    DisciplinedPrinted(p, After(p, evs).msgs);
  }
}
