/** What the browser shows of a message stream, told from the stream alone: for any messages in any order. */
module DialLaws {
  import opened Options
  import opened Counting
  import opened Protocol
  import opened ProtocolMessages
  import opened TestStore

  /** The latest message that bears on whether and how a link is shown. */
  function Latest(msgs: seq<Message>, i: nat): Option<Message> {
    if msgs == [] then None
    else
      var m := msgs[|msgs| - 1];
      if m.Eof? || (m.From(i) && !m.GotPing?) then Some(m) else Latest(msgs[..|msgs| - 1], i)
  }

  /** A link is under test as this message about it says. */
  ghost predicate Announces(m: Message, phase: Phase, bps: nat) {
    match m
    case StartPing(_) => phase == PingPhase && bps == 0
    case StartSpeed(_) => phase == DownPhase && bps == 0
    case GotSpeed(_, _, traffic) => phase == DownPhase && bps == traffic
    case StartUpload(_) => phase == UpPhase && bps == 0
    case GotUpload(_, _, traffic) => phase == UpPhase && bps == traffic
    case _ => false
  }

  lemma LatestSnoc(msgs: seq<Message>, m: Message, i: nat)
    ensures Latest(msgs + [m], i) == if m.Eof? || (m.From(i) && !m.GotPing?) then Some(m) else Latest(msgs, i)
  {
    assert (msgs + [m])[..|msgs|] == msgs;
  }

  /**
    A link is live exactly if the latest of its messages, gotping aside, and of the eofs is one that
    starts or reports a phase of it; then it is shown in that phase, with the bytes of that message.
  */
  lemma {:induction false} LiveExactly(msgs: seq<Message>, i: nat)
    ensures
      var live, m := Show(msgs).live, Latest(msgs, i);
      && (i in live <==> m.Some? && !m.value.Eof? && !m.value.EndOne?)
      && (i in live ==> live[i].id == i && m.value.From(i) && Announces(m.value, live[i].phase, live[i].bps))
  {
    if msgs != [] {
      var front, m := msgs[..|msgs| - 1], msgs[|msgs| - 1];
      assert msgs == front + [m];
      LiveExactly(front, i);
      LatestSnoc(front, m, i);
      ShowAppend(front, m);
      hide Show, Latest, SlotFor;
    }
  }

  /** A link keeps its dial while it is live, and comes in at the least one that no other live link holds. */
  lemma DialKept(msgs: seq<Message>, m: Message, i: nat)
    requires i in Show(msgs + [m]).live
    ensures
      var live, live' := Show(msgs).live, Show(msgs + [m]).live;
      if i in live then live'[i].slot == live[i].slot else Newcomer(live, live'[i].slot)
  {
    ShowAppend(msgs, m);
    FreeIsNewcomer(Show(msgs).live);
    hide Show, Newcomer, FreeFrom;
  }

  const PINGED: Message -> bool := (m: Message) => m.GotPing?
  const ANSWERED: Message -> bool := (m: Message) => m.GotPing? && m.ping > 0

  /** The counters show how many pings were reported and how many took some time; loading lasts until eof. */
  lemma {:induction false} CountersExactly(msgs: seq<Message>)
    ensures Show(msgs).tests == Count(msgs, PINGED)
    ensures Show(msgs).oks == Count(msgs, ANSWERED)
    ensures Show(msgs).loading <==> Eof !in msgs
  {
    if msgs != [] {
      var front, m := msgs[..|msgs| - 1], msgs[|msgs| - 1];
      assert msgs == front + [m];
      CountersExactly(front);
      CountSnoc(front, m, PINGED);
      CountSnoc(front, m, ANSWERED);
      ShowAppend(front, m);
      hide Show, Count, Upsert;
    }
  }
}
