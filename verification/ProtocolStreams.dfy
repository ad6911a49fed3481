/**
  The part of the message stream that is about one link, over every interleaving: what it says is
  decided by the link's own log alone, and it explains the link's node.
*/
module ProtocolStreams {
  import opened Options
  import opened Counting
  import opened Protocol
  import opened ProtocolSafety
  import opened ProtocolMessages
  import opened ProtocolDeterminism

  /** The messages of worker i, in order. */
  function About(msgs: seq<Message>, i: nat): seq<Message> {
    if msgs == [] then []
    else About(msgs[..|msgs| - 1], i) + if msgs[|msgs| - 1].From(i) then [msgs[|msgs| - 1]] else []
  }

  lemma AboutSnoc(msgs: seq<Message>, m: Message, i: nat)
    ensures About(msgs + [m], i) == About(msgs, i) + if m.From(i) then [m] else []
  {
    assert (msgs + [m])[..|msgs|] == msgs;
  }

  lemma AboutOptional(msgs: seq<Message>, m: Option<Message>, i: nat)
    ensures About(msgs + Optional(m), i) == About(msgs, i) + if m.Some? && m.value.From(i) then [m.value] else []
  {
    if m.Some? {
      AboutSnoc(msgs, m.value, i);
    } else {
      assert msgs + [] == msgs && About(msgs, i) + [] == About(msgs, i);
    }
  }

  /** What a worker on its own writes when it is fed with a log. */
  function Emitted(p: Params, i: nat, log: seq<(Choice, bool)>): seq<Message>
    requires p.Valid() && i < p.N()
  {
    if log == [] then []
    else
      var front := log[..|log| - 1];
      var (ch, cancelled) := log[|log| - 1];
      var (pc, down) := Replay(p, i, front);
      var eff := Local(p, i, cancelled, down, pc, ch);
      Emitted(p, i, front) + Optional(if eff.Some? then eff.value.msg else None)
  }

  lemma EmittedSnoc(p: Params, i: nat, log: seq<(Choice, bool)>, ch: Choice, cancelled: bool)
    requires p.Valid() && i < p.N()
    ensures
      var (pc, down) := Replay(p, i, log);
      var eff := Local(p, i, cancelled, down, pc, ch);
      Emitted(p, i, log + [(ch, cancelled)]) == Emitted(p, i, log) + Optional(if eff.Some? then eff.value.msg else None)
  {
    assert (log + [(ch, cancelled)])[..|log|] == log;
  }

  /** The endone message, once it is written. */
  function Last(pc: Pc, i: nat): seq<Message> {
    if ENDED(pc) then [EndOne(i)] else []
  }

  lemma OwnWorkSays(p: Params, s: State, ch: Choice, i: nat, log: seq<(Choice, bool)>)
    requires Shaped(p, s) && p.Valid() && i < p.N() && Follows(p, s, i, log)
    requires Enabled(p, s, Work(i, ch)) && s.pcs[i].Working()
    requires About(s.msgs, i) == Emitted(p, i, log) + Last(s.pcs[i], i)
    ensures
      var s' := Apply(p, s, Work(i, ch));
      About(s'.msgs, i) == Emitted(p, i, log + [(ch, s.cancelled)]) + Last(s'.pcs[i], i)
  {
    hide About, Emitted;
    var eff := Local(p, i, s.cancelled, s.down[i], s.pcs[i], ch).value;
    LocalFacts(p, i, s.cancelled, s.down[i], s.pcs[i], ch);
    EmittedSnoc(p, i, log, ch, s.cancelled);
    AboutOptional(s.msgs, eff.msg, i);
  }

  lemma OtherWorkSays(p: Params, s: State, j: nat, ch: Choice, i: nat)
    requires Shaped(p, s) && p.Valid() && i < p.N()
    requires Enabled(p, s, Work(j, ch)) && (j != i || !s.pcs[i].Working())
    ensures
      var s' := Apply(p, s, Work(j, ch));
      About(s'.msgs, i) == About(s.msgs, i) + if j == i then [EndOne(i)] else []
    ensures
      var s' := Apply(p, s, Work(j, ch));
      if j == i then !ENDED(s.pcs[i]) && ENDED(s'.pcs[i]) else s'.pcs[i] == s.pcs[i]
  {
    hide About;
    var eff := Local(p, j, s.cancelled, s.down[j], s.pcs[j], ch).value;
    LocalFacts(p, j, s.cancelled, s.down[j], s.pcs[j], ch);
    AboutOptional(s.msgs, eff.msg, i);
  }

  lemma SharedSays(p: Params, s: State, e: Event, i: nat)
    requires Shaped(p, s) && p.Valid() && i < p.N() && Spawned(p, s) && !e.Work?
    ensures About(Apply(p, s, e).msgs, i) == About(s.msgs, i)
    ensures ENDED(Apply(p, s, e).pcs[i]) == ENDED(s.pcs[i])
  {
    hide About, Local;
    if Enabled(p, s, e) && Writes(e) {
      AboutSnoc(s.msgs, Written(p, s, e), i);
      assert About(s.msgs, i) + [] == About(s.msgs, i);
    }
  }

  /** The stream about link i is what its log leads to, and its endone once that is written. */
  ghost predicate Says(p: Params, s: State, i: nat, log: seq<(Choice, bool)>)
    requires Shaped(p, s) && p.Valid() && i < p.N()
  {
    About(s.msgs, i) == Emitted(p, i, log) + Last(s.pcs[i], i)
  }

  lemma StepSays(p: Params, s: State, e: Event, i: nat, log: seq<(Choice, bool)>)
    requires Shaped(p, s) && p.Valid() && i < p.N() && Spawned(p, s) && Follows(p, s, i, log) && Says(p, s, i, log)
    ensures Logged(p, s, e, i) ==> Says(p, Apply(p, s, e), i, log + [(e.ch, s.cancelled)])
    ensures !Logged(p, s, e, i) ==> Says(p, Apply(p, s, e), i, log)
  {
    hide About, Emitted, Follows, Local;
    if Logged(p, s, e, i) {
      OwnWorkSays(p, s, e.ch, i, log);
    } else if !e.Work? {
      SharedSays(p, s, e, i);
    } else if Enabled(p, s, e) {
      OtherWorkSays(p, s, e.i, e.ch, i);
    }
  }

  lemma InitSays(p: Params, i: nat)
    requires p.Valid() && i < p.N()
    ensures Says(p, Init(p), i, [])
  {
    assert Init(p).msgs == [];
  }

  /**
    Under every interleaving the messages about a link are those its own log leads to, followed by
    its endone once that is written.
  */
  lemma {:induction false} LinkStream(p: Params, evs: seq<Event>, i: nat)
    requires p.Valid() && i < p.N()
    ensures Says(p, After(p, evs), i, Log(p, evs, i))
  {
    if evs == [] {
      InitSays(p, i);
    } else {
      hide Apply, Enabled, Follows, Says, Channel, Collected, Slots, Workers;
      var before, e := evs[..|evs| - 1], evs[|evs| - 1];
      LinkStream(p, before, i);
      AlwaysFollows(p, before, i);
      AlwaysSafe(p, before);
      StepSays(p, After(p, before), e, i, Log(p, before, i));
      assert Log(p, before, i) + [] == Log(p, before, i);
    }
  }

  // ------------------------------------------------- what the stream says about a node

  /** A ping came back with a positive time, or a download began. */
  ghost predicate Reached(msgs: seq<Message>) {
    exists m :: m in msgs && (m.StartSpeed? || (m.GotPing? && m.ping > 0))
  }

  lemma ReachedSnoc(msgs: seq<Message>, m: Option<Message>)
    ensures Reached(msgs + Optional(m)) <==>
              Reached(msgs) || (m.Some? && (m.value.StartSpeed? || (m.value.GotPing? && m.value.ping > 0)))
  {
  }

  lemma DownSnoc(msgs: seq<Message>, m: Option<Message>)
    ensures Sum(msgs + Optional(m), DOWN) == Sum(msgs, DOWN) + if m.Some? then DOWN(m.value) else 0
  {
    if m.Some? {
      TallyAppend(msgs, m.value);
    } else {
      assert msgs + [] == msgs;
    }
  }

  /** How far a worker has got says whether its link was reached. */
  ghost predicate Telling(pc: Pc, reached: bool) {
    match pc
    case Parsing => !reached
    case PingStart => !reached
    case Pinging => !reached
    case NoSpeed(elapse, _) => reached == (elapse > 0)
    case Speed => reached
    case SpeedDone => reached
    case Upload => reached
    case Sending(node) => reached == node.success
    case _ => true
  }

  lemma TellingStep(p: Params, i: nat, cancelled: bool, down: nat, pc: Pc, ch: Choice, reached: bool)
    requires p.Valid() && i < p.N() && Telling(pc, reached) && Local(p, i, cancelled, down, pc, ch).Some?
    ensures
      var eff := Local(p, i, cancelled, down, pc, ch).value;
      var m := eff.msg;
      Telling(eff.next, reached || (m.Some? && (m.value.StartSpeed? || (m.value.GotPing? && m.value.ping > 0))))
    ensures
      var eff := Local(p, i, cancelled, down, pc, ch).value;
      eff.bytes == if eff.msg.Some? then DOWN(eff.msg.value) else 0
  {
  }

  lemma {:induction false} ReplayTells(p: Params, i: nat, log: seq<(Choice, bool)>)
    requires p.Valid() && i < p.N()
    ensures Telling(Replay(p, i, log).0, Reached(Emitted(p, i, log)))
    ensures Replay(p, i, log).1 == Sum(Emitted(p, i, log), DOWN)
  {
    if log != [] {
      hide Local, Telling, Reached;
      var front := log[..|log| - 1];
      var (ch, cancelled) := log[|log| - 1];
      var (pc, down) := Replay(p, i, front);
      var eff := Local(p, i, cancelled, down, pc, ch);
      ReplayTells(p, i, front);
      var m := if eff.Some? then eff.value.msg else None;
      ReachedSnoc(Emitted(p, i, front), m);
      DownSnoc(Emitted(p, i, front), m);
      if eff.Some? {
        TellingStep(p, i, cancelled, down, pc, ch, Reached(Emitted(p, i, front)));
      }
    } else {
      assert !Reached([]);
    }
  }

  /**
    In every run each collected node is explained by the stream: it counts as a success if and only
    if its link was reached, and its traffic is the sum of the samples reported for its link.
  */
  lemma NodeExplained(p: Params, evs: seq<Event>, i: nat)
    requires p.Valid() && i < p.N() && After(p, evs).nodes[i].Some?
    ensures
      var s := After(p, evs);
      && (s.nodes[i].value.success <==> Reached(About(s.msgs, i)))
      && s.nodes[i].value.traffic == Sum(About(s.msgs, i), DOWN)
  {
    hide After, Log, Replay, Emitted, About, Reached, Sum, Says, DOWN;
    NodeFollows(p, evs, i);
    StreamTells(p, evs, i);
    ReplayTells(p, i, Log(p, evs, i));
  }

  lemma StreamTells(p: Params, evs: seq<Event>, i: nat)
    requires p.Valid() && i < p.N()
    ensures
      var ms, own := About(After(p, evs).msgs, i), Emitted(p, i, Log(p, evs, i));
      Reached(ms) == Reached(own) && Sum(ms, DOWN) == Sum(own, DOWN)
  {
    hide After, Log, Emitted, About, Reached, Sum, Last, DOWN;
    LinkStream(p, evs, i);
    EndoneTellsNothing(Emitted(p, i, Log(p, evs, i)), After(p, evs).pcs[i], i);
  }

  lemma NodeFollows(p: Params, evs: seq<Event>, i: nat)
    requires p.Valid() && i < p.N() && After(p, evs).nodes[i].Some?
    ensures
      var node := After(p, evs).nodes[i].value;
      Replay(p, i, Log(p, evs, i)) == (Sending(node), node.traffic)
  {
    hide Replay, Local;
    AlwaysFollows(p, evs, i);
    NodeTraffic(p, evs, i);
  }

  lemma NodeTraffic(p: Params, evs: seq<Event>, i: nat)
    requires p.Valid() && i < p.N() && After(p, evs).nodes[i].Some?
    ensures After(p, evs).nodes[i].value.traffic == After(p, evs).down[i]
  {
    AlwaysSafe(p, evs);
  }

  lemma EndoneTellsNothing(msgs: seq<Message>, pc: Pc, i: nat)
    ensures Reached(msgs + Last(pc, i)) == Reached(msgs)
    ensures Sum(msgs + Last(pc, i), DOWN) == Sum(msgs, DOWN)
  {
    var m := if ENDED(pc) then Some(EndOne(i)) else None;
    assert Last(pc, i) == Optional(m);
    ReachedSnoc(msgs, m);
    DownSnoc(msgs, m);
  }

  /** Two completed runs in which a worker met the same choices say the same about its link. */
  lemma StreamsIndependent(p: Params, q: Params, evs: seq<Event>, evs': seq<Event>, i: nat)
    requires p.Valid() && q.Valid() && q == p.(concurrency := q.concurrency) && i < p.N()
    requires Log(p, evs, i) == Log(q, evs', i)
    requires ENDED(After(p, evs).pcs[i]) == ENDED(After(q, evs').pcs[i])
    ensures About(After(p, evs).msgs, i) == About(After(q, evs').msgs, i)
  {
    LinkStream(p, evs, i);
    LinkStream(q, evs', i);
    EmittedSame(p, q, i, Log(p, evs, i));
  }

  /** A worker's own steps do not depend on the number of slots. */
  lemma LocalSame(p: Params, q: Params, i: nat, cancelled: bool, down: nat, pc: Pc, ch: Choice)
    requires p.Valid() && q == p.(concurrency := q.concurrency) && i < p.N()
    ensures Local(p, i, cancelled, down, pc, ch) == Local(q, i, cancelled, down, pc, ch)
  {
  }

  lemma {:induction false} EmittedSame(p: Params, q: Params, i: nat, log: seq<(Choice, bool)>)
    requires p.Valid() && q.Valid() && q == p.(concurrency := q.concurrency) && i < p.N()
    ensures Emitted(p, i, log) == Emitted(q, i, log)
  {
    if log != [] {
      hide Local, Replay;
      var front := log[..|log| - 1];
      var (ch, cancelled) := log[|log| - 1];
      var (pc, down) := Replay(p, i, front);
      EmittedSame(p, q, i, front);
      ReplaySame(p, q, i, front);
      LocalSame(p, q, i, cancelled, down, pc, ch);
    }
  }
}
