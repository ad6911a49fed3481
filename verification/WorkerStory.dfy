/**
  The test of one link told in one go, as testOne runs from its top to its bottom: what it asks of the
  outside, what it reports, and which node it sends. Under every interleaving with the other workers
  and the main loop, a collected link has been through such a test, step by step.
*/
module WorkerStory {
  import opened Options
  import opened Counting
  import opened Protocol
  import opened ProtocolSafety
  import opened ProtocolMessages
  import opened ProtocolDeterminism
  import opened ProtocolStreams

  /** The samples of a speed phase, bytes and average, and whether it ended without a speed. */
  datatype Phase = Phase(samples: seq<(nat, int)>, failed: bool)

  /** What a link met: the time and the error of its ping, its download, its upload. */
  datatype Test = Test(ping: Option<(int, bool)>, down: Option<Phase>, up: Option<Phase>)

  // ------------------------------------------------- the decisions of testOne

  /** pingLink reports that there will be no speed. */
  predicate ReportsNoSpeed(p: Params, i: nat, elapse: int)
    requires i < |p.direct|
  {
    if elapse < 1 then !p.direct[i] || p.mode.PingOnly? else p.mode.PingOnly?
  }

  /** pingLink returns no error, so testOne goes on to the download. */
  predicate GoesOn(p: Params, i: nat, elapse: int, err: bool)
    requires i < |p.direct|
  {
    if elapse < 1 && p.direct[i] && !p.mode.PingOnly? then true
    else if elapse >= 1 && p.mode.PingOnly? then false
    else !err
  }

  /** There is a ping but in speed-only mode, a download unless the ping forbids it, an upload if asked for in time. */
  predicate Fits(p: Params, i: nat, t: Test, cancelled: bool)
    requires i < |p.direct|
  {
    && (t.ping.Some? <==> !p.mode.SpeedOnly?)
    && (t.down.Some? <==> t.ping.None? || GoesOn(p, i, t.ping.value.0, t.ping.value.1))
    && (t.up.Some? <==> t.down.Some? && p.upload && !cancelled)
  }

  // ------------------------------------------------- what is asked and what is told

  datatype Talk = Talk(asked: seq<Choice>, told: seq<Message>)

  function Then(a: Talk, c: Choice, told: seq<Message>): Talk {
    Talk(a.asked + [c], a.told + told)
  }

  function PingTalk(p: Params, i: nat, ping: Option<(int, bool)>): Talk
    requires i < |p.direct|
  {
    var a := Then(Talk([], []), Go, []);
    if ping.None? then a
    else
      var (elapse, err) := ping.value;
      var b := Then(Then(a, Go, [StartPing(i)]), Answer(elapse, err), [GotPing(i, elapse)]);
      if ReportsNoSpeed(p, i, elapse) then Then(b, Go, [GotSpeed(i, 0, 0)]) else b
  }

  function Speed(i: nat, up: bool, avg: int, bytes: nat): Message {
    if up then GotUpload(i, avg, bytes) else GotSpeed(i, avg, bytes)
  }

  function Samples(a: Talk, i: nat, up: bool, samples: seq<(nat, int)>): Talk {
    if samples == [] then a
    else
      var (bytes, avg) := samples[|samples| - 1];
      Then(Samples(a, i, up, samples[..|samples| - 1]), Sample(bytes, avg), [Speed(i, up, avg, bytes)])
  }

  function PhaseTalk(a: Talk, i: nat, up: bool, phase: Phase): Talk {
    Then(Samples(a, i, up, phase.samples), Finish(phase.failed), if phase.failed then [Speed(i, up, 0, 0)] else [])
  }

  function DownTalk(p: Params, i: nat, t: Test): Talk
    requires i < |p.direct| && t.down.Some?
  {
    PhaseTalk(Then(PingTalk(p, i, t.ping), Go, [StartSpeed(i)]), i, false, t.down.value)
  }

  function Conversation(p: Params, i: nat, t: Test): Talk
    requires i < |p.direct|
  {
    if t.down.None? then PingTalk(p, i, t.ping)
    else if t.up.None? then Then(DownTalk(p, i, t), Go, [])
    else PhaseTalk(Then(DownTalk(p, i, t), Go, [StartUpload(i)]), i, true, t.up.value)
  }

  function Bytes(samples: seq<(nat, int)>): nat {
    if samples == [] then 0 else Bytes(samples[..|samples| - 1]) + samples[|samples| - 1].0
  }

  /** The node that testOne sends: a success after a download, or after a ping that took some time. */
  function NodeOf(i: nat, t: Test): Node {
    if t.down.Some? then Node(i, true, Bytes(t.down.value.samples))
    else Node(i, t.ping.Some? && t.ping.value.0 > 0, 0)
  }

  // ------------------------------------------------- how far a worker is in its test

  function Asked(log: seq<(Choice, bool)>): (cs: seq<Choice>)
    ensures |cs| == |log| && forall k :: 0 <= k < |log| ==> cs[k] == log[k].0
  {
    if log == [] then [] else Asked(log[..|log| - 1]) + [log[|log| - 1].0]
  }

  /** Whether the run was cancelled when the download was over. */
  predicate CancelledThen(p: Params, i: nat, t: Test, log: seq<(Choice, bool)>)
    requires i < |p.direct|
  {
    t.down.Some? && var n := |DownTalk(p, i, t).asked|; n < |log| && log[n].1
  }

  /** The talk so far of a worker at this place of its code, if its test is going to be t as far as it has come. */
  ghost predicate Stage(p: Params, i: nat, t: Test, pc: Pc, down: nat, log: seq<(Choice, bool)>, told: seq<Message>)
    requires i < p.N() == |p.direct|
  {
    var talk := Talk(Asked(log), told);
    var pinged := t.ping.Some? <==> !p.mode.SpeedOnly?;
    var goes := t.ping.None? || GoesOn(p, i, t.ping.value.0, t.ping.value.1);
    match pc
    case Parsing => talk == Talk([], [])
    case Returning => !p.parses[i] && talk == Talk([Go], [])
    case PingStart => !p.mode.SpeedOnly? && talk == Then(Talk([], []), Go, [])
    case Pinging => !p.mode.SpeedOnly? && talk == Then(Then(Talk([], []), Go, []), Go, [StartPing(i)])
    case NoSpeed(elapse, failed) =>
      && pinged && t.ping.Some? && ReportsNoSpeed(p, i, t.ping.value.0) && failed == !goes
      && (elapse > 0 <==> t.ping.value.0 > 0)
      && t.down.None? && t.up.None?
      && Then(talk, Go, [GotSpeed(i, 0, 0)]) == PingTalk(p, i, t.ping)
    case SpeedStart => pinged && goes && down == 0 && talk == PingTalk(p, i, t.ping)
    case Speed =>
      && pinged && goes && t.down.Some? && down == Bytes(t.down.value.samples)
      && talk == Samples(Then(PingTalk(p, i, t.ping), Go, [StartSpeed(i)]), i, false, t.down.value.samples)
    case SpeedDone =>
      && pinged && goes && t.down.Some? && down == Bytes(t.down.value.samples) && talk == DownTalk(p, i, t)
    case Upload =>
      && pinged && goes && t.down.Some? && down == Bytes(t.down.value.samples)
      && t.up.Some? && p.upload && !CancelledThen(p, i, t, log) && |DownTalk(p, i, t).asked| < |log|
      && talk == Samples(Then(DownTalk(p, i, t), Go, [StartUpload(i)]), i, true, t.up.value.samples)
    case Sending(node) =>
      Fits(p, i, t, CancelledThen(p, i, t, log)) && talk == Conversation(p, i, t) && node == NodeOf(i, t)
    case _ => false
  }

  lemma AskedSnoc(log: seq<(Choice, bool)>, ch: Choice, c: bool)
    ensures Asked(log + [(ch, c)]) == Asked(log) + [ch]
  {
    assert (log + [(ch, c)])[..|log|] == log;
  }

  ghost predicate StageAfter(p: Params, i: nat, t: Test, eff: Effect, down: nat, log: seq<(Choice, bool)>,
                             ch: Choice, c: bool, told: seq<Message>)
    requires i < p.N() == |p.direct|
  {
    Stage(p, i, t, eff.next, down + eff.bytes, log + [(ch, c)], told + Optional(eff.msg))
  }

  const NONE := Test(None, None, None)

  lemma EarlyStep(p: Params, i: nat, t: Test, pc: Pc, down: nat, log: seq<(Choice, bool)>, told: seq<Message>,
                  ch: Choice, c: bool) returns (t': Test)
    requires i < p.N() == |p.direct| && Stage(p, i, t, pc, down, log, told) && Local(p, i, c, down, pc, ch).Some?
    requires (pc.Parsing? || pc.PingStart? || pc.NoSpeed?) && down == 0
    ensures StageAfter(p, i, t', Local(p, i, c, down, pc, ch).value, down, log, ch, c, told)
  {
    AskedSnoc(log, ch, c);
    hide Asked;
    t' := if pc.NoSpeed? then t else NONE;
    assert told + [] == told;
  }

  /** The ping comes back, and pingLink decides. */
  lemma AnswerStep(p: Params, i: nat, t: Test, down: nat, log: seq<(Choice, bool)>, told: seq<Message>,
                   ch: Choice, c: bool) returns (t': Test)
    requires i < p.N() == |p.direct| && Stage(p, i, t, Pinging, down, log, told)
    requires Local(p, i, c, down, Pinging, ch).Some? && down == 0
    ensures StageAfter(p, i, t', Local(p, i, c, down, Pinging, ch).value, down, log, ch, c, told)
  {
    AskedSnoc(log, ch, c);
    hide Asked;
    t' := Test(Some((ch.elapse, ch.err)), None, None);
  }

  lemma FirstDown(p: Params, i: nat, t: Test, down: nat, log: seq<(Choice, bool)>, told: seq<Message>,
                  ch: Choice, c: bool) returns (t': Test)
    requires i < p.N() == |p.direct| && Stage(p, i, t, SpeedStart, down, log, told)
    requires Local(p, i, c, down, SpeedStart, ch).Some?
    ensures StageAfter(p, i, t', Local(p, i, c, down, SpeedStart, ch).value, down, log, ch, c, told)
  {
    AskedSnoc(log, ch, c);
    hide PingTalk, GoesOn, Asked;
    t' := Test(t.ping, Some(Phase([], false)), None);
  }

  lemma MoreSamples(a: Talk, i: nat, up: bool, samples: seq<(nat, int)>, bytes: nat, avg: int)
    ensures Samples(a, i, up, samples + [(bytes, avg)])
         == Then(Samples(a, i, up, samples), Sample(bytes, avg), [Speed(i, up, avg, bytes)])
    ensures Bytes(samples + [(bytes, avg)]) == Bytes(samples) + bytes
  {
    assert (samples + [(bytes, avg)])[..|samples|] == samples;
  }

  lemma DownStep(p: Params, i: nat, t: Test, down: nat, log: seq<(Choice, bool)>, told: seq<Message>,
                 ch: Choice, c: bool) returns (t': Test)
    requires i < p.N() == |p.direct| && Stage(p, i, t, Pc.Speed, down, log, told)
    requires Local(p, i, c, down, Pc.Speed, ch).Some?
    ensures StageAfter(p, i, t', Local(p, i, c, down, Pc.Speed, ch).value, down, log, ch, c, told)
  {
    AskedSnoc(log, ch, c);
    hide PingTalk, GoesOn, Asked, Samples, Bytes;
    var samples := t.down.value.samples;
    if ch.Sample? {
      MoreSamples(Then(PingTalk(p, i, t.ping), Go, [StartSpeed(i)]), i, false, samples, ch.bytes, ch.avg);
      t' := t.(down := Some(Phase(samples + [(ch.bytes, ch.avg)], false)));
    } else {
      t' := t.(down := Some(Phase(samples, ch.failed)));
    }
  }

  lemma UpStart(p: Params, i: nat, t: Test, down: nat, log: seq<(Choice, bool)>, told: seq<Message>,
                ch: Choice, c: bool) returns (t': Test)
    requires i < p.N() == |p.direct| && Stage(p, i, t, SpeedDone, down, log, told)
    requires Local(p, i, c, down, SpeedDone, ch).Some?
    ensures StageAfter(p, i, t', Local(p, i, c, down, SpeedDone, ch).value, down, log, ch, c, told)
  {
    AskedSnoc(log, ch, c);
    hide PingTalk, GoesOn, Asked, Bytes, PhaseTalk;
    t' := t.(up := if p.upload && !c then Some(Phase([], false)) else None);
    assert DownTalk(p, i, t') == DownTalk(p, i, t);
    assert |DownTalk(p, i, t).asked| == |log| && (log + [(ch, c)])[|log|].1 == c;
  }

  lemma UpStep(p: Params, i: nat, t: Test, down: nat, log: seq<(Choice, bool)>, told: seq<Message>,
               ch: Choice, c: bool) returns (t': Test)
    requires i < p.N() == |p.direct| && Stage(p, i, t, Upload, down, log, told)
    requires Local(p, i, c, down, Upload, ch).Some?
    ensures StageAfter(p, i, t', Local(p, i, c, down, Upload, ch).value, down, log, ch, c, told)
  {
    AskedSnoc(log, ch, c);
    hide PingTalk, GoesOn, Asked, Samples, Bytes;
    var samples := t.up.value.samples;
    if ch.Sample? {
      MoreSamples(Then(DownTalk(p, i, t), Go, [StartUpload(i)]), i, true, samples, ch.bytes, ch.avg);
      t' := t.(up := Some(Phase(samples + [(ch.bytes, ch.avg)], false)));
    } else {
      t' := t.(up := Some(Phase(samples, ch.failed)));
    }
    assert DownTalk(p, i, t') == DownTalk(p, i, t);
    hide DownTalk;
    var n := |DownTalk(p, i, t).asked|;
    assert (log + [(ch, c)])[n] == log[n];
  }

  lemma OneStep(p: Params, i: nat, t: Test, pc: Pc, down: nat, log: seq<(Choice, bool)>, told: seq<Message>,
                ch: Choice, c: bool) returns (t': Test)
    requires i < p.N() == |p.direct| && Stage(p, i, t, pc, down, log, told) && Local(p, i, c, down, pc, ch).Some?
    requires !pc.Sampled() ==> down == 0
    ensures StageAfter(p, i, t', Local(p, i, c, down, pc, ch).value, down, log, ch, c, told)
  {
    StageKnown(p, i, t, pc, down, log, told, ch, c);
    hide Stage, StageAfter, Local;
    match pc
    case SpeedStart => t' := FirstDown(p, i, t, down, log, told, ch, c);
    case Speed => t' := DownStep(p, i, t, down, log, told, ch, c);
    case SpeedDone => t' := UpStart(p, i, t, down, log, told, ch, c);
    case Upload => t' := UpStep(p, i, t, down, log, told, ch, c);
    case Pinging => t' := AnswerStep(p, i, t, down, log, told, ch, c);
    case _ => t' := EarlyStep(p, i, t, pc, down, log, told, ch, c);
  }

  /** Every step that was logged could be taken. */
  ghost predicate Effective(p: Params, i: nat, log: seq<(Choice, bool)>)
    requires p.Valid() && i < p.N()
  {
    log == [] ||
    (var front := log[..|log| - 1];
     var (ch, c) := log[|log| - 1];
     var (pc, down) := Replay(p, i, front);
     Effective(p, i, front) && Local(p, i, c, down, pc, ch).Some?)
  }

  lemma {:induction false} LogsAreEffective(p: Params, evs: seq<Event>, i: nat)
    requires p.Valid() && i < p.N()
    ensures Effective(p, i, Log(p, evs, i))
  {
    if evs != [] {
      var before, e := evs[..|evs| - 1], evs[|evs| - 1];
      var s, log := After(p, before), Log(p, before, i);
      LogsAreEffective(p, before, i);
      AlwaysFollows(p, before, i);
      hide Local, After, Replay;
      if Logged(p, s, e, i) {
        var log' := log + [(e.ch, s.cancelled)];
        assert log'[..|log|] == log;
        NoStepReturning(p, i, s.cancelled, s.down[i], s.pcs[i], e.ch);
      } else {
        assert log + [] == log;
      }
    }
  }

  lemma NoStepReturning(p: Params, i: nat, c: bool, down: nat, pc: Pc, ch: Choice)
    requires i < p.N() == |p.direct|
    ensures pc.Returning? ==> Local(p, i, c, down, pc, ch).None?
  {
  }

  lemma EffectiveParts(p: Params, i: nat, log: seq<(Choice, bool)>)
    requires p.Valid() && i < p.N() && Effective(p, i, log) && log != []
    ensures
      var front := log[..|log| - 1];
      var (ch, c) := log[|log| - 1];
      var (pc, down) := Replay(p, i, front);
      log == front + [(ch, c)] && Effective(p, i, front) && Local(p, i, c, down, pc, ch).Some?
  {
    hide Local, Replay;
    var last := log[|log| - 1];
    assert log == log[..|log| - 1] + [last] && last == (last.0, last.1);
  }

  lemma NothingMet(p: Params, i: nat, log: seq<(Choice, bool)>)
    requires p.Valid() && i < p.N() && log == []
    ensures Stage(p, i, NONE, Replay(p, i, log).0, Replay(p, i, log).1, log, Emitted(p, i, log))
  {
    assert Asked(log) == [] && Emitted(p, i, log) == [];
  }

  /** Following a log through the code is following a test. */
  lemma {:induction false} TestFollowed(p: Params, i: nat, log: seq<(Choice, bool)>) returns (t: Test)
    requires p.Valid() && i < p.N() && Effective(p, i, log)
    ensures Stage(p, i, t, Replay(p, i, log).0, Replay(p, i, log).1, log, Emitted(p, i, log))
  {
    hide Replay, Emitted, Stage, Local, Effective;
    if log == [] {
      t := NONE;
      NothingMet(p, i, log);
    } else {
      var front := log[..|log| - 1];
      var (ch, c) := log[|log| - 1];
      var (pc, down) := Replay(p, i, front);
      EffectiveParts(p, i, log);
      var before := TestFollowed(p, i, front);
      NothingYet(p, i, front);
      ReplayAppend(p, i, front, ch, c);
      EmittedSnoc(p, i, front, ch, c);
      t := OneStep(p, i, before, pc, down, front, Emitted(p, i, front), ch, c);
    }
  }

  lemma NothingYet(p: Params, i: nat, log: seq<(Choice, bool)>)
    requires p.Valid() && i < p.N()
    ensures !Replay(p, i, log).0.Sampled() ==> Replay(p, i, log).1 == 0
  {
    if log != [] {
      var front := log[..|log| - 1];
      var (ch, c) := log[|log| - 1];
      NothingYet(p, i, front);
    }
  }

  lemma StageKnown(p: Params, i: nat, t: Test, pc: Pc, down: nat, log: seq<(Choice, bool)>, told: seq<Message>,
                   ch: Choice, c: bool)
    requires i < p.N() == |p.direct| && Stage(p, i, t, pc, down, log, told) && Local(p, i, c, down, pc, ch).Some?
    ensures
      || pc.Parsing? || pc.PingStart? || pc.Pinging? || pc.NoSpeed?
      || pc.SpeedStart? || pc.Speed? || pc.SpeedDone? || pc.Upload?
  {
  }

  /**
    In every run, cancelled or not, a collected link has been through one test: its worker asked for
    exactly what that test asks for, the stream says about the link exactly what that test reports, and
    the node is the one that test ends in.
  */
  lemma TestOfLink(p: Params, evs: seq<Event>, i: nat) returns (t: Test)
    requires p.Valid() && i < p.N() && After(p, evs).nodes[i].Some?
    ensures Fits(p, i, t, CancelledThen(p, i, t, Log(p, evs, i)))
    ensures Asked(Log(p, evs, i)) == Conversation(p, i, t).asked
    ensures About(After(p, evs).msgs, i) == Conversation(p, i, t).told + Last(After(p, evs).pcs[i], i)
    ensures After(p, evs).nodes[i].value == NodeOf(i, t)
  {
    var log := Log(p, evs, i);
    LogsAreEffective(p, evs, i);
    AlwaysFollows(p, evs, i);
    LinkStream(p, evs, i);
    t := TestFollowed(p, i, log);
    hide After, Log, Replay, Emitted, About, Effective, Conversation, Asked;
  }

  /**
    A worker that has its ping result goes on to the speed phase, or sends its node. A ping of less
    than 1 ms does not end the test when it comes without an error, not even in ping-only mode.
  */
  lemma PingDecides(p: Params, i: nat, log: seq<(Choice, bool)>, elapse: int, err: bool, c: bool, c': bool)
    requires p.Valid() && i < p.N() && Replay(p, i, log).0 == Pinging
    ensures
      var answered := log + [(Answer(elapse, err), c)];
      var (judged, _) := Replay(p, i, answered);
      var (next, _) := if judged.NoSpeed? then Replay(p, i, answered + [(Go, c')]) else Replay(p, i, answered);
      (next.SpeedStart? || next.Sending?) && (next.SpeedStart? <==> GoesOn(p, i, elapse, err))
  {
    ReplayAppend(p, i, log, Answer(elapse, err), c);
    ReplayAppend(p, i, log + [(Answer(elapse, err), c)], Go, c');
    hide Replay;
  }

  // ------------------------------------------------- read off the stream

  const IS_PING: Message -> bool := (m: Message) => m.GotPing?

  /** The messages that a test reports besides its samples. */
  ghost predicate Shows(i: nat, t: Test, told: seq<Message>) {
    && (StartPing(i) in told <==> t.ping.Some?)
    && (forall m :: m in told && m.GotPing? ==> t.ping.Some? && m == GotPing(i, t.ping.value.0))
    && Count(told, IS_PING) == Bit(t.ping.Some?)
    && (StartSpeed(i) in told <==> t.down.Some?)
    && (StartUpload(i) in told <==> t.up.Some?)
  }

  predicate Marks(m: Message) {
    m.StartPing? || m.GotPing? || m.StartSpeed? || m.StartUpload?
  }

  lemma OtherMessages(i: nat, t: Test, told: seq<Message>, more: seq<Message>)
    requires Shows(i, t, told) && forall m :: m in more ==> !Marks(m)
    ensures Shows(i, t, told + more)
  {
    CountAppend(told, more, IS_PING);
    CountBound(more, IS_PING);
    forall k | 0 <= k < |more|
      ensures !IS_PING(more[k])
    {
      assert more[k] in more && !Marks(more[k]);
    }
    hide Count;
  }

  lemma {:induction false} SamplesShow(i: nat, t: Test, a: Talk, up: bool, phase: Phase)
    requires Shows(i, t, a.told)
    ensures Shows(i, t, PhaseTalk(a, i, up, phase).told)
  {
    var closing := if phase.failed then [Speed(i, up, 0, 0)] else [];
    SamplesShown(i, t, a, up, phase.samples);
    OtherMessages(i, t, Samples(a, i, up, phase.samples).told, closing);
  }

  lemma {:induction false} SamplesShown(i: nat, t: Test, a: Talk, up: bool, samples: seq<(nat, int)>)
    requires Shows(i, t, a.told)
    ensures Shows(i, t, Samples(a, i, up, samples).told)
  {
    if samples != [] {
      hide Shows;
      var (bytes, avg) := samples[|samples| - 1];
      SamplesShown(i, t, a, up, samples[..|samples| - 1]);
      OtherMessages(i, t, Samples(a, i, up, samples[..|samples| - 1]).told, [Speed(i, up, avg, bytes)]);
    }
  }

  lemma PingShows(p: Params, i: nat, ping: Option<(int, bool)>)
    requires i < |p.direct|
    ensures Shows(i, Test(ping, None, None), PingTalk(p, i, ping).told)
  {
    hide Count;
    CountBound<Message>([], IS_PING);
    if ping.Some? {
      var elapse := ping.value.0;
      var told := [] + [] + [StartPing(i)] + [GotPing(i, elapse)];
      assert told == [StartPing(i), GotPing(i, elapse)];
      CountSnoc([], StartPing(i), IS_PING);
      CountSnoc([StartPing(i)], GotPing(i, elapse), IS_PING);
      assert Shows(i, Test(ping, None, None), told) by {
        assert [] + [StartPing(i)] == [StartPing(i)] && [StartPing(i)] + [GotPing(i, elapse)] == told;
      }
      OtherMessages(i, Test(ping, None, None), told, [GotSpeed(i, 0, 0)]);
    }
  }

  lemma ShowsMore(i: nat, t: Test, t': Test, told: seq<Message>, m: Message)
    requires Shows(i, t, told) && t'.ping == t.ping
    requires
      || (m == StartSpeed(i) && t'.down.Some? && t'.up == t.up)
      || (m == StartUpload(i) && t'.up.Some? && t'.down == t.down)
    ensures Shows(i, t', told + [m])
  {
    CountSnoc(told, m, IS_PING);
  }

  lemma ConversationShows(p: Params, i: nat, t: Test)
    requires i < |p.direct| && (t.up.Some? ==> t.down.Some?)
    ensures Shows(i, t, Conversation(p, i, t).told)
  {
    hide PingTalk, PhaseTalk;
    var a := PingTalk(p, i, t.ping);
    PingShows(p, i, t.ping);
    if t.down.Some? {
      var t1 := Test(t.ping, t.down, None);
      var b := Then(a, Go, [StartSpeed(i)]);
      ShowsMore(i, Test(t.ping, None, None), t1, a.told, StartSpeed(i));
      SamplesShow(i, t1, b, false, t.down.value);
      if t.up.Some? {
        var c := Then(DownTalk(p, i, t), Go, [StartUpload(i)]);
        ShowsMore(i, t1, t, DownTalk(p, i, t).told, StartUpload(i));
        SamplesShow(i, t, c, true, t.up.value);
      } else {
        assert DownTalk(p, i, t).told + [] == DownTalk(p, i, t).told;
      }
    }
  }

  /**
    So the stream about a collected link has startping and one gotping, with the time that came back,
    unless the mode is speed-only; startspeed exactly if the mode or the ping lets the worker go on;
    and startupload exactly if there was a download, uploads are on and the run was not cancelled when
    the download was over.
  */
  lemma LinkShows(p: Params, evs: seq<Event>, i: nat) returns (t: Test)
    requires p.Valid() && i < p.N() && After(p, evs).nodes[i].Some?
    ensures
      var log, ms := Log(p, evs, i), About(After(p, evs).msgs, i);
      && (StartPing(i) in ms <==> !p.mode.SpeedOnly?)
      && Count(ms, IS_PING) == Bit(!p.mode.SpeedOnly?)
      && (!p.mode.SpeedOnly? ==>
            && t.ping.Some? && GotPing(i, t.ping.value.0) in ms
            && |log| > 2 && log[2].0 == Answer(t.ping.value.0, t.ping.value.1))
      && (StartSpeed(i) in ms <==> p.mode.SpeedOnly? || (t.ping.Some? && GoesOn(p, i, t.ping.value.0, t.ping.value.1)))
      && (StartUpload(i) in ms <==> StartSpeed(i) in ms && p.upload && !CancelledThen(p, i, t, log))
  {
    t := TestOfLink(p, evs, i);
    var log, told := Log(p, evs, i), Conversation(p, i, t).told;
    ConversationShows(p, i, t);
    OtherMessages(i, t, told, Last(After(p, evs).pcs[i], i));
    hide After, Log, About;
    if t.ping.Some? {
      AskedFirst(p, i, t);
      assert Asked(log)[2] == log[2].0;
      assert StartPing(i) in told;
    }
    hide Conversation, Asked;
  }

  ghost predicate Continues(a: Talk, b: Talk) {
    a.asked <= b.asked && a.told <= b.told
  }

  lemma {:induction false} PhaseContinues(a: Talk, i: nat, up: bool, phase: Phase)
    ensures Continues(a, PhaseTalk(a, i, up, phase))
  {
    SamplesContinue(a, i, up, phase.samples);
    hide Samples;
  }

  lemma {:induction false} SamplesContinue(a: Talk, i: nat, up: bool, samples: seq<(nat, int)>)
    ensures Continues(a, Samples(a, i, up, samples))
  {
    if samples != [] {
      SamplesContinue(a, i, up, samples[..|samples| - 1]);
    }
  }

  lemma PingContinues(p: Params, i: nat, t: Test)
    requires i < |p.direct|
    ensures Continues(PingTalk(p, i, t.ping), Conversation(p, i, t))
  {
    hide PingTalk, PhaseTalk;
    if t.down.Some? {
      PhaseContinues(Then(PingTalk(p, i, t.ping), Go, [StartSpeed(i)]), i, false, t.down.value);
      if t.up.Some? {
        PhaseContinues(Then(DownTalk(p, i, t), Go, [StartUpload(i)]), i, true, t.up.value);
      }
    }
  }

  lemma AskedFirst(p: Params, i: nat, t: Test)
    requires i < |p.direct| && t.ping.Some?
    ensures
      var a := Conversation(p, i, t);
      && |a.asked| > 2 && a.asked[2] == Answer(t.ping.value.0, t.ping.value.1)
      && GotPing(i, t.ping.value.0) in a.told
  {
    PingContinues(p, i, t);
    hide Conversation;
    var a := PingTalk(p, i, t.ping);
    assert a.asked[2] == Answer(t.ping.value.0, t.ping.value.1);
    assert a.told[1] == GotPing(i, t.ping.value.0);
  }
}
