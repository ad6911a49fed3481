/** The order of the message stream, and what it carries, over every interleaving. */
module ProtocolMessages {
  import opened Options
  import opened Counting
  import opened Protocol
  import opened ProtocolSafety

  const ENDED: Pc -> bool := (pc: Pc) => pc.Releasing? || pc.Finished?
  const IS_END: Message -> bool := (m: Message) => m.EndOne?
  const DOWN: Message -> int := (m: Message) => if m.GotSpeed? then m.traffic else 0
  const UP: Message -> int := (m: Message) => if m.GotUpload? then m.traffic else 0

  /** The link up to which a stream has announced the links. */
  function Announced(msgs: seq<Message>): nat {
    if msgs == [] then 0
    else if msgs[|msgs| - 1].GotServers? then msgs[|msgs| - 1].hi
    else Announced(msgs[..|msgs| - 1])
  }

  /** The messages after which a run may still write `m`. */
  ghost predicate MayFollow(p: Params, earlier: seq<Message>, m: Message) {
    && (m.Started? <==> earlier == [])
    && (m.GotServers? ==> m.lo == Announced(earlier) < p.N() && m.hi == BatchEnd(p.N(), m.lo))
    && (m.Eof? || m.FromWorker() ==> Announced(earlier) == p.N())
    && (m.Eof? ==> Eof !in earlier)
    && (Eof in earlier ==> m.EndOne? || m.IpInfo?)
    && (m.FromWorker() ==> m.id < p.N() && EndOne(m.id) !in earlier)
  }

  /** Each message may follow those before it. */
  ghost predicate Disciplined(p: Params, msgs: seq<Message>) {
    msgs == [] ||
    (Disciplined(p, msgs[..|msgs| - 1]) && MayFollow(p, msgs[..|msgs| - 1], msgs[|msgs| - 1]))
  }

  /** How far the main loop has announced the links. */
  function Reported(p: Params, m: Main): nat {
    match m
    case Opening => 0
    case Announcing(i) => i
    case _ => p.N()
  }

  /** The stream says which phase the run is in. */
  ghost predicate InTune(p: Params, s: State)
    requires Shaped(p, s)
  {
    && Disciplined(p, s.msgs)
    && (s.msgs == [] <==> s.main.Opening?)
    && Announced(s.msgs) == Reported(p, s.main)
    && (Eof in s.msgs <==> s.main.Collecting?)
    && (forall i :: 0 <= i < p.N() ==> (EndOne(i) in s.msgs <==> ENDED(s.pcs[i])))
  }

  /** The stream adds up to what the workers did. */
  ghost predicate Tallied(p: Params, s: State)
    requires Shaped(p, s)
  {
    && Count(s.msgs, IS_END) == Count(s.pcs, ENDED)
    && Sum(s.msgs, DOWN) == Sum(s.down, SELF)
  }

  lemma InitInTune(p: Params)
    requires p.Valid()
    ensures InTune(p, Init(p)) && Tallied(p, Init(p))
  {
    var s := Init(p);
    CountBound(s.pcs, ENDED);
    ZeroSum(s.down);
  }

  lemma {:induction false} ZeroSum(down: seq<nat>)
    requires forall i :: 0 <= i < |down| ==> down[i] == 0
    ensures Sum(down, SELF) == 0
  {
    if down != [] {
      ZeroSum(down[1..]);
    }
  }

  lemma DisciplinedAppend(p: Params, msgs: seq<Message>, m: Message)
    requires Disciplined(p, msgs) && MayFollow(p, msgs, m)
    ensures Disciplined(p, msgs + [m])
    ensures Announced(msgs + [m]) == if m.GotServers? then m.hi else Announced(msgs)
  {
    assert (msgs + [m])[..|msgs|] == msgs;
  }

  lemma TallyAppend(msgs: seq<Message>, m: Message)
    ensures Count(msgs + [m], IS_END) == Count(msgs, IS_END) + Bit(m.EndOne?)
    ensures Sum(msgs + [m], DOWN) == Sum(msgs, DOWN) + DOWN(m)
    ensures Sum(msgs + [m], UP) == Sum(msgs, UP) + UP(m)
  {
    assert [m][1..] == [];
    CountAppend(msgs, [m], IS_END);
    SumAppend(msgs, [m], DOWN);
    SumAppend(msgs, [m], UP);
  }

  /** A worker writes only what may still be written. */
  lemma WorkInTune(p: Params, s: State, i: nat, ch: Choice)
    requires Shaped(p, s) && p.Valid() && Spawned(p, s) && InTune(p, s) && Enabled(p, s, Work(i, ch))
    ensures InTune(p, Apply(p, s, Work(i, ch)))
  {
    hide Local;
    var s' := Apply(p, s, Work(i, ch));
    var eff := Local(p, i, s.cancelled, s.down[i], s.pcs[i], ch).value;
    LocalFacts(p, i, s.cancelled, s.down[i], s.pcs[i], ch);
    if eff.msg.Some? {
      assert MayFollow(p, s.msgs, eff.msg.value);
      DisciplinedAppend(p, s.msgs, eff.msg.value);
    } else {
      assert s'.msgs == s.msgs;
    }
  }

  lemma WorkTallied(p: Params, s: State, i: nat, ch: Choice)
    requires Shaped(p, s) && p.Valid() && Tallied(p, s) && Enabled(p, s, Work(i, ch))
    ensures Tallied(p, Apply(p, s, Work(i, ch)))
  {
    hide Local;
    var s' := Apply(p, s, Work(i, ch));
    var eff := Local(p, i, s.cancelled, s.down[i], s.pcs[i], ch).value;
    LocalFacts(p, i, s.cancelled, s.down[i], s.pcs[i], ch);
    CountUpdate(s.pcs, i, eff.next, ENDED);
    var sum: nat := s.down[i] + eff.bytes;
    SumUpdate(s.down, i, sum, SELF);
    if eff.msg.Some? {
      TallyAppend(s.msgs, eff.msg.value);
    } else {
      assert s'.msgs == s.msgs;
    }
  }

  lemma SharedTallied(p: Params, s: State, e: Event)
    requires Shaped(p, s) && p.Valid() && Spawned(p, s) && Tallied(p, s) && Enabled(p, s, e)
    requires !e.Work?
    ensures Tallied(p, Apply(p, s, e))
  {
    hide Local;
    match e
    case Spawn => CountUpdate(s.pcs, s.main.k, Parsing, ENDED);
    case Send(i) => CountUpdate(s.pcs, i, Returning, ENDED);
    case Done(i) => CountUpdate(s.pcs, i, Closing, ENDED);
    case Release(i) => CountUpdate(s.pcs, i, Finished, ENDED);
    case Begin => TallyAppend(s.msgs, Message.Started);
    case Batch => TallyAppend(s.msgs, GotServers(s.main.i, BatchEnd(p.N(), s.main.i)));
    case PassWait => TallyAppend(s.msgs, Eof);
    case IpReady => TallyAppend(s.msgs, IpInfo);
    case _ =>
  }

  /** What the main loop, or the address lookup, writes at an event. */
  function Written(p: Params, s: State, e: Event): Message
    requires e.Batch? ==> s.main.Announcing?
  {
    match e
    case Begin => Message.Started
    case Batch => GotServers(s.main.i, BatchEnd(p.N(), s.main.i))
    case PassWait => Eof
    case _ => IpInfo
  }

  predicate Writes(e: Event) {
    e.Begin? || e.Batch? || e.PassWait? || e.IpReady?
  }

  lemma WritesAllowed(p: Params, s: State, e: Event)
    requires Shaped(p, s) && p.Valid() && Spawned(p, s) && InTune(p, s) && Enabled(p, s, e) && Writes(e)
    ensures MayFollow(p, s.msgs, Written(p, s, e))
  {
    hide Announced, Disciplined, Local;
  }

  lemma WritesInTune(p: Params, s: State, e: Event)
    requires Shaped(p, s) && p.Valid() && Spawned(p, s) && InTune(p, s) && Enabled(p, s, e) && Writes(e)
    ensures InTune(p, Apply(p, s, e))
  {
    hide Local;
    WritesAllowed(p, s, e);
    DisciplinedAppend(p, s.msgs, Written(p, s, e));
    hide Disciplined, Announced, MayFollow;
  }

  lemma QuietInTune(p: Params, s: State, e: Event)
    requires Shaped(p, s) && p.Valid() && Spawned(p, s) && InTune(p, s) && Enabled(p, s, e)
    requires !Writes(e) && !e.Work?
    ensures InTune(p, Apply(p, s, e))
  {
    hide Announced, Disciplined, Local;
  }

  lemma {:induction false} AlwaysInTune(p: Params, evs: seq<Event>)
    requires p.Valid()
    ensures InTune(p, After(p, evs)) && Tallied(p, After(p, evs))
  {
    if evs == [] {
      InitInTune(p);
    } else {
      var before, e := evs[..|evs| - 1], evs[|evs| - 1];
      var s := After(p, before);
      AlwaysInTune(p, before);
      AlwaysSafe(p, before);
      if Enabled(p, s, e) {
        if e.Work? {
          WorkInTune(p, s, e.i, e.ch);
          WorkTallied(p, s, e.i, e.ch);
        } else {
          if Writes(e) {
            WritesInTune(p, s, e);
          } else {
            QuietInTune(p, s, e);
          }
          SharedTallied(p, s, e);
        }
      }
    }
  }

  // ------------------------------------------------- the order of the stream

  lemma {:induction false} DisciplinedOrder(p: Params, msgs: seq<Message>, a: nat, b: nat)
    requires Disciplined(p, msgs) && a < b < |msgs|
    ensures !msgs[b].Started?
    ensures msgs[b].GotServers? ==> !msgs[a].FromWorker() && !msgs[a].Eof?
    ensures msgs[a].Eof? ==> msgs[b].EndOne? || msgs[b].IpInfo?
    ensures msgs[a].EndOne? ==> !msgs[b].From(msgs[a].id)
  {
    var front := msgs[..|msgs| - 1];
    if b < |front| {
      DisciplinedOrder(p, front, a, b);
    } else {
      assert front[a] == msgs[a];
      if msgs[b].GotServers? {
        AnnouncedFirst(p, front);
      }
    }
  }

  /** While links are left to announce, no worker has written and the run has not ended. */
  lemma {:induction false} AnnouncedFirst(p: Params, msgs: seq<Message>)
    requires Disciplined(p, msgs) && Announced(msgs) < p.N()
    ensures forall m :: m in msgs ==> !m.FromWorker() && !m.Eof?
  {
    if msgs != [] {
      var front, last := msgs[..|msgs| - 1], msgs[|msgs| - 1];
      assert msgs == front + [last];
      AnnouncedFirst(p, front);
    }
  }

  /**
    In every run: started comes first; no announcement follows a worker's message or eof; eof follows
    every ping, speed and upload message; and the endone of a link follows all its other messages
    and comes once.
  */
  lemma StreamOrder(p: Params, evs: seq<Event>, a: nat, b: nat)
    requires p.Valid() && a < b < |After(p, evs).msgs|
    ensures
      var msgs := After(p, evs).msgs;
      && msgs[0].Started? && !msgs[b].Started?
      && (msgs[b].GotServers? ==> !msgs[a].FromWorker() && !msgs[a].Eof?)
      && (msgs[a].Eof? ==> msgs[b].EndOne? || msgs[b].IpInfo?)
      && (msgs[a].EndOne? ==> !msgs[b].From(msgs[a].id))
  {
    AlwaysInTune(p, evs);
    DisciplinedOrder(p, After(p, evs).msgs, a, b);
    StartedFirst(p, After(p, evs).msgs);
  }

  lemma {:induction false} StartedFirst(p: Params, msgs: seq<Message>)
    requires Disciplined(p, msgs) && msgs != []
    ensures msgs[0].Started?
  {
    if |msgs| > 1 {
      StartedFirst(p, msgs[..|msgs| - 1]);
    }
  }

  function Batches(msgs: seq<Message>): seq<Message> {
    if msgs == [] then []
    else Batches(msgs[..|msgs| - 1]) + if msgs[|msgs| - 1].GotServers? then [msgs[|msgs| - 1]] else []
  }

  lemma {:induction false} DisciplinedBatches(p: Params, msgs: seq<Message>)
    requires Disciplined(p, msgs)
    ensures Batches(msgs) + Announcements(p.N(), Announced(msgs)) == Announcements(p.N(), 0)
    ensures Tiles(Batches(msgs), 0, Announced(msgs))
  {
    if msgs != [] {
      var front, m := msgs[..|msgs| - 1], msgs[|msgs| - 1];
      DisciplinedBatches(p, front);
      if m.GotServers? {
        var rest := Announcements(p.N(), m.hi);
        assert Batches(front) + ([m] + rest) == Batches(front) + [m] + rest;
        TilesAppend(Batches(front), 0, m);
      } else {
        assert Batches(front) + [] == Batches(front);
      }
    }
  }

  lemma {:induction false} TilesAppend(batches: seq<Message>, lo: nat, m: Message)
    requires m.GotServers? && m.lo < m.hi && Tiles(batches, lo, m.lo)
    ensures Tiles(batches + [m], lo, m.hi)
  {
    if batches == [] {
      assert [m][1..] == [];
    } else {
      assert (batches + [m])[1..] == batches[1..] + [m];
      TilesAppend(batches[1..], batches[0].hi, m);
    }
  }

  /**
    In every run the announcements, ipinfo aside, are those of the announcement loop so far; they cut
    the links up to a point into consecutive batches, and all links before a worker writes or the run
    ends.
  */
  lemma BatchesTile(p: Params, evs: seq<Event>)
    requires p.Valid()
    ensures
      var msgs := After(p, evs).msgs;
      && Batches(msgs) + Announcements(p.N(), Announced(msgs)) == Announcements(p.N(), 0)
      && Tiles(Batches(msgs), 0, Announced(msgs))
      && ((exists m :: m in msgs && (m.FromWorker() || m.Eof?)) ==> Announced(msgs) == p.N())
  {
    var msgs := After(p, evs).msgs;
    AlwaysInTune(p, evs);
    AlwaysSafe(p, evs);
    DisciplinedBatches(p, msgs);
    if Announced(msgs) < p.N() {
      AnnouncedFirst(p, msgs);
    }
  }

  lemma AfterAppend(p: Params, evs: seq<Event>, e: Event)
    requires p.Valid()
    ensures After(p, evs + [e]) == Apply(p, After(p, evs), e)
  {
    assert (evs + [e])[..|evs|] == evs;
  }

  /** A message stream that an observer has read so far is the full stream of an earlier state. */
  lemma {:induction false} PrefixOfRun(p: Params, evs: seq<Event>, j: nat) returns (k: nat)
    requires p.Valid() && j <= |After(p, evs).msgs|
    ensures k <= |evs| && After(p, evs[..k]).msgs == After(p, evs).msgs[..j]
  {
    var msgs := After(p, evs).msgs;
    if j == |msgs| {
      k := |evs|;
      assert evs[..k] == evs && msgs[..j] == msgs;
    } else {
      var before := evs[..|evs| - 1];
      var earlier := After(p, before).msgs;
      MessagesGrow(p, After(p, before), evs[|evs| - 1]);
      hide Apply;
      k := PrefixOfRun(p, before, j);
      assert evs[..k] == before[..k];
      assert earlier[..j] == msgs[..j];
    }
  }

  lemma MessagesGrow(p: Params, s: State, e: Event)
    requires Shaped(p, s)
    ensures s.msgs <= Apply(p, s, e).msgs && |Apply(p, s, e).msgs| <= |s.msgs| + 1
  {
    hide Local;
  }

  /** The downloaded bytes the stream reports are, when the run has completed, the traffic of its summary. */
  lemma StreamTrafficIsSummaryTraffic(p: Params, evs: seq<Event>)
    requires p.Valid() && After(p, evs).main == Collecting(p.N())
    ensures Sum(After(p, evs).msgs, DOWN) == After(p, evs).traffic
  {
    AlwaysInTune(p, evs);
    SummaryIsOrderFree(p, evs);
  }
}
