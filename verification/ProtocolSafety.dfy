/**
  What every interleaving keeps: the guard bounds the workers, the WaitGroup counts them, and the
  result channel carries exactly one node for each link that parses.
*/
module ProtocolSafety {
  import opened Options
  import opened Counting
  import opened Protocol

  const HOLDING: Pc -> bool := (pc: Pc) => pc.Holding()
  const WORKING: Pc -> bool := (pc: Pc) => pc.Working()
  const TAKEN: Option<Node> -> bool := (x: Option<Node>) => x.Some?
  const TRAFFIC: Option<Node> -> int := (x: Option<Node>) => if x.Some? then x.value.traffic else 0
  const SUCCEEDED: Option<Node> -> bool := (x: Option<Node>) => x.Some? && x.value.success
  const YES: bool -> bool := (b: bool) => b

  /** How many workers were spawned. */
  function Started(p: Params, m: Main): nat {
    match m
    case Opening => 0
    case Announcing(_) => 0
    case Spawning(k, _) => k
    case Aborted(k) => k
    case Collecting(_) => p.N()
  }

  /** wg.Add was called for a worker that is not there (yet). */
  predicate Pending(m: Main) {
    m.Aborted? || (m.Spawning? && m.added)
  }

  ghost predicate Slots(p: Params, s: State)
    requires Shaped(p, s)
  {
    && s.guard == Count(s.pcs, HOLDING)
    && s.guard <= p.concurrency
    && s.wg == Count(s.pcs, WORKING) + Bit(Pending(s.main))
  }

  ghost predicate Spawned(p: Params, s: State)
    requires Shaped(p, s)
  {
    && Started(p, s.main) <= p.N()
    && (s.main.Announcing? ==> s.main.i < p.N())
    && (s.main.Spawning? && s.main.added ==> s.main.k < p.N())
    && (s.main.Collecting? ==> s.main.taken <= p.N())
    && (forall i :: 0 <= i < p.N() ==> (s.pcs[i].Idle? <==> i >= Started(p, s.main)))
    && (s.main.Collecting? ==> forall i :: 0 <= i < p.N() ==> !s.pcs[i].Working())
  }

  /** What a local step can and cannot do. */
  lemma LocalFacts(p: Params, i: nat, cancelled: bool, down: nat, pc: Pc, ch: Choice)
    requires i < p.N() == |p.direct|
    requires Local(p, i, cancelled, down, pc, ch).Some?
    ensures
      var eff := Local(p, i, cancelled, down, pc, ch).value;
      && pc.Holding() && eff.next.Holding()
      && !pc.Sending? && !pc.Returning? && !pc.Releasing?
      && pc.Working() == eff.next.Working()
      && (p.parses[i] ==> pc.Past() == eff.next.Past())
      && (pc.Closing? <==> eff.next.Releasing?)
      && (pc.Closing? ==> eff.msg == Some(EndOne(i)))
      && (!pc.Working() ==> pc.Closing?)
      && (eff.msg.Some? ==> eff.msg.value.From(i) && (eff.msg.value.EndOne? ==> pc.Closing?))
      && (eff.bytes > 0 ==> pc.Speed?)
      && eff.bytes == (if eff.msg.Some? && eff.msg.value.GotSpeed? then eff.msg.value.traffic else 0)
  {
  }

  lemma SlotsWork(p: Params, s: State, i: nat, ch: Choice)
    requires Shaped(p, s) && p.Valid() && Slots(p, s) && Enabled(p, s, Work(i, ch))
    ensures Slots(p, Apply(p, s, Work(i, ch)))
  {
    hide Local;
    LocalFacts(p, i, s.cancelled, s.down[i], s.pcs[i], ch);
    PcChange(s, i, Local(p, i, s.cancelled, s.down[i], s.pcs[i], ch).value.next);
  }

  lemma SlotsShared(p: Params, s: State, e: Event)
    requires Shaped(p, s) && p.Valid() && Slots(p, s) && Enabled(p, s, e)
    requires e.Send? || e.Done? || e.Release?
    ensures Slots(p, Apply(p, s, e))
  {
    hide Local;
    PcChange(s, e.i, if e.Send? then Returning else if e.Done? then Closing else Finished);
  }

  lemma SlotsSpawn(p: Params, s: State)
    requires Shaped(p, s) && p.Valid() && Slots(p, s) && Spawned(p, s) && Enabled(p, s, Spawn)
    ensures Slots(p, Apply(p, s, Spawn))
  {
    hide Local;
    PcChange(s, s.main.k, Parsing);
  }

  lemma SlotsKept(p: Params, s: State, e: Event)
    requires Shaped(p, s) && p.Valid() && Slots(p, s) && Spawned(p, s)
    ensures Slots(p, Apply(p, s, e))
  {
    hide Local;
    if Enabled(p, s, e) {
      match e
      case Spawn => SlotsSpawn(p, s);
      case Work(i, ch) => SlotsWork(p, s, i, ch);
      case Send(_) => SlotsShared(p, s, e);
      case Done(_) => SlotsShared(p, s, e);
      case Release(_) => SlotsShared(p, s, e);
      case _ =>
    }
  }

  lemma PcChange(s: State, i: nat, pc: Pc)
    requires i < |s.pcs|
    ensures Count(s.pcs[i := pc], HOLDING) == Count(s.pcs, HOLDING) - Bit(s.pcs[i].Holding()) + Bit(pc.Holding())
    ensures Count(s.pcs[i := pc], WORKING) == Count(s.pcs, WORKING) - Bit(s.pcs[i].Working()) + Bit(pc.Working())
  {
    CountUpdate(s.pcs, i, pc, HOLDING);
    CountUpdate(s.pcs, i, pc, WORKING);
  }

  lemma SpawnedWork(p: Params, s: State, i: nat, ch: Choice)
    requires Shaped(p, s) && p.Valid() && Spawned(p, s) && Enabled(p, s, Work(i, ch))
    ensures Spawned(p, Apply(p, s, Work(i, ch)))
  {
    hide Local;
    LocalFacts(p, i, s.cancelled, s.down[i], s.pcs[i], ch);
  }

  lemma SpawnedKept(p: Params, s: State, e: Event)
    requires Shaped(p, s) && p.Valid() && Slots(p, s) && Spawned(p, s)
    ensures Spawned(p, Apply(p, s, e))
  {
    hide Local;
    if Enabled(p, s, e) {
      match e
      case PassWait =>
        CountBound(s.pcs, WORKING);
        assert forall i :: 0 <= i < p.N() ==> !WORKING(s.pcs[i]);
      case Work(i, ch) => SpawnedWork(p, s, i, ch);
      case _ =>
    }
  }

  // ------------------------------------------------- the result channel

  ghost function Ids(chan: seq<Node>): set<nat> {
    set x | x in chan :: x.id
  }

  /** Worker i has sent its node. */
  predicate Made(p: Params, s: State, i: nat)
    requires Shaped(p, s) && i < p.N()
  {
    p.parses[i] && s.pcs[i].Past()
  }

  /** A node that worker x.id sent, carrying exactly the bytes its samples added up to. */
  ghost predicate Genuine(p: Params, s: State, x: Node)
    requires Shaped(p, s)
  {
    x.id < p.N() && Made(p, s, x.id) && x.traffic == s.down[x.id]
  }

  /** A worker's own state: its node carries its samples, and past the parser its link has parsed. */
  ghost predicate Sound(p: Params, i: nat, pc: Pc, down: nat)
    requires i < p.N()
  {
    && (pc.Sending? ==> pc.node.id == i && pc.node.traffic == down)
    && (!pc.Sampled() ==> down == 0)
    && (!pc.Past() && !pc.Idle? && !pc.Parsing? ==> p.parses[i])
  }

  ghost predicate Workers(p: Params, s: State)
    requires Shaped(p, s)
  {
    forall i :: 0 <= i < p.N() ==> Sound(p, i, s.pcs[i], s.down[i])
  }

  ghost predicate Channel(p: Params, s: State)
    requires Shaped(p, s)
  {
    && (forall a, b :: 0 <= a < b < |s.chan| ==> s.chan[a].id != s.chan[b].id)
    && (forall x :: x in s.chan ==> Genuine(p, s, x))
    && (forall i :: 0 <= i < p.N() ==> (i in Ids(s.chan) <==> Made(p, s, i) && s.nodes[i].None?))
    && (forall i :: 0 <= i < p.N() && s.nodes[i].Some? ==> s.nodes[i].value.id == i && Genuine(p, s, s.nodes[i].value))
  }

  /** What the collection loop has added up so far. */
  ghost predicate Collected(p: Params, s: State)
    requires Shaped(p, s)
  {
    && Count(s.nodes, TAKEN) == (if s.main.Collecting? then s.main.taken else 0)
    && s.traffic == Sum(s.nodes, TRAFFIC)
    && s.successes == Count(s.nodes, SUCCEEDED)
  }

  lemma LocalSound(p: Params, i: nat, cancelled: bool, down: nat, pc: Pc, ch: Choice)
    requires i < p.N() == |p.direct| && Sound(p, i, pc, down)
    requires Local(p, i, cancelled, down, pc, ch).Some?
    ensures var eff := Local(p, i, cancelled, down, pc, ch).value;
      Sound(p, i, eff.next, down + eff.bytes)
  {
  }

  lemma WorkersKept(p: Params, s: State, e: Event)
    requires Shaped(p, s) && p.Valid() && Workers(p, s) && Spawned(p, s)
    ensures Workers(p, Apply(p, s, e))
  {
    hide Local;
    if Enabled(p, s, e) && e.Work? {
      LocalSound(p, e.i, s.cancelled, s.down[e.i], s.pcs[e.i], e.ch);
    }
  }

  /** A worker's own step changes neither what it has sent nor the bytes behind it. */
  lemma ChannelWork(p: Params, s: State, i: nat, ch: Choice)
    requires Shaped(p, s) && p.Valid() && Channel(p, s) && Workers(p, s)
    requires Enabled(p, s, Work(i, ch))
    ensures Channel(p, Apply(p, s, Work(i, ch)))
  {
    hide Local;
    var s' := Apply(p, s, Work(i, ch));
    LocalFacts(p, i, s.cancelled, s.down[i], s.pcs[i], ch);
    assert forall j :: 0 <= j < p.N() ==> Made(p, s', j) == Made(p, s, j);
    assert forall x :: Genuine(p, s, x) ==> Genuine(p, s', x);
  }

  lemma ChannelSend(p: Params, s: State, i: nat)
    requires Shaped(p, s) && p.Valid() && Channel(p, s) && Workers(p, s)
    requires Enabled(p, s, Send(i))
    ensures Channel(p, Apply(p, s, Send(i)))
  {
    hide Local;
    var s' := Apply(p, s, Send(i));
    var x := s.pcs[i].node;
    assert forall j :: 0 <= j < p.N() ==> Made(p, s', j) == (Made(p, s, j) || j == i);
    assert i !in Ids(s.chan);
    forall a | 0 <= a < |s.chan| ensures s.chan[a].id != i {
      assert s.chan[a] in s.chan;
    }
    assert Ids(s'.chan) == Ids(s.chan) + {i} by {
      assert s'.chan[|s.chan|] == x;
      assert forall y :: y in s'.chan <==> y in s.chan || y == x;
    }
    assert forall y :: Genuine(p, s, y) ==> Genuine(p, s', y);
  }

  lemma SameGenuine(p: Params, s: State, s': State)
    requires Shaped(p, s) && Shaped(p, s') && s'.down == s.down
    requires forall j :: 0 <= j < p.N() ==> s'.pcs[j].Past() == s.pcs[j].Past()
    ensures forall j :: 0 <= j < p.N() ==> Made(p, s', j) == Made(p, s, j)
    ensures forall x :: Genuine(p, s, x) ==> Genuine(p, s', x)
  {
  }

  lemma TailIds(chan: seq<Node>, x: Node, rest: seq<Node>)
    requires chan == [x] + rest
    requires forall a, b :: 0 <= a < b < |chan| ==> chan[a].id != chan[b].id
    ensures forall a, b :: 0 <= a < b < |rest| ==> rest[a].id != rest[b].id
    ensures x.id in Ids(chan) && Ids(rest) == Ids(chan) - {x.id}
    ensures forall y :: y in rest ==> y in chan
  {
    assert chan[0] == x;
    assert forall b :: 0 <= b < |rest| ==> rest[b] == chan[b + 1];
    assert forall y :: y in chan <==> y == x || y in rest;
    forall y | y in rest ensures y.id != x.id {
      var b :| 0 <= b < |rest| && rest[b] == y;
      assert chan[b + 1].id != chan[0].id;
    }
  }

  /** The first node of the channel moves to the results. */
  lemma ChannelTaken(p: Params, s: State, s': State, x: Node)
    requires Shaped(p, s) && Shaped(p, s') && Channel(p, s)
    requires s.chan == [x] + s'.chan && x.id < p.N()
    requires s'.pcs == s.pcs && s'.down == s.down && s'.nodes == s.nodes[x.id := Some(x)]
    ensures Channel(p, s')
  {
    SameGenuine(p, s, s');
    hide Genuine, Made, Ids;
    assert s.chan[0] == x && x in s.chan;
    TailIds(s.chan, x, s'.chan);
  }

  lemma ChannelCollect(p: Params, s: State)
    requires Shaped(p, s) && p.Valid() && Channel(p, s)
    requires Enabled(p, s, Event.Collect)
    ensures Channel(p, Apply(p, s, Event.Collect))
  {
    hide Channel, Local;
    ChannelTaken(p, s, Apply(p, s, Event.Collect), s.chan[0]);
  }

  lemma ChannelQuiet(p: Params, s: State, s': State)
    requires Shaped(p, s) && Shaped(p, s') && Channel(p, s)
    requires s'.chan == s.chan && s'.nodes == s.nodes && s'.down == s.down
    requires forall j :: 0 <= j < p.N() ==> s'.pcs[j].Past() == s.pcs[j].Past()
    ensures Channel(p, s')
  {
    SameGenuine(p, s, s');
    hide Genuine, Made;
  }

  lemma ChannelKept(p: Params, s: State, e: Event)
    requires Shaped(p, s) && p.Valid() && Channel(p, s) && Workers(p, s) && Spawned(p, s)
    ensures Channel(p, Apply(p, s, e))
  {
    hide Channel, Workers, Local;
    if Enabled(p, s, e) {
      match e
      case Work(i, ch) => ChannelWork(p, s, i, ch);
      case Send(i) => ChannelSend(p, s, i);
      case Collect => ChannelCollect(p, s);
      case _ => ChannelQuiet(p, s, Apply(p, s, e));
    }
  }

  lemma CollectedKept(p: Params, s: State, e: Event)
    requires Shaped(p, s) && p.Valid() && Channel(p, s) && Collected(p, s)
    ensures Collected(p, Apply(p, s, e))
  {
    hide Local, Genuine, Made;
    if Enabled(p, s, e) && e.Collect? {
      var x := s.chan[0];
      assert x in s.chan && s.nodes[x.id].None?;
      CountUpdate(s.nodes, x.id, Some(x), TAKEN);
      CountUpdate(s.nodes, x.id, Some(x), SUCCEEDED);
      SumUpdate(s.nodes, x.id, Some(x), TRAFFIC);
    }
  }

  // ------------------------------------------------- all interleavings

  ghost predicate Safe(p: Params, s: State)
    requires Shaped(p, s)
  {
    Slots(p, s) && Spawned(p, s) && Workers(p, s) && Channel(p, s) && Collected(p, s)
  }

  lemma InitSafe(p: Params)
    requires p.Valid()
    ensures Safe(p, Init(p))
  {
    InitCounts(p);
    InitChannel(p);
    hide Slots, Collected, Channel;
  }

  lemma InitCounts(p: Params)
    requires p.Valid()
    ensures Slots(p, Init(p)) && Collected(p, Init(p))
  {
    var s := Init(p);
    CountBound(s.pcs, HOLDING);
    CountBound(s.pcs, WORKING);
    CountBound(s.nodes, TAKEN);
    CountBound(s.nodes, SUCCEEDED);
    SumZero(s.nodes);
  }

  lemma InitChannel(p: Params)
    requires p.Valid()
    ensures Channel(p, Init(p))
  {
    assert forall i :: 0 <= i < p.N() ==> !Made(p, Init(p), i);
  }

  lemma {:induction false} SumZero(nodes: seq<Option<Node>>)
    requires forall i :: 0 <= i < |nodes| ==> nodes[i] == None
    ensures Sum(nodes, TRAFFIC) == 0
  {
    if nodes != [] {
      SumZero(nodes[1..]);
    }
  }

  lemma {:induction false} AlwaysSafe(p: Params, evs: seq<Event>)
    requires p.Valid()
    ensures Safe(p, After(p, evs))
  {
    if evs == [] {
      InitSafe(p);
    } else {
      hide Apply, Enabled, Slots, Spawned, Workers, Channel, Collected;
      var before, e := After(p, evs[..|evs| - 1]), evs[|evs| - 1];
      AlwaysSafe(p, evs[..|evs| - 1]);
      SlotsKept(p, before, e);
      SpawnedKept(p, before, e);
      WorkersKept(p, before, e);
      ChannelKept(p, before, e);
      CollectedKept(p, before, e);
    }
  }

  /** Under every interleaving, cancelled or not, at most `concurrency` workers hold a slot. */
  lemma ConcurrencyBounded(p: Params, evs: seq<Event>)
    requires p.Valid()
    ensures Count(After(p, evs).pcs, HOLDING) <= p.concurrency
  {
    AlwaysSafe(p, evs);
  }

  lemma {:induction false} IdsSize(chan: seq<Node>)
    requires forall a, b :: 0 <= a < b < |chan| ==> chan[a].id != chan[b].id
    ensures |Ids(chan)| == |chan|
  {
    if chan != [] {
      var x, rest := chan[0], chan[1..];
      IdsSize(rest);
      assert chan == [x] + rest;
      assert Ids(chan) == Ids(rest) + {x.id};
      assert x.id !in Ids(rest);
    }
  }

  lemma RoomToSend(p: Params, s: State, i: nat)
    requires Shaped(p, s) && Channel(p, s) && i < p.N() && s.pcs[i].Sending?
    ensures |s.chan| < p.N()
  {
    IdsSize(s.chan);
    IdsInRange(p, s);
    assert !Made(p, s, i);
    BoundedSet(Ids(s.chan) + {i}, p.N());
  }

  /** Under every interleaving, cancelled or not, a worker that wants to send its node can do so at once. */
  lemma SendNeverBlocks(p: Params, evs: seq<Event>, i: nat)
    requires p.Valid() && i < p.N()
    requires After(p, evs).pcs[i].Sending?
    ensures Enabled(p, After(p, evs), Send(i))
  {
    AlwaysSafe(p, evs);
    RoomToSend(p, After(p, evs), i);
  }

  /** Once no worker is counted by the WaitGroup, every link that parses has sent its node. */
  lemma AllMade(p: Params, s: State)
    requires Shaped(p, s) && Safe(p, s) && Started(p, s.main) == p.N() && !Pending(s.main) && s.wg == 0
    ensures forall i :: 0 <= i < p.N() ==> s.pcs[i].Past()
    ensures forall i :: 0 <= i < p.N() ==> (Made(p, s, i) <==> p.parses[i])
  {
    CountBound(s.pcs, WORKING);
    assert forall i :: 0 <= i < p.N() ==> !WORKING(s.pcs[i]);
  }

  lemma IdsInRange(p: Params, s: State)
    requires Shaped(p, s) && Channel(p, s)
    ensures forall x :: x in Ids(s.chan) ==> x < p.N()
  {
    forall x | x in Ids(s.chan) ensures x < p.N() {
      var y :| y in s.chan && y.id == x;
      assert Genuine(p, s, y);
    }
  }

  ghost function ParsedLinks(p: Params): set<nat> {
    set i | 0 <= i < p.N() && p.parses[i]
  }

  lemma ParsedCount(p: Params)
    ensures |ParsedLinks(p)| == Count(p.parses, YES)
  {
    CountWhere(p.parses, YES);
    assert ParsedLinks(p) == Where(p.parses, YES);
  }

  lemma ChannelComplete(p: Params, s: State)
    requires Shaped(p, s) && Channel(p, s)
    requires forall i :: 0 <= i < p.N() ==> (Made(p, s, i) <==> p.parses[i]) && s.nodes[i].None?
    ensures Ids(s.chan) == ParsedLinks(p)
  {
    IdsInRange(p, s);
  }

  /**
    At the moment wg.Wait lets the main loop pass, the result channel holds exactly one node for
    each link that parses and nothing else.
  */
  lemma OneNodePerLink(p: Params, evs: seq<Event>)
    requires p.Valid() && Enabled(p, After(p, evs), PassWait)
    ensures
      var s := After(p, evs);
      Ids(s.chan) == ParsedLinks(p) && |s.chan| == Count(p.parses, YES)
  {
    var s := After(p, evs);
    AlwaysSafe(p, evs);
    assert Ids(s.chan) == ParsedLinks(p) by {
      AllMade(p, s);
      CountBound(s.nodes, TAKEN);
      assert forall i :: 0 <= i < p.N() ==> !TAKEN(s.nodes[i]);
      ChannelComplete(p, s);
    }
    IdsSize(s.chan);
    ParsedCount(p);
  }

  /**
    When the run has collected everything, nodes[i] is the node of link i and the reported traffic
    is the sum of all download samples: neither depends on the order in which the workers finished.
  */
  lemma SummaryIsOrderFree(p: Params, evs: seq<Event>)
    requires p.Valid() && After(p, evs).main == Collecting(p.N())
    ensures
      var s := After(p, evs);
      && (forall i :: 0 <= i < p.N() ==>
            p.parses[i] && s.nodes[i].Some? && s.nodes[i].value.id == i && s.nodes[i].value.traffic == s.down[i])
      && s.traffic == Sum(s.down, SELF)
      && s.successes == Count(s.nodes, SUCCEEDED)
  {
    var s := After(p, evs);
    AlwaysSafe(p, evs);
    CountBound(s.nodes, TAKEN);
    forall i | 0 <= i < p.N()
      ensures p.parses[i] && s.nodes[i].Some? && s.nodes[i].value.id == i && s.nodes[i].value.traffic == s.down[i]
    {
      assert TAKEN(s.nodes[i]);
    }
    SumAgree(s.nodes, s.down, TRAFFIC, SELF);
  }
}
