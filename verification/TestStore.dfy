/** The browser's table of links under test: which dial each one occupies while it is live. */
module TestStore {
  import opened Options
  import opened Counting
  import opened Protocol
  import opened ProtocolSafety
  import opened ProtocolMessages

  datatype Phase = PingPhase | DownPhase | UpPhase

  datatype LiveNode = LiveNode(id: nat, slot: nat, phase: Phase, bps: nat)

  type Live = map<nat, LiveNode>

  datatype Store = Store(live: Live, tests: nat, oks: nat, traffic: nat, loading: bool)

  function Slots(live: Live): set<nat> {
    set id | id in live :: live[id].slot
  }

  /** The least number from `slot` on that is not in use. */
  function FreeFrom(used: set<nat>, slot: nat): (r: nat)
    ensures r !in used && r >= slot
    ensures forall s :: slot <= s < r ==> s in used
    decreases used - set s | s in used && s < slot
  {
    if slot in used then
      assert slot in used - (set s | s in used && s < slot);
      assert slot !in used - (set s | s in used && s < slot + 1);
      FreeFrom(used, slot + 1)
    else slot
  }

  function SlotFor(live: Live, id: nat): nat {
    if id in live then live[id].slot else FreeFrom(Slots(live), 0)
  }

  function Upsert(live: Live, id: nat, phase: Phase, bps: nat): Live {
    live[id := LiveNode(id, SlotFor(live, id), phase, bps)]
  }

  ghost predicate Taken(live: Live, slot: nat) {
    exists j :: j in live && live[j].slot == slot
  }

  /** The slot is the least that no live link holds. */
  ghost predicate Newcomer(live: Live, slot: nat) {
    !Taken(live, slot) && forall s: nat :: s < slot ==> Taken(live, s)
  }

  lemma FreeIsNewcomer(live: Live)
    ensures Newcomer(live, FreeFrom(Slots(live), 0))
  {
    var slot := FreeFrom(Slots(live), 0);
    forall s: nat
      ensures Taken(live, s) <==> s in Slots(live)
    {
    }
  }

  function Remove(live: Live, id: nat): Live {
    live - {id}
  }

  function Handle(g: Store, m: Message): Store {
    match m
    case StartPing(id) => g.(live := Upsert(g.live, id, PingPhase, 0))
    case GotPing(id, ping) => g.(tests := g.tests + 1, oks := g.oks + Bit(ping > 0))
    case StartSpeed(id) => g.(live := Upsert(g.live, id, DownPhase, 0))
    case GotSpeed(id, _, traffic) => g.(traffic := g.traffic + traffic, live := Upsert(g.live, id, DownPhase, traffic))
    case StartUpload(id) => g.(live := Upsert(g.live, id, UpPhase, 0))
    case GotUpload(id, _, traffic) => g.(traffic := g.traffic + traffic, live := Upsert(g.live, id, UpPhase, traffic))
    case EndOne(id) => g.(live := Remove(g.live, id))
    case Eof => g.(loading := false, live := map[])
    case _ => g
  }

  const OPENED := Store(map[], 0, 0, 0, true)

  function Show(msgs: seq<Message>): Store {
    if msgs == [] then OPENED else Handle(Show(msgs[..|msgs| - 1]), msgs[|msgs| - 1])
  }

  /** The search for the first free dial: it ends because only finitely many dials are in use. */
  method UpsertLive(live: Live, id: nat, phase: Phase, bps: nat) returns (r: Live)
    ensures r == Upsert(live, id, phase, bps)
    ensures r.Keys == live.Keys + {id} && forall j :: j in live && j != id ==> r[j] == live[j]
    ensures r[id].id == id && r[id].phase == phase && r[id].bps == bps
    ensures id in live ==> r[id].slot == live[id].slot
    ensures id !in live ==> Newcomer(live, r[id].slot)
  {
    var slot: nat;
    if id in live {
      slot := live[id].slot;
    } else {
      var used := set k | k in live :: live[k].slot;
      slot := 0;
      while slot in used
        invariant FreeFrom(used, slot) == FreeFrom(used, 0)
        decreases FreeFrom(used, 0) - slot
      {
        slot := slot + 1;
      }
    }
    r := live[id := LiveNode(id, slot, phase, bps)];
    FreeIsNewcomer(live);
  }

  class TestStore {
    var live: Live
    var testCount: nat
    var testOkCount: nat
    var totalTraffic: nat
    var loading: bool

    ghost function State(): Store
      reads this
    {
      Store(live, testCount, testOkCount, totalTraffic, loading)
    }

    constructor ()
      ensures State() == OPENED
    {
      live, testCount, testOkCount, totalTraffic, loading := map[], 0, 0, 0, true;
    }

    method HandleMessage(m: Message)
      modifies this
      ensures State() == Handle(old(State()), m)
    {
      match m {
        case StartPing(id) => live := UpsertLive(live, id, PingPhase, 0);
        case GotPing(_, ping) =>
          testCount := testCount + 1;
          if ping > 0 {
            testOkCount := testOkCount + 1;
          }
        case StartSpeed(id) => live := UpsertLive(live, id, DownPhase, 0);
        case GotSpeed(id, _, traffic) =>
          totalTraffic := totalTraffic + traffic;
          live := UpsertLive(live, id, DownPhase, traffic);
        case StartUpload(id) => live := UpsertLive(live, id, UpPhase, 0);
        case GotUpload(id, _, traffic) =>
          totalTraffic := totalTraffic + traffic;
          live := UpsertLive(live, id, UpPhase, traffic);
        case EndOne(id) =>
          if id in live {
            live := live - {id};
          }
        case Eof =>
          loading := false;
          live := map[];
        case _ =>
      }
    }
  }

  // ------------------------------------------------- dials never run out

  /** Each live link has a dial of its own, among the first `c`. */
  ghost predicate Seated(live: Live, c: nat) {
    && (forall id :: id in live ==> live[id].slot < c)
    && (forall a, b :: a in live && b in live && a != b ==> live[a].slot != live[b].slot)
  }

  lemma {:induction false} BelowFree(used: set<nat>, r: nat)
    requires forall s: nat :: s < r ==> s in used
    ensures r <= |used|
  {
    if r > 0 {
      BelowFree(used - {r - 1}, r - 1);
      assert used == (used - {r - 1}) + {r - 1};
    }
  }

  lemma {:induction false} SlotsSize(live: Live)
    ensures |Slots(live)| <= |live.Keys|
    decreases |live.Keys|
  {
    if id :| id in live {
      var rest := live - {id};
      assert live.Keys == rest.Keys + {id};
      SlotsSize(rest);
      assert Slots(live) == Slots(rest) + {live[id].slot};
      assert |Slots(rest) + {live[id].slot}| <= |Slots(rest)| + 1;
    } else {
      assert Slots(live) == {};
    }
  }

  /** A link that comes in while fewer than `c` others are live finds one of the first `c` dials free. */
  lemma UpsertSeated(live: Live, c: nat, id: nat, phase: Phase, bps: nat)
    requires Seated(live, c) && (id in live || |live| < c)
    ensures Seated(Upsert(live, id, phase, bps), c)
  {
    if id !in live {
      var slot := FreeFrom(Slots(live), 0);
      BelowFree(Slots(live), slot);
      SlotsSize(live);
      forall a | a in live ensures live[a].slot != slot {
        assert live[a].slot in Slots(live);
      }
    }
  }

  const ACTIVE: Pc -> bool := (pc: Pc) => pc.Active()

  /** The dials in use belong to workers that hold a slot of the guard and have not written endone. */
  ghost predicate InView(p: Params, s: State)
    requires Shaped(p, s)
  {
    var live := Show(s.msgs).live;
    && Seated(live, p.concurrency)
    && live.Keys <= Where(s.pcs, ACTIVE)
    && (s.main.Collecting? ==> live == map[])
  }

  lemma ShowAppend(msgs: seq<Message>, m: Message)
    ensures Show(msgs + [m]) == Handle(Show(msgs), m)
  {
    assert (msgs + [m])[..|msgs|] == msgs;
  }

  /** While worker i is active, the others that are live leave a dial for it. */
  lemma RoomForDial(p: Params, s: State, i: nat)
    requires Shaped(p, s) && p.Valid() && ProtocolSafety.Slots(p, s) && InView(p, s)
    requires i < p.N() && s.pcs[i].Active()
    ensures i in Show(s.msgs).live || |Show(s.msgs).live| < p.concurrency
  {
    var live := Show(s.msgs).live;
    CountWhere(s.pcs, ACTIVE);
    CountMono(s.pcs, ACTIVE, HOLDING);
    if i !in live {
      assert live.Keys <= Where(s.pcs, ACTIVE) - {i};
      assert i in Where(s.pcs, ACTIVE);
      SetSmaller(live.Keys, Where(s.pcs, ACTIVE) - {i});
    }
  }

  lemma {:induction false} SetSmaller(a: set<nat>, b: set<nat>)
    requires a <= b
    ensures |a| <= |b|
  {
    if x :| x in a {
      SetSmaller(a - {x}, b - {x});
    }
  }

  lemma WhereUpdate(pcs: seq<Pc>, i: nat, pc: Pc)
    requires i < |pcs|
    ensures Where(pcs[i := pc], ACTIVE) == if pc.Active() then Where(pcs, ACTIVE) + {i} else Where(pcs, ACTIVE) - {i}
  {
  }

  lemma WorkInView(p: Params, s: State, i: nat, ch: Choice)
    requires Shaped(p, s) && p.Valid() && Safe(p, s) && InView(p, s) && Enabled(p, s, Work(i, ch))
    ensures InView(p, Apply(p, s, Work(i, ch)))
  {
    var s' := Apply(p, s, Work(i, ch));
    var eff := Local(p, i, s.cancelled, s.down[i], s.pcs[i], ch).value;
    LocalFacts(p, i, s.cancelled, s.down[i], s.pcs[i], ch);
    WhereUpdate(s.pcs, i, eff.next);
    RoomForDial(p, s, i);
    assert i in Where(s.pcs, ACTIVE);
    assert eff.next.Active() <==> !s.pcs[i].Closing?;
    hide Local, Seated, Show, Where, Handle, Spawned, Workers, Channel, Collected, ProtocolSafety.Slots;
    if eff.msg.None? {
      assert s'.msgs == s.msgs;
    } else {
      ShowAppend(s.msgs, eff.msg.value);
      MessageInView(Show(s.msgs).live, p.concurrency, Show(s.msgs), eff.msg.value, i);
    }
  }

  /** What a message from worker i does to the dials. */
  lemma MessageInView(live: Live, c: nat, g: Store, m: Message, i: nat)
    requires g.live == live && m.From(i) && Seated(live, c) && (i in live || |live| < c)
    ensures Seated(Handle(g, m).live, c)
    ensures Handle(g, m).live.Keys <= if m.EndOne? then live.Keys - {i} else live.Keys + {i}
  {
    match m
    case StartPing(_) => UpsertSeated(live, c, i, PingPhase, 0);
    case StartSpeed(_) => UpsertSeated(live, c, i, DownPhase, 0);
    case GotSpeed(_, _, t) => UpsertSeated(live, c, i, DownPhase, t);
    case StartUpload(_) => UpsertSeated(live, c, i, UpPhase, 0);
    case GotUpload(_, _, t) => UpsertSeated(live, c, i, UpPhase, t);
    case _ =>
  }

  lemma SharedInView(p: Params, s: State, e: Event)
    requires Shaped(p, s) && p.Valid() && Safe(p, s) && InView(p, s) && Enabled(p, s, e)
    requires !e.Work?
    ensures InView(p, Apply(p, s, e))
  {
    SharedActive(p, s, e);
    if Writes(e) {
      ShowAppend(s.msgs, Written(p, s, e));
    }
    hide Local, Seated, Show, Where, Workers, Channel, Collected, ProtocolSafety.Slots;
    SeatedNobody(p.concurrency);
  }

  lemma SeatedNobody(c: nat)
    ensures Seated(map[], c)
  {
  }

  lemma SharedActive(p: Params, s: State, e: Event)
    requires Shaped(p, s) && p.Valid() && Spawned(p, s) && Enabled(p, s, e) && !e.Work?
    ensures Where(s.pcs, ACTIVE) <= Where(Apply(p, s, e).pcs, ACTIVE)
  {
    hide Local;
    match e
    case Spawn => WhereUpdate(s.pcs, s.main.k, Parsing);
    case Send(i) => WhereUpdate(s.pcs, i, Returning);
    case Done(i) => WhereUpdate(s.pcs, i, Closing);
    case Release(i) => WhereUpdate(s.pcs, i, Finished);
    case _ =>
  }

  lemma {:induction false} AlwaysInView(p: Params, evs: seq<Event>)
    requires p.Valid()
    ensures InView(p, After(p, evs))
  {
    if evs == [] {
      assert Init(p).msgs == [];
    } else {
      var before, e := evs[..|evs| - 1], evs[|evs| - 1];
      AlwaysInView(p, before);
      AlwaysSafe(p, before);
      if Enabled(p, After(p, before), e) {
        if e.Work? {
          WorkInView(p, After(p, before), e.i, e.ch);
        } else {
          SharedInView(p, After(p, before), e);
        }
      }
    }
  }

  /**
    However far the browser has read the stream of a run, cancelled or not, the links it shows as
    live occupy distinct dials among the first `concurrency`.
  */
  lemma DialsSuffice(p: Params, evs: seq<Event>, j: nat)
    requires p.Valid() && j <= |After(p, evs).msgs|
    ensures Seated(Show(After(p, evs).msgs[..j]).live, p.concurrency)
    ensures |Show(After(p, evs).msgs[..j]).live| <= p.concurrency
  {
    var k := PrefixOfRun(p, evs, j);
    AlwaysInView(p, evs[..k]);
    SeatedSize(Show(After(p, evs).msgs[..j]).live, p.concurrency);
  }

  lemma {:induction false} SeatedSize(live: Live, c: nat)
    requires Seated(live, c)
    ensures |live| <= c
  {
    SlotsInjective(live);
    BoundedSet(Slots(live), c);
  }

  lemma SlotsWithout(live: Live, id: nat)
    requires id in live && forall a :: a in live && a != id ==> live[a].slot != live[id].slot
    ensures Slots(live - {id}) == Slots(live) - {live[id].slot} && live[id].slot in Slots(live)
    ensures (live - {id}).Keys == live.Keys - {id}
  {
    var rest := live - {id};
    forall s | s in Slots(live) && s != live[id].slot
      ensures s in Slots(rest)
    {
      var a :| a in live && live[a].slot == s;
      assert a in rest && rest[a].slot == s;
    }
    forall s | s in Slots(rest)
      ensures s in Slots(live) && s != live[id].slot
    {
      var a :| a in rest && rest[a].slot == s;
      assert a in live && live[a].slot == s;
    }
  }

  lemma {:induction false} SlotsInjective(live: Live)
    requires forall a, b :: a in live && b in live && a != b ==> live[a].slot != live[b].slot
    ensures |Slots(live)| == |live.Keys|
    decreases |live.Keys|
  {
    if id :| id in live {
      SlotsWithout(live, id);
      hide Slots;
      SlotsInjective(live - {id});
    } else {
      assert Slots(live) == {} && live.Keys == {};
    }
  }

  /** The byte counter of the browser shows every download and upload sample once. */
  lemma {:induction false} ShownTraffic(msgs: seq<Message>)
    ensures Show(msgs).traffic == Sum(msgs, DOWN) + Sum(msgs, UP)
  {
    if msgs != [] {
      var front := msgs[..|msgs| - 1];
      ShownTraffic(front);
      TallyAppend(front, msgs[|msgs| - 1]);
      assert msgs == front + [msgs[|msgs| - 1]];
    }
  }

  /**
    When a run has completed, no link is shown as live any more, and the bytes on display are the
    traffic of the run's summary plus the uploaded bytes, which the summary leaves out.
  */
  lemma DisplayAgreesWithSummary(p: Params, evs: seq<Event>)
    requires p.Valid() && After(p, evs).main == Collecting(p.N())
    ensures
      var s := After(p, evs);
      && Show(s.msgs).live == map[]
      && Show(s.msgs).traffic == s.traffic + Sum(s.msgs, UP)
  {
    AlwaysInView(p, evs);
    ShownTraffic(After(p, evs).msgs);
    StreamTrafficIsSummaryTraffic(p, evs);
  }
}
