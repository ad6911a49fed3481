/**
  The scheduler of one test run as a state machine: the main loop that chains workers through the
  guard channel and the WaitGroup, the workers themselves, the result channel and the message
  stream. A worker's code is the function Local; what it shares with others is in Apply.
*/
module Protocol {
  import opened Options

  /** What the observers of a run are told. The writer's mutex puts the messages in one order. */
  datatype Message =
    | Started
    | GotServers(lo: nat, hi: nat)
    | IpInfo
    | StartPing(id: nat)
    | GotPing(id: nat, ping: int)
    | StartSpeed(id: nat)
    | GotSpeed(id: nat, avg: int, traffic: nat)
    | StartUpload(id: nat)
    | GotUpload(id: nat, avg: int, traffic: nat)
    | EndOne(id: nat)
    | Eof
  {
    predicate FromWorker() {
      !Started? && !GotServers? && !IpInfo? && !Eof?
    }

    /** Written by worker `i`. */
    predicate From(i: nat) {
      FromWorker() && id == i
    }
  }

  datatype Mode = PingOnly | SpeedOnly | All

  datatype Node = Node(id: nat, success: bool, traffic: nat)

  /** parses[i]: Link2Config accepts link i. direct[i]: link i is a direct:// link. */
  datatype Params = Params(concurrency: nat, parses: seq<bool>, direct: seq<bool>, mode: Mode, upload: bool) {
    function N(): nat { |parses| }

    /** run refuses an empty list; the option parser raises a concurrency below 1 to 1. */
    predicate Valid() {
      |parses| >= 1 && |direct| == |parses| && concurrency >= 1
    }
  }

  /** Where the goroutine of a link stands. */
  datatype Pc =
    | Idle
    | Parsing
    | PingStart
    | Pinging
    | NoSpeed(elapse: int, failed: bool)
    | SpeedStart
    | Speed
    | SpeedDone
    | Upload
    | Sending(node: Node)
    | Returning     // testOne is done but for its deferred wg.Done
    | Closing       // endone not yet written
    | Releasing     // guard not yet released
    | Finished
  {
    /** Holds a slot of the guard. */
    predicate Holding() { !Idle? && !Finished? }

    /** Counted by the WaitGroup. */
    predicate Working() { Holding() && !Closing? && !Releasing? }

    /** Spawned, and its endone not yet written. */
    predicate Active() { Holding() && !Releasing? }

    /** Past the point where testOne sends its node. */
    predicate Past() { Returning? || Closing? || Releasing? || Finished? }

    /** May have taken download samples. */
    predicate Sampled() { Speed? || SpeedDone? || Upload? || Sending? || Past() }
  }

  /** What the outside decides: a ping result, a sample, or that a speed phase ends. */
  datatype Choice = Go | Answer(elapse: int, err: bool) | Sample(bytes: nat, avg: int) | Finish(failed: bool)

  datatype Effect = Effect(next: Pc, msg: Option<Message>, bytes: nat)

  /** The verdict of pingLink on a ping result, after the gotping message. */
  function Judge(p: Params, i: nat, elapse: int, err: bool): Pc
    requires i < |p.direct|
  {
    if elapse < 1 then
      if p.direct[i] && !p.mode.PingOnly? then SpeedStart else NoSpeed(0, err)
    else if p.mode.PingOnly? then NoSpeed(elapse, true)
    else if err then Sending(Node(i, true, 0))
    else SpeedStart
  }

  /** One step of worker `i` that touches nothing shared but the message stream. None: not possible here. */
  function Local(p: Params, i: nat, cancelled: bool, down: nat, pc: Pc, ch: Choice): Option<Effect>
    requires i < p.N() == |p.direct|
  {
    match (pc, ch)
    case (Parsing, Go) =>
      Some(Effect(if !p.parses[i] then Returning else if p.mode.SpeedOnly? then SpeedStart else PingStart, None, 0))
    case (PingStart, Go) => Some(Effect(Pinging, Some(StartPing(i)), 0))
    case (Pinging, Answer(elapse, err)) => Some(Effect(Judge(p, i, elapse, err), Some(GotPing(i, elapse)), 0))
    case (NoSpeed(elapse, failed), Go) =>
      Some(Effect(if failed then Sending(Node(i, elapse > 0, 0)) else SpeedStart, Some(GotSpeed(i, 0, 0)), 0))
    case (SpeedStart, Go) => Some(Effect(Speed, Some(StartSpeed(i)), 0))
    case (Speed, Sample(b, avg)) => Some(Effect(Speed, Some(GotSpeed(i, avg, b)), b))
    case (Speed, Finish(failed)) => Some(Effect(SpeedDone, if failed then Some(GotSpeed(i, 0, 0)) else None, 0))
    case (SpeedDone, Go) =>
      Some(if p.upload && !cancelled then Effect(Upload, Some(StartUpload(i)), 0)
           else Effect(Sending(Node(i, true, down)), None, 0))
    case (Upload, Sample(b, avg)) => Some(Effect(Upload, Some(GotUpload(i, avg, b)), 0))
    case (Upload, Finish(failed)) =>
      Some(Effect(Sending(Node(i, true, down)), if failed then Some(GotUpload(i, 0, 0)) else None, 0))
    case (Closing, Go) => Some(Effect(Releasing, Some(EndOne(i)), 0))
    case _ => None
  }

  /**
    Announcing(i): the links from i on have not been announced. Spawning(k, added): k workers started,
    and wg.Add done or not for the next one.
  */
  datatype Main =
    | Opening
    | Announcing(i: nat)
    | Spawning(k: nat, added: bool)
    | Aborted(k: nat)
    | Collecting(taken: nat)

  datatype State = State(
    main: Main,
    pcs: seq<Pc>,
    guard: nat,                 // tokens in the guard channel
    wg: int,
    chan: seq<Node>,            // nodeChan, capacity N
    msgs: seq<Message>,
    cancelled: bool,
    down: seq<nat>,             // per worker, the sum of its download samples
    nodes: seq<Option<Node>>,   // what the main loop has collected
    traffic: nat,
    successes: nat)

  datatype Event =
    | Begin | Batch | AddWg | Spawn | Abort | PassWait | Collect | Cancel | IpReady
    | Work(i: nat, ch: Choice) | Send(i: nat) | Done(i: nat) | Release(i: nat)
  {
    /** Not one of the things that just happen to a run from outside. */
    predicate Progress() { !Cancel? && !IpReady? }
  }

  /** The size of the batches in which the links are announced. */
  function BatchSize(n: nat): (r: nat)
    ensures 1 <= r <= 50
  {
    if n > 200 then if n / 20 > 50 then 50 else n / 20 else 9
  }

  /** Where the batch that starts at link `i` ends. */
  function BatchEnd(n: nat, i: nat): nat {
    if i + BatchSize(n) > n then n else i + BatchSize(n)
  }

  /** The announcements from link `i` on. */
  function Announcements(n: nat, i: nat): seq<Message>
    decreases n - i
  {
    if i >= n then [] else [GotServers(i, BatchEnd(n, i))] + Announcements(n, BatchEnd(n, i))
  }

  function Init(p: Params): State {
    State(Opening, seq(p.N(), _ => Idle), 0, 0, [], [], false,
          seq(p.N(), _ => 0), seq(p.N(), _ => None), 0, 0)
  }

  predicate Shaped(p: Params, s: State) {
    |s.pcs| == |s.down| == |s.nodes| == p.N() == |p.direct|
  }

  predicate Enabled(p: Params, s: State, e: Event)
    requires Shaped(p, s)
  {
    match e
    case Begin => s.main.Opening?
    case Batch => s.main.Announcing? && s.main.i < p.N()
    case AddWg => s.main.Spawning? && s.main.k < p.N() && !s.main.added
    case Spawn => s.main.Spawning? && s.main.k < p.N() && s.main.added && s.guard < p.concurrency
    case Abort => s.main.Spawning? && s.main.added && s.cancelled
    case PassWait => s.main.Spawning? && s.main.k == p.N() && !s.main.added && s.wg == 0
    case Collect => s.main.Collecting? && s.main.taken < p.N() && s.chan != [] && s.chan[0].id < p.N()
    case Cancel => !s.cancelled
    case IpReady => !s.main.Opening?
    case Work(i, ch) => i < p.N() && Local(p, i, s.cancelled, s.down[i], s.pcs[i], ch).Some?
    case Send(i) => i < p.N() && s.pcs[i].Sending? && |s.chan| < p.N()
    case Done(i) => i < p.N() && s.pcs[i].Returning?
    case Release(i) => i < p.N() && s.pcs[i].Releasing? && s.guard > 0
  }

  function Optional(m: Option<Message>): seq<Message> {
    if m.Some? then [m.value] else []
  }

  /** An event that is not enabled is blocked: the state stays as it is. */
  function Apply(p: Params, s: State, e: Event): (r: State)
    requires Shaped(p, s)
    ensures Shaped(p, r)
  {
    if !Enabled(p, s, e) then s
    else
      match e
      case Begin => s.(main := Announcing(0), msgs := s.msgs + [Started])
      case Batch =>
        var end := BatchEnd(p.N(), s.main.i);
        s.(main := if end == p.N() then Spawning(0, false) else Announcing(end),
           msgs := s.msgs + [GotServers(s.main.i, end)])
      case AddWg => s.(main := Spawning(s.main.k, true), wg := s.wg + 1)
      case Spawn => s.(main := Spawning(s.main.k + 1, false), guard := s.guard + 1, pcs := s.pcs[s.main.k := Parsing])
      case Abort => s.(main := Aborted(s.main.k))
      case PassWait => s.(main := Collecting(0), msgs := s.msgs + [Eof])
      case Collect =>
        var node := s.chan[0];
        s.(main := Collecting(s.main.taken + 1), chan := s.chan[1..], nodes := s.nodes[node.id := Some(node)],
           traffic := s.traffic + node.traffic, successes := s.successes + if node.success then 1 else 0)
      case Cancel => s.(cancelled := true)
      case IpReady => s.(msgs := s.msgs + [IpInfo])
      case Work(i, ch) =>
        var eff := Local(p, i, s.cancelled, s.down[i], s.pcs[i], ch).value;
        s.(pcs := s.pcs[i := eff.next], msgs := s.msgs + Optional(eff.msg), down := s.down[i := s.down[i] + eff.bytes])
      case Send(i) => s.(pcs := s.pcs[i := Returning], chan := s.chan + [s.pcs[i].node])
      case Done(i) => s.(pcs := s.pcs[i := Closing], wg := s.wg - 1)
      case Release(i) => s.(pcs := s.pcs[i := Finished], guard := s.guard - 1)
  }

  /** The state after any interleaving of events. */
  function After(p: Params, evs: seq<Event>): (s: State)
    requires p.Valid()
    ensures Shaped(p, s)
  {
    if evs == [] then Init(p) else Apply(p, After(p, evs[..|evs| - 1]), evs[|evs| - 1])
  }

  lemma AnnounceEnd(n: nat, i: nat)
    requires i >= n
    ensures Announcements(n, i) == []
  {
  }

  lemma AnnounceStep(n: nat, i: nat, msgs: seq<Message>)
    requires i < n
    ensures msgs + [GotServers(i, BatchEnd(n, i))] + Announcements(n, i + BatchSize(n)) == msgs + Announcements(n, i)
  {
    var batch, rest := [GotServers(i, BatchEnd(n, i))], Announcements(n, i + BatchSize(n));
    assert Announcements(n, i) == batch + rest;
    assert msgs + batch + rest == msgs + (batch + rest);
  }

  /** The announcement loop of run. */
  method Announce(n: nat) returns (msgs: seq<Message>)
    ensures msgs == Announcements(n, 0)
  {
    hide Announcements;
    msgs := [];
    assert msgs + Announcements(n, 0) == Announcements(n, 0);
    var step := 9;
    if n > 200 {
      step := n / 20;
      if step > 50 {
        step := 50;
      }
    }
    var i := 0;
    while i < n
      invariant msgs + Announcements(n, i) == Announcements(n, 0)
      decreases n - i
    {
      var end := i + step;
      if end > n {
        end := n;
      }
      AnnounceStep(n, i, msgs);
      msgs := msgs + [GotServers(i, end)];
      i := i + step;
    }
    AnnounceEnd(n, i);
    assert msgs + [] == msgs;
  }

  /** A batch is of 9 links, or of a twentieth of more than 200, up to 50; only the last may have fewer. */
  lemma {:induction false} BatchWidths(n: nat, i: nat, k: nat)
    requires k < |Announcements(n, i)|
    ensures
      var m, size := Announcements(n, i)[k], if n <= 200 then 9 else if n >= 1000 then 50 else n / 20;
      m.GotServers? && (m.hi == m.lo + size || (m.hi == n < m.lo + size))
    decreases k
  {
    if k > 0 {
      BatchWidths(n, BatchEnd(n, i), k - 1);
    }
  }

  /** Batches that lie end to end from `lo` to `hi`, none empty. */
  ghost predicate Tiles(msgs: seq<Message>, lo: nat, hi: nat) {
    if msgs == [] then lo == hi
    else msgs[0].GotServers? && msgs[0].lo == lo && lo < msgs[0].hi <= hi && Tiles(msgs[1..], msgs[0].hi, hi)
  }

  /** The announcements cut the links into consecutive batches: each link is announced exactly once. */
  lemma {:induction false} AnnouncementsTile(n: nat, i: nat)
    requires i <= n
    ensures Tiles(Announcements(n, i), i, n)
    decreases n - i
  {
    if i < n {
      AnnouncementsTile(n, BatchEnd(n, i));
      assert Announcements(n, i)[1..] == Announcements(n, BatchEnd(n, i));
    }
  }
}
