/** Order of the recency list, choice of the victim and conservation of entries, over every history. */
module RecencyLaws {
  import opened Options
  import opened Recency

  /** The key an operation makes most recent: written, or read with success. Exist touches nothing. */
  function Touched(cfg: Config, st: State, op: Op): Option<Key> {
    match op
    case Set(k, _, _, _) => Some(k)
    case Store(k, _, _, _) => Some(k)
    case Get(k, _, _) => if Answer(cfg, st, op).Some? then Some(k) else None
    case Exist(_) => None
    case Delete(_) => None
  }

  /** Position in the history of the last operation that touched `k`, or -1. */
  function LastTouch(cfg: Config, ops: seq<Op>, k: Key): int {
    if ops == [] then -1
    else
      var before := ops[..|ops| - 1];
      if Touched(cfg, Run(cfg, before), ops[|ops| - 1]) == Some(k) then |ops| - 1
      else LastTouch(cfg, before, k)
  }

  ghost predicate Ordered(l: seq<Entry>, stamp: Key -> int) {
    forall i, j :: 0 <= i < j < |l| ==> stamp(l[i].key) < stamp(l[j].key)
  }

  lemma OrderedCons(e: Entry, w: seq<Entry>, stamp: Key -> int)
    requires Ordered(w, stamp)
    requires forall x :: x in w ==> stamp(e.key) < stamp(x.key)
    ensures Ordered([e] + w, stamp)
  {
    forall i, j | 0 <= i < j < |w| + 1 ensures stamp(([e] + w)[i].key) < stamp(([e] + w)[j].key) {
      assert w[j - 1] in w;
    }
  }

  lemma {:induction false} OrderedWithout(l: seq<Entry>, stamp: Key -> int, k: Key)
    requires Ordered(l, stamp)
    ensures Ordered(Without(l, k), stamp)
  {
    if l != [] {
      OrderedWithout(l[1..], stamp, k);
      if l[0].key != k {
        WithoutMembers(l[1..], k);
        OrderedCons(l[0], Without(l[1..], k), stamp);
      }
    }
  }

  /** Moving a key to the back keeps the order once its stamp is the largest. */
  lemma OrderedTouch(l: seq<Entry>, stamp: Key -> int, e: Entry, stamp': Key -> int)
    requires Ordered(l, stamp)
    requires forall k :: k != e.key ==> stamp'(k) == stamp(k)
    requires forall x :: x in l ==> stamp(x.key) < stamp'(e.key)
    ensures Ordered(Touch(l, e), stamp')
  {
    OrderedWithout(l, stamp, e.key);
    WithoutMembers(l, e.key);
    var w := Without(l, e.key);
    forall i | 0 <= i < |w| ensures w[i].key != e.key && w[i] in l {
      assert w[i] in w;
    }
  }

  ghost predicate Stamped(l: seq<Entry>, stamp: Key -> int) {
    Ordered(l, stamp) && forall e :: e in l ==> 0 <= stamp(e.key)
  }

  lemma StampedSuffix(l: seq<Entry>, n: nat, stamp: Key -> int)
    requires Stamped(l, stamp) && n <= |l|
    ensures Stamped(l[n..], stamp)
  {
  }

  ghost function Stamp(cfg: Config, ops: seq<Op>): Key -> int {
    k => LastTouch(cfg, ops, k)
  }

  lemma {:induction false} LastTouchRange(cfg: Config, ops: seq<Op>, k: Key)
    ensures -1 <= LastTouch(cfg, ops, k) < |ops|
  {
    if ops != [] {
      LastTouchRange(cfg, ops[..|ops| - 1], k);
    }
  }

  /** At any time the list reads, front to back, in order of last touch. */
  lemma {:induction false} RecencyOrder(cfg: Config, ops: seq<Op>)
    ensures Stamped(Run(cfg, ops).entries, Stamp(cfg, ops))
  {
    if ops != [] {
      var before, op := ops[..|ops| - 1], ops[|ops| - 1];
      var st := Run(cfg, before);
      RecencyOrder(cfg, before);
      forall k ensures LastTouch(cfg, before, k) < |ops| - 1 {
        LastTouchRange(cfg, before, k);
      }
      StepOrder(cfg, st, op, Stamp(cfg, before), Stamp(cfg, ops), |ops| - 1);
    }
  }

  lemma StepOrder(cfg: Config, st: State, op: Op, stamp: Key -> int, stamp': Key -> int, n: nat)
    requires Stamped(st.entries, stamp)
    requires forall k :: stamp(k) < n
    requires forall k :: stamp'(k) == if Touched(cfg, st, op) == Some(k) then n else stamp(k)
    ensures Stamped(Step(cfg, st, op).entries, stamp')
  {
    match op
    case Set(k, v, t1, t2) => StoreOrder(cfg, st, Entry(k, v, SetExpiry(cfg, t1)), t2, stamp, stamp');
    case Store(k, v, x, t2) => StoreOrder(cfg, st, Entry(k, v, x), t2, stamp, stamp');
    case Get(k, t1, t2) => ReadOrder(cfg, st, op, stamp, stamp', n);
    case Exist(k) =>
    case Delete(k) => RemoveOrder(st.entries, k, stamp);
  }

  lemma RemoveOrder(l: seq<Entry>, k: Key, stamp: Key -> int)
    requires Stamped(l, stamp)
    ensures Stamped(Without(l, k), stamp)
  {
    OrderedWithout(l, stamp, k);
    WithoutMembers(l, k);
  }

  lemma TouchOrder(l: seq<Entry>, e: Entry, stamp: Key -> int, stamp': Key -> int)
    requires Stamped(l, stamp)
    requires forall k :: k != e.key ==> stamp'(k) == stamp(k)
    requires forall k :: stamp(k) < stamp'(e.key)
    requires 0 <= stamp'(e.key)
    ensures Stamped(Touch(l, e), stamp')
  {
    OrderedTouch(l, stamp, e, stamp');
    TouchMembers(l, e);
  }

  lemma SweepOrder(cfg: Config, st: State, now: int, stamp: Key -> int)
    requires Stamped(st.entries, stamp)
    ensures Stamped(Sweep(cfg, st, now).entries, stamp)
  {
    var n := SweepFacts(cfg, st, now);
    StampedSuffix(st.entries, n, stamp);
  }

  lemma ReadOrder(cfg: Config, st: State, op: Op, stamp: Key -> int, stamp': Key -> int, n: nat)
    requires op.Get?
    requires Stamped(st.entries, stamp)
    requires forall k :: stamp(k) < n
    requires forall k :: stamp'(k) == if Touched(cfg, st, op) == Some(k) then n else stamp(k)
    ensures Stamped(Step(cfg, st, op).entries, stamp')
  {
    hide Stamped, Without;
    var e := Lookup(st.entries, op.key);
    if e.Some? && !Stale(cfg, st, op) {
      TouchOrder(st.entries, Refreshed(cfg, e.value, op.t2), stamp, stamp');
    } else {
      if e.Some? {
        RemoveOrder(st.entries, op.key, stamp);
        SweepOrder(cfg, Removed(st, e.value), op.t2, stamp);
      }
      StampedSame(Step(cfg, st, op).entries, stamp, stamp');
    }
  }

  lemma StampedSame(l: seq<Entry>, stamp: Key -> int, stamp': Key -> int)
    requires Stamped(l, stamp) && forall k :: stamp'(k) == stamp(k)
    ensures Stamped(l, stamp')
  {
  }

  lemma StoreOrder(cfg: Config, st: State, e: Entry, now: int, stamp: Key -> int, stamp': Key -> int)
    requires Stamped(st.entries, stamp)
    requires forall k :: k != e.key ==> stamp'(k) == stamp(k)
    requires forall k :: stamp(k) < stamp'(e.key)
    requires 0 <= stamp'(e.key)
    ensures Stamped(Sweep(cfg, Stored(cfg, st, e), now).entries, stamp')
  {
    TouchOrder(st.entries, e, stamp, stamp');
    StampedSuffix(Touch(st.entries, e), 1, stamp');
    SweepOrder(cfg, Stored(cfg, st, e), now, stamp');
  }

  ghost predicate Writes(op: Op) {
    op.Set? || op.Store?
  }

  /** What a write inserts makes room for by dropping the front of a full list. */
  ghost predicate Overflows(cfg: Config, st: State, op: Op) {
    Writes(op) && op.key !in Keys(st.entries) && cfg.maxSize > 0 && |st.entries| == cfg.maxSize
  }

  /**
    Writing a new key into a full cache drops first the entry whose last touch is the oldest
    of all entries present; without expiry it drops nothing else, and no other write drops anything.
  */
  lemma VictimIsLeastRecent(cfg: Config, ops: seq<Op>, op: Op)
    requires Writes(op)
    ensures
      var st, st' := Run(cfg, ops), Run(cfg, ops + [op]);
      && (Overflows(cfg, st, op) ==>
            && st.dropped + [(st.entries[0].key, st.entries[0].value)] <= st'.dropped
            && (forall k :: k in Keys(st.entries) && k != st.entries[0].key ==>
                  LastTouch(cfg, ops, st.entries[0].key) < LastTouch(cfg, ops, k)))
      && (!cfg.Expiring() ==> |st'.dropped| == |st.dropped| + if Overflows(cfg, st, op) then 1 else 0)
  {
    var st := Run(cfg, ops);
    assert (ops + [op])[..|ops|] == ops;
    var e := if op.Set? then Entry(op.key, op.value, SetExpiry(cfg, op.t1)) else Entry(op.key, op.value, op.expires);
    var stored := Stored(cfg, st, e);
    assert Run(cfg, ops + [op]) == Sweep(cfg, stored, op.t2);
    assert |Touch(st.entries, e)| == |st.entries| + (if e.key in Keys(st.entries) then 0 else 1)
        && (cfg.maxSize > 0 ==> |st.entries| <= cfg.maxSize) by {
      HistoryWellFormed(cfg, ops);
      TouchFacts(st.entries, e);
    }
    SweepKeepsDropped(cfg, stored, op.t2);
    if Overflows(cfg, st, op) {
      assert Touch(st.entries, e)[0] == st.entries[0] by {
        WithoutAbsent(st.entries, e.key);
      }
      FrontIsOldest(cfg, ops);
    }
  }

  lemma FrontIsOldest(cfg: Config, ops: seq<Op>)
    ensures var l := Run(cfg, ops).entries;
      forall k :: k in Keys(l) && k != l[0].key ==> LastTouch(cfg, ops, l[0].key) < LastTouch(cfg, ops, k)
  {
    var l, stamp := Run(cfg, ops).entries, Stamp(cfg, ops);
    RecencyOrder(cfg, ops);
    forall k | k in Keys(l) && k != l[0].key
      ensures LastTouch(cfg, ops, l[0].key) < LastTouch(cfg, ops, k)
    {
      var i :| 0 <= i < |l| && l[i].key == k;
      assert stamp(l[0].key) < stamp(l[i].key);
    }
  }

  // ------------------------------------------------------------ conservation

  function Drops(dropped: seq<(Key, Value)>, k: Key): nat {
    if dropped == [] then 0
    else Drops(dropped[..|dropped| - 1], k) + if dropped[|dropped| - 1].0 == k then 1 else 0
  }

  function Held(l: seq<Entry>, k: Key): nat {
    if k in Keys(l) then 1 else 0
  }

  function Insertions(cfg: Config, ops: seq<Op>, k: Key): nat {
    if ops == [] then 0
    else
      var before, op := ops[..|ops| - 1], ops[|ops| - 1];
      Insertions(cfg, before, k)
      + if (op.Set? || op.Store?) && op.key == k && k !in Keys(Run(cfg, before).entries) then 1 else 0
  }

  lemma DropsAppend(a: seq<(Key, Value)>, b: seq<(Key, Value)>, k: Key)
    ensures Drops(a + b, k) == Drops(a, k) + Drops(b, k)
  {
    if b == [] {
      assert a + b == a;
    } else {
      DropsAppend(a, b[..|b| - 1], k);
      assert (a + b)[..|a + b| - 1] == a + b[..|b| - 1];
    }
  }

  lemma DropsOne(c: (Key, Value), k: Key)
    ensures Drops([c], k) == if c.0 == k then 1 else 0
  {
    assert [c][..0] == [];
    assert Drops([c][..0], k) == 0;
  }

  function Balance(st: State, k: Key): nat {
    Held(st.entries, k) + Drops(st.dropped, k)
  }

  /** Dropping the front hands on one entry and changes nothing else. */
  lemma DropFrontBalance(st: State, k: Key)
    requires Distinct(st.entries) && st.entries != []
    ensures Distinct(DropFront(st).entries)
    ensures Balance(DropFront(st), k) == Balance(st, k)
  {
    var e := st.entries[0];
    DropsAppend(st.dropped, [(e.key, e.value)], k);
    DropsOne((e.key, e.value), k);
    assert st.entries == [e] + st.entries[1..];
    assert e.key !in Keys(st.entries[1..]);
  }

  lemma {:induction false} SweepBalance(cfg: Config, st: State, now: int, k: Key)
    requires Distinct(st.entries)
    ensures Balance(Sweep(cfg, st, now), k) == Balance(st, k)
    decreases |st.entries|
  {
    if cfg.Expiring() && st.entries != [] && st.entries[0].expires <= now {
      DropFrontBalance(st, k);
      var d := DropFront(st);
      SweepBalance(cfg, d, now, k);
    }
  }

  lemma StoreBalance(cfg: Config, st: State, e: Entry, now: int, k: Key)
    requires Distinct(st.entries)
    ensures Balance(Sweep(cfg, Stored(cfg, st, e), now), k)
         == Balance(st, k) + if e.key == k && k !in Keys(st.entries) then 1 else 0
  {
    TouchFacts(st.entries, e);
    var t := State(Touch(st.entries, e), st.dropped);
    DropFrontBalance(t, k);
    SweepBalance(cfg, Stored(cfg, st, e), now, k);
  }

  lemma RemoveBalance(st: State, e: Entry, k: Key)
    requires Distinct(st.entries) && e in st.entries
    ensures Distinct(Removed(st, e).entries)
    ensures Balance(Removed(st, e), k) == Balance(st, k)
  {
    var w := Without(st.entries, e.key);
    assert Distinct(w) && Held(w, k) == if k == e.key then 0 else Held(st.entries, k) by {
      WithoutFacts(st.entries, e.key);
    }
    assert Drops(st.dropped + [(e.key, e.value)], k) == Drops(st.dropped, k) + if e.key == k then 1 else 0 by {
      DropsAppend(st.dropped, [(e.key, e.value)], k);
      DropsOne((e.key, e.value), k);
    }
    assert e.key in Keys(st.entries);
  }

  /**
    Key by key, every insertion is either still in the cache or was handed to onEvict,
    exactly once.
  */
  lemma {:induction false} EntriesConserved(cfg: Config, ops: seq<Op>, k: Key)
    ensures Insertions(cfg, ops, k) == Balance(Run(cfg, ops), k)
  {
    if ops != [] {
      var before, op := ops[..|ops| - 1], ops[|ops| - 1];
      var st := Run(cfg, before);
      EntriesConserved(cfg, before, k);
      HistoryWellFormed(cfg, before);
      match op
      case Set(_, v, t1, t2) => StoreBalance(cfg, st, Entry(op.key, v, SetExpiry(cfg, t1)), t2, k);
      case Store(_, v, x, t2) => StoreBalance(cfg, st, Entry(op.key, v, x), t2, k);
      case Get(_, t1, t2) =>
        var e := Lookup(st.entries, op.key);
        if e.Some? {
          if Stale(cfg, st, op) {
            RemoveBalance(st, e.value, k);
            WithoutFacts(st.entries, op.key);
            SweepBalance(cfg, Removed(st, e.value), t2, k);
          } else {
            TouchFacts(st.entries, Refreshed(cfg, e.value, t2));
            assert op.key in Keys(st.entries);
          }
        }
      case Exist(_) =>
      case Delete(_) =>
        var e := Lookup(st.entries, op.key);
        if e.Some? {
          RemoveBalance(st, e.value, k);
        }
    }
  }
}
