/**
  What a key is bound to, value and expiry, in every configuration of the cache: an ordinary map with
  expiry times, kept beside the cache without looking at its list, says it. And what may be lost.
*/
module Bindings {
  import opened Options
  import opened Recency
  import opened RecencyLaws
  import opened ExpiryLaws

  /** A bound key whose time has not come; where entries do not expire, any bound key. */
  predicate Alive(cfg: Config, m: map<Key, (Value, int)>, k: Key, now: int) {
    k in m && (!cfg.staleReturn && cfg.maxAge > 0 ==> now < m[k].1)
  }

  /** What an operation does to the bindings. */
  function Rebound(cfg: Config, m: map<Key, (Value, int)>, op: Op): map<Key, (Value, int)> {
    match op
    case Set(k, v, t1, _) => m[k := (v, if cfg.maxAge > 0 then t1 + cfg.maxAge else 0)]
    case Store(k, v, x, _) => m[k := (v, x)]
    case Get(k, t1, t2) =>
      if cfg.maxAge > 0 && cfg.updateAgeOnGet && Alive(cfg, m, k, t1) then m[k := (m[k].0, t2 + cfg.maxAge)] else m
    case Delete(k) => m - {k}
    case Exist(_) => m
  }

  /** The latest value of each key and the second at which it expires. */
  function Bound(cfg: Config, ops: seq<Op>): map<Key, (Value, int)> {
    if ops == [] then map[] else Rebound(cfg, Bound(cfg, ops[..|ops| - 1]), ops[|ops| - 1])
  }

  ghost predicate Carries(m: map<Key, (Value, int)>, l: seq<Entry>) {
    forall e :: e in l ==> e.key in m && m[e.key] == (e.value, e.expires)
  }

  lemma BoundSnoc(cfg: Config, ops: seq<Op>, op: Op)
    ensures Bound(cfg, ops + [op]) == Rebound(cfg, Bound(cfg, ops), op)
  {
    assert (ops + [op])[..|ops|] == ops;
  }

  // ------------------------------------------------- what the entries carry

  /** The list after a write holds, of the keys it held or wrote, a part. */
  lemma StoreMembers(cfg: Config, st: State, e: Entry, now: int)
    ensures forall x :: x in Sweep(cfg, Stored(cfg, st, e), now).entries ==> x == e || (x in st.entries && x.key != e.key)
  {
    TouchMembers(st.entries, e);
    var stored := Stored(cfg, st, e);
    var n := SweepFacts(cfg, stored, now);
  }

  lemma ReadMembers(cfg: Config, st: State, op: Op)
    requires op.Get?
    ensures
      var a, l := Answer(cfg, st, op), Step(cfg, st, op).entries;
      && (a.Some? ==> forall x :: x in l <==> x == a.value || (x in st.entries && x.key != op.key))
      && (a.None? ==> forall x :: x in l ==> x in st.entries && x.key != op.key)
  {
    var e := Lookup(st.entries, op.key);
    if e.Some? {
      TouchMembers(st.entries, Refreshed(cfg, e.value, op.t2));
      if Stale(cfg, st, op) {
        WithoutMembers(st.entries, op.key);
        var n := SweepFacts(cfg, Removed(st, e.value), op.t2);
      }
    }
  }

  lemma ReadCarries(cfg: Config, st: State, op: Op, m: map<Key, (Value, int)>)
    requires op.Get? && Carries(m, st.entries)
    ensures
      var a := Answer(cfg, st, op);
      a.Some? ==>
        && Alive(cfg, m, op.key, op.t1)
        && a.value == Entry(op.key, m[op.key].0,
                            if cfg.maxAge > 0 && cfg.updateAgeOnGet then op.t2 + cfg.maxAge else m[op.key].1)
  {
  }

  /** Every entry present carries the value and the expiry that its key is bound to, over every history. */
  lemma {:induction false} EntriesCarryBindings(cfg: Config, ops: seq<Op>)
    ensures Carries(Bound(cfg, ops), Run(cfg, ops).entries)
  {
    if ops != [] {
      var before, op := ops[..|ops| - 1], ops[|ops| - 1];
      var st := Run(cfg, before);
      EntriesCarryBindings(cfg, before);
      assert ops == before + [op];
      BoundSnoc(cfg, before, op);
      hide Bound, Sweep, Stored, Rebound, Carries;
      match op
      case Set(k, v, t1, t2) => StoreCarries(cfg, st, Entry(k, v, SetExpiry(cfg, t1)), t2, Bound(cfg, before), op);
      case Store(k, v, x, t2) => StoreCarries(cfg, st, Entry(k, v, x), t2, Bound(cfg, before), op);
      case Get(k, t1, t2) => ReadStepCarries(cfg, st, op, Bound(cfg, before));
      case Exist(k) => assert Rebound(cfg, Bound(cfg, before), op) == Bound(cfg, before);
      case Delete(k) => DeleteCarries(cfg, st, k, Bound(cfg, before));
    }
  }

  lemma StoreCarries(cfg: Config, st: State, e: Entry, now: int, m: map<Key, (Value, int)>, op: Op)
    requires Carries(m, st.entries) && Rebound(cfg, m, op) == m[e.key := (e.value, e.expires)]
    ensures Carries(Rebound(cfg, m, op), Sweep(cfg, Stored(cfg, st, e), now).entries)
  {
    StoreMembers(cfg, st, e, now);
    hide Rebound, Sweep, Stored;
  }

  lemma ReadStepCarries(cfg: Config, st: State, op: Op, m: map<Key, (Value, int)>)
    requires op.Get? && Carries(m, st.entries)
    ensures Carries(Rebound(cfg, m, op), Step(cfg, st, op).entries)
  {
    ReadMembers(cfg, st, op);
    ReadCarries(cfg, st, op, m);
    hide Step, Answer;
  }

  lemma DeleteCarries(cfg: Config, st: State, k: Key, m: map<Key, (Value, int)>)
    requires Carries(m, st.entries)
    ensures Carries(Rebound(cfg, m, Op.Delete(k)), Step(cfg, st, Op.Delete(k)).entries)
  {
    WithoutMembers(st.entries, k);
  }

  /** What a Get answers is alive, and is what its key is bound to once it has been read. */
  lemma AnswerCarries(cfg: Config, ops: seq<Op>, op: Op)
    requires op.Get? && Answer(cfg, Run(cfg, ops), op).Some?
    ensures Alive(cfg, Bound(cfg, ops), op.key, op.t1)
    ensures
      var m := Bound(cfg, ops + [op]);
      op.key in m && Answer(cfg, Run(cfg, ops), op).value == Entry(op.key, m[op.key].0, m[op.key].1)
  {
    EntriesCarryBindings(cfg, ops);
    ReadCarries(cfg, Run(cfg, ops), op, Bound(cfg, ops));
    BoundSnoc(cfg, ops, op);
  }

  // ------------------------------------------------- who is there

  /** The clock never runs backwards, but a Set or a Store may come late with the expiry it brings. */
  ghost predicate Forward(ops: seq<Op>) {
    ops == [] ||
    (var before, op := ops[..|ops| - 1], ops[|ops| - 1];
     && Forward(before)
     && (op.Set? || op.Store? ==> Clock(before) <= op.t2)
     && (op.Get? ==> Clock(before) <= op.t1 <= op.t2))
  }

  ghost predicate AllThere(cfg: Config, m: map<Key, (Value, int)>, l: seq<Entry>, now: int) {
    forall k :: Alive(cfg, m, k, now) ==> k in Keys(l)
  }

  lemma SweepKeeps(cfg: Config, st: State, now: int)
    ensures forall e :: e in st.entries && !(cfg.Expiring() && e.expires <= now) ==> e in Sweep(cfg, st, now).entries
  {
    var n := SweepFacts(cfg, st, now);
  }

  lemma StoreKeeps(cfg: Config, st: State, e: Entry, now: int)
    requires cfg.maxSize <= 0
    ensures
      forall x :: (x == e || (x in st.entries && x.key != e.key)) && !(cfg.Expiring() && x.expires <= now)
                  ==> x in Sweep(cfg, Stored(cfg, st, e), now).entries
  {
    TouchMembers(st.entries, e);
    SweepKeeps(cfg, Stored(cfg, st, e), now);
  }

  lemma ReadKeeps(cfg: Config, st: State, op: Op)
    requires op.Get?
    ensures
      forall x :: x in st.entries && x.key != op.key && !(cfg.Expiring() && x.expires <= op.t2)
                  ==> x in Step(cfg, st, op).entries
    ensures
      var a := Answer(cfg, st, op);
      a.Some? ==> a.value in Step(cfg, st, op).entries && op.key in Keys(Step(cfg, st, op).entries)
  {
    var e := Lookup(st.entries, op.key);
    if e.Some? {
      TouchMembers(st.entries, Refreshed(cfg, e.value, op.t2));
      if Stale(cfg, st, op) {
        WithoutMembers(st.entries, op.key);
        SweepKeeps(cfg, Removed(st, e.value), op.t2);
      }
    }
  }

  lemma InKeys(l: seq<Entry>, e: Entry)
    requires e in l
    ensures e.key in Keys(l)
  {
  }

  /** A write leaves all that is alive at its second clock reading. */
  lemma StoreThere(cfg: Config, st: State, e: Entry, before: int, now: int, m: map<Key, (Value, int)>)
    requires cfg.maxSize <= 0 && Carries(m, st.entries) && AllThere(cfg, m, st.entries, before)
    requires cfg.Expiring() ==> before <= now
    ensures AllThere(cfg, m[e.key := (e.value, e.expires)], Sweep(cfg, Stored(cfg, st, e), now).entries, now)
  {
    StoreKeeps(cfg, st, e, now);
    var l, m' := Sweep(cfg, Stored(cfg, st, e), now).entries, m[e.key := (e.value, e.expires)];
    hide Sweep, Stored;
    forall k | Alive(cfg, m', k, now)
      ensures k in Keys(l)
    {
      if k == e.key {
        InKeys(l, e);
      } else {
        assert Alive(cfg, m, k, before);
        var x :| x in st.entries && x.key == k;
        InKeys(l, x);
      }
    }
  }

  lemma ReadThere(cfg: Config, st: State, op: Op, before: int, m: map<Key, (Value, int)>)
    requires op.Get? && Carries(m, st.entries) && AllThere(cfg, m, st.entries, before)
    requires cfg.Expiring() ==> before <= op.t1 <= op.t2
    ensures AllThere(cfg, Rebound(cfg, m, op), Step(cfg, st, op).entries, op.t2)
  {
    ReadKeeps(cfg, st, op);
    var l, m' := Step(cfg, st, op).entries, Rebound(cfg, m, op);
    forall k | Alive(cfg, m', k, op.t2)
      ensures k in Keys(l)
    {
      assert Alive(cfg, m, k, before);
      var x :| x in st.entries && x.key == k;
      if k == op.key {
        assert Answer(cfg, st, op).Some?;
        InKeys(l, Answer(cfg, st, op).value);
      } else {
        InKeys(l, x);
      }
    }
  }

  /** Without a size limit every key that is alive is there. */
  lemma {:induction false} AliveIsPresent(cfg: Config, ops: seq<Op>)
    requires cfg.maxSize <= 0 && (cfg.Expiring() ==> Forward(ops))
    ensures AllThere(cfg, Bound(cfg, ops), Run(cfg, ops).entries, Clock(ops))
  {
    if ops != [] {
      var before, op := ops[..|ops| - 1], ops[|ops| - 1];
      var st, m, now := Run(cfg, before), Bound(cfg, before), Clock(before);
      AliveIsPresent(cfg, before);
      EntriesCarryBindings(cfg, before);
      assert ops == before + [op];
      BoundSnoc(cfg, before, op);
      hide Bound, Sweep, Stored, AllThere, Carries;
      match op
      case Set(k, v, t1, t2) => StoreThere(cfg, st, Entry(k, v, SetExpiry(cfg, t1)), now, t2, m);
      case Store(k, v, x, t2) => StoreThere(cfg, st, Entry(k, v, x), now, t2, m);
      case Get(k, t1, t2) => ReadThere(cfg, st, op, now, m);
      case Exist(k) =>
      case Delete(k) => DeleteThere(cfg, st, k, now, m);
    }
  }

  lemma DeleteThere(cfg: Config, st: State, k: Key, now: int, m: map<Key, (Value, int)>)
    requires AllThere(cfg, m, st.entries, now)
    ensures AllThere(cfg, m - {k}, Step(cfg, st, Op.Delete(k)).entries, now)
  {
    var l := Step(cfg, st, Op.Delete(k)).entries;
    WithoutMembers(st.entries, k);
    forall j | Alive(cfg, m - {k}, j, now)
      ensures j in Keys(l)
    {
      assert Alive(cfg, m, j, now);
      var x :| x in st.entries && x.key == j;
      InKeys(l, x);
    }
  }

  /** So without a size limit a Get hits if and only if its key is bound and alive, expiring or not. */
  lemma HitExactly(cfg: Config, ops: seq<Op>, op: Op)
    requires cfg.maxSize <= 0 && op.Get? && (cfg.Expiring() ==> Forward(ops) && Clock(ops) <= op.t1)
    ensures Answer(cfg, Run(cfg, ops), op).Some? <==> Alive(cfg, Bound(cfg, ops), op.key, op.t1)
  {
    AliveIsPresent(cfg, ops);
    EntriesCarryBindings(cfg, ops);
    ReadCarries(cfg, Run(cfg, ops), op, Bound(cfg, ops));
    if Alive(cfg, Bound(cfg, ops), op.key, op.t1) {
      assert Alive(cfg, Bound(cfg, ops), op.key, Clock(ops));
    }
  }

  // ------------------------------------------------- what is lost

  /** The reasons for which an operation may take an entry out of the list. */
  ghost predicate MayLose(cfg: Config, st: State, op: Op, e: Entry) {
    var expired := cfg.Expiring() && (op.Set? || op.Store? || op.Get?) && e.expires <= op.t2;
    match op
    case Delete(k) => e.key == k
    case Exist(_) => false
    case Get(k, t1, _) => expired || (cfg.Expiring() && e.key == k && e.expires <= t1)
    case Set(k, _, t1, t2) => (if e.key == k then cfg.Expiring() && t1 + cfg.maxAge <= t2 else expired)
                              || (Overflows(cfg, st, op) && e == st.entries[0])
    case Store(k, _, x, t2) => (if e.key == k then cfg.Expiring() && x <= t2 else expired)
                               || (Overflows(cfg, st, op) && e == st.entries[0])
  }

  lemma StoreLoses(cfg: Config, st: State, e: Entry, now: int, x: Entry)
    requires Distinct(st.entries) && x in st.entries && x.key !in Keys(Sweep(cfg, Stored(cfg, st, e), now).entries)
    requires cfg.maxSize > 0 ==> |st.entries| <= cfg.maxSize
    ensures
      || (cfg.Expiring() && (if x.key == e.key then e.expires else x.expires) <= now)
      || (e.key !in Keys(st.entries) && cfg.maxSize > 0 && |st.entries| == cfg.maxSize && x == st.entries[0])
  {
    var t, stored := Touch(st.entries, e), Stored(cfg, st, e);
    TouchMembers(st.entries, e);
    TouchFacts(st.entries, e);
    SweepKeeps(cfg, stored, now);
    var y := if x.key == e.key then e else x;
    assert y in t;
    if y in stored.entries {
      if !(cfg.Expiring() && y.expires <= now) {
        InKeys(Sweep(cfg, stored, now).entries, y);
      }
    } else {
      assert stored.entries == t[1..] && t[0] == y && t == [t[0]] + t[1..];
      WithoutAbsent(st.entries, e.key);
    }
  }

  /** An entry leaves the list only by Delete, when it has expired, or as the front of a full list. */
  lemma LossesExplained(cfg: Config, ops: seq<Op>, op: Op, e: Entry)
    requires e in Run(cfg, ops).entries && e.key !in Keys(Run(cfg, ops + [op]).entries)
    ensures MayLose(cfg, Run(cfg, ops), op, e)
  {
    var st := Run(cfg, ops);
    RunAppend(cfg, ops, op);
    HistoryWellFormed(cfg, ops);
    hide Run, Sweep, Stored;
    match op
    case Set(k, v, t1, t2) => StoreLoses(cfg, st, Entry(k, v, SetExpiry(cfg, t1)), t2, e);
    case Store(k, v, x, t2) => StoreLoses(cfg, st, Entry(k, v, x), t2, e);
    case Get(k, t1, t2) => ReadLoses(cfg, st, op, e);
    case Exist(k) => InKeys(st.entries, e);
    case Delete(k) =>
      WithoutMembers(st.entries, k);
  }

  lemma ReadLoses(cfg: Config, st: State, op: Op, e: Entry)
    requires Distinct(st.entries) && op.Get? && e in st.entries && e.key !in Keys(Step(cfg, st, op).entries)
    ensures MayLose(cfg, st, op, e)
  {
    ReadKeeps(cfg, st, op);
    var found := Lookup(st.entries, op.key);
    var l := Step(cfg, st, op).entries;
    hide Step;
    if e.key != op.key {
      if !(cfg.Expiring() && e.expires <= op.t2) {
        InKeys(l, e);
      }
    } else {
      assert found.Some? && found.value == e;
    }
  }

  /** The operation ends in a sweep: it writes, or it reads a key that has expired. */
  ghost predicate MustSweep(st: State, op: Op) {
    op.Set? || op.Store? || (op.Get? && exists e :: e in st.entries && e.key == op.key && e.expires <= op.t1)
  }

  /**
    A sweep leaves no expired entry at the front, so it takes all that stand before the first unexpired
    one; and a read that meets an expired entry takes that one, wherever it stands.
  */
  lemma FrontIsFresh(cfg: Config, ops: seq<Op>, op: Op)
    requires cfg.Expiring() && MustSweep(Run(cfg, ops), op)
    ensures
      var l := Run(cfg, ops + [op]).entries;
      (l != [] ==> l[0].expires > op.t2) && (op.Get? ==> op.key !in Keys(l))
  {
    var st := Run(cfg, ops);
    RunAppend(cfg, ops, op);
    HistoryWellFormed(cfg, ops);
    match op
    case Set(k, v, t1, t2) => var n := SweepFacts(cfg, Stored(cfg, st, Entry(k, v, SetExpiry(cfg, t1))), t2);
    case Store(k, v, x, t2) => var n := SweepFacts(cfg, Stored(cfg, st, Entry(k, v, x)), t2);
    case Get(k, t1, t2) =>
      var e :| e in st.entries && e.key == op.key && e.expires <= op.t1;
      assert Lookup(st.entries, k) == Some(e);
      WithoutMembers(st.entries, k);
      var n := SweepFacts(cfg, Removed(st, e), t2);
  }

  lemma NewestStays(cfg: Config, st: State, e: Entry, now: int)
    requires Distinct(st.entries) && !(cfg.Expiring() && e.expires <= now)
    ensures var l := Sweep(cfg, Stored(cfg, st, e), now).entries; l != [] && l[|l| - 1] == e
  {
    var stored := Stored(cfg, st, e);
    TouchFacts(st.entries, e);
    assert stored.entries[|stored.entries| - 1] == e;
    var n := SweepFacts(cfg, stored, now);
  }

  /** What a write stores, unless it expires at once, and what a read answers is the last of the list. */
  lemma WrittenIsNewest(cfg: Config, ops: seq<Op>, op: Op)
    requires op.Set? || op.Store? || (op.Get? && Answer(cfg, Run(cfg, ops), op).Some?)
    requires !op.Get? ==> Alive(cfg, Bound(cfg, ops + [op]), op.key, op.t2)
    ensures
      var l, b := Run(cfg, ops + [op]).entries, Bound(cfg, ops + [op]);
      l != [] && op.key in b && l[|l| - 1] == Entry(op.key, b[op.key].0, b[op.key].1)
  {
    var st := Run(cfg, ops);
    RunAppend(cfg, ops, op);
    BoundSnoc(cfg, ops, op);
    HistoryWellFormed(cfg, ops);
    match op
    case Set(k, v, t1, t2) => NewestStays(cfg, st, Entry(k, v, SetExpiry(cfg, t1)), t2);
    case Store(k, v, x, t2) => NewestStays(cfg, st, Entry(k, v, x), t2);
    case Get(k, t1, t2) => AnswerCarries(cfg, ops, op);
  }

  /** What is handed on is what the key was bound to; a write that expires at once hands on what it wrote. */
  ghost predicate HandsOn(m: map<Key, (Value, int)>, op: Op, c: (Key, Value)) {
    if (op.Set? || op.Store?) && c.0 == op.key then c.1 == op.value else c.0 in m && c.1 == m[c.0].0
  }

  lemma {:induction false} SweepHands(cfg: Config, st: State, now: int)
    ensures st.dropped <= Sweep(cfg, st, now).dropped
    ensures forall i :: |st.dropped| <= i < |Sweep(cfg, st, now).dropped| ==>
              exists e :: e in st.entries && Sweep(cfg, st, now).dropped[i] == (e.key, e.value)
    decreases |st.entries|
  {
    if cfg.Expiring() && st.entries != [] && st.entries[0].expires <= now {
      var d := DropFront(st);
      SweepHands(cfg, d, now);
      var after := Sweep(cfg, d, now).dropped;
      forall i | |st.dropped| <= i < |after|
        ensures exists e :: e in st.entries && after[i] == (e.key, e.value)
      {
        if i == |st.dropped| {
          assert st.entries[0] in st.entries && after[i] == d.dropped[i];
        } else {
          var e :| e in d.entries && after[i] == (e.key, e.value);
          assert e in st.entries;
        }
      }
    }
  }

  lemma HandedOn(cfg: Config, ops: seq<Op>, op: Op)
    ensures
      var before, after := Run(cfg, ops).dropped, Run(cfg, ops + [op]).dropped;
      before <= after && forall i :: |before| <= i < |after| ==> HandsOn(Bound(cfg, ops), op, after[i])
  {
    var st := Run(cfg, ops);
    RunAppend(cfg, ops, op);
    EntriesCarryBindings(cfg, ops);
    hide Run, Sweep, Bound;
    match op
    case Set(k, v, t1, t2) => StoreHands(cfg, st, Entry(k, v, SetExpiry(cfg, t1)), t2, op, Bound(cfg, ops));
    case Store(k, v, x, t2) => StoreHands(cfg, st, Entry(k, v, x), t2, op, Bound(cfg, ops));
    case Get(k, t1, t2) =>
      var e := Lookup(st.entries, k);
      if e.Some? && Stale(cfg, st, op) {
        WithoutMembers(st.entries, k);
        SweepHands(cfg, Removed(st, e.value), t2);
      }
    case Exist(k) =>
    case Delete(k) =>
  }

  lemma StoreHands(cfg: Config, st: State, e: Entry, now: int, op: Op, m: map<Key, (Value, int)>)
    requires (op.Set? || op.Store?) && op.key == e.key && op.value == e.value && Carries(m, st.entries)
    ensures
      var after := Sweep(cfg, Stored(cfg, st, e), now).dropped;
      st.dropped <= after && forall i :: |st.dropped| <= i < |after| ==> HandsOn(m, op, after[i])
  {
    var stored := Stored(cfg, st, e);
    var t := Touch(st.entries, e);
    TouchMembers(st.entries, e);
    SweepHands(cfg, stored, now);
    assert forall x :: x in stored.entries ==> x in t;
    assert t[0] in t;
    forall x | x in t ensures HandsOn(m, op, (x.key, x.value)) {
    }
    var after := Sweep(cfg, stored, now).dropped;
    hide Sweep;
    forall i | |st.dropped| <= i < |after|
      ensures HandsOn(m, op, after[i])
    {
      if i < |stored.dropped| {
        assert after[i] == stored.dropped[i] == (t[0].key, t[0].value);
      } else {
        var x :| x in stored.entries && after[i] == (x.key, x.value);
      }
    }
  }
}
