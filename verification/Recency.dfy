/**
  What the operations of the LRU cache compute, as functions on a recency list
  (front is the least recently touched entry), and the laws that hold over every
  history of operations. The class in LruCache.dfy is proved to follow these functions.
*/
module Recency {
  import opened Options

  type Key(==, !new)
  type Value(==, !new)

  datatype Entry = Entry(key: Key, value: Value, expires: int)

  datatype Config = Config(maxAge: int, maxSize: int, updateAgeOnGet: bool, staleReturn: bool) {
    /** Entries are dropped for their age only in this mode. */
    predicate Expiring() {
      !staleReturn && maxAge > 0
    }
  }

  /** `dropped` lists the arguments with which deleteElement hands entries to onEvict. */
  datatype State = State(entries: seq<Entry>, dropped: seq<(Key, Value)>)

  const EMPTY := State([], [])

  function Keys(l: seq<Entry>): set<Key> {
    set e | e in l :: e.key
  }

  ghost predicate Distinct(l: seq<Entry>) {
    forall i, j :: 0 <= i < j < |l| ==> l[i].key != l[j].key
  }

  function Without(l: seq<Entry>, k: Key): seq<Entry> {
    if l == [] then []
    else if l[0].key == k then Without(l[1..], k)
    else [l[0]] + Without(l[1..], k)
  }

  function Lookup(l: seq<Entry>, k: Key): (r: Option<Entry>)
    ensures r.Some? <==> k in Keys(l)
    ensures r.Some? ==> r.value in l && r.value.key == k
  {
    if l == [] then None
    else if l[0].key == k then assert l[0] in l; Some(l[0])
    else
      assert l == [l[0]] + l[1..];
      Lookup(l[1..], k)
  }

  function Touch(l: seq<Entry>, e: Entry): seq<Entry> {
    Without(l, e.key) + [e]
  }

  function DropFront(st: State): State
    requires st.entries != []
  {
    State(st.entries[1..], st.dropped + [(st.entries[0].key, st.entries[0].value)])
  }

  function Sweep(cfg: Config, st: State, now: int): State
    decreases |st.entries|
  {
    if cfg.Expiring() && st.entries != [] && st.entries[0].expires <= now
    then Sweep(cfg, DropFront(st), now)
    else st
  }

  /** The list before the sweep that ends every write. */
  function Stored(cfg: Config, st: State, e: Entry): State {
    var t := State(Touch(st.entries, e), st.dropped);
    if e.key !in Keys(st.entries) && cfg.maxSize > 0 && |t.entries| > cfg.maxSize then DropFront(t) else t
  }

  function Removed(st: State, e: Entry): State {
    State(Without(st.entries, e.key), st.dropped + [(e.key, e.value)])
  }

  function Refreshed(cfg: Config, e: Entry, now: int): Entry {
    if cfg.maxAge > 0 && cfg.updateAgeOnGet then e.(expires := now + cfg.maxAge) else e
  }

  /** The operations of the cache. Each clock reading an operation makes is an argument. */
  datatype Op =
    | Set(key: Key, value: Value, t1: int, t2: int)
    | Store(key: Key, value: Value, expires: int, t2: int)
    | Get(key: Key, t1: int, t2: int)
    | Exist(key: Key)
    | Delete(key: Key)

  function SetExpiry(cfg: Config, now: int): int {
    if cfg.maxAge > 0 then now + cfg.maxAge else 0
  }

  predicate Stale(cfg: Config, st: State, op: Op)
    requires op.Get?
  {
    var e := Lookup(st.entries, op.key);
    cfg.Expiring() && e.Some? && e.value.expires <= op.t1
  }

  function Step(cfg: Config, st: State, op: Op): State {
    match op
    case Set(k, v, t1, t2) => Sweep(cfg, Stored(cfg, st, Entry(k, v, SetExpiry(cfg, t1))), t2)
    case Store(k, v, x, t2) => Sweep(cfg, Stored(cfg, st, Entry(k, v, x)), t2)
    case Get(k, t1, t2) =>
      var e := Lookup(st.entries, k);
      if e.None? then st
      else if Stale(cfg, st, op) then Sweep(cfg, Removed(st, e.value), t2)
      else State(Touch(st.entries, Refreshed(cfg, e.value, t2)), st.dropped)
    case Exist(k) => st
    case Delete(k) =>
      var e := Lookup(st.entries, k);
      if e.None? then st else Removed(st, e.value)
  }

  /** The entry a Get hands back. */
  function Answer(cfg: Config, st: State, op: Op): Option<Entry>
    requires op.Get?
  {
    var e := Lookup(st.entries, op.key);
    if e.None? || Stale(cfg, st, op) then None else Some(Refreshed(cfg, e.value, op.t2))
  }

  function Run(cfg: Config, ops: seq<Op>): State {
    if ops == [] then EMPTY else Step(cfg, Run(cfg, ops[..|ops| - 1]), ops[|ops| - 1])
  }

  // ---------------------------------------------------------------- list facts

  lemma DistinctCons(e: Entry, w: seq<Entry>)
    requires Distinct(w) && e.key !in Keys(w)
    ensures Distinct([e] + w)
  {
    forall i, j | 0 <= i < j < |w| + 1 ensures ([e] + w)[i].key != ([e] + w)[j].key {
      assert w[j - 1] in w;
    }
  }

  lemma DistinctTail(l: seq<Entry>)
    requires Distinct(l) && l != []
    ensures Distinct(l[1..]) && l[0].key !in Keys(l[1..])
    ensures Keys(l) == {l[0].key} + Keys(l[1..])
  {
    assert l == [l[0]] + l[1..];
  }

  lemma {:induction false} WithoutMembers(l: seq<Entry>, k: Key)
    ensures forall e :: e in Without(l, k) <==> e in l && e.key != k
  {
    if l != [] {
      assert l == [l[0]] + l[1..];
      WithoutMembers(l[1..], k);
    }
  }

  lemma {:induction false} WithoutAbsent(l: seq<Entry>, k: Key)
    requires k !in Keys(l)
    ensures Without(l, k) == l
  {
    if l != [] {
      assert l == [l[0]] + l[1..];
      assert l[0].key in Keys(l);
      WithoutAbsent(l[1..], k);
    }
  }

  lemma {:induction false} WithoutFacts(l: seq<Entry>, k: Key)
    requires Distinct(l)
    ensures Distinct(Without(l, k))
    ensures Keys(Without(l, k)) == Keys(l) - {k}
    ensures |Without(l, k)| == |l| - (if k in Keys(l) then 1 else 0)
  {
    if l != [] {
      DistinctTail(l);
      WithoutFacts(l[1..], k);
      if l[0].key == k {
        WithoutAbsent(l[1..], k);
      } else {
        DistinctCons(l[0], Without(l[1..], k));
        assert Keys([l[0]] + Without(l[1..], k)) == {l[0].key} + Keys(Without(l[1..], k));
      }
    }
  }

  lemma TouchFacts(l: seq<Entry>, e: Entry)
    requires Distinct(l)
    ensures Distinct(Touch(l, e))
    ensures Keys(Touch(l, e)) == Keys(l) + {e.key}
    ensures |Touch(l, e)| == |l| + (if e.key in Keys(l) then 0 else 1)
  {
    WithoutFacts(l, e.key);
    var w := Without(l, e.key);
    assert e.key !in Keys(w);
    forall i | 0 <= i < |w| ensures w[i].key != e.key {
      assert w[i] in w;
    }
    assert Keys(w + [e]) == Keys(w) + {e.key};
  }

  lemma TouchMembers(l: seq<Entry>, e: Entry)
    ensures forall x :: x in Touch(l, e) <==> x == e || (x in l && x.key != e.key)
  {
    WithoutMembers(l, e.key);
  }

  /** A sweep cuts the longest prefix of expired entries off the list. */
  lemma {:induction false} SweepFacts(cfg: Config, st: State, now: int) returns (n: nat)
    ensures n <= |st.entries|
    ensures Sweep(cfg, st, now).entries == st.entries[n..]
    ensures n == |st.entries| || !cfg.Expiring() || st.entries[n].expires > now
    ensures forall i :: 0 <= i < n ==> cfg.Expiring() && st.entries[i].expires <= now
    decreases |st.entries|
  {
    if cfg.Expiring() && st.entries != [] && st.entries[0].expires <= now {
      var m := SweepFacts(cfg, DropFront(st), now);
      n := m + 1;
      assert st.entries[1..][m..] == st.entries[n..];
      forall i | 0 <= i < n ensures st.entries[i].expires <= now {
        if i > 0 {
          assert st.entries[i] == st.entries[1..][i - 1];
        }
      }
    } else {
      n := 0;
    }
  }

  /** What a sweep cuts off is handed on after what was handed on before. */
  lemma {:induction false} SweepKeepsDropped(cfg: Config, st: State, now: int)
    ensures st.dropped <= Sweep(cfg, st, now).dropped
    decreases |st.entries|
  {
    if cfg.Expiring() && st.entries != [] && st.entries[0].expires <= now {
      SweepKeepsDropped(cfg, DropFront(st), now);
    }
  }

  // ------------------------------------------------- distinct keys, bounded size

  ghost predicate WellFormed(cfg: Config, st: State) {
    && Distinct(st.entries)
    && (cfg.maxSize > 0 ==> |st.entries| <= cfg.maxSize)
  }

  lemma SweepWellFormed(cfg: Config, st: State, now: int)
    requires WellFormed(cfg, st)
    ensures WellFormed(cfg, Sweep(cfg, st, now))
  {
    var n := SweepFacts(cfg, st, now);
  }

  lemma StoreWellFormed(cfg: Config, st: State, e: Entry, now: int)
    requires WellFormed(cfg, st)
    ensures WellFormed(cfg, Sweep(cfg, Stored(cfg, st, e), now))
  {
    TouchFacts(st.entries, e);
    SweepWellFormed(cfg, Stored(cfg, st, e), now);
  }

  /** Of a key that was stored the list holds what was stored, if anything; and nothing only if that has expired. */
  lemma StoreLookup(cfg: Config, st: State, e: Entry, now: int)
    requires Distinct(st.entries)
    ensures
      var r := Lookup(Sweep(cfg, Stored(cfg, st, e), now).entries, e.key);
      (r.Some? ==> r.value == e) && (r.Some? || (cfg.Expiring() && e.expires <= now))
  {
    var stored := Stored(cfg, st, e).entries;
    TouchFacts(st.entries, e);
    WithoutMembers(st.entries, e.key);
    assert stored[|stored| - 1] == e;
    assert forall x :: x in stored && x.key == e.key ==> x == e;
    var n := SweepFacts(cfg, Stored(cfg, st, e), now);
  }

  lemma StepWellFormed(cfg: Config, st: State, op: Op)
    requires WellFormed(cfg, st)
    ensures WellFormed(cfg, Step(cfg, st, op))
  {
    match op
    case Set(k, v, t1, t2) => StoreWellFormed(cfg, st, Entry(k, v, SetExpiry(cfg, t1)), t2);
    case Store(k, v, x, t2) => StoreWellFormed(cfg, st, Entry(k, v, x), t2);
    case Get(k, t1, t2) =>
      var e := Lookup(st.entries, k);
      if e.Some? {
        WithoutFacts(st.entries, k);
        TouchFacts(st.entries, Refreshed(cfg, e.value, t2));
        SweepWellFormed(cfg, Removed(st, e.value), t2);
      }
    case Exist(k) =>
    case Delete(k) => WithoutFacts(st.entries, k);
  }

  /** Over every history the list holds each key once and never more than maxSize entries. */
  lemma {:induction false} HistoryWellFormed(cfg: Config, ops: seq<Op>)
    ensures WellFormed(cfg, Run(cfg, ops))
  {
    if ops != [] {
      HistoryWellFormed(cfg, ops[..|ops| - 1]);
      StepWellFormed(cfg, Run(cfg, ops[..|ops| - 1]), ops[|ops| - 1]);
    }
  }
}
