/**
  The inclusion property of the cache when nothing expires. Two caches of different capacity, driven
  by the same operations, stay in step: the smaller list is the larger one with some entries left
  out. So a hit in a bounded cache is always the answer an ordinary map would give.
*/
module InclusionLaws {
  import opened Options
  import opened Recency

  /** The entries of `l` under the keys of `s`, in the order of `l`. */
  function Keep(l: seq<Entry>, s: set<Key>): seq<Entry> {
    if l == [] then []
    else if l[0].key in s then [l[0]] + Keep(l[1..], s)
    else Keep(l[1..], s)
  }

  ghost predicate Included(small: seq<Entry>, big: seq<Entry>) {
    small == Keep(big, Keys(small))
  }

  lemma {:induction false} KeepAppend(l: seq<Entry>, e: Entry, s: set<Key>)
    ensures Keep(l + [e], s) == Keep(l, s) + if e.key in s then [e] else []
  {
    if l == [] {
      assert [e][1..] == [];
    } else {
      assert (l + [e])[1..] == l[1..] + [e];
      KeepAppend(l[1..], e, s);
    }
  }

  lemma {:induction false} KeepWithout(l: seq<Entry>, s: set<Key>, k: Key)
    ensures Keep(Without(l, k), s) == Without(Keep(l, s), k)
  {
    if l != [] {
      KeepWithout(l[1..], s, k);
      assert ([l[0]] + Without(l[1..], k))[1..] == Without(l[1..], k);
      assert ([l[0]] + Keep(l[1..], s))[1..] == Keep(l[1..], s);
    }
  }

  /** Only the part of the key set that occurs in the list matters. */
  lemma {:induction false} KeepSame(l: seq<Entry>, s: set<Key>, s': set<Key>)
    requires forall e :: e in l ==> (e.key in s <==> e.key in s')
    ensures Keep(l, s) == Keep(l, s')
  {
    if l != [] {
      assert l[0] in l;
      KeepSame(l[1..], s, s');
    }
  }

  lemma {:induction false} KeepMembers(l: seq<Entry>, s: set<Key>)
    ensures forall e :: e in Keep(l, s) <==> e in l && e.key in s
  {
    if l != [] {
      assert l == [l[0]] + l[1..];
      KeepMembers(l[1..], s);
    }
  }

  lemma {:induction false} LookupKeep(l: seq<Entry>, s: set<Key>, k: Key)
    requires k in s
    ensures Lookup(Keep(l, s), k) == Lookup(l, k)
  {
    if l != [] {
      LookupKeep(l[1..], s, k);
      assert ([l[0]] + Keep(l[1..], s))[1..] == Keep(l[1..], s);
    }
  }

  // ------------------------------------------------- what each kind of change preserves

  lemma IncludedKeys(small: seq<Entry>, big: seq<Entry>)
    requires Included(small, big)
    ensures Keys(small) <= Keys(big)
    ensures forall k :: k in Keys(small) ==> Lookup(small, k) == Lookup(big, k)
  {
    KeepMembers(big, Keys(small));
    forall k | k in Keys(small) ensures k in Keys(big) && Lookup(small, k) == Lookup(big, k) {
      LookupKeep(big, Keys(small), k);
    }
  }

  lemma IncludedWithout(small: seq<Entry>, big: seq<Entry>, k: Key)
    requires Included(small, big) && Distinct(small) && Distinct(big)
    ensures Included(Without(small, k), Without(big, k))
  {
    WithoutFacts(small, k);
    KeepWithout(big, Keys(small), k);
    WithoutMembers(big, k);
    KeepSame(Without(big, k), Keys(small), Keys(small) - {k});
  }

  lemma IncludedTouch(small: seq<Entry>, big: seq<Entry>, e: Entry)
    requires Included(small, big) && Distinct(small) && Distinct(big)
    ensures Included(Touch(small, e), Touch(big, e))
  {
    var s', b' := Without(small, e.key), Without(big, e.key);
    IncludedWithout(small, big, e.key);
    TouchFacts(small, e);
    WithoutFacts(small, e.key);
    KeepAppend(b', e, Keys(small) + {e.key});
    WithoutMembers(big, e.key);
    KeepSame(b', Keys(small) + {e.key}, Keys(s'));
  }

  /** Touching a key the smaller cache does not hold. */
  lemma IncludedTouchBig(small: seq<Entry>, big: seq<Entry>, e: Entry)
    requires Included(small, big) && Distinct(small) && Distinct(big)
    requires e.key !in Keys(small)
    ensures Included(small, Touch(big, e))
  {
    IncludedWithout(small, big, e.key);
    WithoutAbsent(small, e.key);
    KeepAppend(Without(big, e.key), e, Keys(small));
  }

  lemma IncludedDropSmall(small: seq<Entry>, big: seq<Entry>)
    requires Included(small, big) && Distinct(small) && small != []
    ensures Included(small[1..], big)
  {
    var k := small[0].key;
    DistinctTail(small);
    WithoutAbsent(small[1..], k);
    assert Without(small, k) == small[1..];
    KeepWithout(big, Keys(small), k);
    KeepMinus(big, Keys(small), k);
  }

  lemma {:induction false} KeepMinus(l: seq<Entry>, s: set<Key>, k: Key)
    ensures Keep(l, s - {k}) == Without(Keep(l, s), k)
  {
    if l != [] {
      KeepMinus(l[1..], s, k);
      assert ([l[0]] + Keep(l[1..], s))[1..] == Keep(l[1..], s);
    }
  }

  /** When both lists lose their front entry. */
  lemma IncludedDropBoth(small: seq<Entry>, big: seq<Entry>)
    requires Included(small, big) && Distinct(small) && small != [] && big != []
    ensures Included(small[1..], big[1..])
  {
    IncludedDropSmall(small, big);
    DistinctTail(small);
    if big[0].key in Keys(small) {
      assert small[0] == big[0];
    }
    assert big[0].key !in Keys(small[1..]);
  }

  // ------------------------------------------------- two caches in lock step

  /** The same cache options with another capacity; a capacity of 0 or less means no limit. */
  function Sized(cfg: Config, size: int): Config {
    cfg.(maxSize := size)
  }

  predicate AtMost(m: int, n: int) {
    m > 0 && (n <= 0 || m <= n)
  }

  ghost predicate InStep(m: int, n: int, small: State, big: State) {
    && Included(small.entries, big.entries)
    && |small.entries| <= |big.entries|
    && (n > 0 ==> |big.entries| - |small.entries| <= n - m)
  }

  lemma StoredInStep(cfg: Config, m: int, n: int, small: State, big: State, e: Entry)
    requires AtMost(m, n) && InStep(m, n, small, big)
    requires WellFormed(Sized(cfg, m), small) && WellFormed(Sized(cfg, n), big)
    ensures InStep(m, n, Stored(Sized(cfg, m), small, e), Stored(Sized(cfg, n), big, e))
  {
    var s', b' := Touch(small.entries, e), Touch(big.entries, e);
    IncludedTouch(small.entries, big.entries, e);
    IncludedKeys(small.entries, big.entries);
    TouchFacts(small.entries, e);
    TouchFacts(big.entries, e);
    KeepLength(big.entries, Keys(small.entries), e.key);
    if e.key !in Keys(small.entries) && |small.entries| == m {
      IncludedDropSmall(s', b');
      if e.key !in Keys(big.entries) && |b'| > n > 0 {
        IncludedDropBoth(s', b');
      }
    }
  }

  /** What keeping some entries leaves is no longer than the list, and shorter if a key is lost. */
  lemma {:induction false} KeepLength(l: seq<Entry>, s: set<Key>, k: Key)
    ensures |Keep(l, s)| <= |l|
    ensures k in Keys(l) && k !in s ==> |Keep(l, s)| < |l|
  {
    if l != [] {
      assert l == [l[0]] + l[1..];
      KeepLength(l[1..], s, k);
    }
  }

  lemma RemovedInStep(m: int, n: int, small: seq<Entry>, big: seq<Entry>, k: Key)
    requires AtMost(m, n) && Distinct(small) && Distinct(big)
    requires InStep(m, n, State(small, []), State(big, []))
    ensures InStep(m, n, State(Without(small, k), []), State(Without(big, k), []))
  {
    IncludedWithout(small, big, k);
    IncludedKeys(small, big);
    WithoutFacts(small, k);
    WithoutFacts(big, k);
    KeepLength(Without(big, k), Keys(Without(small, k)), k);
  }

  /** A Get when nothing expires: a hit is refreshed and moved to the back. */
  lemma ReadStep(cfg: Config, st: State, op: Op)
    requires !cfg.Expiring() && op.Get?
    ensures
      var e := Lookup(st.entries, op.key);
      && Answer(cfg, st, op) == (if e.Some? then Some(Refreshed(cfg, e.value, op.t2)) else None)
      && Step(cfg, st, op) ==
           if e.Some? then State(Touch(st.entries, Refreshed(cfg, e.value, op.t2)), st.dropped) else st
  {
  }

  lemma TouchInStep(m: int, n: int, small: State, big: State, r: Entry)
    requires AtMost(m, n) && InStep(m, n, small, big) && Distinct(small.entries) && Distinct(big.entries)
    requires r.key in Keys(big.entries)
    ensures
      var big' := State(Touch(big.entries, r), big.dropped);
      && InStep(m, n, if r.key in Keys(small.entries) then State(Touch(small.entries, r), small.dropped) else small, big')
  {
    hide Included, Touch;
    TouchFacts(small.entries, r);
    TouchFacts(big.entries, r);
    if r.key in Keys(small.entries) {
      IncludedTouch(small.entries, big.entries, r);
    } else {
      IncludedTouchBig(small.entries, big.entries, r);
    }
  }

  lemma ReadInStep(cfg: Config, m: int, n: int, small: State, big: State, op: Op)
    requires !cfg.Expiring() && AtMost(m, n) && InStep(m, n, small, big)
    requires WellFormed(Sized(cfg, m), small) && WellFormed(Sized(cfg, n), big)
    requires op.Get?
    ensures InStep(m, n, Step(Sized(cfg, m), small, op), Step(Sized(cfg, n), big, op))
    ensures Answer(Sized(cfg, m), small, op).Some? ==> Answer(Sized(cfg, m), small, op) == Answer(Sized(cfg, n), big, op)
  {
    IncludedKeys(small.entries, big.entries);
    ReadStep(Sized(cfg, m), small, op);
    ReadStep(Sized(cfg, n), big, op);
    hide InStep, Step, Answer, Touch, Keys, Included;
    var e := Lookup(big.entries, op.key);
    if e.Some? {
      TouchInStep(m, n, small, big, Refreshed(cfg, e.value, op.t2));
    }
  }

  lemma StepInStep(cfg: Config, m: int, n: int, small: State, big: State, op: Op)
    requires !cfg.Expiring() && AtMost(m, n) && InStep(m, n, small, big)
    requires WellFormed(Sized(cfg, m), small) && WellFormed(Sized(cfg, n), big)
    ensures InStep(m, n, Step(Sized(cfg, m), small, op), Step(Sized(cfg, n), big, op))
  {
    match op
    case Set(k, v, t1, t2) => StoredInStep(cfg, m, n, small, big, Entry(k, v, SetExpiry(cfg, t1)));
    case Store(k, v, x, t2) => StoredInStep(cfg, m, n, small, big, Entry(k, v, x));
    case Get(k, t1, t2) => ReadInStep(cfg, m, n, small, big, op);
    case Exist(k) =>
    case Delete(k) =>
      IncludedKeys(small.entries, big.entries);
      WithoutAbsent'(small.entries, k);
      RemovedInStep(m, n, small.entries, big.entries, k);
  }

  lemma WithoutAbsent'(l: seq<Entry>, k: Key)
    ensures k !in Keys(l) ==> Without(l, k) == l
  {
    if k !in Keys(l) {
      WithoutAbsent(l, k);
    }
  }

  /**
    Inclusion, over every history: the list of the smaller cache is the list of the larger one with
    at most n - m entries left out, with equal values and in the same order.
  */
  lemma {:induction false} Inclusion(cfg: Config, m: int, n: int, ops: seq<Op>)
    requires !cfg.Expiring() && AtMost(m, n)
    ensures InStep(m, n, Run(Sized(cfg, m), ops), Run(Sized(cfg, n), ops))
  {
    if ops != [] {
      var before := ops[..|ops| - 1];
      Inclusion(cfg, m, n, before);
      HistoryWellFormed(Sized(cfg, m), before);
      HistoryWellFormed(Sized(cfg, n), before);
      StepInStep(cfg, m, n, Run(Sized(cfg, m), before), Run(Sized(cfg, n), before), ops[|ops| - 1]);
    }
  }

  /** A hit in the smaller cache is a hit, with the same entry, in the larger one. */
  lemma HitsAgree(cfg: Config, m: int, n: int, ops: seq<Op>, op: Op)
    requires !cfg.Expiring() && AtMost(m, n) && op.Get?
    ensures var a := Answer(Sized(cfg, m), Run(Sized(cfg, m), ops), op);
      a.Some? ==> a == Answer(Sized(cfg, n), Run(Sized(cfg, n), ops), op)
  {
    Inclusion(cfg, m, n, ops);
    HistoryWellFormed(Sized(cfg, m), ops);
    HistoryWellFormed(Sized(cfg, n), ops);
    ReadInStep(cfg, m, n, Run(Sized(cfg, m), ops), Run(Sized(cfg, n), ops), op);
  }

  // ------------------------------------------------- the cache and an ordinary map

  function MapAfter(ops: seq<Op>): map<Key, Value> {
    if ops == [] then map[]
    else
      var m := MapAfter(ops[..|ops| - 1]);
      match ops[|ops| - 1]
      case Set(k, v, _, _) => m[k := v]
      case Store(k, v, _, _) => m[k := v]
      case Delete(k) => m - {k}
      case _ => m
  }

  lemma {:induction false} LookupTouch(l: seq<Entry>, e: Entry, k: Key)
    ensures Lookup(Touch(l, e), k) == if k == e.key then Some(e) else Lookup(l, k)
  {
    if l == [] {
      assert [e][1..] == [];
    } else {
      LookupTouch(l[1..], e, k);
      assert l[0].key != e.key ==> Touch(l, e)[1..] == Touch(l[1..], e);
    }
  }

  lemma {:induction false} LookupWithout(l: seq<Entry>, x: Key, k: Key)
    ensures Lookup(Without(l, x), k) == if k == x then None else Lookup(l, k)
  {
    if l != [] {
      LookupWithout(l[1..], x, k);
      assert ([l[0]] + Without(l[1..], x))[1..] == Without(l[1..], x);
    }
  }

  /** `k` is bound in the list exactly as it is in the map. */
  ghost predicate Agrees(l: seq<Entry>, m: map<Key, Value>, k: Key) {
    var e := Lookup(l, k);
    (e.Some? <==> k in m) && (e.Some? ==> e.value.value == m[k])
  }

  /** A cache without size limit in which nothing expires is an ordinary map. */
  lemma {:induction false} UnboundedIsMap(cfg: Config, ops: seq<Op>, k: Key)
    requires !cfg.Expiring()
    ensures Agrees(Run(Sized(cfg, 0), ops).entries, MapAfter(ops), k)
  {
    if ops != [] {
      var c := Sized(cfg, 0);
      var before, op := ops[..|ops| - 1], ops[|ops| - 1];
      var st := Run(c, before);
      UnboundedIsMap(cfg, before, k);
      match op
      case Set(x, v, t1, t2) => LookupTouch(st.entries, Entry(x, v, SetExpiry(c, t1)), k);
      case Store(x, v, t, t2) => LookupTouch(st.entries, Entry(x, v, t), k);
      case Get(x, t1, t2) =>
        var e := Lookup(st.entries, x);
        if e.Some? {
          LookupTouch(st.entries, Refreshed(c, e.value, t2), k);
        }
      case Exist(x) =>
      case Delete(x) =>
        LookupWithout(st.entries, x, k);
        WithoutAbsent'(st.entries, x);
    }
  }

  /** Whatever its capacity, a cache in which nothing expires answers a Get as the map does, or misses. */
  lemma BoundedAnswersAreMapAnswers(cfg: Config, ops: seq<Op>, op: Op)
    requires !cfg.Expiring() && op.Get?
    ensures var a := Answer(cfg, Run(cfg, ops), op);
      a.Some? ==> op.key in MapAfter(ops) && a.value.value == MapAfter(ops)[op.key]
  {
    UnboundedIsMap(cfg, ops, op.key);
    if cfg.maxSize > 0 {
      assert Sized(cfg, cfg.maxSize) == cfg;
      HitsAgree(cfg, cfg.maxSize, 0, ops, op);
    } else {
      SizeIrrelevant(cfg, ops);
    }
  }

  lemma {:induction false} SizeIrrelevant(cfg: Config, ops: seq<Op>)
    requires cfg.maxSize <= 0
    ensures Run(cfg, ops) == Run(Sized(cfg, 0), ops)
  {
    if ops != [] {
      SizeIrrelevant(cfg, ops[..|ops| - 1]);
      SweepSizeIrrelevant(cfg, Run(cfg, ops[..|ops| - 1]), ops[|ops| - 1]);
    }
  }

  lemma SweepSizeIrrelevant(cfg: Config, st: State, op: Op)
    requires cfg.maxSize <= 0
    ensures Step(cfg, st, op) == Step(Sized(cfg, 0), st, op)
  {
    forall s, now ensures Sweep(cfg, s, now) == Sweep(Sized(cfg, 0), s, now) {
      SweepSame(cfg, s, now);
    }
  }

  lemma {:induction false} SweepSame(cfg: Config, st: State, now: int)
    ensures Sweep(cfg, st, now) == Sweep(Sized(cfg, 0), st, now)
    decreases |st.entries|
  {
    if cfg.Expiring() && st.entries != [] && st.entries[0].expires <= now {
      SweepSame(cfg, DropFront(st), now);
    }
  }

  // ------------------------------------------------- when the bound is never felt

  /** At no point of the history does the map outgrow the capacity. */
  ghost predicate Fits(size: int, ops: seq<Op>) {
    forall i :: 0 <= i <= |ops| ==> |MapAfter(ops[..i])| <= size
  }

  ghost predicate NeverTruncated(cfg: Config, ops: seq<Op>) {
    forall i :: 0 <= i <= |ops| ==> Run(cfg, ops[..i]) == Run(Sized(cfg, 0), ops[..i])
  }

  lemma {:induction false} DistinctLength(l: seq<Entry>)
    requires Distinct(l)
    ensures |Keys(l)| == |l|
  {
    if l != [] {
      DistinctTail(l);
      DistinctLength(l[1..]);
    }
  }

  lemma UnboundedLength(cfg: Config, ops: seq<Op>)
    requires !cfg.Expiring()
    ensures |Run(Sized(cfg, 0), ops).entries| == |MapAfter(ops)|
  {
    var l := Run(Sized(cfg, 0), ops).entries;
    HistoryWellFormed(Sized(cfg, 0), ops);
    DistinctLength(l);
    forall k ensures k in Keys(l) <==> k in MapAfter(ops).Keys {
      UnboundedIsMap(cfg, ops, k);
    }
    assert Keys(l) == MapAfter(ops).Keys;
  }

  /** A bounded cache behaves as an unbounded one throughout a history if and only if the map always fits. */
  lemma TruncatedExactlyWhenFull(cfg: Config, ops: seq<Op>)
    requires !cfg.Expiring() && cfg.maxSize > 0
    ensures NeverTruncated(cfg, ops) <==> Fits(cfg.maxSize, ops)
  {
    if NeverTruncated(cfg, ops) {
      forall i | 0 <= i <= |ops| ensures |MapAfter(ops[..i])| <= cfg.maxSize {
        HistoryWellFormed(cfg, ops[..i]);
        UnboundedLength(cfg, ops[..i]);
      }
    }
    if Fits(cfg.maxSize, ops) {
      forall i | 0 <= i <= |ops| ensures Run(cfg, ops[..i]) == Run(Sized(cfg, 0), ops[..i]) {
        FitsRun(cfg, ops, i);
      }
    }
  }

  lemma {:induction false} FitsRun(cfg: Config, ops: seq<Op>, i: nat)
    requires !cfg.Expiring() && cfg.maxSize > 0 && i <= |ops| && Fits(cfg.maxSize, ops)
    ensures Run(cfg, ops[..i]) == Run(Sized(cfg, 0), ops[..i])
  {
    if i > 0 {
      FitsRun(cfg, ops, i - 1);
      assert ops[..i][..i - 1] == ops[..i - 1];
      UnboundedLength(cfg, ops[..i]);
      HistoryWellFormed(cfg, ops[..i - 1]);
      FitsStep(cfg, Run(cfg, ops[..i - 1]), ops[i - 1]);
    }
  }

  lemma FitsStep(cfg: Config, st: State, op: Op)
    requires !cfg.Expiring() && cfg.maxSize > 0 && Distinct(st.entries)
    requires |Step(Sized(cfg, 0), st, op).entries| <= cfg.maxSize
    ensures Step(cfg, st, op) == Step(Sized(cfg, 0), st, op)
  {
  }
}
