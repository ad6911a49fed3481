/**
  Which caches are swept clean. A sweep only looks at the front of the list, so it removes every
  expired entry as long as the list is sorted by expiry time.
*/
module ExpiryLaws {
  import opened Options
  import opened Recency

  /** Clock after a history, in seconds; the clock starts at 0. */
  function Clock(ops: seq<Op>): int {
    if ops == [] then 0
    else
      match ops[|ops| - 1]
      case Set(_, _, _, t2) => t2
      case Store(_, _, _, t2) => t2
      case Get(_, _, t2) => t2
      case _ => Clock(ops[..|ops| - 1])
  }

  /** Histories whose entries are written by Set alone, under a clock that never runs backwards. */
  ghost predicate Clocked(ops: seq<Op>) {
    ops == [] ||
    (var before, op := ops[..|ops| - 1], ops[|ops| - 1];
     && Clocked(before)
     && !op.Store?
     && (op.Set? || op.Get? ==> Clock(before) <= op.t1 <= op.t2))
  }

  /** The last operation ran a sweep: it was a Set, or a Get that met an expired entry. */
  ghost predicate EndsInSweep(cfg: Config, ops: seq<Op>) {
    ops != [] &&
    (var before, op := ops[..|ops| - 1], ops[|ops| - 1];
     op.Set? || (op.Get? && Stale(cfg, Run(cfg, before), op)))
  }

  ghost predicate AllFresh(l: seq<Entry>, now: int) {
    forall e :: e in l ==> e.expires > now
  }

  /** After a history that ends in a sweep no entry is expired. */
  ghost predicate SweptClean(cfg: Config, ops: seq<Op>) {
    EndsInSweep(cfg, ops) ==> AllFresh(Run(cfg, ops).entries, Clock(ops))
  }

  ghost predicate Sorted(l: seq<Entry>) {
    forall i, j :: 0 <= i < j < |l| ==> l[i].expires <= l[j].expires
  }

  ghost predicate Capped(l: seq<Entry>, cap: int) {
    forall e :: e in l ==> e.expires <= cap
  }

  lemma SortedSweepIsClean(cfg: Config, st: State, now: int)
    requires cfg.Expiring() && Sorted(st.entries)
    ensures AllFresh(Sweep(cfg, st, now).entries, now)
  {
    var n := SweepFacts(cfg, st, now);
  }

  lemma SortedCons(e: Entry, w: seq<Entry>)
    requires Sorted(w) && forall x :: x in w ==> e.expires <= x.expires
    ensures Sorted([e] + w)
  {
    forall i, j | 0 <= i < j < |w| + 1 ensures ([e] + w)[i].expires <= ([e] + w)[j].expires {
      assert w[j - 1] in w;
    }
  }

  lemma {:induction false} SortedWithout(l: seq<Entry>, k: Key)
    requires Sorted(l)
    ensures Sorted(Without(l, k))
  {
    if l != [] {
      SortedWithout(l[1..], k);
      if l[0].key != k {
        WithoutMembers(l[1..], k);
        SortedCons(l[0], Without(l[1..], k));
      }
    }
  }

  /** Pushing an entry that expires no earlier than any other keeps the list sorted. */
  lemma SortedTouch(l: seq<Entry>, e: Entry)
    requires Sorted(Without(l, e.key)) && Capped(l, e.expires)
    ensures Sorted(Touch(l, e))
    ensures Capped(Touch(l, e), e.expires)
  {
    WithoutMembers(l, e.key);
    var w := Without(l, e.key);
    forall i | 0 <= i < |w| ensures w[i].expires <= e.expires {
      assert w[i] in w;
    }
  }

  lemma WithoutHead(e: Entry, l: seq<Entry>)
    requires e.key !in Keys(l)
    ensures Without([e] + l, e.key) == l
  {
    assert ([e] + l)[1..] == l;
    WithoutAbsent(l, e.key);
  }

  lemma TouchNew(l: seq<Entry>, e: Entry)
    requires e.key !in Keys(l)
    ensures Touch(l, e) == l + [e]
  {
    WithoutAbsent(l, e.key);
  }

  /** The configurations under which a front-only sweep is enough. */
  predicate SweepSuffices(cfg: Config) {
    cfg.updateAgeOnGet || cfg.maxAge == 1 || cfg.maxSize == 1 || cfg.maxSize == 2
  }

  /**
    What the proof carries from one operation to the next. The list is sorted, except in a cache
    of at most two entries, where removing or re-storing either of them leaves it sorted.
  */
  ghost predicate Tidy(cfg: Config, l: seq<Entry>, clock: int) {
    && Distinct(l)
    && Capped(l, clock + cfg.maxAge)
    && (if cfg.updateAgeOnGet || cfg.maxAge == 1 then Sorted(l) else |l| <= 2)
  }

  /** Removing a key of a tidy list leaves a sorted list. */
  lemma TidyWithout(cfg: Config, l: seq<Entry>, clock: int, k: Key)
    requires Tidy(cfg, l, clock)
    requires k in Keys(l)
    ensures Sorted(Without(l, k))
    ensures Tidy(cfg, Without(l, k), clock)
  {
    WithoutFacts(l, k);
    WithoutMembers(l, k);
    if cfg.updateAgeOnGet || cfg.maxAge == 1 {
      SortedWithout(l, k);
    }
  }

  lemma TidySweep(cfg: Config, st: State, clock: int, now: int)
    requires Distinct(st.entries) && Capped(st.entries, clock + cfg.maxAge) && Sorted(st.entries)
    requires clock <= now
    requires cfg.Expiring() && SweepSuffices(cfg)
    requires cfg.maxSize > 0 ==> |st.entries| <= cfg.maxSize
    ensures Tidy(cfg, Sweep(cfg, st, now).entries, now)
    ensures AllFresh(Sweep(cfg, st, now).entries, now)
  {
    SortedSweepIsClean(cfg, st, now);
    var n := SweepFacts(cfg, st, now);
  }

  /** Any list of two entries is sorted once one of them is re-stored at the back. */
  lemma TouchSorted(cfg: Config, l: seq<Entry>, e: Entry, clock: int)
    requires Tidy(cfg, l, clock) && clock + cfg.maxAge <= e.expires
    requires cfg.updateAgeOnGet || cfg.maxAge == 1 || e.key in Keys(l) || |l| <= 1
    ensures Sorted(Touch(l, e)) && Capped(Touch(l, e), e.expires)
  {
    WithoutFacts(l, e.key);
    if cfg.updateAgeOnGet || cfg.maxAge == 1 {
      SortedWithout(l, e.key);
    }
    SortedTouch(l, e);
  }

  /** A Set leaves, before its sweep, a sorted list. */
  lemma SetSorted(cfg: Config, st: State, e: Entry, clock: int, t1: int)
    requires cfg.Expiring() && SweepSuffices(cfg) && WellFormed(cfg, st) && Tidy(cfg, st.entries, clock)
    requires clock <= t1 && e.expires == t1 + cfg.maxAge
    ensures Sorted(Stored(cfg, st, e).entries)
    ensures Distinct(Stored(cfg, st, e).entries) && Capped(Stored(cfg, st, e).entries, t1 + cfg.maxAge)
    ensures cfg.maxSize > 0 ==> |Stored(cfg, st, e).entries| <= cfg.maxSize
  {
    var l, t := st.entries, Touch(st.entries, e);
    TouchFacts(l, e);
    if cfg.updateAgeOnGet || cfg.maxAge == 1 || e.key in Keys(l) || |l| <= 1 {
      TouchSorted(cfg, l, e, clock);
    } else {
      TouchNew(l, e);
      assert Stored(cfg, st, e).entries == [l[1], e];
      assert l[1] in l;
    }
  }

  /**
    A Get that hits keeps the list tidy: it stamps the entry anew, or its seconds are so few that
    the stamp is still the largest.
  */
  lemma HitTidy(cfg: Config, st: State, op: Op, clock: int)
    requires op.Get? && cfg.Expiring() && SweepSuffices(cfg) && WellFormed(cfg, st) && Tidy(cfg, st.entries, clock)
    requires clock <= op.t1 <= op.t2
    requires Answer(cfg, st, op).Some?
    ensures Tidy(cfg, Step(cfg, st, op).entries, op.t2)
  {
    var e := Lookup(st.entries, op.key).value;
    var r := Refreshed(cfg, e, op.t2);
    TouchFacts(st.entries, r);
    TouchMembers(st.entries, r);
    assert op.key in Keys(st.entries);
    if cfg.updateAgeOnGet || cfg.maxAge == 1 {
      SortedWithout(st.entries, op.key);
      SortedTouch(st.entries, r);
    }
  }

  lemma StepTidy(cfg: Config, st: State, op: Op, clock: int)
    requires cfg.Expiring() && SweepSuffices(cfg) && WellFormed(cfg, st) && Tidy(cfg, st.entries, clock)
    requires !op.Store?
    requires op.Set? || op.Get? ==> clock <= op.t1 <= op.t2
    ensures
      var st' := Step(cfg, st, op);
      && Tidy(cfg, st'.entries, if op.Set? || op.Get? then op.t2 else clock)
      && (op.Set? || (op.Get? && Stale(cfg, st, op)) ==> AllFresh(st'.entries, op.t2))
  {
    match op
    case Set(k, v, t1, t2) =>
      var e := Entry(k, v, SetExpiry(cfg, t1));
      SetSorted(cfg, st, e, clock, t1);
      TidySweep(cfg, Stored(cfg, st, e), t1, t2);
    case Get(k, t1, t2) =>
      if Answer(cfg, st, op).Some? {
        HitTidy(cfg, st, op, clock);
      } else if Stale(cfg, st, op) {
        TidyWithout(cfg, st.entries, clock, k);
        WithoutFacts(st.entries, k);
        TidySweep(cfg, Removed(st, Lookup(st.entries, k).value), clock, t2);
      }
    case Exist(k) =>
    case Delete(k) =>
      if Lookup(st.entries, k).Some? {
        TidyWithout(cfg, st.entries, clock, k);
      }
  }

  lemma {:induction false} HistoryTidy(cfg: Config, ops: seq<Op>)
    requires cfg.Expiring() && SweepSuffices(cfg) && Clocked(ops)
    ensures Tidy(cfg, Run(cfg, ops).entries, Clock(ops))
    ensures SweptClean(cfg, ops)
  {
    if ops != [] {
      var before, op := ops[..|ops| - 1], ops[|ops| - 1];
      HistoryTidy(cfg, before);
      HistoryWellFormed(cfg, before);
      StepTidy(cfg, Run(cfg, before), op, Clock(before));
    }
  }

  // ------------------------------------------------- where the sweep falls short

  lemma RunAppend(cfg: Config, ops: seq<Op>, op: Op)
    ensures Run(cfg, ops + [op]) == Step(cfg, Run(cfg, ops), op)
  {
    assert (ops + [op])[..|ops|] == ops;
  }

  lemma ClockedAppend(ops: seq<Op>, op: Op)
    requires Clocked(ops) && !op.Store?
    requires op.Set? || op.Get? ==> Clock(ops) <= op.t1 <= op.t2
    ensures Clocked(ops + [op])
    ensures Clock(ops + [op]) == if op.Set? || op.Get? then op.t2 else Clock(ops)
  {
    assert (ops + [op])[..|ops|] == ops;
  }

  /**
    Whenever it starts: reading `a` hides it behind the younger `b`, and when a third key is stored
    maxAge seconds after the start, `a` has expired and stays.
  */
  function Hiding(a: Key, b: Key, c: Key, v: Value, s: int, age: int): seq<Op> {
    [Set(a, v, s, s), Set(b, v, s + 1, s + 1), Get(a, s + 1, s + 1), Set(c, v, s + age, s + age)]
  }

  /** Storing a new key that fits behind an unexpired front just appends it. */
  lemma StoreAppends(cfg: Config, st: State, e: Entry, now: int)
    requires e.key !in Keys(st.entries)
    requires cfg.maxSize > 0 ==> |st.entries| < cfg.maxSize
    requires (st.entries + [e])[0].expires > now
    ensures Sweep(cfg, Stored(cfg, st, e), now) == State(st.entries + [e], st.dropped)
  {
    TouchNew(st.entries, e);
  }

  lemma HidingClocked(a: Key, b: Key, c: Key, v: Value, s: int, n: int)
    requires n >= 2 && s >= 0
    ensures Clocked(Hiding(a, b, c, v, s, n)) && Clock(Hiding(a, b, c, v, s, n)) == s + n
  {
    var o1, o2, o3, o4 := Set(a, v, s, s), Set(b, v, s + 1, s + 1), Get(a, s + 1, s + 1), Set(c, v, s + n, s + n);
    ClockedAppend([], o1);
    assert [o1] == [] + [o1];
    ClockedAppend([o1], o2);
    assert [o1, o2] == [o1] + [o2];
    ClockedAppend([o1, o2], o3);
    assert [o1, o2, o3] == [o1, o2] + [o3];
    ClockedAppend([o1, o2, o3], o4);
    assert Hiding(a, b, c, v, s, n) == [o1, o2, o3] + [o4];
  }

  /** Two writes of different keys, the first of which has not expired at the second. */
  lemma TwoWrites(cfg: Config, a: Key, b: Key, v: Value, t: int, t1: int, t2: int)
    requires a != b && cfg.Expiring() && cfg.maxSize != 1 && t2 < t + cfg.maxAge
    ensures Run(cfg, [Set(a, v, t, t), Set(b, v, t1, t2)]).entries
         == [Entry(a, v, t + cfg.maxAge), Entry(b, v, t1 + cfg.maxAge)]
  {
    var ea, eb := Entry(a, v, t + cfg.maxAge), Entry(b, v, t1 + cfg.maxAge);
    var o1, o2 := Set(a, v, t, t), Set(b, v, t1, t2);
    assert Run(cfg, [o1]) == State([ea], []) by {
      RunAppend(cfg, [], o1);
      StoreAppends(cfg, EMPTY, ea, t);
      assert [] + [o1] == [o1];
    }
    RunAppend(cfg, [o1], o2);
    StoreAppends(cfg, State([ea], []), eb, t2);
    assert [o1] + [o2] == [o1, o2];
  }

  lemma HidingRead(cfg: Config, st: State, ea: Entry, eb: Entry, t: int)
    requires ea.key != eb.key && cfg.Expiring() && !cfg.updateAgeOnGet
    requires st.entries == [ea, eb] && ea.expires > t
    ensures Step(cfg, st, Get(ea.key, t, t)).entries == [eb, ea]
  {
    assert st.entries == [ea] + [eb];
    WithoutHead(ea, [eb]);
  }

  lemma HidingRun(cfg: Config, a: Key, b: Key, c: Key, v: Value, s: int)
    requires a != b && b != c && a != c
    requires cfg.Expiring() && !SweepSuffices(cfg)
    ensures var n := cfg.maxAge;
      Run(cfg, Hiding(a, b, c, v, s, n)).entries
      == [Entry(b, v, s + 1 + n), Entry(a, v, s + n), Entry(c, v, s + n + n)]
  {
    var n := cfg.maxAge;
    var ea, eb, ec := Entry(a, v, s + n), Entry(b, v, s + 1 + n), Entry(c, v, s + n + n);
    var writes := [Set(a, v, s, s), Set(b, v, s + 1, s + 1)];
    var read, last := Get(a, s + 1, s + 1), Set(c, v, s + n, s + n);
    hide Run, Sweep, Stored;
    TwoWrites(cfg, a, b, v, s, s + 1, s + 1);
    HidingRead(cfg, Run(cfg, writes), ea, eb, s + 1);
    RunAppend(cfg, writes, read);
    var st := Run(cfg, writes + [read]);
    StoreAppends(cfg, st, ec, s + n);
    RunAppend(cfg, writes + [read], last);
    assert writes + [read] + [last] == Hiding(a, b, c, v, s, n);
  }

  lemma ExpiredEntrySurvives(cfg: Config, a: Key, b: Key, c: Key, v: Value, s: int)
    requires a != b && b != c && a != c && s >= 0
    requires cfg.Expiring() && !SweepSuffices(cfg)
    ensures Clocked(Hiding(a, b, c, v, s, cfg.maxAge))
    ensures !SweptClean(cfg, Hiding(a, b, c, v, s, cfg.maxAge))
  {
    HidingClocked(a, b, c, v, s, cfg.maxAge);
    HidingRun(cfg, a, b, c, v, s);
    var left := Run(cfg, Hiding(a, b, c, v, s, cfg.maxAge)).entries;
    assert left[1] in left && left[1].expires == s + cfg.maxAge;
  }

  /**
    The exact reach of the sweep when operations follow one another. In an expiring cache whose
    entries are written by Set alone, no Set and no expired Get ever leaves an expired entry behind,
    if and only if reads renew the age, or the age limit is one second, or the cache is limited to one
    or two entries.
  */
  lemma SweepCleanExactly(cfg: Config, a: Key, b: Key, c: Key, v: Value)
    requires a != b && b != c && a != c
    requires cfg.Expiring()
    ensures (forall ops :: Clocked(ops) ==> SweptClean(cfg, ops)) <==> SweepSuffices(cfg)
  {
    if SweepSuffices(cfg) {
      forall ops | Clocked(ops) ensures SweptClean(cfg, ops) {
        HistoryTidy(cfg, ops);
      }
    } else {
      ExpiredEntrySurvives(cfg, a, b, c, v, 0);
    }
  }

  // ------------------------------------------------- Sets that overtake each other

  /**
    Histories of concurrent callers. Set reads the clock for its age before it takes the lock, so
    other operations can come between that reading and the store; all other readings are made under
    the lock.
  */
  ghost predicate Concurrent(ops: seq<Op>) {
    ops == [] ||
    (var before, op := ops[..|ops| - 1], ops[|ops| - 1];
     && Concurrent(before)
     && !op.Store?
     && (op.Set? ==> 0 <= op.t1 <= op.t2 && Clock(before) <= op.t2)
     && (op.Get? ==> Clock(before) <= op.t1 <= op.t2))
  }

  lemma {:induction false} ClockedIsConcurrent(ops: seq<Op>)
    requires Clocked(ops)
    ensures Concurrent(ops) && 0 <= Clock(ops)
  {
    if ops != [] {
      ClockedIsConcurrent(ops[..|ops| - 1]);
    }
  }

  lemma ConcurrentAppend(ops: seq<Op>, op: Op)
    requires Concurrent(ops) && op.Set? && 0 <= op.t1 <= op.t2 && Clock(ops) <= op.t2
    ensures Concurrent(ops + [op]) && Clock(ops + [op]) == op.t2
  {
    assert (ops + [op])[..|ops|] == ops;
  }

  /** `a` reads the clock, `b` is stored maxAge seconds later, and only then `a` is stored, expired on arrival. */
  function Overtaken(a: Key, b: Key, v: Value, s: int, age: int): seq<Op> {
    [Set(b, v, s + age, s + age), Set(a, v, s, s + age)]
  }

  lemma OvertakenStays(cfg: Config, a: Key, b: Key, v: Value, s: int)
    requires a != b && s >= 0 && cfg.Expiring() && cfg.maxSize != 1
    ensures
      var ops := Overtaken(a, b, v, s, cfg.maxAge);
      Concurrent(ops) && !SweptClean(cfg, ops)
  {
    var n := cfg.maxAge;
    var o1, o2 := Set(b, v, s + n, s + n), Set(a, v, s, s + n);
    ConcurrentAppend([], o1);
    assert [o1] == [] + [o1];
    ConcurrentAppend([o1], o2);
    assert Overtaken(a, b, v, s, n) == [o1] + [o2];
    TwoWrites(cfg, b, a, v, s + n, s, s + n);
    var left := Run(cfg, Overtaken(a, b, v, s, n)).entries;
    assert left[1] in left && left[1].expires == s + n;
  }

  /** A list of one entry is sorted, so a cache of one entry is swept clean whatever the clocks read. */
  lemma SingleIsClean(cfg: Config, ops: seq<Op>)
    requires cfg.Expiring() && cfg.maxSize == 1
    ensures SweptClean(cfg, ops)
  {
    if EndsInSweep(cfg, ops) {
      var before, op := ops[..|ops| - 1], ops[|ops| - 1];
      var st := Run(cfg, before);
      HistoryWellFormed(cfg, before);
      if op.Set? {
        var e := Entry(op.key, op.value, SetExpiry(cfg, op.t1));
        TouchFacts(st.entries, e);
        SortedSweepIsClean(cfg, Stored(cfg, st, e), op.t2);
      } else {
        var e := Lookup(st.entries, op.key).value;
        WithoutFacts(st.entries, op.key);
        SortedSweepIsClean(cfg, Removed(st, e), op.t2);
      }
    }
  }

  /**
    The exact reach of the sweep under concurrent callers: an expiring cache whose entries are written
    by Set alone is always swept clean if and only if it holds a single entry.
  */
  lemma ConcurrentSweepExactly(cfg: Config, a: Key, b: Key, v: Value)
    requires a != b && cfg.Expiring()
    ensures (forall ops :: Concurrent(ops) ==> SweptClean(cfg, ops)) <==> cfg.maxSize == 1
  {
    if cfg.maxSize == 1 {
      forall ops | Concurrent(ops) ensures SweptClean(cfg, ops) {
        SingleIsClean(cfg, ops);
      }
    } else {
      OvertakenStays(cfg, a, b, v, 0);
    }
  }
}
