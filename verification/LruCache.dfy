/**
  The LRU cache itself: a map from keys to list elements and a list of the same elements, least
  recently touched first. Every method is proved to do what the functions of module Recency say,
  so the laws proved there over all histories are laws of this class.
*/
module LruCaches {
  import opened Options
  import opened Recency

  class Element {
    const key: Key
    var value: Value
    var expires: int

    constructor (key: Key, value: Value, expires: int)
      ensures this.key == key && this.value == value && this.expires == expires
    {
      this.key, this.value, this.expires := key, value, expires;
    }

    function Entry(): Entry
      reads this
    {
      Recency.Entry(key, value, expires)
    }
  }

  ghost function Elements(l: seq<Element>): set<Element> {
    set x | x in l
  }

  ghost function Snapshot(l: seq<Element>): seq<Entry>
    reads l
  {
    if l == [] then [] else [l[0].Entry()] + Snapshot(l[1..])
  }

  /** The map a list stands for. */
  ghost function Index(l: seq<Element>): map<Key, Element> {
    if l == [] then map[] else Index(l[1..])[l[0].key := l[0]]
  }

  ghost predicate KeysDistinct(l: seq<Element>) {
    l == [] || (l[0].key !in Index(l[1..]) && KeysDistinct(l[1..]))
  }

  function Unlink(l: seq<Element>, x: Element): seq<Element> {
    if l == [] then [] else if l[0] == x then Unlink(l[1..], x) else [l[0]] + Unlink(l[1..], x)
  }

  // ------------------------------------------------- the list, the map and the snapshot

  lemma {:induction false} IndexKeys(l: seq<Element>, k: Key)
    ensures k in Index(l) <==> k in Keys(Snapshot(l))
    ensures k in Index(l) ==> Index(l)[k] in l && Index(l)[k].key == k
  {
    if l != [] {
      IndexKeys(l[1..], k);
      assert l == [l[0]] + l[1..];
      assert Snapshot(l)[0] == l[0].Entry();
    }
  }

  lemma {:induction false} IndexMember(l: seq<Element>, x: Element)
    requires KeysDistinct(l) && x in l
    ensures x.key in Index(l) && Index(l)[x.key] == x
  {
    assert l == [l[0]] + l[1..];
    if x != l[0] {
      IndexMember(l[1..], x);
    }
  }

  lemma {:induction false} SnapshotDistinct(l: seq<Element>)
    requires KeysDistinct(l)
    ensures Distinct(Snapshot(l)) && |Snapshot(l)| == |l|
  {
    if l != [] {
      SnapshotDistinct(l[1..]);
      IndexKeys(l[1..], l[0].key);
      DistinctCons(l[0].Entry(), Snapshot(l[1..]));
    }
  }

  lemma {:induction false} SnapshotLookup(l: seq<Element>, k: Key)
    ensures Lookup(Snapshot(l), k) == if k in Index(l) then Some(Index(l)[k].Entry()) else None
  {
    if l != [] {
      SnapshotLookup(l[1..], k);
      assert Snapshot(l)[1..] == Snapshot(l[1..]);
    }
  }

  lemma {:induction false} UnlinkAbsent(l: seq<Element>, x: Element)
    requires x !in l
    ensures Unlink(l, x) == l
  {
    if l != [] {
      assert l == [l[0]] + l[1..];
      UnlinkAbsent(l[1..], x);
    }
  }

  lemma {:induction false} UnlinkElements(l: seq<Element>, x: Element)
    ensures Elements(Unlink(l, x)) == Elements(l) - {x}
  {
    if l != [] {
      assert l == [l[0]] + l[1..];
      UnlinkElements(l[1..], x);
      assert Elements(l) == {l[0]} + Elements(l[1..]);
      assert l[0] != x ==> Elements(Unlink(l, x)) == {l[0]} + Elements(Unlink(l[1..], x));
    }
  }

  /** Unlinking the element under a key takes that key, and no other, out of list, map and snapshot. */
  lemma {:induction false} UnlinkFacts(l: seq<Element>, x: Element)
    requires KeysDistinct(l) && x in l
    ensures KeysDistinct(Unlink(l, x))
    ensures Index(Unlink(l, x)) == Index(l) - {x.key}
    ensures Snapshot(Unlink(l, x)) == Without(Snapshot(l), x.key)
  {
    assert l == [l[0]] + l[1..];
    assert Snapshot(l)[1..] == Snapshot(l[1..]);
    if l[0] == x {
      IndexMemberAbsent(l[1..], x);
      UnlinkAbsent(l[1..], x);
      IndexKeys(l[1..], x.key);
      WithoutAbsent(Snapshot(l[1..]), x.key);
      assert Index(l) - {x.key} == Index(l[1..]);
    } else {
      UnlinkFacts(l[1..], x);
      IndexMember(l[1..], x);
      assert Unlink(l, x)[1..] == Unlink(l[1..], x);
    }
  }

  lemma {:induction false} IndexMemberAbsent(l: seq<Element>, x: Element)
    requires KeysDistinct(l) && x.key !in Index(l)
    ensures x !in l
  {
    if x in l {
      IndexMember(l, x);
    }
  }

  lemma {:induction false} AppendFacts(l: seq<Element>, x: Element)
    requires KeysDistinct(l) && x.key !in Index(l)
    ensures KeysDistinct(l + [x])
    ensures Index(l + [x]) == Index(l)[x.key := x]
    ensures Snapshot(l + [x]) == Snapshot(l) + [x.Entry()]
  {
    if l == [] {
      assert [x][1..] == [];
    } else {
      AppendFacts(l[1..], x);
      assert (l + [x])[1..] == l[1..] + [x];
    }
  }

  class LruCache {
    const cfg: Config
    const hasCallback: bool
    var cache: map<Key, Element>
    var lru: seq<Element>
    var calls: seq<(Key, Value)>  // what onEvict was called with
    ghost var dropped: seq<(Key, Value)>

    /** Map and list hold the same elements, each once and under its own key; onEvict saw all that was dropped. */
    ghost predicate Valid()
      reads this
    {
      KeysDistinct(lru) && cache == Index(lru) && calls == (if hasCallback then dropped else [])
    }

    ghost function Abs(): State
      reads this, lru
    {
      State(Snapshot(lru), dropped)
    }

    constructor (cfg: Config, hasCallback: bool)
      ensures Valid() && Abs() == EMPTY && this.cfg == cfg && this.hasCallback == hasCallback
    {
      this.cfg, this.hasCallback := cfg, hasCallback;
      cache, lru, calls, dropped := map[], [], [], [];
    }

    method DeleteElement(le: Element)
      requires Valid() && le in lru
      modifies this
      ensures Valid() && Abs() == Removed(old(Abs()), le.Entry())
      ensures lru == Unlink(old(lru), le)
    {
      UnlinkFacts(lru, le);
      lru := Unlink(lru, le);
      cache := cache - {le.key};
      if hasCallback {
        calls := calls + [(le.key, le.value)];
      }
      dropped := dropped + [(le.key, le.value)];
    }

    method DeleteFront()
      requires Valid() && lru != []
      modifies this
      ensures Valid() && Abs() == DropFront(old(Abs())) && lru == old(lru)[1..]
    {
      ghost var rest := lru[1..];
      IndexMemberAbsent(rest, lru[0]);
      UnlinkAbsent(rest, lru[0]);
      IndexKeys(rest, lru[0].key);
      WithoutAbsent(Snapshot(rest), lru[0].key);
      assert Abs().entries[1..] == Snapshot(rest);
      DeleteElement(lru[0]);
    }

    method MaybeDeleteOldest(now: int)
      requires Valid()
      modifies this
      ensures Valid() && Abs() == Sweep(cfg, old(Abs()), now)
      ensures Elements(lru) <= old(Elements(lru))
    {
      if !cfg.staleReturn && cfg.maxAge > 0 {
        while lru != [] && lru[0].expires <= now
          invariant Valid() && Elements(lru) <= old(Elements(lru))
          invariant Sweep(cfg, Abs(), now) == Sweep(cfg, old(Abs()), now)
          decreases |lru|
        {
          assert Abs().entries[0] == lru[0].Entry();
          DeleteFront();
        }
        assert lru != [] ==> Abs().entries[0] == lru[0].Entry();
      }
    }

    /** Unlinks `le` and pushes it at the back; `rest` is what stands before it. */
    method MoveToBack(le: Element) returns (ghost rest: seq<Element>)
      requires Valid() && le in lru
      modifies this`lru
      ensures Valid() && lru == rest + [le] && le !in rest
      ensures KeysDistinct(rest) && le.key !in Index(rest)
      ensures Snapshot(rest) == Without(old(Snapshot(lru)), le.key)
      ensures Elements(lru) == old(Elements(lru))
    {
      UnlinkFacts(lru, le);
      UnlinkElements(lru, le);
      IndexMember(lru, le);
      rest := Unlink(lru, le);
      AppendFacts(rest, le);
      assert Index(rest)[le.key := le] == Index(lru);
      assert le !in Elements(rest);
      assert Elements(rest + [le]) == Elements(rest) + {le};
      lru := Unlink(lru, le) + [le];
    }

    /** Writes into the element at the back of the list. */
    method WriteBack(le: Element, value: Value, expires: int, ghost rest: seq<Element>)
      requires Valid() && lru == rest + [le] && le !in rest
      requires KeysDistinct(rest) && le.key !in Index(rest)
      modifies le
      ensures Valid() && Abs() == State(old(Snapshot(rest)) + [Entry(le.key, value, expires)], dropped)
      ensures le.Entry() == Entry(le.key, value, expires)
    {
      le.value := value;
      le.expires := expires;
      AppendFacts(rest, le);
    }

    method SetWithExpire(key: Key, value: Value, expires: int, now: int)
      requires Valid()
      modifies this, lru
      ensures Valid() && Abs() == Step(cfg, old(Abs()), Store(key, value, expires, now))
      ensures key in cache ==> cache[key].Entry() == Entry(key, value, expires)
      ensures key in cache || (cfg.Expiring() && expires <= now)
      ensures fresh(Elements(lru) - old(Elements(lru)))
    {
      ghost var e := Entry(key, value, expires);
      IndexKeys(lru, key);
      SnapshotDistinct(lru);
      StoreLookup(cfg, Abs(), e, now);
      hide Lookup;
      if key in cache {
        Overwrite(cache[key], value, expires);
      } else {
        Insert(key, value, expires);
      }
      MaybeDeleteOldest(now);
      SnapshotLookup(lru, key);
    }

    method Overwrite(le: Element, value: Value, expires: int)
      requires Valid() && le in lru
      modifies this`lru, le
      ensures Valid() && Abs() == State(Touch(old(Snapshot(lru)), Entry(le.key, value, expires)), dropped)
      ensures Elements(lru) == old(Elements(lru))
    {
      ghost var rest := MoveToBack(le);
      WriteBack(le, value, expires, rest);
    }

    method Insert(key: Key, value: Value, expires: int)
      requires Valid() && key !in cache
      modifies this
      ensures Valid() && Abs() == Stored(cfg, old(Abs()), Entry(key, value, expires))
      ensures fresh(Elements(lru) - old(Elements(lru)))
    {
      hide Unlink, Without;
      IndexKeys(lru, key);
      WithoutAbsent(Snapshot(lru), key);
      var le := new Element(key, value, expires);
      AppendFacts(lru, le);
      cache := cache[key := le];
      lru := lru + [le];
      SnapshotDistinct(lru);
      if cfg.maxSize > 0 {
        var len := |lru|;
        if len > cfg.maxSize {
          DeleteFront();
        }
      }
    }

    method Set(key: Key, value: Value, t1: int, t2: int)
      requires Valid()
      modifies this, lru
      ensures Valid() && Abs() == Step(cfg, old(Abs()), Op.Set(key, value, t1, t2))
      ensures fresh(Elements(lru) - old(Elements(lru)))
    {
      var expires := 0;
      if cfg.maxAge > 0 {
        expires := t1 + cfg.maxAge;
      }
      SetWithExpire(key, value, expires, t2);
    }

    /** The private read behind Get and GetWithExpire. */
    method Find(key: Key, t1: int, t2: int) returns (found: Element?)
      requires Valid()
      modifies this, lru
      ensures Valid() && Abs() == Step(cfg, old(Abs()), Op.Get(key, t1, t2))
      ensures Elements(lru) <= old(Elements(lru))
      ensures
        var a := Answer(cfg, old(Abs()), Op.Get(key, t1, t2));
        if found == null then a == None else a == Some(found.Entry())
    {
      hide KeysDistinct, Index, Snapshot, Elements, Unlink, Sweep, Without, Lookup;
      SnapshotLookup(lru, key);
      IndexKeys(lru, key);
      if key !in cache {
        return null;
      }
      var le := cache[key];
      if !cfg.staleReturn && cfg.maxAge > 0 && le.expires <= t1 {
        UnlinkElements(lru, le);
        DeleteElement(le);
        MaybeDeleteOldest(t2);
        return null;
      }
      ghost var rest := MoveToBack(le);
      AppendFacts(rest, le);
      if cfg.maxAge > 0 && cfg.updateAgeOnGet {
        WriteBack(le, le.value, t2 + cfg.maxAge, rest);
      }
      return le;
    }

    method Get(key: Key, t1: int, t2: int) returns (r: Option<Value>)
      requires Valid()
      modifies this, lru
      ensures Valid() && Abs() == Step(cfg, old(Abs()), Op.Get(key, t1, t2))
      ensures Elements(lru) <= old(Elements(lru))
      ensures
        var a := Answer(cfg, old(Abs()), Op.Get(key, t1, t2));
        r == if a.Some? then Some(a.value.value) else None
    {
      var e := Find(key, t1, t2);
      r := if e == null then None else Some(e.value);
    }

    /** Despite its comment in the source this checks and renews the age just as Get does. */
    method GetWithExpire(key: Key, t1: int, t2: int) returns (r: Option<(Value, int)>)
      requires Valid()
      modifies this, lru
      ensures Valid() && Abs() == Step(cfg, old(Abs()), Op.Get(key, t1, t2))
      ensures Elements(lru) <= old(Elements(lru))
      ensures
        var a := Answer(cfg, old(Abs()), Op.Get(key, t1, t2));
        r == if a.Some? then Some((a.value.value, a.value.expires)) else None
    {
      var e := Find(key, t1, t2);
      r := if e == null then None else Some((e.value, e.expires));
    }

    method Exist(key: Key) returns (ok: bool)
      requires Valid()
      ensures ok <==> key in Keys(Abs().entries)
    {
      IndexKeys(lru, key);
      ok := key in cache;
    }

    method Delete(key: Key)
      requires Valid()
      modifies this
      ensures Valid() && Abs() == Step(cfg, old(Abs()), Op.Delete(key))
      ensures Elements(lru) <= old(Elements(lru))
    {
      SnapshotLookup(lru, key);
      IndexKeys(lru, key);
      if key in cache {
        UnlinkElements(lru, cache[key]);
        DeleteElement(cache[key]);
      }
    }
  }
}
