/** The allocator of buffers in size classes, and who owns its buffers. */
module BufferPool {
  import opened Basics

  // ------------------------------------------------- size classes

  function Pow2(k: nat): (p: nat)
    ensures p > 0
  {
    if k == 0 then 1 else 2 * Pow2(k - 1)
  }

  /** bits.Len32: how many bits a number takes. */
  function Len(n: nat): nat {
    if n == 0 then 0 else 1 + Len(n / 2)
  }

  /** The position of the most significant bit, as uint16 arithmetic over uint32 gives it. */
  function Msb(size: nat): nat {
    (Len(size % 0x1_0000_0000) + 0xFFFF) % 0x1_0000
  }

  lemma {:induction false} LenBounds(n: nat)
    requires n > 0
    ensures Len(n) > 0 && Pow2(Len(n) - 1) <= n < Pow2(Len(n))
  {
    if n > 1 {
      LenBounds(n / 2);
    }
  }

  lemma {:induction false} Pow2Grows(i: nat, j: nat)
    requires i < j
    ensures 2 * Pow2(i) <= Pow2(j)
  {
    if i + 1 < j {
      Pow2Grows(i, j - 1);
    }
  }

  lemma Pow2At16()
    ensures Pow2(16) == 65536
  {
    assert Pow2(4) == 16;
    assert Pow2(8) == 16 * Pow2(4);
    assert Pow2(12) == 16 * Pow2(8);
    assert Pow2(16) == 16 * Pow2(12);
  }

  lemma Doubles(k: nat)
    ensures Pow2(k + 1) == 2 * Pow2(k)
  {
  }

  lemma MsbBounds(n: nat)
    requires 1 <= n <= 65536
    ensures Msb(n) <= 16 && Pow2(Msb(n)) <= n < 2 * Pow2(Msb(n))
    ensures Msb(n) == 16 ==> n == 65536
  {
    hide Pow2, Len;
    LenBounds(n);
    Pow2At16();
    var m := Len(n) - 1;
    assert Pow2(Len(n)) == 2 * Pow2(m) by { Doubles(m); }
    if m > 16 {
      Pow2Grows(16, m);
    }
  }

  lemma MsbOfPow2(k: nat)
    requires k <= 16
    ensures 1 <= Pow2(k) <= 65536 && Msb(Pow2(k)) == k
  {
    Pow2At16();
    if k < 16 {
      Pow2Grows(k, 16);
    }
    MsbBounds(Pow2(k));
    var m := Msb(Pow2(k));
    if m < k {
      Pow2Grows(m, k);
    } else if k < m {
      Pow2Grows(k, m);
    }
  }

  /** The class that Get uses. */
  function SizeClass(size: nat): nat {
    if size == Pow2(Msb(size)) then Msb(size) else Msb(size) + 1
  }

  /** It is one of the 17, the smallest that holds the size, and wastes less than half. */
  lemma SizeClassFits(size: nat)
    requires 1 <= size <= 65536
    ensures SizeClass(size) <= 16
    ensures size <= Pow2(SizeClass(size)) < 2 * size
    ensures forall k: nat :: size <= Pow2(k) ==> SizeClass(size) <= k
  {
    hide Pow2, Msb;
    MsbBounds(size);
    Pow2At16();
    Doubles(Msb(size));
    forall k: nat | size <= Pow2(k)
      ensures SizeClass(size) <= k
    {
      if k < Msb(size) {
        Pow2Grows(k, Msb(size));
      }
    }
  }

  /** The capacities that Put accepts are those of the 17 classes. */
  predicate Accepted(cap: nat) {
    cap != 0 && cap <= 65536 && cap == Pow2(Msb(cap))
  }

  lemma AcceptedExactly(cap: nat)
    ensures Accepted(cap) <==> exists k: nat :: k <= 16 && cap == Pow2(k)
  {
    if Accepted(cap) {
      MsbBounds(cap);
    }
    if k: nat :| k <= 16 && cap == Pow2(k) {
      MsbOfPow2(k);
    }
  }

  // ------------------------------------------------- who owns what

  type Client = nat

  /** The buffers in the pool, each as often as it is there, and who was handed which and has not put it back. */
  datatype Ownership<T(==)> = Ownership(free: multiset<T>, out: multiset<(Client, T)>)

  datatype Event<T> = Take(c: Client, t: T) | Return(c: Client, t: T)

  ghost predicate Owned<T>(s: Ownership<T>, t: T) {
    exists p :: p in s.out && p.1 == t
  }

  /** Get hands out a pooled buffer or one that nobody knows. */
  ghost predicate Enabled<T>(s: Ownership<T>, e: Event<T>) {
    e.Take? ==> e.t in s.free || !Owned(s, e.t)
  }

  /** A client that puts back what it does not own takes it from nobody. */
  function Step<T(==)>(s: Ownership<T>, e: Event<T>): Ownership<T> {
    match e
    case Take(c, t) => Ownership(s.free - multiset{t}, s.out + multiset{(c, t)})
    case Return(c, t) => Ownership(s.free + multiset{t}, s.out - multiset{(c, t)})
  }

  /** Each client returns what it owns, or a buffer the allocator has never seen. */
  ghost predicate Disciplined<T>(s: Ownership<T>, e: Event<T>) {
    e.Return? ==> (e.c, e.t) in s.out || (e.t !in s.free && !Owned(s, e.t))
  }

  /** No buffer is pooled twice, owned twice, owned by two clients, or pooled and owned. */
  ghost predicate Exclusive<T>(s: Ownership<T>) {
    && (forall t :: t in s.free ==> s.free[t] == 1)
    && (forall p :: p in s.out ==> s.out[p] == 1 && p.1 !in s.free)
    && (forall p, q :: p in s.out && q in s.out && p.1 == q.1 ==> p == q)
  }

  ghost predicate TwoOwners<T>(s: Ownership<T>, t: T) {
    exists p, q :: p in s.out && q in s.out && p.0 != q.0 && p.1 == t && q.1 == t
  }

  ghost predicate Fair<T>(s: Ownership<T>, es: seq<Event<T>>)
    decreases |es|
  {
    es == [] || (Enabled(s, es[0]) && Disciplined(s, es[0]) && Fair(Step(s, es[0]), es[1..]))
  }

  function Run<T(==)>(s: Ownership<T>, es: seq<Event<T>>): Ownership<T>
    decreases |es|
  {
    if es == [] then s else Run(Step(s, es[0]), es[1..])
  }

  lemma TakeExclusive<T>(s: Ownership<T>, c: Client, t: T)
    requires Exclusive(s) && Enabled(s, Take(c, t))
    ensures Exclusive(Step(s, Take(c, t)))
  {
    assert t in s.free ==> s.free[t] == 1;
    assert !Owned(s, t);
    assert (c, t) !in s.out;
  }

  lemma ReturnExclusive<T>(s: Ownership<T>, c: Client, t: T)
    requires Exclusive(s) && Disciplined(s, Return(c, t))
    ensures Exclusive(Step(s, Return(c, t)))
  {
    if (c, t) in s.out {
      assert s.out[(c, t)] == 1 && t !in s.free;
    }
  }

  /** While each client returns only what it owns, no buffer has two owners or is pooled while owned. */
  lemma {:induction false} ExclusiveRuns<T>(s: Ownership<T>, es: seq<Event<T>>)
    requires Exclusive(s) && Fair(s, es)
    ensures Exclusive(Run(s, es))
    decreases |es|
  {
    if es != [] {
      match es[0] {
        case Take(c, t) => TakeExclusive(s, c, t);
        case Return(c, t) => ReturnExclusive(s, c, t);
      }
      ExclusiveRuns(Step(s, es[0]), es[1..]);
    }
  }

  /**
    After a client puts back a buffer it does not own, the buffer can get two owners, though everyone
    is disciplined from then on, if and only if it was pooled already or another client owns it.
  */
  lemma TwoOwnersExactly<T>(s: Ownership<T>, c: Client, t: T)
    requires Exclusive(s) && (c, t) !in s.out
    ensures
      var s' := Step(s, Return(c, t));
      (exists es :: Fair(s', es) && TwoOwners(Run(s', es), t)) <==> t in s.free || Owned(s, t)
  {
    var s' := Step(s, Return(c, t));
    if t in s.free {
      PooledTwice(s', c, t);
    } else if Owned(s, t) {
      var p :| p in s.out && p.1 == t;
      PooledWhileOwned(s', p.0, t);
    } else {
      ReturnExclusive(s, c, t);
      forall es | Fair(s', es)
        ensures !TwoOwners(Run(s', es), t)
      {
        ExclusiveRuns(s', es);
      }
    }
  }

  lemma OneTake<T>(s: Ownership<T>, c: Client, t: T)
    requires t in s.free
    ensures Fair(s, [Take(c, t)]) && Run(s, [Take(c, t)]) == Step(s, Take(c, t))
  {
    var es := [Take(c, t)];
    assert es[1..] == [];
    assert Fair(Step(s, es[0]), es[1..]);
  }

  lemma PooledTwice<T>(s: Ownership<T>, c: Client, t: T)
    requires s.free[t] >= 2
    ensures exists es :: Fair(s, es) && TwoOwners(Run(s, es), t)
  {
    var more := [Take(c + 1, t)];
    var es := [Take(c, t)] + more;
    var s1 := Step(s, Take(c, t));
    assert t in s1.free && (c, t) in s1.out;
    OneTake(s1, c + 1, t);
    assert es[0] == Take(c, t) && es[1..] == more;
    assert (c, t) in Run(s, es).out && (c + 1, t) in Run(s, es).out;
    assert Fair(s, es) && TwoOwners(Run(s, es), t);
  }

  lemma PooledWhileOwned<T>(s: Ownership<T>, d: Client, t: T)
    requires t in s.free && (d, t) in s.out
    ensures exists es :: Fair(s, es) && TwoOwners(Run(s, es), t)
  {
    var es := [Take(d + 1, t)];
    OneTake(s, d + 1, t);
    assert (d, t) in Run(s, es).out && (d + 1, t) in Run(s, es).out;
  }

  // ------------------------------------------------- the allocator

  function Sum<T>(pools: seq<multiset<T>>): multiset<T> {
    if pools == [] then multiset{} else Sum(pools[..|pools| - 1]) + pools[|pools| - 1]
  }

  lemma {:induction false} SumUpdate<T>(pools: seq<multiset<T>>, k: nat, p: multiset<T>)
    requires k < |pools|
    ensures pools[k] <= Sum(pools)
    ensures Sum(pools[k := p]) == Sum(pools) - pools[k] + p
  {
    var last := |pools| - 1;
    if k == last {
      assert pools[k := p][..last] == pools[..last];
    } else {
      assert pools[k := p][..last] == pools[..last][k := p];
      SumUpdate(pools[..last], k, p);
    }
  }

  lemma SumAdd<T>(pools: seq<multiset<T>>, k: nat, t: T)
    requires k < |pools|
    ensures Sum(pools[k := pools[k] + multiset{t}]) == Sum(pools) + multiset{t}
  {
    SumUpdate(pools, k, pools[k] + multiset{t});
  }

  lemma SumTake<T>(pools: seq<multiset<T>>, k: nat, t: T)
    requires k < |pools| && t in pools[k]
    ensures t in Sum(pools)
    ensures Sum(pools[k := pools[k] - multiset{t}]) == Sum(pools) - multiset{t}
  {
    SumUpdate(pools, k, pools[k] - multiset{t});
  }

  class Allocator {
    /** buffers[k] pools buffers of capacity 2^k. */
    var buffers: seq<multiset<array<Byte>>>
    ghost var out: multiset<(Client, array<Byte>)>

    ghost predicate Valid()
      reads this
    {
      && |buffers| == 17
      && forall k, b :: 0 <= k < 17 && b in buffers[k] ==> b.Length == Pow2(k)
    }

    ghost function State(): Ownership<array<Byte>>
      reads this
    {
      Ownership(Sum(buffers), out)
    }

    constructor ()
      ensures Valid() && State() == Ownership(multiset{}, multiset{})
    {
      buffers := seq(17, _ => multiset{});
      out := multiset{};
      new;
      NothingPooled(buffers);
    }

    /** The slice handed to the client is buf[..size]; the pool gives back some buffer it has or makes one. */
    method Get(size: int, ghost client: Client) returns (buf: array?<Byte>)
      requires Valid()
      modifies this
      ensures Valid()
      ensures buf == null <==> size <= 0 || size > 65536
      ensures buf == null ==> State() == old(State())
      ensures buf != null ==>
                && size <= buf.Length < 2 * size && buf.Length == Pow2(SizeClass(size))
                && Enabled(old(State()), Take(client, buf)) && State() == Step(old(State()), Take(client, buf))
                && (fresh(buf) || buf in old(State()).free)
    {
      if size <= 0 || size > 65536 {
        return null;
      }
      SizeClassFits(size);
      var bits := Msb(size);
      if size == Pow2(bits) {
        buf := Draw(bits, client);
      } else {
        buf := Draw(bits + 1, client);
      }
    }

    /** sync.Pool's Get for class k. */
    method Draw(k: nat, ghost client: Client) returns (buf: array<Byte>)
      requires Valid() && k <= 16
      modifies this
      ensures Valid() && buf.Length == Pow2(k)
      ensures Enabled(old(State()), Take(client, buf)) && State() == Step(old(State()), Take(client, buf))
      ensures fresh(buf) || buf in old(State()).free
    {
      hide Sum, Pow2;
      var reuse := *;
      if reuse && buffers[k] != multiset{} {
        buf :| buf in buffers[k];
        SumTake(buffers, k, buf);
        buffers := buffers[k := buffers[k] - multiset{buf}];
      } else {
        buf := new Byte[Pow2(k)];
        SumHas(buffers, buf);
      }
      out := out + multiset{(client, buf)};
    }

    /** The error is for a capacity that is not a class's. */
    method Put(buf: array?<Byte>, ghost client: Client) returns (ok: bool)
      requires Valid()
      modifies this
      ensures Valid()
      ensures ok <==> buf != null && Accepted(buf.Length)
      ensures State() == if ok then Step(old(State()), Return(client, buf)) else old(State())
    {
      hide Sum, Pow2, Msb;
      var cap := if buf == null then 0 else buf.Length;
      var bits := Msb(cap);
      if cap == 0 || cap > 65536 || cap != Pow2(bits) {
        return false;
      }
      MsbBounds(cap);
      var b: array<Byte> := buf;
      SumAdd(buffers, bits, b);
      buffers := buffers[bits := buffers[bits] + multiset{b}];
      out := out - multiset{(client, b)};
      return true;
    }
  }

  lemma {:induction false} NothingPooled<T>(pools: seq<multiset<T>>)
    requires forall k :: 0 <= k < |pools| ==> pools[k] == multiset{}
    ensures Sum(pools) == multiset{}
  {
    if pools != [] {
      NothingPooled(pools[..|pools| - 1]);
    }
  }

  lemma {:induction false} SumHas<T>(pools: seq<multiset<T>>, t: T)
    ensures t in Sum(pools) <==> exists k :: 0 <= k < |pools| && t in pools[k]
  {
    if pools != [] {
      SumHas(pools[..|pools| - 1], t);
    }
  }

  /** Put takes back whatever Get hands out, into the class it came from. */
  lemma PutAfterGet(size: nat)
    requires 1 <= size <= 65536
    ensures Accepted(Pow2(SizeClass(size))) && Msb(Pow2(SizeClass(size))) == SizeClass(size)
  {
    SizeClassFits(size);
    MsbOfPow2(SizeClass(size));
  }
}
