/** NCPkgSelMapper: from a package to its selectable through a cache that all mappers share and
    that lives as long as any mapper does.  A selectable is named by its place in the pool. */
module SelMapper {
  import opened Options

  type Pkg = int

  /** None stands for an object that is missing or is not a package. */
  datatype Selectable = Selectable(installed: Option<Pkg>, available: seq<Option<Pkg>>)

  predicate Holds(s: Selectable, p: Pkg) { s.installed == Some(p) || Some(p) in s.available }

  /** The first selectable among the first n that holds the package. */
  function Scan(pool: seq<Selectable>, n: nat, p: Pkg): Option<nat>
    requires n <= |pool|
  {
    if n == 0 then None
    else
      var r := Scan(pool, n - 1, p);
      if r.Some? then r else if Holds(pool[n - 1], p) then Some(n - 1) else None
  }

  function Find(pool: seq<Selectable>, p: Pkg): Option<nat> { Scan(pool, |pool|, p) }

  /** Scanning finds the least place that holds the package, if any does. */
  lemma {:induction false} ScanIsFirst(pool: seq<Selectable>, n: nat, p: Pkg)
    requires n <= |pool|
    ensures match Scan(pool, n, p)
      case Some(i) => i < n && Holds(pool[i], p) && forall k :: 0 <= k < i ==> !Holds(pool[k], p)
      case None => forall k :: 0 <= k < n ==> !Holds(pool[k], p)
  {
    if n > 0 { ScanIsFirst(pool, n - 1, p); }
  }

  type Cache = map<Pkg, nat>

  function Lookup(cache: Cache, p: Pkg): Option<nat> { if p in cache then Some(cache[p]) else None }

  /** std::map::insert: an entry that is there stays. */
  function Insert(cache: Cache, p: Option<Pkg>, sel: nat): Cache {
    if p.None? || p.value in cache then cache else cache[p.value := sel]
  }

  ghost predicate Indexes(cache: Cache, pool: seq<Selectable>, n: nat)
    requires n <= |pool|
  {
    forall p :: Lookup(cache, p) == Scan(pool, n, p)
  }

  /** What the cache answers while selectable i is being entered: first what came before it, then
      the packages of i seen so far. */
  ghost predicate PartlyIndexes(cache: Cache, pool: seq<Selectable>, i: nat, installedDone: bool, k: nat)
    requires i < |pool| && k <= |pool[i].available|
  {
    forall p :: Lookup(cache, p) ==
      var r := Scan(pool, i, p);
      if r.Some? then r
      else if (installedDone && pool[i].installed == Some(p)) || Some(p) in pool[i].available[..k] then Some(i)
      else None
  }

  method BuildCache(pool: seq<Selectable>) returns (cache: Cache)
    ensures Indexes(cache, pool, |pool|)
  {
    cache := map[];
    for i := 0 to |pool|
      invariant Indexes(cache, pool, i)
    {
      var sel := pool[i];
      assert PartlyIndexes(cache, pool, i, false, 0);
      cache := Insert(cache, sel.installed, i);
      assert PartlyIndexes(cache, pool, i, true, 0);
      var it := 0;
      while it < |sel.available|
        invariant it <= |sel.available| && PartlyIndexes(cache, pool, i, true, it)
      {
        assert sel.available[..it + 1] == sel.available[..it] + [sel.available[it]];
        cache := Insert(cache, sel.available[it], i);
        it := it + 1;
      }
      assert sel.available[..|sel.available|] == sel.available;
      forall p ensures Lookup(cache, p) == Scan(pool, i + 1, p) {
      }
    }
  }

  // ---------------------------------------------------------------- what mappers do

  datatype Op = Create | Destroy | Rebuild | Query(p: Pkg) | ChangePool(pool: seq<Selectable>)

  /** What matters of the shared state: how many mappers there are, the pool the cache reflects,
      and the pool as it is now. */
  datatype View = View(refCount: nat, built: seq<Selectable>, pool: seq<Selectable>)

  function Do(v: View, op: Op): View {
    match op
    case Create => if v.refCount == 0 then View(1, v.pool, v.pool) else v.(refCount := v.refCount + 1)
    case Destroy => if v.refCount == 0 then v else v.(refCount := v.refCount - 1)
    case Rebuild => if v.refCount == 0 then v else v.(built := v.pool)
    case Query(p) => v
    case ChangePool(q) => v.(pool := q)
  }

  /** The scan a lookup amounts to. */
  function Answer(v: View, p: Pkg): Option<nat> { Find(if v.refCount == 0 then v.pool else v.built, p) }

  // ---------------------------------------------------------------- the shared state

  /** The static members, and the pool as it was when the cache was last built. */
  class Shared {
    var refCount: nat
    var cache: Cache
    ghost var built: seq<Selectable>

    /** Without mappers there is no cache; with mappers it indexes the pool it was built from. */
    ghost predicate Valid()
      reads this
    {
      if refCount == 0 then cache == map[] else Indexes(cache, built, |built|)
    }

    ghost function Seen(pool: seq<Selectable>): View
      reads this
    {
      View(refCount, built, pool)
    }

    constructor ()
      ensures Valid() && refCount == 0 && built == []
    {
      refCount, cache, built := 0, map[], [];
    }

    method RebuildCache(pool: seq<Selectable>)
      requires refCount > 0
      modifies this`cache, this`built
      ensures Valid() && Seen(pool) == Do(old(Seen(pool)), Rebuild)
    {
      cache := BuildCache(pool);
      built := pool;
    }

    /** The constructor of a mapper. */
    method Acquire(pool: seq<Selectable>)
      requires Valid()
      modifies this
      ensures Valid() && Seen(pool) == Do(old(Seen(pool)), Create)
      ensures old(refCount) > 0 ==> cache == old(cache)
    {
      refCount := refCount + 1;
      if refCount == 1 {
        RebuildCache(pool);
      }
    }

    /** The destructor of a mapper. */
    method Release(ghost pool: seq<Selectable>)
      requires Valid() && refCount > 0
      modifies this
      ensures Valid() && Seen(pool) == Do(old(Seen(pool)), Destroy)
      ensures refCount > 0 ==> cache == old(cache)
    {
      refCount := refCount - 1;
      if refCount == 0 {
        cache := map[];
      }
    }

    /** The lookup makes a mapper of its own for as long as it takes. */
    method FindZyppSel(pool: seq<Selectable>, p: Pkg) returns (sel: Option<nat>)
      requires Valid()
      modifies this
      ensures Valid() && Seen(pool) == Do(old(Seen(pool)), Query(p)) && cache == old(cache)
      ensures sel == Answer(old(Seen(pool)), p)
    {
      Acquire(pool);
      assert Lookup(cache, p) == Scan(built, |built|, p);
      sel := if p in cache then Some(cache[p]) else None;
      Release(pool);
      built := old(built);
    }
  }

  // ---------------------------------------------------------------- runs

  function Run(v: View, ops: seq<Op>): View {
    if ops == [] then v else Do(Run(v, ops[..|ops| - 1]), ops[|ops| - 1])
  }

  /** Through any interleaving that leaves the pool alone, every lookup is the linear scan. */
  lemma {:induction false} FixedPoolAnswers(pool: seq<Selectable>, ops: seq<Op>, p: Pkg)
    requires forall k :: 0 <= k < |ops| ==> !ops[k].ChangePool?
    ensures var v := Run(View(0, [], pool), ops);
      v.pool == pool && (v.refCount > 0 ==> v.built == pool) && Answer(v, p) == Find(pool, p)
  {
    if ops != [] {
      FixedPoolAnswers(pool, ops[..|ops| - 1], p);
    }
  }

  /** When the pool has changed, a lookup is right again after a rebuild, and without one it
      answers from the pool of the last build for as long as mappers exist.  This only reads it off
      Do; that a rebuilt cache answers as the scan does is the contract of BuildCache. */
  lemma RebuildCatchesUp(v: View, q: seq<Selectable>, p: Pkg)
    ensures Answer(Do(Do(v, ChangePool(q)), Rebuild), p) == Find(q, p)
    ensures v.refCount > 0 ==> Answer(Do(v, ChangePool(q)), p) == Find(v.built, p)
  {
  }
}
