/**
  The two-level entity cache (packages/util/src/graph/database.ts): the frothy blocks with the
  entities saved at them, and the latest entities of the pruned region.

  `Cache` and the functions on it say what the cache answers and how it changes; the class
  GraphDatabase changes its maps in place and is proved against them.
*/
module EntityCache {
  import opened Wrappers
  import opened BlockTree

  datatype FrothyBlock = FrothyBlock(number: nat, parent: Hash, entities: map<Key, Entity>)

  /** The two maps of cachedEntities, with (table, id) flattened into one key. */
  datatype Cache = Cache(frothy: map<Hash, FrothyBlock>, latest: map<Key, Entity>)

  /** Parent links inside the cache lead to smaller numbers. */
  ghost predicate FrothyFalls(c: Cache) {
    forall h | h in c.frothy && c.frothy[h].parent in c.frothy ::
      c.frothy[c.frothy[h].parent].number < c.frothy[h].number
  }

  /** What the cache says to a lookup: an entity, that the database has to be asked up to a block
      number, or that the cache is not to be used. */
  datatype Lookup = Hit(entity: Entity) | Miss(bound: nat) | Bypass

  /** The oldest cached block of the branch of `h`. */
  ghost function Oldest(c: Cache, h: Hash): (o: Hash)
    requires FrothyFalls(c) && h in c.frothy
    ensures o in c.frothy && c.frothy[o].parent !in c.frothy && c.frothy[o].number <= c.frothy[h].number
    decreases c.frothy[h].number
  {
    if c.frothy[h].parent in c.frothy then Oldest(c, c.frothy[h].parent) else h
  }

  /** The newest entity among the cached blocks of the branch of `h`. */
  ghost function FrothyHit(c: Cache, h: Hash, k: Key): Option<Entity>
    requires FrothyFalls(c) && h in c.frothy
    decreases c.frothy[h].number
  {
    if k in c.frothy[h].entities then Some(c.frothy[h].entities[k])
    else if c.frothy[h].parent in c.frothy then FrothyHit(c, c.frothy[h].parent, k)
    else None
  }

  ghost function CacheLookup(c: Cache, h: Hash, k: Key): Lookup
    requires FrothyFalls(c)
  {
    if c.latest == map[] || h !in c.frothy then Bypass
    else if FrothyHit(c, h, k).Some? then Hit(FrothyHit(c, h, k).value)
    else if k in c.latest then Hit(c.latest[k])
    else Miss(c.frothy[Oldest(c, h)].number + 1)
  }

  // ---- How the cache changes ----

  function CacheSaved(c: Cache, k: Key, e: Entity): Cache {
    if e.hash in c.frothy
    then c.(frothy := c.frothy[e.hash := c.frothy[e.hash].(entities := c.frothy[e.hash].entities[k := e])])
    else c
  }

  function FrothyBlockAdded(c: Cache, h: Hash, b: Block, clearInterval: nat): Cache
    requires clearInterval > 0
  {
    Cache(
      if h in c.frothy then c.frothy else c.frothy[h := FrothyBlock(b.number, b.parent, map[])],
      if b.number % clearInterval == 0 then map[] else c.latest)
  }

  function CachePruned(c: Cache, h: Hash, number: nat): Cache {
    Cache(
      map a | a in c.frothy && c.frothy[a].number > number :: c.frothy[a],
      if h in c.frothy then c.latest + c.frothy[h].entities else c.latest)
  }

  /** A block that comes is cached, without entities if it was not before; at the heights that are multiples of
      the interval, and only there, the latest pruned entities are forgotten. */
  lemma FrothyBlockAddedExact(c: Cache, h: Hash, b: Block, clearInterval: nat, a: Hash, times: nat, rest: nat)
    requires b.number == times * clearInterval + rest && rest < clearInterval
    ensures var t := FrothyBlockAdded(c, h, b, clearInterval);
      && (a in t.frothy <==> a in c.frothy || a == h) && (a in c.frothy ==> t.frothy[a] == c.frothy[a])
      && (h !in c.frothy ==> t.frothy[h] == FrothyBlock(b.number, b.parent, map[]))
      && t.latest == if rest == 0 then map[] else c.latest
  {
    RemainderIs(b.number, times, rest, clearInterval);
  }

  lemma RemainderIs(n: nat, times: nat, rest: nat, step: nat)
    requires n == times * step + rest && rest < step
    ensures n % step == rest
  {
    var q := n / step;
    assert n == q * step + n % step;
    if q < times {
      OneMore(q, times, step);
    } else if q > times {
      OneMore(times, q, step);
    }
  }

  lemma OneMore(a: nat, b: nat, step: nat)
    requires a < b
    ensures a * step + step <= b * step
  {
    assert b * step == a * step + (b - a) * step;
    assert (b - a) * step == step + (b - a - 1) * step;
  }

  // ---- One pruning step keeps every hit ----

  /** `h` reaches `a` through cached blocks. */
  ghost predicate CachedPath(c: Cache, a: Hash, h: Hash)
    requires FrothyFalls(c) && h in c.frothy
    decreases c.frothy[h].number
  {
    h == a || (c.frothy[h].parent in c.frothy && CachedPath(c, a, c.frothy[h].parent))
  }

  lemma {:induction false} CachedPathNumber(c: Cache, a: Hash, h: Hash)
    requires FrothyFalls(c) && h in c.frothy && CachedPath(c, a, h)
    ensures a in c.frothy
    ensures a != h ==> c.frothy[a].number < c.frothy[h].number
    decreases c.frothy[h].number
  {
    if a != h {
      CachedPathNumber(c, a, c.frothy[h].parent);
    }
  }

  lemma {:induction false} PruneSplitsWalk(c: Cache, a: Hash, h: Hash, k: Key)
    requires FrothyFalls(c) && h in c.frothy && a != h && CachedPath(c, a, h)
    requires a in c.frothy && c.frothy[a].parent !in c.frothy
    ensures var p := CachePruned(c, a, c.frothy[a].number);
      && FrothyFalls(p) && h in p.frothy && Oldest(c, h) == a
      && FrothyHit(c, h, k) ==
        (if FrothyHit(p, h, k).Some? then FrothyHit(p, h, k)
         else if k in c.frothy[a].entities then Some(c.frothy[a].entities[k])
         else None)
      && p.frothy[Oldest(p, h)].parent == a
    decreases c.frothy[h].number
  {
    CachedPathNumber(c, a, h);
    var parent := c.frothy[h].parent;
    if parent != a {
      PruneSplitsWalk(c, a, parent, k);
    }
  }

  /** Pruning at the oldest cached block of a branch moves its entities to the latest pruned ones and
      deletes it: a lookup at any block above keeps its hit, and a lookup that has to ask the database
      still has to, now up to one above the child on the branch. */
  lemma PruneKeepsLookups(c: Cache, a: Hash, h: Hash, k: Key)
    requires FrothyFalls(c) && h in c.frothy && a != h && CachedPath(c, a, h)
    requires a in c.frothy && c.frothy[a].parent !in c.frothy
    requires c.latest != map[]
    ensures var p := CachePruned(c, a, c.frothy[a].number);
      && FrothyFalls(p)
      && (CacheLookup(c, h, k).Hit? ==> CacheLookup(p, h, k) == CacheLookup(c, h, k))
      && (CacheLookup(c, h, k).Miss? ==>
            && CacheLookup(c, h, k) == Miss(c.frothy[a].number + 1)
            && exists o | o in c.frothy && c.frothy[o].parent == a ::
                CacheLookup(p, h, k) == Miss(c.frothy[o].number + 1))
  {
    PruneSplitsWalk(c, a, h, k);
    var p := CachePruned(c, a, c.frothy[a].number);
    var x :| x in c.latest;
    assert x in p.latest;
    if CacheLookup(c, h, k).Miss? {
      assert CacheLookup(p, h, k) == Miss(c.frothy[Oldest(p, h)].number + 1);
    }
  }
}
