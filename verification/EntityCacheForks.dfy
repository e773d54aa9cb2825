/**
  Runs of the entity cache after which a load returns the version of a sibling branch: once from the cache
  and its fallback, once from the plain query.
*/
module EntityCacheForks {
  import opened Wrappers
  import opened BlockTree
  import opened EntityCache
  import opened EntityCacheRuns

  const INTERVAL: nat := 1000

  /** A block `c`, on top of it `o`, and on top of that `h` and `x`. */
  datatype Fork = Fork(c: Hash, o: Hash, h: Hash, x: Hash, k: Key, k0: Key) {
    ghost predicate Distinct() {
      && c != o && c != h && c != x && o != h && o != x && h != x && k != k0
      && "" != c && "" != o && "" != h && "" != x
    }

    ghost function Tree(): Chain {
      map[c := Block(1, ""), o := Block(2, c), h := Block(3, o), x := Block(3, o)]
    }

    ghost function AtX(): Entity {
      Entity(x, 3, "new", false)
    }

    ghost function AtC(): Entity {
      Entity(c, 1, "old", false)
    }
  }

  /** Nothing stored yet. */
  ghost function Fresh(f: Fork): State {
    State(Db(f.Tree(), {}, map[], {}), Cache(map[], map[]), None)
  }

  lemma FreshInit(f: Fork)
    requires f.Distinct()
    ensures Init(Fresh(f)) && Inv(Fresh(f))
  {}

  // ---- Single steps ----

  ghost function Arrived(s: State, b: Hash): State
    requires b in s.db.chain
  {
    s.(db := s.db.(stored := s.db.stored + {b}),
       cache := s.cache.(frothy := s.cache.frothy[b := FrothyBlock(s.db.chain[b].number, s.db.chain[b].parent, map[])]))
  }

  ghost function Saved(s: State, k: Key, e: Entity): State {
    s.(db := s.db.(rows := s.db.rows[(e.hash, k) := e]), cache := CacheSaved(s.cache, k, e))
  }

  lemma Arrives(s: State, b: Hash)
    requires Inv(s) && s.canonical.None? && b in s.db.chain && b !in s.cache.frothy && b !in s.db.stored
    requires (forall x | x in s.db.stored :: s.db.chain[x].parent != b) && s.db.chain[b].number % INTERVAL != 0
    ensures Enabled(s, AddBlock(b, INTERVAL)) && Next(s, AddBlock(b, INTERVAL)) == Arrived(s, b) && Inv(Arrived(s, b))
  {
    StepKeeps(s, AddBlock(b, INTERVAL));
  }

  lemma Saves(s: State, k: Key, e: Entity)
    requires Inv(s) && s.canonical.None? && e.hash in s.db.stored && e.number == s.db.chain[e.hash].number
    ensures Enabled(s, Save(e, k)) && Next(s, Save(e, k)) == Saved(s, k, e) && Inv(Saved(s, k, e))
  {
    StepKeeps(s, Save(e, k));
  }

  ghost predicate Reached(s: State, t: State) {
    exists steps :: Run(s, steps, t)
  }

  lemma ReachedSelf(s: State)
    ensures Reached(s, s)
  {
    assert Run(s, [], s);
  }

  lemma ThenReached(s: State, step: Step, t: State)
    requires Inv(s) && Enabled(s, step) && Reached(Next(s, step), t)
    ensures Reached(s, t)
  {
    var rest :| Run(Next(s, step), rest, t);
    assert ([step] + rest)[1..] == rest;
    assert Run(s, [step] + rest, t);
  }

  // ---- The fork ----

  ghost function Branched(f: Fork, s: State): State
    requires s.db.chain == f.Tree()
  {
    Arrived(Arrived(Arrived(s, f.o), f.h), f.x)
  }

  /** The blocks `o`, `h` and `x` arrive. */
  lemma BranchRun(f: Fork, s: State, t: State)
    requires f.Distinct() && Inv(s) && s.canonical.None? && s.db.chain == f.Tree()
    requires s.db.stored <= {f.c} && s.cache.frothy.Keys == s.db.stored
    ensures Inv(Branched(f, s)) && (Reached(Branched(f, s), t) ==> Reached(s, t))
  {
    var s1 := Arrived(s, f.o);
    var s2 := Arrived(s1, f.h);
    Arrives(s, f.o);
    Arrives(s1, f.h);
    Arrives(s2, f.x);
    if Reached(Branched(f, s), t) {
      ThenReached(s2, AddBlock(f.x, INTERVAL), t);
      ThenReached(s1, AddBlock(f.h, INTERVAL), t);
      ThenReached(s, AddBlock(f.o, INTERVAL), t);
    }
  }

  /** And a version is saved at `x`. */
  ghost function Forked(f: Fork, s: State): State
    requires s.db.chain == f.Tree()
  {
    Saved(Branched(f, s), f.k, f.AtX())
  }

  lemma ForkRun(f: Fork, s: State, t: State)
    requires f.Distinct() && Inv(s) && s.canonical.None? && s.db.chain == f.Tree()
    requires s.db.stored <= {f.c} && s.cache.frothy.Keys == s.db.stored
    ensures Inv(Forked(f, s)) && (Reached(Forked(f, s), t) ==> Reached(s, t))
  {
    BranchRun(f, s, t);
    Saves(Branched(f, s), f.k, f.AtX());
    if Reached(Forked(f, s), t) {
      ThenReached(Branched(f, s), Save(f.AtX(), f.k), t);
    }
  }

  // ---- The plain query ----

  lemma ForkNewest(f: Fork, db: Db, b: Hash)
    requires f.Distinct() && ValidDb(db) && db.chain == f.Tree() && b in {f.c, f.o, f.h}
    requires forall a | (a, f.k) in db.rows :: a == f.x
    ensures Newest(db, b, f.k) == None
  {
    assert Newest(db, f.c, f.k) == None;
    assert Newest(db, f.o, f.k) == None;
  }

  /** A run after which getPrevEntityVersion returns a sibling's version, where the branch has none: the
      walk ends at `o`, whose parent is not stored, and the fallback looks one above it. */
  lemma FallbackLeaks(f: Fork)
    requires f.Distinct()
    ensures var t := Forked(f, Fresh(f));
      && Init(Fresh(f)) && Reached(Fresh(f), t) && Inv(t)
      && PrevVersionAnswer(t.db, f.h, f.k, Success(Some(f.AtX()))) && Newest(t.db, f.h, f.k) == None
  {
    FreshInit(f);
    ReachedSelf(Forked(f, Fresh(f)));
    ForkRun(f, Fresh(f), Forked(f, Fresh(f)));
    ForkAnswer(f);
  }

  lemma ForkAnswer(f: Fork)
    requires f.Distinct() && ValidDb(Forked(f, Fresh(f)).db)
    ensures var db := Forked(f, Fresh(f)).db;
      PrevVersionAnswer(db, f.h, f.k, Success(Some(f.AtX()))) && Newest(db, f.h, f.k) == None
  {
    ForkNewest(f, Forked(f, Fresh(f)).db, f.h);
    ForkStop(f, Forked(f, Fresh(f)).db);
  }

  lemma ForkStop(f: Fork, db: Db)
    requires f.Distinct() && ValidDb(db) && db.chain == f.Tree() && db.stored == {f.o, f.h, f.x}
    requires forall a | (a, f.k) in db.rows :: a == f.x
    ensures FrothyStop(db, f.h, f.k) == f.o
  {
    LowestRowIsStop(db, f.h, f.k, 1);
    assert StopAt(db, f.o, f.k, 2) == f.o;
  }

  // ---- The cache ----

  /** The canonical block `c` has arrived and holds a version of another entity. */
  ghost function Based(f: Fork): State
  {
    Saved(Arrived(Fresh(f), f.c), f.k0, f.AtC())
  }

  lemma BaseRun(f: Fork, t: State)
    requires f.Distinct()
    ensures Inv(Based(f)) && (Reached(Based(f), t) ==> Reached(Fresh(f), t))
  {
    FreshInit(f);
    Arrives(Fresh(f), f.c);
    var s1 := Arrived(Fresh(f), f.c);
    Saves(s1, f.k0, f.AtC());
    if Reached(Based(f), t) {
      ThenReached(s1, Save(f.AtC(), f.k0), t);
      ThenReached(Fresh(f), AddBlock(f.c, INTERVAL), t);
    }
  }

  ghost function Pruned(f: Fork): State {
    var s := Forked(f, Based(f));
    s.(cache := CachePruned(s.cache, f.c, 1), canonical := Some(f.c))
  }

  lemma PruneRun(f: Fork)
    requires f.Distinct()
    ensures Reached(Fresh(f), Pruned(f)) && Inv(Pruned(f))
  {
    var s, t := Forked(f, Based(f)), Pruned(f);
    BaseRun(f, t);
    ForkRun(f, Based(f), t);
    StepKeeps(s, Prune(f.c));
    ReachedSelf(t);
    ThenReached(s, Prune(f.c), t);
  }

  /** Before the prune four blocks are cached. */
  lemma ForkedCache(f: Fork)
    requires f.Distinct()
    ensures var c := Forked(f, Based(f)).cache;
      && c.latest == map[] && c.frothy.Keys == {f.c, f.o, f.h, f.x}
      && c.frothy[f.c] == FrothyBlock(1, "", map[f.k0 := f.AtC()])
      && c.frothy[f.o] == FrothyBlock(2, f.c, map[]) && c.frothy[f.h] == FrothyBlock(3, f.o, map[])
          && c.frothy[f.x].number == 3
  {}

  /** What is cached then: the three blocks, and the entity of `c`. */
  lemma PrunedCache(f: Fork)
    requires f.Distinct()
    ensures var c := Pruned(f).cache;
      && c.latest == map[f.k0 := f.AtC()] && c.frothy.Keys == {f.o, f.h, f.x}
      && c.frothy[f.o] == FrothyBlock(2, f.c, map[]) && c.frothy[f.h] == FrothyBlock(3, f.o, map[])
  {
    ForkedCache(f);
  }

  /** The rows: a version at `x` is not flagged, and no other block has one of that entity. */
  lemma PrunedRows(f: Fork)
    requires f.Distinct()
    ensures var db := Pruned(f).db;
      && db.chain == f.Tree() && db.stored == {f.c, f.o, f.h, f.x} && db.pruned == {}
      && (f.x, f.k) in db.rows && db.rows[(f.x, f.k)] == f.AtX() && forall a | (a, f.k) in db.rows :: a == f.x
  {}

  lemma PrunedAnswer(f: Fork)
    requires f.Distinct() && ValidDb(Pruned(f).db)
    ensures var t := Pruned(f); var r := Success(Some(f.AtX()));
      && FrothyFalls(t.cache) && LoadAnswer(t.db, t.cache, f.h, f.k, r)
      && CacheLookup(AfterLoad(t.cache, f.h, f.k, r), f.o, f.k) == Hit(f.AtX())
  {
    PrunedCache(f);
    PrunedRows(f);
    ForkLookup(f, Pruned(f).cache);
  }

  lemma PrunedNewest(f: Fork)
    requires f.Distinct() && ValidDb(Pruned(f).db)
    ensures var db := Pruned(f).db;
      Newest(db, f.h, f.k) == None && Newest(db, f.o, f.k) == None && StoredPath(db, f.c, f.h)
  {
    PrunedRows(f);
    ForkNewest(f, Pruned(f).db, f.h);
    ForkNewest(f, Pruned(f).db, f.o);
    assert StoredPath(Pruned(f).db, f.c, f.o);
  }

  /** A run after which a load at `h` may return the version saved at `x`, because the database is asked up
      to one above the oldest cached block; the cache then serves it on every branch. */
  lemma SiblingVersionLeaks(f: Fork)
    requires f.Distinct()
    ensures var t := Pruned(f); var r := Success(Some(f.AtX()));
      && Init(Fresh(f)) && Reached(Fresh(f), t) && Inv(t) && t.canonical == Some(f.c) && StoredPath(t.db, f.c, f.h)
      && Newest(t.db, f.h, f.k) == None && Newest(t.db, f.o, f.k) == None
      && LoadAnswer(t.db, t.cache, f.h, f.k, r)
      && CacheLookup(AfterLoad(t.cache, f.h, f.k, r), f.o, f.k) == Hit(f.AtX())
  {
    FreshInit(f);
    PruneRun(f);
    PrunedNewest(f);
    PrunedAnswer(f);
  }

  lemma ForkLookup(f: Fork, c: Cache)
    requires f.Distinct() && FrothyFalls(c) && c.latest == map[f.k0 := f.AtC()]
    requires c.frothy.Keys == {f.o, f.h, f.x} && c.frothy[f.o] == FrothyBlock(2, f.c, map[])
        && c.frothy[f.h] == FrothyBlock(3, f.o, map[])
    ensures CacheLookup(c, f.h, f.k) == Miss(3)
    ensures var r := Success(Some(f.AtX())); CacheLookup(AfterLoad(c, f.h, f.k, r), f.o, f.k) == Hit(f.AtX())
  {
    assert f.k0 in c.latest;
    assert FrothyHit(c, f.o, f.k) == None && Oldest(c, f.o) == f.o;
    assert FrothyHit(c, f.h, f.k) == None && Oldest(c, f.h) == f.o;
    var c' := AfterLoad(c, f.h, f.k, Success(Some(f.AtX())));
    assert FrothyHit(c', f.o, f.k) == None && f.k in c'.latest;
  }
}
