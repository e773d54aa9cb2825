/**
  What the entity cache answers after rows were deleted behind its back: resetWatcherToBlock and, for errors
  outside the subgraph handlers, clearProcessedBlockData leave it as it is.
*/
module EntityCacheResets {
  import opened Wrappers
  import opened BlockTree
  import opened EntityCache
  import opened EntityCacheForks
  import opened EntityCacheRuns

  // ---- Blocks indexed again ----

  ghost function BlocksAbove(c: Chain, n: nat): set<Hash> {
    set h | h in c && c[h].number > n
  }

  /** After a reset all blocks of the tree above the height have come again, and no handler has run. A block
      that is cached still keeps its entry. */
  ghost function IndexedAgain(s: State, n: nat, picked: Hash): State
    requires ValidDb(s.db)
  {
    var r, chain, above := ResetTo(s, n, picked), s.db.chain, BlocksAbove(s.db.chain, n);
    r.(db := r.db.(stored := r.db.stored + above),
       cache := r.cache.(frothy := map h | h in r.cache.frothy.Keys + above ::
         if h in r.cache.frothy then r.cache.frothy[h] else FrothyBlock(chain[h].number, chain[h].parent, map[])))
  }

  /** An entry that is in the cache stays. */
  lemma AgainEntry(s: State, n: nat, picked: Hash, h: Hash)
    requires ValidDb(s.db) && h in s.cache.frothy
    ensures var c := IndexedAgain(s, n, picked).cache; h in c.frothy && c.frothy[h] == s.cache.frothy[h]
  {}

  lemma AgainStored(s: State, n: nat, picked: Hash, h: Hash)
    requires ValidDb(s.db) && h in s.db.stored
    ensures h in IndexedAgain(s, n, picked).db.stored
  {}

  ghost predicate MissGiven(db: Db, c: Cache, h: Hash, k: Key)
    requires ValidDb(db) && FrothyFalls(c) && h in db.chain
  {
    CacheLookup(c, h, k).Miss? ==> NoneOffBranch(db, h, k, CacheLookup(c, h, k).bound)
  }

  /** Every load of a block that stored blocks link to the canonical one returns the newest version on its
      branch. */
  ghost predicate AllRight(t: State)
    requires ValidDb(t.db) && FrothyFalls(t.cache) && t.canonical.Some?
  {
    forall h, k, r | h in t.db.stored && StoredPath(t.db, t.canonical.value, h) && MissGiven(t.db, t.cache, h, k) ::
      LoadAnswer(t.db, t.cache, h, k, r) ==> r == Success(Newest(t.db, h, k))
  }

  /** No cached entity that such a load can meet belongs to a block above the height. */
  ghost predicate NoneAbove(t: State, n: nat)
    requires ValidDb(t.db) && t.canonical.Some?
  {
    && (forall k | k in t.cache.latest :: t.cache.latest[k].number <= n)
    && forall h | h in t.db.chain && h in t.cache.frothy && StoredPath(t.db, t.canonical.value, h) ::
         t.db.chain[h].number > n ==> t.cache.frothy[h].entities == map[]
  }

  lemma AgainGood(s: State, n: nat, picked: Hash)
    requires Inv(s) && ResetGiven(s, n, picked) && s.cache.latest != map[]
    ensures var t := IndexedAgain(s, n, picked);
      && ValidDb(t.db) && FrothyFalls(t.cache) && t.canonical.Some? && t.canonical.value in t.db.chain
      && t.db.chain[t.canonical.value].number <= n && Ancestor(s.db.chain, t.canonical.value, s.canonical.value)
      && t.canonical.value !in t.cache.frothy && BranchUnpruned(t.db, t.canonical.value)
  {
    ResetCanonical(s, n, picked);
    ResetKeepsCanonical(s, n, picked);
  }

  lemma AgainNewest(s: State, n: nat, picked: Hash, h: Hash, k: Key)
    requires Inv(s) && ValidDb(ResetTo(s, n, picked).db) && ValidDb(IndexedAgain(s, n, picked).db) && h in s.db.chain
    ensures Newest(IndexedAgain(s, n, picked).db, h, k) == Newest(ResetTo(s, n, picked).db, h, k)
  {
    NewestFrame(IndexedAgain(s, n, picked).db, ResetTo(s, n, picked).db, h, k);
  }

  /** A path through blocks that were kept was there before. */
  lemma {:induction false} OldPath(s: State, n: nat, picked: Hash, c: Hash, h: Hash)
    requires ValidDb(s.db) && ValidDb(IndexedAgain(s, n, picked).db) && h in s.db.chain && s.db.chain[h].number <= n
    requires StoredPath(IndexedAgain(s, n, picked).db, c, h)
    ensures StoredPath(s.db, c, h)
    decreases s.db.chain[h].number
  {
    if s.db.chain[h].parent != c {
      OldPath(s, n, picked, c, s.db.chain[h].parent);
    }
  }

  /** Such a path to a block that is not above the height starts at the old canonical block. */
  lemma KeptCached(s: State, n: nat, picked: Hash, h: Hash)
    requires Inv(s) && ResetGiven(s, n, picked) && s.cache.latest != map[] && h in s.db.chain
    requires ValidDb(IndexedAgain(s, n, picked).db) && IndexedAgain(s, n, picked).canonical.Some?
    requires s.db.chain[h].number <= n
    requires var t := IndexedAgain(s, n, picked); StoredPath(t.db, t.canonical.value, h)
    ensures h in s.cache.frothy
  {
    AgainGood(s, n, picked);
    var t := IndexedAgain(s, n, picked);
    PathDescends(t.db, t.canonical.value, h);
    assert t.canonical == s.canonical;
    OldPath(s, n, picked, s.canonical.value, h);
  }

  lemma AgainMirrored(s: State, n: nat, picked: Hash, h: Hash)
    requires Inv(s) && ResetGiven(s, n, picked) && s.cache.latest != map[]
    requires ValidDb(IndexedAgain(s, n, picked).db) && IndexedAgain(s, n, picked).canonical.Some?
    requires var t := IndexedAgain(s, n, picked);
      NoneAbove(t, n) && h in t.db.stored && StoredPath(t.db, t.canonical.value, h)
    ensures var t := IndexedAgain(s, n, picked); BlockMirrored(t.db, t.cache, h)
  {
    if s.db.chain[h].number <= n {
      KeptCached(s, n, picked, h);
    }
  }

  lemma AgainLatest(s: State, n: nat, picked: Hash, k: Key)
    requires Inv(s) && ResetGiven(s, n, picked) && k in s.cache.latest && s.cache.latest[k].number <= n
    ensures var t := IndexedAgain(s, n, picked);
      && ValidDb(t.db) && t.canonical.Some? && t.canonical.value in t.db.chain
      && Newest(t.db, t.canonical.value, k) == Some(s.cache.latest[k])
  {
    AgainGood(s, n, picked);
    ResetKeepsLatest(s, n, picked, k);
    AgainNewest(s, n, picked, IndexedAgain(s, n, picked).canonical.value, k);
  }

  ghost predicate AgainReady(t: State) {
    ValidDb(t.db) && FrothyFalls(t.cache) && t.canonical.Some? && t.canonical.value in t.db.chain
  }

  lemma AgainPaths(s: State, n: nat, picked: Hash)
    requires Inv(s) && ResetGiven(s, n, picked) && s.cache.latest != map[]
    requires AgainReady(IndexedAgain(s, n, picked)) && NoneAbove(IndexedAgain(s, n, picked), n)
    ensures var t := IndexedAgain(s, n, picked); PathsCached(t.db, t.cache, t.canonical.value)
  {
    AgainGood(s, n, picked);
    var t := IndexedAgain(s, n, picked);
    forall h | h in t.db.stored && StoredPath(t.db, t.canonical.value, h)
      ensures BlockMirrored(t.db, t.cache, h)
    {
      AgainMirrored(s, n, picked, h);
    }
  }

  lemma AgainAnswer(t: State, h: Hash, k: Key, r: Result<Option<Entity>>)
    requires AgainReady(t) && PathsCached(t.db, t.cache, t.canonical.value) && BranchUnpruned(t.db, t.canonical.value)
    requires t.cache.latest != map[]
    requires k in t.cache.latest ==> Newest(t.db, t.canonical.value, k) == Some(t.cache.latest[k])
    requires h in t.db.stored && StoredPath(t.db, t.canonical.value, h) && MissGiven(t.db, t.cache, h, k)
    requires LoadAnswer(t.db, t.cache, h, k, r)
    ensures r == Success(Newest(t.db, h, k))
  {
    assert BlockMirrored(t.db, t.cache, h);
    NewestSpec(t.db, t.canonical.value, k);
    WarmAnswer(t.db, t.cache, t.canonical.value, h, k, r);
  }

  lemma NoneAboveRight(s: State, n: nat, picked: Hash)
    requires Inv(s) && ResetGiven(s, n, picked) && s.cache.latest != map[]
    requires AgainReady(IndexedAgain(s, n, picked)) && NoneAbove(IndexedAgain(s, n, picked), n)
    ensures AllRight(IndexedAgain(s, n, picked))
  {
    AgainGood(s, n, picked);
    AgainPaths(s, n, picked);
    var t := IndexedAgain(s, n, picked);
    forall h, k, r | h in t.db.stored && StoredPath(t.db, t.canonical.value, h) && MissGiven(t.db, t.cache, h, k)
        && LoadAnswer(t.db, t.cache, h, k, r)
      ensures r == Success(Newest(t.db, h, k))
    {
      if k in t.cache.latest {
        AgainLatest(s, n, picked, k);
      }
      AgainAnswer(t, h, k, r);
    }
  }

  /** The block on top of `a` on the branch of `h`. */
  lemma {:induction false} ChildToward(c: Chain, a: Hash, h: Hash) returns (b: Hash)
    requires WellFormed(c) && h in c && Ancestor(c, a, h) && a != h
    ensures b in c && c[b].parent == a && Ancestor(c, b, h)
    decreases c[h].number
  {
    if c[h].parent == a {
      assert Ancestor(c, h, h);
      b := h;
    } else {
      b := ChildToward(c, a, c[h].parent);
    }
  }

  lemma Deleted(s: State, n: nat, picked: Hash, h: Hash, k: Key, e: Entity)
    requires ValidDb(s.db) && ValidDb(IndexedAgain(s, n, picked).db) && h in s.db.chain && e.number > n
    ensures Newest(IndexedAgain(s, n, picked).db, h, k) != Some(e)
  {
    NewestSpec(IndexedAgain(s, n, picked).db, h, k);
  }

  /** A cached pruned entity from above the height is returned to the block on top of the new canonical one. */
  lemma StaleLatest(s: State, n: nat, picked: Hash, k: Key) returns (h: Hash)
    requires Inv(s) && ResetGiven(s, n, picked) && k in s.cache.latest && s.cache.latest[k].number > n
    ensures var t, r := IndexedAgain(s, n, picked), Success(Some(s.cache.latest[k]));
      && ValidDb(t.db) && FrothyFalls(t.cache) && t.canonical.Some? && h in t.db.stored
      && StoredPath(t.db, t.canonical.value, h) && CacheLookup(t.cache, h, k).Hit?
      && LoadAnswer(t.db, t.cache, h, k, r) && r != Success(Newest(t.db, h, k))
  {
    AgainGood(s, n, picked);
    var e, c, t := s.cache.latest[k], s.canonical.value, IndexedAgain(s, n, picked);
    NewestSpec(s.db, c, k);
    AncestorNumber(s.db.chain, e.hash, c);
    h := ChildToward(s.db.chain, t.canonical.value, c);
    assert h !in s.cache.frothy && s.db.chain[h].number > n;
    assert FrothyHit(t.cache, h, k) == None;
    Deleted(s, n, picked, h, k, e);
  }

  /** A block that is still cached with an entity reads its own earlier version. */
  lemma StaleFrothy(s: State, n: nat, picked: Hash, h: Hash, k: Key)
    requires Inv(s) && ResetGiven(s, n, picked) && s.cache.latest != map[]
    requires h in s.cache.frothy && s.cache.frothy[h].number > n && k in s.cache.frothy[h].entities
    ensures var t, r := IndexedAgain(s, n, picked), Success(Some(s.cache.frothy[h].entities[k]));
      && ValidDb(t.db) && FrothyFalls(t.cache) && h in t.db.stored && CacheLookup(t.cache, h, k).Hit?
      && LoadAnswer(t.db, t.cache, h, k, r) && r != Success(Newest(t.db, h, k))
  {
    AgainGood(s, n, picked);
    Deleted(s, n, picked, h, k, s.cache.frothy[h].entities[k]);
  }

  /** When the cache is in use: once the blocks above the reset height are indexed again, every answer is the
      newest version if and only if no cached entity on the way to the canonical block is from above that
      height. */
  lemma ResetAnswersExact(s: State, n: nat, picked: Hash)
    requires Inv(s) && ResetGiven(s, n, picked) && s.cache.latest != map[]
    ensures var t := IndexedAgain(s, n, picked); ValidDb(t.db) && FrothyFalls(t.cache) && t.canonical.Some?
    ensures var t := IndexedAgain(s, n, picked); AllRight(t) <==> NoneAbove(t, n)
  {
    AgainGood(s, n, picked);
    var t := IndexedAgain(s, n, picked);
    if NoneAbove(t, n) {
      NoneAboveRight(s, n, picked);
    }
    if AllRight(t) {
      RightNoneAbove(s, n, picked);
    }
  }

  lemma RightNoneAbove(s: State, n: nat, picked: Hash)
    requires Inv(s) && ResetGiven(s, n, picked) && s.cache.latest != map[]
    requires AgainReady(IndexedAgain(s, n, picked)) && AllRight(IndexedAgain(s, n, picked))
    ensures NoneAbove(IndexedAgain(s, n, picked), n)
  {
    var t := IndexedAgain(s, n, picked);
    forall k | k in t.cache.latest
      ensures t.cache.latest[k].number <= n
    {
      if t.cache.latest[k].number > n {
        var h := StaleLatest(s, n, picked, k);
      }
    }
    forall h | h in t.db.chain && h in t.cache.frothy && StoredPath(t.db, t.canonical.value, h)
      ensures t.db.chain[h].number > n ==> t.cache.frothy[h].entities == map[]
    {
      if t.db.chain[h].number > n && h in s.cache.frothy && s.cache.frothy[h].entities != map[] {
        var k :| k in s.cache.frothy[h].entities;
        StaleFrothy(s, n, picked, h, k);
      }
    }
  }

  // ---- Errors outside the handlers ----

  /** The cache stays as the rows are if and only if no entity was saved at the block. */
  lemma ErrorExact(s: State, h: Hash)
    requires Inv(s) && ErrorGiven(s, h)
    ensures Inv(AfterError(s, h)) <==> NoEntitiesAt(s.cache, h)
  {
    if NoEntitiesAt(s.cache, h) {
      ErrorKeeps(s, h);
    } else {
      var k :| k in s.cache.frothy[h].entities;
      assert (h, k) !in AfterError(s, h).db.rows;
    }
  }

  lemma InvRight(t: State)
    requires Inv(t) && t.cache.latest != map[]
    ensures t.canonical.Some? && AllRight(t)
  {
    CachedPaths(t);
    forall h, k, r | h in t.db.stored && StoredPath(t.db, t.canonical.value, h) && MissGiven(t.db, t.cache, h, k)
        && LoadAnswer(t.db, t.cache, h, k, r)
      ensures r == Success(Newest(t.db, h, k))
    {
      AgainAnswer(t, h, k, r);
    }
  }

  lemma StaleAfterError(s: State, h: Hash, k: Key)
    requires Inv(s) && s.cache.latest != map[] && h in s.cache.frothy && k in s.cache.frothy[h].entities
    ensures var t, r := AfterError(s, h), Success(Some(s.cache.frothy[h].entities[k]));
      && ValidDb(t.db) && LoadAnswer(t.db, t.cache, h, k, r) && MissGiven(t.db, t.cache, h, k)
      && r != Success(Newest(t.db, h, k))
  {
    NewestSpec(AfterError(s, h).db, h, k);
  }

  /** When the cache is in use: after an error outside the handlers every answer is the newest version if and
      only if no entity was saved at the block; otherwise its retry reads what the failed attempt has saved. */
  lemma ErrorAnswersExact(s: State, h: Hash)
    requires Inv(s) && ErrorGiven(s, h) && s.cache.latest != map[]
    requires h in s.db.stored && StoredPath(s.db, s.canonical.value, h)
    ensures var t := AfterError(s, h); ValidDb(t.db) && (AllRight(t) <==> NoEntitiesAt(s.cache, h))
  {
    var t := AfterError(s, h);
    SamePath(t.db, s.db, s.canonical.value, h);
    if NoEntitiesAt(s.cache, h) {
      ErrorKeeps(s, h);
      InvRight(t);
    } else {
      var k :| k in s.cache.frothy[h].entities;
      StaleAfterError(s, h, k);
    }
  }

  // ---- Runs that get there ----

  /** The block `x` is cached with an entity, and the cache is in use. */
  ghost predicate HasForkEntity(f: Fork, s: State) {
    && s.canonical == Some(f.c) && s.db.chain == f.Tree() && s.db.stored == {f.c, f.o, f.h, f.x}
    && f.k0 in s.cache.latest && f.x in s.cache.frothy
    && s.cache.frothy[f.x].number == 3 && f.k in s.cache.frothy[f.x].entities
  }

  lemma ForkEntity(f: Fork)
    requires f.Distinct()
    ensures HasForkEntity(f, Pruned(f))
  {
    ForkedCache(f);
  }

  lemma PathToX(f: Fork, db: Db)
    requires f.Distinct() && ValidDb(db) && db.chain == f.Tree() && {f.o, f.x} <= db.stored
    ensures StoredPath(db, f.c, f.x) && !Ancestor(db.chain, f.x, f.c)
  {
    assert StoredPath(db, f.c, f.o);
  }

  lemma ForkReset(f: Fork, s: State)
    requires f.Distinct() && Inv(s) && HasForkEntity(f, s)
    ensures ResetGiven(s, 2, f.o) && !CacheBelow(s.cache, 2) && s.cache.latest != map[]
  {}

  lemma ForkAgainHolds(f: Fork, s: State)
    requires f.Distinct() && ValidDb(s.db) && HasForkEntity(f, s)
    ensures var t := IndexedAgain(s, 2, f.o);
      && t.canonical == Some(f.c) && t.db.chain == f.Tree() && {f.o, f.x} <= t.db.stored
      && f.x in t.cache.frothy && f.k in t.cache.frothy[f.x].entities
  {
    AgainEntry(s, 2, f.o, f.x);
    AgainStored(s, 2, f.o, f.x);
    AgainStored(s, 2, f.o, f.o);
  }

  lemma ForkAgain(f: Fork, s: State)
    requires f.Distinct() && Inv(s) && HasForkEntity(f, s) && ResetGiven(s, 2, f.o) && s.cache.latest != map[]
    ensures var t := IndexedAgain(s, 2, f.o); AgainReady(t) && !NoneAbove(t, 2)
  {
    AgainGood(s, 2, f.o);
    ForkAgainHolds(f, s);
    ForkAbove(f, IndexedAgain(s, 2, f.o));
  }

  lemma ForkAbove(f: Fork, t: State)
    requires f.Distinct() && AgainReady(t) && t.canonical == Some(f.c) && t.db.chain == f.Tree()
    requires {f.o, f.x} <= t.db.stored && f.x in t.cache.frothy && f.k in t.cache.frothy[f.x].entities
    ensures !NoneAbove(t, 2)
  {
    PathToX(f, t.db);
  }

  /** A run after which a reset to height 2 leaves the version saved at height 3 in the cache. */
  lemma ResetGoesStale(f: Fork)
    requires f.Distinct()
    ensures var s := Pruned(f);
      && Init(Fresh(f)) && Reached(Fresh(f), s) && Inv(s) && ResetGiven(s, 2, f.o)
      && !CacheBelow(s.cache, 2) && !Inv(ResetTo(s, 2, f.o))
    ensures var t := IndexedAgain(Pruned(f), 2, f.o);
      ValidDb(t.db) && FrothyFalls(t.cache) && t.canonical.Some? && !AllRight(t)
  {
    FreshInit(f);
    PruneRun(f);
    ForkEntity(f);
    ForkReset(f, Pruned(f));
    ResetExact(Pruned(f), 2, f.o);
    ForkAgain(f, Pruned(f));
    ResetAnswersExact(Pruned(f), 2, f.o);
  }

  /** A run after which an error at a block leaves the version saved there in the cache. */
  lemma ErrorGoesStale(f: Fork)
    requires f.Distinct()
    ensures var s := Pruned(f);
      && Init(Fresh(f)) && Reached(Fresh(f), s) && Inv(s) && ErrorGiven(s, f.x) && !Inv(AfterError(s, f.x))
    ensures var t := AfterError(Pruned(f), f.x);
      ValidDb(t.db) && FrothyFalls(t.cache) && t.canonical.Some? && !AllRight(t)
  {
    FreshInit(f);
    PruneRun(f);
    ForkEntity(f);
    PathToX(f, Pruned(f).db);
    ErrorExact(Pruned(f), f.x);
    ErrorAnswersExact(Pruned(f), f.x);
  }
}
