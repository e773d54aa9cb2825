/**
  Runs of the entity cache: blocks become frothy, subgraph handlers load and save entities, blocks
  and versions get pruned, handlers fail. Every answer of every run is the newest version of the
  branch that was asked for.
*/
module EntityCacheRuns {
  import opened Wrappers
  import opened BlockTree
  import opened EntityCache

  /** `canonical` records history: the last block at which the cache was pruned. */
  datatype State = State(db: Db, cache: Cache, canonical: Option<Hash>)

  datatype Step =
    | AddBlock(h: Hash, clearInterval: nat)
    | Save(e: Entity, k: Key)
    | Load(h: Hash, k: Key, r: Result<Option<Entity>>)
    | MarkPruned(marked: set<(Hash, Key)>)
    | Prune(h: Hash)
    | HandlerError(h: Hash)
    | ProcessingError(h: Hash)
    | Reset(n: nat, picked: Hash)

  /** What getModelEntity may return. */
  ghost predicate LoadAnswer(db: Db, c: Cache, h: Hash, k: Key, r: Result<Option<Entity>>)
    requires ValidDb(db) && FrothyFalls(c)
  {
    match CacheLookup(c, h, k)
    case Hit(e) => r == Success(Some(e))
    case Miss(bound) => r.Success? && IsLatestUnpruned(db, k, bound, r.value)
    case Bypass => PrevVersionAnswer(db, h, k, r)
  }

  /** A load that went to the database below the cached blocks leaves its answer in the cache. */
  ghost function AfterLoad(c: Cache, h: Hash, k: Key, r: Result<Option<Entity>>): Cache
    requires FrothyFalls(c)
  {
    if CacheLookup(c, h, k).Miss? && r.Success? && r.value.Some?
    then c.(latest := c.latest[k := r.value.value])
    else c
  }

  /** Parent links lead from `h` to a child of `c` through stored blocks only. */
  ghost predicate StoredPath(db: Db, c: Hash, h: Hash)
    requires ValidDb(db) && h in db.chain
    decreases db.chain[h].number
  {
    h in db.stored && (db.chain[h].parent == c || (db.chain[h].parent in db.chain
        && StoredPath(db, c, db.chain[h].parent)))
  }

  /** The caller's side of a load: the block descends from the last canonical block through stored blocks,
      and a query that has to go to the database does not meet unpruned versions of other branches. */
  ghost predicate LoadGiven(s: State, h: Hash, k: Key)
    requires Inv(s)
  {
    && h in s.db.stored
    && (s.canonical.Some? ==> h == s.canonical.value || StoredPath(s.db, s.canonical.value, h))
    && match CacheLookup(s.cache, h, k)
       case Hit(_) => true
       case Miss(bound) => NoneOffBranch(s.db, h, k, bound)
       case Bypass => PrevVersionGiven(s.db, h, k)
  }

  ghost predicate HasRows(db: Db, h: Hash) {
    exists k :: (h, k) in db.rows
  }

  ghost predicate BranchUnpruned(db: Db, h: Hash)
    requires ValidDb(db) && h in db.chain
  {
    forall a, k | (a, k) in db.rows && Ancestor(db.chain, a, h) :: (a, k) !in db.pruned
  }

  /** A block is processed before any block on top of it is stored. That is so for every block above the
      canonical height (Realtime.ParentsComplete); for a late block it is a condition. */
  ghost predicate NothingOnTop(s: State, h: Hash)
    requires ValidDb(s.db)
  {
    forall x | x in s.db.stored && s.db.chain[x].parent == h :: x in s.cache.frothy
  }

  /** What resetWatcherToBlock(n) asks for: a block at that height, on the canonical branch if it is below
      the canonical block. */
  ghost predicate ResetGiven(s: State, n: nat, picked: Hash)
    requires ValidDb(s.db)
  {
    && picked in s.db.stored && s.db.chain[picked].number == n
    && (s.canonical.Some? && s.canonical.value in s.db.chain && s.db.chain[s.canonical.value].number > n ==>
          Ancestor(s.db.chain, picked, s.canonical.value))
  }

  /** No entity in the cache belongs to a block above the height. */
  ghost predicate CacheBelow(c: Cache, n: nat) {
    && (forall h | h in c.frothy && c.frothy[h].number > n :: c.frothy[h].entities == map[])
    && (forall k | k in c.latest :: c.latest[k].number <= n)
  }

  ghost predicate ErrorGiven(s: State, h: Hash)
    requires ValidDb(s.db)
  {
    s.canonical.Some? && s.canonical.value in s.db.chain ==> !Ancestor(s.db.chain, h, s.canonical.value)
  }

  /** The block is not cached, or without entities. */
  predicate NoEntitiesAt(c: Cache, h: Hash) {
    h in c.frothy ==> c.frothy[h].entities == map[]
  }

  /** clearProcessedBlockData after an error outside the subgraph handlers deletes the versions saved at the
      block, and leaves the cache as it is. */
  ghost function AfterError(s: State, h: Hash): State {
    s.(db := s.db.(rows := map p | p in s.db.rows && p.0 != h :: s.db.rows[p]))
  }

  /** When the steps can happen. Blocks may come late, at or below the canonical height, and forks may
      start anywhere; only the canonical block and its ancestors are not processed again. */
  ghost predicate Enabled(s: State, step: Step)
    requires Inv(s)
  {
    var chain := s.db.chain;
    match step
    case AddBlock(h, clearInterval) =>
      && clearInterval > 0 && h in chain
      && (s.canonical.Some? ==> !Ancestor(chain, h, s.canonical.value))
      && (h !in s.cache.frothy ==> !HasRows(s.db, h) && NothingOnTop(s, h))
    case Save(e, k) =>
      && e.hash in s.db.stored && e.number == chain[e.hash].number
      && (s.canonical.Some? ==> !Ancestor(chain, e.hash, s.canonical.value))
    case Load(h, k, r) => LoadGiven(s, h, k) && LoadAnswer(s.db, s.cache, h, k, r)
    case MarkPruned(marked) =>
      s.canonical.Some? ==> forall p | p in marked :: !Ancestor(chain, p.0, s.canonical.value)
    case Prune(h) =>
      && h in s.db.stored && BranchUnpruned(s.db, h)
      && (s.canonical.Some? ==> chain[h].parent == s.canonical.value)
    case HandlerError(h) => s.canonical.Some? ==> !Ancestor(chain, h, s.canonical.value)
    case ProcessingError(h) => ErrorGiven(s, h) && NoEntitiesAt(s.cache, h)
    case Reset(n, picked) => ResetGiven(s, n, picked) && CacheBelow(s.cache, n)
  }

  /** resetWatcherToBlock deletes blocks and versions above the height, and leaves the cache as it is. */
  ghost function ResetTo(s: State, n: nat, picked: Hash): State
    requires ValidDb(s.db)
  {
    var chain := s.db.chain;
    var rows := map p | p in s.db.rows && s.db.rows[p].number <= n :: s.db.rows[p];
    var kept := set h | h in s.db.stored && chain[h].number <= n;
    var above := s.canonical.Some? && s.canonical.value in chain && chain[s.canonical.value].number > n;
    s.(db := Db(chain, kept, rows, s.db.pruned * rows.Keys), canonical := if above then Some(picked) else s.canonical)
  }

  ghost function Next(s: State, step: Step): State
    requires Inv(s) && Enabled(s, step)
  {
    var chain := s.db.chain;
    match step
    case AddBlock(h, clearInterval) =>
      s.(db := s.db.(stored := s.db.stored + {h}), cache := FrothyBlockAdded(s.cache, h, chain[h], clearInterval))
    case Save(e, k) =>
      s.(db := s.db.(rows := s.db.rows[(e.hash, k) := e]), cache := CacheSaved(s.cache, k, e))
    case Load(h, k, r) =>
      s.(cache := AfterLoad(s.cache, h, k, r))
    case MarkPruned(marked) =>
      s.(db := s.db.(pruned := s.db.pruned + marked))
    case Prune(h) =>
      s.(cache := CachePruned(s.cache, h, chain[h].number), canonical := Some(h))
    case HandlerError(h) => AfterError(s, h).(cache := Cache(map[], map[]))
    case ProcessingError(h) => AfterError(s, h)
    case Reset(n, picked) => ResetTo(s, n, picked)
  }

  ghost predicate Init(s: State) {
    ValidDb(s.db) && s.cache == Cache(map[], map[]) && s.canonical.None?
  }

  // ---- The invariant ----

  /** Cached blocks are blocks of the tree, and a stored block on top of a cached one is cached. */
  ghost predicate FrothyLinked(s: State)
    requires ValidDb(s.db)
  {
    var chain := s.db.chain;
    && (forall h | h in s.cache.frothy ::
          h in chain && s.cache.frothy[h].number == chain[h].number && s.cache.frothy[h].parent == chain[h].parent)
    && (forall h | h in s.db.stored && chain[h].parent in s.cache.frothy :: h in s.cache.frothy)
  }

  /** A cached block holds exactly the versions saved at it. */
  ghost predicate Mirrored(s: State) {
    forall h, k | h in s.cache.frothy ::
      && (k in s.cache.frothy[h].entities <==> (h, k) in s.db.rows)
      && (k in s.cache.frothy[h].entities ==> s.cache.frothy[h].entities[k] == s.db.rows[(h, k)])
  }

  ghost predicate CanonicalInv(s: State)
    requires ValidDb(s.db)
  {
    s.canonical.Some? ==>
      && s.canonical.value in s.db.chain && BranchUnpruned(s.db, s.canonical.value)
      && forall h | h in s.cache.frothy :: !Ancestor(s.db.chain, h, s.canonical.value)
  }

  /** Every block that stored blocks link to the canonical one is cached. */
  ghost predicate AllCached(s: State, c: Hash)
    requires ValidDb(s.db)
  {
    forall h | h in s.db.stored && StoredPath(s.db, c, h) :: h in s.cache.frothy
  }

  /** A cached pruned entity is the newest version at the canonical block. */
  ghost predicate LatestInv(s: State)
    requires ValidDb(s.db) && CanonicalInv(s)
  {
    s.cache.latest != map[] ==>
      && s.canonical.Some? && AllCached(s, s.canonical.value)
      && forall k | k in s.cache.latest :: Newest(s.db, s.canonical.value, k) == Some(s.cache.latest[k])
  }

  ghost predicate Inv(s: State) {
    && ValidDb(s.db) && FrothyLinked(s) && Mirrored(s) && CanonicalInv(s) && LatestInv(s) && FrothyFalls(s.cache)
  }

  // ---- One answer ----

  lemma {:induction false} PathDescends(db: Db, c: Hash, h: Hash)
    requires ValidDb(db) && h in db.chain && StoredPath(db, c, h) && c in db.chain
    ensures Ancestor(db.chain, c, h) && db.chain[c].number < db.chain[h].number
    decreases db.chain[h].number
  {
    if db.chain[h].parent == c {
      assert Ancestor(db.chain, c, c);
    } else {
      PathDescends(db, c, db.chain[h].parent);
    }
  }

  /** A cached block is as in the tree, and holds exactly the versions saved at it. */
  ghost predicate BlockMirrored(db: Db, c: Cache, h: Hash) {
    && h in c.frothy && h in db.chain
    && c.frothy[h].number == db.chain[h].number && c.frothy[h].parent == db.chain[h].parent
    && forall k ::
         && (k in c.frothy[h].entities <==> (h, k) in db.rows)
         && (k in c.frothy[h].entities ==> c.frothy[h].entities[k] == db.rows[(h, k)])
  }

  /** The blocks above `base` that stored blocks link to it are cached, and `base` itself is not. */
  ghost predicate PathsCached(db: Db, c: Cache, base: Hash)
    requires ValidDb(db)
  {
    && base in db.chain && base !in c.frothy
    && forall h | h in db.stored && StoredPath(db, base, h) :: BlockMirrored(db, c, h)
  }

  /** From a cached block on a stored path down to `base` the walk meets every version above it. */
  lemma {:induction false} WarmWalk(db: Db, c: Cache, base: Hash, h: Hash, k: Key)
    requires ValidDb(db) && FrothyFalls(c) && PathsCached(db, c, base) && h in db.chain && StoredPath(db, base, h)
    ensures h in c.frothy && Oldest(c, h) in db.chain && Ancestor(db.chain, Oldest(c, h), h)
    ensures FrothyHit(c, h, k).Some? ==> Newest(db, h, k) == FrothyHit(c, h, k)
    ensures FrothyHit(c, h, k).None? ==> Newest(db, h, k) == Newest(db, base, k)
    ensures FrothyHit(c, h, k).None? ==> Newest(db, h, k) == Newest(db, Oldest(c, h), k)
    ensures c.frothy[Oldest(c, h)].number == db.chain[Oldest(c, h)].number
    decreases db.chain[h].number
  {
    assert BlockMirrored(db, c, h);
    if db.chain[h].parent == base {
      assert Ancestor(db.chain, h, h);
    } else {
      WarmWalk(db, c, base, db.chain[h].parent, k);
    }
  }

  /** An answer that uses the cache is the newest version, if the cached pruned entities are those of `base`. */
  lemma WarmAnswer(db: Db, c: Cache, base: Hash, h: Hash, k: Key, r: Result<Option<Entity>>)
    requires ValidDb(db) && FrothyFalls(c) && PathsCached(db, c, base) && h in db.chain && StoredPath(db, base, h)
    requires k in c.latest ==> Newest(db, base, k) == Some(c.latest[k])
    requires CacheLookup(c, h, k).Miss? ==> NoneOffBranch(db, h, k, CacheLookup(c, h, k).bound)
    requires NewestUnpruned(db, base, k)
    requires !CacheLookup(c, h, k).Bypass? && LoadAnswer(db, c, h, k, r)
    ensures r == Success(Newest(db, h, k))
  {
    WarmWalk(db, c, base, h, k);
    if CacheLookup(c, h, k).Miss? {
      BranchFallback(db, h, Oldest(c, h), k, r.value);
    }
  }

  lemma CachedPaths(s: State)
    requires Inv(s) && s.cache.latest != map[]
    ensures s.canonical.Some? && PathsCached(s.db, s.cache, s.canonical.value)
  {
    var c := s.canonical.value;
    assert Ancestor(s.db.chain, c, c);
    forall h | h in s.db.stored && StoredPath(s.db, c, h)
      ensures BlockMirrored(s.db, s.cache, h)
    {
      assert h in s.cache.frothy;
    }
  }

  /** A lookup that uses the cache is for a block above the canonical one. */
  lemma MissPath(s: State, h: Hash, k: Key)
    requires Inv(s) && LoadGiven(s, h, k) && !CacheLookup(s.cache, h, k).Bypass?
    ensures s.cache.latest != map[] && h in s.cache.frothy && StoredPath(s.db, s.canonical.value, h)
  {
    assert Ancestor(s.db.chain, h, h);
  }

  /** getModelEntity returns the newest version on the branch of the block asked for. */
  lemma AnswerIsNewest(s: State, h: Hash, k: Key, r: Result<Option<Entity>>)
    requires Inv(s) && LoadGiven(s, h, k) && LoadAnswer(s.db, s.cache, h, k, r)
    ensures r == Success(Newest(s.db, h, k))
  {
    if CacheLookup(s.cache, h, k).Bypass? {
      PrevVersionIsNewest(s.db, h, k, r);
    } else {
      MissPath(s, h, k);
      CachedPaths(s);
      NewestSpec(s.db, s.canonical.value, k);
      WarmAnswer(s.db, s.cache, s.canonical.value, h, k, r);
    }
  }

  // ---- The invariant is kept ----

  lemma NumberNotAncestor(c: Chain, a: Hash, h: Hash)
    requires WellFormed(c) && h in c && a in c && c[a].number > c[h].number
    ensures !Ancestor(c, a, h)
  {
    if Ancestor(c, a, h) {
      AncestorNumber(c, a, h);
    }
  }

  lemma CanonicalNewestKept(s: State, db': Db)
    requires Inv(s) && ValidDb(db') && db'.chain == s.db.chain && s.canonical.Some?
    requires forall a, k | Ancestor(s.db.chain, a, s.canonical.value) :: (a, k) in s.db.rows <==> (a, k) in db'.rows
    requires forall a, k | Ancestor(s.db.chain, a, s.canonical.value) && (a, k) in s.db.rows ::
        s.db.rows[(a, k)] == db'.rows[(a, k)]
    ensures forall k :: Newest(s.db, s.canonical.value, k) == Newest(db', s.canonical.value, k)
  {
    forall k {
      NewestFrame(s.db, db', s.canonical.value, k);
    }
  }

  /** With one more block stored and cached, everything on a stored path is still cached. */
  lemma {:induction false} AddedPath(s: State, s': State, b: Hash, c: Hash, h: Hash)
    requires ValidDb(s.db) && ValidDb(s'.db) && s'.db.chain == s.db.chain && s'.db.stored == s.db.stored + {b}
    requires b in s.db.chain && AllCached(s, c) && FrothyLinked(s') && s.cache.frothy.Keys + {b} == s'.cache.frothy.Keys
    requires h in s.db.chain && StoredPath(s'.db, c, h)
    ensures h in s'.cache.frothy
    decreases s.db.chain[h].number
  {
    if h != b && s.db.chain[h].parent != c {
      AddedPath(s, s', b, c, s.db.chain[h].parent);
    } else if h != b {
      assert StoredPath(s.db, c, h);
    }
  }

  lemma AddBlockLinks(s: State, h: Hash, clearInterval: nat)
    requires Inv(s) && Enabled(s, AddBlock(h, clearInterval))
    ensures var s' := Next(s, AddBlock(h, clearInterval));
      ValidDb(s'.db) && FrothyLinked(s') && FrothyFalls(s'.cache) && Mirrored(s') && CanonicalInv(s')
  {
    if s.canonical.Some? {
      CanonicalNewestKept(s, Next(s, AddBlock(h, clearInterval)).db);
    }
  }

  lemma AddBlockKeeps(s: State, h: Hash, clearInterval: nat)
    requires Inv(s) && Enabled(s, AddBlock(h, clearInterval))
    ensures Inv(Next(s, AddBlock(h, clearInterval)))
  {
    AddBlockLinks(s, h, clearInterval);
    var s' := Next(s, AddBlock(h, clearInterval));
    if s'.cache.latest != map[] {
      var c := s.canonical.value;
      CanonicalNewestKept(s, s'.db);
      forall x | x in s'.db.stored && StoredPath(s'.db, c, x)
        ensures x in s'.cache.frothy
      {
        AddedPath(s, s', h, c, x);
      }
    }
  }

  lemma {:induction false} SamePath(db: Db, db': Db, c: Hash, h: Hash)
    requires ValidDb(db) && ValidDb(db') && db'.chain == db.chain && db'.stored <= db.stored && h in db.chain
        && StoredPath(db', c, h)
    ensures StoredPath(db, c, h)
    decreases db.chain[h].number
  {
    if db.chain[h].parent != c {
      SamePath(db, db', c, db.chain[h].parent);
    }
  }

  /** Fewer stored blocks leave everything cached that has to be. */
  lemma AllCachedKept(s: State, s': State, c: Hash)
    requires ValidDb(s.db) && ValidDb(s'.db) && s'.db.chain == s.db.chain && s'.db.stored <= s.db.stored
    requires AllCached(s, c) && s'.cache.frothy.Keys == s.cache.frothy.Keys
    ensures AllCached(s', c)
  {
    forall h | h in s'.db.stored && StoredPath(s'.db, c, h)
      ensures h in s'.cache.frothy
    {
      SamePath(s.db, s'.db, c, h);
    }
  }

  lemma SaveKeepsCanonical(s: State, e: Entity, k: Key)
    requires Inv(s) && Enabled(s, Save(e, k))
    ensures var s' := Next(s, Save(e, k));
      ValidDb(s'.db) && CanonicalInv(s') && LatestInv(s')
  {
    var s' := Next(s, Save(e, k));
    if s.canonical.Some? {
      CanonicalNewestKept(s, s'.db);
      if s.cache.latest != map[] {
        AllCachedKept(s, s', s.canonical.value);
      }
    }
  }

  lemma SaveKeepsMirror(s: State, e: Entity, k: Key)
    requires Inv(s) && Enabled(s, Save(e, k))
    ensures Mirrored(Next(s, Save(e, k)))
  {
    var s' := Next(s, Save(e, k));
    forall h, j | h in s'.cache.frothy
      ensures j in s'.cache.frothy[h].entities <==> (h, j) in s'.db.rows
      ensures j in s'.cache.frothy[h].entities ==> s'.cache.frothy[h].entities[j] == s'.db.rows[(h, j)]
    {
      assert h in s.cache.frothy;
      assert j in s.cache.frothy[h].entities <==> (h, j) in s.db.rows;
    }
  }

  lemma SaveKeepsLinks(s: State, e: Entity, k: Key)
    requires Inv(s) && Enabled(s, Save(e, k))
    ensures var s' := Next(s, Save(e, k));
      ValidDb(s'.db) && FrothyLinked(s') && FrothyFalls(s'.cache)
  {
    var s' := Next(s, Save(e, k));
    forall h | h in s'.cache.frothy
      ensures s'.cache.frothy[h].number == s.cache.frothy[h].number
          && s'.cache.frothy[h].parent == s.cache.frothy[h].parent
    {}
  }

  lemma SaveKeeps(s: State, e: Entity, k: Key)
    requires Inv(s) && Enabled(s, Save(e, k))
    ensures Inv(Next(s, Save(e, k)))
  {
    SaveKeepsMirror(s, e, k);
    SaveKeepsLinks(s, e, k);
    SaveKeepsCanonical(s, e, k);
  }

  lemma LoadKeeps(s: State, h: Hash, k: Key, r: Result<Option<Entity>>)
    requires Inv(s) && Enabled(s, Load(h, k, r))
    ensures Inv(Next(s, Load(h, k, r)))
  {
    if CacheLookup(s.cache, h, k).Miss? {
      AnswerIsNewest(s, h, k, r);
      MissPath(s, h, k);
      CachedPaths(s);
      WarmWalk(s.db, s.cache, s.canonical.value, h, k);
      if r.value.Some? {
        AllCachedKept(s, Next(s, Load(h, k, r)), s.canonical.value);
      }
    }
  }

  lemma MarkPrunedKeeps(s: State, marked: set<(Hash, Key)>)
    requires Inv(s) && Enabled(s, MarkPruned(marked))
    ensures Inv(Next(s, MarkPruned(marked)))
  {
    if s.canonical.Some? {
      CanonicalNewestKept(s, Next(s, MarkPruned(marked)).db);
      if s.cache.latest != map[] {
        AllCachedKept(s, Next(s, MarkPruned(marked)), s.canonical.value);
      }
    }
  }

  /** What stored blocks link to a cached block is cached. */
  lemma {:induction false} CachedOnTop(s: State, c: Hash, h: Hash)
    requires ValidDb(s.db) && FrothyLinked(s) && c in s.cache.frothy && h in s.db.chain && StoredPath(s.db, c, h)
    ensures h in s.cache.frothy
    decreases s.db.chain[h].number
  {
    if s.db.chain[h].parent != c {
      CachedOnTop(s, c, s.db.chain[h].parent);
    }
  }

  /** A stored path to a child of the canonical block goes on to the canonical block. */
  lemma {:induction false} PathGoesOn(db: Db, c: Hash, b: Hash, h: Hash)
    requires ValidDb(db) && h in db.chain && b in db.stored && db.chain[b].parent == c && StoredPath(db, b, h)
    ensures StoredPath(db, c, h)
    decreases db.chain[h].number
  {
    if db.chain[h].parent != b {
      PathGoesOn(db, c, b, db.chain[h].parent);
    }
  }

  lemma PruneKeepsCached(s: State, b: Hash)
    requires Inv(s) && Enabled(s, Prune(b)) && Next(s, Prune(b)).cache.latest != map[]
    ensures b in s.cache.frothy && AllCached(Next(s, Prune(b)), b)
  {
    var s' := Next(s, Prune(b));
    if s.cache.latest != map[] {
      assert StoredPath(s.db, s.canonical.value, b);
    }
    forall h | h in s'.db.stored && StoredPath(s'.db, b, h)
      ensures h in s'.cache.frothy
    {
      SamePath(s.db, s'.db, b, h);
      PathDescends(s.db, b, h);
      CachedOnTop(s, b, h);
    }
  }

  lemma PruneKeepsNewest(s: State, b: Hash, k: Key)
    requires Inv(s) && Enabled(s, Prune(b)) && b in s.cache.frothy
    requires var s' := Next(s, Prune(b)); k in s'.cache.latest
    ensures Newest(s.db, b, k) == Some(Next(s, Prune(b)).cache.latest[k])
  {
    if k !in s.cache.frothy[b].entities {
      assert Newest(s.db, b, k) == Newest(s.db, s.canonical.value, k);
    }
  }

  lemma PruneKeepsLinks(s: State, b: Hash)
    requires Inv(s) && Enabled(s, Prune(b))
    ensures var s' := Next(s, Prune(b));
      FrothyLinked(s') && Mirrored(s') && FrothyFalls(s'.cache) && CanonicalInv(s')
  {
    var s' := Next(s, Prune(b));
    forall h | h in s'.cache.frothy
      ensures !Ancestor(s.db.chain, h, b)
    {
      NumberNotAncestor(s.db.chain, h, b);
    }
  }

  lemma PruneKeeps(s: State, b: Hash)
    requires Inv(s) && Enabled(s, Prune(b))
    ensures Inv(Next(s, Prune(b)))
  {
    PruneKeepsLinks(s, b);
    var s' := Next(s, Prune(b));
    if s'.cache.latest != map[] {
      PruneKeepsCached(s, b);
      forall k | k in s'.cache.latest
        ensures Newest(s.db, b, k) == Some(s'.cache.latest[k])
      {
        PruneKeepsNewest(s, b, k);
      }
    }
  }

  lemma HandlerErrorKeeps(s: State, h: Hash)
    requires Inv(s) && Enabled(s, HandlerError(h))
    ensures Inv(Next(s, HandlerError(h)))
  {}

  lemma ErrorKeeps(s: State, h: Hash)
    requires Inv(s) && ErrorGiven(s, h) && NoEntitiesAt(s.cache, h)
    ensures Inv(AfterError(s, h))
  {
    var s' := AfterError(s, h);
    if s.canonical.Some? {
      CanonicalNewestKept(s, s'.db);
    }
    if s.cache.latest != map[] {
      AllCachedKept(s, s', s.canonical.value);
    }
  }

  // ---- Resets ----

  /** A version of the branch that is not above an ancestor is the newest one of that ancestor too. */
  lemma {:induction false} NewestBelow(db: Db, a: Hash, h: Hash, k: Key)
    requires ValidDb(db) && h in db.chain && a in db.chain && Ancestor(db.chain, a, h)
    requires Newest(db, h, k).Some? && Newest(db, h, k).value.number <= db.chain[a].number
    ensures Newest(db, a, k) == Newest(db, h, k)
    decreases db.chain[h].number
  {
    if a != h {
      AncestorNumber(db.chain, a, h);
      NewestBelow(db, a, db.chain[h].parent, k);
    }
  }

  lemma ResetNewest(s: State, n: nat, picked: Hash, c: Hash, k: Key)
    requires Inv(s) && ValidDb(ResetTo(s, n, picked).db) && c in s.db.chain && s.db.chain[c].number <= n
    ensures Newest(ResetTo(s, n, picked).db, c, k) == Newest(s.db, c, k)
  {
    var s' := ResetTo(s, n, picked);
    forall a | Ancestor(s.db.chain, a, c)
      ensures (a, k) in s.db.rows <==> (a, k) in s'.db.rows
      ensures (a, k) in s.db.rows ==> s'.db.rows[(a, k)] == s.db.rows[(a, k)]
    {
      AncestorNumber(s.db.chain, a, c);
    }
    NewestFrame(s.db, s'.db, c, k);
  }

  /** The blocks and versions that a reset keeps. */
  lemma ResetDb(s: State, n: nat, picked: Hash)
    requires ValidDb(s.db)
    ensures var db' := ResetTo(s, n, picked).db;
      && ValidDb(db') && db'.chain == s.db.chain && db'.stored <= s.db.stored
      && forall h, k | h in s.db.chain :: (h, k) in db'.rows <==> (h, k) in s.db.rows && s.db.chain[h].number <= n
  {}

  lemma ResetCanonical(s: State, n: nat, picked: Hash)
    requires Inv(s) && ResetGiven(s, n, picked) && s.canonical.Some?
    ensures var c' := ResetTo(s, n, picked).canonical.value;
      c' in s.db.chain && s.db.chain[c'].number <= n && Ancestor(s.db.chain, c', s.canonical.value)
  {
    assert Ancestor(s.db.chain, s.canonical.value, s.canonical.value);
  }

  lemma ResetLinks(s: State, n: nat, picked: Hash)
    requires Inv(s) && ResetGiven(s, n, picked) && CacheBelow(s.cache, n)
    ensures var s' := ResetTo(s, n, picked);
      ValidDb(s'.db) && FrothyLinked(s') && Mirrored(s') && FrothyFalls(s'.cache)
  {
    ResetDb(s, n, picked);
  }

  lemma ResetKeepsCanonical(s: State, n: nat, picked: Hash)
    requires Inv(s) && ResetGiven(s, n, picked)
    ensures var s' := ResetTo(s, n, picked); ValidDb(s'.db) && CanonicalInv(s')
  {
    ResetDb(s, n, picked);
    var s' := ResetTo(s, n, picked);
    if s.canonical.Some? {
      ResetCanonical(s, n, picked);
      var c, c', chain := s.canonical.value, s'.canonical.value, s.db.chain;
      forall a | Ancestor(chain, a, c')
        ensures Ancestor(chain, a, c)
      {
        AncestorNumber(chain, a, c');
        AncestorTrans(chain, a, c', c);
      }
    }
  }

  lemma ResetKeepsLatest(s: State, n: nat, picked: Hash, k: Key)
    requires Inv(s) && ResetGiven(s, n, picked) && k in s.cache.latest && s.cache.latest[k].number <= n
    ensures var s' := ResetTo(s, n, picked);
      ValidDb(s'.db) && s'.canonical.Some? && s'.canonical.value in s'.db.chain
          && Newest(s'.db, s'.canonical.value, k) == Some(s.cache.latest[k])
  {
    ResetDb(s, n, picked);
    ResetCanonical(s, n, picked);
    var c' := ResetTo(s, n, picked).canonical.value;
    NewestBelow(s.db, c', s.canonical.value, k) by {
      NewestSpec(s.db, s.canonical.value, k);
      ResetNumber(s, n, picked, k);
    }
    ResetNewest(s, n, picked, c', k);
  }

  lemma ResetNumber(s: State, n: nat, picked: Hash, k: Key)
    requires Inv(s) && ResetGiven(s, n, picked) && k in s.cache.latest && s.cache.latest[k].number <= n
    ensures s.cache.latest[k].number <= s.db.chain[ResetTo(s, n, picked).canonical.value].number
  {
    NewestSpec(s.db, s.canonical.value, k);
    AncestorNumber(s.db.chain, s.cache.latest[k].hash, s.canonical.value);
  }

  lemma ResetKeepsCached(s: State, n: nat, picked: Hash)
    requires Inv(s) && ResetGiven(s, n, picked) && s.cache.latest != map[]
    ensures var s' := ResetTo(s, n, picked); ValidDb(s'.db) && AllCached(s', s'.canonical.value)
  {
    ResetDb(s, n, picked);
    var s' := ResetTo(s, n, picked);
    var c' := s'.canonical.value;
    if c' == s.canonical.value {
      AllCachedKept(s, s', c');
    } else {
      forall h | h in s'.db.stored
        ensures !StoredPath(s'.db, c', h)
      {
        if StoredPath(s'.db, c', h) {
          PathDescends(s'.db, c', h);
        }
      }
    }
  }

  lemma ResetKeeps(s: State, n: nat, picked: Hash)
    requires Inv(s) && ResetGiven(s, n, picked) && CacheBelow(s.cache, n)
    ensures Inv(ResetTo(s, n, picked))
  {
    ResetLinks(s, n, picked);
    ResetKeepsCanonical(s, n, picked);
    var s' := ResetTo(s, n, picked);
    if s.cache.latest != map[] {
      ResetKeepsCached(s, n, picked);
      forall k | k in s.cache.latest
        ensures Newest(s'.db, s'.canonical.value, k) == Some(s.cache.latest[k])
      {
        ResetKeepsLatest(s, n, picked, k);
      }
    }
  }

  lemma ResetNeedsFrothy(s: State, n: nat, picked: Hash, h: Hash)
    requires Inv(s) && Inv(ResetTo(s, n, picked)) && h in s.cache.frothy && s.cache.frothy[h].number > n
    ensures s.cache.frothy[h].entities == map[]
  {
    ResetDb(s, n, picked);
    forall k
      ensures k !in s.cache.frothy[h].entities
    {
      assert (h, k) !in ResetTo(s, n, picked).db.rows;
    }
  }

  lemma ResetNeedsLatest(s: State, n: nat, picked: Hash, k: Key)
    requires Inv(s) && Inv(ResetTo(s, n, picked)) && k in s.cache.latest
    ensures s.cache.latest[k].number <= n
  {
    var s' := ResetTo(s, n, picked);
    NewestSpec(s'.db, s'.canonical.value, k);
  }

  /** A reset, which leaves the cache alone, keeps the cache right exactly if no cached entity belongs to a
      block above the reset height. */
  lemma ResetExact(s: State, n: nat, picked: Hash)
    requires Inv(s) && ResetGiven(s, n, picked)
    ensures Inv(ResetTo(s, n, picked)) <==> CacheBelow(s.cache, n)
  {
    if CacheBelow(s.cache, n) {
      ResetKeeps(s, n, picked);
    }
    if Inv(ResetTo(s, n, picked)) {
      forall h | h in s.cache.frothy && s.cache.frothy[h].number > n
        ensures s.cache.frothy[h].entities == map[]
      {
        ResetNeedsFrothy(s, n, picked, h);
      }
      forall k | k in s.cache.latest
        ensures s.cache.latest[k].number <= n
      {
        ResetNeedsLatest(s, n, picked, k);
      }
    }
  }

  // ---- Every step ----

  /** A block that was not stored before may come at any height: late, at or below the canonical block, or
      as a fork that starts below everything that is cached. */
  lemma NewBlockEnabled(s: State, h: Hash, clearInterval: nat)
    requires Inv(s) && clearInterval > 0 && h in s.db.chain && h !in s.db.stored
    requires s.canonical.Some? ==> !Ancestor(s.db.chain, h, s.canonical.value)
    requires forall x | x in s.db.stored :: s.db.chain[x].parent != h
    ensures Enabled(s, AddBlock(h, clearInterval))
  {
    assert forall k | (h, k) in s.db.rows :: (h, k).0 in s.db.stored;
  }

  lemma StepKeeps(s: State, step: Step)
    requires Inv(s) && Enabled(s, step)
    ensures Inv(Next(s, step))
  {
    match step
    case AddBlock(h, clearInterval) => AddBlockKeeps(s, h, clearInterval);
    case Save(e, k) => SaveKeeps(s, e, k);
    case Load(h, k, r) => LoadKeeps(s, h, k, r);
    case MarkPruned(marked) => MarkPrunedKeeps(s, marked);
    case Prune(h) => PruneKeeps(s, h);
    case HandlerError(h) => HandlerErrorKeeps(s, h);
    case ProcessingError(h) => ErrorKeeps(s, h);
    case Reset(n, picked) => ResetKeeps(s, n, picked);
  }

  // ---- Runs ----

  /** The steps can happen one after the other from `s`, and lead to `t`. */
  ghost predicate Run(s: State, steps: seq<Step>, t: State)
    decreases |steps|
  {
    if steps == [] then t == s
    else Inv(s) && Enabled(s, steps[0]) && Run(Next(s, steps[0]), steps[1..], t)
  }

  lemma {:induction false} RunKeeps(s: State, steps: seq<Step>, t: State)
    requires Inv(s) && Run(s, steps, t)
    ensures Inv(t)
    decreases |steps|
  {
    if steps != [] {
      StepKeeps(s, steps[0]);
      RunKeeps(Next(s, steps[0]), steps[1..], t);
    }
  }

  /** In every state that a run reaches, every load of a block descending from the last canonical one
      returns the newest version on that block's own branch. */
  lemma EveryAnswerIsNewest(s: State, steps: seq<Step>, t: State, h: Hash, k: Key, r: Result<Option<Entity>>)
    requires Init(s) && Run(s, steps, t)
    requires Inv(t) ==> LoadGiven(t, h, k) && LoadAnswer(t.db, t.cache, h, k, r)
    ensures Inv(t) && r == Success(Newest(t.db, h, k))
  {
    RunKeeps(s, steps, t);
    AnswerIsNewest(t, h, k, r);
  }

  /** One pruning step changes no answer. */
  lemma PruneChangesNoAnswer(s: State, c: Hash, h: Hash, k: Key, r: Result<Option<Entity>>, r': Result<Option<Entity>>)
    requires Inv(s) && Enabled(s, Prune(c)) && Inv(Next(s, Prune(c)))
    requires LoadGiven(s, h, k) && LoadAnswer(s.db, s.cache, h, k, r)
    requires var s' := Next(s, Prune(c)); LoadGiven(s', h, k) && LoadAnswer(s'.db, s'.cache, h, k, r')
    ensures r == r'
  {
    AnswerIsNewest(s, h, k, r);
    AnswerIsNewest(Next(s, Prune(c)), h, k, r');
  }

  // ---- Where the answer is not the newest version ----

  /** A load that has to ask the database below the cached blocks: every legal answer is the newest
      version of the branch if and only if that version outnumbers every other unpruned version up to
      one above the oldest cached block. */
  lemma MissExact(s: State, h: Hash, k: Key)
    requires Inv(s) && CacheLookup(s.cache, h, k).Miss? && h in s.db.stored && StoredPath(s.db, s.canonical.value, h)
    ensures Outnumbers(s.db, k, CacheLookup(s.cache, h, k).bound, Newest(s.db, h, k))
      <==> forall r | LoadAnswer(s.db, s.cache, h, k, r) :: r == Success(Newest(s.db, h, k))
  {
    var n, bound := Newest(s.db, h, k), CacheLookup(s.cache, h, k).bound;
    CachedPaths(s);
    WarmWalk(s.db, s.cache, s.canonical.value, h, k);
    NewestSpec(s.db, Oldest(s.cache, h), k);
    if n.Some? {
      AncestorNumber(s.db.chain, n.value.hash, Oldest(s.cache, h));
    }
    LatestExact(s.db, k, bound, n);
    if r :| IsLatestUnpruned(s.db, k, bound, r) && r != n {
      assert LoadAnswer(s.db, s.cache, h, k, Success(r));
    }
  }
}
