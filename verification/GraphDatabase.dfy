/**
  GraphDatabase with its cache maps changed in place (packages/util/src/graph/database.ts), and the
  database queries it falls back to (packages/util/src/database.ts).
*/
module GraphDatabases {
  import opened Wrappers
  import opened BlockTree
  import opened EntityCache
  import opened EntityCacheRuns

  class GraphDatabase {
    var db: Db
    var frothyBlocks: map<Hash, FrothyBlock>
    var latestPrunedEntities: map<Key, Entity>

    ghost function Contents(): Cache
      reads this
    {
      Cache(frothyBlocks, latestPrunedEntities)
    }

    ghost predicate Valid()
      reads this
    {
      ValidDb(db) && FrothyFalls(Contents())
    }

    constructor (db: Db)
      requires ValidDb(db)
      ensures Valid() && this.db == db && Contents() == Cache(map[], map[])
    {
      this.db := db;
      frothyBlocks, latestPrunedEntities := map[], map[];
    }

    method GetModelEntity(h: Hash, k: Key) returns (r: Result<Option<Entity>>)
      requires Valid()
      modifies this`latestPrunedEntities
      ensures LoadAnswer(db, old(Contents()), h, k, r)
      ensures Contents() == AfterLoad(old(Contents()), h, k, r)
    {
      ghost var c := Contents();
      if latestPrunedEntities != map[] {
        var cur, canonicalBlockNumber := h, -1;
        while cur in frothyBlocks
          invariant Contents() == c
          invariant cur in frothyBlocks ==> h in frothyBlocks
          invariant cur in frothyBlocks ==> FrothyHit(c, h, k) == FrothyHit(c, cur, k) && Oldest(c, h) == Oldest(c, cur)
          invariant cur !in frothyBlocks && h in frothyBlocks ==>
            FrothyHit(c, h, k) == None && canonicalBlockNumber == frothyBlocks[Oldest(c, h)].number + 1
          invariant h !in frothyBlocks ==> canonicalBlockNumber == -1
          decreases if cur in frothyBlocks then frothyBlocks[cur].number + 1 else 0
        {
          var frothyBlock := frothyBlocks[cur];
          if k in frothyBlock.entities {
            return Success(Some(frothyBlock.entities[k]));
          }
          canonicalBlockNumber := frothyBlock.number + 1;
          cur := frothyBlock.parent;
        }
        if canonicalBlockNumber > -1 {
          if k in latestPrunedEntities {
            return Success(Some(latestPrunedEntities[k]));
          }
          var dbEntity := GetLatestPrunedEntity(db, k, canonicalBlockNumber);
          if dbEntity.Some? {
            latestPrunedEntities := latestPrunedEntities[k := dbEntity.value];
          }
          return Success(dbEntity);
        }
      }
      r := GetPrevEntityVersion(db, h, k);
    }

    /** Saving at a block writes the row and, when the block is frothy, the cached version. */
    method StoreSet(k: Key, e: Entity)
      requires Valid() && e.hash in db.stored && e.number == db.chain[e.hash].number
      modifies this
      ensures Valid()
      ensures db == old(db).(rows := old(db).rows[(e.hash, k) := e])
      ensures Contents() == CacheSaved(old(Contents()), k, e)
    {
      db := db.(rows := db.rows[(e.hash, k) := e]);
      CacheUpdatedEntity(k, e, false);
    }

    method CacheUpdatedEntity(k: Key, e: Entity, pruned: bool)
      requires Valid()
      modifies this`frothyBlocks, this`latestPrunedEntities
      ensures Valid()
      ensures Contents() ==
        if pruned then old(Contents()).(latest := old(latestPrunedEntities)[k := e])
            else CacheSaved(old(Contents()), k, e)
    {
      if pruned {
        latestPrunedEntities := latestPrunedEntities[k := e];
        return;
      }
      if e.hash in frothyBlocks {
        var frothyBlock := frothyBlocks[e.hash];
        frothyBlocks := frothyBlocks[e.hash := frothyBlock.(entities := frothyBlock.entities[k := e])];
      }
    }

    method UpdateEntityCacheFrothyBlocks(h: Hash, b: Block, clearEntitiesCacheInterval: nat)
      requires Valid() && clearEntitiesCacheInterval > 0
      modifies this`frothyBlocks, this`latestPrunedEntities
      ensures Contents() == FrothyBlockAdded(old(Contents()), h, b, clearEntitiesCacheInterval)
    {
      if h !in frothyBlocks {
        frothyBlocks := frothyBlocks[h := FrothyBlock(b.number, b.parent, map[])];
      }
      if b.number % clearEntitiesCacheInterval == 0 {
        latestPrunedEntities := map[];
      }
    }

    method PruneEntityCacheFrothyBlocks(canonicalBlockHash: Hash, canonicalBlockNumber: nat)
      requires Valid()
      modifies this`frothyBlocks, this`latestPrunedEntities
      ensures Valid()
      ensures Contents() == CachePruned(old(Contents()), canonicalBlockHash, canonicalBlockNumber)
    {
      if canonicalBlockHash in frothyBlocks {
        MoveToLatestPruned(frothyBlocks[canonicalBlockHash].entities);
      }
      RemoveFrothyBlocks(canonicalBlockNumber);
    }

    method MoveToLatestPruned(entities: map<Key, Entity>)
      modifies this`latestPrunedEntities
      ensures latestPrunedEntities == old(latestPrunedEntities) + entities
    {
      var todo := entities.Keys;
      while todo != {}
        invariant todo <= entities.Keys
        invariant latestPrunedEntities.Keys == old(latestPrunedEntities).Keys + (entities.Keys - todo)
        invariant forall k | k in latestPrunedEntities ::
          latestPrunedEntities[k] == if k in entities && k !in todo then entities[k] else old(latestPrunedEntities)[k]
        decreases |todo|
      {
        var k :| k in todo;
        latestPrunedEntities := latestPrunedEntities[k := entities[k]];
        todo := todo - {k};
      }
    }

    method RemoveFrothyBlocks(canonicalBlockNumber: nat)
      modifies this`frothyBlocks
      ensures frothyBlocks == map a | a in old(frothyBlocks) && old(frothyBlocks)[a].number > canonicalBlockNumber ::
          old(frothyBlocks)[a]
    {
      var hashes := frothyBlocks.Keys;
      while hashes != {}
        invariant hashes <= frothyBlocks.Keys <= old(frothyBlocks).Keys
        invariant forall a | a in old(frothyBlocks) ::
          a in frothyBlocks <==> old(frothyBlocks)[a].number > canonicalBlockNumber || a in hashes
        invariant forall a | a in frothyBlocks :: frothyBlocks[a] == old(frothyBlocks)[a]
        decreases |hashes|
      {
        var a :| a in hashes;
        if frothyBlocks[a].number <= canonicalBlockNumber {
          frothyBlocks := frothyBlocks - {a};
        }
        hashes := hashes - {a};
      }
    }
  }

  method GetPrevEntityVersion(db: Db, h: Hash, k: Key) returns (r: Result<Option<Entity>>)
    requires ValidDb(db)
    ensures PrevVersionAnswer(db, h, k, r)
  {
    if h !in db.stored {
      return Failure("no block with that hash found");
    }
    var stop := FrothyStop(db, h, k);
    if (stop, k) in db.rows {
      return Success(Some(db.rows[(stop, k)]));
    }
    var e := GetLatestPrunedEntity(db, k, db.chain[stop].number + 1);
    r := Success(e);
  }

  method GetLatestPrunedEntity(db: Db, k: Key, canonicalBlockNumber: int) returns (r: Option<Entity>)
    requires ValidDb(db)
    ensures IsLatestUnpruned(db, k, canonicalBlockNumber, r)
  {
    r := None;
    var todo := db.rows.Keys;
    while todo != {}
      invariant todo <= db.rows.Keys
      invariant r.Some? ==> Unpruned(db, r.value.hash, k, canonicalBlockNumber) && db.rows[(r.value.hash, k)] == r.value
      invariant forall a | (a, k) in db.rows && (a, k) !in todo :: Unpruned(db, a, k, canonicalBlockNumber) ==>
        r.Some? && db.rows[(a, k)].number <= r.value.number
      decreases |todo|
    {
      var p :| p in todo;
      var e := db.rows[p];
      if p.1 == k && p !in db.pruned && e.number <= canonicalBlockNumber && (r.None? || r.value.number < e.number) {
        r := Some(e);
      }
      todo := todo - {p};
    }
  }
}
