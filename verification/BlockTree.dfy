/**
  The block table, the entity table and the hierarchical queries over them
  (packages/util/src/database.ts).

  `chain` is the whole tree of blocks that the upstream chain ever shows; the watcher
  has stored only the blocks in `stored`. A query can follow a parent link only into a
  stored block. The plain rule `Newest` follows every link of the tree: it is what the
  queries are for.
*/
module BlockTree {
  import opened Wrappers

  const MAX_REORG_DEPTH: nat := 16

  type Hash = string

  datatype Block = Block(number: nat, parent: Hash)

  type Chain = map<Hash, Block>

  /** The table an entity lives in together with its id. */
  datatype Key = Key(table: string, id: string)

  /** One saved version of an entity. */
  datatype Entity = Entity(hash: Hash, number: nat, data: string, isRemoved: bool)

  /** The tables: `pruned` holds the primary keys of the rows whose is_pruned flag is set. */
  datatype Db = Db(chain: Chain, stored: set<Hash>, rows: map<(Hash, Key), Entity>, pruned: set<(Hash, Key)>)

  /** A parent has a smaller number; gaps in the numbering (null blocks) are allowed. */
  ghost predicate WellFormed(c: Chain) {
    forall h | h in c && c[h].parent in c :: c[c[h].parent].number < c[h].number
  }

  /** The parent of a block is one below it; only a block numbered zero has none. */
  ghost predicate OneBelow(c: Chain, h: Hash)
    requires h in c
  {
    if c[h].number == 0 then c[h].parent !in c else c[h].parent in c && c[c[h].parent].number + 1 == c[h].number
  }

  ghost predicate GapFree(c: Chain) {
    forall h {:trigger OneBelow(c, h)} | h in c :: OneBelow(c, h)
  }

  ghost predicate ValidDb(db: Db) {
    && WellFormed(db.chain)
    && db.stored <= db.chain.Keys
    && (forall p | p in db.rows ::
          p.0 in db.stored && db.rows[p].hash == p.0 && db.rows[p].number == db.chain[p.0].number)
  }

  /** `a` is `h` or lies on the parent path of `h`. */
  ghost predicate Ancestor(c: Chain, a: Hash, h: Hash)
    requires WellFormed(c) && h in c
    decreases c[h].number
  {
    a == h || (c[h].parent in c && Ancestor(c, a, c[h].parent))
  }

  /** The plain rule: the newest version of `k` on the branch that ends in `h`. */
  ghost function Newest(db: Db, h: Hash, k: Key): Option<Entity>
    requires ValidDb(db) && h in db.chain
    decreases db.chain[h].number
  {
    if (h, k) in db.rows then Some(db.rows[(h, k)])
    else if db.chain[h].parent in db.chain then Newest(db, db.chain[h].parent, k)
    else None
  }

  // ---- Facts about the tree ----

  lemma {:induction false} AncestorNumber(c: Chain, a: Hash, h: Hash)
    requires WellFormed(c) && h in c && Ancestor(c, a, h)
    ensures a in c
    ensures a != h ==> c[a].number < c[h].number && c[h].parent in c && Ancestor(c, a, c[h].parent)
    decreases c[h].number
  {
    if a != h {
      AncestorNumber(c, a, c[h].parent);
    }
  }

  lemma {:induction false} AncestorTrans(c: Chain, a: Hash, b: Hash, h: Hash)
    requires WellFormed(c) && h in c && Ancestor(c, b, h)
    requires b in c && Ancestor(c, a, b)
    ensures Ancestor(c, a, h)
    decreases c[h].number
  {
    if b != h {
      AncestorTrans(c, a, b, c[h].parent);
    }
  }

  /** Two ancestors of one block lie on one path. */
  lemma {:induction false} AncestorsLinear(c: Chain, a: Hash, b: Hash, h: Hash)
    requires WellFormed(c) && h in c && Ancestor(c, a, h) && Ancestor(c, b, h)
    requires a in c && b in c && c[a].number <= c[b].number
    ensures Ancestor(c, a, b)
    decreases c[h].number
  {
    if a == h {
      AncestorNumber(c, b, h);
    } else if b != h {
      AncestorsLinear(c, a, b, c[h].parent);
    }
  }

  /** The newest version lies on the branch, and nothing on the branch is newer. */
  lemma {:induction false} NewestSpec(db: Db, h: Hash, k: Key)
    requires ValidDb(db) && h in db.chain
    ensures match Newest(db, h, k)
            case None => forall a | Ancestor(db.chain, a, h) :: (a, k) !in db.rows
            case Some(e) =>
              && Ancestor(db.chain, e.hash, h) && (e.hash, k) in db.rows && db.rows[(e.hash, k)] == e
              && forall a | Ancestor(db.chain, a, h) && (a, k) in db.rows :: db.rows[(a, k)].number <= e.number
    decreases db.chain[h].number
  {
    var c := db.chain;
    if (h, k) in db.rows {
      forall a | Ancestor(c, a, h) && (a, k) in db.rows
        ensures db.rows[(a, k)].number <= db.rows[(h, k)].number
      {
        AncestorNumber(c, a, h);
      }
    } else if c[h].parent in c {
      NewestSpec(db, c[h].parent, k);
    }
  }

  /** The plain rule reads only the rows of the branch. */
  lemma {:induction false} NewestFrame(db: Db, db': Db, h: Hash, k: Key)
    requires ValidDb(db) && ValidDb(db') && db.chain == db'.chain && h in db.chain
    requires forall a | Ancestor(db.chain, a, h) :: (a, k) in db.rows <==> (a, k) in db'.rows
    requires forall a | Ancestor(db.chain, a, h) && (a, k) in db.rows :: db.rows[(a, k)] == db'.rows[(a, k)]
    ensures Newest(db, h, k) == Newest(db', h, k)
    decreases db.chain[h].number
  {
    assert Ancestor(db.chain, h, h);
    if (h, k) !in db.rows && db.chain[h].parent in db.chain {
      NewestFrame(db, db', db.chain[h].parent, k);
    }
  }

  // ---- The hierarchical query of getFrothyEntity ----

  /** The rows the recursive query visits: it follows parent links while the last row holds no
      version and fewer than MAX_REORG_DEPTH rows were visited. */
  function Walk(db: Db, h: Hash, k: Key, depth: nat): (w: seq<Hash>)
    requires ValidDb(db) && h in db.stored
    ensures w != [] && forall i | 0 <= i < |w| :: w[i] in db.stored
    decreases db.chain[h].number
  {
    if (h, k) in db.rows || depth >= MAX_REORG_DEPTH || db.chain[h].parent !in db.stored then [h]
    else [h] + Walk(db, db.chain[h].parent, k, depth + 1)
  }

  /** ORDER BY block_number ASC LIMIT 1. */
  function LowestRow(c: Chain, w: seq<Hash>): (r: Hash)
    requires w != [] && forall i | 0 <= i < |w| :: w[i] in c
    ensures r in w && forall i | 0 <= i < |w| :: c[r].number <= c[w[i]].number
  {
    if |w| == 1 then w[0]
    else
      var rest := LowestRow(c, w[1..]);
      if c[w[0]].number < c[rest].number then w[0] else rest
  }

  /** The row that getFrothyEntity's query returns. */
  function FrothyStop(db: Db, h: Hash, k: Key): (stop: Hash)
    requires ValidDb(db) && h in db.stored
    ensures stop in db.stored
  {
    LowestRow(db.chain, Walk(db, h, k, 1))
  }

  /** The block at which the walk stops: the first block that holds a version, or has no stored
      parent, or is the last one within MAX_REORG_DEPTH. */
  ghost function StopAt(db: Db, h: Hash, k: Key, depth: nat): (stop: Hash)
    requires ValidDb(db) && h in db.stored
    ensures stop in db.stored && db.chain[stop].number <= db.chain[h].number
    decreases db.chain[h].number
  {
    if (h, k) in db.rows || depth >= MAX_REORG_DEPTH || db.chain[h].parent !in db.stored then h
    else StopAt(db, db.chain[h].parent, k, depth + 1)
  }

  /** The row with the lowest number is the row at which the walk stopped. */
  lemma {:induction false} LowestRowIsStop(db: Db, h: Hash, k: Key, depth: nat)
    requires ValidDb(db) && h in db.stored
    ensures LowestRow(db.chain, Walk(db, h, k, depth)) == StopAt(db, h, k, depth)
    decreases db.chain[h].number
  {
    if !((h, k) in db.rows || depth >= MAX_REORG_DEPTH || db.chain[h].parent !in db.stored) {
      var rest := Walk(db, db.chain[h].parent, k, depth + 1);
      LowestRowIsStop(db, db.chain[h].parent, k, depth + 1);
      assert Walk(db, h, k, depth)[1..] == rest;
    }
  }

  /** What the visited rows are: at most MAX_REORG_DEPTH consecutive blocks of the branch, none but the
      last holding a version; and the walk stops there for one of three reasons. */
  lemma {:induction false} WalkShape(db: Db, h: Hash, k: Key, depth: nat)
    requires ValidDb(db) && h in db.stored && 1 <= depth <= MAX_REORG_DEPTH
    ensures var w := Walk(db, h, k, depth);
      && |w| <= MAX_REORG_DEPTH + 1 - depth && w[0] == h && w[|w| - 1] == StopAt(db, h, k, depth)
      && (forall i | 0 <= i < |w| - 1 :: (w[i], k) !in db.rows && db.chain[w[i]].parent == w[i + 1])
      && (|| (w[|w| - 1], k) in db.rows
          || |w| == MAX_REORG_DEPTH + 1 - depth
          || db.chain[w[|w| - 1]].parent !in db.stored)
    decreases db.chain[h].number
  {
    if !((h, k) in db.rows || depth >= MAX_REORG_DEPTH || db.chain[h].parent !in db.stored) {
      WalkShape(db, db.chain[h].parent, k, depth + 1);
    }
  }

  /** Nothing on the branch is newer than what lies at or below the stopping point. */
  lemma {:induction false} NewestAtStop(db: Db, h: Hash, k: Key, depth: nat)
    requires ValidDb(db) && h in db.stored
    ensures Ancestor(db.chain, StopAt(db, h, k, depth), h)
    ensures Newest(db, h, k) == Newest(db, StopAt(db, h, k, depth), k)
    decreases db.chain[h].number
  {
    if !((h, k) in db.rows || depth >= MAX_REORG_DEPTH || db.chain[h].parent !in db.stored) {
      NewestAtStop(db, db.chain[h].parent, k, depth + 1);
    }
  }

  // ---- getLatestPrunedEntity ----

  /** The rows the query selects from. */
  ghost predicate Unpruned(db: Db, a: Hash, k: Key, bound: int) {
    (a, k) in db.rows && (a, k) !in db.pruned && db.rows[(a, k)].number <= bound
  }

  /** A legal answer of `is_pruned = false AND block_number <= bound ORDER BY block_number DESC
      LIMIT 1`: SQL leaves open which of several rows with the highest number comes first. */
  ghost predicate IsLatestUnpruned(db: Db, k: Key, bound: int, r: Option<Entity>) {
    match r
    case None => forall a | (a, k) in db.rows :: !Unpruned(db, a, k, bound)
    case Some(e) =>
      && Unpruned(db, e.hash, k, bound) && db.rows[(e.hash, k)] == e
      && forall a | (a, k) in db.rows :: Unpruned(db, a, k, bound) ==> db.rows[(a, k)].number <= e.number
  }

  /** No unpruned version of `k` up to the bound lies off the branch of `h`. */
  ghost predicate NoneOffBranch(db: Db, h: Hash, k: Key, bound: int)
    requires ValidDb(db) && h in db.chain
  {
    forall a | (a, k) in db.rows :: Unpruned(db, a, k, bound) ==> Ancestor(db.chain, a, h)
  }

  /** The newest version on the branch of `h` does not carry the pruned flag. */
  ghost predicate NewestUnpruned(db: Db, h: Hash, k: Key)
    requires ValidDb(db) && h in db.chain
  {
    Newest(db, h, k).Some? ==> (Newest(db, h, k).value.hash, k) !in db.pruned
  }

  /** What getPrevEntityVersion may return. */
  ghost predicate PrevVersionAnswer(db: Db, h: Hash, k: Key, r: Result<Option<Entity>>)
    requires ValidDb(db)
  {
    if h in db.stored then AnswerAt(db, FrothyStop(db, h, k), k, r)
    else r == Failure("no block with that hash found")
  }

  ghost predicate AnswerAt(db: Db, stop: Hash, k: Key, r: Result<Option<Entity>>)
    requires ValidDb(db) && stop in db.stored
  {
    if (stop, k) in db.rows then r == Success(Some(db.rows[(stop, k)]))
    else r.Success? && IsLatestUnpruned(db, k, db.chain[stop].number + 1, r.value)
  }

  /** The walk meets a version, or the fallback sees only the branch. */
  ghost predicate PrevVersionGiven(db: Db, h: Hash, k: Key)
    requires ValidDb(db) && h in db.stored
  {
    GivenAt(db, h, FrothyStop(db, h, k), k)
  }

  ghost predicate GivenAt(db: Db, h: Hash, stop: Hash, k: Key)
    requires ValidDb(db) && h in db.stored && stop in db.stored
  {
    (stop, k) in db.rows || (NoneOffBranch(db, h, k, db.chain[stop].number + 1) && NewestUnpruned(db, h, k))
  }

  /** getPrevEntityVersion returns the newest version of the branch. */
  lemma PrevVersionIsNewest(db: Db, h: Hash, k: Key, r: Result<Option<Entity>>)
    requires ValidDb(db) && h in db.stored && PrevVersionAnswer(db, h, k, r) && PrevVersionGiven(db, h, k)
    ensures r == Success(Newest(db, h, k))
  {
    StopOnBranch(db, h, k);
    AnswerAtIsNewest(db, h, FrothyStop(db, h, k), k, r);
  }

  lemma StopOnBranch(db: Db, h: Hash, k: Key)
    requires ValidDb(db) && h in db.stored
    ensures Ancestor(db.chain, FrothyStop(db, h, k), h) && Newest(db, h, k) == Newest(db, FrothyStop(db, h, k), k)
  {
    LowestRowIsStop(db, h, k, 1);
    NewestAtStop(db, h, k, 1);
  }

  lemma AnswerAtIsNewest(db: Db, h: Hash, stop: Hash, k: Key, r: Result<Option<Entity>>)
    requires ValidDb(db) && h in db.stored && stop in db.stored
    requires Ancestor(db.chain, stop, h) && Newest(db, h, k) == Newest(db, stop, k)
    requires AnswerAt(db, stop, k, r) && GivenAt(db, h, stop, k)
    ensures r == Success(Newest(db, h, k))
  {
    if (stop, k) !in db.rows {
      BranchFallback(db, h, stop, k, r.value);
    }
  }

  /** The fallback below a block `stop` of the branch, when no version lies from `stop` up to `h`. */
  lemma {:induction false} BranchFallback(db: Db, h: Hash, stop: Hash, k: Key, r: Option<Entity>)
    requires ValidDb(db) && h in db.chain && Ancestor(db.chain, stop, h) && stop in db.chain
    requires Newest(db, h, k) == Newest(db, stop, k)
    requires NoneOffBranch(db, h, k, db.chain[stop].number + 1) && NewestUnpruned(db, h, k)
    requires IsLatestUnpruned(db, k, db.chain[stop].number + 1, r)
    ensures r == Newest(db, h, k)
  {
    NewestSpec(db, h, k);
    NewestSpec(db, stop, k);
    match Newest(db, h, k) {
      case None =>
      case Some(e) =>
        AncestorNumber(db.chain, e.hash, stop);
        assert Unpruned(db, e.hash, k, db.chain[stop].number + 1);
        var f := r.value;
        assert Ancestor(db.chain, f.hash, h);
        AncestorsLinear(db.chain, e.hash, f.hash, h);
        AncestorNumber(db.chain, e.hash, f.hash);
    }
  }

  /** The version `n` is not flagged as pruned and outnumbers every other version in reach. */
  ghost predicate Outnumbers(db: Db, k: Key, bound: int, n: Option<Entity>) {
    && (n.Some? ==> (n.value.hash, k) !in db.pruned)
    && forall a | (a, k) in db.rows :: Unpruned(db, a, k, bound) ==>
         n.Some? && (a == n.value.hash || db.rows[(a, k)].number < n.value.number)
  }

  /** When the walk meets no version, every legal answer is the newest version of the branch if and
      only if that version is not flagged as pruned and outnumbers every other version in reach. */
  lemma FallbackExact(db: Db, h: Hash, k: Key)
    requires ValidDb(db) && h in db.stored && (FrothyStop(db, h, k), k) !in db.rows
    ensures Outnumbers(db, k, db.chain[FrothyStop(db, h, k)].number + 1, Newest(db, h, k))
      <==> forall r | PrevVersionAnswer(db, h, k, r) :: r == Success(Newest(db, h, k))
  {
    StopOnBranch(db, h, k);
    var stop := FrothyStop(db, h, k);
    FallbackExactAt(db, h, stop, k);
    forall r
      ensures PrevVersionAnswer(db, h, k, r) <==> AnswerAt(db, stop, k, r)
    {}
  }

  lemma FallbackExactAt(db: Db, h: Hash, stop: Hash, k: Key)
    requires ValidDb(db) && h in db.stored && stop in db.stored && (stop, k) !in db.rows
    requires Ancestor(db.chain, stop, h) && Newest(db, h, k) == Newest(db, stop, k)
    ensures Outnumbers(db, k, db.chain[stop].number + 1, Newest(db, h, k))
      <==> forall r | AnswerAt(db, stop, k, r) :: r == Success(Newest(db, h, k))
  {
    var bound, n := db.chain[stop].number + 1, Newest(db, h, k);
    NewestSpec(db, stop, k);
    if n.Some? {
      AncestorNumber(db.chain, n.value.hash, stop);
    }
    LatestExact(db, k, bound, n);
    if r :| IsLatestUnpruned(db, k, bound, r) && r != n {
      assert AnswerAt(db, stop, k, Success(r));
    }
  }

  lemma LatestExact(db: Db, k: Key, bound: int, n: Option<Entity>)
    requires ValidDb(db)
    requires n.Some? ==>
               (n.value.hash, k) in db.rows && db.rows[(n.value.hash, k)] == n.value && n.value.number <= bound
    ensures Outnumbers(db, k, bound, n) <==> forall r | IsLatestUnpruned(db, k, bound, r) :: r == n
  {
    if forall r | IsLatestUnpruned(db, k, bound, r) :: r == n {
      var r := SomeLatest(db, k, bound, db.rows.Keys);
      assert IsLatestUnpruned(db, k, bound, r);
      forall a | (a, k) in db.rows && Unpruned(db, a, k, bound)
        ensures n.Some? && (a == n.value.hash || db.rows[(a, k)].number < n.value.number)
      {
        if db.rows[(a, k)].number >= n.value.number {
          assert IsLatestUnpruned(db, k, bound, Some(db.rows[(a, k)]));
        }
      }
    }
  }

  /** The fallback query always has a legal answer. */
  lemma {:induction false} SomeLatest(db: Db, k: Key, bound: int, keys: set<(Hash, Key)>) returns (r: Option<Entity>)
    requires ValidDb(db) && keys <= db.rows.Keys
    ensures match r
            case None => forall a | (a, k) in keys :: !Unpruned(db, a, k, bound)
            case Some(e) =>
              && Unpruned(db, e.hash, k, bound) && db.rows[(e.hash, k)] == e
              && forall a | (a, k) in keys :: Unpruned(db, a, k, bound) ==> db.rows[(a, k)].number <= e.number
    decreases |keys|
  {
    if keys == {} {
      r := None;
    } else {
      var p :| p in keys;
      r := SomeLatest(db, k, bound, keys - {p});
      if p.1 == k && Unpruned(db, p.0, k, bound) && (r.None? || r.value.number < db.rows[p].number) {
        r := Some(db.rows[p]);
      }
    }
  }
}
