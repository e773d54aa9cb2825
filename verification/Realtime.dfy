/**
  Indexing and pruning of blocks in real time (packages/util/src/job-runner.ts, packages/util/src/events.ts)
  as a protocol: every job, and every reset of the watcher, is one step.

  The upstream chain is numbered without gaps, and all its blocks 16 above a height share their ancestor
  at that height.
*/
module Realtime {
  import opened BlockTree
  import opened Wrappers

  // ---- The upstream chain ----

  /** Some block 16 above descends from `h`. */
  ghost predicate Deep(c: Chain, h: Hash)
    requires WellFormed(c)
  {
    h in c && exists x | x in c && c[x].number == c[h].number + MAX_REORG_DEPTH :: Ancestor(c, h, x)
  }

  /** All blocks 16 above a height have the same ancestor there. */
  ghost predicate Final(c: Chain)
    requires WellFormed(c)
  {
    forall a, b | Deep(c, a) && Deep(c, b) :: c[a].number == c[b].number ==> a == b
  }

  ghost predicate Upstream(c: Chain) {
    WellFormed(c) && GapFree(c) && Final(c)
  }

  // ---- The shared state ----

  /** `stored`, `complete` and `pruned` stand for the block table and its flags. `canonical` and `indexed`
      are the pointers of the sync status. Two fields record history: `settled` the block chosen at each
      pruned height, `late` the blocks stored when their height was already behind the canonical block. */
  datatype State = State(
    stored: set<Hash>, complete: set<Hash>, pruned: set<Hash>,
    canonical: nat, canonicalHash: Hash, indexed: int,
    settled: map<nat, Hash>, late: set<Hash>)

  /** getBlocksAtHeight(n, false). */
  function AtHeight(c: Chain, s: State, n: int): set<Hash> {
    set h | h in s.stored && h !in s.pruned && h in c && c[h].number == n
  }

  /** getAncestorAtHeight: the walk over stored parents goes on while they are not below the height; its
      lowest row is the last one. */
  function AncestorAtHeight(c: Chain, stored: set<Hash>, h: Hash, height: nat): (a: Hash)
    requires WellFormed(c) && h in c
    decreases c[h].number
  {
    var p := c[h].parent;
    if p in c && p in stored && c[p].number >= height then AncestorAtHeight(c, stored, p, height) else h
  }

  // ---- Steps ----

  datatype Step =
    | IndexBlock(h: Hash)
    | CompleteBlock(h: Hash)
    | IndexingComplete(n: nat)
    | PruneChain(height: nat, tip: Hash)
    | Reset(n: nat, picked: Hash)

  /** _indexBlock saves the block unless pruning is behind, or the parent of a block above the canonical
      one is not complete, or the block is there already. It is complete only once its events are processed,
      even if there are none. */
  ghost predicate IndexSaves(c: Chain, s: State, h: Hash)
    requires h in c
  {
    && c[h].number != 0 && s.indexed - s.canonical <= MAX_REORG_DEPTH
    && (c[h].number > s.canonical ==> c[h].parent in s.stored && c[h].parent in s.complete)
    && h !in s.stored
  }

  /** The height at which the loop of _pruneChain finds a block. It asserts that the height below is still
      above the pruned one even when it has found a block, so that height + 1 is never accepted. */
  ghost function TipHeight(c: Chain, s: State, at: nat, height: nat): (r: Option<nat>)
    requires at > height
    ensures r.Some? ==> height + 1 < r.value <= at && AtHeight(c, s, r.value) != {}
    ensures at > height + 1 && AtHeight(c, s, at) != {} ==> r == Some(at)
  {
    if at - 1 <= height then None
    else if AtHeight(c, s, at) != {} then Some(at)
    else TipHeight(c, s, at - 1, height)
  }

  ghost predicate EmptyBetween(c: Chain, s: State, lo: int, hi: int) {
    forall n: nat | lo < n <= hi :: AtHeight(c, s, n) == {}
  }

  /** It is the highest height with a block, and there is none exactly if the heights from two above the
      pruned one up have no block; the one directly above does not matter. */
  lemma {:induction false} TipHeightExact(c: Chain, s: State, at: nat, height: nat, r: nat)
    requires at > height
    ensures TipHeight(c, s, at, height) == None <==> EmptyBetween(c, s, height + 1, at)
    ensures TipHeight(c, s, at, height) == Some(r)
      <==> height + 1 < r <= at && AtHeight(c, s, r) != {} && EmptyBetween(c, s, r, at)
  {
    if at - 1 > height && AtHeight(c, s, at) == {} {
      TipHeightExact(c, s, at - 1, height, r);
    }
  }

  ghost predicate PruneRuns(s: State, height: nat) {
    s.indexed >= height + MAX_REORG_DEPTH && s.canonical < height
  }

  ghost predicate Enabled(c: Chain, s: State, step: Step)
    requires WellFormed(c)
  {
    match step
    case IndexBlock(h) => h in c
    case CompleteBlock(h) => h in s.stored
    case IndexingComplete(n) => true
    case PruneChain(height, tip) =>
      PruneRuns(s, height) && |AtHeight(c, s, height)| > 1 ==>
        var at := TipHeight(c, s, height + MAX_REORG_DEPTH, height);
        at.Some? ==> tip in AtHeight(c, s, at.value)
    case Reset(n, picked) => picked in AtHeight(c, s, n) && AtHeight(c, s, n) <= s.complete
  }

  ghost function Indexed(c: Chain, s: State, h: Hash): State
    requires h in c
  {
    if !IndexSaves(c, s, h) then s
    else s.(stored := s.stored + {h}, late := if c[h].number <= s.canonical then s.late + {h} else s.late)
  }

  ghost function Settle(s: State, height: nat, h: Hash, losers: set<Hash>): State {
    s.(canonical := height, canonicalHash := h, settled := s.settled[height := h], pruned := s.pruned + losers)
  }

  const HASH_ZERO: Hash := "0x0"

  ghost function Pruned(c: Chain, s: State, height: nat, tip: Hash): State
    requires WellFormed(c) && Enabled(c, s, PruneChain(height, tip))
  {
    var blocks := AtHeight(c, s, height);
    if !PruneRuns(s, height) then s
    else if blocks == {} then s.(canonical := height, canonicalHash := HASH_ZERO)
    else if |blocks| == 1 then var h :| h in blocks; Settle(s, height, h, {})
    else if TipHeight(c, s, height + MAX_REORG_DEPTH, height).None? then s
    else
      var a := AncestorAtHeight(c, s.stored, tip, height);
      Settle(s, height, a, blocks - {a})
  }

  ghost function ResetTo(c: Chain, s: State, n: nat, picked: Hash): State {
    var kept := set h | h in s.stored && h in c && c[h].number <= n;
    State(kept, s.complete * kept, s.pruned * kept,
          if s.canonical > n then n else s.canonical, if s.canonical > n then picked else s.canonicalHash,
          if s.indexed > n then n else s.indexed,
          map m | m in s.settled && m <= n :: s.settled[m], s.late * kept)
  }

  ghost function Next(c: Chain, s: State, step: Step): State
    requires WellFormed(c) && Enabled(c, s, step)
  {
    match step
    case IndexBlock(h) => Indexed(c, s, h)
    case CompleteBlock(h) => s.(complete := s.complete + {h})
    case IndexingComplete(n) => if AtHeight(c, s, n) != {} && n >= s.indexed then s.(indexed := n) else s
    case PruneChain(height, tip) => Pruned(c, s, height, tip)
    case Reset(n, picked) => ResetTo(c, s, n, picked)
  }

  ghost predicate Run(c: Chain, s: State, steps: seq<Step>, t: State)
    requires WellFormed(c)
    decreases |steps|
  {
    if steps == [] then t == s else Enabled(c, s, steps[0]) && Run(c, Next(c, s, steps[0]), steps[1..], t)
  }

  /** Real-time processing starts with no block stored above the canonical one. */
  ghost predicate Init(c: Chain, s: State) {
    && s.stored <= c.Keys && s.complete <= s.stored && s.pruned <= s.stored && s.late == s.stored
    && s.indexed <= s.canonical && s.settled == map[]
    && forall h | h in s.stored :: c[h].number <= s.canonical
  }

  // ---- The invariant ----

  /** Every block above the canonical one has a complete parent and is not pruned. */
  ghost predicate Linked(c: Chain, s: State)
    requires s.stored <= c.Keys
  {
    forall h | h in s.stored && c[h].number > s.canonical :: c[h].parent in s.stored && c[h].parent in s.complete
        && h !in s.pruned
  }

  /** The block chosen at a pruned height is the only one left there, apart from late ones. */
  ghost predicate SettledAt(c: Chain, s: State, m: nat)
    requires WellFormed(c) && m in s.settled
  {
    m <= s.canonical && Deep(c, s.settled[m]) && AtHeight(c, s, m) - s.late == {s.settled[m]}
  }

  ghost predicate Tables(c: Chain, s: State) {
    && s.stored <= c.Keys && s.complete <= s.stored && s.pruned <= s.stored && s.late <= s.stored
    && (forall h | h in s.late :: c[h].number <= s.canonical)
    && (s.indexed > s.canonical ==> AtHeight(c, s, s.indexed) != {})
  }

  ghost predicate Inv(c: Chain, s: State)
    requires WellFormed(c)
  {
    Tables(c, s) && Linked(c, s) && forall m | m in s.settled :: SettledAt(c, s, m)
  }

  // ---- Ancestors ----

  /** Above the canonical block the stored parents lead to every lower height. */
  lemma {:induction false} ClimbReaches(c: Chain, s: State, h: Hash, height: nat)
    requires WellFormed(c) && GapFree(c) && Tables(c, s) && Linked(c, s)
    requires h in s.stored && s.canonical < height <= c[h].number
    ensures var a := AncestorAtHeight(c, s.stored, h, height);
      a in s.stored && c[a].number == height && Ancestor(c, a, h) && a in AtHeight(c, s, height)
    decreases c[h].number
  {
    assert OneBelow(c, h);
    if c[h].number > height {
      ClimbReaches(c, s, c[h].parent, height);
    }
  }

  lemma {:induction false} ParentDeep(c: Chain, b: Hash)
    requires WellFormed(c) && GapFree(c) && Deep(c, b) && c[b].number > 0
    ensures Deep(c, c[b].parent)
  {
    var y :| y in c && c[y].number == c[b].number + MAX_REORG_DEPTH && Ancestor(c, b, y);
    var p := c[b].parent;
    assert OneBelow(c, b) && OneBelow(c, y);
    assert Ancestor(c, p, b) by {
      assert Ancestor(c, p, p);
    }
    AncestorTrans(c, p, b, y);
    AncestorNumber(c, p, y);
  }

  /** The settled blocks of two successive heights are parent and child. */
  lemma DeepParent(c: Chain, a: Hash, b: Hash)
    requires Upstream(c) && Deep(c, a) && Deep(c, b) && c[b].number == c[a].number + 1
    ensures c[b].parent == a
  {
    ParentDeep(c, b);
    assert OneBelow(c, b);
  }

  // ---- Every step keeps the invariant ----

  lemma SettledFrame(c: Chain, s: State, t: State, m: nat)
    requires WellFormed(c) && m in s.settled && SettledAt(c, s, m)
    requires m in t.settled && t.settled[m] == s.settled[m] && m <= t.canonical
    requires AtHeight(c, t, m) - t.late == AtHeight(c, s, m) - s.late
    ensures SettledAt(c, t, m)
  {}

  lemma IndexSettled(c: Chain, s: State, h: Hash, m: nat)
    requires WellFormed(c) && h in c && m in s.settled && SettledAt(c, s, m) && h !in s.stored
    ensures SettledAt(c, Indexed(c, s, h), m)
  {
    var t := Indexed(c, s, h);
    assert AtHeight(c, t, m) - t.late == AtHeight(c, s, m) - s.late;
    SettledFrame(c, s, t, m);
  }

  lemma IndexTables(c: Chain, s: State, h: Hash)
    requires Tables(c, s) && h in c
    ensures Tables(c, Indexed(c, s, h))
  {
    assert AtHeight(c, s, s.indexed) <= AtHeight(c, Indexed(c, s, h), s.indexed);
  }

  lemma IndexKeeps(c: Chain, s: State, h: Hash)
    requires Upstream(c) && Inv(c, s) && h in c
    ensures Inv(c, Indexed(c, s, h))
  {
    if IndexSaves(c, s, h) {
      IndexTables(c, s, h);
      forall m | m in s.settled
        ensures SettledAt(c, Indexed(c, s, h), m)
      {
        IndexSettled(c, s, h, m);
      }
    }
  }

  lemma CompleteSettled(c: Chain, s: State, h: Hash, m: nat)
    requires WellFormed(c) && m in s.settled && SettledAt(c, s, m)
    ensures SettledAt(c, s.(complete := s.complete + {h}), m)
  {
    var t := s.(complete := s.complete + {h});
    assert AtHeight(c, t, m) == AtHeight(c, s, m);
    SettledFrame(c, s, t, m);
  }

  lemma CompleteKeeps(c: Chain, s: State, h: Hash)
    requires Upstream(c) && Inv(c, s) && h in s.stored
    ensures Inv(c, s.(complete := s.complete + {h}))
  {
    var t := s.(complete := s.complete + {h});
    assert AtHeight(c, t, s.indexed) == AtHeight(c, s, s.indexed);
    forall m | m in s.settled
      ensures SettledAt(c, t, m)
    {
      CompleteSettled(c, s, h, m);
    }
  }

  lemma IndexingCompleteKeeps(c: Chain, s: State, n: nat)
    requires Upstream(c) && Inv(c, s) && AtHeight(c, s, n) != {}
    ensures Inv(c, s.(indexed := n))
  {
    var t := s.(indexed := n);
    assert AtHeight(c, t, n) == AtHeight(c, s, n);
    forall m | m in s.settled
      ensures SettledAt(c, t, m)
    {
      assert AtHeight(c, t, m) == AtHeight(c, s, m);
      SettledFrame(c, s, t, m);
    }
  }

  lemma ResetTables(c: Chain, s: State, n: nat, picked: Hash)
    requires Tables(c, s) && picked in AtHeight(c, s, n)
    ensures Tables(c, ResetTo(c, s, n, picked))
  {
    var t := ResetTo(c, s, n, picked);
    if t.indexed > t.canonical {
      assert AtHeight(c, s, t.indexed) <= AtHeight(c, t, t.indexed);
      assert picked in AtHeight(c, t, n);
    }
  }

  lemma ResetLinked(c: Chain, s: State, n: nat, picked: Hash)
    requires GapFree(c) && Tables(c, s) && Linked(c, s)
    ensures var t := ResetTo(c, s, n, picked); t.stored <= c.Keys && Linked(c, t)
  {
    var t := ResetTo(c, s, n, picked);
    forall h | h in t.stored && c[h].number > t.canonical
      ensures c[h].parent in t.stored && c[h].parent in t.complete && h !in t.pruned
    {
      assert OneBelow(c, h);
    }
  }

  lemma ResetSettled(c: Chain, s: State, n: nat, picked: Hash, m: nat)
    requires WellFormed(c) && m in s.settled && m <= n && SettledAt(c, s, m)
    ensures SettledAt(c, ResetTo(c, s, n, picked), m)
  {
    var t := ResetTo(c, s, n, picked);
    assert AtHeight(c, t, m) - t.late == AtHeight(c, s, m) - s.late;
    SettledFrame(c, s, t, m);
  }

  lemma ResetKeeps(c: Chain, s: State, n: nat, picked: Hash)
    requires Upstream(c) && Inv(c, s) && picked in AtHeight(c, s, n)
    ensures Inv(c, ResetTo(c, s, n, picked))
  {
    ResetTables(c, s, n, picked);
    ResetLinked(c, s, n, picked);
    forall m | m in s.settled && m <= n
      ensures SettledAt(c, ResetTo(c, s, n, picked), m)
    {
      ResetSettled(c, s, n, picked, m);
    }
  }

  /** Where pruning runs there is a block 16 above, and every such block leads to a block to settle on. */
  lemma PruneFinds(c: Chain, s: State, height: nat)
    requires Upstream(c) && Inv(c, s) && PruneRuns(s, height)
    ensures AtHeight(c, s, height) != {} && TipHeight(c, s, height + MAX_REORG_DEPTH, height)
        == Some(height + MAX_REORG_DEPTH)
  {
    var top :| top in AtHeight(c, s, s.indexed);
    ClimbReaches(c, s, top, height + MAX_REORG_DEPTH);
    ClimbReaches(c, s, top, height);
  }

  lemma TipSettles(c: Chain, s: State, height: nat, tip: Hash)
    requires Upstream(c) && Inv(c, s) && s.canonical < height && tip in AtHeight(c, s, height + MAX_REORG_DEPTH)
    ensures var a := AncestorAtHeight(c, s.stored, tip, height); a in AtHeight(c, s, height) && Deep(c, a)
  {
    ClimbReaches(c, s, tip, height);
  }

  lemma SettleNew(c: Chain, s: State, height: nat, h: Hash)
    requires WellFormed(c) && Tables(c, s) && s.canonical < height && h in AtHeight(c, s, height) && Deep(c, h)
    ensures SettledAt(c, Settle(s, height, h, AtHeight(c, s, height) - {h}), height)
  {
    var t := Settle(s, height, h, AtHeight(c, s, height) - {h});
    assert AtHeight(c, t, height) - t.late == {h};
  }

  lemma SettleOld(c: Chain, s: State, height: nat, h: Hash, m: nat)
    requires WellFormed(c) && s.canonical < height && m in s.settled && SettledAt(c, s, m)
    ensures SettledAt(c, Settle(s, height, h, AtHeight(c, s, height) - {h}), m)
  {
    var t := Settle(s, height, h, AtHeight(c, s, height) - {h});
    assert AtHeight(c, t, m) == AtHeight(c, s, m);
    SettledFrame(c, s, t, m);
  }

  lemma SettleTables(c: Chain, s: State, height: nat, h: Hash)
    requires Tables(c, s) && PruneRuns(s, height)
    ensures Tables(c, Settle(s, height, h, AtHeight(c, s, height) - {h}))
  {
    assert AtHeight(c, Settle(s, height, h, AtHeight(c, s, height) - {h}), s.indexed) == AtHeight(c, s, s.indexed);
  }

  lemma SettleKeeps(c: Chain, s: State, height: nat, h: Hash)
    requires Upstream(c) && Inv(c, s) && PruneRuns(s, height) && h in AtHeight(c, s, height) && Deep(c, h)
    ensures Inv(c, Settle(s, height, h, AtHeight(c, s, height) - {h}))
  {
    SettleTables(c, s, height, h);
    SettleNew(c, s, height, h);
    forall m | m in s.settled
      ensures SettledAt(c, Settle(s, height, h, AtHeight(c, s, height) - {h}), m)
    {
      SettleOld(c, s, height, h, m);
    }
  }

  lemma PruneKeeps(c: Chain, s: State, height: nat, tip: Hash)
    requires Upstream(c) && Inv(c, s) && Enabled(c, s, PruneChain(height, tip))
    ensures Inv(c, Pruned(c, s, height, tip))
  {
    if PruneRuns(s, height) {
      PruneFinds(c, s, height);
      var blocks := AtHeight(c, s, height);
      if |blocks| == 1 {
        var h :| h in blocks;
        OnlyElement(blocks, h);
        var x :| x in AtHeight(c, s, height + MAX_REORG_DEPTH);
        TipSettles(c, s, height, x);
        SettleKeeps(c, s, height, h);
      } else {
        TipSettles(c, s, height, tip);
        SettleKeeps(c, s, height, AncestorAtHeight(c, s.stored, tip, height));
      }
    }
  }

  lemma OnlyElement(blocks: set<Hash>, h: Hash)
    requires |blocks| == 1 && h in blocks
    ensures blocks == {h} && blocks - {h} == {}
  {
    assert |blocks - {h}| == 0;
  }

  lemma StepKeeps(c: Chain, s: State, step: Step)
    requires Upstream(c) && Inv(c, s) && Enabled(c, s, step)
    ensures Inv(c, Next(c, s, step))
  {
    match step
    case IndexBlock(h) => IndexKeeps(c, s, h);
    case CompleteBlock(h) => CompleteKeeps(c, s, h);
    case IndexingComplete(n) => if AtHeight(c, s, n) != {} && n >= s.indexed { IndexingCompleteKeeps(c, s, n); }
    case PruneChain(height, tip) => PruneKeeps(c, s, height, tip);
    case Reset(n, picked) => ResetKeeps(c, s, n, picked);
  }

  lemma {:induction false} RunKeeps(c: Chain, s: State, steps: seq<Step>, t: State)
    requires Upstream(c) && Inv(c, s) && Run(c, s, steps, t)
    ensures Inv(c, t)
    decreases |steps|
  {
    if steps != [] {
      StepKeeps(c, s, steps[0]);
      RunKeeps(c, Next(c, s, steps[0]), steps[1..], t);
    }
  }

  // ---- What holds in every run ----

  /** No block is stored above the canonical one without its parent being stored and complete. */
  lemma ParentsComplete(c: Chain, s: State, steps: seq<Step>, t: State, h: Hash)
    requires Upstream(c) && Init(c, s) && Run(c, s, steps, t) && h in t.stored && h in c && c[h].number > t.canonical
    ensures c[h].parent in t.stored && c[h].parent in t.complete
  {
    RunKeeps(c, s, steps, t);
  }

  /** At a pruned height one block is left unpruned, besides those that were stored behind the canonical
      block; it is the only one exactly when no such late block is there. */
  lemma OneBlockPerHeight(c: Chain, s: State, steps: seq<Step>, t: State, m: nat)
    requires Upstream(c) && Init(c, s) && Run(c, s, steps, t) && m in t.settled
    ensures AtHeight(c, t, m) - t.late == {t.settled[m]}
    ensures AtHeight(c, t, m) == {t.settled[m]} <==> AtHeight(c, t, m) !! t.late
  {
    RunKeeps(c, s, steps, t);
    assert SettledAt(c, t, m);
    var blocks, h := AtHeight(c, t, m), t.settled[m];
    assert h in blocks - t.late;
    if blocks !! t.late {
      assert blocks - t.late == blocks;
    }
  }

  /** The blocks left at successive pruned heights are parent and child. */
  lemma SettledChain(c: Chain, s: State, steps: seq<Step>, t: State, m: nat)
    requires Upstream(c) && Init(c, s) && Run(c, s, steps, t) && m in t.settled && m + 1 in t.settled
    ensures t.settled[m + 1] in c && c[t.settled[m + 1]].parent == t.settled[m]
  {
    RunKeeps(c, s, steps, t);
    SettledDeep(c, t, m);
    SettledDeep(c, t, m + 1);
    DeepParent(c, t.settled[m], t.settled[m + 1]);
  }

  lemma SettledDeep(c: Chain, s: State, m: nat)
    requires WellFormed(c) && m in s.settled && SettledAt(c, s, m)
    ensures var h := s.settled[m]; Deep(c, h) && c[h].number == m
  {
    assert s.settled[m] in AtHeight(c, s, m);
  }

  // ---- Prune jobs in the order in which they are created ----

  /** createPruningJob asks for the height after the canonical block, and retries of older jobs are for
      heights already behind it. */
  ghost predicate InOrder(c: Chain, s: State, steps: seq<Step>)
    requires WellFormed(c)
    decreases |steps|
  {
    steps == [] ||
    (Enabled(c, s, steps[0]) && (steps[0].PruneChain? ==> steps[0].height <= s.canonical + 1)
        && InOrder(c, Next(c, s, steps[0]), steps[1..]))
  }

  ghost predicate NoneSkipped(s: State) {
    forall m, k | m in s.settled && m <= k <= s.canonical :: k in s.settled
  }

  lemma PruneSettles(c: Chain, s: State, height: nat, tip: Hash)
    requires Upstream(c) && Inv(c, s) && Enabled(c, s, PruneChain(height, tip)) && PruneRuns(s, height)
    ensures var t := Pruned(c, s, height, tip); t.canonical == height && t.settled.Keys == s.settled.Keys + {height}
  {
    PruneFinds(c, s, height);
  }

  lemma NextHeightSettled(s: State, t: State, height: nat)
    requires NoneSkipped(s) && height <= s.canonical + 1
    requires t.canonical == height && t.settled.Keys == s.settled.Keys + {height}
    ensures NoneSkipped(t)
  {
    forall m, k | m in t.settled && m <= k <= t.canonical
      ensures k in t.settled
    {
      assert m == height || m in s.settled;
    }
  }

  lemma PruneSkipsNone(c: Chain, s: State, height: nat, tip: Hash)
    requires Upstream(c) && Inv(c, s) && Enabled(c, s, PruneChain(height, tip))
    requires height <= s.canonical + 1 && NoneSkipped(s)
    ensures NoneSkipped(Pruned(c, s, height, tip))
  {
    if PruneRuns(s, height) {
      PruneSettles(c, s, height, tip);
      NextHeightSettled(s, Pruned(c, s, height, tip), height);
    }
  }

  lemma StepSkipsNone(c: Chain, s: State, step: Step)
    requires Upstream(c) && Inv(c, s) && Enabled(c, s, step) && NoneSkipped(s)
    requires step.PruneChain? ==> step.height <= s.canonical + 1
    ensures NoneSkipped(Next(c, s, step))
  {
    match step
    case PruneChain(height, tip) => PruneSkipsNone(c, s, height, tip);
    case Reset(n, picked) =>
    case IndexBlock(_) =>
    case CompleteBlock(_) =>
    case IndexingComplete(_) =>
  }

  /** With prune jobs in order no height is skipped: from the first one up to the canonical block every
      height has its block. */
  lemma {:induction false} NoHeightSkipped(c: Chain, s: State, steps: seq<Step>, t: State)
    requires Upstream(c) && Inv(c, s) && NoneSkipped(s) && Run(c, s, steps, t) && InOrder(c, s, steps)
    ensures NoneSkipped(t)
    decreases |steps|
  {
    if steps != [] {
      StepKeeps(c, s, steps[0]);
      StepSkipsNone(c, s, steps[0]);
      NoHeightSkipped(c, Next(c, s, steps[0]), steps[1..], t);
    }
  }

  /** A reset leaves exactly the blocks up to its height, with their flags, and lowers the pointers to it. */
  lemma ResetExact(c: Chain, s: State, n: nat, picked: Hash, h: Hash)
    ensures var t := ResetTo(c, s, n, picked);
      && (h in t.stored <==> h in s.stored && h in c && c[h].number <= n)
      && (h in t.stored ==> (h in t.complete <==> h in s.complete) && (h in t.pruned <==> h in s.pruned))
      && t.complete + t.pruned <= t.stored
      && t.indexed <= n && t.indexed in {s.indexed, n} && (s.indexed <= n ==> t.indexed == s.indexed)
      && (if s.canonical <= n then t.canonical == s.canonical && t.canonicalHash == s.canonicalHash
          else t.canonical == n && t.canonicalHash == picked)
  {}

  // ---- The canonical block ----

  /** The block whose hash is kept with the canonical number is there, unpruned. */
  ghost predicate HashStored(c: Chain, s: State) {
    s.canonical in s.settled ==> s.canonicalHash in AtHeight(c, s, s.canonical)
  }

  lemma PruneHash(c: Chain, s: State, height: nat, tip: Hash)
    requires Upstream(c) && Inv(c, s) && Enabled(c, s, PruneChain(height, tip)) && PruneRuns(s, height)
    ensures var t := Pruned(c, s, height, tip);
      && t.canonicalHash in AtHeight(c, s, height) && Deep(c, t.canonicalHash)
      && t == Settle(s, height, t.canonicalHash, AtHeight(c, s, height) - {t.canonicalHash})
  {
    PruneFinds(c, s, height);
    var blocks := AtHeight(c, s, height);
    if |blocks| == 1 {
      var h :| h in blocks;
      OnlyElement(blocks, h);
      var x :| x in AtHeight(c, s, height + MAX_REORG_DEPTH);
      TipSettles(c, s, height, x);
    } else {
      TipSettles(c, s, height, tip);
    }
  }

  lemma ResetHash(c: Chain, s: State, n: nat, picked: Hash)
    requires picked in AtHeight(c, s, n) && HashStored(c, s)
    ensures HashStored(c, ResetTo(c, s, n, picked))
  {}

  lemma HashKept(c: Chain, s: State, step: Step)
    requires Upstream(c) && Inv(c, s) && Enabled(c, s, step) && HashStored(c, s)
    ensures HashStored(c, Next(c, s, step))
  {
    match step
    case PruneChain(height, tip) => if PruneRuns(s, height) { PruneHash(c, s, height, tip); }
    case Reset(n, picked) => ResetHash(c, s, n, picked);
    case IndexBlock(_) =>
    case CompleteBlock(_) =>
    case IndexingComplete(_) =>
  }

  lemma {:induction false} RunKeepsHash(c: Chain, s: State, steps: seq<Step>, t: State)
    requires Upstream(c) && Inv(c, s) && HashStored(c, s) && Run(c, s, steps, t)
    ensures Inv(c, t) && HashStored(c, t)
    decreases |steps|
  {
    if steps != [] {
      StepKeeps(c, s, steps[0]);
      HashKept(c, s, steps[0]);
      RunKeepsHash(c, Next(c, s, steps[0]), steps[1..], t);
    }
  }

  /** With its number the sync status keeps the hash of the block settled there, unless a reset has picked a
      late one. */
  lemma CanonicalBlock(c: Chain, s: State, steps: seq<Step>, t: State)
    requires Upstream(c) && Init(c, s) && Run(c, s, steps, t) && t.canonical in t.settled
    ensures t.canonicalHash in AtHeight(c, t, t.canonical)
    ensures t.canonicalHash == t.settled[t.canonical] || t.canonicalHash in t.late
  {
    RunKeepsHash(c, s, steps, t);
    assert SettledAt(c, t, t.canonical);
    assert t.canonicalHash in t.late || t.canonicalHash in AtHeight(c, t, t.canonical) - t.late;
  }

  // ---- Pruning catches up ----

  /** The height that createPruningJob asks for, if the canonical block is too far behind. */
  function PruneAsked(s: State): Option<nat> {
    if s.indexed - s.canonical > MAX_REORG_DEPTH then Some(s.canonical + 1) else None
  }

  /** Each step is the prune job that is asked for when it is taken. */
  ghost predicate AsAsked(c: Chain, s: State, steps: seq<Step>)
    requires WellFormed(c)
    decreases |steps|
  {
    steps == []
    || (Enabled(c, s, steps[0]) && steps[0].PruneChain? && PruneAsked(s) == Some(steps[0].height)
        && AsAsked(c, Next(c, s, steps[0]), steps[1..]))
  }

  lemma PruneAdvances(c: Chain, s: State, height: nat, tip: Hash)
    requires Upstream(c) && Inv(c, s) && Enabled(c, s, PruneChain(height, tip)) && PruneAsked(s) == Some(height)
    ensures var t := Pruned(c, s, height, tip); Inv(c, t) && t.canonical == s.canonical + 1 && t.indexed == s.indexed
  {
    PruneKeeps(c, s, height, tip);
    PruneHash(c, s, height, tip);
  }

  /** Every prune job that is asked for raises the canonical block by one, whatever block it prunes from. */
  lemma {:induction false} AskedAdvances(c: Chain, s: State, steps: seq<Step>, t: State)
    requires Upstream(c) && Inv(c, s) && AsAsked(c, s, steps) && Run(c, s, steps, t)
    ensures Inv(c, t) && t.canonical == s.canonical + |steps| && t.indexed == s.indexed
    decreases |steps|
  {
    if steps != [] {
      PruneAdvances(c, s, steps[0].height, steps[0].tip);
      AskedAdvances(c, Next(c, s, steps[0]), steps[1..], t);
    }
  }

  lemma TipThere(c: Chain, s: State, height: nat) returns (tip: Hash)
    requires Upstream(c) && Inv(c, s) && PruneRuns(s, height)
    ensures Enabled(c, s, PruneChain(height, tip))
  {
    PruneFinds(c, s, height);
    tip :| tip in AtHeight(c, s, height + MAX_REORG_DEPTH);
  }

  /** However far pruning is behind, working off the prune jobs asked for brings the canonical block back to 16
      below the indexed one. */
  lemma {:induction false} PruneCatchesUp(c: Chain, s: State) returns (steps: seq<Step>, t: State)
    requires Upstream(c) && Inv(c, s) && s.indexed - s.canonical > MAX_REORG_DEPTH
    ensures AsAsked(c, s, steps) && Run(c, s, steps, t) && Inv(c, t) && PruneAsked(t) == None
    ensures t.indexed == s.indexed && t.indexed - t.canonical == MAX_REORG_DEPTH
    decreases s.indexed - s.canonical
  {
    var tip := TipThere(c, s, s.canonical + 1);
    var step := PruneChain(s.canonical + 1, tip);
    var next := Next(c, s, step);
    PruneAdvances(c, s, s.canonical + 1, tip);
    if PruneAsked(next) == None {
      steps, t := [step], next;
      assert [step][1..] == [];
    } else {
      var more;
      more, t := PruneCatchesUp(c, next);
      steps := [step] + more;
      assert steps[1..] == more;
    }
  }

  /** Every new block with a complete parent is then accepted again. */
  lemma AcceptedAgain(c: Chain, s: State, h: Hash) returns (steps: seq<Step>, t: State)
    requires Upstream(c) && Inv(c, s) && h in c && c[h].number != 0 && h !in s.stored
    requires c[h].parent in s.stored && c[h].parent in s.complete
    ensures Run(c, s, steps, t) && Inv(c, t) && AsAsked(c, s, steps) && h in Next(c, t, IndexBlock(h)).stored
  {
    if PruneAsked(s) == None {
      steps, t := [], s;
    } else {
      steps, t := PruneCatchesUp(c, s);
      AskedStored(c, s, steps, t);
    }
  }

  lemma {:induction false} AskedStored(c: Chain, s: State, steps: seq<Step>, t: State)
    requires WellFormed(c) && AsAsked(c, s, steps) && Run(c, s, steps, t)
    ensures t.stored == s.stored && t.complete == s.complete
    decreases |steps|
  {
    if steps != [] {
      AskedStored(c, Next(c, s, steps[0]), steps[1..], t);
    }
  }

  /** A job to index another block at a pruned height is accepted, and that block stays unpruned. */
  lemma LateBlockStays(c: Chain, s: State, m: nat, h: Hash)
    requires Upstream(c) && Inv(c, s) && m in s.settled && m > 0 && s.indexed - s.canonical <= MAX_REORG_DEPTH
    requires h in c && c[h].number == m && h !in s.stored
    ensures var t := Next(c, s, IndexBlock(h)); AtHeight(c, t, m) >= {h, s.settled[m]} && h != s.settled[m]
  {
    assert SettledAt(c, s, m);
    assert s.settled[m] in AtHeight(c, s, m) - s.late;
  }
}
