/**
  The job runner's block queue (packages/util/src/job-runner.ts) with the handler of finished index jobs
  (packages/util/src/events.ts) and the reset of the watcher (packages/util/src/indexer.ts): methods that
  change the tables in place, each proved to be one step of the protocol in Realtime.
*/
module RealtimeJobs {
  import opened BlockTree
  import opened Realtime
  import opened Wrappers

  /** `ParentFirst` pushes a job to index the parent with a higher priority. */
  datatype Outcome = Indexing | ParentFirst(parent: Hash, priority: nat)

  class JobRunner {
    /** Upstream blocks by hash. */
    const chain: Chain
    var stored: set<Hash>
    var complete: set<Hash>
    var pruned: set<Hash>
    var latestCanonicalBlockNumber: nat
    var latestCanonicalBlockHash: Hash
    var latestIndexedBlockNumber: int
    ghost var settled: map<nat, Hash>
    ghost var late: set<Hash>

    ghost function Model(): State
      reads this
    {
      State(stored, complete, pruned, latestCanonicalBlockNumber, latestCanonicalBlockHash, latestIndexedBlockNumber,
          settled, late)
    }

    constructor (chain: Chain, start: nat, startHash: Hash)
      ensures Init(chain, Model()) && this.chain == chain && latestCanonicalBlockNumber == start
    {
      this.chain := chain;
      stored, complete, pruned := {}, {}, {};
      latestCanonicalBlockNumber, latestCanonicalBlockHash, latestIndexedBlockNumber := start, startHash, -1;
      settled, late := map[], {};
    }

    method GetBlocksAtHeight(n: int) returns (blocks: set<Hash>)
      ensures blocks == AtHeight(chain, Model(), n)
    {
      blocks := set h | h in stored && h !in pruned && h in chain && chain[h].number == n;
    }

    /** Block 0 is refused, and every block while pruning is behind. */
    ghost predicate Accepts(s: State, h: Hash)
      requires h in chain
    {
      chain[h].number != 0 && s.indexed - s.canonical <= MAX_REORG_DEPTH
    }

    /** A block above the canonical one needs its parent to be complete. */
    ghost predicate NeedsParent(s: State, h: Hash)
      requires h in chain
    {
      chain[h].number > s.canonical && (chain[h].parent !in s.stored || chain[h].parent !in s.complete)
    }

    /** A stored block without its parent is taken for the parent and saved again. */
    ghost predicate Clashes(s: State, h: Hash)
      requires h in chain
    {
      h in s.stored && chain[h].parent !in s.stored
    }

    /** _indexBlock; tells which height to prune, if pruning is behind. One query fetches the rows of the parent
        and of the block itself, lowest number first, and its two results are taken for the parent and the
        block. */
    method IndexBlock(h: Hash, priority: nat) returns (r: Result<Outcome>, pruneHeight: Option<nat>)
      requires WellFormed(chain) && h in chain
      modifies this
      ensures Model() == Next(chain, old(Model()), Step.IndexBlock(h))
      ensures r == Success(Indexing)
        <==> Accepts(old(Model()), h) && !NeedsParent(old(Model()), h) && !Clashes(old(Model()), h)
      ensures r == Success(Indexing) ==> h in stored
      ensures r.Success? && r.value.ParentFirst?
        <==> Accepts(old(Model()), h) && NeedsParent(old(Model()), h)
             && (chain[h].parent in stored || chain[h].parent in chain)
      ensures r.Success? && r.value.ParentFirst? ==> r.value == ParentFirst(chain[h].parent, priority + 1)
      ensures r != Success(Indexing) ==> Model() == old(Model())
      ensures pruneHeight == if chain[h].number != 0 then PruneAsked(old(Model())) else None
      ensures pruneHeight.Some? ==> r.Failure?
    {
      var block := chain[h];
      if block.number == 0 {
        return Failure("blockNumber"), None;
      }
      if latestIndexedBlockNumber - latestCanonicalBlockNumber > MAX_REORG_DEPTH {
        return Failure("Chain pruning not caught up yet"), Some(latestCanonicalBlockNumber + 1);
      }
      var rows := (if block.parent in stored then [block.parent] else []) + (if h in stored then [h] else []);
      var parentBlock := if |rows| > 0 then Some(rows[0]) else None;
      var blockProgress := if |rows| > 1 then Some(rows[1]) else None;
      if block.number > latestCanonicalBlockNumber {
        if parentBlock != Some(block.parent) {
          if block.parent !in chain {
            return Failure("No blocks at parentHash"), None;
          }
          return Success(ParentFirst(block.parent, priority + 1)), None;
        }
        if block.parent !in complete {
          return Success(ParentFirst(block.parent, priority + 1)), None;
        }
      }
      if blockProgress.None? {
        if h in stored {
          return Failure("duplicate key value violates unique constraint"), None;
        }
        stored := stored + {h};
        if block.number <= latestCanonicalBlockNumber {
          late := late + {h};
        }
      }
      return Success(Indexing), None;
    }

    /** _handleIndexingComplete, with the guarded pointer update; tells which height to prune, if any. */
    method HandleIndexingComplete(n: nat) returns (pruneHeight: Option<nat>)
      requires WellFormed(chain)
      modifies this
      ensures Model() == Next(chain, old(Model()), IndexingComplete(n))
      ensures latestIndexedBlockNumber
          == if AtHeight(chain, Model(), n) != {} && n > old(latestIndexedBlockNumber) then n
             else old(latestIndexedBlockNumber)
      ensures pruneHeight == if AtHeight(chain, Model(), n) != {} then PruneAsked(Model()) else None
      ensures pruneHeight.Some?
        <==> AtHeight(chain, Model(), n) != {}
             && latestIndexedBlockNumber - latestCanonicalBlockNumber > MAX_REORG_DEPTH
      ensures pruneHeight.Some? ==>
                pruneHeight.value == latestCanonicalBlockNumber + 1 && PruneRuns(Model(), pruneHeight.value)
    {
      var blocks := GetBlocksAtHeight(n);
      if blocks == {} {
        return None;
      }
      if n >= latestIndexedBlockNumber {
        latestIndexedBlockNumber := n;
      }
      return if latestIndexedBlockNumber > latestCanonicalBlockNumber + MAX_REORG_DEPTH then
          Some(latestCanonicalBlockNumber + 1) else None;
    }

    /** The loop of _pruneChain that looks downward for a block to prune from. */
    method FindTip(height: nat) returns (tip: Option<Hash>)
      ensures var at := TipHeight(chain, Model(), height + MAX_REORG_DEPTH, height);
        match tip case None => at.None? case Some(h) => at.Some? && h in AtHeight(chain, Model(), at.value)
      ensures match tip
        case None => EmptyBetween(chain, Model(), height + 1, height + MAX_REORG_DEPTH)
        case Some(h) =>
          && h in stored && h in chain && height + 1 < chain[h].number <= height + MAX_REORG_DEPTH
          && EmptyBetween(chain, Model(), chain[h].number, height + MAX_REORG_DEPTH)
    {
      ghost var top := height + MAX_REORG_DEPTH;
      ghost var at := TipHeight(chain, Model(), top, height);
      TipHeightExact(chain, Model(), top, height, if at.Some? then at.value else 0);
      var indexedBlockHeight := height + MAX_REORG_DEPTH;
      tip := None;
      while tip.None?
        invariant indexedBlockHeight > height
        invariant match tip
          case None => TipHeight(chain, Model(), height + MAX_REORG_DEPTH, height)
              == TipHeight(chain, Model(), indexedBlockHeight, height)
          case Some(h) =>
            && h in AtHeight(chain, Model(), indexedBlockHeight + 1)
            && TipHeight(chain, Model(), height + MAX_REORG_DEPTH, height) == Some(indexedBlockHeight + 1)
        decreases tip.None?, indexedBlockHeight
      {
        var blocks := GetBlocksAtHeight(indexedBlockHeight);
        if blocks != {} {
          var b :| b in blocks;
          tip := Some(b);
        }
        indexedBlockHeight := indexedBlockHeight - 1;
        if !(indexedBlockHeight > height) {
          return None;
        }
      }
    }

    method AncestorOfTip(height: nat) returns (ancestor: Option<Hash>, ghost tip: Hash)
      requires WellFormed(chain) && stored <= chain.Keys
      ensures var at := TipHeight(chain, Model(), height + MAX_REORG_DEPTH, height);
        if at.None? then ancestor.None?
        else
          tip in AtHeight(chain, Model(), at.value) && ancestor == Some(AncestorAtHeight(chain, stored, tip, height))
    {
      tip := "";
      var indexedBlock := FindTip(height);
      if indexedBlock.None? {
        return None, tip;
      }
      tip := indexedBlock.value;
      return Some(AncestorAtHeight(chain, stored, indexedBlock.value, height)), tip;
    }

    /** The part of _pruneChain that prunes at a height above the canonical block. */
    method PruneHeight(height: nat) returns (r: Result<()>, ghost tip: Hash)
      requires WellFormed(chain) && stored <= chain.Keys && PruneRuns(Model(), height)
      modifies this
      ensures Enabled(chain, old(Model()), Step.PruneChain(height, tip))
      ensures Model() == Pruned(chain, old(Model()), height, tip)
      ensures r.Success? ==> latestCanonicalBlockNumber == height
      ensures r.Failure? ==> TipHeight(chain, old(Model()), height + MAX_REORG_DEPTH, height).None?
    {
      tip := "";
      var blocksAtHeight := GetBlocksAtHeight(height);
      var newCanonicalBlockHash := HASH_ZERO;
      if |blocksAtHeight| != 0 {
        if |blocksAtHeight| > 1 {
          var ancestor;
          ancestor, tip := AncestorOfTip(height);
          if ancestor.None? {
            return Failure("No blocks found above pruneBlockHeight"), tip;
          }
          newCanonicalBlockHash := ancestor.value;
          pruned := pruned + (blocksAtHeight - {newCanonicalBlockHash});
        } else {
          newCanonicalBlockHash :| newCanonicalBlockHash in blocksAtHeight;
          OnlyElement(blocksAtHeight, newCanonicalBlockHash);
        }
        settled := settled[height := newCanonicalBlockHash];
      }
      latestCanonicalBlockNumber, latestCanonicalBlockHash := height, newCanonicalBlockHash;
      return Success(()), tip;
    }

    /** _pruneChain. */
    method PruneChain(height: nat) returns (r: Result<()>, ghost tip: Hash)
      requires WellFormed(chain) && stored <= chain.Keys
      modifies this
      ensures Enabled(chain, old(Model()), Step.PruneChain(height, tip))
      ensures Model() == Next(chain, old(Model()), Step.PruneChain(height, tip))
      ensures old(latestIndexedBlockNumber) < height + MAX_REORG_DEPTH ==> r.Failure?
      ensures old(latestIndexedBlockNumber) >= height + MAX_REORG_DEPTH && old(latestCanonicalBlockNumber) >= height
        ==> r.Success?
      ensures Upstream(chain) && Inv(chain, old(Model())) && PruneRuns(old(Model()), height)
        ==> r.Success? && latestCanonicalBlockNumber == height
    {
      if Upstream(chain) && Inv(chain, Model()) && PruneRuns(Model(), height) {
        PruneFinds(chain, Model(), height);
      }
      tip := "";
      if !(latestIndexedBlockNumber >= height + MAX_REORG_DEPTH) {
        return Failure("Pruning is not safe"), tip;
      }
      if latestCanonicalBlockNumber < height {
        r, tip := PruneHeight(height);
        return;
      }
      return Success(()), tip;
    }

    /** resetWatcherToBlock, for the block table and the sync status. */
    method ResetWatcherToBlock(n: nat) returns (r: Result<Hash>)
      requires WellFormed(chain)
      modifies this
      ensures r.Success? == (AtHeight(chain, old(Model()), n) != {}
          && AtHeight(chain, old(Model()), n) <= old(complete))
      ensures r.Success? ==>
                && Enabled(chain, old(Model()), Reset(n, r.value))
                && Model() == Next(chain, old(Model()), Reset(n, r.value))
      ensures r.Failure? ==> Model() == old(Model())
    {
      var blocks := GetBlocksAtHeight(n);
      if blocks == {} {
        return Failure("No blocks at specified block number");
      }
      if !(blocks <= complete) {
        return Failure("Incomplete block at block number");
      }
      var picked :| picked in blocks;
      stored := set h | h in stored && h in chain && chain[h].number <= n;
      complete, pruned := complete * stored, pruned * stored;
      settled, late := map m | m in settled && m <= n :: settled[m], late * stored;
      if latestIndexedBlockNumber > n {
        latestIndexedBlockNumber := n;
      }
      if latestCanonicalBlockNumber > n {
        latestCanonicalBlockNumber, latestCanonicalBlockHash := n, picked;
      }
      return Success(picked);
    }
  }
}
