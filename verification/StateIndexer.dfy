/**
  The objects that hold state diffs and checkpoints and change them in place: the in-memory state of the
  block being processed (packages/util/src/graph/state-utils.ts) and the saved state of one contract with
  its status (packages/util/src/indexer.ts). They are proved against StateCheckpoints.
*/
module StateIndexers {
  import opened Wrappers
  import opened StateMerge
  import opened StateCheckpoints

  /** The event diffs of a block, merged per contract until the block is done. */
  class SubgraphState {
    var stateMap: map<string, Tree>
    /** The diffs given for each contract since the last dump. */
    ghost var given: map<string, seq<Tree>>

    ghost predicate Valid()
      reads this
    {
      stateMap.Keys == given.Keys && forall c | c in given :: stateMap[c] == FoldMerge(EMPTY, given[c])
    }

    constructor ()
      ensures Valid() && stateMap == map[]
    {
      stateMap := map[];
      given := map[];
    }

    ghost function Given(contract: string): seq<Tree>
      reads this
    {
      if contract in given then given[contract] else []
    }

    /** updateSubgraphState: merging into undefined starts from an empty object. */
    method Update(contract: string, data: Tree)
      requires Valid()
      modifies this
      ensures Valid()
      ensures given == old(given)[contract := old(Given(contract)) + [data]]
    {
      ghost var before := Given(contract);
      var oldData := if contract in stateMap then stateMap[contract] else EMPTY;
      stateMap := stateMap[contract := Merge(oldData, data)];
      assert (before + [data])[..|before|] == before;
      given := given[contract := before + [data]];
    }

    /** dumpSubgraphState: one diff for each contract, which is the merge of all diffs given for it; the
        memory is empty afterwards. */
    method Dump() returns (diffs: map<string, Tree>)
      requires Valid()
      modifies this
      ensures Valid() && stateMap == map[]
      ensures diffs.Keys == old(given).Keys
      ensures forall c | c in diffs :: diffs[c] == FoldMerge(EMPTY, old(given)[c])
    {
      diffs := stateMap;
      stateMap := map[];
      given := map[];
    }
  }

  /** The state of one contract. A status is the block number of the last entry of its kind. */
  class StateIndexer {
    const init: Row
    var rows: seq<Row>
    var checkpoints: map<nat, Tree>
    var indexed: int
    var diffStatus: Option<nat>
    var checkpointStatus: Option<nat>
    ghost var log: seq<Row>

    ghost function Model(): State
      reads this
    {
      State(init, log, rows, checkpoints, indexed)
    }

    ghost predicate Valid()
      reads this
    {
      && Ascending(rows)
      && diffStatus == (if rows == [] then None else Some(rows[|rows| - 1].number))
      && (checkpointStatus.Some? ==> checkpointStatus.value in checkpoints)
    }

    constructor (init: Row)
      requires init.number >= 1
      ensures Valid() && Init(Model()) && this.init == init
    {
      this.init := init;
      rows, log, checkpoints, indexed := [], [], map[], 0;
      diffStatus, checkpointStatus := None, None;
    }

    /** createDiff: refused when the last checkpoint is of the same block; a second diff at the block of
        the last diff is merged into it. */
    method CreateDiff(d: Row) returns (r: Result<()>)
      requires Valid() && (rows != [] ==> rows[|rows| - 1].number <= d.number)
      modifies this
      ensures Valid() && r.Success? == (old(checkpointStatus) != Some(d.number))
          && checkpointStatus == old(checkpointStatus)
      ensures Model() == if r.Success? then Next(old(Model()), StateCheckpoints.CreateDiff(d)) else old(Model())
    {
      if checkpointStatus == Some(d.number) {
        return Failure("Checkpoint already created for the block hash");
      }
      DiffAscends(rows, d);
      if diffStatus == Some(d.number) {
        var last := rows[|rows| - 1];
        rows := rows[..|rows| - 1] + [Row(d.number, Merge(last.state, d.state))];
      } else {
        rows := rows + [d];
      }
      diffStatus := Some(d.number);
      log := log + [d];
      return Success(());
    }

    /** getLatestState for checkpoints. */
    method GetLatestState(blockNumber: int) returns (m: Option<nat>)
      ensures m == Latest(checkpoints.Keys, BlockFilter(blockNumber))
    {
      var bound := BlockFilter(blockNumber);
      m := None;
      var todo := checkpoints.Keys;
      while todo != {}
        invariant todo <= checkpoints.Keys && IsLatest(checkpoints.Keys - todo, bound, m)
        decreases |todo|
      {
        var n :| n in todo;
        if !(bound.Some? && n > bound.value) && (m.None? || m.value < n) {
          m := Some(n);
        }
        todo := todo - {n};
      }
      assert checkpoints.Keys - todo == checkpoints.Keys;
      LatestUnique(checkpoints.Keys, bound, m, Latest(checkpoints.Keys, bound));
    }

    /** The part of createCheckpoint that finds the state to start from and merges the diffs after it. */
    method MergeSinceLatest(n: nat) returns (data: Tree)
      requires Valid()
      modifies this`checkpointStatus
      ensures Valid() && data == Merged(Model(), n)
    {
      var m := GetLatestState(n - 1);
      var state, diffStart := init.state, init.number - 1;
      if m.Some? {
        state, diffStart := checkpoints[m.value], m.value as int;
        checkpointStatus := m;
      }
      data := MergeDiffsInRange(rows, state, diffStart, n, DIFF_MERGE_BATCH_SIZE);
    }

    /** createCheckpoint: refused when the state of the block is not indexed. */
    method CreateCheckpoint(n: nat) returns (r: Result<()>)
      requires Valid()
      modifies this
      ensures Valid() && r.Success? == (n <= old(indexed))
          && checkpointStatus == if r.Success? then Some(n) else old(checkpointStatus)
      ensures Model() == if r.Success? then Next(old(Model()), StateCheckpoints.CreateCheckpoint(n)) else old(Model())
    {
      if n > indexed {
        return Failure("State should be indexed for checkpoint at a block");
      }
      var data := MergeSinceLatest(n);
      if n in checkpoints {
        data := Merge(checkpoints[n], data);
      }
      checkpoints := checkpoints[n := data];
      checkpointStatus := Some(n);
      return Success(());
    }
  }
}
