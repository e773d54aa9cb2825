/**
  Diffs and checkpoints of one contract's state (packages/util/src/indexer.ts): a checkpoint is built
  from the previous one, or the initial state, by merging the diffs in between in batches.

  The first part is about values; the class at the end changes its fields in place and is proved
  against it.
*/
module StateCheckpoints {
  import opened Wrappers
  import opened StateMerge

  const DIFF_MERGE_BATCH_SIZE: nat := 10000

  /** A saved state: the block it belongs to and the tree. */
  datatype Row = Row(number: nat, state: Tree)

  /** `log` records every call of createDiff; `rows` are the diffs as saved. */
  datatype State = State(init: Row, log: seq<Row>, rows: seq<Row>, checkpoints: map<nat, Tree>, indexed: int)

  ghost predicate Ascending(rows: seq<Row>) {
    forall i, j | 0 <= i < j < |rows| :: rows[i].number <= rows[j].number
  }

  /** getDiffStatesInRange: the states of the rows with lo < number <= hi, in order. */
  function InRange(rows: seq<Row>, lo: int, hi: int): seq<Tree> {
    if rows == [] then []
    else
      InRange(rows[..|rows| - 1], lo, hi) +
      if lo < rows[|rows| - 1].number <= hi then [rows[|rows| - 1].state] else []
  }

  /** A row is in range exactly if its number is above the lower bound and at most the upper one. */
  lemma RangeOne(row: Row, lo: int, hi: int)
    ensures InRange([row], lo, hi) == if lo < row.number <= hi then [row.state] else []
  {
    assert [row][..0] == [] && InRange([], lo, hi) == [];
  }

  /** The rows of a range come one by one and in order. */
  lemma {:induction false} RangeAppend(a: seq<Row>, b: seq<Row>, lo: int, hi: int)
    ensures InRange(a + b, lo, hi) == InRange(a, lo, hi) + InRange(b, lo, hi)
  {
    if b == [] {
      assert a + b == a;
    } else {
      RangeAppend(a, b[..|b| - 1], lo, hi);
      assert (a + b)[..|a + b| - 1] == a + b[..|b| - 1];
    }
  }

  // ---- Batches ----

  lemma {:induction false} RangeEmpty(rows: seq<Row>, lo: int, hi: int)
    requires forall i | 0 <= i < |rows| :: !(lo < rows[i].number <= hi)
    ensures InRange(rows, lo, hi) == []
  {
    if rows != [] {
      RangeEmpty(rows[..|rows| - 1], lo, hi);
    }
  }

  /** No diff is skipped or taken twice where two ranges meet. */
  lemma {:induction false} RangesMeet(rows: seq<Row>, lo: int, mid: int, hi: int)
    requires Ascending(rows) && lo <= mid <= hi
    ensures InRange(rows, lo, hi) == InRange(rows, lo, mid) + InRange(rows, mid, hi)
  {
    if rows != [] {
      var init, last := rows[..|rows| - 1], rows[|rows| - 1];
      RangesMeet(init, lo, mid, hi);
      if last.number <= mid {
        RangeEmpty(init, mid, hi);
      }
    }
  }

  /** Merges the diffs of one batch, first to last. */
  method MergeBatch(state: Tree, diffBlocks: seq<Tree>) returns (r: Tree)
    ensures r == FoldMerge(state, diffBlocks)
  {
    r := state;
    for j := 0 to |diffBlocks|
      invariant r == FoldMerge(state, diffBlocks[..j])
    {
      assert diffBlocks[..j + 1][..j] == diffBlocks[..j];
      r := Merge(r, diffBlocks[j]);
    }
    assert diffBlocks[..|diffBlocks|] == diffBlocks;
  }

  lemma NextBatch(rows: seq<Row>, state: Tree, lo: int, mid: int, hi: int)
    requires Ascending(rows) && lo <= mid <= hi
    ensures FoldMerge(state, InRange(rows, lo, hi)) == FoldMerge(FoldMerge(state, InRange(rows, lo, mid)),
        InRange(rows, mid, hi))
  {
    RangesMeet(rows, lo, mid, hi);
    FoldAppend(state, InRange(rows, lo, mid), InRange(rows, mid, hi));
  }

  /** Merging in batches of any size is one ordered fold over the diffs of the range. */
  method MergeDiffsInRange(rows: seq<Row>, state: Tree, startBlock: int, endBlock: int, batchSize: nat)
    returns (r: Tree)
    requires Ascending(rows) && batchSize > 0
    ensures r == FoldMerge(state, InRange(rows, startBlock, endBlock))
  {
    r := state;
    var i := startBlock;
    RangeEmpty(rows, startBlock, startBlock);
    while i < endBlock
      invariant startBlock <= i && (i <= endBlock || i == startBlock)
      invariant r == FoldMerge(state, InRange(rows, startBlock, i))
    {
      var endBlockHeight := if i + batchSize < endBlock then i + batchSize else endBlock;
      NextBatch(rows, state, startBlock, i, endBlockHeight);
      r := MergeBatch(r, InRange(rows, i, endBlockHeight));
      i := endBlockHeight;
    }
    if endBlock < startBlock {
      RangeEmpty(rows, startBlock, endBlock);
    }
  }

  // ---- How the state changes ----

  /** createDiff: a diff at the block of the last one is merged into it. */
  function WithDiff(rows: seq<Row>, d: Row): seq<Row> {
    if rows != [] && rows[|rows| - 1].number == d.number
    then rows[..|rows| - 1] + [Row(d.number, Merge(rows[|rows| - 1].state, d.state))]
    else rows + [d]
  }

  /** The highest number up to a bound; without a bound the highest of all. */
  ghost predicate IsLatest(numbers: set<nat>, bound: Option<int>, m: Option<nat>) {
    match m
    case None => forall k | k in numbers :: Beyond(k, bound)
    case Some(n) => n in numbers && !Beyond(n, bound) && forall k | k in numbers && !Beyond(k, bound) :: k <= n
  }

  ghost predicate Beyond(k: nat, bound: Option<int>) {
    bound.Some? && k > bound.value
  }

  /** getLatestState filters by the block number only if that is not zero. */
  function BlockFilter(blockNumber: int): Option<int> {
    if blockNumber == 0 then None else Some(blockNumber)
  }

  ghost function Latest(numbers: set<nat>, bound: Option<int>): (m: Option<nat>)
    ensures IsLatest(numbers, bound, m)
  {
    LatestExists(numbers, bound);
    var m :| IsLatest(numbers, bound, m);
    m
  }

  lemma {:induction false} LatestExists(numbers: set<nat>, bound: Option<int>)
    ensures exists m :: IsLatest(numbers, bound, m)
    decreases |numbers|
  {
    if x :| x in numbers {
      LatestExists(numbers - {x}, bound);
      var m :| IsLatest(numbers - {x}, bound, m);
      assert IsLatest(numbers, bound, if Beyond(x, bound) || (m.Some? && x <= m.value) then m else Some(x));
    } else {
      assert IsLatest(numbers, bound, None);
    }
  }

  lemma LatestUnique(numbers: set<nat>, bound: Option<int>, m: Option<nat>, n: Option<nat>)
    requires IsLatest(numbers, bound, m) && IsLatest(numbers, bound, n)
    ensures m == n
  {}

  /** The merged state for a checkpoint: from the latest checkpoint before the block, or else from the
      initial state including the diffs of its own block. */
  ghost function Merged(s: State, n: nat): Tree {
    MergedFrom(s, n, Latest(s.checkpoints.Keys, BlockFilter(n - 1)))
  }

  ghost function MergedFrom(s: State, n: nat, latest: Option<nat>): Tree
    requires latest.Some? ==> latest.value in s.checkpoints
  {
    match latest
    case Some(m) => FoldMerge(s.checkpoints[m], InRange(s.rows, m, n))
    case None => FoldMerge(s.init.state, InRange(s.rows, s.init.number - 1, n))
  }

  /** createCheckpoint: an existing checkpoint of the block is merged with the new state. */
  ghost function WithCheckpoint(s: State, n: nat): State {
    s.(checkpoints := s.checkpoints[n := if n in s.checkpoints then Merge(s.checkpoints[n], Merged(s, n))
        else Merged(s, n)])
  }

  // ---- Runs ----

  datatype Step = CreateDiff(d: Row) | Indexed(n: nat) | CreateCheckpoint(n: nat)

  /** The diffs of the same block agree with `d` on which keys are leaves. Diffs of other blocks need not. */
  ghost predicate AgreesWith(log: seq<Row>, d: Row) {
    forall i | 0 <= i < |log| && log[i].number == d.number :: Agree(log[i].state, d.state)
  }

  /** Diffs come in ascending block order, for blocks whose state is not indexed yet; checkpoints, in any
      order and repeated at will, for blocks whose state is. At block 1 no later checkpoint may exist. */
  ghost predicate Enabled(s: State, step: Step) {
    match step
    case CreateDiff(d) =>
      && s.init.number <= d.number && s.indexed < d.number
      && (s.log != [] ==> s.log[|s.log| - 1].number <= d.number)
      && AgreesWith(s.log, d)
    case Indexed(n) => s.indexed <= n
    case CreateCheckpoint(n) => s.init.number <= n <= s.indexed && (n == 1 ==> NoneAfter(s.checkpoints, 1))
  }

  ghost predicate NoneAfter(cps: map<nat, Tree>, n: nat) {
    forall k | k in cps :: k <= n
  }

  ghost function Next(s: State, step: Step): State {
    match step
    case CreateDiff(d) => s.(log := s.log + [d], rows := WithDiff(s.rows, d))
    case Indexed(n) => s.(indexed := n)
    case CreateCheckpoint(n) => WithCheckpoint(s, n)
  }

  ghost predicate Run(s: State, steps: seq<Step>, t: State)
    decreases |steps|
  {
    if steps == [] then t == s else Enabled(s, steps[0]) && Run(Next(s, steps[0]), steps[1..], t)
  }

  ghost predicate Init(s: State) {
    s.log == [] && s.rows == [] && s.checkpoints == map[] && s.init.number >= 1
  }

  /** What a checkpoint at block n has to be: the initial state with every diff up to n merged in turn. */
  ghost function Expected(init: Row, log: seq<Row>, n: nat): Tree {
    FoldMerge(init.state, InRange(log, init.number - 1, n))
  }

  // ---- Saved diffs stand for the diffs created ----

  ghost function Rows(log: seq<Row>): seq<Row> {
    if log == [] then [] else WithDiff(Rows(log[..|log| - 1]), log[|log| - 1])
  }

  ghost predicate EarlierAgree(log: seq<Row>) {
    forall i, j | 0 <= i < j < |log| && log[i].number == log[j].number :: Agree(log[i].state, log[j].state)
  }

  lemma DiffAscends(rows: seq<Row>, d: Row)
    requires Ascending(rows) && (rows != [] ==> rows[|rows| - 1].number <= d.number)
    ensures var after := WithDiff(rows, d); Ascending(after) && after[|after| - 1].number == d.number
  {}

  lemma {:induction false} RowsAgree(log: seq<Row>, d: Row)
    requires AgreesWith(log, d)
    ensures AgreesWith(Rows(log), d)
  {
    if log != [] {
      RowsAgree(log[..|log| - 1], d);
      WithDiffAgrees(Rows(log[..|log| - 1]), log[|log| - 1], d);
    }
  }

  lemma WithDiffAgrees(rows: seq<Row>, last: Row, d: Row)
    requires AgreesWith(rows, d) && (last.number == d.number ==> Agree(last.state, d.state))
    ensures AgreesWith(WithDiff(rows, last), d)
  {
    if rows != [] && rows[|rows| - 1].number == last.number == d.number {
      AgreeMerge(rows[|rows| - 1].state, last.state, d.state);
    }
  }

  lemma EarlierAgrees(log: seq<Row>)
    requires log != [] && EarlierAgree(log)
    ensures AgreesWith(log[..|log| - 1], log[|log| - 1]) && EarlierAgree(log[..|log| - 1])
  {}

  /** Merging the saved rows of a range gives what merging the created diffs of the range gives. */
  lemma {:induction false} RowsFold(log: seq<Row>, x: Tree, lo: int, hi: int)
    requires Ascending(log) && EarlierAgree(log)
    ensures FoldMerge(x, InRange(Rows(log), lo, hi)) == FoldMerge(x, InRange(log, lo, hi))
  {
    if log != [] {
      var init, d := log[..|log| - 1], log[|log| - 1];
      RowsFold(init, x, lo, hi);
      WithDiffFold(Rows(init), d, x, lo, hi) by {
        EarlierAgrees(log);
        RowsAgree(init, d);
      }
      LastInRange(log, x, lo, hi);
    }
  }

  lemma LastInRange(rows: seq<Row>, x: Tree, lo: int, hi: int)
    requires rows != []
    ensures var last, before := rows[|rows| - 1], FoldMerge(x, InRange(rows[..|rows| - 1], lo, hi));
      FoldMerge(x, InRange(rows, lo, hi)) == if lo < last.number <= hi then Merge(before, last.state) else before
  {
    var last, before := rows[|rows| - 1], InRange(rows[..|rows| - 1], lo, hi);
    if lo < last.number <= hi {
      assert (before + [last.state])[..|before|] == before;
    } else {
      assert InRange(rows, lo, hi) == before;
    }
  }

  lemma WithDiffFold(rows: seq<Row>, d: Row, x: Tree, lo: int, hi: int)
    requires AgreesWith(rows, d)
    ensures var before := FoldMerge(x, InRange(rows, lo, hi));
      FoldMerge(x, InRange(WithDiff(rows, d), lo, hi)) == if lo < d.number <= hi then Merge(before, d.state) else before
  {
    var after := WithDiff(rows, d);
    LastInRange(after, x, lo, hi);
    if rows != [] && rows[|rows| - 1].number == d.number {
      LastInRange(rows, x, lo, hi);
      assert after[..|after| - 1] == rows[..|rows| - 1];
      var r, y := rows[|rows| - 1].state, FoldMerge(x, InRange(rows[..|rows| - 1], lo, hi));
      AgreeNoClash(y, r, d.state);
      MergeAssocExact(y, r, d.state);
    } else {
      assert after[..|after| - 1] == rows;
    }
  }

  // ---- The invariant ----

  ghost predicate LogInv(first: int, log: seq<Row>) {
    Ascending(log) && EarlierAgree(log) && forall i | 0 <= i < |log| :: first <= log[i].number
  }

  ghost predicate Inv(s: State) {
    s.init.number >= 1 && LogInv(s.init.number, s.log) && s.rows == Rows(s.log) && CheckpointsInv(s)
  }

  ghost predicate CheckpointsInv(s: State) {
    forall m | m in s.checkpoints :: s.init.number <= m <= s.indexed && s.checkpoints[m] == Expected(s.init, s.log, m)
  }

  lemma AgreeKeeps(log: seq<Row>, d: Row)
    requires EarlierAgree(log) && AgreesWith(log, d)
    ensures EarlierAgree(log + [d])
  {
    var after := log + [d];
    forall i, j | 0 <= i < j < |after| && after[i].number == after[j].number
      ensures Agree(after[i].state, after[j].state)
    {
      assert after[i] == log[i];
    }
  }

  lemma LogKeeps(first: int, log: seq<Row>, d: Row)
    requires LogInv(first, log) && first <= d.number && (log != [] ==> log[|log| - 1].number <= d.number)
    requires EarlierAgree(log + [d])
    ensures LogInv(first, log + [d])
  {}

  lemma RowsKeep(log: seq<Row>, d: Row)
    ensures Rows(log + [d]) == WithDiff(Rows(log), d)
  {
    assert (log + [d])[..|log|] == log;
  }

  lemma LaterDiff(log: seq<Row>, d: Row, lo: int, hi: int)
    requires hi < d.number
    ensures InRange(log + [d], lo, hi) == InRange(log, lo, hi)
  {
    assert (log + [d])[..|log|] == log;
  }

  lemma LaterDiffExpected(init: Row, log: seq<Row>, d: Row, m: nat)
    requires m < d.number
    ensures Expected(init, log + [d], m) == Expected(init, log, m)
  {
    LaterDiff(log, d, init.number - 1, m);
  }

  lemma DiffLog(s: State, d: Row)
    requires Inv(s) && Enabled(s, CreateDiff(d))
    ensures LogInv(s.init.number, s.log + [d]) && WithDiff(s.rows, d) == Rows(s.log + [d])
  {
    AgreeKeeps(s.log, d);
    LogKeeps(s.init.number, s.log, d);
    RowsKeep(s.log, d);
  }

  lemma DiffKeeps(s: State, d: Row)
    requires Inv(s) && Enabled(s, CreateDiff(d))
    ensures Inv(Next(s, CreateDiff(d)))
  {
    DiffLog(s, d);
    forall m | m in s.checkpoints
      ensures Expected(s.init, s.log + [d], m) == Expected(s.init, s.log, m)
    {
      LaterDiffExpected(s.init, s.log, d, m);
    }
  }

  /** A fold that goes on from a checkpoint: the saved rows after it add what the diffs after it add. */
  lemma FoldOn(log: seq<Row>, x: Tree, lo: int, m: int, n: int)
    requires Ascending(log) && EarlierAgree(log) && lo <= m <= n
    ensures FoldMerge(FoldMerge(x, InRange(log, lo, m)), InRange(Rows(log), m, n)) == FoldMerge(x, InRange(log, lo, n))
  {
    RowsFold(log, FoldMerge(x, InRange(log, lo, m)), m, n);
    NextBatch(log, x, lo, m, n);
  }

  lemma MergedFromIsExpected(s: State, n: nat, latest: Option<nat>)
    requires Ascending(s.log) && EarlierAgree(s.log) && s.rows == Rows(s.log)
    requires latest.Some? ==>
      var m := latest.value;
      m in s.checkpoints && s.init.number <= m <= n && s.checkpoints[m] == Expected(s.init, s.log, m)
    ensures MergedFrom(s, n, latest) == Expected(s.init, s.log, n)
  {
    match latest
    case Some(m) => FoldOn(s.log, s.init.state, s.init.number - 1, m, n);
    case None => RowsFold(s.log, s.init.state, s.init.number - 1, n);
  }

  /** What createCheckpoint merges is what the checkpoint has to be. */
  lemma MergedIsExpected(s: State, n: nat)
    requires Inv(s) && Enabled(s, CreateCheckpoint(n))
    ensures Merged(s, n) == Expected(s.init, s.log, n)
  {
    var latest := Latest(s.checkpoints.Keys, BlockFilter(n - 1));
    assert latest.Some? ==> latest.value <= n;
    MergedFromIsExpected(s, n, latest);
  }

  lemma CheckpointSaved(s: State, n: nat, tree: Tree)
    requires CheckpointsInv(s) && s.init.number <= n <= s.indexed && tree == Expected(s.init, s.log, n)
    ensures CheckpointsInv(s.(checkpoints := s.checkpoints[n := tree]))
  {}

  lemma CheckpointKeeps(s: State, n: nat)
    requires Inv(s) && Enabled(s, CreateCheckpoint(n))
    ensures Inv(Next(s, CreateCheckpoint(n)))
  {
    MergedIsExpected(s, n);
    MergeIdempotent(Merged(s, n));
    CheckpointSaved(s, n, Merged(s, n));
  }

  lemma IndexedKeeps(s: State, n: nat)
    requires Inv(s) && s.indexed <= n
    ensures Inv(s.(indexed := n))
  {}

  lemma StepKeeps(s: State, step: Step)
    requires Inv(s) && Enabled(s, step)
    ensures Inv(Next(s, step))
  {
    match step
    case CreateDiff(d) => DiffKeeps(s, d);
    case Indexed(n) => IndexedKeeps(s, n);
    case CreateCheckpoint(n) => CheckpointKeeps(s, n);
  }

  lemma {:induction false} RunKeeps(s: State, steps: seq<Step>, t: State)
    requires Inv(s) && Run(s, steps, t)
    ensures Inv(t)
    decreases |steps|
  {
    if steps != [] {
      StepKeeps(s, steps[0]);
      RunKeeps(Next(s, steps[0]), steps[1..], t);
    }
  }

  lemma RunCheckpoints(s: State, steps: seq<Step>, t: State)
    requires Init(s) && Run(s, steps, t)
    ensures CheckpointsInv(t)
  {
    RunKeeps(s, steps, t);
  }

  /** For every schedule, every checkpoint is the initial state with all diffs up to its block merged in
      turn. */
  lemma EveryCheckpointIsFold(s: State, steps: seq<Step>, t: State, n: nat)
    requires Init(s) && Run(s, steps, t) && n in t.checkpoints
    ensures t.checkpoints[n] == Expected(t.init, t.log, n)
  {
    RunCheckpoints(s, steps, t);
  }

  /** So a checkpoint has at every path what the newest diff up to its block says there, or else the initial
      state, if these agree on which keys are leaves. */
  lemma CheckpointHasNewest(s: State, steps: seq<Step>, t: State, n: nat, path: seq<string>)
    requires Init(s) && Run(s, steps, t) && n in t.checkpoints
    requires AllAgree([t.init.state] + InRange(t.log, t.init.number - 1, n))
    ensures LeafAt(t.checkpoints[n], path)
         == NewestLeaf(t.init.state, InRange(t.log, t.init.number - 1, n), path)
  {
    EveryCheckpointIsFold(s, steps, t, n);
    FoldHasNewest(t.init.state, InRange(t.log, t.init.number - 1, n), path);
  }

  lemma CheckpointAgain(s: State, n: nat)
    requires Inv(s) && n in s.checkpoints && Enabled(s, CreateCheckpoint(n))
    ensures WithCheckpoint(s, n) == s
  {
    MergedIsExpected(s, n);
    MergeIdempotent(s.checkpoints[n]);
    assert s.checkpoints[n := s.checkpoints[n]] == s.checkpoints;
  }

  /** Creating a checkpoint again leaves it, and every other one, unchanged. */
  lemma RecreateChangesNothing(s: State, steps: seq<Step>, t: State, n: nat)
    requires Init(s) && Run(s, steps, t) && n in t.checkpoints && Enabled(t, CreateCheckpoint(n))
    ensures Next(t, CreateCheckpoint(n)) == t
  {
    RunKeeps(s, steps, t);
    CheckpointAgain(t, n);
  }

  // ---- A checkpoint at block 1 ----

  /** At block 1 the search for an earlier checkpoint has no upper bound: the checkpoint takes over the
      latest one of all. */
  lemma BlockOneTakesLatest(s: State, m: nat)
    requires m in s.checkpoints && m > 1 && NoneAfter(s.checkpoints, m)
    ensures Merged(s, 1) == s.checkpoints[m]
  {
    LatestUnique(s.checkpoints.Keys, None, Some(m), Latest(s.checkpoints.Keys, None));
    RangeEmpty(s.rows, m, 1);
  }

  /** What the diffs after block 1 make of the state at block 1. */
  ghost function LaterState(s: State, m: nat): Tree {
    FoldMerge(Expected(s.init, s.log, 1), InRange(s.log, 1, m))
  }

  /** A checkpoint at block 1, created while there is a later one, is right exactly if the diffs in between
      add nothing to it: for a checkpoint that is there already, if all they leave is in it; for a new one,
      if they leave the state as it was. */
  lemma BlockOneExact(s: State, m: nat)
    requires Inv(s) && s.init.number == 1 <= s.indexed && m in s.checkpoints && m > 1 && NoneAfter(s.checkpoints, m)
    ensures WithCheckpoint(s, 1).checkpoints[1] == Expected(s.init, s.log, 1) <==>
      if 1 in s.checkpoints then Absorbed(LaterState(s, m), Expected(s.init, s.log, 1))
      else LaterState(s, m) == Expected(s.init, s.log, 1)
  {
    BlockOneTakesLatest(s, m);
    LaterIsExpected(s.init, s.log, m);
    AbsorbedExact(Expected(s.init, s.log, 1), LaterState(s, m));
  }

  /** Where the later diffs agree on which keys are leaves, a new checkpoint at block 1 is right exactly if the
      state at block 1 has all that they say, merged into each other, already. */
  lemma NewBlockOneExact(s: State, m: nat)
    requires Inv(s) && s.init.number == 1 <= s.indexed && m in s.checkpoints && m > 1 && NoneAfter(s.checkpoints, m)
    requires 1 !in s.checkpoints && AllAgree(InRange(s.log, 1, m))
    ensures var later := InRange(s.log, 1, m);
      WithCheckpoint(s, 1).checkpoints[1] == Expected(s.init, s.log, 1)
      <==> (later != [] ==> Absorbed(FoldMerge(later[0], later[1..]), Expected(s.init, s.log, 1)))
  {
    var later := InRange(s.log, 1, m);
    BlockOneExact(s, m);
    if later != [] {
      FoldFirst(Expected(s.init, s.log, 1), later);
      AbsorbedExact(Expected(s.init, s.log, 1), FoldMerge(later[0], later[1..]));
    }
  }

  lemma LaterIsExpected(init: Row, log: seq<Row>, m: nat)
    requires Ascending(log) && init.number == 1 <= m
    ensures Expected(init, log, m) == FoldMerge(Expected(init, log, 1), InRange(log, 1, m))
  {
    NextBatch(log, init.state, 0, 1, m);
  }

  // ---- A run that ends with a wrong checkpoint ----

  ghost predicate Reached(s: State, t: State) {
    exists steps :: Run(s, steps, t)
  }

  lemma ThenReached(s: State, step: Step, t: State)
    requires Enabled(s, step) && Reached(Next(s, step), t)
    ensures Reached(s, t)
  {
    var rest :| Run(Next(s, step), rest, t);
    assert ([step] + rest)[1..] == rest;
    assert Run(s, [step] + rest, t);
  }

  ghost function Before(d: Tree): State {
    State(Row(1, EMPTY), [], [], map[], 1)
  }

  /** One diff, at block 2. */
  ghost function Diffed(d: Tree, checkpoints: map<nat, Tree>): State {
    State(Row(1, EMPTY), [Row(2, d)], [Row(2, d)], checkpoints, 2)
  }

  lemma OneDiffRanges(d: Tree)
    ensures var rows := [Row(2, d)]; InRange(rows, 0, 1) == [] && InRange(rows, 0, 2) == [d] && Rows(rows) == rows
  {
    var rows := [Row(2, d)];
    assert rows[..0] == [];
    RangeEmpty(rows, 0, 1);
    assert InRange(rows, 0, 2) == InRange(rows[..0], 0, 2) + [d] == [d];
  }

  lemma OneDiffFolds(d: Tree)
    requires d.Node? && d.kind == Object
    ensures FoldMerge(EMPTY, [d]) == d && FoldMerge(EMPTY, []) == EMPTY
  {
    assert Merge(EMPTY, d).fields == d.fields;
    assert FoldMerge(EMPTY, [d]) == Merge(FoldMerge(EMPTY, [d][..0]), d);
  }

  lemma OneDiffExpected(d: Tree)
    requires d.Node? && d.kind == Object
    ensures Expected(Row(1, EMPTY), [Row(2, d)], 1) == EMPTY && Expected(Row(1, EMPTY), [Row(2, d)], 2) == d
  {
    OneDiffRanges(d);
    OneDiffFolds(d);
  }

  lemma DiffedInv(d: Tree)
    requires d.Node? && d.kind == Object
    ensures Inv(Diffed(d, map[])) && Inv(Diffed(d, map[1 := EMPTY])) && Inv(Diffed(d, map[1 := EMPTY, 2 := d]))
  {
    OneDiffRanges(d);
    OneDiffExpected(d);
  }

  lemma DiffedSteps(d: Tree)
    requires d.Node? && d.kind == Object
    ensures var s, t, u := Diffed(d, map[]), Diffed(d, map[1 := EMPTY]), Diffed(d, map[1 := EMPTY, 2 := d]);
      && Enabled(s, CreateCheckpoint(1)) && Next(s, CreateCheckpoint(1)) == t
      && Enabled(t, CreateCheckpoint(2)) && Next(t, CreateCheckpoint(2)) == u
  {
    DiffedInv(d);
    OneDiffExpected(d);
    MergedIsExpected(Diffed(d, map[]), 1);
    MergedIsExpected(Diffed(d, map[1 := EMPTY]), 2);
  }

  lemma FirstSteps(d: Tree, t: State)
    requires Reached(Diffed(d, map[]), t)
    ensures Reached(Before(d), t)
  {
    var s := Before(d);
    var diffed := Next(s, CreateDiff(Row(2, d)));
    assert diffed.(indexed := 2) == Diffed(d, map[]);
    ThenReached(diffed, Indexed(2), t);
    ThenReached(s, CreateDiff(Row(2, d)), t);
  }

  lemma DiffedReached(d: Tree)
    requires d.Node? && d.kind == Object
    ensures Reached(Before(d), Diffed(d, map[1 := EMPTY, 2 := d]))
  {
    var u := Diffed(d, map[1 := EMPTY, 2 := d]);
    DiffedSteps(d);
    assert Run(u, [], u);
    ThenReached(Diffed(d, map[1 := EMPTY]), CreateCheckpoint(2), u);
    ThenReached(Diffed(d, map[]), CreateCheckpoint(1), u);
    FirstSteps(d, u);
  }

  /** A diff at block 2, checkpoints at 1 and 2, and then the one at 1 again: it takes in the diff of
      block 2. */
  lemma BlockOneFails(d: Tree)
    requires d.Node? && d.kind == Object && d.fields != map[]
    ensures var t := Diffed(d, map[1 := EMPTY, 2 := d]);
      && Init(Before(d)) && Reached(Before(d), t) && Inv(t)
      && WithCheckpoint(t, 1).checkpoints[1] != Expected(t.init, t.log, 1)
  {
    DiffedReached(d);
    DiffedInv(d);
    OneDiffExpected(d);
    var t := Diffed(d, map[1 := EMPTY, 2 := d]);
    BlockOneExact(t, 2);
    LaterIsExpected(t.init, t.log, 2);
    var k :| k in d.fields;
  }

  // ---- From events to checkpoints ----

  ghost function Concat(blocks: seq<seq<Tree>>): seq<Tree> {
    if blocks == [] then [] else Concat(blocks[..|blocks| - 1]) + blocks[|blocks| - 1]
  }

  ghost predicate ObjectsAgree(ds: seq<Tree>) {
    AllAgree(ds) && forall i | 0 <= i < |ds| :: ds[i].Node? && ds[i].kind == Object
  }

  /** When the diffs of a block are the event diffs merged in memory, the fold over the block diffs is
      the fold over all event diffs. */
  lemma {:induction false} EventsThroughBlocks(x: Tree, blocks: seq<seq<Tree>>)
    requires x.Node? && forall i | 0 <= i < |blocks| :: ObjectsAgree(blocks[i])
    ensures FoldMerge(x, seq(|blocks|, i requires 0 <= i < |blocks| => FoldMerge(EMPTY, blocks[i])))
        == FoldMerge(x, Concat(blocks))
    ensures FoldMerge(x, Concat(blocks)).Node?
  {
    if blocks != [] {
      var init, last := blocks[..|blocks| - 1], blocks[|blocks| - 1];
      EventsThroughBlocks(x, init);
      var diffs := seq(|blocks|, i requires 0 <= i < |blocks| => FoldMerge(EMPTY, blocks[i]));
      assert diffs[..|diffs| - 1] == seq(|init|, i requires 0 <= i < |init| => FoldMerge(EMPTY, init[i]));
      InMemoryMerge(FoldMerge(x, Concat(init)), last);
      FoldAppend(x, Concat(init), last);
      FoldOfObjects(FoldMerge(x, Concat(init)), last);
    }
  }

  lemma {:induction false} FoldOfObjects(x: Tree, ds: seq<Tree>)
    requires x.Node? && forall i | 0 <= i < |ds| :: ds[i].Node?
    ensures FoldMerge(x, ds).Node?
  {
    if ds != [] {
      FoldOfObjects(x, ds[..|ds| - 1]);
    }
  }
}
