/**
  Hooks and checkpoint jobs (packages/util/src/job-runner.ts, packages/util/src/database.ts). Queued jobs
  may be taken in any order and any number of times; no reset happens in between.
*/
module HookJobs {
  import opened BlockTree
  import opened Wrappers

  /** The StateSyncStatus row; -1 is no checkpoint yet. */
  datatype Status = Status(latestIndexed: nat, latestCheckpoint: int)

  /** `hooksRun` and `checkpointsRun` list the blocks for which the work was done, in order. */
  datatype State = State(
    status: Option<Status>, hooksJobs: set<Hash>, checkpointJobs: set<Hash>,
    hooksRun: seq<Hash>, checkpointsRun: seq<Hash>)

  /** The canonical blocks: one per height, with every parent (Realtime.SettledChain). */
  ghost predicate Branch(c: Chain, branch: set<Hash>) {
    && branch <= c.Keys && GapFree(c)
    && (forall a, b | a in branch && b in branch :: c[a].number == c[b].number ==> a == b)
    && (forall h | h in branch && c[h].number > 0 :: c[h].parent in branch)
  }

  datatype Step = AddHooksJob(h: Hash) | TakeHooksJob(h: Hash) | TakeCheckpointJob(h: Hash)

  predicate Enabled(s: State, branch: set<Hash>, step: Step) {
    match step
    case AddHooksJob(h) => h in branch
    case TakeHooksJob(h) => h in s.hooksJobs
    case TakeCheckpointJob(h) => h in s.checkpointJobs
  }

  /** updateStateSyncStatusIndexedBlock. */
  function IndexedUpTo(status: Option<Status>, n: nat): Status {
    match status
    case None => Status(n, -1)
    case Some(st) => if n > st.latestIndexed then st.(latestIndexed := n) else st
  }

  /** processHooks. */
  function Hooks(c: Chain, s: State, h: Hash): State
    requires h in c
  {
    var n := c[h].number;
    if s.status.Some? && s.status.value.latestIndexed < n - 1 then s.(hooksJobs := s.hooksJobs + {c[h].parent})
    else if s.status.Some? && s.status.value.latestIndexed > n - 1 then s
    else
      s.(hooksRun := s.hooksRun + [h], status := Some(IndexedUpTo(s.status, n)), checkpointJobs := s.checkpointJobs
          + {h})
  }

  /** processCheckpoint; the canonical block one below is the parent. */
  function Checkpoint(c: Chain, s: State, h: Hash): State
    requires h in c
  {
    var n := c[h].number;
    match s.status
    case None => s
    case Some(st) =>
      if st.latestCheckpoint >= 0 && st.latestCheckpoint < n - 1 then
          s.(checkpointJobs := s.checkpointJobs + {c[h].parent})
      else if st.latestCheckpoint >= 0 && st.latestCheckpoint > n - 1 then s
      else
        s.(checkpointsRun := s.checkpointsRun + [h],
           status := Some(if n > st.latestCheckpoint then st.(latestCheckpoint := n) else st))
  }

  ghost function Next(c: Chain, branch: set<Hash>, s: State, step: Step): State
    requires Enabled(s, branch, step) && branch <= c.Keys && s.hooksJobs <= branch && s.checkpointJobs <= branch
  {
    match step
    case AddHooksJob(h) => s.(hooksJobs := s.hooksJobs + {h})
    case TakeHooksJob(h) => Hooks(c, s, h)
    case TakeCheckpointJob(h) => Checkpoint(c, s, h)
  }

  ghost predicate Run(c: Chain, branch: set<Hash>, s: State, steps: seq<Step>, t: State)
    requires branch <= c.Keys
    decreases |steps|
  {
    if steps == [] then t == s
    else
      && Enabled(s, branch, steps[0]) && s.hooksJobs <= branch && s.checkpointJobs <= branch
      && Run(c, branch, Next(c, branch, s, steps[0]), steps[1..], t)
  }

  ghost predicate Init(s: State) {
    s == State(None, {}, {}, [], [])
  }

  // ---- The invariant ----

  /** Blocks of the branch with consecutive numbers. */
  ghost predicate Consecutive(c: Chain, branch: set<Hash>, run: seq<Hash>)
    requires branch <= c.Keys
  {
    forall i | 0 <= i < |run| :: run[i] in branch && run[0] in branch && c[run[i]].number == c[run[0]].number + i
  }

  /** The number of the first block of a run. */
  ghost function First(c: Chain, run: seq<Hash>): nat {
    if run != [] && run[0] in c then c[run[0]].number else 0
  }

  ghost predicate Pointers(c: Chain, s: State) {
    match s.status
    case None => s.hooksRun == [] && s.checkpointsRun == [] && s.checkpointJobs == {}
    case Some(st) =>
      && s.hooksRun != [] && st.latestIndexed == First(c, s.hooksRun) + |s.hooksRun| - 1
      && st.latestCheckpoint <= st.latestIndexed
      && (if s.checkpointsRun == []
          then st.latestCheckpoint == -1
          else
            && First(c, s.hooksRun) <= First(c, s.checkpointsRun)
            && st.latestCheckpoint == First(c, s.checkpointsRun) + |s.checkpointsRun| - 1)
      && forall h | h in s.checkpointJobs :: h in c && First(c, s.hooksRun) <= c[h].number <= st.latestIndexed
  }

  ghost predicate Inv(c: Chain, branch: set<Hash>, s: State)
    requires branch <= c.Keys
  {
    && s.hooksJobs <= branch && s.checkpointJobs <= branch
    && Consecutive(c, branch, s.hooksRun) && Consecutive(c, branch, s.checkpointsRun) && Pointers(c, s)
  }

  lemma Extend(c: Chain, branch: set<Hash>, run: seq<Hash>, h: Hash)
    requires branch <= c.Keys && Consecutive(c, branch, run) && h in branch
    requires run != [] ==> c[h].number == First(c, run) + |run|
    ensures Consecutive(c, branch, run + [h]) && First(c, run + [h])
        == (if run == [] then c[h].number else First(c, run))
  {}

  lemma HooksKeeps(c: Chain, branch: set<Hash>, s: State, h: Hash)
    requires Branch(c, branch) && Inv(c, branch, s) && h in s.hooksJobs
    ensures Inv(c, branch, Hooks(c, s, h))
  {
    assert OneBelow(c, h);
    if s.status.None? || s.status.value.latestIndexed == c[h].number - 1 {
      Extend(c, branch, s.hooksRun, h);
    }
  }

  lemma CheckpointKeeps(c: Chain, branch: set<Hash>, s: State, h: Hash)
    requires Branch(c, branch) && Inv(c, branch, s) && h in s.checkpointJobs
    ensures Inv(c, branch, Checkpoint(c, s, h))
  {
    assert OneBelow(c, h);
    if s.status.value.latestCheckpoint == -1 || s.status.value.latestCheckpoint == c[h].number - 1 {
      Extend(c, branch, s.checkpointsRun, h);
    }
  }

  lemma {:induction false} RunKeeps(c: Chain, branch: set<Hash>, s: State, steps: seq<Step>, t: State)
    requires Branch(c, branch) && Inv(c, branch, s) && Run(c, branch, s, steps, t)
    ensures Inv(c, branch, t)
    decreases |steps|
  {
    if steps != [] {
      match steps[0] {
        case AddHooksJob(_) =>
        case TakeHooksJob(h) => HooksKeeps(c, branch, s, h);
        case TakeCheckpointJob(h) => CheckpointKeeps(c, branch, s, h);
      }
      RunKeeps(c, branch, Next(c, branch, s, steps[0]), steps[1..], t);
    }
  }

  // ---- What holds in every run ----

  lemma SameBlock(c: Chain, branch: set<Hash>, a: Hash, b: Hash)
    requires Branch(c, branch) && a in branch && b in branch && c[a].number == c[b].number
    ensures a == b
  {}

  /** Hooks run for one block after the other, each the parent of the next. */
  lemma HooksInOrder(c: Chain, branch: set<Hash>, s: State, steps: seq<Step>, t: State, i: nat)
    requires Branch(c, branch) && Init(s) && Run(c, branch, s, steps, t) && i + 1 < |t.hooksRun|
    ensures t.hooksRun[i + 1] in c && c[t.hooksRun[i + 1]].parent == t.hooksRun[i]
  {
    RunKeeps(c, branch, s, steps, t);
    var h := t.hooksRun[i + 1];
    assert OneBelow(c, h);
    SameBlock(c, branch, c[h].parent, t.hooksRun[i]);
  }

  /** No block's hooks run twice. */
  lemma HooksOnce(c: Chain, branch: set<Hash>, s: State, steps: seq<Step>, t: State, i: nat, j: nat)
    requires Branch(c, branch) && Init(s) && Run(c, branch, s, steps, t) && i < j < |t.hooksRun|
    ensures t.hooksRun[i] != t.hooksRun[j]
  {
    RunKeeps(c, branch, s, steps, t);
  }

  /** The checkpoints done are a stretch of the hooks done, from their first block on, and the checkpoint
      pointer stays behind. */
  lemma CheckpointsFollow(c: Chain, branch: set<Hash>, s: State, steps: seq<Step>, t: State) returns (from: nat)
    requires Branch(c, branch) && Init(s) && Run(c, branch, s, steps, t)
    ensures from + |t.checkpointsRun| <= |t.hooksRun| && t.checkpointsRun == t.hooksRun[from..from + |t.checkpointsRun|]
    ensures t.status.Some? ==> t.status.value.latestCheckpoint <= t.status.value.latestIndexed
  {
    RunKeeps(c, branch, s, steps, t);
    from := 0;
    if t.checkpointsRun != [] {
      from := First(c, t.checkpointsRun) - First(c, t.hooksRun);
      forall k | 0 <= k < |t.checkpointsRun|
        ensures t.checkpointsRun[k] == t.hooksRun[from + k]
      {
        SameBlock(c, branch, t.checkpointsRun[k], t.hooksRun[from + k]);
      }
    }
  }

  lemma {:induction false} JobsLeft(c: Chain, branch: set<Hash>, s: State, steps: seq<Step>, t: State, h: Hash)
    requires branch <= c.Keys && Run(c, branch, s, steps, t)
    requires h in s.hooksRun ==> h in s.checkpointJobs
    ensures h in t.hooksRun ==> h in t.checkpointJobs
    decreases |steps|
  {
    if steps != [] {
      JobsLeft(c, branch, Next(c, branch, s, steps[0]), steps[1..], t, h);
    }
  }

  /** Hooks that run leave a checkpoint job for their block. */
  lemma HooksLeaveCheckpoint(c: Chain, branch: set<Hash>, s: State, steps: seq<Step>, t: State, h: Hash)
    requires branch <= c.Keys && Init(s) && Run(c, branch, s, steps, t) && h in t.hooksRun
    ensures h in t.checkpointJobs
  {
    JobsLeft(c, branch, s, steps, t, h);
  }

  // ---- Progress ----

  lemma {:induction false} RunAppend(c: Chain, branch: set<Hash>, s: State, a: seq<Step>, m: State, b: seq<Step>,
      t: State)
    requires branch <= c.Keys && Run(c, branch, s, a, m) && Run(c, branch, m, b, t)
    ensures Run(c, branch, s, a + b, t)
    decreases |a|
  {
    if a == [] {
      assert a + b == b;
    } else {
      RunAppend(c, branch, Next(c, branch, s, a[0]), a[1..], m, b, t);
      assert (a + b)[1..] == a[1..] + b;
    }
  }

  /** Jobs stay in the queue. */
  lemma {:induction false} JobsStay(c: Chain, branch: set<Hash>, s: State, steps: seq<Step>, t: State)
    requires branch <= c.Keys && Run(c, branch, s, steps, t)
    ensures s.hooksJobs <= t.hooksJobs && s.checkpointJobs <= t.checkpointJobs
    decreases |steps|
  {
    if steps != [] {
      JobsStay(c, branch, Next(c, branch, s, steps[0]), steps[1..], t);
    }
  }

  lemma TakeOnce(c: Chain, branch: set<Hash>, s: State, h: Hash)
    requires Branch(c, branch) && Inv(c, branch, s) && h in s.hooksJobs
    ensures var t := Hooks(c, s, h); Run(c, branch, s, [TakeHooksJob(h)], t) && Inv(c, branch, t)
  {
    HooksKeeps(c, branch, s, h);
    assert [TakeHooksJob(h)][1..] == [];
  }

  lemma NextHook(c: Chain, s: State, h: Hash)
    requires h in c && s.status.Some? && s.status.value.latestIndexed == c[h].number - 1
    ensures var t := Hooks(c, s, h); t.status.Some? && t.status.value.latestIndexed == c[h].number && h in t.hooksRun
  {
    assert Hooks(c, s, h).hooksRun[|s.hooksRun|] == h;
  }

  /** A hooks job for a block far ahead asks for its parent's first; by taking the jobs so queued, hooks
      catch up with the block. */
  lemma {:induction false} HooksCatchUp(c: Chain, branch: set<Hash>, s: State, h: Hash)
    returns (steps: seq<Step>, t: State)
    requires Branch(c, branch) && Inv(c, branch, s) && h in s.hooksJobs
    requires s.status.Some? && s.status.value.latestIndexed < c[h].number
    ensures Run(c, branch, s, steps, t) && Inv(c, branch, t) && h in t.hooksJobs
    ensures t.status.Some? && t.status.value.latestIndexed == c[h].number && h in t.hooksRun
    decreases c[h].number
  {
    var take, asked := [TakeHooksJob(h)], Hooks(c, s, h);
    TakeOnce(c, branch, s, h);
    if s.status.value.latestIndexed == c[h].number - 1 {
      NextHook(c, s, h);
      steps, t := take, asked;
    } else {
      assert OneBelow(c, h);
      var more, m := HooksCatchUp(c, branch, asked, c[h].parent);
      CatchUpLast(c, branch, s, take, asked, more, m, h);
      steps, t := take + more + take, Hooks(c, m, h);
    }
  }

  lemma CatchUpLast(c: Chain, branch: set<Hash>, s: State, a: seq<Step>, asked: State, more: seq<Step>, m: State,
      h: Hash)
    requires Branch(c, branch) && Run(c, branch, s, a, asked) && Run(c, branch, asked, more, m) && Inv(c, branch, m)
    requires h in asked.hooksJobs && h in c && m.status.Some? && m.status.value.latestIndexed == c[h].number - 1
    ensures var t := Hooks(c, m, h);
      && Run(c, branch, s, a + more + [TakeHooksJob(h)], t) && Inv(c, branch, t) && h in t.hooksJobs
      && t.status.Some? && t.status.value.latestIndexed == c[h].number && h in t.hooksRun
  {
    JobsStay(c, branch, asked, more, m);
    TakeOnce(c, branch, m, h);
    NextHook(c, m, h);
    RunAppend(c, branch, s, a, asked, more, m);
    RunAppend(c, branch, s, a + more, m, [TakeHooksJob(h)], Hooks(c, m, h));
  }

  lemma TakeCheckpoint(c: Chain, branch: set<Hash>, s: State, h: Hash)
    requires Branch(c, branch) && Inv(c, branch, s) && h in s.checkpointJobs
    ensures var t := Checkpoint(c, s, h); Run(c, branch, s, [TakeCheckpointJob(h)], t) && Inv(c, branch, t)
  {
    CheckpointKeeps(c, branch, s, h);
    assert [TakeCheckpointJob(h)][1..] == [];
  }

  lemma NextCheckpoint(c: Chain, s: State, h: Hash)
    requires h in c && s.status.Some? && s.status.value.latestCheckpoint in {-1, c[h].number - 1}
    ensures var t := Checkpoint(c, s, h);
      t.status.Some? && t.status.value.latestCheckpoint == c[h].number && h in t.checkpointsRun
  {
    assert Checkpoint(c, s, h).checkpointsRun[|s.checkpointsRun|] == h;
  }

  /** A checkpoint job for a block ahead of the pointer gets its checkpoint made, after those of the blocks
      between, which it asks for itself. */
  lemma {:induction false} CheckpointsCatchUp(c: Chain, branch: set<Hash>, s: State, h: Hash)
    returns (steps: seq<Step>, t: State)
    requires Branch(c, branch) && Inv(c, branch, s) && h in s.checkpointJobs
    requires s.status.Some? && s.status.value.latestCheckpoint < c[h].number
    ensures Run(c, branch, s, steps, t) && Inv(c, branch, t) && h in t.checkpointJobs
    ensures t.status.Some? && t.status.value.latestCheckpoint == c[h].number && h in t.checkpointsRun
    decreases c[h].number
  {
    var take, asked := [TakeCheckpointJob(h)], Checkpoint(c, s, h);
    TakeCheckpoint(c, branch, s, h);
    if s.status.value.latestCheckpoint in {-1, c[h].number - 1} {
      NextCheckpoint(c, s, h);
      steps, t := take, asked;
    } else {
      assert OneBelow(c, h);
      var more, m := CheckpointsCatchUp(c, branch, asked, c[h].parent);
      CheckpointLast(c, branch, s, take, asked, more, m, h);
      steps, t := take + more + take, Checkpoint(c, m, h);
    }
  }

  lemma CheckpointLast(c: Chain, branch: set<Hash>, s: State, a: seq<Step>, asked: State, more: seq<Step>, m: State,
      h: Hash)
    requires Branch(c, branch) && Run(c, branch, s, a, asked) && Run(c, branch, asked, more, m) && Inv(c, branch, m)
    requires h in asked.checkpointJobs && h in c && m.status.Some?
        && m.status.value.latestCheckpoint == c[h].number - 1
    ensures var t := Checkpoint(c, m, h);
      && Run(c, branch, s, a + more + [TakeCheckpointJob(h)], t) && Inv(c, branch, t) && h in t.checkpointJobs
      && t.status.Some? && t.status.value.latestCheckpoint == c[h].number && h in t.checkpointsRun
  {
    JobsStay(c, branch, asked, more, m);
    TakeCheckpoint(c, branch, m, h);
    NextCheckpoint(c, m, h);
    RunAppend(c, branch, s, a, asked, more, m);
    RunAppend(c, branch, s, a + more, m, [TakeCheckpointJob(h)], Checkpoint(c, m, h));
  }

  /** From every state that is reached, a block whose hooks have run can still get its checkpoint made, unless
      the checkpoints are at it or beyond already. */
  lemma HooksGetCheckpoint(c: Chain, branch: set<Hash>, s: State, steps: seq<Step>, t: State, h: Hash)
    returns (more: seq<Step>, u: State)
    requires Branch(c, branch) && Init(s) && Run(c, branch, s, steps, t) && h in t.hooksRun
    ensures h in c && t.status.Some? && Run(c, branch, t, more, u) && u.status.Some?
    ensures if t.status.value.latestCheckpoint >= c[h].number then u == t
            else h in u.checkpointsRun && u.status.value.latestCheckpoint == c[h].number
  {
    RunKeeps(c, branch, s, steps, t);
    HooksLeaveCheckpoint(c, branch, s, steps, t, h);
    if t.status.value.latestCheckpoint >= c[h].number {
      more, u := [], t;
    } else {
      more, u := CheckpointsCatchUp(c, branch, t, h);
    }
  }

  // ---- In place ----

  class JobRunner {
    const chain: Chain
    var status: Option<Status>
    var hooksJobs: set<Hash>
    var checkpointJobs: set<Hash>
    ghost var hooksRun: seq<Hash>
    ghost var checkpointsRun: seq<Hash>

    ghost function Model(): State
      reads this
    {
      State(status, hooksJobs, checkpointJobs, hooksRun, checkpointsRun)
    }

    constructor (chain: Chain)
      ensures Init(Model()) && this.chain == chain
    {
      this.chain := chain;
      status, hooksJobs, checkpointJobs := None, {}, {};
      hooksRun, checkpointsRun := [], [];
    }

    method UpdateStateSyncStatusIndexedBlock(n: nat)
      modifies this`status
      ensures status == Some(IndexedUpTo(old(status), n))
    {
      var entity := if status.Some? then status.value else Status(n, -1);
      if n > entity.latestIndexed {
        entity := entity.(latestIndexed := n);
      }
      status := Some(entity);
    }

    /** processHooks; fails, to be tried again later, when the parent's hooks have not run. */
    method ProcessHooks(h: Hash) returns (r: Result<()>)
      requires h in chain
      modifies this
      ensures Model() == Hooks(chain, old(Model()), h)
      ensures r.Failure? <==> old(status).Some? && old(status).value.latestIndexed + 1 < chain[h].number
      ensures r.Failure? ==> hooksRun == old(hooksRun) && status == old(status) && chain[h].parent in hooksJobs
      ensures r.Success? ==> status.Some? && status.value.latestIndexed >= chain[h].number
      ensures r.Success? && !(old(status).Some? && old(status).value.latestIndexed >= chain[h].number) ==>
                && hooksRun == old(hooksRun) + [h] && h in checkpointJobs
                && status.value.latestIndexed == chain[h].number
    {
      var n: int := chain[h].number;
      if status.Some? {
        if status.value.latestIndexed < n - 1 {
          hooksJobs := hooksJobs + {chain[h].parent};
          return Failure("State for parent block not indexed yet");
        }
        if status.value.latestIndexed > n - 1 {
          return Success(());
        }
      }
      hooksRun := hooksRun + [h];
      UpdateStateSyncStatusIndexedBlock(n);
      checkpointJobs := checkpointJobs + {h};
      return Success(());
    }

    /** processCheckpoint. */
    method ProcessCheckpoint(h: Hash) returns (r: Result<()>)
      requires h in chain
      modifies this
      ensures Model() == Checkpoint(chain, old(Model()), h)
      ensures r.Failure?
        <==> old(status).Some? && 0 <= old(status).value.latestCheckpoint < chain[h].number - 1
      ensures r.Failure? ==>
        checkpointsRun == old(checkpointsRun) && status == old(status) && chain[h].parent in checkpointJobs
      ensures r.Success? && old(status).Some? ==> status.Some? && status.value.latestCheckpoint >= chain[h].number
      ensures r.Success? && old(status).Some? && old(status).value.latestCheckpoint < chain[h].number ==>
                checkpointsRun == old(checkpointsRun) + [h] && status.value.latestCheckpoint == chain[h].number
    {
      var n: int := chain[h].number;
      if status.Some? {
        if status.value.latestCheckpoint >= 0 {
          if status.value.latestCheckpoint < n - 1 {
            checkpointJobs := checkpointJobs + {chain[h].parent};
            return Failure("Checkpoints for parent block not processed yet");
          }
          if status.value.latestCheckpoint > n - 1 {
            return Success(());
          }
        }
        checkpointsRun := checkpointsRun + [h];
        if n > status.value.latestCheckpoint {
          status := Some(status.value.(latestCheckpoint := n));
        }
      }
      return Success(());
    }
  }
}
