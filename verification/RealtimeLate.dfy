/**
  A run of the real-time protocol after which a block arrives late: a line of blocks numbered from 0 to 17,
  and a second block numbered 1. Height 1 is pruned once the line is indexed, and then the second block is
  indexed and stays.
*/
module RealtimeLate {
  import opened BlockTree
  import opened Realtime
  import opened Wrappers

  const TOP: nat := 17
  const LATE: Hash := "late"

  function Name(i: nat): (h: Hash)
    ensures |h| == i + 5 && h != LATE && h != "" && h != HASH_ZERO
  {
    seq(i + 5, _ => 'b')
  }

  function LineBlock(i: nat): Block {
    Block(i, if i == 0 then "" else Name(i - 1))
  }

  function Line(n: nat): Chain {
    if n == 0 then map[Name(0) := LineBlock(0)] else Line(n - 1)[Name(n) := LineBlock(n)]
  }

  function Tree(): Chain {
    Line(TOP)[LATE := Block(1, Name(0))]
  }

  lemma {:induction false} InLine(n: nat, i: nat)
    ensures Name(i) in Line(n) <==> i <= n
    ensures i <= n ==> Line(n)[Name(i)] == LineBlock(i)
  {
    assert i != n ==> |Name(i)| != |Name(n)|;
    if n > 0 {
      InLine(n - 1, i);
    }
  }

  lemma {:induction false} OnlyLine(n: nat, h: Hash) returns (i: nat)
    requires h in Line(n)
    ensures i <= n && h == Name(i)
  {
    if n == 0 {
      i := 0;
    } else if h == Name(n) {
      i := n;
    } else {
      i := OnlyLine(n - 1, h);
    }
  }

  lemma InTree(i: nat)
    requires i <= TOP
    ensures Name(i) in Tree() && Tree()[Name(i)] == LineBlock(i)
  {
    InLine(TOP, i);
  }

  lemma OnlyTree(h: Hash) returns (i: nat)
    requires h in Tree()
    ensures i <= TOP && (h == LATE || h == Name(i)) && (h == LATE ==> i == 1) && Tree()[h].number == i
    ensures i > 0 ==> Tree()[h].parent == Name(i - 1) && Name(i - 1) in Tree() && Tree()[Name(i - 1)].number == i - 1
    ensures i == 0 ==> Tree()[h].parent !in Tree()
  {
    if h == LATE {
      i := 1;
    } else {
      i := OnlyLine(TOP, h);
      InTree(i);
    }
    if i > 0 {
      InTree(i - 1);
    } else if "" in Tree() {
      var j := OnlyLine(TOP, "");
    }
  }

  // ---- The tree is an upstream chain ----

  lemma TreeLinked()
    ensures WellFormed(Tree()) && GapFree(Tree())
  {
    forall h | h in Tree()
      ensures OneBelow(Tree(), h) && (Tree()[h].parent in Tree() ==> Tree()[Tree()[h].parent].number < Tree()[h].number)
    {
      var i := OnlyTree(h);
    }
  }

  /** The late block has nothing on top. */
  lemma {:induction false} LateIsTip(i: nat)
    requires i <= TOP && WellFormed(Tree())
    ensures Name(i) in Tree() && !Ancestor(Tree(), LATE, Name(i))
    decreases i
  {
    InTree(i);
    if i > 0 {
      LateIsTip(i - 1);
    } else if "" in Tree() {
      var j := OnlyLine(TOP, "");
    }
  }

  lemma LateNotDeep()
    requires WellFormed(Tree())
    ensures !Deep(Tree(), LATE)
  {
    if Deep(Tree(), LATE) {
      var x :| x in Tree() && Tree()[x].number == Tree()[LATE].number + MAX_REORG_DEPTH && Ancestor(Tree(), LATE, x);
      var i := OnlyTree(x);
      LateIsTip(i);
    }
  }

  lemma TreeUpstream()
    ensures Upstream(Tree())
  {
    TreeLinked();
    LateNotDeep();
    forall a, b | Deep(Tree(), a) && Deep(Tree(), b)
      ensures Tree()[a].number == Tree()[b].number ==> a == b
    {
      var i := OnlyTree(a);
      var j := OnlyTree(b);
    }
  }

  // ---- The run ----

  function Names(k: nat): set<Hash> {
    if k == 0 then {Name(0)} else Names(k - 1) + {Name(k)}
  }

  lemma {:induction false} InNames(k: nat, h: Hash)
    ensures h in Names(k) <==> exists i: nat | i <= k :: h == Name(i)
  {
    if k > 0 {
      InNames(k - 1, h);
    }
  }

  ghost function Lined(k: nat): State {
    State(Names(k), Names(k), {}, 0, Name(0), -1, map[], {Name(0)})
  }

  ghost predicate Reached(s: State, t: State)
    requires WellFormed(Tree())
  {
    exists steps :: Run(Tree(), s, steps, t)
  }

  lemma ThenReached(s: State, step: Step, t: State)
    requires WellFormed(Tree()) && Enabled(Tree(), s, step) && Reached(Next(Tree(), s, step), t)
    ensures Reached(s, t)
  {
    var rest :| Run(Tree(), Next(Tree(), s, step), rest, t);
    assert ([step] + rest)[1..] == rest;
    assert Run(Tree(), s, [step] + rest, t);
  }

  lemma NextInLine(k: nat, t: State)
    requires WellFormed(Tree()) && 1 <= k <= TOP && Reached(Lined(k), t)
    ensures Reached(Lined(k - 1), t)
  {
    var h, s := Name(k), Lined(k - 1);
    InTree(k);
    InNames(k - 1, Name(k - 1));
    InNames(k - 1, h);
    var saved := Next(Tree(), s, IndexBlock(h));
    assert IndexSaves(Tree(), s, h);
    assert Next(Tree(), saved, CompleteBlock(h)) == Lined(k);
    ThenReached(saved, CompleteBlock(h), t);
    ThenReached(s, IndexBlock(h), t);
  }

  lemma {:induction false} LineRun(k: nat, t: State)
    requires WellFormed(Tree()) && k <= TOP && Reached(Lined(k), t)
    ensures Reached(Lined(0), t)
  {
    if k > 0 {
      NextInLine(k, t);
      LineRun(k - 1, t);
    }
  }

  lemma LinedHeight(k: nat, n: nat, s: State)
    requires n <= k <= TOP && s.stored == Names(k) && s.pruned == {}
    ensures AtHeight(Tree(), s, n) == {Name(n)}
  {
    InTree(n);
    InNames(k, Name(n));
    forall h
      ensures h in AtHeight(Tree(), s, n) <==> h == Name(n)
    {
      InNames(k, h);
      if i: nat :| i <= k && h == Name(i) {
        InTree(i);
      }
    }
  }

  lemma LinedInit()
    ensures Init(Tree(), Lined(0))
  {
    InTree(0);
  }

  /** The whole line is indexed and height 1 pruned. */
  ghost function Settled(): State {
    Settle(Lined(TOP).(indexed := TOP), 1, Name(1), {})
  }

  lemma SettledReached()
    requires Upstream(Tree())
    ensures Reached(Lined(0), Settled())
  {
    var s := Lined(TOP);
    var u := s.(indexed := TOP);
    LinedHeight(TOP, TOP, s);
    LinedHeight(TOP, 1, u);
    assert Next(Tree(), s, IndexingComplete(TOP)) == u;
    var prune := PruneChain(1, "");
    assert Enabled(Tree(), u, prune) && Next(Tree(), u, prune) == Settled();
    assert Run(Tree(), Settled(), [], Settled());
    ThenReached(u, prune, Settled());
    ThenReached(s, IndexingComplete(TOP), Settled());
    LineRun(TOP, Settled());
  }

  lemma OneSettled()
    requires WellFormed(Tree())
    ensures AtHeight(Tree(), Settled(), 1) == {Name(1)}
  {
    LinedHeight(TOP, 1, Settled());
  }

  lemma LateStays()
    requires WellFormed(Tree()) && AtHeight(Tree(), Settled(), 1) == {Name(1)}
    ensures AtHeight(Tree(), Next(Tree(), Settled(), IndexBlock(LATE)), 1) == {Name(1), LATE}
  {
    InNames(TOP, LATE);
    assert IndexSaves(Tree(), Settled(), LATE);
  }

  /** A run after which a block at an already pruned height is accepted and stays beside the settled one. */
  lemma LateBlockReached()
    ensures Upstream(Tree()) && Init(Tree(), Lined(0)) && Reached(Lined(0), Settled())
    ensures var t := Settled(); var late := Next(Tree(), t, IndexBlock(LATE));
      && t.settled == map[1 := Name(1)] && t.canonical == 1
      && AtHeight(Tree(), t, 1) == {Name(1)} && AtHeight(Tree(), late, 1) == {Name(1), LATE}
  {
    TreeUpstream();
    LinedInit();
    SettledReached();
    OneSettled();
    LateStays();
  }
}
