/**
  State trees and the deep merge by which they are built up: lodash's merge, as used on the state of a
  subgraph (packages/util/src/graph/state-utils.ts, packages/util/src/indexer.ts).
*/
module StateMerge {
  import opened Wrappers

  datatype Kind = Object | Array

  /** A JSON value: a leaf, or a node with fields. The elements of an array are fields under their
      indices, which is how merge treats them. */
  datatype Tree = Leaf(value: string) | Node(kind: Kind, fields: map<string, Tree>)

  const EMPTY: Tree := Node(Object, map[])

  /** merge(a, b): a leaf replaces what was there, and so does an array unless an array was there; the
      fields of any other node are merged one by one into the old node, which keeps its kind. */
  function Merge(a: Tree, b: Tree): Tree
    decreases b
  {
    if b.Leaf? || a.Leaf? || (b.kind == Array && a.kind == Object) then b
    else
      Node(a.kind, map k | k in a.fields.Keys + b.fields.Keys ::
        if k !in b.fields then a.fields[k]
        else if k !in a.fields then b.fields[k]
        else Merge(a.fields[k], b.fields[k]))
  }

  /** The trees agree on which keys are leaves, objects and arrays. */
  ghost predicate Agree(a: Tree, b: Tree)
    decreases a
  {
    if a.Leaf? || b.Leaf? then a.Leaf? && b.Leaf?
    else a.kind == b.kind && forall k | k in a.fields && k in b.fields :: Agree(a.fields[k], b.fields[k])
  }

  /** Merging twice the same changes nothing. */
  lemma {:induction false} MergeIdempotent(a: Tree)
    ensures Merge(a, a) == a
  {
    if a.Node? {
      forall k | k in a.fields
        ensures Merge(a.fields[k], a.fields[k]) == a.fields[k]
      {
        MergeIdempotent(a.fields[k]);
      }
      assert Merge(a, a).fields == a.fields;
    }
  }

  lemma MergeEmpty(a: Tree)
    requires a.Node?
    ensures Merge(a, EMPTY) == a
  {
    assert Merge(a, EMPTY).fields == a.fields;
  }

  // ---- When merging is associative ----

  /** Merging `c` into `a` leaves nothing of `a` beside `c`. */
  predicate Hidden(a: Tree, c: Tree)
    decreases c
  {
    if a.Leaf? || c.Leaf? || (a.kind == Object && c.kind == Array) then true
    else a.kind == c.kind && forall k | k in a.fields :: k in c.fields && Hidden(a.fields[k], c.fields[k])
  }

  lemma {:induction false} HiddenExact(a: Tree, c: Tree)
    ensures Merge(a, c) == c <==> Hidden(a, c)
    decreases c
  {
    if a.Node? && c.Node? && a.kind == c.kind {
      forall k | k in a.fields && k in c.fields
        ensures Merge(a.fields[k], c.fields[k]) == c.fields[k] <==> Hidden(a.fields[k], c.fields[k])
      {
        HiddenExact(a.fields[k], c.fields[k]);
      }
      HiddenFields(a, c);
    }
  }

  /** When the fields of a merge are those of one of the sides; `merged` has the fields they share. */
  lemma WhichFields(a: map<string, Tree>, b: map<string, Tree>, m: map<string, Tree>, merged: map<string, Tree>)
    requires merged.Keys == a.Keys * b.Keys && m.Keys == a.Keys + b.Keys
    requires forall k | k in m :: m[k] == if k !in b then a[k] else if k !in a then b[k] else merged[k]
    ensures m == a <==> forall k | k in b :: k in a && merged[k] == a[k]
    ensures m == b <==> forall k | k in a :: k in b && merged[k] == b[k]
  {
    if forall k | k in b :: k in a && merged[k] == a[k] {
      assert m == a;
    }
    if forall k | k in a :: k in b && merged[k] == b[k] {
      assert m == b;
    }
    assert forall k | k in a || k in b :: k in m;
  }

  function SharedFields(a: Tree, b: Tree): map<string, Tree>
    requires a.Node? && b.Node?
  {
    map k | k in a.fields && k in b.fields :: Merge(a.fields[k], b.fields[k])
  }

  lemma HiddenFields(a: Tree, c: Tree)
    requires a.Node? && c.Node? && a.kind == c.kind
    ensures Merge(a, c) == c
            <==> forall k | k in a.fields :: k in c.fields && Merge(a.fields[k], c.fields[k]) == c.fields[k]
  {
    WhichFields(a.fields, c.fields, Merge(a, c).fields, SharedFields(a, c));
  }

  /** Merging `b` into `a` adds nothing: all that `b` says, `a` says already. */
  predicate Absorbed(b: Tree, a: Tree)
    decreases b
  {
    if a.Leaf? || b.Leaf? || (b.kind == Array && a.kind == Object) then a == b
    else forall k | k in b.fields :: k in a.fields && Absorbed(b.fields[k], a.fields[k])
  }

  lemma {:induction false} AbsorbedExact(a: Tree, b: Tree)
    ensures Merge(a, b) == a <==> Absorbed(b, a)
    decreases b
  {
    if a.Node? && b.Node? && (b.kind == Object || a.kind == Array) {
      forall k | k in a.fields && k in b.fields
        ensures Merge(a.fields[k], b.fields[k]) == a.fields[k] <==> Absorbed(b.fields[k], a.fields[k])
      {
        AbsorbedExact(a.fields[k], b.fields[k]);
      }
      AbsorbedFields(a, b);
    }
  }

  lemma AbsorbedFields(a: Tree, b: Tree)
    requires a.Node? && b.Node? && (b.kind == Object || a.kind == Array)
    ensures Merge(a, b) == a
            <==> forall k | k in b.fields :: k in a.fields && Merge(a.fields[k], b.fields[k]) == a.fields[k]
  {
    WhichFields(a.fields, b.fields, Merge(a, b).fields, SharedFields(a, b));
  }

  /** Merged between `a` and `c`, `b` leaves no trace: merging `c` hides what `b` adds to `a`. */
  predicate NoTrace(a: Tree, b: Tree, c: Tree)
    decreases c
  {
    if c.Leaf? then true
    else if b.Leaf? then Hidden(a, c)
    else if a.Leaf? then Hidden(b, c)
    else if a.kind == Object && b.kind == Array then c.kind == Array && Hidden(b, c)
    else if a.kind == Object && c.kind == Array then true
    else
      forall k | k in b.fields ::
        if k !in c.fields then k in a.fields && Absorbed(b.fields[k], a.fields[k])
        else if k !in a.fields then Hidden(b.fields[k], c.fields[k])
        else NoTrace(a.fields[k], b.fields[k], c.fields[k])
  }

  /** What one key needs for that. */
  predicate KeyNoTrace(a: Tree, b: Tree, c: Tree, k: string)
    requires a.Node? && b.Node? && c.Node?
  {
    k in b.fields ==>
      if k !in c.fields then k in a.fields && Merge(a.fields[k], b.fields[k]) == a.fields[k]
      else if k !in a.fields then Merge(b.fields[k], c.fields[k]) == c.fields[k]
      else Merge(Merge(a.fields[k], b.fields[k]), c.fields[k]) == Merge(a.fields[k], c.fields[k])
  }

  lemma NoTraceFields(a: Tree, b: Tree, c: Tree)
    requires a.Node? && b.Node? && c.Node? && (a.kind == Array || b.kind == Object)
        && (a.kind == Array || c.kind == Object)
    ensures Merge(Merge(a, b), c) == Merge(a, c) <==> forall k | k in b.fields :: KeyNoTrace(a, b, c, k)
  {
    var l, r := Merge(Merge(a, b), c), Merge(a, c);
    assert l.fields.Keys == a.fields.Keys + b.fields.Keys + c.fields.Keys
        && r.fields.Keys == a.fields.Keys + c.fields.Keys;
    forall k | k in b.fields
      ensures KeyNoTrace(a, b, c, k) <==> k in r.fields && l.fields[k] == r.fields[k]
    {}
    if forall k | k in b.fields :: KeyNoTrace(a, b, c, k) {
      assert forall k | k in l.fields :: k in r.fields && l.fields[k] == r.fields[k];
      assert l.fields == r.fields;
    }
  }

  lemma {:induction false} NoTraceExact(a: Tree, b: Tree, c: Tree)
    ensures Merge(Merge(a, b), c) == Merge(a, c) <==> NoTrace(a, b, c)
    decreases c
  {
    if c.Leaf? {
    } else if b.Leaf? {
      HiddenExact(a, c);
    } else if a.Leaf? {
      HiddenExact(b, c);
    } else if a.kind == Object && b.kind == Array {
      HiddenExact(b, c);
    } else if a.kind == Array || c.kind == Object {
      NoTraceFields(a, b, c);
      forall k | k in b.fields
        ensures KeyNoTrace(a, b, c, k) <==>
          if k !in c.fields then k in a.fields && Absorbed(b.fields[k], a.fields[k])
          else if k !in a.fields then Hidden(b.fields[k], c.fields[k])
          else NoTrace(a.fields[k], b.fields[k], c.fields[k])
      {
        NoTraceKey(a, b, c, k);
      }
    }
  }

  lemma {:induction false} NoTraceKey(a: Tree, b: Tree, c: Tree, k: string)
    requires a.Node? && b.Node? && c.Node? && k in b.fields
    ensures KeyNoTrace(a, b, c, k) <==>
      if k !in c.fields then k in a.fields && Absorbed(b.fields[k], a.fields[k])
      else if k !in a.fields then Hidden(b.fields[k], c.fields[k])
      else NoTrace(a.fields[k], b.fields[k], c.fields[k])
    decreases c, 0
  {
    if k !in c.fields {
      if k in a.fields {
        AbsorbedExact(a.fields[k], b.fields[k]);
      }
    } else if k !in a.fields {
      HiddenExact(b.fields[k], c.fields[k]);
    } else {
      NoTraceExact(a.fields[k], b.fields[k], c.fields[k]);
    }
  }

  /** The places at which it matters whether `b` is merged into `a` first or `c` into `b`: where `b` is a
      leaf between two nodes and `c` does not hide the first, and where `b` is an object between two arrays
      and leaves a trace. */
  ghost predicate Clash(a: Tree, b: Tree, c: Tree)
    decreases c
  {
    if c.Leaf? || a.Leaf? then false
    else if b.Leaf? then !Hidden(a, c)
    else if a.kind == Array && b.kind == Object && c.kind == Array then !NoTrace(a, b, c)
    else if (a.kind == Object && b.kind == Array) || (b.kind == Object && c.kind == Array) then false
    else exists k | k in a.fields && k in b.fields && k in c.fields :: Clash(a.fields[k], b.fields[k], c.fields[k])
  }

  /** Merging is associative exactly where nothing clashes. */
  lemma {:induction false} MergeAssocExact(a: Tree, b: Tree, c: Tree)
    ensures Merge(Merge(a, b), c) == Merge(a, Merge(b, c)) <==> !Clash(a, b, c)
    decreases c
  {
    if c.Node? && b.Node? && a.Node? && (a.kind == Array || b.kind == Object) && (b.kind == Array || c.kind == Object) {
      AssocFields(a, b, c);
    } else if c.Node? && a.Node? && b.Leaf? {
      HiddenExact(a, c);
    } else if c.Node? && a.Node? && b.kind == Object && c.kind == Array {
      NoTraceExact(a, b, c);
    }
  }

  /** Three nodes whose fields get merged one by one. */
  lemma {:induction false} AssocFields(a: Tree, b: Tree, c: Tree)
    requires a.Node? && b.Node? && c.Node? && (a.kind == Array || b.kind == Object)
        && (b.kind == Array || c.kind == Object)
    ensures Merge(Merge(a, b), c) == Merge(a, Merge(b, c)) <==>
      forall k | k in a.fields && k in b.fields && k in c.fields :: !Clash(a.fields[k], b.fields[k], c.fields[k])
    decreases c, 0
  {
    var l, r := Merge(Merge(a, b), c), Merge(a, Merge(b, c));
    assert l.fields.Keys == r.fields.Keys == a.fields.Keys + b.fields.Keys + c.fields.Keys;
    forall k | k in l.fields
      ensures l.fields[k] == r.fields[k] <==>
        (k in a.fields && k in b.fields && k in c.fields ==> !Clash(a.fields[k], b.fields[k], c.fields[k]))
    {
      if k in a.fields && k in b.fields && k in c.fields {
        MergeAssocExact(a.fields[k], b.fields[k], c.fields[k]);
      }
    }
    assert l == r <==> forall k | k in l.fields :: l.fields[k] == r.fields[k];
  }

  /** Trees that agree do not clash, whatever they are merged into. */
  lemma {:induction false} AgreeNoClash(a: Tree, b: Tree, c: Tree)
    requires Agree(b, c)
    ensures !Clash(a, b, c)
    decreases c
  {
    if a.Node? && b.Node? && c.Node? {
      forall k | k in a.fields && k in b.fields && k in c.fields
        ensures !Clash(a.fields[k], b.fields[k], c.fields[k])
      {
        AgreeNoClash(a.fields[k], b.fields[k], c.fields[k]);
      }
    }
  }

  lemma {:induction false} AgreeSymmetric(a: Tree, b: Tree)
    requires Agree(a, b)
    ensures Agree(b, a)
  {
    if a.Node? {
      forall k | k in a.fields && k in b.fields
        ensures Agree(b.fields[k], a.fields[k])
      {
        AgreeSymmetric(a.fields[k], b.fields[k]);
      }
    }
  }

  lemma {:induction false} AgreeMerge(a: Tree, b: Tree, c: Tree)
    requires Agree(a, c) && Agree(b, c)
    ensures Agree(Merge(a, b), c)
    decreases b
  {
    if a.Node? && b.Node? {
      var m := Merge(a, b);
      forall k | k in m.fields && k in c.fields
        ensures Agree(m.fields[k], c.fields[k])
      {
        if k in a.fields && k in b.fields {
          AgreeMerge(a.fields[k], b.fields[k], c.fields[k]);
        }
      }
    }
  }

  // ---- Sequences of diffs ----

  ghost predicate AllAgree(ds: seq<Tree>) {
    forall i, j | 0 <= i < |ds| && 0 <= j < |ds| :: Agree(ds[i], ds[j])
  }

  function FoldMerge(s: Tree, ds: seq<Tree>): Tree {
    if ds == [] then s else Merge(FoldMerge(s, ds[..|ds| - 1]), ds[|ds| - 1])
  }

  lemma {:induction false} FoldAppend(s: Tree, ds: seq<Tree>, es: seq<Tree>)
    ensures FoldMerge(s, ds + es) == FoldMerge(FoldMerge(s, ds), es)
  {
    if es == [] {
      assert ds + es == ds;
    } else {
      FoldAppend(s, ds, es[..|es| - 1]);
      assert (ds + es)[..|ds + es| - 1] == ds + es[..|es| - 1];
    }
  }

  lemma {:induction false} FoldAgrees(ds: seq<Tree>, c: Tree)
    requires ds != [] && forall i | 0 <= i < |ds| :: Agree(ds[i], c)
    ensures Agree(FoldMerge(ds[0], ds[1..]), c)
    decreases |ds|
  {
    if |ds| > 1 {
      FoldAgrees(ds[..|ds| - 1], c);
      assert ds[1..][..|ds| - 2] == ds[..|ds| - 1][1..];
      AgreeMerge(FoldMerge(ds[0], ds[1..][..|ds| - 2]), ds[|ds| - 1], c);
    }
  }

  /** Merging the diffs into each other first and the outcome into the state gives the same state as
      merging one diff after the other, for every state. */
  lemma {:induction false} FoldFirst(s: Tree, ds: seq<Tree>)
    requires ds != [] && AllAgree(ds)
    ensures FoldMerge(s, ds) == Merge(s, FoldMerge(ds[0], ds[1..]))
    decreases |ds|
  {
    if |ds| == 1 {
      assert FoldMerge(s, ds[..0]) == s;
    } else {
      var init, last := ds[..|ds| - 1], ds[|ds| - 1];
      FoldFirst(s, init);
      assert ds[1..][..|ds| - 2] == init[1..];
      var inner := FoldMerge(ds[0], init[1..]);
      assert FoldMerge(ds[0], ds[1..]) == Merge(inner, last);
      FoldAgrees(init, last);
      AgreeNoClash(s, inner, last);
      MergeAssocExact(s, inner, last);
    }
  }

  /** The same when the merging starts from the empty object, as in memory. */
  lemma InMemoryMerge(s: Tree, ds: seq<Tree>)
    requires s.Node? && AllAgree(ds) && forall i | 0 <= i < |ds| :: ds[i].Node? && ds[i].kind == Object
    ensures FoldMerge(s, ds) == Merge(s, FoldMerge(EMPTY, ds))
  {
    if ds == [] {
      MergeEmpty(s);
    } else {
      FoldFirst(s, ds);
      FoldFirst(EMPTY, ds);
      FoldIsObject(ds);
      var inner := FoldMerge(ds[0], ds[1..]);
      assert Merge(EMPTY, inner).fields == inner.fields;
    }
  }

  lemma {:induction false} FoldIsObject(ds: seq<Tree>)
    requires ds != [] && forall i | 0 <= i < |ds| :: ds[i].Node? && ds[i].kind == Object
    ensures var r := FoldMerge(ds[0], ds[1..]); r.Node? && r.kind == Object
    decreases |ds|
  {
    if |ds| > 1 {
      FoldIsObject(ds[..|ds| - 1]);
      assert ds[1..][..|ds| - 2] == ds[..|ds| - 1][1..];
    }
  }

  // ---- What is found at a path ----

  /** The leaf that the keys of a path lead to. */
  function LeafAt(t: Tree, path: seq<string>): Option<string>
    decreases |path|
  {
    if path == [] then if t.Leaf? then Some(t.value) else None
    else if t.Node? && path[0] in t.fields then LeafAt(t.fields[path[0]], path[1..])
    else None
  }

  /** Somewhere on the path there is a leaf in one of the trees where the other has something too, or an array in
      the new one where the old one has an object. */
  predicate Replaced(a: Tree, b: Tree, path: seq<string>)
    decreases |path|
  {
    || a.Leaf? || b.Leaf? || (a.kind == Object && b.kind == Array)
    || (path != [] && path[0] in a.fields && path[0] in b.fields
        && Replaced(a.fields[path[0]], b.fields[path[0]], path[1..]))
  }

  /** At every path a merge has the new tree's leaf if there is one, or if something on the path is replaced,
      and otherwise keeps the old tree's. */
  lemma {:induction false} MergeLeaf(a: Tree, b: Tree, path: seq<string>)
    ensures LeafAt(Merge(a, b), path)
         == if Replaced(a, b, path) || LeafAt(b, path).Some? then LeafAt(b, path) else LeafAt(a, path)
    decreases |path|
  {
    if path != [] && a.Node? && b.Node? && path[0] in a.fields && path[0] in b.fields {
      MergeLeaf(a.fields[path[0]], b.fields[path[0]], path[1..]);
    }
  }

  /** Trees that agree replace nothing but leaves by leaves. */
  lemma {:induction false} AgreeReplaces(a: Tree, b: Tree, path: seq<string>)
    requires Agree(a, b) && Replaced(a, b, path) && LeafAt(a, path).Some?
    ensures LeafAt(b, path).Some?
    decreases |path|
  {
    if path != [] && a.Node? {
      AgreeReplaces(a.fields[path[0]], b.fields[path[0]], path[1..]);
    }
  }

  /** The leaf that the last of several diffs to have one says, or else the state that they are merged into. */
  function NewestLeaf(s: Tree, ds: seq<Tree>, path: seq<string>): Option<string> {
    if ds == [] then LeafAt(s, path)
    else if LeafAt(ds[|ds| - 1], path).Some? then LeafAt(ds[|ds| - 1], path)
    else NewestLeaf(s, ds[..|ds| - 1], path)
  }

  /** If state and diffs agree on which keys are leaves, merging has at every path the newest leaf. */
  lemma {:induction false} FoldHasNewest(s: Tree, ds: seq<Tree>, path: seq<string>)
    requires AllAgree([s] + ds)
    ensures LeafAt(FoldMerge(s, ds), path) == NewestLeaf(s, ds, path)
    decreases |ds|
  {
    if ds != [] {
      var init, last := ds[..|ds| - 1], ds[|ds| - 1];
      var all := [s] + init;
      assert [s] + ds == all + [last] && ([s] + ds)[|ds|] == last;
      forall i | 0 <= i < |all|
        ensures all[i] == ([s] + ds)[i] && Agree(all[i], last)
      {}
      FoldHasNewest(s, init, path);
      FoldAgrees(all, last);
      assert all[0] == s && all[1..] == init;
      var before := FoldMerge(s, init);
      MergeLeaf(before, last, path);
      if Replaced(before, last, path) && LeafAt(before, path).Some? {
        AgreeReplaces(before, last, path);
      }
    }
  }

  /** Without agreement the order matters: a leaf between two objects hides the first one only when the
      diffs are merged one after the other. */
  lemma MergeNotAssociative()
    ensures exists a, b, c :: Merge(Merge(a, b), c) != Merge(a, Merge(b, c))
  {
    var a := Node(Object, map["x" := Leaf("1")]);
    var b := Leaf("2");
    var c := Node(Object, map["y" := Leaf("3")]);
    assert "x" in Merge(a, Merge(b, c)).fields;
    assert "x" !in Merge(Merge(a, b), c).fields;
  }
}
