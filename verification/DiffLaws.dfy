/**
 What a diff says, in terms of the trees it was made from: which leaves a tree has,
 and what became of each.
 */
module DiffLaws {
  import opened Results
  import opened Order
  import opened Merkle

  // ---- the nodes of a tree ----

  /** A node is the tree's root or a node of one of its children. */
  lemma {:induction false} SubNodesExactly(t: Node, x: Node)
    ensures x in SubNodes(t) <==> x == t || exists i :: 0 <= i < |t.children| && x in SubNodes(t.children[i])
  {
    AllSubNodesExactly(t.children, x);
  }

  lemma {:induction false} AllSubNodesExactly(ns: seq<Node>, x: Node)
    ensures x in AllSubNodes(ns) <==> exists i :: 0 <= i < |ns| && x in SubNodes(ns[i])
    decreases |ns|
  {
    if ns != [] {
      var init := ns[..|ns| - 1];
      AllSubNodesExactly(init, x);
      assert forall i :: 0 <= i < |init| ==> init[i] == ns[i];
    }
  }

  ghost predicate LeafOf(t: Node, x: Node) {
    x in SubNodes(t) && x.kind == Leaf
  }

  /** Distinct keys, and nothing below a leaf. */
  ghost predicate Proper(t: Node) {
    DistinctKeys(SubNodes(t)) && forall x :: x in SubNodes(t) && x.kind == Leaf ==> x.children == []
  }

  ghost predicate AllProper(ns: seq<Node>) {
    DistinctKeys(AllSubNodes(ns)) && forall x :: x in AllSubNodes(ns) && x.kind == Leaf ==> x.children == []
  }

  // ---- the leaves of a tree ----

  ghost predicate Collected(before: Leaves, after: Leaves, ns: seq<Node>) {
    && (forall x :: x in ns && x.kind == Leaf ==> x.key in after && after[x.key] == LeafInfo(x.hash, x.nodeType, x.mod))
    && (forall k :: (forall x :: x in ns && x.kind == Leaf ==> x.key != k) ==>
          ((k in after <==> k in before) && (k in before ==> after[k] == before[k])))
  }

  lemma CollectedBoth(a: Leaves, b: Leaves, c: Leaves, xs: seq<Node>, ys: seq<Node>)
    requires Collected(a, b, xs) && Collected(b, c, ys) && forall x, y :: x in xs && y in ys ==> x.key != y.key
    ensures Collected(a, c, xs + ys)
  {
    forall k | forall x :: x in xs + ys && x.kind == Leaf ==> x.key != k
      ensures (k in c <==> k in a) && (k in a ==> c[k] == a[k])
    {
      assert forall x :: x in xs ==> x in xs + ys;
      assert forall x :: x in ys ==> x in xs + ys;
    }
  }

  lemma {:induction false} CollectNode(leaves: Leaves, n: Node)
    requires Proper(n)
    ensures Collected(leaves, LeavesInto(leaves, n), SubNodes(n))
    decreases n, 1
  {
    hide DistinctKeys;
    if n.kind == Leaf {
      assert n in SubNodes(n);
      assert SubNodes(n) == [n];
    } else {
      hide Collected;
      ProperChildren(n);
      CollectAll(leaves, n.children);
      CollectedAbove(leaves, AllLeavesInto(leaves, n.children), n, AllSubNodes(n.children));
    }
  }

  lemma CollectedAbove(a: Leaves, b: Leaves, n: Node, rest: seq<Node>)
    requires n.kind != Leaf && Collected(a, b, rest)
    ensures Collected(a, b, [n] + rest)
  {
    forall k | forall x :: x in [n] + rest && x.kind == Leaf ==> x.key != k
      ensures (k in b <==> k in a) && (k in a ==> b[k] == a[k])
    {
      assert forall x :: x in rest ==> x in [n] + rest;
    }
  }

  lemma ProperChildren(n: Node)
    requires Proper(n)
    ensures AllProper(n.children)
  {
    DistinctPart([n], AllSubNodes(n.children));
    assert forall x :: x in AllSubNodes(n.children) ==> x in SubNodes(n);
  }

  lemma {:induction false} CollectAll(leaves: Leaves, ns: seq<Node>)
    requires AllProper(ns)
    ensures Collected(leaves, AllLeavesInto(leaves, ns), AllSubNodes(ns))
    decreases ns, 0
  {
    if ns != [] {
      hide Collected, LeavesInto;
      var init, last := ns[..|ns| - 1], ns[|ns| - 1];
      ProperParts(init, last, ns);
      CollectAll(leaves, init);
      CollectNode(AllLeavesInto(leaves, init), last);
      CollectedBoth(leaves, AllLeavesInto(leaves, init), AllLeavesInto(leaves, ns), AllSubNodes(init), SubNodes(last));
    }
  }

  lemma ProperParts(init: seq<Node>, last: Node, ns: seq<Node>)
    requires ns == init + [last] && AllProper(ns)
    ensures AllProper(init) && Proper(last) && AllSubNodes(ns) == AllSubNodes(init) + SubNodes(last)
    ensures forall x, y :: x in AllSubNodes(init) && y in SubNodes(last) ==> x.key != y.key
  {
    assert ns[..|ns| - 1] == init;
    DistinctPart(AllSubNodes(init), SubNodes(last));
    assert forall x :: x in AllSubNodes(init) || x in SubNodes(last) ==> x in AllSubNodes(ns);
  }

  /** The leaf map of a tree holds exactly its leaves, each with its hash, type and module. */
  lemma LeavesExactly(t: Node, k: string)
    requires Proper(t)
    ensures k in LeavesOf(t) <==> exists x :: LeafOf(t, x) && x.key == k
    ensures forall x :: LeafOf(t, x) && x.key == k ==> k in LeavesOf(t) && LeavesOf(t)[k] == LeafInfo(x.hash, x.nodeType, x.mod)
  {
    hide DistinctKeys, LeavesInto;
    CollectNode(map[], t);
    if forall x :: LeafOf(t, x) ==> x.key != k {
      assert forall x :: x in SubNodes(t) && x.kind == Leaf ==> LeafOf(t, x);
    }
  }

  // ---- what a diff says ----

  ghost predicate PriorLeaf(prior: Option<Node>, y: Node) {
    prior.Some? && LeafOf(prior.value, y)
  }

  ghost predicate NoLeaf(t: Option<Node>, k: string) {
    forall x :: PriorLeaf(t, x) ==> x.key != k
  }

  function PriorLeaves(prior: Option<Node>): Leaves {
    if prior.Some? then LeavesOf(prior.value) else map[]
  }

  lemma PriorExactly(prior: Option<Node>, k: string)
    requires prior.Some? ==> Proper(prior.value)
    ensures k in PriorLeaves(prior) <==> !NoLeaf(prior, k)
    ensures forall y :: PriorLeaf(prior, y) && y.key == k ==> k in PriorLeaves(prior) && PriorLeaves(prior)[k] == LeafInfo(y.hash, y.nodeType, y.mod)
  {
    hide LeafOf, LeavesOf, Proper;
    if prior.Some? {
      LeavesExactly(prior.value, k);
      assert forall x :: LeafOf(prior.value, x) <==> PriorLeaf(prior, x);
    }
  }

  /** A leaf of the current tree alone was added; a leaf of both with another hash was modified; a leaf of the old tree alone was removed. */
  ghost predicate SaysSo(current: Node, prior: Option<Node>, c: LeafChange) {
    match c.kind
    case LeafAdded =>
      c.oldHash == "" && NoLeaf(prior, c.key)
      && exists x :: LeafOf(current, x) && x.key == c.key && c.newHash == x.hash && c.nodeType == x.nodeType && c.mod == x.mod
    case LeafModified =>
      c.oldHash != c.newHash
      && (exists x :: LeafOf(current, x) && x.key == c.key && c.newHash == x.hash && c.nodeType == x.nodeType && c.mod == x.mod)
      && (exists y :: PriorLeaf(prior, y) && y.key == c.key && c.oldHash == y.hash)
    case LeafRemoved =>
      c.newHash == "" && NoLeaf(Some(current), c.key)
      && exists y :: PriorLeaf(prior, y) && y.key == c.key && c.oldHash == y.hash && c.nodeType == y.nodeType && c.mod == y.mod
  }

  lemma ChangeSays(current: Node, prior: Option<Node>, c: LeafChange)
    requires Proper(current) && (prior.Some? ==> Proper(prior.value))
    ensures ChangeAt(LeavesOf(current), PriorLeaves(prior), c.key) == Some(c) <==> SaysSo(current, prior, c)
  {
    hide LeafOf, LeavesOf, Proper;
    LeavesExactly(current, c.key);
    PriorExactly(prior, c.key);
    assert forall x :: LeafOf(current, x) <==> PriorLeaf(Some(current), x);
  }

  /** A diff of two trees lists exactly what became of their leaves, strictly by key. */
  lemma DiffSays(current: Node, prior: Option<Node>, changes: seq<LeafChange>)
    requires Proper(current) && (prior.Some? ==> Proper(prior.value))
    requires IsDiff(LeavesOf(current), PriorLeaves(prior), changes)
    ensures forall c :: c in changes <==> SaysSo(current, prior, c)
    ensures forall i, j :: 0 <= i < j < |changes| ==> Less(changes[i].key, changes[j].key)
  {
    hide SaysSo, ChangeAt, LeavesOf, Proper;
    forall c
      ensures c in changes <==> SaysSo(current, prior, c)
    {
      ChangeSays(current, prior, c);
    }
  }

  // ---- what a snapshot holds ----

  /** The flat map of a tree: one entry per node, with its own fields and its children's keys in order. */
  lemma SnapshotLists(t: Node)
    requires DistinctKeys(SubNodes(t))
    ensures SnapshotOf(t).rootHash == t.hash && SnapshotOf(t).rootKey == t.key
    ensures forall k :: k in SnapshotOf(t).nodes <==> exists x :: x in SubNodes(t) && x.key == k
    ensures forall x :: x in SubNodes(t) ==>
              x.key in SnapshotOf(t).nodes &&
              var n := SnapshotOf(t).nodes[x.key];
              && n.hash == x.hash && n.kind == x.kind && n.nodeType == x.nodeType && n.mod == x.mod
              && |n.children| == |x.children| && forall i :: 0 <= i < |x.children| ==> n.children[i] == x.children[i].key
  {
    hide DistinctKeys, FlatInto;
    FlatHolds(map[], t);
    forall k | forall x :: x in SubNodes(t) ==> x.key != k
      ensures k !in SnapshotOf(t).nodes
    {
    }
  }
}
