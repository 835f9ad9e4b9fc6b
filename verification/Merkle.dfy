/**
 Merkle trees, their flat snapshots, and the leaf-level diff between two trees.
 */
module Merkle {
  import opened Results
  import opened Order

  datatype NodeKind = Leaf | Module | Project

  /** `mod` is the identity hash of the owning module, empty at project level. */
  datatype Node = Node(key: string, hash: string, kind: NodeKind, nodeType: string, mod: string, children: seq<Node>)

  datatype LeafInfo = LeafInfo(hash: string, nodeType: string, mod: string)

  datatype SnapshotNode = SnapshotNode(hash: string, kind: NodeKind, nodeType: string, mod: string, children: seq<string>)

  datatype Snapshot = Snapshot(rootHash: string, rootKey: string, nodes: map<string, SnapshotNode>)

  datatype LoadError = MissingRootKey | MissingRoot(key: string) | MissingNode(key: string)

  // ---- leaves ----

  function LeavesInto(leaves: map<string, LeafInfo>, n: Node): map<string, LeafInfo>
    decreases n, 1
  {
    if n.kind == Leaf then
      leaves[n.key := LeafInfo(n.hash, n.nodeType, n.mod)]
    else
      AllLeavesInto(leaves, n.children)
  }

  function AllLeavesInto(leaves: map<string, LeafInfo>, ns: seq<Node>): map<string, LeafInfo>
    decreases ns, 0
  {
    if ns == [] then
      leaves
    else
      LeavesInto(AllLeavesInto(leaves, ns[..|ns| - 1]), ns[|ns| - 1])
  }

  function LeavesOf(n: Node): map<string, LeafInfo> {
    LeavesInto(map[], n)
  }

  method FlattenLeaves(leaves: map<string, LeafInfo>, n: Node) returns (r: map<string, LeafInfo>)
    ensures r == LeavesInto(leaves, n)
    decreases n
  {
    if n.kind == Leaf {
      return leaves[n.key := LeafInfo(n.hash, n.nodeType, n.mod)];
    }
    r := leaves;
    for i := 0 to |n.children|
      invariant r == AllLeavesInto(leaves, n.children[..i])
    {
      assert n.children[..i + 1][..i] == n.children[..i];
      r := FlattenLeaves(r, n.children[i]);
    }
    assert n.children[..|n.children|] == n.children;
  }

  // ---- diff ----

  datatype ChangeType = LeafAdded | LeafRemoved | LeafModified

  datatype LeafChange = LeafChange(key: string, kind: ChangeType, nodeType: string, mod: string, oldHash: string, newHash: string)

  type Leaves = map<string, LeafInfo>

  /** What became of one key between two leaf maps. */
  function ChangeAt(current: Leaves, prior: Leaves, k: string): (r: Option<LeafChange>)
    ensures r.Some? ==> r.value.key == k && (k in current || k in prior)
  {
    if k in current then
      if k !in prior then
        Some(LeafChange(k, LeafAdded, current[k].nodeType, current[k].mod, "", current[k].hash))
      else if current[k].hash != prior[k].hash then
        Some(LeafChange(k, LeafModified, current[k].nodeType, current[k].mod, prior[k].hash, current[k].hash))
      else
        None
    else if k in prior then
      Some(LeafChange(k, LeafRemoved, prior[k].nodeType, prior[k].mod, prior[k].hash, ""))
    else
      None
  }

  predicate KeyLeq(a: LeafChange, b: LeafChange) {
    Leq(a.key, b.key)
  }

  ghost predicate ByKey(changes: seq<LeafChange>) {
    forall i, j :: 0 <= i < j < |changes| ==> Less(changes[i].key, changes[j].key)
  }

  /** The changes between two leaf maps, each key once, ascending. */
  ghost predicate IsDiff(current: Leaves, prior: Leaves, changes: seq<LeafChange>) {
    && ByKey(changes)
    && (forall c :: c in changes <==> ChangeAt(current, prior, c.key) == Some(c))
  }

  /** The changes at `keys`, in whatever order the keys come. */
  method CollectChanges(current: Leaves, prior: Leaves, keys: set<string>) returns (out: seq<LeafChange>)
    ensures NoDuplicates(out)
    ensures forall c :: c in out <==> c.key in keys && ChangeAt(current, prior, c.key) == Some(c)
  {
    out := [];
    var todo := keys;
    while todo != {}
      invariant todo <= keys && NoDuplicates(out)
      invariant forall c :: c in out <==> c.key in keys && c.key !in todo && ChangeAt(current, prior, c.key) == Some(c)
    {
      var k :| k in todo;
      var c := ChangeAt(current, prior, k);
      if c.Some? {
        assert c.value !in out;
        out := out + [c.value];
      }
      todo := todo - {k};
    }
  }

  lemma KeyOrdering()
    ensures Ordering(KeyLeq)
  {
    LeqOrdering();
    forall x, y, z | KeyLeq(x, y) && KeyLeq(y, z)
      ensures KeyLeq(x, z)
    {
      assert Leq(x.key, y.key) && Leq(y.key, z.key);
    }
    forall x: LeafChange, y: LeafChange
      ensures KeyLeq(x, y) || KeyLeq(y, x)
    {
      assert Leq(x.key, y.key) || Leq(y.key, x.key);
    }
  }

  lemma SortedDiff(current: Leaves, prior: Leaves, out: seq<LeafChange>)
    requires NoDuplicates(out) && forall c :: c in out <==> ChangeAt(current, prior, c.key) == Some(c)
    ensures IsDiff(current, prior, SortBy(KeyLeq, out))
  {
    KeyOrdering();
    SortBySorted(KeyLeq, out);
    var r := SortBy(KeyLeq, out);
    assert forall c :: c in r <==> c in multiset(r);
    assert forall c :: c in out <==> c in multiset(out);
    NoDuplicatesMultiset(out);
    MultisetNoDuplicates(r);
    forall i, j | 0 <= i < j < |r|
      ensures Less(r[i].key, r[j].key)
    {
      assert KeyLeq(r[i], r[j]) && r[i] in r && r[j] in r && r[i] != r[j];
    }
  }

  method Diff(current: Node, snapshot: Option<Node>) returns (changes: seq<LeafChange>)
    ensures IsDiff(LeavesOf(current), if snapshot.Some? then LeavesOf(snapshot.value) else map[], changes)
  {
    var currentLeaves := FlattenLeaves(map[], current);
    var snapshotLeaves: Leaves := map[];
    if snapshot.Some? {
      snapshotLeaves := FlattenLeaves(map[], snapshot.value);
    }
    var present := CollectChanges(currentLeaves, snapshotLeaves, currentLeaves.Keys);
    var gone := CollectChanges(currentLeaves, snapshotLeaves, snapshotLeaves.Keys - currentLeaves.Keys);
    DisjointNoDuplicates(present, gone);
    SortedDiff(currentLeaves, snapshotLeaves, present + gone);
    changes := SortBy(KeyLeq, present + gone);
  }

  lemma DisjointNoDuplicates(a: seq<LeafChange>, b: seq<LeafChange>)
    requires NoDuplicates(a) && NoDuplicates(b) && forall c :: c in a ==> c !in b
    ensures NoDuplicates(a + b)
  {
    var s := a + b;
    forall i, j | 0 <= i < j < |s|
      ensures s[i] != s[j]
    {
      if i < |a| <= j {
        assert s[i] in a && s[j] in b;
      }
    }
  }

  // ---- the patch law ----

  function HashesOf(leaves: Leaves): map<string, string> {
    map k | k in leaves :: leaves[k].hash
  }

  /** Applying changes, in order, to a map from key to hash. */
  function Patch(hashes: map<string, string>, changes: seq<LeafChange>): map<string, string> {
    if changes == [] then
      hashes
    else
      var before := Patch(hashes, changes[..|changes| - 1]);
      var c := changes[|changes| - 1];
      if c.kind == LeafRemoved then before - {c.key} else before[c.key := c.newHash]
  }

  function HashAt(hashes: map<string, string>, k: string): Option<string> {
    if k in hashes then Some(hashes[k]) else None
  }

  ghost predicate Mentions(changes: seq<LeafChange>, k: string) {
    exists c :: c in changes && c.key == k
  }

  lemma MentionsNext(init: seq<LeafChange>, c: LeafChange, k: string)
    ensures Mentions(init + [c], k) <==> Mentions(init, k) || c.key == k
  {
    assert c in init + [c];
    assert forall d :: d in init ==> d in init + [c];
  }

  lemma PatchStep(current: Leaves, prior: Leaves, hashes: map<string, string>, changes: seq<LeafChange>, k: string)
    requires changes != [] && ChangeAt(current, prior, changes[|changes| - 1].key) == Some(changes[|changes| - 1])
    ensures HashAt(Patch(hashes, changes), k) ==
            if changes[|changes| - 1].key == k then HashAt(HashesOf(current), k)
            else HashAt(Patch(hashes, changes[..|changes| - 1]), k)
  {
  }

  /** After a prefix of the diff, the keys it covers stand as now and the others as before. */
  lemma {:induction false} PatchPrefix(current: Leaves, prior: Leaves, changes: seq<LeafChange>, n: nat, k: string)
    requires IsDiff(current, prior, changes) && n <= |changes|
    ensures HashAt(Patch(HashesOf(prior), changes[..n]), k) ==
            if Mentions(changes[..n], k) then HashAt(HashesOf(current), k) else HashAt(HashesOf(prior), k)
  {
    hide HashesOf, HashAt, ByKey;
    if n > 0 {
      PatchPrefix(current, prior, changes, n - 1, k);
      var init, c := changes[..n - 1], changes[n - 1];
      assert changes[..n] == init + [c] && changes[..n][..n - 1] == init;
      assert c in changes;
      MentionsNext(init, c, k);
      PatchStep(current, prior, HashesOf(prior), changes[..n], k);
    }
  }

  /** Patch law: applying the diff to the old key-to-hash map yields the current one. */
  lemma PatchYieldsCurrent(current: Leaves, prior: Leaves, changes: seq<LeafChange>)
    requires IsDiff(current, prior, changes)
    ensures Patch(HashesOf(prior), changes) == HashesOf(current)
  {
    var r := Patch(HashesOf(prior), changes);
    forall k
      ensures HashAt(r, k) == HashAt(HashesOf(current), k)
    {
      PatchPrefix(current, prior, changes, |changes|, k);
      assert changes[..|changes|] == changes;
      if !Mentions(changes, k) {
        UnmentionedSame(current, prior, changes, k);
      }
    }
    SameHashes(r, HashesOf(current));
  }

  lemma UnmentionedSame(current: Leaves, prior: Leaves, changes: seq<LeafChange>, k: string)
    requires IsDiff(current, prior, changes) && !Mentions(changes, k)
    ensures HashAt(HashesOf(current), k) == HashAt(HashesOf(prior), k)
  {
    ChangedMentioned(current, prior, changes, k);
  }

  lemma ChangedMentioned(current: Leaves, prior: Leaves, changes: seq<LeafChange>, k: string)
    requires IsDiff(current, prior, changes)
    ensures ChangeAt(current, prior, k).Some? ==> Mentions(changes, k)
  {
    var c := ChangeAt(current, prior, k);
    if c.Some? {
      assert c.value in changes;
    }
  }

  lemma SameHashes(a: map<string, string>, b: map<string, string>)
    requires forall k :: HashAt(a, k) == HashAt(b, k)
    ensures a == b
  {
    assert forall k :: k in a <==> HashAt(a, k).Some?;
    assert forall k :: k in b <==> HashAt(b, k).Some?;
    forall k | k in a
      ensures k in b && a[k] == b[k]
    {
      assert HashAt(a, k) == HashAt(b, k);
    }
  }

  /** Two diffs of the same leaf maps are the same sequence, however the maps were walked. */
  lemma DiffUnique(current: Leaves, prior: Leaves, a: seq<LeafChange>, b: seq<LeafChange>)
    requires IsDiff(current, prior, a) && IsDiff(current, prior, b)
    ensures a == b
  {
    forall i, j | 0 <= i < j < |a|
      ensures a[i] != a[j]
    {
      LessIrreflexive(a[i].key);
    }
    forall i, j | 0 <= i < j < |b|
      ensures b[i] != b[j]
    {
      LessIrreflexive(b[i].key);
    }
    NoDuplicatesMultiset(a);
    NoDuplicatesMultiset(b);
    assert (set c | c in a) == (set c | c in b);
    KeyOrdering();
    LeqOrdering();
    forall x, y | x in a && y in a && KeyLeq(x, y) && KeyLeq(y, x)
      ensures x == y
    {
      assert x.key == y.key;
    }
    SortedUnique(KeyLeq, a, b);
  }

  // ---- snapshots ----

  function KeysOf(ns: seq<Node>): (r: seq<string>)
    ensures |r| == |ns| && forall i :: 0 <= i < |ns| ==> r[i] == ns[i].key
  {
    seq(|ns|, i requires 0 <= i < |ns| => ns[i].key)
  }

  function Entry(n: Node): SnapshotNode {
    SnapshotNode(n.hash, n.kind, n.nodeType, n.mod, KeysOf(n.children))
  }

  function FlatInto(nodes: map<string, SnapshotNode>, n: Node): map<string, SnapshotNode>
    decreases n, 1
  {
    AllFlatInto(nodes[n.key := Entry(n)], n.children)
  }

  function AllFlatInto(nodes: map<string, SnapshotNode>, ns: seq<Node>): map<string, SnapshotNode>
    decreases ns, 0
  {
    if ns == [] then
      nodes
    else
      FlatInto(AllFlatInto(nodes, ns[..|ns| - 1]), ns[|ns| - 1])
  }

  function SnapshotOf(tree: Node): Snapshot {
    Snapshot(tree.hash, tree.key, FlatInto(map[], tree))
  }

  method FlattenTreeToSnapshot(nodes: map<string, SnapshotNode>, n: Node) returns (r: map<string, SnapshotNode>)
    ensures r == FlatInto(nodes, n)
    decreases n
  {
    var children: seq<string> := [];
    for i := 0 to |n.children|
      invariant children == KeysOf(n.children)[..i]
    {
      children := children + [n.children[i].key];
    }
    assert children == KeysOf(n.children);
    r := nodes[n.key := SnapshotNode(n.hash, n.kind, n.nodeType, n.mod, children)];
    for i := 0 to |n.children|
      invariant r == AllFlatInto(nodes[n.key := Entry(n)], n.children[..i])
    {
      assert n.children[..i + 1][..i] == n.children[..i];
      r := FlattenTreeToSnapshot(r, n.children[i]);
    }
    assert n.children[..|n.children|] == n.children;
  }

  // ---- what a flat map holds ----

  /** Every node of a tree, the root first. */
  function SubNodes(n: Node): seq<Node>
    decreases n, 1
  {
    [n] + AllSubNodes(n.children)
  }

  function AllSubNodes(ns: seq<Node>): seq<Node>
    decreases ns, 0
  {
    if ns == [] then [] else AllSubNodes(ns[..|ns| - 1]) + SubNodes(ns[|ns| - 1])
  }

  ghost predicate DistinctKeys(ns: seq<Node>) {
    forall i, j :: 0 <= i < j < |ns| ==> ns[i].key != ns[j].key
  }

  lemma DistinctPart(a: seq<Node>, b: seq<Node>)
    requires DistinctKeys(a + b)
    ensures DistinctKeys(a) && DistinctKeys(b)
    ensures forall x, y :: x in a && y in b ==> x.key != y.key
  {
    var s := a + b;
    forall i, j | 0 <= i < j < |b|
      ensures b[i].key != b[j].key
    {
      assert b[i] == s[|a| + i] && b[j] == s[|a| + j];
    }
    forall i, j | 0 <= i < j < |a|
      ensures a[i].key != a[j].key
    {
      assert a[i] == s[i] && a[j] == s[j];
    }
    forall x, y | x in a && y in b
      ensures x.key != y.key
    {
      var i :| 0 <= i < |a| && a[i] == x;
      var j :| 0 <= j < |b| && b[j] == y;
      assert s[i] == x && s[|a| + j] == y;
    }
  }

  ghost predicate Holds(nodes: map<string, SnapshotNode>, ns: seq<Node>) {
    forall x :: x in ns ==> x.key in nodes && nodes[x.key] == Entry(x)
  }

  ghost predicate Untouched(before: map<string, SnapshotNode>, after: map<string, SnapshotNode>, ns: seq<Node>) {
    forall k :: (forall x :: x in ns ==> x.key != k) ==>
      ((k in after <==> k in before) && (k in before ==> after[k] == before[k]))
  }

  lemma {:induction false} FlatHolds(nodes: map<string, SnapshotNode>, n: Node)
    requires DistinctKeys(SubNodes(n))
    ensures Holds(FlatInto(nodes, n), SubNodes(n)) && Untouched(nodes, FlatInto(nodes, n), SubNodes(n))
    decreases n, 1
  {
    var start := nodes[n.key := Entry(n)];
    DistinctPart([n], AllSubNodes(n.children));
    AllFlatHolds(start, n.children);
    FlatRoot(nodes, n);
  }

  lemma FlatRoot(nodes: map<string, SnapshotNode>, n: Node)
    requires var start, rest := nodes[n.key := Entry(n)], AllSubNodes(n.children);
             && (forall y :: y in rest ==> n.key != y.key)
             && Holds(AllFlatInto(start, n.children), rest) && Untouched(start, AllFlatInto(start, n.children), rest)
    ensures Holds(FlatInto(nodes, n), SubNodes(n)) && Untouched(nodes, FlatInto(nodes, n), SubNodes(n))
  {
    var start, rest, after := nodes[n.key := Entry(n)], AllSubNodes(n.children), FlatInto(nodes, n);
    forall k | forall x :: x in SubNodes(n) ==> x.key != k
      ensures (k in after <==> k in nodes) && (k in nodes ==> after[k] == nodes[k])
    {
      assert n in SubNodes(n);
      assert forall x :: x in rest ==> x in SubNodes(n);
    }
  }

  lemma {:induction false} AllFlatHolds(nodes: map<string, SnapshotNode>, ns: seq<Node>)
    requires DistinctKeys(AllSubNodes(ns))
    ensures Holds(AllFlatInto(nodes, ns), AllSubNodes(ns)) && Untouched(nodes, AllFlatInto(nodes, ns), AllSubNodes(ns))
    decreases ns, 0
  {
    if ns != [] {
      var init, last := ns[..|ns| - 1], ns[|ns| - 1];
      DistinctPart(AllSubNodes(init), SubNodes(last));
      AllFlatHolds(nodes, init);
      FlatHolds(AllFlatInto(nodes, init), last);
      HoldsBoth(nodes, AllFlatInto(nodes, init), AllFlatInto(nodes, ns), AllSubNodes(init), SubNodes(last));
    }
  }

  lemma HoldsBoth(a: map<string, SnapshotNode>, b: map<string, SnapshotNode>, c: map<string, SnapshotNode>, xs: seq<Node>, ys: seq<Node>)
    requires Holds(b, xs) && Untouched(a, b, xs) && Holds(c, ys) && Untouched(b, c, ys)
    requires forall x, y :: x in xs && y in ys ==> x.key != y.key
    ensures Holds(c, xs + ys) && Untouched(a, c, xs + ys)
  {
    forall k | forall x :: x in xs + ys ==> x.key != k
      ensures (k in c <==> k in a) && (k in a ==> c[k] == a[k])
    {
      assert forall x :: x in xs ==> x in xs + ys;
      assert forall x :: x in ys ==> x in xs + ys;
    }
  }
}
