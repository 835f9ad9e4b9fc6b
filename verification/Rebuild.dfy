/**
 Rebuilding a tree from its flat snapshot: when the recursion ends, what it ends
 with, and the round trip.
 */
module Rebuild {
  import opened Results
  import opened Order
  import Graph
  import opened Merkle

  type Nodes = map<string, SnapshotNode>

  // ---- the recursion ----

  /** The rebuild from a key with at most `depth` calls on the stack; nothing when that is not enough. */
  function Descend(nodes: Nodes, key: string, depth: nat): Option<Result<Node, LoadError>>
    decreases depth, 0, 0
  {
    if depth == 0 then
      None
    else if key !in nodes then
      Some(Err(MissingNode(key)))
    else
      var sn, children := nodes[key], DescendAll(nodes, nodes[key].children, depth - 1);
      if children.None? then None
      else if children.value.Err? then Some(Err(children.value.error))
      else Some(Ok(Node(key, sn.hash, sn.kind, sn.nodeType, sn.mod, children.value.value)))
  }

  /** The children in order, up to the first that fails. */
  function DescendAll(nodes: Nodes, keys: seq<string>, depth: nat): (r: Option<Result<seq<Node>, LoadError>>)
    decreases depth, 1, |keys|
  {
    if keys == [] then
      Some(Ok([]))
    else
      var before := DescendAll(nodes, keys[..|keys| - 1], depth);
      if before.None? || before.value.Err? then
        before
      else
        var child := Descend(nodes, keys[|keys| - 1], depth);
        if child.None? then None
        else if child.value.Err? then Some(Err(child.value.error))
        else Some(Ok(before.value.value + [child.value.value]))
  }

  /** The rebuild from a key ends, with this result. */
  ghost predicate Ends(nodes: Nodes, key: string, r: Result<Node, LoadError>) {
    exists d: nat :: Descend(nodes, key, d) == Some(r)
  }

  lemma {:induction false} DeeperSame(nodes: Nodes, key: string, d: nat, e: nat)
    requires d <= e && Descend(nodes, key, d).Some?
    ensures Descend(nodes, key, e) == Descend(nodes, key, d)
    decreases d, 0, 0
  {
    if key in nodes {
      DeeperAllSame(nodes, nodes[key].children, d - 1, e - 1);
    }
  }

  lemma {:induction false} DeeperAllSame(nodes: Nodes, keys: seq<string>, d: nat, e: nat)
    requires d <= e && DescendAll(nodes, keys, d).Some?
    ensures DescendAll(nodes, keys, e) == DescendAll(nodes, keys, d)
    decreases d, 1, |keys|
  {
    if keys != [] {
      var init := keys[..|keys| - 1];
      DeeperAllSame(nodes, init, d, e);
      if DescendAll(nodes, init, d).value.Ok? {
        DeeperSame(nodes, keys[|keys| - 1], d, e);
      }
    }
  }

  /** There is at most one result. */
  lemma OneEnd(nodes: Nodes, key: string, r: Result<Node, LoadError>, t: Result<Node, LoadError>)
    requires Ends(nodes, key, r) && Ends(nodes, key, t)
    ensures r == t
  {
    var d: nat :| Descend(nodes, key, d) == Some(r);
    var e: nat :| Descend(nodes, key, e) == Some(t);
    if d <= e {
      DeeperSame(nodes, key, d, e);
    } else {
      DeeperSame(nodes, key, e, d);
    }
  }

  // ---- what the flat map looks like from a key ----

  predicate Child(nodes: Nodes, a: string, b: string) {
    a in nodes && b in nodes[a].children
  }

  /** A way down: each key a child of the one before. */
  ghost predicate Path(nodes: Nodes, p: seq<string>) {
    p != [] && forall i {:trigger p[i]} :: 0 < i < |p| ==> Child(nodes, p[i - 1], p[i])
  }

  /** Every way down from the key stays in the map and comes by no key twice. */
  ghost predicate Whole(nodes: Nodes, key: string) {
    forall p {:trigger Path(nodes, p)} :: Path(nodes, p) && p[0] == key ==> p[|p| - 1] in nodes && NoDuplicates(p)
  }

  ghost predicate AllWhole(nodes: Nodes, keys: seq<string>) {
    forall k :: k in keys ==> Whole(nodes, k)
  }

  /** The recursion comes from a to its child at j: all children before it are whole. */
  ghost predicate Reaches(nodes: Nodes, a: string, b: string, j: nat) {
    a in nodes && j < |nodes[a].children| && nodes[a].children[j] == b && AllWhole(nodes, nodes[a].children[..j])
  }

  ghost predicate Step(nodes: Nodes, a: string, b: string) {
    exists j: nat :: Reaches(nodes, a, b, j)
  }

  /** A stack of calls the recursion comes by. */
  ghost predicate Route(nodes: Nodes, p: seq<string>) {
    p != [] && forall i {:trigger p[i]} :: 0 < i < |p| ==> Step(nodes, p[i - 1], p[i])
  }

  ghost predicate LoopRoute(nodes: Nodes, key: string, p: seq<string>) {
    Route(nodes, p) && p[0] == key && !NoDuplicates(p)
  }

  /** From the key the recursion comes into a loop, before any missing key. */
  ghost predicate LoopReached(nodes: Nodes, key: string) {
    exists p :: LoopRoute(nodes, key, p)
  }

  ghost predicate MissingRoute(nodes: Nodes, key: string, x: string, p: seq<string>) {
    Route(nodes, p) && p[0] == key && p[|p| - 1] == x && x !in nodes
  }

  /** From the key the recursion comes to x, which is not in the map. */
  ghost predicate MissingReached(nodes: Nodes, key: string, x: string) {
    exists p :: MissingRoute(nodes, key, x, p)
  }

  // ---- prefixes of the children ----

  lemma {:induction false} PrefixEnds(nodes: Nodes, keys: seq<string>, d: nat, n: nat)
    requires n <= |keys| && DescendAll(nodes, keys, d).Some?
    ensures DescendAll(nodes, keys[..n], d).Some?
    ensures DescendAll(nodes, keys, d).value.Ok? ==> DescendAll(nodes, keys[..n], d).value.Ok?
    decreases |keys|
  {
    if n < |keys| {
      var init := keys[..|keys| - 1];
      PrefixEnds(nodes, init, d, n);
      assert init[..n] == keys[..n];
    } else {
      assert keys[..n] == keys;
    }
  }

  /** A prefix that fails decides. */
  lemma {:induction false} PrefixFails(nodes: Nodes, keys: seq<string>, d: nat, n: nat)
    requires n <= |keys| && DescendAll(nodes, keys[..n], d).Some? && DescendAll(nodes, keys[..n], d).value.Err?
    ensures DescendAll(nodes, keys, d) == DescendAll(nodes, keys[..n], d)
    decreases |keys| - n
  {
    if n < |keys| {
      assert keys[..n + 1][..n] == keys[..n];
      PrefixFails(nodes, keys, d, n + 1);
    } else {
      assert keys[..n] == keys;
    }
  }

  lemma PrefixNext(nodes: Nodes, keys: seq<string>, d: nat, n: nat)
    requires n < |keys|
    ensures var before, child := DescendAll(nodes, keys[..n], d), Descend(nodes, keys[n], d);
            DescendAll(nodes, keys[..n + 1], d) ==
            if before.None? || before.value.Err? then before
            else if child.None? then None
            else if child.value.Err? then Some(Err(child.value.error))
            else Some(Ok(before.value.value + [child.value.value]))
  {
    assert keys[..n + 1][..n] == keys[..n];
  }

  // ---- a rebuilt tree has a whole key ----

  lemma ChildOk(nodes: Nodes, a: string, b: string, d: nat)
    requires Child(nodes, a, b) && Descend(nodes, a, d).Some? && Descend(nodes, a, d).value.Ok?
    ensures d > 0 && Descend(nodes, b, d - 1).Some? && Descend(nodes, b, d - 1).value.Ok?
  {
    var keys := nodes[a].children;
    var i :| 0 <= i < |keys| && keys[i] == b;
    OkMember(nodes, keys, d - 1, i);
  }

  /** Down a path, the recursion gets by with a smaller depth. */
  lemma {:induction false} OkDown(nodes: Nodes, d: nat, p: seq<string>)
    requires Path(nodes, p) && Descend(nodes, p[0], d).Some? && Descend(nodes, p[0], d).value.Ok?
    ensures |p| <= d && var r := Descend(nodes, p[|p| - 1], d - (|p| - 1)); r.Some? && r.value.Ok?
    decreases |p|
  {
    if |p| > 1 {
      assert Child(nodes, p[0], p[1]);
      ChildOk(nodes, p[0], p[1], d);
      PathTail(nodes, p);
      OkDown(nodes, d - 1, p[1..]);
    }
  }

  lemma PathTail(nodes: Nodes, p: seq<string>)
    requires Path(nodes, p) && |p| > 1
    ensures Path(nodes, p[1..]) && p[1..][0] == p[1]
  {
    var q := p[1..];
    forall i {:trigger q[i]} | 0 < i < |q|
      ensures Child(nodes, q[i - 1], q[i])
    {
      assert p[i + 1] == q[i] && p[i] == q[i - 1];
    }
  }

  lemma PathPart(nodes: Nodes, p: seq<string>, i: nat, j: nat)
    requires Path(nodes, p) && i < j <= |p|
    ensures Path(nodes, p[i..j])
  {
    var q := p[i..j];
    forall k {:trigger q[k]} | 0 < k < |q|
      ensures Child(nodes, q[k - 1], q[k])
    {
      assert p[i + k] == q[k] && p[i + k - 1] == q[k - 1];
    }
  }

  /** A way from a key back to itself leaves the recursion no depth to end at. */
  lemma {:induction false} NoOkLoop(nodes: Nodes, d: nat, p: seq<string>)
    requires Path(nodes, p) && |p| > 1 && p[0] == p[|p| - 1]
    ensures !(Descend(nodes, p[0], d).Some? && Descend(nodes, p[0], d).value.Ok?)
    decreases d
  {
    if Descend(nodes, p[0], d).Some? && Descend(nodes, p[0], d).value.Ok? {
      OkDown(nodes, d, p);
      NoOkLoop(nodes, d - (|p| - 1), p);
    }
  }

  lemma NoRepeat(nodes: Nodes, d: nat, p: seq<string>, i: nat, j: nat)
    requires Path(nodes, p) && i < j < |p|
    requires Descend(nodes, p[0], d).Some? && Descend(nodes, p[0], d).value.Ok?
    ensures p[i] != p[j]
  {
    hide Path, Descend;
    PathPart(nodes, p, 0, i + 1);
    PathPart(nodes, p, i, j + 1);
    var start, round := p[0..i + 1], p[i..j + 1];
    OkDown(nodes, d, start);
    if p[i] == p[j] {
      NoOkLoop(nodes, d - i, round);
    }
  }

  lemma OkWhole(nodes: Nodes, key: string, d: nat)
    requires Descend(nodes, key, d).Some? && Descend(nodes, key, d).value.Ok?
    ensures Whole(nodes, key)
  {
    hide Path, Descend;
    forall p {:trigger Path(nodes, p)} | Path(nodes, p) && p != [] && p[0] == key
      ensures p[|p| - 1] in nodes && NoDuplicates(p)
    {
      OkDown(nodes, d, p);
      OkPresent(nodes, p[|p| - 1], d - (|p| - 1));
      forall i, j | 0 <= i < j < |p|
        ensures p[i] != p[j]
      {
        NoRepeat(nodes, d, p, i, j);
      }
    }
    PathsNotEmpty(nodes);
  }

  lemma OkPresent(nodes: Nodes, key: string, d: nat)
    requires Descend(nodes, key, d).Some? && Descend(nodes, key, d).value.Ok?
    ensures key in nodes
  {
  }

  lemma PathsNotEmpty(nodes: Nodes)
    ensures forall p :: Path(nodes, p) ==> p != []
  {
  }

  // ---- a failure comes from a missing key ----

  lemma {:induction false} OkMember(nodes: Nodes, keys: seq<string>, d: nat, i: nat)
    requires i < |keys| && DescendAll(nodes, keys, d).Some? && DescendAll(nodes, keys, d).value.Ok?
    ensures Descend(nodes, keys[i], d).Some? && Descend(nodes, keys[i], d).value.Ok?
  {
    PrefixEnds(nodes, keys, d, i + 1);
    PrefixNext(nodes, keys, d, i);
  }

  lemma OkAllWhole(nodes: Nodes, keys: seq<string>, d: nat)
    requires DescendAll(nodes, keys, d).Some? && DescendAll(nodes, keys, d).value.Ok?
    ensures AllWhole(nodes, keys)
  {
    forall k | k in keys
      ensures Whole(nodes, k)
    {
      var i :| 0 <= i < |keys| && keys[i] == k;
      OkMember(nodes, keys, d, i);
      OkWhole(nodes, k, d);
    }
  }

  /** Which child failed. */
  lemma {:induction false} FailedAt(nodes: Nodes, keys: seq<string>, d: nat) returns (j: nat)
    requires DescendAll(nodes, keys, d).Some? && DescendAll(nodes, keys, d).value.Err?
    ensures j < |keys| && DescendAll(nodes, keys[..j], d).Some? && DescendAll(nodes, keys[..j], d).value.Ok?
    ensures Descend(nodes, keys[j], d) == Some(Err(DescendAll(nodes, keys, d).value.error))
    decreases |keys|
  {
    var init := keys[..|keys| - 1];
    if DescendAll(nodes, init, d).value.Err? {
      j := FailedAt(nodes, init, d);
      assert init[..j] == keys[..j];
    } else {
      j := |keys| - 1;
    }
  }

  lemma RoutePrepend(nodes: Nodes, a: string, p: seq<string>)
    requires Route(nodes, p) && Step(nodes, a, p[0])
    ensures Route(nodes, [a] + p)
  {
    var q := [a] + p;
    forall i {:trigger q[i]} | 0 < i < |q|
      ensures Step(nodes, q[i - 1], q[i])
    {
      assert q[i] == p[i - 1] && (i > 1 ==> q[i - 1] == p[i - 2]);
    }
  }

  lemma {:induction false} ErrRoute(nodes: Nodes, key: string, d: nat) returns (p: seq<string>)
    requires Descend(nodes, key, d).Some? && Descend(nodes, key, d).value.Err?
    ensures Descend(nodes, key, d).value.error.MissingNode?
    ensures MissingRoute(nodes, key, Descend(nodes, key, d).value.error.key, p)
    decreases d
  {
    if key !in nodes {
      p := [key];
    } else {
      var keys := nodes[key].children;
      var j := FailedAt(nodes, keys, d - 1);
      OkAllWhole(nodes, keys[..j], d - 1);
      var q := ErrRoute(nodes, keys[j], d - 1);
      assert Reaches(nodes, key, keys[j], j);
      RoutePrepend(nodes, key, q);
      p := [key] + q;
    }
  }

  lemma RouteIsPath(nodes: Nodes, p: seq<string>)
    requires Route(nodes, p)
    ensures Path(nodes, p)
  {
    forall i {:trigger p[i]} | 0 < i < |p|
      ensures Child(nodes, p[i - 1], p[i])
    {
      assert Step(nodes, p[i - 1], p[i]);
      var j: nat :| Reaches(nodes, p[i - 1], p[i], j);
    }
  }

  /** A whole key does not fail. */
  lemma WholeNotErr(nodes: Nodes, key: string, d: nat)
    requires Whole(nodes, key) && Descend(nodes, key, d).Some?
    ensures Descend(nodes, key, d).value.Ok?
  {
    if Descend(nodes, key, d).value.Err? {
      var p := ErrRoute(nodes, key, d);
      RouteIsPath(nodes, p);
    }
  }

  // ---- the recursion ends exactly when it comes into no loop ----

  /** The recursion gets past whole children. */
  lemma WholePass(nodes: Nodes, keys: seq<string>, d: nat)
    requires AllWhole(nodes, keys) && DescendAll(nodes, keys, d).Some?
    ensures DescendAll(nodes, keys, d).value.Ok?
  {
    hide Whole;
    if DescendAll(nodes, keys, d).value.Err? {
      var i := FailedAt(nodes, keys, d);
      WholeNotErr(nodes, keys[i], d);
    }
  }

  /** Where the recursion from a ends, so does the one it starts from a at b. */
  lemma StepEnds(nodes: Nodes, a: string, b: string, d: nat)
    requires Step(nodes, a, b) && Descend(nodes, a, d).Some?
    ensures d > 0 && Descend(nodes, b, d - 1).Some?
  {
    hide AllWhole;
    var j: nat :| Reaches(nodes, a, b, j);
    var keys := nodes[a].children;
    PrefixEnds(nodes, keys, d - 1, j + 1);
    PrefixNext(nodes, keys, d - 1, j);
    PrefixEnds(nodes, keys, d - 1, j);
    WholePass(nodes, keys[..j], d - 1);
  }

  lemma RouteTail(nodes: Nodes, p: seq<string>)
    requires Route(nodes, p) && |p| > 1
    ensures Route(nodes, p[1..]) && Step(nodes, p[0], p[1])
  {
    var q := p[1..];
    forall i {:trigger q[i]} | 0 < i < |q|
      ensures Step(nodes, q[i - 1], q[i])
    {
      assert p[i + 1] == q[i] && p[i] == q[i - 1];
    }
    assert p[1] == p[1];
  }

  lemma RoutePart(nodes: Nodes, p: seq<string>, i: nat, j: nat)
    requires Route(nodes, p) && i < j <= |p|
    ensures Route(nodes, p[i..j])
  {
    hide Step;
    var q := p[i..j];
    forall k {:trigger q[k]} | 0 < k < |q|
      ensures Step(nodes, q[k - 1], q[k])
    {
      assert p[i + k] == q[k] && p[i + k - 1] == q[k - 1];
    }
  }

  lemma {:induction false} RouteDown(nodes: Nodes, d: nat, p: seq<string>)
    requires Route(nodes, p) && Descend(nodes, p[0], d).Some?
    ensures |p| <= d && Descend(nodes, p[|p| - 1], d - (|p| - 1)).Some?
    decreases |p|
  {
    hide Step;
    NoDepth(nodes, p[0], d);
    if |p| > 1 {
      RouteTail(nodes, p);
      StepEnds(nodes, p[0], p[1], d);
      RouteDown(nodes, d - 1, p[1..]);
    }
  }

  lemma NoDepth(nodes: Nodes, key: string, d: nat)
    requires Descend(nodes, key, d).Some?
    ensures d > 0
  {
  }

  lemma {:induction false} NoLoopEnds(nodes: Nodes, d: nat, p: seq<string>)
    requires Route(nodes, p) && |p| > 1 && p[0] == p[|p| - 1]
    ensures Descend(nodes, p[0], d).None?
    decreases d
  {
    hide Route, Descend;
    if Descend(nodes, p[0], d).Some? {
      RouteDown(nodes, d, p);
      NoLoopEnds(nodes, d - (|p| - 1), p);
    }
  }

  lemma LoopNeverEnds(nodes: Nodes, key: string, d: nat)
    requires LoopReached(nodes, key)
    ensures Descend(nodes, key, d).None?
  {
    hide Route, Descend;
    var p :| LoopRoute(nodes, key, p);
    var i, j :| 0 <= i < j < |p| && p[i] == p[j];
    RoutePart(nodes, p, 0, i + 1);
    RoutePart(nodes, p, i, j + 1);
    if Descend(nodes, key, d).Some? {
      RouteDown(nodes, d, p[0..i + 1]);
      NoLoopEnds(nodes, d - i, p[i..j + 1]);
    }
  }

  lemma RouteExtend(nodes: Nodes, p: seq<string>, c: string)
    requires Route(nodes, p) && Step(nodes, p[|p| - 1], c)
    ensures Route(nodes, p + [c])
  {
    hide Step;
    var q := p + [c];
    forall i {:trigger q[i]} | 0 < i < |q|
      ensures Step(nodes, q[i - 1], q[i])
    {
      if i < |p| {
        assert q[i] == p[i] && q[i - 1] == p[i - 1];
      }
    }
  }

  /** A route without a loop is no longer than the map is large, and one more. */
  lemma RouteBounded(nodes: Nodes, p: seq<string>)
    requires Route(nodes, p) && NoDuplicates(p)
    ensures |p| <= |nodes| + 1 && (p[|p| - 1] in nodes ==> |p| <= |nodes|)
  {
    hide Step;
    var init := p[..|p| - 1];
    forall x | x in init
      ensures x in nodes.Keys
    {
      var i :| 0 <= i < |init| && init[i] == x;
      StepsInMap(nodes, p, i + 1);
    }
    forall i, j | 0 <= i < j < |init|
      ensures init[i] != init[j]
    {
      assert p[i] != p[j];
    }
    Graph.NoDuplicatesBounded(init, nodes.Keys);
    if p[|p| - 1] in nodes {
      assert p == init + [p[|p| - 1]];
      Graph.NoDuplicatesBounded(p, nodes.Keys);
    }
  }

  lemma StepsInMap(nodes: Nodes, p: seq<string>, i: nat)
    requires Route(nodes, p) && 0 < i < |p|
    ensures p[i - 1] in nodes
  {
    assert Step(nodes, p[i - 1], p[i]);
  }

  /** Without a loop on any route on from here, the recursion ends within the room the map leaves. */
  lemma {:induction false} Unfolds(nodes: Nodes, p: seq<string>)
    requires Route(nodes, p) && !LoopReached(nodes, p[0])
    ensures |p| <= |nodes| + 1 && Descend(nodes, p[|p| - 1], |nodes| + 2 - |p|).Some?
    decreases |nodes| + 1 - |p|, 1, 0
  {
    hide Step;
    assert LoopRoute(nodes, p[0], p) || NoDuplicates(p);
    RouteBounded(nodes, p);
    var key := p[|p| - 1];
    if key in nodes {
      UnfoldsAll(nodes, p, |nodes[key].children|);
      var keys := nodes[key].children;
      assert keys[..|keys|] == keys;
    }
  }

  lemma {:induction false} UnfoldsAll(nodes: Nodes, p: seq<string>, n: nat)
    requires Route(nodes, p) && !LoopReached(nodes, p[0]) && |p| <= |nodes|
    requires p[|p| - 1] in nodes && n <= |nodes[p[|p| - 1]].children|
    ensures DescendAll(nodes, nodes[p[|p| - 1]].children[..n], |nodes| + 1 - |p|).Some?
    decreases |nodes| + 1 - |p|, 0, n
  {
    hide LoopReached;
    if n > 0 {
      var key := p[|p| - 1];
      var keys, d := nodes[key].children, |nodes| + 1 - |p|;
      UnfoldsAll(nodes, p, n - 1);
      PrefixNext(nodes, keys, d, n - 1);
      if DescendAll(nodes, keys[..n - 1], d).value.Ok? {
        OkAllWhole(nodes, keys[..n - 1], d);
        assert Reaches(nodes, key, keys[n - 1], n - 1);
        RouteExtend(nodes, p, keys[n - 1]);
        Unfolds(nodes, p + [keys[n - 1]]);
      }
    }
  }

  lemma OneRoute(nodes: Nodes, key: string)
    ensures Route(nodes, [key])
  {
  }

  /** The rebuild from a key ends exactly when it comes into no loop, the keys before the first missing one counted. */
  lemma EndsExactly(nodes: Nodes, key: string)
    ensures (exists r :: Ends(nodes, key, r)) <==> !LoopReached(nodes, key)
  {
    hide Descend, LoopReached;
    if LoopReached(nodes, key) {
      forall d: nat
        ensures Descend(nodes, key, d).None?
      {
        LoopNeverEnds(nodes, key, d);
      }
    } else {
      OneRoute(nodes, key);
      Unfolds(nodes, [key]);
      assert Ends(nodes, key, Descend(nodes, key, |nodes| + 1).value);
    }
  }

  // ---- what it ends with ----

  lemma WholeOk(nodes: Nodes, key: string)
    requires Whole(nodes, key)
    ensures var r := Descend(nodes, key, |nodes| + 1); r.Some? && r.value.Ok?
  {
    hide Descend, Step;
    forall p
      ensures !LoopRoute(nodes, key, p)
    {
      if Route(nodes, p) {
        RouteIsPath(nodes, p);
      }
    }
    OneRoute(nodes, key);
    Unfolds(nodes, [key]);
    WholeNotErr(nodes, key, |nodes| + 1);
  }

  /** It gives a tree exactly when every way down stays in the map and comes by no key twice. */
  lemma OkExactly(nodes: Nodes, key: string)
    ensures (exists t :: Ends(nodes, key, Ok(t))) <==> Whole(nodes, key)
  {
    hide Descend, Whole;
    if t :| Ends(nodes, key, Ok(t)) {
      var d: nat :| Descend(nodes, key, d) == Some(Ok(t));
      OkWhole(nodes, key, d);
    }
    if Whole(nodes, key) {
      WholeOk(nodes, key);
      assert Ends(nodes, key, Ok(Descend(nodes, key, |nodes| + 1).value.value));
    }
  }

  lemma {:induction false} AllWholeOk(nodes: Nodes, keys: seq<string>, d: nat)
    requires AllWhole(nodes, keys) && d > |nodes|
    ensures var r := DescendAll(nodes, keys, d); r.Some? && r.value.Ok?
    decreases |keys|
  {
    hide Whole;
    if keys != [] {
      var last := keys[|keys| - 1];
      AllWholeOk(nodes, keys[..|keys| - 1], d);
      WholeOk(nodes, last);
      DeeperSame(nodes, last, |nodes| + 1, d);
    }
  }

  /** A route to a missing key: the recursion ends with that key. */
  lemma {:induction false} RouteFails(nodes: Nodes, p: seq<string>) returns (d: nat)
    requires Route(nodes, p) && p[|p| - 1] !in nodes
    ensures Descend(nodes, p[0], d) == Some(Err(MissingNode(p[|p| - 1])))
    decreases |p|
  {
    hide Step;
    if |p| == 1 {
      d := 1;
    } else {
      RouteTail(nodes, p);
      var e := RouteFails(nodes, p[1..]);
      d := StepFails(nodes, p[0], p[1], e);
    }
  }

  lemma StepFails(nodes: Nodes, a: string, b: string, e: nat) returns (d: nat)
    requires Step(nodes, a, b) && Descend(nodes, b, e).Some? && Descend(nodes, b, e).value.Err?
    ensures Descend(nodes, a, d) == Descend(nodes, b, e)
  {
    hide AllWhole;
    var j: nat :| Reaches(nodes, a, b, j);
    var keys := nodes[a].children;
    d := if e <= |nodes| then |nodes| + 1 else e;
    DeeperSame(nodes, b, e, d);
    AllWholeOk(nodes, keys[..j], d);
    PrefixNext(nodes, keys, d, j);
    PrefixFails(nodes, keys, d, j + 1);
    d := d + 1;
  }

  /** It fails exactly with the missing key it comes to, all children passed on the way being whole. */
  lemma FailsExactly(nodes: Nodes, key: string, x: string)
    ensures Ends(nodes, key, Err(MissingNode(x))) <==> MissingReached(nodes, key, x)
  {
    hide Descend, Route;
    if Ends(nodes, key, Err(MissingNode(x))) {
      var d: nat :| Descend(nodes, key, d) == Some(Err(MissingNode(x)));
      var p := ErrRoute(nodes, key, d);
    }
    if p :| MissingRoute(nodes, key, x, p) {
      var d := RouteFails(nodes, p);
    }
  }

  /** A key among its own children: the recursion has no end. */
  lemma LoopedSnapshot(nodes: Nodes, key: string)
    requires key in nodes && nodes[key].children == [key]
    ensures LoopReached(nodes, key) && forall r :: !Ends(nodes, key, r)
  {
    hide Descend;
    var p := [key, key];
    assert Reaches(nodes, key, key, 0) by {
      assert nodes[key].children[..0] == [];
    }
    assert Step(nodes, p[0], p[1]);
    assert !NoDuplicates(p) by {
      assert p[0] == p[1];
    }
    assert LoopRoute(nodes, key, p);
    EndsExactly(nodes, key);
  }

  /** The same loop behind a missing key: the recursion ends there, and never comes to the loop. */
  lemma LoopBehindMissing(nodes: Nodes, root: string, gone: string, looped: string)
    requires root in nodes && nodes[root].children == [gone, looped] && gone !in nodes
    requires looped in nodes && nodes[looped].children == [looped]
    ensures Ends(nodes, root, Err(MissingNode(gone))) && !LoopReached(nodes, root)
  {
    hide Descend, Whole;
    var p := [root, gone];
    assert Reaches(nodes, root, gone, 0) by {
      assert nodes[root].children[..0] == [];
    }
    assert Step(nodes, p[0], p[1]);
    assert MissingRoute(nodes, root, gone, p);
    FailsExactly(nodes, root, gone);
    EndsExactly(nodes, root);
  }

  // ---- as the program runs it ----

  /** Recursion on the keys; `depth` bounds the stack of a rebuild that ends. */
  method RebuildNode(nodes: Nodes, key: string, ghost depth: nat) returns (r: Result<Node, LoadError>)
    requires Descend(nodes, key, depth).Some?
    ensures Some(r) == Descend(nodes, key, depth)
    decreases depth
  {
    if key !in nodes {
      return Err(MissingNode(key));
    }
    var sn := nodes[key];
    var children: seq<Node> := [];
    for i := 0 to |sn.children|
      invariant DescendAll(nodes, sn.children[..i], depth - 1) == Some(Ok(children))
    {
      PrefixEnds(nodes, sn.children, depth - 1, i + 1);
      PrefixNext(nodes, sn.children, depth - 1, i);
      var child := RebuildNode(nodes, sn.children[i], depth - 1);
      if child.Err? {
        PrefixFails(nodes, sn.children, depth - 1, i + 1);
        return Err(child.error);
      }
      children := children + [child.value];
    }
    assert sn.children[..|sn.children|] == sn.children;
    return Ok(Node(key, sn.hash, sn.kind, sn.nodeType, sn.mod, children));
  }

  /** What loading a snapshot answers. */
  ghost predicate Loads(snap: Snapshot, r: Result<Node, LoadError>) {
    if snap.rootKey == "" then r == Err(MissingRootKey)
    else if snap.rootKey !in snap.nodes then r == Err(MissingRoot(snap.rootKey))
    else Ends(snap.nodes, snap.rootKey, r)
  }

  method RebuildTree(snap: Snapshot) returns (r: Result<Node, LoadError>)
    requires snap.rootKey != "" ==> !LoopReached(snap.nodes, snap.rootKey)
    ensures Loads(snap, r)
  {
    if snap.rootKey == "" {
      return Err(MissingRootKey);
    }
    if snap.rootKey !in snap.nodes {
      return Err(MissingRoot(snap.rootKey));
    }
    EndsExactly(snap.nodes, snap.rootKey);
    ghost var t :| Ends(snap.nodes, snap.rootKey, t);
    ghost var d: nat :| Descend(snap.nodes, snap.rootKey, d) == Some(t);
    r := RebuildNode(snap.nodes, snap.rootKey, d);
  }

  // ---- the round trip ----

  /** Where the flat map holds a tree's nodes, rebuilding from its root gives the tree back. */
  lemma {:induction false} RebuildExact(nodes: Nodes, n: Node) returns (d: nat)
    requires Holds(nodes, SubNodes(n))
    ensures Descend(nodes, n.key, d) == Some(Ok(n))
    decreases n, 1
  {
    assert n in SubNodes(n);
    d := RebuildAllExact(nodes, n.children);
    d := d + 1;
  }

  lemma {:induction false} RebuildAllExact(nodes: Nodes, ns: seq<Node>) returns (d: nat)
    requires Holds(nodes, AllSubNodes(ns))
    ensures DescendAll(nodes, KeysOf(ns), d) == Some(Ok(ns))
    decreases ns, 0
  {
    if ns == [] {
      d := 0;
    } else {
      hide Descend, DescendAll, Holds, SubNodes;
      var init, last := ns[..|ns| - 1], ns[|ns| - 1];
      HoldsParts(nodes, AllSubNodes(init), SubNodes(last));
      var a := RebuildAllExact(nodes, init);
      var b := RebuildExact(nodes, last);
      d := if a < b then b else a;
      DeeperAllSame(nodes, KeysOf(init), a, d);
      DeeperSame(nodes, last.key, b, d);
      assert ns == init + [last];
      OneMore(nodes, init, last, d);
    }
  }

  lemma OneMore(nodes: Nodes, init: seq<Node>, last: Node, d: nat)
    requires DescendAll(nodes, KeysOf(init), d) == Some(Ok(init)) && Descend(nodes, last.key, d) == Some(Ok(last))
    ensures DescendAll(nodes, KeysOf(init + [last]), d) == Some(Ok(init + [last]))
  {
    hide Descend;
    var keys := KeysOf(init + [last]);
    assert keys[..|keys| - 1] == KeysOf(init);
  }

  lemma HoldsParts(nodes: Nodes, a: seq<Node>, b: seq<Node>)
    requires Holds(nodes, a + b)
    ensures Holds(nodes, a) && Holds(nodes, b)
  {
    forall x | x in a || x in b
      ensures x in a + b
    {
    }
  }

  /** Round trip: a tree with distinct keys comes back from its snapshot as it was, child order included. */
  lemma SnapshotRoundTrip(t: Node)
    requires DistinctKeys(SubNodes(t)) && t.key != ""
    ensures !LoopReached(SnapshotOf(t).nodes, t.key)
    ensures forall r :: Loads(SnapshotOf(t), r) <==> r == Ok(t)
  {
    hide Descend, LoopReached;
    var nodes := SnapshotOf(t).nodes;
    FlatHolds(map[], t);
    assert t in SubNodes(t);
    var d := RebuildExact(nodes, t);
    assert Ends(nodes, t.key, Ok(t));
    EndsExactly(nodes, t.key);
    forall r | Ends(nodes, t.key, r)
      ensures r == Ok(t)
    {
      OneEnd(nodes, t.key, r, Ok(t));
    }
  }

  lemma NoChange(leaves: Leaves)
    ensures IsDiff(leaves, leaves, [])
  {
  }

  /** A tree diffed against its own reloaded snapshot shows no change. */
  lemma SelfDiffEmpty(t: Node, reloaded: Node, changes: seq<LeafChange>)
    requires DistinctKeys(SubNodes(t)) && t.key != "" && Loads(SnapshotOf(t), Ok(reloaded))
    requires IsDiff(LeavesOf(t), LeavesOf(reloaded), changes)
    ensures changes == []
  {
    SnapshotRoundTrip(t);
    NoChange(LeavesOf(t));
    DiffUnique(LeavesOf(t), LeavesOf(t), changes, []);
  }
}
