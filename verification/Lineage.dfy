/** Target lineages: thresholds, replacement, and the stored path
    (`cacheon/settlement.py`, `cacheon/chain/arena_state.py`). */
module Lineage {
  import opened Orders
  import opened Wrappers

  /** One crowned edge from a parent artifact to its winner; the empty parent is no artifact. */
  datatype Node = Node(artifact: string, parent: string, speedup: real, event: string)

  ghost predicate Contiguous(nodes: seq<Node>) {
    forall i :: 0 < i < |nodes| ==> nodes[i].parent == nodes[i - 1].artifact
  }

  function Artifacts(nodes: seq<Node>): set<string> {
    set n | n in nodes :: n.artifact
  }

  ghost predicate DistinctArtifacts(nodes: seq<Node>) {
    forall i, j :: 0 <= i < j < |nodes| ==> nodes[i].artifact != nodes[j].artifact
  }

  /** What the `TargetLineage` constructor accepts. */
  ghost predicate Path(nodes: seq<Node>) {
    nodes != [] && Contiguous(nodes) && DistinctArtifacts(nodes) && forall n :: n in nodes ==> n.speedup > 1.0
  }

  function Tip(nodes: seq<Node>): string
    requires nodes != []
  {
    nodes[|nodes| - 1].artifact
  }

  function Product(nodes: seq<Node>): real {
    if nodes == [] then 1.0 else nodes[0].speedup * Product(nodes[1..])
  }

  /** Index of the first node whose parent is `artifact`, or the length. */
  function Start(nodes: seq<Node>, artifact: string): (i: nat)
    ensures i <= |nodes|
    ensures i < |nodes| ==> nodes[i].parent == artifact
    ensures forall j :: 0 <= j < i ==> nodes[j].parent != artifact
  {
    if nodes == [] || nodes[0].parent == artifact then 0 else 1 + Start(nodes[1..], artifact)
  }

  datatype Threshold = AtTip | NotInLineage | Beat(product: real, event: string)

  function ThresholdOf(nodes: seq<Node>, artifact: string): Threshold
    requires nodes != []
  {
    if artifact == Tip(nodes) then AtTip
    else
      var i := Start(nodes, artifact);
      if i == |nodes| then NotInLineage else Beat(Product(nodes[i..]), nodes[i].event)
  }

  lemma {:induction false} ProductSnoc(nodes: seq<Node>, n: Node)
    ensures Product(nodes + [n]) == Product(nodes) * n.speedup
  {
    if nodes == [] {
      assert Product([n]) == n.speedup * Product([]);
    } else {
      assert (nodes + [n])[1..] == nodes[1..] + [n];
      ProductSnoc(nodes[1..], n);
    }
  }

  lemma ProductNext(nodes: seq<Node>, start: nat, i: nat)
    requires start <= i < |nodes|
    ensures Product(nodes[start..i + 1]) == Product(nodes[start..i]) * nodes[i].speedup
  {
    assert nodes[start..i + 1] == nodes[start..i] + [nodes[i]];
    ProductSnoc(nodes[start..i], nodes[i]);
  }

  /** Multiplying the speedups one by one from 1 arrives at `product`. */
  ghost predicate Multiplied(nodes: seq<Node>, product: real) {
    exists run: seq<real> :: RunsTo(nodes, run, product)
  }

  ghost predicate RunsTo(nodes: seq<Node>, run: seq<real>, product: real) {
    && |run| == |nodes| + 1 && run[0] == 1.0 && run[|nodes|] == product
    && forall i :: 0 <= i < |nodes| ==> RunStep(nodes, run, i)
  }

  ghost predicate RunStep(nodes: seq<Node>, run: seq<real>, i: nat)
    requires i < |nodes| && |run| == |nodes| + 1
  {
    run[i + 1] == run[i] * nodes[i].speedup
  }

  lemma {:induction false} RunProduct(nodes: seq<Node>, run: seq<real>, product: real, i: nat)
    requires RunsTo(nodes, run, product) && i <= |nodes|
    ensures run[i] == Product(nodes[..i])
  {
    if i > 0 {
      RunProduct(nodes, run, product, i - 1);
      ProductNext(nodes, 0, i - 1);
      assert nodes[0..i - 1] == nodes[..i - 1] && nodes[0..i] == nodes[..i];
      assert RunStep(nodes, run, i - 1);
    }
  }

  lemma {:induction false} SomeRun(nodes: seq<Node>) returns (run: seq<real>)
    ensures RunsTo(nodes, run, Product(nodes))
  {
    if nodes == [] {
      run := [1.0];
    } else {
      var n := |nodes| - 1;
      var before := SomeRun(nodes[..n]);
      ProductNext(nodes, 0, n);
      assert nodes[0..n] == nodes[..n] && nodes[0..n + 1] == nodes;
      run := before + [Product(nodes)];
      RunSnoc(nodes, n, before, Product(nodes[..n]), Product(nodes));
    }
  }

  lemma RunSnoc(nodes: seq<Node>, n: nat, before: seq<real>, p: real, q: real)
    requires n + 1 == |nodes| && RunsTo(nodes[..n], before, p) && q == p * nodes[n].speedup
    ensures RunsTo(nodes, before + [q], q)
  {
    var run := before + [q];
    forall i | 0 <= i < |nodes| ensures RunStep(nodes, run, i) {
      if i < n { assert RunStep(nodes[..n], before, i) && nodes[..n][i] == nodes[i]; }
    }
  }

  lemma ProductMeaning(nodes: seq<Node>, product: real)
    ensures Multiplied(nodes, product) <==> product == Product(nodes)
  {
    var run := SomeRun(nodes);
    if run :| RunsTo(nodes, run, product) {
      RunProduct(nodes, run, product, |nodes|);
      assert nodes[..|nodes|] == nodes;
    }
  }

  /** The path leaves `artifact` at node `i`, and not before. */
  ghost predicate LeavesAt(nodes: seq<Node>, artifact: string, i: int) {
    0 <= i < |nodes| && nodes[i].parent == artifact && forall j :: 0 <= j < i ==> nodes[j].parent != artifact
  }

  /** The speedups crowned since the artifact, multiplied; none at the tip; no threshold off the path. */
  ghost predicate IsThreshold(nodes: seq<Node>, artifact: string, t: Threshold)
    requires nodes != []
  {
    match t
    case AtTip => artifact == nodes[|nodes| - 1].artifact
    case NotInLineage => artifact != nodes[|nodes| - 1].artifact && forall n :: n in nodes ==> n.parent != artifact
    case Beat(product, event) =>
      && artifact != nodes[|nodes| - 1].artifact
      && exists i :: LeavesAt(nodes, artifact, i) && Multiplied(nodes[i..], product) && event == nodes[i].event
  }

  lemma ThresholdMeaning(nodes: seq<Node>, artifact: string, t: Threshold)
    requires nodes != []
    ensures IsThreshold(nodes, artifact, t) <==> t == ThresholdOf(nodes, artifact)
  {
    var i := Start(nodes, artifact);
    if i < |nodes| {
      assert nodes[i] in nodes && LeavesAt(nodes, artifact, i);
      ProductMeaning(nodes[i..], Product(nodes[i..]));
      if t.Beat? { ProductMeaning(nodes[i..], t.product); }
      forall j | LeavesAt(nodes, artifact, j) ensures j == i { }
    }
  }

  /** `threshold_from`: the search, then the running product. */
  method ThresholdFrom(nodes: seq<Node>, artifact: string) returns (t: Threshold)
    requires nodes != []
    ensures t == ThresholdOf(nodes, artifact) && IsThreshold(nodes, artifact, t)
  {
    ThresholdMeaning(nodes, artifact, ThresholdOf(nodes, artifact));
    if artifact == Tip(nodes) {
      return AtTip;
    }
    var start := 0;
    while start < |nodes| && nodes[start].parent != artifact
      invariant start <= |nodes| && forall j :: 0 <= j < start ==> nodes[j].parent != artifact
    {
      start := start + 1;
    }
    if start == |nodes| {
      return NotInLineage;
    }
    var threshold := SpeedupFrom(nodes, start);
    t := Beat(threshold, nodes[start].event);
  }

  method SpeedupFrom(nodes: seq<Node>, start: nat) returns (threshold: real)
    requires start <= |nodes|
    ensures threshold == Product(nodes[start..])
  {
    threshold := 1.0;
    for i := start to |nodes|
      invariant threshold == Product(nodes[start..i])
    {
      ProductNext(nodes, start, i);
      threshold := threshold * nodes[i].speedup;
    }
    assert nodes[start..|nodes|] == nodes[start..];
  }

  // ----- thresholds compose

  lemma {:induction false} ProductConcat(a: seq<Node>, b: seq<Node>)
    ensures Product(a + b) == Product(a) * Product(b)
  {
    if a == [] {
      assert a + b == b;
    } else {
      assert (a + b)[1..] == a[1..] + b;
      ProductConcat(a[1..], b);
    }
  }

  lemma {:induction false} ProductAboveOne(nodes: seq<Node>)
    requires forall n :: n in nodes ==> n.speedup > 1.0
    ensures Product(nodes) >= 1.0 && (nodes != [] ==> Product(nodes) > 1.0)
  {
    if nodes != [] {
      ProductAboveOne(nodes[1..]);
      GrowsByFactor(nodes[0].speedup, Product(nodes[1..]));
    }
  }

  lemma GrowsByFactor(x: real, y: real)
    requires x > 1.0 && y >= 1.0
    ensures x * y > 1.0 && x * y > y && y * x > y
  {
    assert (x - 1.0) * y > 0.0;
  }

  /** The root's parent is not itself on the path. */
  ghost predicate RootFree(nodes: seq<Node>) {
    nodes != [] ==> nodes[0].parent !in Artifacts(nodes)
  }

  lemma ParentsDiffer(nodes: seq<Node>, i: nat, k: nat)
    requires Path(nodes) && RootFree(nodes) && i < k < |nodes|
    ensures nodes[i].parent != nodes[k].parent
  {
    assert nodes[k].parent == nodes[k - 1].artifact && nodes[k - 1] in nodes;
    if i > 0 { assert nodes[i].parent == nodes[i - 1].artifact; }
  }

  lemma ParentNotTip(nodes: seq<Node>, k: nat)
    requires Path(nodes) && RootFree(nodes) && k < |nodes|
    ensures nodes[k].parent != Tip(nodes)
  {
    assert nodes[|nodes| - 1] in nodes;
    if k > 0 { assert nodes[k].parent == nodes[k - 1].artifact; }
  }

  lemma StartOfParent(nodes: seq<Node>, k: nat)
    requires Path(nodes) && RootFree(nodes) && k < |nodes|
    ensures ThresholdOf(nodes, nodes[k].parent) == Beat(Product(nodes[k..]), nodes[k].event)
    ensures Start(nodes, nodes[k].parent) == k
  {
    var i := Start(nodes, nodes[k].parent);
    ParentNotTip(nodes, k);
    if i < k { ParentsDiffer(nodes, i, k); }
  }

  /** From every baseline on the path the threshold is the speedup to any later baseline times its threshold. */
  ghost predicate Composes(nodes: seq<Node>) {
    forall k, m :: 0 <= k < m < |nodes| ==> ComposesAt(nodes, k, m)
  }

  ghost predicate ComposesAt(nodes: seq<Node>, k: nat, m: nat)
    requires k < m < |nodes|
  {
    Extends(ThresholdOf(nodes, nodes[k].parent), Product(nodes[k..m]), ThresholdOf(nodes, nodes[m].parent))
  }

  ghost predicate Extends(p: Threshold, factor: real, q: Threshold) {
    p.Beat? && q.Beat? && p.product == factor * q.product
  }

  lemma Rejoin<T>(s: seq<T>, k: nat, m: nat)
    requires k <= m <= |s|
    ensures s[k..m] + s[m..] == s[k..]
  {
  }

  lemma ProductSplit(nodes: seq<Node>, k: nat, m: nat)
    requires k <= m <= |nodes|
    ensures Product(nodes[k..]) == Product(nodes[k..m]) * Product(nodes[m..])
  {
    var a, b := nodes[k..m], nodes[m..];
    Rejoin(nodes, k, m);
    ProductConcat(a, b);
  }

  lemma ComposesWhenRootFree(nodes: seq<Node>, k: nat, m: nat)
    requires Path(nodes) && RootFree(nodes) && k < m < |nodes|
    ensures ComposesAt(nodes, k, m)
  {
    var x, factor, y := Product(nodes[k..]), Product(nodes[k..m]), Product(nodes[m..]);
    assert x == factor * y by { ProductSplit(nodes, k, m); }
    ExtendsBy(x, nodes[k].event, factor, y, nodes[m].event);
    StartOfParent(nodes, k);
    StartOfParent(nodes, m);
  }

  lemma ExtendsBy(x: real, e: string, factor: real, y: real, f: string)
    requires x == factor * y
    ensures Extends(Beat(x, e), factor, Beat(y, f))
  {
  }

  lemma NoFixedScale(t: Threshold, factor: real)
    requires t.Beat? && factor > 1.0 && t.product > 1.0
    ensures !Extends(t, factor, t)
  {
    GrowsByFactor(factor, t.product);
  }

  lemma BreaksOtherwise(nodes: seq<Node>)
    requires Path(nodes) && |nodes| > 1 && !RootFree(nodes)
    ensures !Composes(nodes)
  {
    var r := nodes[0].parent;
    var n :| n in nodes && n.artifact == r;
    var j :| 0 <= j < |nodes| && nodes[j] == n;
    if j == |nodes| - 1 {
      assert !ComposesAt(nodes, 0, 1);
    } else {
      var m := j + 1;
      assert nodes[m].parent == r && r != Tip(nodes);
      var t := ThresholdOf(nodes, r);
      assert t == Beat(Product(nodes), nodes[0].event) by { assert Start(nodes, r) == 0 && nodes[0..] == nodes; }
      assert forall x :: x in nodes[0..m] ==> x in nodes;
      ProductAboveOne(nodes);
      ProductAboveOne(nodes[0..m]);
      NoFixedScale(t, Product(nodes[0..m]));
      assert !ComposesAt(nodes, 0, m);
    }
  }

  /** Thresholds compose exactly when the root's parent is off the path. */
  lemma ComposesIff(nodes: seq<Node>)
    requires Path(nodes)
    ensures Composes(nodes) <==> |nodes| == 1 || RootFree(nodes)
  {
    if RootFree(nodes) {
      forall k, m | 0 <= k < m < |nodes| ensures ComposesAt(nodes, k, m) { ComposesWhenRootFree(nodes, k, m); }
    } else if |nodes| > 1 {
      BreaksOtherwise(nodes);
    }
  }

  /** A two-node path whose root's parent is its own tip is accepted, and its thresholds do not compose. */
  lemma LoopingRootBreaks(a: string, b: string, event: string)
    requires a != b && a != "" && b != "" && event != ""
    ensures var nodes := [Node(a, b, 2.0, event), Node(b, a, 2.0, event)];
      Path(nodes) && !Composes(nodes)
  {
    var nodes := [Node(a, b, 2.0, event), Node(b, a, 2.0, event)];
    assert nodes[1] in nodes && nodes[1].artifact == b;
    ComposesIff(nodes);
  }

  // ----- an admitted winner replaces the suffix after its baseline

  /** `_lineage_hold_reason` finds no reason: the baseline is the tip, or the threshold is beaten. */
  predicate Clears(nodes: seq<Node>, baseline: string, speedup: real)
    requires nodes != []
  {
    match ThresholdOf(nodes, baseline)
    case AtTip => true
    case NotInLineage => false
    case Beat(product, _) => speedup > product
  }

  /** What stays below the winner: everything up to its baseline. */
  function Kept(nodes: seq<Node>, baseline: string): seq<Node>
    requires nodes != []
  {
    if baseline == Tip(nodes) then nodes else nodes[..Start(nodes, baseline)]
  }

  function Replaced(nodes: seq<Node>, winner: Node): seq<Node>
    requires nodes != []
  {
    Kept(nodes, winner.parent) + [winner]
  }

  lemma KeptEndsAtBaseline(nodes: seq<Node>, winner: Node)
    requires Path(nodes) && RootFree(nodes) && Clears(nodes, winner.parent, winner.speedup)
    ensures Kept(nodes, winner.parent) != [] ==> Tip(Kept(nodes, winner.parent)) == winner.parent
    ensures Kept(nodes, winner.parent) == [] ==> winner.parent == nodes[0].parent
  {
  }

  lemma ContiguousSnoc(kept: seq<Node>, winner: Node)
    requires Contiguous(kept) && (kept != [] ==> Tip(kept) == winner.parent)
    ensures Contiguous(kept + [winner])
  {
  }

  lemma DistinctSnoc(kept: seq<Node>, winner: Node)
    requires DistinctArtifacts(kept) && winner.artifact !in Artifacts(kept)
    ensures DistinctArtifacts(kept + [winner])
  {
    forall i | 0 <= i < |kept| ensures kept[i].artifact != winner.artifact { assert kept[i] in kept; }
  }

  lemma KeptIsPrefix(nodes: seq<Node>, baseline: string)
    requires Path(nodes)
    ensures Contiguous(Kept(nodes, baseline)) && DistinctArtifacts(Kept(nodes, baseline))
    ensures forall n :: n in Kept(nodes, baseline) ==> n.speedup > 1.0
  {
    var kept := Kept(nodes, baseline);
    assert forall i :: 0 <= i < |kept| ==> kept[i] == nodes[i];
    assert forall n :: n in kept ==> n in nodes;
  }

  lemma ReplacementPath(nodes: seq<Node>, winner: Node)
    requires Path(nodes) && RootFree(nodes) && winner.speedup > 1.0
    requires Clears(nodes, winner.parent, winner.speedup)
    requires winner.artifact !in Artifacts(Kept(nodes, winner.parent))
    ensures Path(Replaced(nodes, winner))
  {
    KeptEndsAtBaseline(nodes, winner);
    KeptIsPrefix(nodes, winner.parent);
    ContiguousSnoc(Kept(nodes, winner.parent), winner);
    DistinctSnoc(Kept(nodes, winner.parent), winner);
  }

  lemma KeptAboveOne(nodes: seq<Node>, baseline: string)
    requires nodes != [] && forall n :: n in nodes ==> n.speedup > 1.0
    ensures Product(Kept(nodes, baseline)) >= 1.0
  {
    var kept := Kept(nodes, baseline);
    assert forall n :: n in kept ==> n in nodes;
    ProductAboveOne(kept);
  }

  lemma Halves<T>(s: seq<T>, i: nat)
    requires i <= |s|
    ensures s[..i] + s[i..] == s
  {
  }

  lemma TipProduct(nodes: seq<Node>, winner: Node)
    requires nodes != [] && (forall n :: n in nodes ==> n.speedup > 1.0) && winner.speedup > 1.0
    ensures Product(nodes + [winner]) > Product(nodes)
  {
    ProductSnoc(nodes, winner);
    ProductAboveOne(nodes);
    GrowsByFactor(winner.speedup, Product(nodes));
  }

  lemma BeatProduct(a: seq<Node>, b: seq<Node>, winner: Node)
    requires Product(a) >= 1.0 && winner.speedup > Product(b)
    ensures Product(a + [winner]) > Product(a + b)
  {
    calc {
      Product(a + b);
    ==  { ProductConcat(a, b); }
      Product(a) * Product(b);
    <  { ScaleLess(Product(a), Product(b), winner.speedup); }
      Product(a) * winner.speedup;
    ==  { ProductSnoc(a, winner); }
      Product(a + [winner]);
    }
  }

  lemma ReplacementProduct(nodes: seq<Node>, winner: Node)
    requires nodes != [] && (forall n :: n in nodes ==> n.speedup > 1.0) && winner.speedup > 1.0
    requires Clears(nodes, winner.parent, winner.speedup)
    ensures Product(Replaced(nodes, winner)) > Product(nodes)
  {
    if winner.parent == Tip(nodes) {
      TipProduct(nodes, winner);
    } else {
      KeptAboveOne(nodes, winner.parent);
      var i := Start(nodes, winner.parent);
      Halves(nodes, i);
      BeatProduct(nodes[..i], nodes[i..], winner);
    }
  }

  /** The new path is valid and its root-to-tip product is strictly larger. */
  lemma ReplacementProgress(nodes: seq<Node>, winner: Node)
    requires Path(nodes) && RootFree(nodes) && winner.speedup > 1.0
    requires Clears(nodes, winner.parent, winner.speedup)
    requires winner.artifact !in Artifacts(Kept(nodes, winner.parent))
    ensures Path(Replaced(nodes, winner))
    ensures Product(Replaced(nodes, winner)) > Product(nodes)
  {
    ReplacementPath(nodes, winner);
    ReplacementProduct(nodes, winner);
  }

  lemma ScaleLess(c: real, x: real, y: real)
    requires c > 0.0 && x < y
    ensures c * x < c * y
  {
  }

  // ----- the stored lineage

  /** Rows of `target_lineage_nodes` for one target, keyed by artifact. */
  type Store = map<string, Node>

  ghost predicate Keyed(store: Store) {
    "" !in store && forall a :: a in store ==> store[a].artifact == a && store[a].speedup > 1.0
  }

  ghost predicate Stored(store: Store, nodes: seq<Node>) {
    forall i :: 0 <= i < |nodes| ==> nodes[i].artifact in store && store[nodes[i].artifact] == nodes[i]
  }

  /** Reopening from `tip` yields `nodes`: parents are followed until one is not stored. */
  ghost predicate StoredPath(store: Store, tip: string, nodes: seq<Node>) {
    Trail(store, tip, nodes) && DistinctArtifacts(nodes)
  }

  ghost predicate Trail(store: Store, tip: string, nodes: seq<Node>) {
    nodes != [] && Tip(nodes) == tip && Contiguous(nodes) && Stored(store, nodes) && nodes[0].parent !in store
  }

  lemma StoredPathIsPath(store: Store, tip: string, nodes: seq<Node>)
    requires Keyed(store) && StoredPath(store, tip, nodes)
    ensures Path(nodes) && RootFree(nodes)
  {
    forall n | n in nodes ensures n.speedup > 1.0 && n.artifact in store {
      var i :| 0 <= i < |nodes| && nodes[i] == n;
    }
  }

  /** `path` is where every stored path from the tip must end. */
  ghost predicate CommonEnd(store: Store, tip: string, path: seq<Node>) {
    forall p :: StoredPath(store, tip, p) ==> |path| <= |p| && p[|p| - |path|..] == path
  }

  lemma EndExtends(store: Store, tip: string, path: seq<Node>, artifact: string, p: seq<Node>)
    requires StoredPath(store, tip, p) && |path| <= |p| && p[|p| - |path|..] == path
    requires artifact == (if path == [] then tip else path[0].parent) && artifact in store
    ensures |path| < |p| && p[|p| - |path| - 1..] == [store[artifact]] + path
  {
    var k := |p| - |path|;
    if path != [] { assert p[k] == path[0]; }
    assert k > 0;
    assert p[k - 1].artifact == artifact;
    assert p[k - 1..] == [p[k - 1]] + p[k..];
  }

  lemma SuffixDistinct(p: seq<Node>, k: nat)
    requires k <= |p|
    ensures DistinctArtifacts(p) ==> DistinctArtifacts(p[k..])
  {
  }

  lemma RepeatNotDistinct(node: Node, path: seq<Node>)
    ensures DistinctArtifacts([node] + path) <==> DistinctArtifacts(path) && node.artifact !in Artifacts(path)
  {
    var longer := [node] + path;
    if n :| n in path && n.artifact == node.artifact {
      var i :| 0 <= i < |path| && path[i] == n;
      assert longer[0].artifact == longer[i + 1].artifact;
    } else {
      forall i | 0 <= i < |path| ensures path[i].artifact != node.artifact { assert path[i] in path; }
    }
    assert longer[1..] == path;
    SuffixDistinct(longer, 1);
  }

  /** How far the walk from the tip has come. */
  ghost predicate Walking(store: Store, tip: string, path: seq<Node>, artifact: string) {
    && Contiguous(path) && DistinctArtifacts(path) && Stored(store, path)
    && artifact == (if path == [] then tip else path[0].parent)
    && (path != [] ==> Tip(path) == tip)
    && CommonEnd(store, tip, path)
  }

  lemma WalkExtends(store: Store, tip: string, path: seq<Node>, artifact: string)
    requires Walking(store, tip, path, artifact) && artifact in store
    ensures CommonEnd(store, tip, [store[artifact]] + path)
  {
    forall p | StoredPath(store, tip, p)
      ensures |path| + 1 <= |p| && p[|p| - |path| - 1..] == [store[artifact]] + path
    {
      EndExtends(store, tip, path, artifact, p);
    }
  }

  lemma WalkStep(store: Store, tip: string, path: seq<Node>, artifact: string)
    requires Keyed(store) && Walking(store, tip, path, artifact) && artifact in store && artifact !in Artifacts(path)
    ensures Walking(store, tip, [store[artifact]] + path, store[artifact].parent)
  {
    WalkExtends(store, tip, path, artifact);
    RepeatNotDistinct(store[artifact], path);
  }

  lemma WalkRefused(store: Store, tip: string, path: seq<Node>, artifact: string, p: seq<Node>)
    requires Keyed(store) && Walking(store, tip, path, artifact) && artifact in store && artifact in Artifacts(path)
    ensures !StoredPath(store, tip, p)
  {
    WalkExtends(store, tip, path, artifact);
    RepeatNotDistinct(store[artifact], path);
    if |path| < |p| { SuffixDistinct(p, |p| - |path| - 1); }
  }

  lemma {:induction false} WalkBounded(store: Store, path: seq<Node>)
    requires DistinctArtifacts(path) && Stored(store, path)
    ensures |path| <= |store.Keys|
  {
    var names := seq(|path|, i requires 0 <= i < |path| => path[i].artifact);
    DistinctSize(names);
    SubsetSize(Elements(names), store.Keys);
  }

  /** `target_lineage_tips`: follow parents from the tip, refusing a cycle. */
  method Reopen(store: Store, tip: string) returns (r: Option<seq<Node>>)
    requires Keyed(store)
    ensures r.Some? ==> StoredPath(store, tip, r.value)
    ensures r.None? ==> forall p :: !StoredPath(store, tip, p)
  {
    var path: seq<Node>, artifact := [], tip;
    while artifact in store
      invariant Walking(store, tip, path, artifact)
      decreases |store.Keys| - |path|
    {
      if artifact in Artifacts(path) {
        forall p ensures !StoredPath(store, tip, p) { WalkRefused(store, tip, path, artifact, p); }
        return None;
      }
      WalkStep(store, tip, path, artifact);
      path, artifact := [store[artifact]] + path, store[artifact].parent;
      WalkBounded(store, path);
    }
    if path == [] {
      forall p ensures !StoredPath(store, tip, p) { NoTip(store, tip, p); }
      return None;
    }
    r := Some(path);
  }

  lemma NoTip(store: Store, tip: string, p: seq<Node>)
    requires tip !in store
    ensures !StoredPath(store, tip, p)
  {
  }

  // ----- writing a crown and reopening

  /** `_write_lineage`: the winner's row replaces any row of the same artifact. */
  function Written(store: Store, winner: Node): Store {
    store[winner.artifact := winner]
  }

  /** The winner's artifact is neither kept below it nor the parent of the new root. */
  ghost predicate FreshWinner(nodes: seq<Node>, winner: Node)
    requires nodes != []
  {
    winner.artifact !in Artifacts(Kept(nodes, winner.parent)) && winner.artifact != Replaced(nodes, winner)[0].parent
  }

  /** A fresh winner reopens as the kept prefix followed by the winner. */
  lemma WriteReopens(store: Store, tip: string, nodes: seq<Node>, winner: Node)
    requires Keyed(store) && StoredPath(store, tip, nodes) && winner.speedup > 1.0
    requires Clears(nodes, winner.parent, winner.speedup) && FreshWinner(nodes, winner)
    ensures StoredPath(Written(store, winner), winner.artifact, Replaced(nodes, winner))
  {
    StoredPathIsPath(store, tip, nodes);
    ReplacementPath(nodes, winner);
    KeptEndsAtBaseline(nodes, winner);
    var kept, after := Kept(nodes, winner.parent), Written(store, winner);
    assert forall i :: 0 <= i < |kept| ==> kept[i] == nodes[i];
    forall i | 0 <= i < |kept| ensures kept[i].artifact in after && after[kept[i].artifact] == kept[i] {
      assert kept[i] in kept;
    }
  }

  /** Backwards from the tip a trail has no choice. */
  lemma {:induction false} WalkBack(store: Store, p: seq<Node>, chain: seq<Node>, low: nat, d: nat)
    requires chain != [] && Trail(store, Tip(chain), p) && Contiguous(chain) && low + d < |chain|
    requires Stored(store, chain[low..])
    ensures d < |p| && p[|p| - 1 - d] == chain[|chain| - 1 - d]
  {
    assert forall i :: low <= i < |chain| ==> chain[low..][i - low] == chain[i];
    if d > 0 {
      WalkBack(store, p, chain, low, d - 1);
      assert chain[|chain| - d].parent == chain[|chain| - 1 - d].artifact;
    }
  }

  lemma ParentsStored(store: Store, tip: string, q: seq<Node>, k: nat)
    requires Trail(store, tip, q) && k < |q|
    ensures q[k].parent in store <==> k > 0
  {
    if k > 0 { assert q[k].parent == q[k - 1].artifact; }
  }

  /** A stored path is determined by its tip. */
  lemma PathUnique(store: Store, tip: string, p: seq<Node>, q: seq<Node>)
    requires StoredPath(store, tip, p) && StoredPath(store, tip, q) && |p| <= |q|
    ensures p == q
  {
    var k := |q| - |p|;
    assert p[0..] == p;
    ParentsStored(store, tip, q, k);
    forall i | 0 <= i < |p| ensures p[i] == q[k + i] { WalkBack(store, q, p, 0, |p| - 1 - i); }
    assert p[0] == q[k + 0];
  }

  /** A chain whose lowest parent is its own tip leads every trail back to the tip. */
  lemma TrailRepeats(store: Store, p: seq<Node>, chain: seq<Node>, low: nat)
    requires chain != [] && Trail(store, Tip(chain), p) && Contiguous(chain) && low < |chain|
    requires Stored(store, chain[low..]) && chain[low].parent == Tip(chain)
    ensures !DistinctArtifacts(p)
  {
    var d := |chain| - 1 - low;
    WalkBack(store, p, chain, low, d);
    WalkBack(store, p, chain, low, 0);
    assert chain[low..][d] == chain[|chain| - 1];
    var k := |p| - 1 - d;
    assert p[k].parent in store && k > 0;
    assert p[k - 1].artifact == p[|p| - 1].artifact;
  }

  lemma StoredOnTop(store: Store, nodes: seq<Node>, n: nat, winner: Node, low: nat)
    requires Stored(store, nodes) && low <= n <= |nodes|
    requires forall i :: low <= i < n ==> nodes[i].artifact != winner.artifact
    ensures Stored(Written(store, winner), (nodes[..n] + [winner])[low..])
  {
    var chain := nodes[..n] + [winner];
    forall i | 0 <= i < |chain[low..]|
      ensures chain[low..][i].artifact in Written(store, winner)
      ensures Written(store, winner)[chain[low..][i].artifact] == chain[low..][i]
    {
      assert chain[low..][i] == if low + i < n then nodes[low + i] else winner;
    }
  }

  lemma KeptPrefix(nodes: seq<Node>, winner: Node)
    requires nodes != []
    ensures var n := |Kept(nodes, winner.parent)|; n <= |nodes| && Replaced(nodes, winner) == nodes[..n] + [winner]
  {
    if winner.parent == Tip(nodes) { assert nodes[..|nodes|] == nodes; }
  }

  lemma ReplacedContiguous(nodes: seq<Node>, winner: Node)
    requires Path(nodes) && RootFree(nodes) && Clears(nodes, winner.parent, winner.speedup)
    ensures Contiguous(Replaced(nodes, winner))
  {
    KeptEndsAtBaseline(nodes, winner);
    ContiguousSnoc(Kept(nodes, winner.parent), winner);
  }

  lemma ChainStored(store: Store, tip: string, nodes: seq<Node>, winner: Node, low: nat)
    requires Keyed(store) && StoredPath(store, tip, nodes) && Clears(nodes, winner.parent, winner.speedup)
    requires low < |Replaced(nodes, winner)|
    requires forall i :: low <= i < |Kept(nodes, winner.parent)| ==> nodes[i].artifact != winner.artifact
    ensures Contiguous(Replaced(nodes, winner)) && Stored(Written(store, winner), Replaced(nodes, winner)[low..])
  {
    StoredPathIsPath(store, tip, nodes);
    ReplacedContiguous(nodes, winner);
    KeptPrefix(nodes, winner);
    StoredOnTop(store, nodes, |Kept(nodes, winner.parent)|, winner, low);
  }

  /** A winner that is not fresh leaves a stored lineage that cannot be reopened. */
  lemma StaleWinnerCloses(store: Store, tip: string, nodes: seq<Node>, winner: Node, p: seq<Node>)
    requires Keyed(store) && StoredPath(store, tip, nodes)
    requires Clears(nodes, winner.parent, winner.speedup) && !FreshWinner(nodes, winner)
    ensures !StoredPath(Written(store, winner), winner.artifact, p)
  {
    var kept, chain, after := Kept(nodes, winner.parent), Replaced(nodes, winner), Written(store, winner);
    assert forall i :: 0 <= i < |kept| ==> kept[i] == nodes[i] == chain[i];
    var low := 0;
    if winner.artifact in Artifacts(kept) {
      var n :| n in kept && n.artifact == winner.artifact;
      var i :| 0 <= i < |kept| && kept[i] == n;
      low := i + 1;
    } else {
      forall i | 0 <= i < |kept| ensures nodes[i].artifact != winner.artifact { assert kept[i] in kept; }
    }
    ChainStored(store, tip, nodes, winner, low);
    if Trail(after, winner.artifact, p) { TrailRepeats(after, p, chain, low); }
  }

  /** The lineage reopens after a crown exactly when the winner is fresh. */
  lemma ReopensIffFresh(store: Store, tip: string, nodes: seq<Node>, winner: Node)
    requires Keyed(store) && StoredPath(store, tip, nodes) && winner.speedup > 1.0
    requires Clears(nodes, winner.parent, winner.speedup)
    ensures FreshWinner(nodes, winner) <==> exists p :: StoredPath(Written(store, winner), winner.artifact, p)
    ensures FreshWinner(nodes, winner) ==>
      StoredPath(Written(store, winner), winner.artifact, Replaced(nodes, winner)) &&
      Product(Replaced(nodes, winner)) > Product(nodes)
  {
    if FreshWinner(nodes, winner) {
      WriteReopens(store, tip, nodes, winner);
      StoredPathIsPath(store, tip, nodes);
      ReplacementProduct(nodes, winner);
    } else {
      forall p ensures !StoredPath(Written(store, winner), winner.artifact, p) {
        StaleWinnerCloses(store, tip, nodes, winner, p);
      }
    }
  }

  /** A crown of the tip's own artifact, measured on that tip, is admitted; the lineage cannot be reopened after it. */
  lemma SelfCrownCloses(a: string, first: string, again: string)
    requires a != "" && first != "" && again != ""
    ensures var nodes, winner := [Node(a, "", 2.0, first)], Node(a, a, 3.0, again);
      var store: Store := map[a := nodes[0]];
      && Keyed(store) && StoredPath(store, a, nodes) && Clears(nodes, winner.parent, winner.speedup)
      && forall p :: !StoredPath(Written(store, winner), a, p)
  {
    var nodes, winner := [Node(a, "", 2.0, first)], Node(a, a, 3.0, again);
    var store: Store := map[a := nodes[0]];
    assert nodes[0] in nodes && Kept(nodes, a) == nodes;
    ReopensIffFresh(store, a, nodes, winner);
  }
}
