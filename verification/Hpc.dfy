/**
 Staged packsets: the mount graph of a root and selected children, and the lookup a staged job does in it.
 It raises exactly when an excluded boundary is a prefix of the path as spelled, and its answer is that of
 owner resolution exactly under the conditions of LookupRefinesResolution and LookupOnAnyPath.
 */
module Hpc {
  import opened Trees
  import opened Names
  import opened Packs
  import opened Boundaries

  datatype Node = Node(childId: string, path: string)

  datatype Graph = Graph(root: string, included: seq<Node>, excluded: seq<Node>)

  // ---- computing the closure ----

  function NodeOf(b: Boundary): Node {
    Node(b.childId, b.path)
  }

  /** The boundaries whose child is selected (or is not), in order, as nodes. */
  function NodesOf(bs: seq<Boundary>, chosen: set<string>, selected: bool): seq<Node> {
    if bs == [] then []
    else
      NodesOf(bs[..|bs| - 1], chosen, selected)
      + if (bs[|bs| - 1].childId in chosen) == selected then [NodeOf(bs[|bs| - 1])] else []
  }

  function Closure(root: string, bs: seq<Boundary>, chosen: set<string>): Graph {
    Graph(root, [Node(root, ".")] + NodesOf(bs, chosen, true), NodesOf(bs, chosen, false))
  }

  datatype ManifestInfo = ManifestInfo(id: string, boundaries: seq<Boundary>)

  /** The boundaries of an id: those of its last manifest that declares any. */
  function BoundariesOf(manifests: seq<ManifestInfo>, id: string): seq<Boundary> {
    if manifests == [] then []
    else
      var m := manifests[|manifests| - 1];
      if m.id == id && m.boundaries != [] then m.boundaries else BoundariesOf(manifests[..|manifests| - 1], id)
  }

  /** No later manifest declares boundaries of this id. */
  predicate DeclaresLast(manifests: seq<ManifestInfo>, id: string, i: nat) {
    && i < |manifests| && manifests[i].id == id && manifests[i].boundaries != []
    && forall j | i < j < |manifests| :: manifests[j].id == id ==> manifests[j].boundaries == []
  }

  /** The boundaries of an id are those of the last manifest that declares any, and none if none does. */
  lemma {:induction false} BoundariesAreLast(manifests: seq<ManifestInfo>, id: string)
    ensures forall i | 0 <= i < |manifests| && DeclaresLast(manifests, id, i) ::
              BoundariesOf(manifests, id) == manifests[i].boundaries
    ensures BoundariesOf(manifests, id) == [] <==>
            forall i | 0 <= i < |manifests| && manifests[i].id == id :: manifests[i].boundaries == []
    decreases |manifests|
  {
    if manifests != [] {
      var a := manifests[..|manifests| - 1];
      BoundariesAreLast(a, id);
      assert forall i | 0 <= i < |a| :: a[i] == manifests[i];
      forall i | 0 <= i < |manifests| && DeclaresLast(manifests, id, i)
        ensures BoundariesOf(manifests, id) == manifests[i].boundaries
      {
        if i < |a| {
          assert DeclaresLast(a, id, i);
        }
      }
    }
  }

  function Registered(registry: map<string, seq<Boundary>>, id: string): seq<Boundary> {
    if id in registry then registry[id] else []
  }

  method RegisterBoundaries(manifests: seq<ManifestInfo>) returns (registry: map<string, seq<Boundary>>)
    ensures forall id :: Registered(registry, id) == BoundariesOf(manifests, id)
  {
    registry := map[];
    for i := 0 to |manifests|
      invariant forall id :: Registered(registry, id) == BoundariesOf(manifests[..i], id)
    {
      assert manifests[..i + 1][..i] == manifests[..i];
      if manifests[i].boundaries != [] {
        registry := registry[manifests[i].id := manifests[i].boundaries];
      }
    }
    assert manifests[..|manifests|] == manifests;
  }

  method ComputeMountClosure(manifests: seq<ManifestInfo>, root: string, chosen: set<string>)
    returns (r: Result<Graph>)
    ensures r.Ok? <==> exists i | 0 <= i < |manifests| :: manifests[i].id == root
    ensures r.Ok? ==> r.value == Closure(root, BoundariesOf(manifests, root), chosen)
  {
    if !(exists i | 0 <= i < |manifests| :: manifests[i].id == root) {
      return Err(root);
    }
    var registry := RegisterBoundaries(manifests);
    var bs := Registered(registry, root);
    var included, excluded := [Node(root, ".")], [];
    for i := 0 to |bs|
      invariant included == [Node(root, ".")] + NodesOf(bs[..i], chosen, true)
      invariant excluded == NodesOf(bs[..i], chosen, false)
    {
      assert bs[..i + 1][..i] == bs[..i];
      if bs[i].childId in chosen {
        included := included + [NodeOf(bs[i])];
      } else {
        excluded := excluded + [NodeOf(bs[i])];
      }
    }
    assert bs[..|bs|] == bs;
    return Ok(Graph(root, included, excluded));
  }

  /** Every boundary is a node on exactly its side, and nothing else is. */
  lemma {:induction false} NodesAreBoundaries(bs: seq<Boundary>, chosen: set<string>, selected: bool, n: Node)
    ensures n in NodesOf(bs, chosen, selected) <==>
            exists i :: 0 <= i < |bs| && NodeOf(bs[i]) == n && (bs[i].childId in chosen) == selected
    decreases |bs|
  {
    if bs != [] {
      var a, b := bs[..|bs| - 1], bs[|bs| - 1];
      NodesAreBoundaries(a, chosen, selected, n);
      if i :| 0 <= i < |bs| && NodeOf(bs[i]) == n && (bs[i].childId in chosen) == selected {
        if i < |a| {
          assert a[i] == bs[i];
        }
      }
      if n in NodesOf(a, chosen, selected) {
        var i :| 0 <= i < |a| && NodeOf(a[i]) == n && (a[i].childId in chosen) == selected;
        assert bs[i] == a[i];
      }
    }
  }

  // ---- the stable sort by length, longest first ----

  function Inserted(x: Node, s: seq<Node>): seq<Node> {
    if s == [] || |s[0].path| <= |x.path| then [x] + s else [s[0]] + Inserted(x, s[1..])
  }

  function ByLength(nodes: seq<Node>): seq<Node> {
    if nodes == [] then [] else Inserted(nodes[0], ByLength(nodes[1..]))
  }

  predicate LongestFirst(s: seq<Node>) {
    forall i, j | 0 <= i < j < |s| :: |s[i].path| >= |s[j].path|
  }

  lemma {:induction false} InsertedKeeps(x: Node, s: seq<Node>)
    ensures multiset(Inserted(x, s)) == multiset{x} + multiset(s)
    decreases |s|
  {
    if s != [] && |s[0].path| > |x.path| {
      InsertedKeeps(x, s[1..]);
      assert s == [s[0]] + s[1..];
    }
  }

  lemma {:induction false} InsertedBelow(x: Node, s: seq<Node>, n: nat)
    requires |x.path| <= n && forall j | 0 <= j < |s| :: |s[j].path| <= n
    ensures forall j | 0 <= j < |Inserted(x, s)| :: |Inserted(x, s)[j].path| <= n
    decreases |s|
  {
    if s != [] && |s[0].path| > |x.path| {
      InsertedBelow(x, s[1..], n);
    }
  }

  lemma {:induction false} InsertedSorts(x: Node, s: seq<Node>)
    requires LongestFirst(s)
    ensures LongestFirst(Inserted(x, s))
    decreases |s|
  {
    if s != [] && |s[0].path| > |x.path| {
      InsertedSorts(x, s[1..]);
      InsertedBelow(x, s[1..], |s[0].path|);
    }
  }

  /** The sort puts longer paths first and keeps exactly the given nodes. */
  lemma {:induction false} ByLengthSorts(nodes: seq<Node>)
    ensures LongestFirst(ByLength(nodes)) && multiset(ByLength(nodes)) == multiset(nodes)
    decreases |nodes|
  {
    if nodes != [] {
      ByLengthSorts(nodes[1..]);
      InsertedSorts(nodes[0], ByLength(nodes[1..]));
      InsertedKeeps(nodes[0], ByLength(nodes[1..]));
      assert nodes == [nodes[0]] + nodes[1..];
    }
  }

  /** The nodes with paths of one length, in order. */
  function OfLength(nodes: seq<Node>, k: nat): seq<Node> {
    if nodes == [] then [] else (if |nodes[0].path| == k then [nodes[0]] else []) + OfLength(nodes[1..], k)
  }

  lemma {:induction false} InsertedStable(x: Node, s: seq<Node>, k: nat)
    requires LongestFirst(s)
    ensures OfLength(Inserted(x, s), k) == OfLength([x], k) + OfLength(s, k)
    decreases |s|
  {
    assert [x][1..] == [];
    if s == [] || |s[0].path| <= |x.path| {
      assert ([x] + s)[1..] == s;
    } else {
      InsertedStable(x, s[1..], k);
      assert ([s[0]] + Inserted(x, s[1..]))[1..] == Inserted(x, s[1..]);
    }
  }

  lemma OfLengthCons(x: Node, s: seq<Node>, k: nat)
    ensures OfLength([x] + s, k) == OfLength([x], k) + OfLength(s, k)
  {
    assert ([x] + s)[1..] == s && [x][1..] == [];
  }

  /** The sort is stable: nodes with equally long paths keep their order. */
  lemma {:induction false} ByLengthIsStable(nodes: seq<Node>, k: nat)
    ensures OfLength(ByLength(nodes), k) == OfLength(nodes, k)
    decreases |nodes|
  {
    if nodes != [] {
      var x, rest := nodes[0], nodes[1..];
      ByLengthIsStable(rest, k);
      ByLengthSorts(rest);
      InsertedStable(x, ByLength(rest), k);
      OfLengthCons(x, rest, k);
      assert nodes == [x] + rest;
    }
  }

  // ---- lookup ----

  datatype Included = Included(childId: string, path: string, innerPath: string)

  predicate ExclusionCovers(n: Node, clean: string) {
    Under(clean, Stripped(n.path))
  }

  /** A node's path for matching: the root's "." counts as empty. */
  function Prefix(n: Node): string {
    if n.path == "" || n.path == "." then "" else Stripped(n.path)
  }

  predicate Covers(n: Node, clean: string) {
    Prefix(n) == "" || Under(clean, Prefix(n))
  }

  function FirstExclusion(s: seq<Node>, clean: string): Option<Node> {
    if s == [] then None else if ExclusionCovers(s[0], clean) then Some(s[0]) else FirstExclusion(s[1..], clean)
  }

  function FirstCovering(s: seq<Node>, clean: string): Option<Node> {
    if s == [] then None else if Covers(s[0], clean) then Some(s[0]) else FirstCovering(s[1..], clean)
  }

  function RootNode(s: seq<Node>, root: string): Option<Node> {
    if s == [] then None else if s[0].childId == root then Some(s[0]) else RootNode(s[1..], root)
  }

  /** The rest of the path after a prefix; slicing past the end leaves nothing. */
  function Rest(clean: string, prefix: string): string {
    if prefix == "" then clean else if |prefix| <= |clean| then LeftStripped(clean[|prefix|..]) else ""
  }

  function Located(n: Node, clean: string): Included {
    Included(n.childId, clean, Rest(clean, Prefix(n)))
  }

  datatype LookupError = ExcludedChild(node: Node) | NotFound

  datatype Found = Found(at: Included) | Failed(error: LookupError)

  /** Exclusions first, then the longest covering node, then the root node wherever it says it is. */
  function Lookup(g: Graph, relPath: string): Found {
    var clean := Stripped(relPath);
    var exclusion := FirstExclusion(ByLength(g.excluded), clean);
    if exclusion.Some? then Failed(ExcludedChild(exclusion.value))
    else
      var best := FirstCovering(ByLength(g.included), clean);
      var node := if best.Some? then best else RootNode(g.included, g.root);
      if node.Some? then Found(Located(node.value, clean)) else Failed(NotFound)
  }

  /** The loops of the lookup, over the sorted node lists. */
  method StagedLookup(g: Graph, relPath: string) returns (r: Found)
    ensures r == Lookup(g, relPath)
  {
    var clean := Stripped(relPath);
    var sorted := ByLength(g.excluded);
    for i := 0 to |sorted|
      invariant FirstExclusion(sorted, clean) == FirstExclusion(sorted[i..], clean)
    {
      assert sorted[i..][0] == sorted[i] && sorted[i..][1..] == sorted[i + 1..];
      var path := Stripped(sorted[i].path);
      if clean == path || StartsWith(clean, path + "/") {
        return Failed(ExcludedChild(sorted[i]));
      }
    }
    assert sorted[|sorted|..] == [];
    var best := FindCovering(ByLength(g.included), clean);
    if best.None? {
      best := FindRoot(g);
      if best.None? {
        return Failed(NotFound);
      }
    }
    var prefix := if best.value.path == "" || best.value.path == "." then "" else Stripped(best.value.path);
    return Found(Included(best.value.childId, clean, Rest(clean, prefix)));
  }

  method FindCovering(sorted: seq<Node>, clean: string) returns (best: Option<Node>)
    ensures best == FirstCovering(sorted, clean)
  {
    for i := 0 to |sorted|
      invariant FirstCovering(sorted, clean) == FirstCovering(sorted[i..], clean)
    {
      assert sorted[i..][0] == sorted[i] && sorted[i..][1..] == sorted[i + 1..];
      var path := if sorted[i].path == "" || sorted[i].path == "." then "" else Stripped(sorted[i].path);
      if path == "" || clean == path || StartsWith(clean, path + "/") {
        return Some(sorted[i]);
      }
    }
    assert sorted[|sorted|..] == [];
    return None;
  }

  method FindRoot(g: Graph) returns (node: Option<Node>)
    ensures node == RootNode(g.included, g.root)
  {
    for i := 0 to |g.included|
      invariant RootNode(g.included, g.root) == RootNode(g.included[i..], g.root)
    {
      assert g.included[i..][0] == g.included[i] && g.included[i..][1..] == g.included[i + 1..];
      if g.included[i].childId == g.root {
        return Some(g.included[i]);
      }
    }
    assert g.included[|g.included|..] == [];
    return None;
  }

  lemma {:induction false} SomeCovers(s: seq<Node>, clean: string, k: nat)
    requires k < |s| && Covers(s[k], clean)
    ensures FirstCovering(s, clean).Some?
    decreases k
  {
    if k > 0 {
      SomeCovers(s[1..], clean, k - 1);
    }
  }

  lemma DotCovers(g: Graph, clean: string)
    requires Node(g.root, ".") in g.included
    ensures FirstCovering(ByLength(g.included), clean).Some?
  {
    ByLengthSorts(g.included);
    var dot := Node(g.root, ".");
    assert dot in multiset(g.included) && dot in multiset(ByLength(g.included));
    var k :| 0 <= k < |ByLength(g.included)| && ByLength(g.included)[k] == dot;
    SomeCovers(ByLength(g.included), clean, k);
  }

  /** The first match among sorted nodes is the first of the longest matches. */
  lemma {:induction false} FirstCoveringIsLongest(s: seq<Node>, clean: string)
    requires LongestFirst(s)
    ensures FirstCovering(s, clean).Some? ==>
              var f := FirstCovering(s, clean).value;
              && f in s && Covers(f, clean)
              && forall k | 0 <= k < |s| && Covers(s[k], clean) :: |s[k].path| <= |f.path|
    decreases |s|
  {
    if s != [] && !Covers(s[0], clean) {
      FirstCoveringIsLongest(s[1..], clean);
      assert forall k | 0 < k < |s| :: s[k] == s[1..][k - 1];
    }
  }

  /** A match whose path is the first of its length and no match has a longer one is found first. */
  lemma {:induction false} FirstOfLengthWins(s: seq<Node>, clean: string, k: nat)
    requires LongestFirst(s) && OfLength(s, k) != [] && Covers(OfLength(s, k)[0], clean)
    requires forall i | 0 <= i < |s| && Covers(s[i], clean) :: |s[i].path| <= k
    ensures FirstCovering(s, clean) == Some(OfLength(s, k)[0])
    decreases |s|
  {
    if |s[0].path| != k || !Covers(s[0], clean) {
      assert |s[0].path| != k;
      if Covers(s[0], clean) {
        NoneBelow(s, k);
      } else {
        assert forall i | 0 <= i < |s[1..]| :: s[1..][i] == s[i + 1];
        FirstOfLengthWins(s[1..], clean, k);
      }
    }
  }

  lemma {:induction false} NoneBelow(s: seq<Node>, k: nat)
    requires forall i | 0 <= i < |s| :: |s[i].path| < k
    ensures OfLength(s, k) == []
    decreases |s|
  {
    if s != [] {
      NoneBelow(s[1..], k);
    }
  }

  lemma {:induction false} FirstExclusionExact(s: seq<Node>, clean: string)
    ensures FirstExclusion(s, clean).Some? <==> exists k :: 0 <= k < |s| && ExclusionCovers(s[k], clean)
    decreases |s|
  {
    if s != [] {
      FirstExclusionExact(s[1..], clean);
      if k :| 0 <= k < |s| && ExclusionCovers(s[k], clean) {
        if k > 0 {
          assert s[1..][k - 1] == s[k];
        }
      }
      if k :| 0 <= k < |s[1..]| && ExclusionCovers(s[1..][k], clean) {
        assert s[k + 1] == s[1..][k];
      }
    }
  }

  lemma {:induction false} FirstExclusionIsLongest(s: seq<Node>, clean: string)
    requires LongestFirst(s)
    ensures FirstExclusion(s, clean).Some? ==>
              var f := FirstExclusion(s, clean).value;
              && f in s && ExclusionCovers(f, clean)
              && forall k | 0 <= k < |s| && ExclusionCovers(s[k], clean) :: |s[k].path| <= |f.path|
    decreases |s|
  {
    if s != [] && !ExclusionCovers(s[0], clean) {
      FirstExclusionIsLongest(s[1..], clean);
      assert forall k | 0 < k < |s| :: s[k] == s[1..][k - 1];
    }
  }

  lemma {:induction false} FirstCoveringExact(s: seq<Node>, clean: string)
    ensures FirstCovering(s, clean).Some? <==> exists n :: n in s && Covers(n, clean)
    decreases |s|
  {
    if s != [] {
      FirstCoveringExact(s[1..], clean);
      assert forall n :: n in s <==> n == s[0] || n in s[1..];
    }
  }

  lemma {:induction false} RootNodeExact(s: seq<Node>, root: string)
    ensures RootNode(s, root).Some? <==> exists n :: n in s && n.childId == root
    ensures RootNode(s, root).Some? ==> RootNode(s, root).value in s && RootNode(s, root).value.childId == root
    decreases |s|
  {
    if s != [] {
      RootNodeExact(s[1..], root);
      assert forall n :: n in s <==> n == s[0] || n in s[1..];
    }
  }

  /** The path is the boundary's own or lies below it. */
  ghost predicate AtOrBelow(clean: string, path: string) {
    clean == Stripped(path) || (exists rest :: clean == Stripped(path) + "/" + rest)
  }

  lemma UnderMeans(clean: string, path: string)
    ensures Under(clean, Stripped(path)) <==> AtOrBelow(clean, path)
  {
    var p := Stripped(path);
    if StartsWith(clean, p + "/") {
      assert clean == p + "/" + clean[|p| + 1..];
    }
    if rest :| clean == p + "/" + rest {
      assert clean[..|p| + 1] == p + "/";
    }
  }

  /** The node is for the whole tree or for a boundary at or above the path. */
  ghost predicate CoversPath(n: Node, clean: string) {
    n.path == "." || Stripped(n.path) == "" || AtOrBelow(clean, n.path)
  }

  /** Of the excluded nodes at or above the path one with a longest path as written. */
  ghost predicate LongestExcluded(nodes: seq<Node>, n: Node, clean: string) {
    && n in nodes && AtOrBelow(clean, n.path)
    && forall other | other in nodes && AtOrBelow(clean, other.path) :: |other.path| <= |n.path|
  }

  /** The same of the nodes that cover it. */
  ghost predicate LongestCovering(nodes: seq<Node>, n: Node, clean: string) {
    && n in nodes && CoversPath(n, clean)
    && forall other | other in nodes && CoversPath(other, clean) :: |other.path| <= |n.path|
  }

  lemma CoversMeans(n: Node, clean: string)
    ensures Covers(n, clean) <==> CoversPath(n, clean)
  {
    UnderMeans(clean, n.path);
    assert Stripped("") == "";
  }

  /**
   On any graph, computed or not: the lookup names an excluded node at or above the path, a longest one, if
   there is any; otherwise it answers with a longest covering node, or for want of any with a node of the root's
   id; and it finds nothing exactly if there is none of these.
   */
  lemma LookupExactly(g: Graph, relPath: string)
    ensures var r, clean := Lookup(g, relPath), Stripped(relPath);
            && (r.Failed? && r.error.ExcludedChild? <==> exists n :: n in g.excluded && AtOrBelow(clean, n.path))
            && (r.Failed? && r.error.ExcludedChild? ==>
                  LongestExcluded(g.excluded, r.error.node, clean))
            && (r.Found? ==>
                  exists n :: r.at == Located(n, clean) &&
                    (LongestCovering(g.included, n, clean)
                     || (n in g.included && n.childId == g.root
                         && forall m | m in g.included :: !CoversPath(m, clean))))
            && (r == Failed(NotFound) <==>
                  && (forall n | n in g.excluded :: !AtOrBelow(clean, n.path))
                  && (forall n | n in g.included :: !CoversPath(n, clean) && n.childId != g.root))
  {
    ExclusionFound(g.excluded, Stripped(relPath));
    CoveringFound(g.included, Stripped(relPath));
    RootNodeExact(g.included, g.root);
  }

  lemma ExclusionFound(nodes: seq<Node>, clean: string)
    ensures var f := FirstExclusion(ByLength(nodes), clean);
            && (f.Some? <==> exists n :: n in nodes && AtOrBelow(clean, n.path))
            && (f.Some? ==> LongestExcluded(nodes, f.value, clean))
  {
    var s := ByLength(nodes);
    SortedHolds(nodes);
    ByLengthSorts(nodes);
    FirstExclusionExact(s, clean);
    FirstExclusionIsLongest(s, clean);
    forall n: Node ensures ExclusionCovers(n, clean) <==> AtOrBelow(clean, n.path) {
      UnderMeans(clean, n.path);
    }
    if n :| n in nodes && AtOrBelow(clean, n.path) {
      assert n in s;
      var k :| 0 <= k < |s| && s[k] == n;
      assert ExclusionCovers(s[k], clean);
    }
  }

  lemma CoveringFound(nodes: seq<Node>, clean: string)
    ensures var f := FirstCovering(ByLength(nodes), clean);
            && (f.Some? <==> exists n :: n in nodes && CoversPath(n, clean))
            && (f.Some? ==> LongestCovering(nodes, f.value, clean))
  {
    var s := ByLength(nodes);
    SortedHolds(nodes);
    ByLengthSorts(nodes);
    FirstCoveringExact(s, clean);
    FirstCoveringIsLongest(s, clean);
    forall n: Node ensures Covers(n, clean) <==> CoversPath(n, clean) {
      CoversMeans(n, clean);
    }
    forall n | n in nodes && CoversPath(n, clean) && FirstCovering(s, clean).Some?
      ensures |n.path| <= |FirstCovering(s, clean).value.path|
    {
      assert n in s;
      var k :| 0 <= k < |s| && s[k] == n;
      assert Covers(s[k], clean);
    }
  }

  lemma SortedHolds(nodes: seq<Node>)
    ensures forall n :: n in ByLength(nodes) <==> n in nodes
  {
    ByLengthSorts(nodes);
    forall n ensures n in ByLength(nodes) <==> n in nodes {
      assert n in ByLength(nodes) <==> n in multiset(ByLength(nodes));
      assert n in nodes <==> n in multiset(nodes);
    }
  }

  // ---- agreement with owner resolution ----

  /** Boundary paths are written without outer slashes, are not empty and differ. */
  predicate PlainBoundaries(bs: seq<Boundary>) {
    && (forall i | 0 <= i < |bs| :: Stripped(bs[i].path) == bs[i].path && bs[i].path != "")
    && forall i, j | 0 <= i < j < |bs| :: bs[i].path != bs[j].path
  }

  /** Some excluded boundary is the path or above it. */
  predicate TouchesExcluded(bs: seq<Boundary>, chosen: set<string>, clean: string) {
    exists i | 0 <= i < |bs| :: bs[i].childId !in chosen && Under(clean, bs[i].path)
  }

  lemma ExclusionIsExact(root: string, bs: seq<Boundary>, chosen: set<string>, clean: string)
    requires PlainBoundaries(bs)
    ensures FirstExclusion(ByLength(Closure(root, bs, chosen).excluded), clean).Some? <==>
            TouchesExcluded(bs, chosen, clean)
  {
    var nodes := NodesOf(bs, chosen, false);
    var sorted := ByLength(nodes);
    ByLengthSorts(nodes);
    FirstExclusionExact(sorted, clean);
    if k :| 0 <= k < |sorted| && ExclusionCovers(sorted[k], clean) {
      assert sorted[k] in multiset(sorted) && sorted[k] in multiset(nodes);
      NodesAreBoundaries(bs, chosen, false, sorted[k]);
      var i :| 0 <= i < |bs| && NodeOf(bs[i]) == sorted[k] && (bs[i].childId in chosen) == false;
      assert Under(clean, bs[i].path);
    }
    if i :| 0 <= i < |bs| && bs[i].childId !in chosen && Under(clean, bs[i].path) {
      NodesAreBoundaries(bs, chosen, false, NodeOf(bs[i]));
      assert NodeOf(bs[i]) in multiset(nodes) && NodeOf(bs[i]) in multiset(sorted);
      var k :| 0 <= k < |sorted| && sorted[k] == NodeOf(bs[i]);
      assert ExclusionCovers(sorted[k], clean);
    }
  }

  /** Two boundaries of equal length above one path are the same string. */
  lemma SameLengthSamePrefix(clean: string, a: string, b: string)
    requires Under(clean, a) && Under(clean, b) && |a| == |b|
    ensures a == b
  {
    assert a == clean[..|a|] && b == clean[..|b|];
  }

  lemma IncludedNodes(root: string, bs: seq<Boundary>, chosen: set<string>, n: Node)
    ensures n in ByLength(Closure(root, bs, chosen).included) <==>
            n == Node(root, ".") || exists i :: 0 <= i < |bs| && NodeOf(bs[i]) == n && bs[i].childId in chosen
  {
    var nodes := Closure(root, bs, chosen).included;
    ByLengthSorts(nodes);
    NodesAreBoundaries(bs, chosen, true, n);
    assert n in nodes <==> n in multiset(nodes);
    assert n in ByLength(nodes) <==> n in multiset(ByLength(nodes));
  }

  /** Of the one-character nodes of a closure the root's own comes first. */
  lemma RootIsFirstOfItsLength(root: string, bs: seq<Boundary>, chosen: set<string>)
    ensures var s := OfLength(ByLength(Closure(root, bs, chosen).included), 1); s != [] && s[0] == Node(root, ".")
  {
    var nodes := Closure(root, bs, chosen).included;
    ByLengthIsStable(nodes, 1);
    assert nodes[0] == Node(root, ".");
  }

  /** The node the lookup should find: the nearest boundary if its path has two characters or more. */
  function Expected(root: string, bs: seq<Boundary>, clean: string): Node {
    match Nearest(bs, clean)
    case None => Node(root, ".")
    case Some(b) => if |b.path| >= 2 then NodeOf(b) else Node(root, ".")
  }

  /** With no excluded boundary above the path, the lookup finds exactly that node. */
  lemma LookupFindsExpected(root: string, bs: seq<Boundary>, chosen: set<string>, clean: string)
    requires PlainBoundaries(bs) && !TouchesExcluded(bs, chosen, clean)
    ensures FirstCovering(ByLength(Closure(root, bs, chosen).included), clean) == Some(Expected(root, bs, clean))
  {
    if Nearest(bs, clean).Some? && |Nearest(bs, clean).value.path| >= 2 {
      LongBoundaryFound(root, bs, chosen, clean);
    } else {
      RootFound(root, bs, chosen, clean);
    }
  }

  /** A covering node of a closure is the root's, one-character, or matches as a boundary. */
  lemma CoveringNode(root: string, bs: seq<Boundary>, chosen: set<string>, clean: string, n: Node)
    requires PlainBoundaries(bs) && n in ByLength(Closure(root, bs, chosen).included) && Covers(n, clean)
    ensures |n.path| == 1 || exists i :: 0 <= i < |bs| && NodeOf(bs[i]) == n && Matches(bs[i], clean)
  {
    IncludedNodes(root, bs, chosen, n);
    if n != Node(root, ".") {
      var i :| 0 <= i < |bs| && NodeOf(bs[i]) == n && bs[i].childId in chosen;
      assert Stripped(bs[i].path) == bs[i].path;
      assert n.path == "." || Matches(bs[i], clean);
    }
  }

  lemma RootFound(root: string, bs: seq<Boundary>, chosen: set<string>, clean: string)
    requires PlainBoundaries(bs) && (Nearest(bs, clean).Some? ==> |Nearest(bs, clean).value.path| < 2)
    ensures FirstCovering(ByLength(Closure(root, bs, chosen).included), clean) == Some(Node(root, "."))
  {
    var sorted := ByLength(Closure(root, bs, chosen).included);
    ByLengthSorts(Closure(root, bs, chosen).included);
    NearestIsLongest(bs, clean);
    RootIsFirstOfItsLength(root, bs, chosen);
    forall k | 0 <= k < |sorted| && Covers(sorted[k], clean) ensures |sorted[k].path| <= 1 {
      CoveringNode(root, bs, chosen, clean, sorted[k]);
    }
    FirstOfLengthWins(sorted, clean, 1);
  }

  lemma LongBoundaryFound(root: string, bs: seq<Boundary>, chosen: set<string>, clean: string)
    requires PlainBoundaries(bs) && !TouchesExcluded(bs, chosen, clean)
    requires Nearest(bs, clean).Some? && |Nearest(bs, clean).value.path| >= 2
    ensures FirstCovering(ByLength(Closure(root, bs, chosen).included), clean)
            == Some(NodeOf(Nearest(bs, clean).value))
  {
    var b := Nearest(bs, clean).value;
    var g := Closure(root, bs, chosen);
    var sorted := ByLength(g.included);
    ByLengthSorts(g.included);
    DotCovers(g, clean);
    FirstCoveringIsLongest(sorted, clean);
    NearestIsLongest(bs, clean);
    var f := FirstCovering(sorted, clean).value;
    IncludedNodes(root, bs, chosen, f);
    var x :| 0 <= x < |bs| && bs[x] == b;
    IncludedNodes(root, bs, chosen, NodeOf(b));
    var k :| 0 <= k < |sorted| && sorted[k] == NodeOf(b);
    assert Covers(sorted[k], clean);
    var i :| 0 <= i < |bs| && NodeOf(bs[i]) == f && bs[i].childId in chosen;
    assert Stripped(bs[i].path) == bs[i].path;
    assert Matches(bs[i], clean);
    SameLengthSamePrefix(clean, bs[i].path, bs[x].path);
  }

  /**
   What a closure's lookup does, on every path: it raises exactly when an excluded boundary is the
   stripped path or above it, and otherwise answers with the nearest boundary of the stripped path, or
   the root if there is none or its path is a single character.
   */
  lemma LookupIs(root: string, bs: seq<Boundary>, chosen: set<string>, relPath: string)
    requires PlainBoundaries(bs)
    ensures var r, clean := Lookup(Closure(root, bs, chosen), relPath), Stripped(relPath);
            && (r.Failed? <==> TouchesExcluded(bs, chosen, clean))
            && (r.Failed? ==> r.error.ExcludedChild?)
            && (r.Found? ==> r.at == Located(Expected(root, bs, clean), clean))
  {
    var clean := Stripped(relPath);
    ExclusionIsExact(root, bs, chosen, clean);
    if !TouchesExcluded(bs, chosen, clean) {
      LookupFindsExpected(root, bs, chosen, clean);
    }
  }

  /** Paths that stripping outer slashes already normalises. */
  predicate NormalPath(relPath: string) {
    Normalize(relPath) == Stripped(relPath)
  }

  /**
   On normal paths: an excluded owner always makes the lookup raise; an answer is the owner if and only if
   no boundary owns the path, or the owning boundary has at least two characters or the root's id; and then
   path and inner path agree too.
   */
  lemma LookupRefinesResolution(root: string, bs: seq<Boundary>, chosen: set<string>, relPath: string)
    requires PlainBoundaries(bs) && NormalPath(relPath)
    ensures var r, own := Lookup(Closure(root, bs, chosen), relPath), ResolveOwnerPath(bs, relPath, root);
            && (r.Failed? <==> TouchesExcluded(bs, chosen, Stripped(relPath)))
            && (own.boundary.Some? && own.ownerId !in chosen ==> r.Failed?)
            && (r.Found? ==>
                  && (r.at.childId == own.ownerId <==>
                        own.boundary.None? || |own.boundary.value.path| >= 2 || own.ownerId == root)
                  && (own.boundary.None? || |own.boundary.value.path| >= 2 ==>
                        r.at == Included(own.ownerId, own.relativePath, own.innerPath)))
  {
    var clean := Stripped(relPath);
    LookupIs(root, bs, chosen, relPath);
    NearestIsLongest(bs, clean);
    if Nearest(bs, clean).Some? {
      var b := Nearest(bs, clean).value;
      var i :| 0 <= i < |bs| && bs[i] == b;
      assert Stripped(bs[i].path) == bs[i].path && Under(clean, bs[i].path);
    }
  }

  // ---- paths that are not normal ----

  /** How many components the path spells before its first empty or "." piece. */
  function SpelledDepth(relPath: string): nat {
    Spelled(Split(Stripped(relPath)))
  }

  /** The lookup sees a boundary above the path exactly down to the first silent piece. */
  lemma SeenBoundary(b: Boundary, relPath: string)
    requires NormalBoundary(b) && Stripped(b.path) == b.path
    ensures Under(Stripped(relPath), b.path) <==>
            Root(b) <= Components(relPath) && |Root(b)| <= SpelledDepth(relPath)
    ensures Under(Normalize(relPath), b.path) <==> Root(b) <= Components(relPath)
    ensures b.path != ""
  {
    ComponentsAreNormal(b.path);
    UnderIsSpelledPrefix(Stripped(relPath), Root(b));
    SpelledPrefix(Root(b), Split(Stripped(relPath)));
    StrippedComponents(relPath);
    NormalizedPrefix(relPath, Root(b));
  }

  /** Distinct ids, none of them the root's. */
  predicate DistinctIds(bs: seq<Boundary>, root: string) {
    && (forall i | 0 <= i < |bs| :: bs[i].childId != root)
    && forall i, j | 0 <= i < j < |bs| :: bs[i].childId != bs[j].childId
  }

  /** Some excluded boundary above the path lies before its first silent piece. */
  predicate SpelledExcluded(bs: seq<Boundary>, chosen: set<string>, relPath: string) {
    exists i | 0 <= i < |bs| ::
      bs[i].childId !in chosen && Root(bs[i]) <= Components(relPath) && |Root(bs[i])| <= SpelledDepth(relPath)
  }

  lemma ExclusionBySpelling(bs: seq<Boundary>, chosen: set<string>, relPath: string)
    requires PlainBoundaries(bs) && NormalBoundaries(bs)
    ensures TouchesExcluded(bs, chosen, Stripped(relPath)) <==> SpelledExcluded(bs, chosen, relPath)
  {
    forall i | 0 <= i < |bs|
      ensures Under(Stripped(relPath), bs[i].path) <==>
              Root(bs[i]) <= Components(relPath) && |Root(bs[i])| <= SpelledDepth(relPath)
    {
      SeenBoundary(bs[i], relPath);
    }
  }

  /** The nearest boundary of the stripped path is the owner exactly if the path spells the owner's components. */
  lemma NearestBySpelling(bs: seq<Boundary>, relPath: string)
    requires PlainBoundaries(bs) && NormalBoundaries(bs)
    ensures var seen, owner := Nearest(bs, Stripped(relPath)), Nearest(bs, Normalize(relPath));
            && (owner.None? ==> seen.None?)
            && (owner.Some? ==> (seen == owner <==> |Root(owner.value)| <= SpelledDepth(relPath)))
  {
    var a, b := Stripped(relPath), Normalize(relPath);
    NearestIsLongest(bs, a);
    NearestIsLongest(bs, b);
    var seen, owner := Nearest(bs, a), Nearest(bs, b);
    if seen.Some? {
      SeenMatch(bs, relPath, seen.value);
    }
    if owner.Some? {
      SeenMatch(bs, relPath, owner.value);
      if seen.Some? && |Root(owner.value)| <= SpelledDepth(relPath) {
        SamePathSameBoundary(bs, a, seen.value, owner.value);
      }
    }
  }

  lemma SeenMatch(bs: seq<Boundary>, relPath: string, b: Boundary)
    requires PlainBoundaries(bs) && NormalBoundaries(bs) && b in bs
    ensures Matches(b, Stripped(relPath)) <==>
            Root(b) <= Components(relPath) && |Root(b)| <= SpelledDepth(relPath)
    ensures Matches(b, Normalize(relPath)) <==> Root(b) <= Components(relPath)
    ensures exists i :: 0 <= i < |bs| && bs[i] == b
  {
    var i :| 0 <= i < |bs| && bs[i] == b;
    SeenBoundary(bs[i], relPath);
  }

  /** Two boundaries above one path with equally long paths are one boundary. */
  lemma SamePathSameBoundary(bs: seq<Boundary>, clean: string, a: Boundary, b: Boundary)
    requires PlainBoundaries(bs) && a in bs && b in bs && Matches(a, clean) && Matches(b, clean)
    requires |Stripped(a.path)| == |Stripped(b.path)|
    ensures a == b
  {
    SameLengthSamePrefix(clean, Stripped(a.path), Stripped(b.path));
    var x :| 0 <= x < |bs| && bs[x] == a;
    var y :| 0 <= y < |bs| && bs[y] == b;
    assert bs[x].path == bs[y].path;
    assert x < y || x == y || y < x;
  }

  /**
   On every path: the lookup raises exactly when an excluded boundary above the path lies before its first
   silent piece ("." or empty), so an excluded owner is missed only behind one; an answer is the owner if
   and only if no boundary owns the path, or its boundary lies before the first silent piece and has at
   least two characters; and the whole answer is that of owner resolution if and only if the path is also
   normal.
   */
  lemma LookupOnAnyPath(root: string, bs: seq<Boundary>, chosen: set<string>, relPath: string)
    requires PlainBoundaries(bs) && NormalBoundaries(bs) && DistinctIds(bs, root)
    ensures var r, own := Lookup(Closure(root, bs, chosen), relPath), ResolveOwnerPath(bs, relPath, root);
            var sees := own.boundary.None?
                        || (|Root(own.boundary.value)| <= SpelledDepth(relPath) && |own.boundary.value.path| >= 2);
            && (r.Failed? <==> SpelledExcluded(bs, chosen, relPath))
            && (own.boundary.Some? && own.ownerId !in chosen && |Root(own.boundary.value)| <= SpelledDepth(relPath)
                ==> r.Failed?)
            && (r.Found? ==> (r.at.childId == own.ownerId <==> sees))
            && (r.Found? ==>
                  (r.at == Included(own.ownerId, own.relativePath, own.innerPath) <==> sees && NormalPath(relPath)))
  {
    LookupIs(root, bs, chosen, relPath);
    ExclusionBySpelling(bs, chosen, relPath);
    OwnerMissed(root, bs, chosen, relPath);
    AnswerId(root, bs, relPath);
    if NormalPath(relPath) {
      LookupRefinesResolution(root, bs, chosen, relPath);
    }
  }

  /** An excluded owner before the first silent piece is itself an exclusion. */
  lemma OwnerMissed(root: string, bs: seq<Boundary>, chosen: set<string>, relPath: string)
    requires PlainBoundaries(bs) && NormalBoundaries(bs)
    ensures var own := ResolveOwnerPath(bs, relPath, root);
            own.boundary.Some? && own.ownerId !in chosen && |Root(own.boundary.value)| <= SpelledDepth(relPath)
            ==> SpelledExcluded(bs, chosen, relPath)
  {
    NearestIsLongest(bs, Normalize(relPath));
    if Nearest(bs, Normalize(relPath)).Some? {
      var b := Nearest(bs, Normalize(relPath)).value;
      var i :| 0 <= i < |bs| && bs[i] == b;
      SeenBoundary(bs[i], relPath);
    }
  }

  /** The id a boundary stands for, or the root's. */
  function IdOf(b: Option<Boundary>, root: string): string {
    if b.Some? then b.value.childId else root
  }

  /** The boundary whose child answers, if any. */
  function Answering(bs: seq<Boundary>, clean: string): Option<Boundary> {
    var seen := Nearest(bs, clean);
    if seen.Some? && |seen.value.path| >= 2 then seen else None
  }

  lemma AnsweringId(root: string, bs: seq<Boundary>, relPath: string)
    ensures Expected(root, bs, Stripped(relPath)).childId == IdOf(Answering(bs, Stripped(relPath)), root)
    ensures ResolveOwnerPath(bs, relPath, root).ownerId == IdOf(Nearest(bs, Normalize(relPath)), root)
  {
  }

  lemma AnswerId(root: string, bs: seq<Boundary>, relPath: string)
    requires PlainBoundaries(bs) && NormalBoundaries(bs) && DistinctIds(bs, root)
    ensures var own := ResolveOwnerPath(bs, relPath, root);
            Expected(root, bs, Stripped(relPath)).childId == own.ownerId <==>
              own.boundary.None?
              || (|Root(own.boundary.value)| <= SpelledDepth(relPath) && |own.boundary.value.path| >= 2)
  {
    AnsweringId(root, bs, relPath);
    NearestIsLongest(bs, Stripped(relPath));
    NearestIsLongest(bs, Normalize(relPath));
    IdsTell(bs, root, Answering(bs, Stripped(relPath)), Nearest(bs, Normalize(relPath)));
    NearestBySpelling(bs, relPath);
  }

  lemma IdsTell(bs: seq<Boundary>, root: string, a: Option<Boundary>, b: Option<Boundary>)
    requires DistinctIds(bs, root) && (a.Some? ==> a.value in bs) && (b.Some? ==> b.value in bs)
    ensures IdOf(a, root) == IdOf(b, root) <==> a == b
  {
    if a.Some? {
      var x :| 0 <= x < |bs| && bs[x] == a.value;
      if b.Some? {
        var y :| 0 <= y < |bs| && bs[y] == b.value;
        assert x < y || x == y || y < x;
      }
    }
  }

  /** With "./" in front, the path of an excluded child slips past the exclusion: the lookup answers with the root. */
  lemma DottedPathSlipsPast(root: string, b: Boundary)
    requires NormalBoundary(b) && Stripped(b.path) == b.path && b.childId != root
    ensures var bs, relPath := [b], "./" + b.path;
            var r, own := Lookup(Closure(root, bs, {}), relPath), ResolveOwnerPath(bs, relPath, root);
            own.ownerId == b.childId && r.Found? && r.at.childId == root
  {
    var bs, relPath := [b], "./" + b.path;
    DottedSpelling(b);
    assert PlainBoundaries(bs) && NormalBoundaries(bs) && DistinctIds(bs, root);
    assert Root(bs[0]) <= Components(relPath) && Root(bs[0]) != [];
    LookupOnAnyPath(root, bs, {}, relPath);
    OwnerIsLongestPrefix(bs, relPath, root);
    LookupIs(root, bs, {}, relPath);
    NearestBySpelling(bs, relPath);
    NearestIsLongest(bs, Stripped(relPath));
  }

  lemma DottedSpelling(b: Boundary)
    requires NormalBoundary(b) && Stripped(b.path) == b.path
    ensures SpelledDepth("./" + b.path) == 0 && Components("./" + b.path) == Root(b) && b.path != ""
  {
    var relPath := "./" + b.path;
    ComponentsAreNormal(b.path);
    DottedIsStripped(b.path);
    assert Split(relPath) == ["."] + Split(b.path) by {
      SplitAfter(".", b.path);
      assert relPath == "." + "/" + b.path;
    }
    KeptAfterDot(Split(b.path));
  }

  lemma KeptAfterDot(parts: seq<string>)
    ensures Spelled(["."] + parts) == 0 && Kept(["."] + parts) == Kept(parts)
  {
    assert (["."] + parts)[1..] == parts;
  }

  lemma DottedIsStripped(s: string)
    requires s != "" && Stripped(s) == s && s[0] != '/'
    ensures Stripped("./" + s) == "./" + s
  {
    StrippedEnds(s);
    StrippedEnds(LeftStripped(s));
    assert LeftStripped("./" + s) == "./" + s;
    assert s[|s| - 1] != '/';
    assert ("./" + s)[|s| + 1] == s[|s| - 1];
  }

  /**
   The two-character bound is needed: a selected child at a one-character boundary ties with the root's
   "." and is never found, whatever other boundaries there are.
   */
  lemma OneCharacterBoundaryIsShadowed(root: string, bs: seq<Boundary>, chosen: set<string>, relPath: string)
    requires PlainBoundaries(bs) && NormalPath(relPath)
    requires var own := ResolveOwnerPath(bs, relPath, root);
             own.boundary.Some? && |own.boundary.value.path| == 1 && own.ownerId != root
    ensures var r := Lookup(Closure(root, bs, chosen), relPath);
            r.Found? ==> r.at.childId == root
  {
    LookupIs(root, bs, chosen, relPath);
  }
}
