/**
 Layers with whiteouts, and what merging a run of them means.

 A layer is a tree whose marker files say what to hide in the layers below: a whiteout `.wh.n` hides
 the sibling `n`, the opaque marker `.wh..wh..opq` hides everything older in its directory (OCI Image
 Format Specification, "Image Layer Filesystem Changeset").  A file of an upper layer also hides
 whatever lower layers keep under the same path.
 */
module Layers {
  import opened Trees

  const WH: Name := ".wh."
  const OPQ: Name := ".wh..wh..opq"

  predicate IsMarker(n: Name) {
    WH <= n
  }

  /** A marker that names one sibling to hide. */
  predicate IsWhiteout(n: Name) {
    IsMarker(n) && n != OPQ
  }

  function Target(n: Name): Name
    requires IsMarker(n)
  {
    n[|WH|..]
  }

  /** Names a whiteout can sensibly point at: a real entry that is not itself a marker. */
  predicate GoodTarget(n: Name) {
    n != "" && n != "." && n != ".." && !IsMarker(n)
  }

  /** A name that sorts before its whiteout. */
  predicate SortsFirst(n: Name) {
    Precedes(n, WH + n)
  }

  /** The name and ".wh." have the same first k characters, and then the name ends or has the smaller one. */
  predicate LeavesMarker(n: Name, k: nat) {
    k <= |n| && k < |WH| && n[..k] == WH[..k] && (k == |n| || n[k] < WH[k])
  }

  lemma LeavesBelow(n: Name, k: nat)
    requires !IsMarker(n)
    ensures DepartsAt(n, WH + n, k) <==> LeavesMarker(n, k)
  {
    if k <= |n| && k < |WH| {
      assert (WH + n)[..k] == WH[..k];
    } else if k <= |n| {
      assert n[..|WH|] != WH;
      assert n[..k][..|WH|] == n[..|WH|] && (WH + n)[..k][..|WH|] == WH;
    }
  }

  lemma LeavesAtOnce(n: Name, k: nat)
    requires n != "" && LeavesMarker(n, k)
    ensures k > 0 ==> n[0] == '.'
    ensures k == 0 ==> n[0] < '.'
  {
    if k > 0 {
      assert n[0] == n[..k][0] == WH[..k][0];
    }
  }

  /**
   On names: at its first departure from ".wh." the name has the smaller character, or it ends before.  Names
   that start above "." never do, names that start below it always do.
   */
  lemma SortsFirstOnNames(n: Name)
    requires !IsMarker(n)
    ensures SortsFirst(n) <==> exists k | 0 <= k <= |n| :: LeavesMarker(n, k)
    ensures n != "" && n[0] > '.' ==> !SortsFirst(n)
    ensures n != "" && n[0] < '.' ==> SortsFirst(n)
  {
    forall k | 0 <= k <= |n| ensures DepartsAt(n, WH + n, k) <==> LeavesMarker(n, k) {
      LeavesBelow(n, k);
    }
    if SortsFirst(n) {
      var k :| 0 <= k <= |n| && DepartsAt(n, WH + n, k);
      assert LeavesMarker(n, k);
      if n != "" {
        LeavesAtOnce(n, k);
      }
    }
    if k :| 0 <= k <= |n| && LeavesMarker(n, k) {
      assert DepartsAt(n, WH + n, k);
    }
    if n != "" && n[0] < '.' {
      assert LeavesMarker(n, 0);
    }
  }

  /** The two names of the usual example. */
  lemma BashrcSortsFirst()
    ensures SortsFirst(".bashrc") && !SortsFirst("data")
  {
    assert DepartsAt(".bashrc", WH + ".bashrc", 1);
    SortsFirstOnNames("data");
  }

  function OpqPath(d: Path): Path {
    d + [OPQ]
  }

  /** Where the whiteout of p lives. */
  function WhPath(p: Path): Path
    requires p != []
  {
    Parent(p) + [WH + Last(p)]
  }

  predicate MarkerPath(p: Path) {
    p != [] && IsMarker(Last(p))
  }

  /** Trees that are layers: markers are files, and whiteouts name ordinary entries. */
  predicate IsLayer(l: Tree) {
    && Rooted(l)
    && forall p | p in l && MarkerPath(p) ::
         l[p].Leaf? && (Last(p) == OPQ || GoodTarget(Target(Last(p))))
  }

  /** What a reader sees: a tree without markers. */
  predicate IsView(v: Tree) {
    Rooted(v) && forall p | p in v :: !MarkerPath(p)
  }

  /** Whiteouts alone do not make an upper dirty. */
  predicate Dirty(upper: Tree) {
    exists p | p in upper :: upper[p].Leaf? && !MarkerPath(p)
  }

  // ---- one layer over older content ----

  /** Layer l hides older content of p at p's k-th component. */
  predicate HidesAt(l: Tree, p: Path, k: nat)
    requires 1 <= k <= |p|
  {
    || OpqPath(p[..k - 1]) in l
    || WhPath(p[..k]) in l
    || (k < |p| && IsLeaf(l, p[..k]))
  }

  predicate Hides(l: Tree, p: Path) {
    exists k | 1 <= k <= |p| :: HidesAt(l, p, k)
  }

  /** Layer l over older content m, with m's surviving markers kept. */
  function Merge(m: Tree, l: Tree): Tree {
    map p | p in m.Keys + l.Keys && (p in l || !Hides(l, p)) :: if p in l then l[p] else m[p]
  }

  function Strip(t: Tree): Tree {
    map p | p in t && !MarkerPath(p) :: t[p]
  }

  /** What a reader sees once l is mounted over a view. */
  function Apply(v: Tree, l: Tree): Tree {
    Strip(Merge(v, l))
  }

  // ---- stacks, oldest first ----

  function ApplyAll(v: Tree, run: seq<Tree>): Tree {
    if run == [] then v else Apply(ApplyAll(v, run[..|run| - 1]), run[|run| - 1])
  }

  /** What a reader sees of a whole stack. */
  function View(stack: seq<Tree>): Tree {
    ApplyAll(EMPTY_TREE, stack)
  }

  /** The ideal merge of a run of layers into one. */
  function MergeAll(run: seq<Tree>): Tree {
    if run == [] then EMPTY_TREE else Merge(MergeAll(run[..|run| - 1]), run[|run| - 1])
  }

  predicate AreLayers(run: seq<Tree>) {
    forall i | 0 <= i < |run| :: IsLayer(run[i])
  }

  predicate HidesAny(run: seq<Tree>, p: Path) {
    exists i | 0 <= i < |run| :: Hides(run[i], p)
  }

  // ---- basic facts ----

  lemma WhPathOfPrefix(p: Path, k: nat)
    requires 1 <= k <= |p|
    ensures WhPath(p[..k]) == p[..k - 1] + [WH + p[k - 1]]
  {
    assert Parent(p[..k]) == p[..k - 1];
  }

  lemma MarkerNames(n: Name)
    ensures IsMarker(WH + n) && Target(WH + n) == n && IsMarker(OPQ)
    ensures !IsMarker(n) ==> WH + n != OPQ
  {
    if WH + n == OPQ {
      assert n == OPQ[|WH|..];
    }
  }

  /** Content hidden at a directory is hidden in everything below. */
  lemma HidesBelow(l: Tree, q: Path, p: Path)
    requires Hides(l, q) && q <= p
    ensures Hides(l, p)
  {
    var k :| 1 <= k <= |q| && HidesAt(l, q, k);
    assert q[..k] == p[..k] && q[..k - 1] == p[..k - 1];
    assert HidesAt(l, p, k);
  }

  lemma LeafHidesBelow(l: Tree, q: Path, p: Path)
    requires IsLeaf(l, q) && q < p && q != []
    ensures Hides(l, p)
  {
    assert p[..|q|] == q;
    assert HidesAt(l, p, |q|);
  }

  lemma OpaqueHidesBelow(l: Tree, q: Path, p: Path)
    requires OpqPath(q) in l && q < p
    ensures Hides(l, p)
  {
    assert p[..|q| + 1 - 1] == q;
    assert HidesAt(l, p, |q| + 1);
  }

  /** If a layer hides a marker file, it hides whatever that marker is about. */
  lemma HiddenMarker(l: Tree, r: Path, p: Path)
    requires IsLayer(l) && MarkerPath(r) && Hides(l, r) && Parent(r) < p
    ensures Hides(l, p)
  {
    var k :| 1 <= k <= |r| && HidesAt(l, r, k);
    var d := Parent(r);
    if k <= |d| {
      assert r[..k] == p[..k] && r[..k - 1] == p[..k - 1];
      assert HidesAt(l, p, k);
    } else {
      assert r[..k] == r && r[..k - 1] == d;
      OpaqueHidesBelow(l, d, p);
    }
  }

  // ---- well-formedness is kept ----

  lemma MergeRooted(m: Tree, l: Tree)
    requires Rooted(m) && IsLayer(l)
    ensures Rooted(Merge(m, l))
  {
    var t := Merge(m, l);
    forall p | p in t && p != [] ensures IsDir(t, Parent(p)) {
      var d := Parent(p);
      if p in l {
        assert IsDir(l, d);
      } else {
        assert IsDir(m, d);
        if Hides(l, d) {
          HidesBelow(l, d, p);
        }
        if IsLeaf(l, d) {
          LeafHidesBelow(l, d, p);
        }
      }
    }
  }

  lemma MergeIsLayer(m: Tree, l: Tree)
    requires IsLayer(m) && IsLayer(l)
    ensures IsLayer(Merge(m, l))
  {
    MergeRooted(m, l);
  }

  lemma ApplyIsView(v: Tree, l: Tree)
    requires IsView(v) && IsLayer(l)
    ensures IsView(Apply(v, l))
  {
    MergeRooted(v, l);
    var t := Merge(v, l);
    forall p | p in Strip(t) && p != [] ensures IsDir(Strip(t), Parent(p)) {
      var d := Parent(p);
      assert IsDir(t, d);
      if MarkerPath(d) {
        assert false;
      }
    }
  }

  lemma {:induction false} ApplyAllIsView(v: Tree, run: seq<Tree>)
    requires IsView(v) && AreLayers(run)
    ensures IsView(ApplyAll(v, run))
    decreases |run|
  {
    if run != [] {
      ApplyAllIsView(v, run[..|run| - 1]);
      ApplyIsView(ApplyAll(v, run[..|run| - 1]), run[|run| - 1]);
    }
  }

  lemma {:induction false} MergeAllIsLayer(run: seq<Tree>)
    requires AreLayers(run)
    ensures IsLayer(MergeAll(run))
    decreases |run|
  {
    if run != [] {
      MergeAllIsLayer(run[..|run| - 1]);
      MergeIsLayer(MergeAll(run[..|run| - 1]), run[|run| - 1]);
    }
  }

  lemma {:induction false} ApplyAllAppend(v: Tree, a: seq<Tree>, b: seq<Tree>)
    ensures ApplyAll(v, a + b) == ApplyAll(ApplyAll(v, a), b)
    decreases |b|
  {
    if b == [] {
      assert a + b == a;
    } else {
      var b0 := b[..|b| - 1];
      assert (a + b)[..|a + b| - 1] == a + b0;
      ApplyAllAppend(v, a, b0);
    }
  }

  lemma ViewSnoc(stack: seq<Tree>, l: Tree)
    ensures View(stack + [l]) == Apply(View(stack), l)
  {
    assert (stack + [l])[..|stack|] == stack;
  }
}
