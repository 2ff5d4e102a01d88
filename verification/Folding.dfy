/**
 When one merged pack can stand in for a run of layers.

 The main theorem is FoldingIsTransparent: replacing a run by its merge leaves every stack around it
 looking the same exactly when the merge forgets no file that hid deeper content; over one given view, exactly
 when what survives of the run covers all of the view that the run hides.
 */
module Folding {
  import opened Trees
  import opened Layers

  /** Entry x of layer j is neither replaced nor hidden by any later layer of the run. */
  predicate Survives(run: seq<Tree>, j: nat, x: Path)
    requires j < |run|
  {
    x in run[j] && forall k | j < k < |run| :: x !in run[k] && !Hides(run[k], x)
  }

  /** Some layer's x survives. */
  predicate Left(run: seq<Tree>, x: Path) {
    exists j | 0 <= j < |run| :: Survives(run, j, x)
  }

  /**
   Layer i has a file at q whose hiding power the run gives up: a later layer's directory at q survives,
   and no surviving marker hides what lies below q.
   */
  predicate ForgottenAt(run: seq<Tree>, i: nat, q: Path)
    requires i < |run|
  {
    && IsLeaf(run[i], q) && !MarkerPath(q)
    && (exists j | i < j < |run| :: IsDir(run[j], q) && Survives(run, j, q))
    && (forall k | 0 <= k <= |q| :: !Left(run, OpqPath(q[..k])))
    && forall k | 1 <= k <= |q| :: !Left(run, WhPath(q[..k]))
  }

  /** No file that hid deeper content gives way to a directory without something else hiding it. */
  predicate KeepsLeaves(run: seq<Tree>) {
    forall i, q | 0 <= i < |run| && q in run[i] :: !ForgottenAt(run, i, q)
  }

  /** The same, read off the merge. */
  predicate MergeKeepsLeaves(run: seq<Tree>) {
    forall i, q | 0 <= i < |run| && q in run[i] ::
      IsLeaf(run[i], q) && !MarkerPath(q) && IsDir(MergeAll(run), q) ==>
        OpqPath(q) in MergeAll(run) || Hides(MergeAll(run), q)
  }

  lemma SurvivesSnoc(a: seq<Tree>, l: Tree, j: nat, x: Path)
    requires j < |a|
    ensures Survives(a + [l], j, x) <==> Survives(a, j, x) && x !in l && !Hides(l, x)
  {
    var run := a + [l];
    assert run[|a|] == l;
    assert forall k | 0 <= k < |a| :: run[k] == a[k];
  }

  /** What survives is exactly what the merge holds. */
  lemma {:induction false} LeftIsMerged(run: seq<Tree>, x: Path)
    requires x != []
    ensures x in MergeAll(run) <==> Left(run, x)
    ensures forall j | 0 <= j < |run| && Survives(run, j, x) :: x in MergeAll(run) && MergeAll(run)[x] == run[j][x]
    decreases |run|
  {
    if run != [] {
      var a, l := Snoc(run);
      LeftIsMerged(a, x);
      forall j | 0 <= j < |a| ensures Survives(run, j, x) <==> Survives(a, j, x) && x !in l && !Hides(l, x) {
        SurvivesSnoc(a, l, j, x);
      }
      if x in l {
        assert Survives(run, |a|, x);
      }
    }
  }

  /** A file is forgotten exactly when the merge has an exposed directory in its place. */
  lemma ForgottenMeans(run: seq<Tree>, i: nat, q: Path)
    requires AreLayers(run) && i < |run| && IsLeaf(run[i], q) && !MarkerPath(q)
    ensures ForgottenAt(run, i, q) <==>
            IsDir(MergeAll(run), q) && OpqPath(q) !in MergeAll(run) && !Hides(MergeAll(run), q)
  {
    MergeAllIsLayer(run);
    LeftMarkers(run, q);
    ReplacedByDir(run, i, q);
    if IsDir(MergeAll(run), q) {
      DirHidden(MergeAll(run), q);
    }
    assert q[..|q|] == q;
  }

  /** The markers the merge keeps are those that survive. */
  lemma LeftMarkers(run: seq<Tree>, q: Path)
    ensures forall k | 0 <= k <= |q| :: OpqPath(q[..k]) in MergeAll(run) <==> Left(run, OpqPath(q[..k]))
    ensures forall k | 1 <= k <= |q| :: WhPath(q[..k]) in MergeAll(run) <==> Left(run, WhPath(q[..k]))
  {
    forall k | 0 <= k <= |q| ensures OpqPath(q[..k]) in MergeAll(run) <==> Left(run, OpqPath(q[..k])) {
      LeftIsMerged(run, OpqPath(q[..k]));
    }
    forall k | 1 <= k <= |q| ensures WhPath(q[..k]) in MergeAll(run) <==> Left(run, WhPath(q[..k])) {
      LeftIsMerged(run, WhPath(q[..k]));
    }
  }

  lemma ReplacedByDir(run: seq<Tree>, i: nat, q: Path)
    requires AreLayers(run) && i < |run| && IsLeaf(run[i], q)
    ensures IsDir(MergeAll(run), q) <==> exists j | i < j < |run| :: IsDir(run[j], q) && Survives(run, j, q)
  {
    assert IsLayer(run[i]);
    LeftIsMerged(run, q);
    if IsDir(MergeAll(run), q) {
      var j :| 0 <= j < |run| && Survives(run, j, q);
      assert i < j;
    }
  }

  /** A directory of a layer is hidden by its own layer only through markers. */
  lemma DirHidden(m: Tree, q: Path)
    requires IsLayer(m) && IsDir(m, q)
    ensures Hides(m, q) <==>
            || (exists k | 0 <= k < |q| :: OpqPath(q[..k]) in m)
            || exists k | 1 <= k <= |q| :: WhPath(q[..k]) in m
  {
    if Hides(m, q) {
      var k :| 1 <= k <= |q| && HidesAt(m, q, k);
      if k < |q| {
        AncestorIsDir(m, q, k);
      }
      assert OpqPath(q[..k - 1]) in m || WhPath(q[..k]) in m;
    }
    if k :| 0 <= k < |q| && OpqPath(q[..k]) in m {
      assert k + 1 - 1 == k && HidesAt(m, q, k + 1);
    }
    if k :| 1 <= k <= |q| && WhPath(q[..k]) in m {
      assert HidesAt(m, q, k);
    }
  }

  /** The condition on the layers and the one read off their merge are the same. */
  lemma KeepsLeavesInMerge(run: seq<Tree>)
    requires AreLayers(run)
    ensures KeepsLeaves(run) <==> MergeKeepsLeaves(run)
  {
    forall i, q | 0 <= i < |run| && q in run[i] && IsLeaf(run[i], q) && !MarkerPath(q)
      ensures ForgottenAt(run, i, q) <==>
              IsDir(MergeAll(run), q) && OpqPath(q) !in MergeAll(run) && !Hides(MergeAll(run), q)
    {
      ForgottenMeans(run, i, q);
    }
  }

  /** A file of the run sits above p, and the merge has a directory in its place. */
  predicate Forgot(run: seq<Tree>, p: Path) {
    exists i, k | 0 <= i < |run| && 1 <= k < |p| ::
      IsLeaf(run[i], p[..k]) && IsDir(MergeAll(run), p[..k])
  }

  predicate HoldsAt(run: seq<Tree>, x: Path, e: Entry) {
    exists i | 0 <= i < |run| :: x in run[i] && run[i][x] == e
  }

  lemma HidesAnySnoc(a: seq<Tree>, l: Tree, p: Path)
    ensures HidesAny(a + [l], p) <==> HidesAny(a, p) || Hides(l, p)
  {
    if HidesAny(a, p) {
      var i :| 0 <= i < |a| && Hides(a[i], p);
      assert (a + [l])[i] == a[i];
    }
    if Hides(l, p) {
      assert (a + [l])[|a|] == l;
    }
  }

  lemma Snoc(run: seq<Tree>) returns (a: seq<Tree>, l: Tree)
    requires run != []
    ensures run == a + [l] && a == run[..|run| - 1] && l == run[|run| - 1]
  {
    a, l := run[..|run| - 1], run[|run| - 1];
  }

  /** Pointwise: a view under a run shows the run's own surviving entries and what no layer hides. */
  lemma {:induction false} ApplyAllPointwise(v: Tree, run: seq<Tree>, p: Path)
    requires IsView(v) && AreLayers(run) && !MarkerPath(p)
    ensures p in ApplyAll(v, run) <==> p in MergeAll(run) || (p in v && !HidesAny(run, p))
    ensures p in ApplyAll(v, run) ==>
              ApplyAll(v, run)[p] == if p in MergeAll(run) then MergeAll(run)[p] else v[p]
    decreases |run|
  {
    if run != [] {
      var a, l := Snoc(run);
      ApplyAllPointwise(v, a, p);
      HidesAnySnoc(a, l, p);
    }
  }

  /** Every entry of the merge is an entry of some layer. */
  lemma {:induction false} MergedComesFrom(run: seq<Tree>, x: Path)
    requires x in MergeAll(run) && x != []
    ensures HoldsAt(run, x, MergeAll(run)[x])
    decreases |run|
  {
    var a, l := Snoc(run);
    if x in l {
      assert run[|a|] == l;
    } else {
      MergedComesFrom(a, x);
      var i :| 0 <= i < |a| && x in a[i] && a[i][x] == MergeAll(a)[x];
      assert run[i] == a[i];
    }
  }

  lemma MergedHidesOnlyAsRun(run: seq<Tree>, p: Path)
    requires Hides(MergeAll(run), p)
    ensures HidesAny(run, p)
  {
    var m := MergeAll(run);
    var k :| 1 <= k <= |p| && HidesAt(m, p, k);
    var x := if OpqPath(p[..k - 1]) in m then OpqPath(p[..k - 1])
             else if WhPath(p[..k]) in m then WhPath(p[..k]) else p[..k];
    MergedComesFrom(run, x);
    var i :| 0 <= i < |run| && x in run[i] && run[i][x] == m[x];
    assert HidesAt(run[i], p, k);
  }

  /** One merge step keeps hiding, unless a directory replaced a file above p. */
  lemma HidingSurvivesStep(m: Tree, l: Tree, p: Path)
    requires IsLayer(m) && IsLayer(l) && (Hides(m, p) || Hides(l, p))
    ensures Hides(Merge(m, l), p) || exists k | 1 <= k < |p| :: IsLeaf(m, p[..k]) && IsDir(l, p[..k])
  {
    var t := Merge(m, l);
    if Hides(l, p) {
      var k :| 1 <= k <= |p| && HidesAt(l, p, k);
      assert HidesAt(t, p, k);
    } else {
      var k :| 1 <= k <= |p| && HidesAt(m, p, k);
      WhPathOfPrefix(p, k);
      MarkerNames(p[k - 1]);
      var d := p[..k - 1];
      if OpqPath(d) in m {
        MarkerSurvives(m, l, OpqPath(d), p);
        assert HidesAt(t, p, k);
      } else if WhPath(p[..k]) in m {
        MarkerSurvives(m, l, WhPath(p[..k]), p);
        assert HidesAt(t, p, k);
      } else {
        var q := p[..k];
        if !IsDir(l, q) {
          if Hides(l, q) {
            HidesBelow(l, q, p);
          }
          assert IsLeaf(t, q);
          assert HidesAt(t, p, k);
        }
      }
    }
  }

  lemma MarkerSurvives(m: Tree, l: Tree, r: Path, p: Path)
    requires IsLayer(m) && IsLayer(l) && r in m && MarkerPath(r) && Parent(r) < p && !Hides(l, p)
    ensures r in Merge(m, l)
  {
    if Hides(l, r) {
      HiddenMarker(l, r, p);
    }
  }

  lemma {:induction false} HidingSurvives(run: seq<Tree>, p: Path)
    requires AreLayers(run) && HidesAny(run, p)
    ensures Hides(MergeAll(run), p) || Forgot(run, p)
    decreases |run|
  {
    var a, l := Snoc(run);
    var m := MergeAll(a);
    HidesAnySnoc(a, l, p);
    MergeAllIsLayer(a);
    if HidesAny(a, p) {
      HidingSurvives(a, p);
    }
    if !Hides(MergeAll(run), p) {
      if Hides(m, p) || Hides(l, p) {
        HidingSurvivesStep(m, l, p);
        var k :| 1 <= k < |p| && IsLeaf(m, p[..k]) && IsDir(l, p[..k]);
        MergedComesFrom(a, p[..k]);
        var i :| 0 <= i < |a| && p[..k] in a[i] && a[i][p[..k]] == m[p[..k]];
        assert IsLeaf(run[i], p[..k]);
      } else {
        var i, k :| 0 <= i < |a| && 1 <= k < |p| && IsLeaf(a[i], p[..k]) && IsDir(m, p[..k]);
        assert IsLeaf(run[i], p[..k]);
        ForgottenStays(m, l, p[..k], p);
      }
    }
  }

  lemma ForgottenStays(m: Tree, l: Tree, q: Path, p: Path)
    requires IsLayer(m) && IsLayer(l) && IsDir(m, q) && q < p && q != [] && !Hides(l, p)
    ensures IsDir(Merge(m, l), q)
  {
    if Hides(l, q) {
      HidesBelow(l, q, p);
    }
    if IsLeaf(l, q) {
      LeafHidesBelow(l, q, p);
    }
  }

  /** Without forgotten files, the merge hides exactly what the run hides. */
  lemma KeptHiding(run: seq<Tree>, p: Path)
    requires AreLayers(run) && MergeKeepsLeaves(run)
    ensures HidesAny(run, p) <==> Hides(MergeAll(run), p)
  {
    var m := MergeAll(run);
    MergeAllIsLayer(run);
    if Hides(m, p) {
      MergedHidesOnlyAsRun(run, p);
    }
    if HidesAny(run, p) && !Hides(m, p) {
      HidingSurvives(run, p);
      var i, k :| 0 <= i < |run| && 1 <= k < |p| && IsLeaf(run[i], p[..k]) && IsDir(m, p[..k]);
      var q := p[..k];
      assert IsLayer(run[i]);
      assert !MarkerPath(q);
      if Hides(m, q) {
        HidesBelow(m, q, p);
      } else {
        OpaqueHidesBelow(m, q, p);
      }
    }
  }

  /** Enough for transparency: nothing forgotten. */
  lemma FoldUnderView(v: Tree, run: seq<Tree>)
    requires IsView(v) && AreLayers(run) && MergeKeepsLeaves(run)
    ensures Apply(v, MergeAll(run)) == ApplyAll(v, run)
  {
    var x, y := Apply(v, MergeAll(run)), ApplyAll(v, run);
    MergeAllIsLayer(run);
    ApplyIsView(v, MergeAll(run));
    ApplyAllIsView(v, run);
    forall p ensures p in x <==> p in y ensures p in x ==> x[p] == y[p] {
      if !MarkerPath(p) {
        ApplyAllPointwise(v, run, p);
        KeptHiding(run, p);
      }
    }
    assert x.Keys == y.Keys;
  }

  // ---- the converse: a forgotten file shows up under some view ----

  ghost function LongestName(ps: set<Path>): (n: nat)
    ensures forall p | p in ps && p != [] :: |Last(p)| <= n
  {
    if ps == {} then 0 else
      var p :| p in ps;
      var rest := LongestName(ps - {p});
      if p != [] && |Last(p)| > rest then |Last(p)| else rest
  }

  ghost function FreshName(t: Tree): (z: Name)
    ensures !IsMarker(z) && z != ""
    ensures forall d: Path :: d + [z] !in t && WhPath(d + [z]) !in t
  {
    var n := LongestName(t.Keys);
    var z: string := seq(n + 1, _ => 'x');
    assert z[0] == 'x' && WH[0] == '.';
    assert forall d: Path :: d + [z] !in t && WhPath(d + [z]) !in t by {
      forall d: Path ensures d + [z] !in t && WhPath(d + [z]) !in t {
        assert Last(d + [z]) == z && Last(WhPath(d + [z])) == WH + z;
      }
    }
    z
  }

  /** The directory chain down to q with one file in it. */
  ghost function Chain(q: Path, z: Name): Tree {
    (map k | 0 <= k <= |q| :: q[..k] := Dir) + map[q + [z] := Leaf("")]
  }

  lemma ChainIsView(l: Tree, q: Path, z: Name)
    requires IsLayer(l) && q in l && !MarkerPath(q) && !IsMarker(z)
    ensures IsView(Chain(q, z)) && q + [z] in Chain(q, z)
  {
    var c := Chain(q, z);
    forall k | 0 <= k <= |q| ensures !MarkerPath(q[..k]) {
      if k < |q| {
        AncestorIsDir(l, q, k);
      } else {
        assert q[..k] == q;
      }
    }
    assert q[..0] == [] && q[..|q|] == q;
    assert [] in c && c[[]] == Dir;
    forall p | p in c && p != [] ensures IsDir(c, Parent(p)) {
      if p == q + [z] {
        assert Parent(p) == q[..|q|];
      } else {
        var k :| 0 <= k <= |q| && p == q[..k];
        assert Parent(p) == q[..k - 1];
        assert q[..k - 1] != q + [z];
      }
    }
  }

  /** A fresh name in a directory that nothing hides is hidden only by the directory's opaque marker. */
  lemma FreshIsNotHidden(m: Tree, q: Path, z: Name)
    requires IsDir(m, q) && !Hides(m, q) && OpqPath(q) !in m && WhPath(q + [z]) !in m
    ensures !Hides(m, q + [z])
  {
    var p := q + [z];
    forall k | 1 <= k <= |p| ensures !HidesAt(m, p, k) {
      if k <= |q| {
        assert p[..k] == q[..k] && p[..k - 1] == q[..k - 1];
        assert !HidesAt(m, q, k);
        if k == |q| {
          assert p[..k] == q;
        }
      } else {
        assert p[..k] == p && p[..k - 1] == q;
      }
    }
  }

  /** If the merge forgot a file, some view tells the merge from the run. */
  lemma ForgottenShows(run: seq<Tree>) returns (v: Tree)
    requires AreLayers(run) && !MergeKeepsLeaves(run)
    ensures IsView(v) && Apply(v, MergeAll(run)) != ApplyAll(v, run)
  {
    var m := MergeAll(run);
    var i, q :| 0 <= i < |run| && q in run[i] && IsLeaf(run[i], q) && !MarkerPath(q) && IsDir(m, q)
      && OpqPath(q) !in m && !Hides(m, q);
    var z := FreshName(m);
    v := Chain(q, z);
    ChainIsView(run[i], q, z);
    FreshIsNotHidden(m, q, z);
    ForgottenDiffers(run, v, i, q, q + [z]);
  }

  lemma ForgottenDiffers(run: seq<Tree>, v: Tree, i: nat, q: Path, p: Path)
    requires AreLayers(run) && IsView(v) && i < |run| && IsLeaf(run[i], q) && q < p && p in v
    requires p !in MergeAll(run) && !Hides(MergeAll(run), p)
    ensures Apply(v, MergeAll(run)) != ApplyAll(v, run)
  {
    assert q != [] by {
      assert IsLayer(run[i]);
    }
    LeafHidesBelow(run[i], q, p);
    assert HidesAny(run, p);
    ApplyAllPointwise(v, run, p);
  }

  // ---- main results ----

  lemma ViewOfView(v: Tree)
    requires IsView(v)
    ensures IsLayer(v) && View([v]) == v
  {
    ApplyAllOne(EMPTY_TREE, v);
    var x := Merge(EMPTY_TREE, v);
    assert forall p | p in x :: p in v && x[p] == v[p];
    assert x.Keys == v.Keys;
    assert x == v;
    assert Strip(v) == v;
  }

  /** The stack with a run replaced by one layer shows the same tree. */
  predicate SameView(lower: seq<Tree>, run: seq<Tree>, one: Tree, newer: seq<Tree>) {
    View(lower + [one] + newer) == View(lower + run + newer)
  }

  /** In every stack, one can stand in for run. */
  ghost predicate Transparent(run: seq<Tree>, one: Tree) {
    forall lower: seq<Tree>, newer: seq<Tree> | AreLayers(lower) && AreLayers(newer) ::
      SameView(lower, run, one, newer)
  }

  /** On top of a stack, what stands in for its newest run shows the same. */
  lemma TransparentSwap(kept: seq<Tree>, run: seq<Tree>, one: Tree)
    requires AreLayers(kept) && Transparent(run, one)
    ensures View(kept + [one]) == View(kept + run)
  {
    assert SameView(kept, run, one, []);
    assert kept + run + [] == kept + run && kept + [one] + [] == kept + [one];
  }

  lemma EmptyIsView()
    ensures IsView(EMPTY_TREE) && IsLayer(EMPTY_TREE)
  {
  }

  lemma ViewSplit(lower: seq<Tree>, mid: seq<Tree>, newer: seq<Tree>)
    ensures View(lower + mid + newer) == ApplyAll(ApplyAll(View(lower), mid), newer)
  {
    ApplyAllAppend(EMPTY_TREE, lower + mid, newer);
    ApplyAllAppend(EMPTY_TREE, lower, mid);
  }

  lemma ApplyAllOne(v: Tree, l: Tree)
    ensures ApplyAll(v, [l]) == Apply(v, l)
  {
    assert [l][..0] == [];
  }

  /**
   Replacing a run by its merge is invisible in every stack, whatever lies below and above, exactly
   when no file that hid deeper content was forgotten.
   */
  lemma FoldingIsTransparent(run: seq<Tree>)
    requires AreLayers(run)
    ensures KeepsLeaves(run) <==> Transparent(run, MergeAll(run))
  {
    var m := MergeAll(run);
    EmptyIsView();
    KeepsLeavesInMerge(run);
    if KeepsLeaves(run) {
      forall lower: seq<Tree>, newer: seq<Tree> | AreLayers(lower) && AreLayers(newer)
        ensures SameView(lower, run, m, newer)
      {
        ViewSplit(lower, run, newer);
        ViewSplit(lower, [m], newer);
        ApplyAllIsView(EMPTY_TREE, lower);
        FoldUnderView(View(lower), run);
        ApplyAllOne(View(lower), m);
      }
    } else {
      var v := ForgottenShows(run);
      ViewOfView(v);
      ViewSplit([v], run, []);
      ViewSplit([v], [m], []);
      ApplyAllOne(v, m);
      assert !SameView([v], run, m, []);
      assert AreLayers([v]);
    }
  }

  /** Read on its own, a merge always shows what its run shows. */
  lemma MergeAloneShowsRun(run: seq<Tree>)
    requires AreLayers(run)
    ensures Strip(MergeAll(run)) == View(run)
  {
    var x, y := Strip(MergeAll(run)), View(run);
    EmptyIsView();
    ApplyAllIsView(EMPTY_TREE, run);
    MergeAllIsLayer(run);
    forall p ensures p in x <==> p in y ensures p in x ==> x[p] == y[p] {
      if !MarkerPath(p) {
        ApplyAllPointwise(EMPTY_TREE, run, p);
      }
    }
    assert x.Keys == y.Keys;
  }

  /** An empty upper shows the stack beneath it. */
  lemma AddingNothing(stack: seq<Tree>)
    requires AreLayers(stack)
    ensures View(stack + [EMPTY_TREE]) == View(stack)
  {
    var v := View(stack);
    EmptyIsView();
    ApplyAllIsView(EMPTY_TREE, stack);
    ApplyAllAppend(EMPTY_TREE, stack, [EMPTY_TREE]);
    ApplyAllOne(v, EMPTY_TREE);
    assert forall p :: !Hides(EMPTY_TREE, p);
    var t := Apply(v, EMPTY_TREE);
    assert forall p :: p in t <==> p in v;
    assert t == v;
  }

  // ---- over one given view ----

  /** A file at q survives. */
  predicate LeftLeaf(run: seq<Tree>, q: Path) {
    exists j | 0 <= j < |run| :: IsLeaf(run[j], q) && Survives(run, j, q)
  }

  predicate LeftHidesAt(run: seq<Tree>, p: Path, k: nat)
    requires 1 <= k <= |p|
  {
    Left(run, OpqPath(p[..k - 1])) || Left(run, WhPath(p[..k])) || (k < |p| && LeftLeaf(run, p[..k]))
  }

  /** Something that survives hides older content of p. */
  predicate LeftHides(run: seq<Tree>, p: Path) {
    exists k | 1 <= k <= |p| :: LeftHidesAt(run, p, k)
  }

  /** The run hides older content of p, but nothing that survives holds or hides p. */
  predicate Uncovered(run: seq<Tree>, p: Path) {
    HidesAny(run, p) && !Left(run, p) && !LeftHides(run, p)
  }

  /** The run uncovers nothing of this view. */
  predicate Shields(run: seq<Tree>, v: Tree) {
    forall p | p in v && !MarkerPath(p) :: !Uncovered(run, p)
  }

  lemma LeftLeafMerged(run: seq<Tree>, q: Path)
    requires q != []
    ensures LeftLeaf(run, q) <==> IsLeaf(MergeAll(run), q)
  {
    LeftIsMerged(run, q);
    if IsLeaf(MergeAll(run), q) {
      var j :| 0 <= j < |run| && Survives(run, j, q);
      assert MergeAll(run)[q] == run[j][q];
    }
  }

  lemma LeftHidesMerged(run: seq<Tree>, p: Path)
    ensures LeftHides(run, p) <==> Hides(MergeAll(run), p)
  {
    forall k | 1 <= k <= |p| ensures LeftHidesAt(run, p, k) <==> HidesAt(MergeAll(run), p, k) {
      LeftIsMerged(run, OpqPath(p[..k - 1]));
      LeftIsMerged(run, WhPath(p[..k]));
      LeftLeafMerged(run, p[..k]);
    }
    if k :| 1 <= k <= |p| && HidesAt(MergeAll(run), p, k) {
      assert LeftHidesAt(run, p, k);
    }
    if k :| 1 <= k <= |p| && LeftHidesAt(run, p, k) {
      assert HidesAt(MergeAll(run), p, k);
    }
  }

  /** Over a given view the merge shows what the run shows exactly if it uncovers nothing of the view. */
  lemma FoldingOverView(v: Tree, run: seq<Tree>)
    requires IsView(v) && AreLayers(run)
    ensures Shields(run, v) <==> Apply(v, MergeAll(run)) == ApplyAll(v, run)
  {
    var x, y := Apply(v, MergeAll(run)), ApplyAll(v, run);
    MergeAllIsLayer(run);
    ApplyIsView(v, MergeAll(run));
    ApplyAllIsView(v, run);
    if Shields(run, v) {
      forall p ensures p in x <==> p in y ensures p in x ==> x[p] == y[p] {
        FoldedAt(v, run, p);
      }
      assert x.Keys == y.Keys;
    } else {
      var p :| p in v && !MarkerPath(p) && Uncovered(run, p);
      FoldedAt(v, run, p);
    }
  }

  lemma FoldedAt(v: Tree, run: seq<Tree>, p: Path)
    requires IsView(v) && AreLayers(run) && IsView(Apply(v, MergeAll(run))) && IsView(ApplyAll(v, run))
    ensures var x, y := Apply(v, MergeAll(run)), ApplyAll(v, run);
            if p in v && !MarkerPath(p) && Uncovered(run, p) then p in x && p !in y
            else (p in x <==> p in y) && (p in x ==> x[p] == y[p])
  {
    if !MarkerPath(p) {
      ApplyAllPointwise(v, run, p);
      LeftHidesMerged(run, p);
      if p != [] {
        LeftIsMerged(run, p);
      }
      MergeAllIsLayer(run);
      if Hides(MergeAll(run), p) {
        MergedHidesOnlyAsRun(run, p);
      }
    }
  }

  /** A run that keeps its leaves uncovers nothing of any view. */
  lemma KeepsLeavesShields(v: Tree, run: seq<Tree>)
    requires IsView(v) && AreLayers(run) && KeepsLeaves(run)
    ensures Shields(run, v)
  {
    KeepsLeavesInMerge(run);
    FoldUnderView(v, run);
    FoldingOverView(v, run);
  }
}
