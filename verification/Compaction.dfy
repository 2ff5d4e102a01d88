/**
 Building one pack from a run of packs, and publishing it in the manifest.

 CompactionIsTransparent is the central result: the pack the code builds can stand in for its run, in
 every stack, exactly when the walk lost nothing for good and no file that hid deeper content was
 forgotten.  Tame stacks meet both conditions, and compacting them keeps them tame.
 */
module Compaction {
  import opened Trees
  import opened Layers
  import opened Folding
  import opened MergeWalk
  import opened Packs

  // ---- building ----

  /** What the scratch directory holds after merging a run old to new. */
  function Built(run: seq<Tree>): Tree {
    if run == [] then EMPTY_TREE else MergeLossy(Built(run[..|run| - 1]), run[|run| - 1])
  }

  /** No merge of the build raises. */
  predicate Buildable(run: seq<Tree>) {
    run != [] ==> Buildable(run[..|run| - 1]) && Unblocked(Built(run[..|run| - 1]), run[|run| - 1])
  }

  lemma {:induction false} BuiltIsLayer(run: seq<Tree>)
    requires AreLayers(run)
    ensures IsLayer(Built(run))
    decreases |run|
  {
    if run != [] {
      BuiltIsLayer(run[..|run| - 1]);
      MergeLossyIsLayer(Built(run[..|run| - 1]), run[|run| - 1]);
    }
  }

  lemma {:induction false} BuildablePrefix(run: seq<Tree>, n: nat)
    requires n <= |run| && Buildable(run)
    ensures Buildable(run[..n])
    decreases |run| - n
  {
    if n < |run| {
      var a := run[..|run| - 1];
      assert a[..n] == run[..n];
      BuildablePrefix(a, n);
    } else {
      assert run[..n] == run;
    }
  }

  /** Merges extracted packs old to new in a scratch directory. */
  method BuildPartialCompaction(selected: seq<Tree>) returns (r: Result<Tree>)
    requires AreLayers(selected)
    ensures r.Ok? <==> selected != [] && Buildable(selected)
    ensures r.Ok? ==> r.value == Built(selected)
  {
    if selected == [] {
      return Err("partial compaction requires selected packs");
    }
    var materialized := new Workdir();
    for i := 0 to |selected|
      invariant Buildable(selected[..i])
      invariant materialized.nodes == Built(selected[..i])
    {
      BuiltIsLayer(selected[..i]);
      ghost var upTo := selected[..i + 1];
      assert upTo[..|upTo| - 1] == selected[..i];
      var ok := materialized.MergeExtractedLayer(selected[i]);
      if !ok {
        if Buildable(selected) {
          BuildablePrefix(selected, i + 1);
        }
        return Err("merge failed");
      }
    }
    assert selected[..|selected|] == selected;
    return Ok(materialized.nodes);
  }

  // ---- what the build loses ----

  /** Layer i loses p and no later layer brings p back or deletes it. */
  predicate LostAt(run: seq<Tree>, i: nat, p: Path)
    requires i < |run|
  {
    && Lost(run[i], p)
    && forall j | i < j < |run| :: p !in run[j] && !Hides(run[j], p)
  }

  predicate LostForGood(run: seq<Tree>, p: Path) {
    exists i | 0 <= i < |run| :: LostAt(run, i, p)
  }

  predicate NothingLost(run: seq<Tree>) {
    forall i | 0 <= i < |run| :: forall p | p in run[i] :: !LostAt(run, i, p)
  }

  lemma LostForGoodSnoc(a: seq<Tree>, l: Tree, p: Path)
    ensures LostForGood(a + [l], p) <==> Lost(l, p) || (LostForGood(a, p) && p !in l && !Hides(l, p))
  {
    var run := a + [l];
    if i :| 0 <= i < |run| && LostAt(run, i, p) {
      if i < |a| {
        assert run[|a|] == l;
        assert forall j | i < j < |a| :: run[j] == a[j];
        assert LostAt(a, i, p);
      }
    }
    if Lost(l, p) {
      assert LostAt(run, |a|, p);
    } else if LostForGood(a, p) && p !in l && !Hides(l, p) {
      var i :| 0 <= i < |a| && LostAt(a, i, p);
      assert forall j | i < j < |run| :: run[j] == if j < |a| then a[j] else l;
      assert LostAt(run, i, p);
    }
  }

  /** The build is the ideal merge minus what is lost for good. */
  lemma {:induction false} BuiltPointwise(run: seq<Tree>, p: Path)
    ensures p in Built(run) <==> p in MergeAll(run) && !LostForGood(run, p)
    ensures p in Built(run) ==> Built(run)[p] == MergeAll(run)[p]
    decreases |run|
  {
    if run != [] {
      var a, l := Snoc(run);
      BuiltPointwise(a, p);
      LostForGoodSnoc(a, l, p);
    }
  }

  lemma {:induction false} LostIsMerged(run: seq<Tree>, p: Path)
    requires LostForGood(run, p)
    ensures p in MergeAll(run) && !MarkerPath(p)
    decreases |run|
  {
    var a, l := Snoc(run);
    LostForGoodSnoc(a, l, p);
    if !Lost(l, p) {
      LostIsMerged(a, p);
    }
  }

  lemma BuiltIsMerged(run: seq<Tree>)
    ensures NothingLost(run) <==> Built(run) == MergeAll(run)
  {
    var b, m := Built(run), MergeAll(run);
    if NothingLost(run) {
      forall p ensures p in b <==> p in m ensures p in b ==> b[p] == m[p] {
        BuiltPointwise(run, p);
      }
      assert b.Keys == m.Keys;
    } else {
      var i, p :| 0 <= i < |run| && p in run[i] && LostAt(run, i, p);
      BuiltPointwise(run, p);
      LostIsMerged(run, p);
    }
  }

  lemma LayerAlone(l: Tree)
    requires IsLayer(l)
    ensures View([l]) == Strip(l)
  {
    ApplyAllOne(EMPTY_TREE, l);
    var x := Merge(EMPTY_TREE, l);
    assert forall p | p in x :: p in l && x[p] == l[p];
    assert x.Keys == l.Keys;
    assert x == l;
  }

  /**
   The pack built from a run can replace the run in every stack without changing what a reader sees,
   exactly when nothing was lost for good and no file that hid deeper content was forgotten.
   */
  lemma CompactionIsTransparent(run: seq<Tree>)
    requires AreLayers(run)
    ensures NothingLost(run) && KeepsLeaves(run) <==> Transparent(run, Built(run))
  {
    BuiltIsMerged(run);
    FoldingIsTransparent(run);
    if !NothingLost(run) {
      LossShows(run);
    }
  }

  /** The whiteout an entry is lost to stays. */
  lemma {:induction false} LostIsWhitedOut(run: seq<Tree>, p: Path)
    requires AreLayers(run) && LostForGood(run, p)
    ensures p != [] && WhPath(p) in MergeAll(run)
    decreases |run|
  {
    var a, l := Snoc(run);
    LostForGoodSnoc(a, l, p);
    MarkerNames(Last(p));
    if !Lost(l, p) {
      LostIsWhitedOut(a, p);
      MergeAllIsLayer(a);
      MarkerSurvives(MergeAll(a), l, WhPath(p), p);
    }
  }

  /** So a lost entry is missing over every view. */
  lemma LostUnderView(v: Tree, run: seq<Tree>, p: Path)
    requires IsView(v) && AreLayers(run) && LostForGood(run, p)
    ensures p in ApplyAll(v, run) && p !in Apply(v, Built(run))
  {
    LostIsMerged(run, p);
    LostIsWhitedOut(run, p);
    ApplyAllPointwise(v, run, p);
    BuiltPointwise(run, p);
    var w := WhPath(p);
    MarkerNames(Last(p));
    assert MarkerPath(w);
    if LostForGood(run, w) {
      LostIsMerged(run, w);
    }
    BuiltPointwise(run, w);
    assert p[..|p|] == p;
    assert HidesAt(Built(run), p, |p|);
  }

  /** Over a given view the built pack shows what its run shows exactly if nothing is lost or uncovered. */
  lemma CompactionOverView(v: Tree, run: seq<Tree>)
    requires IsView(v) && AreLayers(run)
    ensures NothingLost(run) && Shields(run, v) <==> Apply(v, Built(run)) == ApplyAll(v, run)
  {
    BuiltIsMerged(run);
    if NothingLost(run) {
      FoldingOverView(v, run);
    } else {
      var i, p :| 0 <= i < |run| && p in run[i] && LostAt(run, i, p);
      LostUnderView(v, run, p);
    }
  }

  /** Compacting the newest packs leaves the view as it is exactly if nothing of the older packs is uncovered. */
  lemma BuildKeepsView(kept: seq<Tree>, run: seq<Tree>)
    requires AreLayers(kept) && AreLayers(run)
    ensures View(kept + [Built(run)]) == View(kept + run) <==> NothingLost(run) && Shields(run, View(kept))
    ensures AreLayers(kept + [Built(run)])
  {
    EmptyIsView();
    BuiltIsLayer(run);
    ApplyAllIsView(EMPTY_TREE, kept);
    ApplyAllAppend(EMPTY_TREE, kept, run);
    ViewSnoc(kept, Built(run));
    CompactionOverView(View(kept), run);
  }

  /** A lost entry is missed even when the run is the whole stack. */
  lemma LossShows(run: seq<Tree>)
    requires AreLayers(run) && !NothingLost(run)
    ensures !SameView([], run, Built(run), []) && !Transparent(run, Built(run))
  {
    var i, p :| 0 <= i < |run| && p in run[i] && LostAt(run, i, p);
    LostIsMissing(run, p);
    AloneDiffers(run, Built(run));
  }

  lemma AloneDiffers(run: seq<Tree>, one: Tree)
    requires View(run) != View([one])
    ensures !SameView([], run, one, []) && !Transparent(run, one)
  {
    var none: seq<Tree> := [];
    assert none + [one] + none == [one] && none + run + none == run;
    assert !SameView(none, run, one, none);
    assert AreLayers(none);
  }

  lemma LostIsMissing(run: seq<Tree>, p: Path)
    requires AreLayers(run) && LostForGood(run, p)
    ensures p in View(run) && p !in View([Built(run)])
  {
    BuiltPointwise(run, p);
    LostIsMerged(run, p);
    BuiltIsLayer(run);
    LayerAlone(Built(run));
    MergeAloneShowsRun(run);
  }

  // ---- a discipline that makes every compaction transparent ----

  /** No whiteout whose target sorts before it: the walk never deletes what its own layer holds. */
  predicate NoRiskyWhiteout(l: Tree) {
    forall p | p in l && MarkerPath(p) && IsWhiteout(Last(p)) :: !SortsFirst(Target(Last(p)))
  }

  /** Wherever both have an entry, both have a directory or both have a file. */
  predicate SameKinds(a: Tree, b: Tree) {
    forall p | p in a && p in b :: a[p].Dir? == b[p].Dir?
  }

  predicate Tame(stack: seq<Tree>) {
    && (forall i | 0 <= i < |stack| :: NoRiskyWhiteout(stack[i]))
    && forall i, j | 0 <= i < |stack| && 0 <= j < |stack| :: SameKinds(stack[i], stack[j])
  }

  lemma TameLosesNothing(l: Tree, p: Path)
    requires IsLayer(l) && NoRiskyWhiteout(l)
    ensures !Lost(l, p)
  {
    if p != [] && WhPath(p) in l && !IsMarker(Last(p)) {
      MarkerNames(Last(p));
      assert Last(WhPath(p)) == WH + Last(p);
      LostOnNames(l, p);
    }
  }

  lemma TameNothingLost(run: seq<Tree>)
    requires AreLayers(run) && Tame(run)
    ensures NothingLost(run)
  {
    forall i, p | 0 <= i < |run| && p in run[i] ensures !LostAt(run, i, p) {
      TameLosesNothing(run[i], p);
    }
  }

  lemma TameKeepsLeaves(run: seq<Tree>)
    requires AreLayers(run) && Tame(run)
    ensures KeepsLeaves(run)
  {
    forall i, q | 0 <= i < |run| && q in run[i] ensures !ForgottenAt(run, i, q) {
      forall j | 0 <= j < |run| && IsLeaf(run[i], q) ensures !IsDir(run[j], q) {
        assert SameKinds(run[i], run[j]);
      }
    }
  }

  lemma {:induction false} TameIsBuildable(run: seq<Tree>)
    requires AreLayers(run) && Tame(run)
    ensures Buildable(run)
    decreases |run|
  {
    if run != [] {
      var a, l := Snoc(run);
      assert AreLayers(a) && Tame(a);
      TameIsBuildable(a);
      TameStep(a, l);
    }
  }

  lemma TameStep(a: seq<Tree>, l: Tree)
    requires AreLayers(a + [l]) && Tame(a + [l])
    ensures Unblocked(Built(a), l)
  {
    forall x | x in l && IsOpq(x) ensures Clear(Built(a), l, x) {
      forall k | 0 <= k <= |Parent(x)| ensures !IsLeaf(Built(a), Parent(x)[..k]) {
        assert x[..k] == Parent(x)[..k];
        assert (a + [l])[|a|] == l;
        AncestorIsDir(l, x, k);
        TameUnblocked(a, l, Parent(x)[..k]);
      }
    }
    forall e | IsDir(l, e) ensures !LinkInTheWay(Built(a), l, e) {
      TameUnblocked(a, l, e);
    }
  }

  /** A directory of a tame stack never meets an older file. */
  lemma TameUnblocked(a: seq<Tree>, l: Tree, q: Path)
    requires AreLayers(a + [l]) && Tame(a + [l]) && IsDir(l, q)
    ensures !IsLeaf(Built(a), q)
  {
    assert (a + [l])[|a|] == l;
    assert forall i | 0 <= i < |a| :: (a + [l])[i] == a[i];
    if q == [] {
      assert AreLayers(a);
      BuiltIsLayer(a);
    } else if q in Built(a) {
      BuiltPointwise(a, q);
      MergedComesFrom(a, q);
      var j :| 0 <= j < |a| && q in a[j] && a[j][q] == MergeAll(a)[q];
      assert SameKinds((a + [l])[j], (a + [l])[|a|]);
    }
  }

  /** On a tame run a compaction builds, and what it builds is invisible in every stack. */
  lemma TameCompaction(run: seq<Tree>)
    requires AreLayers(run) && Tame(run)
    ensures Buildable(run) && Transparent(run, Built(run))
  {
    TameIsBuildable(run);
    TameNothingLost(run);
    TameKeepsLeaves(run);
    CompactionIsTransparent(run);
  }

  lemma BuiltComesFrom(run: seq<Tree>, p: Path)
    requires AreLayers(run) && run != [] && p in Built(run)
    ensures HoldsAt(run, p, Built(run)[p])
  {
    if p == [] {
      BuiltIsLayer(run);
      assert IsLayer(run[0]);
      assert run[0][[]] == Dir;
    } else {
      BuiltPointwise(run, p);
      MergedComesFrom(run, p);
    }
  }

  /** Whatever a stack with a built run holds, the stack with the run held. */
  lemma BuiltStackComesFrom(lower: seq<Tree>, run: seq<Tree>, newer: seq<Tree>, i: nat, p: Path)
    requires AreLayers(run) && run != [] && i < |lower + [Built(run)] + newer|
    requires p in (lower + [Built(run)] + newer)[i]
    ensures HoldsAt(lower + run + newer, p, (lower + [Built(run)] + newer)[i][p])
  {
    var s, t := lower + run + newer, lower + [Built(run)] + newer;
    var at := |lower|;
    if i < at {
      assert s[i] == t[i];
    } else if i == at {
      BuiltComesFrom(run, p);
      var j :| 0 <= j < |run| && p in run[j] && run[j][p] == t[i][p];
      assert s[at + j] == run[j];
    } else {
      assert s[i - 1 + |run|] == t[i];
    }
  }

  /** A stack that holds nothing but what a tame stack holds is tame. */
  lemma TameByContents(s: seq<Tree>, t: seq<Tree>)
    requires Tame(s) && forall i, p | 0 <= i < |t| && p in t[i] :: HoldsAt(s, p, t[i][p])
    ensures Tame(t)
  {
    forall i, p | 0 <= i < |t| && p in t[i] && MarkerPath(p) && IsWhiteout(Last(p))
      ensures !SortsFirst(Target(Last(p)))
    {
      assert HoldsAt(s, p, t[i][p]);
      var j :| 0 <= j < |s| && p in s[j] && s[j][p] == t[i][p];
      assert NoRiskyWhiteout(s[j]);
    }
    forall i, j, p | 0 <= i < |t| && 0 <= j < |t| && p in t[i] && p in t[j]
      ensures t[i][p].Dir? == t[j][p].Dir?
    {
      assert HoldsAt(s, p, t[i][p]) && HoldsAt(s, p, t[j][p]);
      var x :| 0 <= x < |s| && p in s[x] && s[x][p] == t[i][p];
      var y :| 0 <= y < |s| && p in s[y] && s[y][p] == t[j][p];
      assert SameKinds(s[x], s[y]);
    }
  }

  /** Compacting part of a tame stack leaves it tame. */
  lemma TameStaysTame(lower: seq<Tree>, run: seq<Tree>, newer: seq<Tree>)
    requires AreLayers(lower + run + newer) && Tame(lower + run + newer) && run != []
    ensures Tame(lower + [Built(run)] + newer)
  {
    var s, t := lower + run + newer, lower + [Built(run)] + newer;
    assert forall i | 0 <= i < |run| :: s[|lower| + i] == run[i];
    forall i, p | 0 <= i < |t| && p in t[i] ensures HoldsAt(s, p, t[i][p]) {
      BuiltStackComesFrom(lower, run, newer, i, p);
    }
    TameByContents(s, t);
  }
}
