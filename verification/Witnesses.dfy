/**
 Where compaction goes wrong: for each condition the transparency theorem asks for, a family of packs
 that ordinary commits produce and that breaks it.
 */
module Witnesses {
  import opened Trees
  import opened Layers
  import opened Folding
  import opened MergeWalk
  import opened Compaction
  import opened Reader

  /** A pack whose only entry is a file n. */
  function FileLayer(n: Name, data: string): Tree {
    map[[] := Dir, [n] := Leaf(data)]
  }

  /** A pack that only deletes n. */
  function DeletionLayer(n: Name): Tree {
    FileLayer(WH + n, "")
  }

  /** A pack whose only entry is an empty directory n. */
  function DirLayer(n: Name): Tree {
    map[[] := Dir, [n] := Dir]
  }

  function OpaqueLayer(n: Name): Tree {
    map[[] := Dir, [n] := Dir, [n, OPQ] := Leaf("")]
  }

  /** n deleted in one commit and recreated in the next, compacted into one pack. */
  function Recreated(n: Name, data: string): Tree {
    Built([DeletionLayer(n), FileLayer(n, data)])
  }

  lemma RecreationLayers(n: Name, data: string)
    requires GoodTarget(n)
    ensures IsLayer(DeletionLayer(n)) && IsLayer(FileLayer(n, data))
  {
    MarkerNames(n);
    assert Parent([n]) == [] && Parent([WH + n]) == [];
  }

  lemma MergeOverEmpty(l: Tree)
    requires IsLayer(l)
    ensures Merge(EMPTY_TREE, l) == l
  {
    var x := Merge(EMPTY_TREE, l);
    assert forall p | p in x :: p in l && x[p] == l[p];
    assert x.Keys == l.Keys;
  }

  /** Packs that whiteout nothing of their own are rebuilt as they are. */
  lemma BuiltOfTwo(a: Tree, b: Tree)
    requires IsLayer(a) && (forall p | p in a :: !Lost(a, p)) && forall p | p in b :: !Lost(b, p)
    ensures Built([a]) == a && Built([a, b]) == Merge(a, b)
  {
    assert [a, b][..1] == [a] && [a][..0] == [];
    MergeOverEmpty(a);
    assert MergeLossy(EMPTY_TREE, a).Keys == a.Keys;
    var m := Merge(a, b);
    assert forall p | p in m :: !Lost(b, p);
    assert MergeLossy(a, b).Keys == m.Keys;
  }

  lemma NothingLostAlone(n: Name, data: string)
    requires GoodTarget(n)
    ensures forall p | p in DeletionLayer(n) :: !Lost(DeletionLayer(n), p)
    ensures forall p | p in FileLayer(n, data) :: !Lost(FileLayer(n, data), p)
  {
    MarkerNames(n);
    assert WhPath([n]) == [WH + n] && |WH + n| == |n| + 4;
  }

  lemma FileKeepsWhiteout(n: Name, data: string)
    requires GoodTarget(n)
    ensures !Hides(FileLayer(n, data), [WH + n]) && !Hides(FileLayer(n, data), [])
  {
    var file, w := FileLayer(n, data), [WH + n];
    MarkerNames(n);
    MarkerNames(OPQ);
    assert w[..0] == [] && w[..1] == w && OpqPath([]) == [OPQ] && WhPath(w) == [WH + (WH + n)];
    assert |WH + (WH + n)| == |n| + 8;
    assert !HidesAt(file, w, 1);
  }

  lemma RecreatedHolds(n: Name, data: string)
    requires GoodTarget(n)
    ensures Recreated(n, data) == map[[] := Dir, [n] := Leaf(data), [WH + n] := Leaf("")]
  {
    var del, file := DeletionLayer(n), FileLayer(n, data);
    RecreationLayers(n, data);
    NothingLostAlone(n, data);
    BuiltOfTwo(del, file);
    FileKeepsWhiteout(n, data);
    var m := Merge(del, file);
    assert |WH + n| == |n| + 4;
    assert m.Keys == {[], [n], [WH + n]};
  }

  /**
   Delete, recreate, compact, compact again.  The first compaction is invisible; the second one loses
   the recreated file exactly when the name, character by character, comes before its whiteout, because the
   first left file and whiteout side by side in one pack: ".bashrc" is lost, no name from "/" on is.
   */
  lemma RecompactionLosesRecreatedFile(n: Name, data: string)
    requires GoodTarget(n)
    ensures Transparent([DeletionLayer(n), FileLayer(n, data)], Recreated(n, data))
    ensures Transparent([Recreated(n, data)], Built([Recreated(n, data)])) <==> !SortsFirst(n)
    ensures n[0] > '.' ==> Transparent([Recreated(n, data)], Built([Recreated(n, data)]))
  {
    RecreationLayers(n, data);
    FirstIsFaithful(n, data);
    CompactionIsTransparent([DeletionLayer(n), FileLayer(n, data)]);
    BuiltIsLayer([DeletionLayer(n), FileLayer(n, data)]);
    SecondLoses(n, data);
    RecreatedKeepsLeaves(n, data);
    CompactionIsTransparent([Recreated(n, data)]);
    SortsFirstOnNames(n);
  }

  /** The usual names: the second compaction deletes ".bashrc" and keeps "data". */
  lemma BashrcIsLost(data: string)
    ensures [".bashrc"] !in View([Built([Recreated(".bashrc", data)])])
    ensures View([Built([Recreated("data", data)])]) == map[[] := Dir, ["data"] := Leaf(data)]
  {
    BashrcSortsFirst();
    RecreatedAlone(".bashrc", data);
    RecreatedAlone("data", data);
  }

  /** What the second compaction leaves for readers, alone. */
  lemma RecreatedAlone(n: Name, data: string)
    requires GoodTarget(n)
    ensures View([Built([Recreated(n, data)])])
            == if SortsFirst(n) then map[[] := Dir] else map[[] := Dir, [n] := Leaf(data)]
  {
    RecreationLayers(n, data);
    BuiltIsLayer([DeletionLayer(n), FileLayer(n, data)]);
    BuiltOne(Recreated(n, data));
    TwiceHolds(n, data);
    StrippedTwice(MergeLossy(EMPTY_TREE, Recreated(n, data)), n, data, SortsFirst(n));
    BuiltIsLayer([Recreated(n, data)]);
    LayerAlone(Built([Recreated(n, data)]));
  }

  lemma StrippedTwice(t: Tree, n: Name, data: string, gone: bool)
    requires GoodTarget(n) && t.Keys == if gone then {[], [WH + n]} else {[], [n], [WH + n]}
    requires ([n] in t ==> t[[n]] == Leaf(data)) && t[[]] == Dir
    ensures Strip(t) == if gone then map[[] := Dir] else map[[] := Dir, [n] := Leaf(data)]
  {
    MarkerNames(n);
    assert MarkerPath([WH + n]) && !MarkerPath([n]) && [n] != [WH + n];
    assert Strip(t).Keys == if gone then {[]} else {[], [n]};
  }

  lemma BuiltOne(l: Tree)
    requires IsLayer(l)
    ensures Built([l]) == MergeLossy(EMPTY_TREE, l) && Merge(EMPTY_TREE, l) == l
  {
    assert [l][..0] == [];
    MergeOverEmpty(l);
  }

  lemma TwiceHolds(n: Name, data: string)
    requires GoodTarget(n)
    ensures var twice := MergeLossy(EMPTY_TREE, Recreated(n, data));
            && twice.Keys == (if SortsFirst(n) then {[], [WH + n]} else {[], [n], [WH + n]})
            && ([n] in twice ==> twice[[n]] == Leaf(data)) && twice[[]] == Dir
  {
    var once := Recreated(n, data);
    RecreatedHolds(n, data);
    RecreationLayers(n, data);
    BuiltIsLayer([DeletionLayer(n), FileLayer(n, data)]);
    MergeOverEmpty(once);
    MarkerNames(n);
    assert WhPath([n]) == [WH + n];
    LostOnNames(once, [n]);
    assert !Lost(once, [WH + n]) && !Lost(once, []);
  }

  /** The file keeps nothing hidden, so nothing is forgotten. */
  lemma RecreatedKeepsLeaves(n: Name, data: string)
    requires GoodTarget(n)
    ensures KeepsLeaves([Recreated(n, data)])
  {
    RecreatedHolds(n, data);
    forall i, q | 0 <= i < |[Recreated(n, data)]| && q in [Recreated(n, data)][i]
      ensures !ForgottenAt([Recreated(n, data)], i, q)
    {
    }
  }

  lemma SecondLoses(n: Name, data: string)
    requires GoodTarget(n)
    ensures NothingLost([Recreated(n, data)]) <==> !SortsFirst(n)
  {
    var once := Recreated(n, data);
    RecreatedHolds(n, data);
    MarkerNames(n);
    assert WhPath([n]) == [WH + n];
    LostOnNames(once, [n]);
    assert Lost(once, [n]) <==> SortsFirst(n);
    assert !Lost(once, [WH + n]);
    if SortsFirst(n) {
      assert [n] in [once][0];
      assert LostAt([once], 0, [n]);
    }
  }

  /** So do all later compactions that take the pack in, whatever newer pack they merge it with. */
  lemma LaterCompactionsLoseItToo(n: Name, data: string, newer: Tree)
    requires GoodTarget(n) && SortsFirst(n)
    requires IsLayer(newer) && [n] !in newer && !Hides(newer, [n])
    ensures var run := [Recreated(n, data), newer]; !Transparent(run, Built(run))
  {
    var run := [Recreated(n, data), newer];
    RecreationLayers(n, data);
    RecreatedHolds(n, data);
    MarkerNames(n);
    BuiltIsLayer([DeletionLayer(n), FileLayer(n, data)]);
    assert WhPath([n]) == [WH + n];
    LostOnNames(run[0], [n]);
    assert [n] in run[0] && Lost(run[0], [n]);
    assert LostAt(run, 0, [n]);
    CompactionIsTransparent(run);
  }

  lemma FirstIsFaithful(n: Name, data: string)
    requires GoodTarget(n)
    ensures var run := [DeletionLayer(n), FileLayer(n, data)]; NothingLost(run) && KeepsLeaves(run)
  {
    var run := [DeletionLayer(n), FileLayer(n, data)];
    RecreationLayers(n, data);
    MarkerNames(n);
    forall i, p | 0 <= i < |run| && p in run[i] ensures !Lost(run[i], p) {
      if p == [n] {
        assert WhPath(p) == [WH + n] && |WH + n| == |n| + 4;
      }
    }
    forall i, q | 0 <= i < |run| && q in run[i] && IsLeaf(run[i], q) ensures !IsDir(MergeAll(run), q) {
      if q in MergeAll(run) {
        MergedComesFrom(run, q);
      }
    }
  }

  lemma NoMarkersLeft(n: Name, data: string, x: Path)
    requires n != "" && !IsMarker(n) && MarkerPath(x)
    ensures !Left([FileLayer(n, data), DirLayer(n)], x)
  {
    MarkerNames(n);
    assert Last([n]) == n;
  }

  /** A directory committed over an older file: compacting the two lets deeper content show through. */
  lemma DirOverFileShowsThrough(n: Name, data: string)
    requires n != "" && !IsMarker(n)
    ensures !Transparent([FileLayer(n, data), DirLayer(n)], Built([FileLayer(n, data), DirLayer(n)]))
  {
    var run, q := [FileLayer(n, data), DirLayer(n)], [n];
    assert Parent(q) == [];
    assert IsLayer(run[0]) && IsLayer(run[1]);
    forall k | 0 <= k <= |q| ensures !Left(run, OpqPath(q[..k])) {
      MarkerNames(n);
      NoMarkersLeft(n, data, OpqPath(q[..k]));
    }
    forall k | 1 <= k <= |q| ensures !Left(run, WhPath(q[..k])) {
      NoMarkersLeft(n, data, WhPath(q[..k]));
    }
    assert IsDir(run[1], q) && Survives(run, 1, q);
    assert q in run[0] && ForgottenAt(run, 0, q);
    CompactionIsTransparent(run);
  }

  /** An opaque directory committed over an older file: the merge of the two raises. */
  lemma OpaqueDirOverFileRaises(n: Name, data: string)
    requires n != "" && !IsMarker(n)
    ensures !Buildable([FileLayer(n, data), OpaqueLayer(n)])
  {
    var m, l := FileLayer(n, data), OpaqueLayer(n);
    assert WhPath([n]) == [WH + n] && |WH + n| == |n| + 4 && Parent([n]) == [];
    var base := Built([m]);
    assert [m, l][..1] == [m] && [m][..0] == [];
    MergeOverEmpty(m);
    assert IsLeaf(base, [n]);
    var x := [n, OPQ];
    assert x in l && IsOpq(x) && Parent(x) == [n] && Parent(x)[..1] == [n];
    forall y | y in l && IsOpq(y) ensures !(Parent(y) < [n]) {
      assert y == x;
    }
    assert !Clear(base, l, x);
    assert !Unblocked(base, l);
  }

  /** A pack with an opaque root and an opaque directory n in it. */
  function NestedOpaque(n: Name): Tree {
    map[[] := Dir, [OPQ] := Leaf(""), [n] := Dir, [n, OPQ] := Leaf("")]
  }

  /**
   The opaque pass goes by names: an opaque directory over an older file merges, under an opaque root, exactly
   if the root's marker comes before the directory's name, so for every name that starts above "." and none
   that starts below it.
   */
  lemma OpaqueRootClearsFirst(n: Name, data: string)
    requires n != "" && !IsMarker(n)
    ensures Unblocked(FileLayer(n, data), NestedOpaque(n)) <==> Precedes(OPQ, n)
    ensures n[0] > '.' ==> Unblocked(FileLayer(n, data), NestedOpaque(n))
    ensures n[0] < '.' ==> !Unblocked(FileLayer(n, data), NestedOpaque(n))
  {
    NestedOpaqueClears(n, data);
    OpqFirst(n);
    assert DepartsAt(OPQ, n, 0) <==> n[0] > '.';
    forall k | 0 < k <= |OPQ| && DepartsAt(OPQ, n, k) ensures n[0] == '.' {
      assert OPQ[..k][0] == n[..k][0];
    }
  }

  /** The root's marker is visited before the directory's exactly if it comes before the directory's name. */
  lemma OpqFirst(n: Name)
    ensures PartsLess([OPQ], [n, OPQ]) <==> OPQ == n || Precedes(OPQ, n)
  {
    StrLessMeans(OPQ, n);
    assert [OPQ][1..] == [] && [n, OPQ][1..] == [OPQ];
  }

  lemma NestedOpaqueClears(n: Name, data: string)
    requires n != "" && !IsMarker(n)
    ensures Unblocked(FileLayer(n, data), NestedOpaque(n)) <==> PartsLess([OPQ], [n, OPQ])
  {
    var m, l := FileLayer(n, data), NestedOpaque(n);
    var x, y := [n, OPQ], [OPQ];
    MarkerNames(n);
    assert Parent(x) == [n] && Parent(y) == [] && Last(x) == Last(y) == OPQ;
    assert [n][..0] == [] && [n][..1] == [n];
    assert forall z | z in l && IsOpq(z) :: z == x || z == y;
    assert Clear(m, l, y);
    assert Clear(m, l, x) <==> PartsLess(y, x);
    forall e | e in l ensures !LinkInTheWay(m, l, e) {
    }
  }

  /** A pack whose only entry is a symlink, which may lead nowhere inside the packs being merged. */
  function LinkLayer(n: Name, target: string, dangling: bool): Tree {
    map[[] := Dir, [n] := Leaf(target, dangling)]
  }

  /**
   A directory committed over an older symlink: the merge of the two raises exactly if the link dangles in
   the scratch directory; any other file gives way.
   */
  lemma DirOverLinkRaises(n: Name, target: string, dangling: bool)
    requires n != "" && !IsMarker(n)
    ensures Buildable([LinkLayer(n, target, dangling), DirLayer(n)]) <==> !dangling
  {
    var m, l, e := LinkLayer(n, target, dangling), DirLayer(n), [n];
    BuildsLink(n, m);
    assert WhPath(e) == [WH + n] && |WH + n| == |n| + 4;
    assert OpqPath(e[..0]) == [OPQ];
    MarkerNames(n);
    if dangling {
      assert LinkInTheWay(m, l, e);
    }
  }

  lemma BuildsLink(n: Name, m: Tree)
    requires n != "" && !IsMarker(n) && m.Keys == {[], [n]} && IsDir(m, []) && IsLeaf(m, [n])
    ensures Buildable([m, DirLayer(n)]) <==> Unblocked(m, DirLayer(n))
  {
    var l := DirLayer(n);
    assert [m, l][..1] == [m] && [m][..0] == [];
    assert WhPath([n]) == [WH + n] && |WH + n| == |n| + 4 && Parent([n]) == [];
    assert Last([n]) == n;
    MergeOverEmpty(m);
    assert Built([m]) == MergeLossy(EMPTY_TREE, m);
    assert forall p | p in m :: !Lost(m, p);
    assert MergeLossy(EMPTY_TREE, m).Keys == m.Keys;
    assert Buildable([m][..0]) && Unblocked(EMPTY_TREE, m);
  }

  /**
   Compacting a whole stack into one pack changes how read-only readers mount it.  They see what they saw
   before exactly if nothing was lost and no tombstone is left in the pack.
   */
  lemma WholeStackCompaction(run: seq<Tree>)
    requires AreLayers(run) && |run| > 1
    ensures Shows(ReadOnly([Built(run)])) == Shows(ReadOnly(run)) <==> NothingLost(run) && !HoldsMarker(Built(run))
  {
    var b := Built(run);
    BuiltIsLayer(run);
    ReadOnlyShowsView(run);
    ReadOnlyShowsView([b]);
    LoneView(b);
    if NothingLost(run) {
      BuiltIsMerged(run);
      MergeAloneShowsRun(run);
    } else {
      var i, p :| 0 <= i < |run| && p in run[i] && LostAt(run, i, p);
      LostIsMissing(run, p);
      BuiltPointwise(run, p);
    }
    if HoldsMarker(b) {
      var p :| p in b && MarkerPath(p);
      EmptyIsView();
      ApplyAllIsView(EMPTY_TREE, run);
    }
  }

  /** A file and its deletion, compacted: read-only readers find the tombstone, writable mounts do not. */
  lemma DeletionShowsItsTombstone(n: Name, data: string)
    requires GoodTarget(n)
    ensures var run := [FileLayer(n, data), DeletionLayer(n)];
            && Transparent(run, Built(run))
            && [WH + n] in Shows(ReadOnly([Built(run)])) && [WH + n] !in Shows(ReadOnly(run))
  {
    var run := [FileLayer(n, data), DeletionLayer(n)];
    RecreationLayers(n, data);
    NothingLostAlone(n, data);
    MarkerNames(n);
    assert WhPath([n]) == [WH + n];
    BuiltOfTwo(run[0], run[1]);
    forall i, q | 0 <= i < |run| && q in run[i] ensures !ForgottenAt(run, i, q) {
    }
    CompactionIsTransparent(run);
    assert MarkerPath([WH + n]);
    ReadOnlyShowsView(run);
    EmptyIsView();
    ApplyAllIsView(EMPTY_TREE, run);
  }
}
