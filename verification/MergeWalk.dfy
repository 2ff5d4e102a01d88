/**
 The two-pass merge of an extracted layer into a scratch directory, step by step, and exactly what it
 leaves there: Merge of the two trees minus the entries the walk loses (MergeLossy).  The merge raises
 exactly when an opaque directory meets an older file, or any directory an older dangling symlink, that
 nothing cleared away in time (Unblocked).
 */
module MergeWalk {
  import opened Trees
  import opened Layers

  predicate IsOpq(x: Path) {
    x != [] && Last(x) == OPQ
  }

  predicate HasLeafAbove(t: Tree, d: Path) {
    exists k | 0 <= k <= |d| :: IsLeaf(t, d[..k])
  }

  /**
   Every older file at or above the opaque directory of marker x is cleared away by an opaque ancestor
   visited earlier.
   */
  predicate Clear(m: Tree, l: Tree, x: Path)
    requires x != []
  {
    forall k | 0 <= k <= |Parent(x)| && IsLeaf(m, Parent(x)[..k]) ::
      exists y | y in l && IsOpq(y) :: Parent(y) < Parent(x)[..k] && PartsLess(y, x)
  }

  /** No opaque directory of l meets an older file: pass one does not raise. */
  predicate OpaquesClear(m: Tree, l: Tree) {
    forall x | x in l && IsOpq(x) :: Clear(m, l, x)
  }

  /**
   Directory e of l meets an older dangling symlink: no opaque directory above cleared it, no whiteout of
   an ancestor removed it, and its own whiteout, if the layer has one, sorts after the directory.
   */
  predicate LinkInTheWay(m: Tree, l: Tree, e: Path) {
    && e != [] && IsDir(l, e) && IsDangling(m, e)
    && (forall k | 0 <= k < |e| :: OpqPath(e[..k]) !in l)
    && (forall k | 1 <= k < |e| :: WhPath(e[..k]) !in l)
    && (WhPath(e) in l ==> StrLess(Last(e), WH + Last(e)))
  }

  /** The merge of l into m does not raise. */
  predicate Unblocked(m: Tree, l: Tree) {
    && OpaquesClear(m, l)
    && forall e | e in l :: !LinkInTheWay(m, l, e)
  }

  /**
   The walk loses an entry that its own layer whites out when the entry sorts before the whiteout and
   the layer has nothing below it.
   */
  predicate Lost(l: Tree, p: Path) {
    && p in l && p != []
    && WhPath(p) in l && !IsMarker(Last(p))
    && StrLess(Last(p), WH + Last(p))
    && forall x | x in l :: !(p < x)
  }

  /**
   On names: only what sorts before its whiteout is lost, so nothing whose name starts above "." and whatever
   starts below it.
   */
  lemma LostOnNames(l: Tree, p: Path)
    requires p != []
    ensures Lost(l, p) <==>
            && p in l && WhPath(p) in l && !IsMarker(Last(p))
            && (forall x | x in l :: !(p < x))
            && SortsFirst(Last(p))
    ensures Lost(l, p) && Last(p) != "" ==> Last(p)[0] <= '.'
  {
    StrLessMeans(Last(p), WH + Last(p));
    if !IsMarker(Last(p)) {
      SortsFirstOnNames(Last(p));
    }
  }

  /** What the walk leaves behind. */
  function MergeLossy(m: Tree, l: Tree): Tree {
    map p | p in Merge(m, l) && !Lost(l, p) :: Merge(m, l)[p]
  }

  lemma MergeLossyIsLayer(m: Tree, l: Tree)
    requires IsLayer(m) && IsLayer(l)
    ensures IsLayer(MergeLossy(m, l))
  {
    MergeIsLayer(m, l);
    var t := MergeLossy(m, l);
    forall p | p in t && p != [] ensures IsDir(t, Parent(p)) {
      var d := Parent(p);
      assert IsDir(Merge(m, l), d);
      if Lost(l, d) {
        assert d < p;
        assert p !in l;
        assert p[..|d|] == d;
        assert HidesAt(l, p, |d|);
        assert false;
      }
    }
  }

  // ---- primitive steps as functions on trees ----

  /** Everything below d gone. */
  function Emptied(t: Tree, d: Path): Tree {
    map x | x in t && !(d < x) :: t[x]
  }

  function Copied(t: Tree, p: Path, e: Entry): Tree
    requires p != []
  {
    WithDirs(Without(t, p), Parent(p))[p := e]
  }

  function WhiteoutTarget(p: Path): Path
    requires MarkerPath(p)
  {
    Parent(p) + [Target(Last(p))]
  }

  lemma WhiteoutInverse(p: Path)
    requires MarkerPath(p)
    ensures WhPath(WhiteoutTarget(p)) == p
  {
    var t := WhiteoutTarget(p);
    assert Parent(t) == Parent(p);
    assert WH + Target(Last(p)) == Last(p);
    assert p == Parent(p) + [Last(p)];
  }

  // ---- pass one: opaque markers ----

  function OpqMarkers(l: Tree): set<Path> {
    set x | x in l && IsOpq(x)
  }

  /** p is in m and below no directory cleared so far. */
  predicate Kept(m: Tree, done: set<Path>, p: Path)
    requires forall x | x in done :: x != []
  {
    p in m && forall x | x in done :: !(Parent(x) < p)
  }

  ghost predicate PassOne(m: Tree, l: Tree, done: set<Path>, cur: Tree) {
    && IsLayer(cur)
    && (forall x | x in done :: x in l && IsOpq(x))
    && (forall p | p in cur :: (Kept(m, done, p) && cur[p] == m[p]) || (IsDir(l, p) && cur[p] == Dir))
    && (forall p | Kept(m, done, p) :: p in cur && cur[p] == m[p])
  }

  lemma PassOneStep(m: Tree, l: Tree, done: set<Path>, cur: Tree, x: Path)
    requires IsLayer(m) && IsLayer(l) && PassOne(m, l, done, cur)
    requires x in l && IsOpq(x) && !HasLeafAbove(cur, Parent(x))
    ensures PassOne(m, l, done + {x}, WithDirs(Emptied(cur, Parent(x)), Parent(x)))
  {
    var d := Parent(x);
    var next := WithDirs(Emptied(cur, d), d);
    forall p | p <= d ensures IsDir(l, p) && !IsLeaf(cur, p) && !MarkerPath(p) {
      assert p < x;
      ProperPrefixIsDir(l, p, x);
      PrefixIndex(p, d);
    }
    ClearedIsLayer(cur, d);
    forall p | Kept(m, done + {x}, p) ensures p in next && next[p] == m[p] {
      assert Kept(m, done, p) && p in cur;
      assert Parent(x) == d && x in done + {x};
    }
    forall p | p in next
      ensures (Kept(m, done + {x}, p) && next[p] == m[p]) || (IsDir(l, p) && next[p] == Dir)
    {
      if !(p <= d) {
        assert p in cur && !(d < p);
      }
    }
  }

  /** Clearing and recreating a directory keeps the scratch tree well-formed. */
  lemma ClearedIsLayer(t: Tree, d: Path)
    requires IsLayer(t) && (forall p | p <= d :: !IsLeaf(t, p) && !MarkerPath(p))
    ensures IsLayer(WithDirs(Emptied(t, d), d))
  {
    var next := WithDirs(Emptied(t, d), d);
    forall p | p in next && p != [] ensures IsDir(next, Parent(p)) {
      if p <= d {
        assert Parent(p) <= d;
      } else {
        assert IsDir(t, Parent(p));
        assert d < Parent(p) ==> d < p;
      }
    }
  }

  /** The markers visited before x are those sorting before it. */
  lemma ClearMeansKept(m: Tree, l: Tree, done: set<Path>, rest: set<Path>, x: Path)
    requires done + rest == OpqMarkers(l) && done !! rest && x in rest
    requires forall a, b | a in done && b in rest :: !PartsLess(b, a)
    requires forall y | y in rest :: !PartsLess(y, x)
    ensures Clear(m, l, x) <==>
            !exists k | 0 <= k <= |Parent(x)| :: IsLeaf(m, Parent(x)[..k]) && Kept(m, done, Parent(x)[..k])
  {
    forall y ensures y in l && IsOpq(y) && PartsLess(y, x) <==> y in done {
      PartsLessTotal(y, x);
    }
  }

  // ---- pass two: the depth-sorted walk ----

  /** The walk has processed a whiteout of q (the opaque marker is not one). */
  predicate Whited(done: set<Path>, q: Path) {
    q != [] && WH + Last(q) != OPQ && WhPath(q) in done
  }

  /** p, processed before its own whiteout, has been deleted by it. */
  predicate Deleted(done: set<Path>, p: Path) {
    p != [] && Whited(done, p) && StrLess(Last(p), WH + Last(p))
  }

  predicate HiddenAt(l: Tree, done: set<Path>, p: Path, k: nat)
    requires k <= |p|
  {
    Whited(done, p[..k]) || (k < |p| && p[..k] in done && IsLeaf(l, p[..k]))
  }

  /** The part of the layer walked so far hides older content of p. */
  predicate HiddenBy(l: Tree, done: set<Path>, p: Path) {
    exists k | 1 <= k <= |p| :: HiddenAt(l, done, p, k)
  }

  ghost predicate InWalk(l: Tree, m1: Tree, done: set<Path>, p: Path) {
    || (p in done && (Deleted(done, p) ==> exists x | x in done :: p < x))
    || (p in m1 && !HiddenBy(l, done, p))
  }

  ghost predicate PassTwo(l: Tree, m1: Tree, done: set<Path>, cur: Tree) {
    && (forall p :: p in cur <==> InWalk(l, m1, done, p))
    && (forall p | p in cur && p in done && p in l :: cur[p] == l[p])
    && (forall p | p in cur && p !in done && p in m1 :: cur[p] == m1[p])
  }

  /** Where the walk stands: done and rest split the layer, and done comes first. */
  ghost predicate Split(l: Tree, done: set<Path>, rest: set<Path>) {
    && done + rest == l.Keys && done !! rest
    && [] in done
    && forall x, y | x in done && y in rest :: !DepthLess(y, x)
  }

  /** e is a legitimate next entry of the walk. */
  ghost predicate IsNext(l: Tree, done: set<Path>, rest: set<Path>, e: Path) {
    && Split(l, done, rest) && e in rest
    && forall y | y in rest :: !DepthLess(y, e)
  }

  lemma NextFacts(l: Tree, done: set<Path>, rest: set<Path>, e: Path)
    requires IsLayer(l) && IsNext(l, done, rest, e)
    ensures e in l && e != []
    ensures forall q | q < e :: q in done && IsDir(l, q)
    ensures forall x | x in done :: !(e <= x)
    ensures !Deleted(done, e)
  {
    forall q | q < e ensures q in done && IsDir(l, q) {
      ProperPrefixIsDir(l, q, e);
    }
    forall x | x in done ensures !(e <= x) {
      assert x != e;
    }
    if Deleted(done, e) {
      var w := WhPath(e);
      assert e == Parent(e) + [Last(e)];
      SiblingsSortByName(Parent(e), Last(e), WH + Last(e));
      assert false;
    }
  }

  lemma SplitNext(l: Tree, done: set<Path>, rest: set<Path>, e: Path)
    requires IsNext(l, done, rest, e)
    ensures Split(l, done + {e}, rest - {e})
  {
  }

  /** Ancestors of the next entry are never files in the scratch directory. */
  lemma NoLeafAbove(l: Tree, m1: Tree, done: set<Path>, rest: set<Path>, cur: Tree, e: Path, k: nat)
    requires IsLayer(l) && IsNext(l, done, rest, e) && PassTwo(l, m1, done, cur) && k < |e|
    ensures !IsLeaf(cur, e[..k])
  {
    NextFacts(l, done, rest, e);
    assert e[..k] < e;
  }

  lemma StillHidden(l: Tree, done: set<Path>, e: Path, p: Path)
    requires HiddenBy(l, done, p)
    ensures HiddenBy(l, done + {e}, p)
  {
    var k :| 1 <= k <= |p| && HiddenAt(l, done, p, k);
    assert HiddenAt(l, done + {e}, p, k);
  }

  lemma PrefixIndex(q: Path, e: Path)
    requires q <= e
    ensures q == e[..|q|]
  {
  }

  /** A directory entry: an older file gives way, missing ancestors come back. */
  lemma DirectoryStep(l: Tree, m1: Tree, done: set<Path>, rest: set<Path>, cur: Tree, e: Path)
    requires IsLayer(l) && IsLayer(m1) && IsNext(l, done, rest, e) && PassTwo(l, m1, done, cur) && IsDir(l, e)
    requires Rooted(cur)
    ensures PassTwo(l, m1, done + {e}, WithDirs(if IsLeaf(cur, e) then Without(cur, e) else cur, e))
  {
    forall p {
      DirectoryStepAt(l, m1, done, rest, cur, e, p);
    }
  }

  lemma DirectoryStepAt(l: Tree, m1: Tree, done: set<Path>, rest: set<Path>, cur: Tree, e: Path, p: Path)
    requires IsLayer(l) && IsLayer(m1) && IsNext(l, done, rest, e) && PassTwo(l, m1, done, cur) && IsDir(l, e)
    requires Rooted(cur)
    ensures var next := WithDirs(if IsLeaf(cur, e) then Without(cur, e) else cur, e);
            && (p in next <==> InWalk(l, m1, done + {e}, p))
            && (p in next && p in done + {e} && p in l ==> next[p] == l[p])
            && (p in next && p !in done + {e} && p in m1 ==> next[p] == m1[p])
  {
    var next := WithDirs(if IsLeaf(cur, e) then Without(cur, e) else cur, e);
    if p <= e {
      OnTheWay(l, m1, done, rest, e, p);
    } else {
      if e < p && IsLeaf(cur, e) && p in cur {
        ProperPrefixIsDir(cur, e, p);
      }
      assert p in next <==> p in cur;
      OtherUnaffected(l, m1, done, e, p);
    }
  }

  /** Walking a directory hides nothing new. */
  lemma DirHidesNothing(l: Tree, done: set<Path>, e: Path, p: Path)
    requires IsLayer(l) && IsDir(l, e)
    ensures HiddenBy(l, done + {e}, p) <==> HiddenBy(l, done, p)
    ensures p != [] ==> (Whited(done + {e}, p) <==> Whited(done, p))
  {
    if HiddenBy(l, done, p) {
      StillHidden(l, done, e, p);
    }
    assert forall q: Path | q != [] :: WhPath(q) != e;
    if k :| 1 <= k <= |p| && HiddenAt(l, done + {e}, p, k) {
      assert HiddenAt(l, done, p, k);
    }
  }

  /** Adding a directory e to what has been walked changes nothing off the path to e. */
  lemma OtherUnaffected(l: Tree, m1: Tree, done: set<Path>, e: Path, p: Path)
    requires IsLayer(l) && IsDir(l, e) && !(p <= e)
    ensures InWalk(l, m1, done + {e}, p) <==> InWalk(l, m1, done, p)
  {
    DirHidesNothing(l, done, e, p);
  }

  /** A file or opaque marker: the old subtree gives way to it. */
  lemma CopyStep(l: Tree, m1: Tree, done: set<Path>, rest: set<Path>, cur: Tree, e: Path)
    requires IsLayer(l) && IsLayer(m1) && IsNext(l, done, rest, e) && PassTwo(l, m1, done, cur)
    requires IsLeaf(l, e) && (!MarkerPath(e) || IsOpq(e))
    ensures PassTwo(l, m1, done + {e}, Copied(cur, e, l[e]))
  {
    NextFacts(l, done, rest, e);
    var next := Copied(cur, e, l[e]);
    var done' := done + {e};
    forall p
      ensures p in next <==> InWalk(l, m1, done', p)
      ensures p in next && p in done' && p in l ==> next[p] == l[p]
      ensures p in next && p !in done' && p in m1 ==> next[p] == m1[p]
    {
      CopyAt(l, m1, done, rest, cur, e, cur, p);
    }
  }

  /** A whiteout: its target goes, and the whiteout file stays for the layers below the group. */
  lemma WhiteoutStep(l: Tree, m1: Tree, done: set<Path>, rest: set<Path>, cur: Tree, e: Path)
    requires IsLayer(l) && IsLayer(m1) && IsNext(l, done, rest, e) && PassTwo(l, m1, done, cur)
    requires IsLeaf(l, e) && MarkerPath(e) && !IsOpq(e)
    ensures PassTwo(l, m1, done + {e}, Copied(Without(cur, WhiteoutTarget(e)), e, l[e]))
  {
    NextFacts(l, done, rest, e);
    var t := Without(cur, WhiteoutTarget(e));
    var next := Copied(t, e, l[e]);
    var done' := done + {e};
    forall p
      ensures p in next <==> InWalk(l, m1, done', p)
      ensures p in next && p in done' && p in l ==> next[p] == l[p]
      ensures p in next && p !in done' && p in m1 ==> next[p] == m1[p]
    {
      CopyAt(l, m1, done, rest, cur, e, t, p);
    }
  }

  lemma NoLeafOnTheWay(t: Tree, u: Tree, e: Path)
    requires e != [] && (forall x | x in u :: x in t && u[x] == t[x])
    requires forall k | 0 <= k < |e| :: !IsLeaf(t, e[..k])
    ensures !HasLeafAbove(Without(u, e), Parent(e))
  {
    var v := Without(u, e);
    forall k | 0 <= k <= |Parent(e)| ensures !IsLeaf(v, Parent(e)[..k]) {
      assert Parent(e)[..k] == e[..k];
    }
  }

  /** The effect of copying e, path by path; t is the scratch tree just before the copy. */
  lemma CopyAt(l: Tree, m1: Tree, done: set<Path>, rest: set<Path>, cur: Tree, e: Path, t: Tree, p: Path)
    requires IsLayer(l) && IsLayer(m1) && IsNext(l, done, rest, e) && PassTwo(l, m1, done, cur)
    requires IsLeaf(l, e)
    requires p in t ==> p in cur && t[p] == cur[p]
    requires if MarkerPath(e) && !IsOpq(e) then p in t <==> p in cur && !(WhiteoutTarget(e) <= p) else t == cur
    ensures var next := Copied(t, e, l[e]);
            && (p in next <==> InWalk(l, m1, done + {e}, p))
            && (p in next && p in done + {e} && p in l ==> next[p] == l[p])
            && (p in next && p !in done + {e} && p in m1 ==> next[p] == m1[p])
  {
    NextFacts(l, done, rest, e);
    var next := Copied(t, e, l[e]);
    var done' := done + {e};
    if p <= e {
      OnTheWay(l, m1, done, rest, e, p);
      assert p != e ==> p <= Parent(e);
    } else {
      assert !(p <= Parent(e));
      assert p in next <==> p in t && !(e <= p);
      CopyElsewhere(l, m1, done, rest, e, p);
    }
  }

  /** A walked entry and its ancestors are there. */
  lemma OnTheWay(l: Tree, m1: Tree, done: set<Path>, rest: set<Path>, e: Path, p: Path)
    requires IsLayer(l) && IsNext(l, done, rest, e) && p <= e
    ensures InWalk(l, m1, done + {e}, p) && p in done + {e}
    ensures p != e ==> IsDir(l, p)
  {
    NextFacts(l, done, rest, e);
    if p == e {
      assert WhPath(e) != e;
    } else {
      assert p < e;
    }
  }

  /** A whiteout deletes an entry of its own layer that the walk reached first. */
  lemma WipedEntry(l: Tree, done: set<Path>, rest: set<Path>, e: Path, p: Path)
    requires IsLayer(l) && IsNext(l, done, rest, e) && MarkerPath(e) && !IsOpq(e)
    requires p in done && WhiteoutTarget(e) <= p
    ensures Deleted(done + {e}, p) && forall x | x in done + {e} :: !(p < x)
  {
    var q := WhiteoutTarget(e);
    var n := Target(Last(e));
    assert !DepthLess(e, p);
    assert |p| <= |e| == |q|;
    assert p == q && Last(p) == n && Parent(p) == Parent(e);
    WhiteoutInverse(e);
    assert e == Parent(e) + [WH + n] && p == Parent(e) + [n];
    SiblingsSortByName(Parent(e), WH + n, n);
    StrLessTotal(n, WH + n);
    assert n != WH + n by {
      assert |WH + n| == |WH| + |n|;
    }
  }

  /** Below a copied file nothing older survives. */
  lemma BelowCopied(l: Tree, m1: Tree, done: set<Path>, rest: set<Path>, e: Path, p: Path)
    requires IsLayer(l) && IsNext(l, done, rest, e) && IsLeaf(l, e) && e < p
    ensures !InWalk(l, m1, done + {e}, p)
  {
    NextFacts(l, done, rest, e);
    PrefixIndex(e, p);
    assert HiddenAt(l, done + {e}, p, |e|);
    if p in done {
      ProperPrefixIsDir(l, e, p);
    }
  }

  /** At and below the target of a processed whiteout nothing older survives. */
  lemma BelowTarget(l: Tree, m1: Tree, done: set<Path>, rest: set<Path>, e: Path, p: Path)
    requires IsLayer(l) && IsNext(l, done, rest, e) && MarkerPath(e) && !IsOpq(e) && e != p
    requires WhiteoutTarget(e) <= p
    ensures !InWalk(l, m1, done + {e}, p)
  {
    var q := WhiteoutTarget(e);
    WhiteoutInverse(e);
    PrefixIndex(q, p);
    assert Last(WhPath(q)) == Last(e);
    assert Whited(done + {e}, p[..|q|]);
    assert HiddenAt(l, done + {e}, p, |q|);
    if p in done {
      WipedEntry(l, done, rest, e, p);
    }
  }

  /** Elsewhere copying e changes nothing. */
  lemma AwayFromCopied(l: Tree, m1: Tree, done: set<Path>, e: Path, p: Path)
    requires !(p <= e) && !(e <= p)
    requires MarkerPath(e) && !IsOpq(e) ==> !(WhiteoutTarget(e) <= p)
    ensures InWalk(l, m1, done + {e}, p) <==> InWalk(l, m1, done, p)
  {
    assert forall k | 1 <= k <= |p| :: HiddenAt(l, done + {e}, p, k) <==> HiddenAt(l, done, p, k);
    if p != [] {
      assert p[..|p|] == p;
    }
  }

  /** Off the path to e, copying e removes what sits below e and, for a whiteout, at or below its target. */
  lemma CopyElsewhere(l: Tree, m1: Tree, done: set<Path>, rest: set<Path>, e: Path, p: Path)
    requires IsLayer(l) && IsNext(l, done, rest, e) && IsLeaf(l, e) && !(p <= e)
    ensures InWalk(l, m1, done + {e}, p) <==>
            && InWalk(l, m1, done, p) && !(e <= p)
            && !(MarkerPath(e) && !IsOpq(e) && WhiteoutTarget(e) <= p)
  {
    if e <= p {
      BelowCopied(l, m1, done, rest, e, p);
    } else if MarkerPath(e) && !IsOpq(e) && WhiteoutTarget(e) <= p {
      BelowTarget(l, m1, done, rest, e, p);
    } else {
      AwayFromCopied(l, m1, done, e, p);
    }
  }

  // ---- the whole merge ----

  lemma NamesOfWhited(l: Tree, p: Path)
    requires IsLayer(l) && p != []
    ensures Whited(l.Keys, p) <==> WhPath(p) in l && !IsMarker(Last(p))
  {
    MarkerNames(Last(p));
    assert Last(WhPath(p)) == WH + Last(p);
    if WH + Last(p) == OPQ {
      assert Last(p) == OPQ[|WH|..];
    }
  }

  /** Hiding by a whole layer is what pass one cleared plus what the walk wipes. */
  lemma HidesSplits(l: Tree, p: Path)
    requires IsLayer(l)
    ensures Hides(l, p) <==> HiddenBy(l, l.Keys, p) || exists x | x in OpqMarkers(l) :: Parent(x) < p
  {
    if Hides(l, p) {
      var k :| 1 <= k <= |p| && HidesAt(l, p, k);
      var y := OpqPath(p[..k - 1]);
      assert IsOpq(y) && Parent(y) == p[..k - 1] && Parent(y) < p;
      if y in l {
        assert y in OpqMarkers(l);
      } else {
        WhPathOfPrefix(p, k);
        assert HiddenAt(l, l.Keys, p, k);
      }
    }
    if HiddenBy(l, l.Keys, p) {
      var k :| 1 <= k <= |p| && HiddenAt(l, l.Keys, p, k);
      assert HidesAt(l, p, k);
    }
    if x :| x in OpqMarkers(l) && Parent(x) < p {
      assert x == OpqPath(Parent(x));
      OpaqueHidesBelow(l, Parent(x), p);
    }
  }

  lemma WalkResultAt(m: Tree, l: Tree, m1: Tree, p: Path)
    requires IsLayer(m) && IsLayer(l) && PassOne(m, l, OpqMarkers(l), m1)
    ensures InWalk(l, m1, l.Keys, p) <==> p in MergeLossy(m, l)
    ensures p in m1 && p in MergeLossy(m, l) && p !in l ==> m1[p] == MergeLossy(m, l)[p]
  {
    if p in l {
      if p != [] {
        NamesOfWhited(l, p);
        if Lost(l, p) {
          assert p[..|p|] == p;
          assert HiddenAt(l, l.Keys, p, |p|);
        }
      }
    } else {
      HidesSplits(l, p);
      assert p in m1 <==> Kept(m, OpqMarkers(l), p);
    }
  }

  /** When the walk comes to a directory, it meets a dangling symlink exactly where Unblocked says. */
  lemma LinkMet(m: Tree, l: Tree, m1: Tree, done: set<Path>, rest: set<Path>, cur: Tree, e: Path)
    requires IsLayer(m) && IsLayer(l) && PassOne(m, l, OpqMarkers(l), m1)
    requires IsNext(l, done, rest, e) && PassTwo(l, m1, done, cur)
    ensures IsDir(l, e) && IsDangling(cur, e) <==> LinkInTheWay(m, l, e)
  {
    NextFacts(l, done, rest, e);
    if IsDir(l, e) {
      WhitedSoFar(l, done, rest, e);
      KeptAbove(m, l, e);
      assert IsDangling(cur, e) <==> IsDangling(m1, e) && !HiddenBy(l, done, e);
      assert IsDangling(m1, e) <==> IsDangling(m, e) && Kept(m, OpqMarkers(l), e);
    }
  }

  /** Nothing cleared an entry exactly when no opaque marker lies in a directory above it. */
  lemma KeptAbove(m: Tree, l: Tree, e: Path)
    ensures Kept(m, OpqMarkers(l), e) <==> e in m && forall k | 0 <= k < |e| :: OpqPath(e[..k]) !in l
  {
    forall k | 0 <= k < |e| && OpqPath(e[..k]) in l ensures !Kept(m, OpqMarkers(l), e) {
      assert OpqPath(e[..k]) in OpqMarkers(l) && Parent(OpqPath(e[..k])) == e[..k];
    }
    forall x | x in OpqMarkers(l) && Parent(x) < e ensures x == OpqPath(e[..|Parent(x)|]) {
    }
  }

  /** Whiteouts of ancestors come before e in the walk; e's own does if it sorts first. */
  lemma WhitedSoFar(l: Tree, done: set<Path>, rest: set<Path>, e: Path)
    requires IsLayer(l) && IsNext(l, done, rest, e) && IsDir(l, e) && e != []
    ensures HiddenBy(l, done, e) <==>
            || (exists k | 1 <= k < |e| :: WhPath(e[..k]) in l)
            || (WhPath(e) in l && !StrLess(Last(e), WH + Last(e)))
  {
    assert e[..|e|] == e;
    forall k | 1 <= k <= |e|
      ensures HiddenAt(l, done, e, k) <==> WhPath(e[..k]) in done
      ensures k < |e| ==> (WhPath(e[..k]) in done <==> WhPath(e[..k]) in l)
    {
      AncestorWhiteout(l, done, rest, e, k);
    }
    OwnWhiteout(l, done, rest, e);
  }

  lemma AncestorWhiteout(l: Tree, done: set<Path>, rest: set<Path>, e: Path, k: nat)
    requires IsLayer(l) && IsNext(l, done, rest, e) && IsDir(l, e) && 1 <= k <= |e|
    ensures HiddenAt(l, done, e, k) <==> WhPath(e[..k]) in done
    ensures k < |e| ==> (WhPath(e[..k]) in done <==> WhPath(e[..k]) in l)
  {
    var q := e[..k];
    NextFacts(l, done, rest, e);
    if k < |e| {
      AncestorIsDir(l, e, k);
    } else {
      assert q == e;
    }
    assert !MarkerPath(q);
    MarkerNames(Last(q));
    if k < |e| && WhPath(q) in l {
      assert DepthLess(WhPath(q), e);
    }
  }

  lemma OwnWhiteout(l: Tree, done: set<Path>, rest: set<Path>, e: Path)
    requires IsLayer(l) && IsNext(l, done, rest, e) && IsDir(l, e) && e != []
    ensures WhPath(e) in done <==> WhPath(e) in l && !StrLess(Last(e), WH + Last(e))
  {
    var n, w := Last(e), WhPath(e);
    assert e == Parent(e) + [n] && |WH + n| == |n| + 4;
    if w in l {
      StrLessTotal(n, WH + n);
      SiblingsSortByName(Parent(e), n, WH + n);
      SiblingsSortByName(Parent(e), WH + n, n);
    }
  }

  /** After both passes the scratch directory holds exactly MergeLossy. */
  lemma WalkResult(m: Tree, l: Tree, m1: Tree, cur: Tree)
    requires IsLayer(m) && IsLayer(l)
    requires PassOne(m, l, OpqMarkers(l), m1) && PassTwo(l, m1, l.Keys, cur)
    ensures cur == MergeLossy(m, l)
  {
    var want := MergeLossy(m, l);
    forall p ensures p in cur <==> p in want ensures p in cur ==> cur[p] == want[p] {
      WalkResultAt(m, l, m1, p);
    }
    assert cur.Keys == want.Keys;
  }

  lemma NothingBelowMissing(t: Tree, p: Path)
    requires Rooted(t) && p !in t
    ensures Without(t, p) == t && Emptied(t, p) == t
  {
    forall x | x in t ensures !(p <= x) {
      if p <= x {
        assert p != x;
        ProperPrefixIsDir(t, p, x);
      }
    }
  }

  lemma DirsAlreadyThere(t: Tree, p: Path)
    requires Rooted(t) && IsDir(t, p)
    ensures WithDirs(t, p) == t
  {
    forall x | x <= p ensures IsDir(t, x) {
      if x != p {
        ProperPrefixIsDir(t, x, p);
      }
    }
    var u := WithDirs(t, p);
    forall x ensures x in u <==> x in t ensures x in u ==> u[x] == t[x] {
      assert x <= p ==> IsDir(t, x);
    }
  }

  lemma NoLeafAboveDir(t: Tree, p: Path)
    requires Rooted(t) && IsDir(t, p)
    ensures !HasLeafAbove(t, p)
  {
    assert p[..|p|] == p;
    forall k | 0 <= k < |p| ensures !IsLeaf(t, p[..k]) {
      AncestorIsDir(t, p, k);
    }
  }

  lemma DirsBelowParent(t: Tree, p: Path)
    requires p != [] && p !in t
    ensures WithDirs(t, p) == WithDirs(t, Parent(p))[p := Dir]
    ensures HasLeafAbove(t, p) <==> HasLeafAbove(t, Parent(p))
  {
    var a, b := WithDirs(t, p), WithDirs(t, Parent(p))[p := Dir];
    forall x: Path ensures x in a <==> x in b ensures x in a ==> a[x] == b[x] {
      assert x <= p <==> x <= Parent(p) || x == p;
    }
    assert a.Keys == b.Keys;
    forall k | 0 <= k <= |Parent(p)| ensures Parent(p)[..k] == p[..k] {
    }
    assert p[..|p|] == p;
  }

  predicate UnderAny(ps: set<Path>, x: Path) {
    exists p | p in ps :: p <= x
  }

  function Children(t: Tree, d: Path): set<Path> {
    set p | p in t && p != [] && Parent(p) == d
  }

  /** Everything below a directory is below one of its children. */
  lemma BelowIsUnderChild(t: Tree, d: Path, x: Path)
    requires Rooted(t) && x in t
    ensures UnderAny(Children(t, d), x) <==> d < x
  {
    if d < x {
      var p := x[..|d| + 1];
      if |p| < |x| {
        AncestorIsDir(t, x, |p|);
      } else {
        assert p == x;
      }
      assert Parent(p) == d;
      assert p in Children(t, d) && p <= x;
    }
  }

  /** The scratch directory the packs of a compaction are merged into. */
  class Workdir {
    var nodes: Tree

    constructor ()
      ensures nodes == EMPTY_TREE
    {
      nodes := EMPTY_TREE;
    }

    /** Unlinks a file, removes a directory with everything in it, ignores what is not there. */
    method RemovePath(p: Path)
      requires Rooted(nodes) && p != []
      modifies this
      ensures nodes == Without(old(nodes), p) && Rooted(nodes)
    {
      ghost var t := nodes;
      if p in nodes && nodes[p].Leaf? {
        forall x | x in t && p <= x ensures x == p {
          if p < x {
            ProperPrefixIsDir(t, p, x);
          }
        }
        nodes := nodes - {p};
        assert nodes == Without(t, p);
      } else if p in nodes {
        nodes := Without(nodes, p);
      } else {
        NothingBelowMissing(t, p);
      }
      forall x | x in nodes && x != [] ensures IsDir(nodes, Parent(x)) {
        assert p <= Parent(x) ==> p <= x;
      }
    }

    /** Creates a directory and its missing ancestors; fails on a file in the way. */
    method MakeDirs(p: Path) returns (ok: bool)
      requires Rooted(nodes)
      modifies this
      ensures ok <==> !HasLeafAbove(old(nodes), p)
      ensures nodes == (if ok then WithDirs(old(nodes), p) else old(nodes)) && Rooted(nodes)
      decreases |p|
    {
      ghost var t := nodes;
      if p in nodes {
        ok := nodes[p].Dir?;
        if ok {
          DirsAlreadyThere(t, p);
          NoLeafAboveDir(t, p);
        } else {
          assert p[..|p|] == p;
        }
        return;
      }
      DirsBelowParent(t, p);
      ok := MakeDirs(Parent(p));
      if ok {
        nodes := nodes[p := Dir];
      }
    }

    /** Copies one file or marker over whatever is in its place. */
    method CopyEntry(p: Path, e: Entry) returns (ok: bool)
      requires Rooted(nodes) && p != [] && e.Leaf?
      requires !HasLeafAbove(Without(nodes, p), Parent(p))
      modifies this
      ensures ok && nodes == Copied(old(nodes), p, e) && Rooted(nodes)
    {
      ghost var t := nodes;
      if p in nodes {
        RemovePath(p);
      } else {
        NothingBelowMissing(t, p);
      }
      ok := MakeDirs(Parent(p));
      ghost var u := nodes;
      nodes := nodes[p := e];
      forall x | x in nodes && x != [] ensures IsDir(nodes, Parent(x)) {
        if x != p {
          assert Parent(x) != p;
        }
      }
    }

    /** Removes everything inside a directory. */
    method ClearDir(d: Path)
      requires Rooted(nodes) && IsDir(nodes, d)
      modifies this
      ensures nodes == Emptied(old(nodes), d) && Rooted(nodes)
    {
      ghost var t := nodes;
      var children := Children(nodes, d);
      ghost var all := children;
      while children != {}
        invariant Rooted(nodes) && children <= all
        invariant forall x :: x in nodes <==> x in t && !UnderAny(all - children, x)
        invariant forall x | x in nodes :: nodes[x] == t[x]
        decreases children
      {
        var c :| c in children;
        ghost var before := nodes;
        RemovePath(c);
        forall x ensures UnderAny(all - (children - {c}), x) <==> UnderAny(all - children, x) || c <= x {
          assert all - (children - {c}) == all - children + {c};
        }
        children := children - {c};
      }
      forall x | x in t ensures UnderAny(all, x) <==> d < x {
        BelowIsUnderChild(t, d, x);
      }
      assert all - {} == all;
      assert nodes.Keys == Emptied(t, d).Keys;
    }

    /**
     Overlays one extracted layer onto the scratch directory: opaque markers first, then every entry,
     shallow ones first.  `ok` is false where the merge raises.
     */
    method MergeExtractedLayer(layer: Tree) returns (ok: bool)
      requires IsLayer(nodes) && IsLayer(layer)
      modifies this
      ensures ok <==> Unblocked(old(nodes), layer)
      ensures ok ==> nodes == MergeLossy(old(nodes), layer)
    {
      ghost var m := nodes;
      ok := ClearOpaque(layer);
      if !ok {
        return;
      }
      ghost var m1 := nodes;
      ghost var done: set<Path> := {[]};
      var rest := layer.Keys - {[]};
      while rest != {}
        invariant IsLayer(m1) && Rooted(nodes)
        invariant Split(layer, done, rest)
        invariant PassTwo(layer, m1, done, nodes)
        invariant forall x | x in done :: !LinkInTheWay(m, layer, x)
        decreases rest
      {
        NextByDepth(rest);
        var e :| e in rest && forall y | y in rest :: !DepthLess(y, e);
        NextFacts(layer, done, rest, e);
        LinkMet(m, layer, m1, done, rest, nodes, e);
        ok := WalkEntry(layer, m1, done, rest, e);
        if !ok {
          return;
        }
        SplitNext(layer, done, rest, e);
        done := done + {e};
        rest := rest - {e};
      }
      assert done == layer.Keys;
      WalkResult(m, layer, m1, nodes);
      ok := true;
    }

    /** Empties directory d, or creates it; fails if a file is in the way. */
    method ClearAndMake(d: Path) returns (ok: bool)
      requires Rooted(nodes)
      modifies this
      ensures ok <==> !HasLeafAbove(old(nodes), d)
      ensures ok ==> nodes == WithDirs(Emptied(old(nodes), d), d)
    {
      ghost var t := nodes;
      if d in nodes {
        if nodes[d].Leaf? {
          assert d[..|d|] == d;
          return false;
        }
        ClearDir(d);
      } else {
        NothingBelowMissing(t, d);
      }
      ok := MakeDirs(d);
    }

    /** One entry of the depth-sorted walk; a directory can not take the place of a dangling symlink. */
    method WalkEntry(layer: Tree, ghost m1: Tree, ghost done: set<Path>, ghost rest: set<Path>, e: Path)
      returns (ok: bool)
      requires IsLayer(layer) && IsLayer(m1) && Rooted(nodes)
      requires IsNext(layer, done, rest, e) && e in layer && e != []
      requires PassTwo(layer, m1, done, nodes)
      modifies this
      ensures ok <==> !(IsDir(layer, e) && IsDangling(old(nodes), e))
      ensures ok ==> PassTwo(layer, m1, done + {e}, nodes) && Rooted(nodes)
    {
      ghost var t := nodes;
      forall k | 0 <= k < |e| ensures !IsLeaf(t, e[..k]) {
        NoLeafAbove(layer, m1, done, rest, t, e, k);
      }
      if layer[e].Dir? {
        assert e[..|e|] == e;
        if e in nodes && nodes[e].Leaf? && !nodes[e].dangling {
          RemovePath(e);
        }
        ok := MakeDirs(e);
        if ok {
          DirectoryStep(layer, m1, done, rest, t, e);
        }
      } else if IsWhiteout(Last(e)) {
        RemovePath(Parent(e) + [Target(Last(e))]);
        NoLeafOnTheWay(t, nodes, e);
        ghost var u := nodes;
        ok := CopyEntry(e, layer[e]);
        WhiteoutStep(layer, m1, done, rest, t, e);
      } else {
        NoLeafOnTheWay(t, nodes, e);
        ok := CopyEntry(e, layer[e]);
        CopyStep(layer, m1, done, rest, t, e);
      }
    }

    /** One opaque marker: its directory is emptied, or something is in the way. */
    method ClearOne(ghost m: Tree, layer: Tree, ghost done: set<Path>, ghost rest: set<Path>, x: Path)
      returns (ok: bool)
      requires IsLayer(m) && IsLayer(layer) && PassOne(m, layer, done, nodes)
      requires done + rest == OpqMarkers(layer) && done !! rest && x in rest
      requires forall a, b | a in done && b in rest :: !PartsLess(b, a)
      requires forall y | y in rest :: !PartsLess(y, x)
      modifies this
      ensures ok <==> Clear(m, layer, x)
      ensures ok ==> PassOne(m, layer, done + {x}, nodes)
    {
      ghost var t := nodes;
      ClearMeansKept(m, layer, done, rest, x);
      ok := ClearAndMake(Parent(x));
      if ok {
        PassOneStep(m, layer, done, t, x);
      }
    }

    /** Pass one: opaque markers clear the directories they are in. */
    method ClearOpaque(layer: Tree) returns (ok: bool)
      requires IsLayer(nodes) && IsLayer(layer)
      modifies this
      ensures ok <==> OpaquesClear(old(nodes), layer)
      ensures ok ==> PassOne(old(nodes), layer, OpqMarkers(layer), nodes)
    {
      ghost var m := nodes;
      var rest := OpqMarkers(layer);
      ghost var done: set<Path> := {};
      while rest != {}
        invariant done + rest == OpqMarkers(layer) && done !! rest
        invariant forall x, y | x in done && y in rest :: !PartsLess(y, x)
        invariant PassOne(m, layer, done, nodes)
        invariant forall x | x in done :: Clear(m, layer, x)
        decreases rest
      {
        NextByParts(rest);
        var x :| x in rest && forall y | y in rest :: !PartsLess(y, x);
        ok := ClearOne(m, layer, done, rest, x);
        if !ok {
          return;
        }
        done := done + {x};
        rest := rest - {x};
      }
      assert done == OpqMarkers(layer);
      ok := true;
    }
  }
}
