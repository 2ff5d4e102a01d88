/**
 Paths and directory trees.

 A directory tree on disk (an extracted pack, the scratch directory of a merge, a mounted view) is a
 finite map from paths to entries.  A path is the sequence of its component names; the root is the
 empty path.
 */
module Trees {

  type Name = string
  type Path = seq<Name>

  /**
   A directory, or anything that is not one with its payload: a regular file, a symlink to one, or a
   dangling symlink, which the existence tests that follow links do not see.
   */
  datatype Entry = Dir | Leaf(data: string, dangling: bool := false)

  type Tree = map<Path, Entry>

  const EMPTY_TREE: Tree := map[[] := Dir]

  function Parent(p: Path): Path
    requires p != []
  {
    p[..|p| - 1]
  }

  function Last(p: Path): Name
    requires p != []
  {
    p[|p| - 1]
  }

  predicate IsDir(t: Tree, p: Path) {
    p in t && t[p].Dir?
  }

  predicate IsLeaf(t: Tree, p: Path) {
    p in t && t[p].Leaf?
  }

  predicate IsDangling(t: Tree, p: Path) {
    IsLeaf(t, p) && t[p].dangling
  }

  /** Every entry sits in a directory, all the way up to the root. */
  predicate Rooted(t: Tree) {
    && IsDir(t, [])
    && forall p {:trigger Parent(p)} | p in t && p != [] :: IsDir(t, Parent(p))
  }

  lemma {:induction false} AncestorIsDir(t: Tree, p: Path, k: nat)
    requires Rooted(t) && p in t && k < |p|
    ensures IsDir(t, p[..k])
    decreases |p|
  {
    if k < |p| - 1 {
      assert Parent(p)[..k] == p[..k];
      AncestorIsDir(t, Parent(p), k);
    } else {
      assert Parent(p) == p[..k];
    }
  }

  /** A proper prefix of an existing path is a directory. */
  lemma ProperPrefixIsDir(t: Tree, q: Path, p: Path)
    requires Rooted(t) && p in t && q < p
    ensures IsDir(t, q)
  {
    assert q == p[..|q|];
    AncestorIsDir(t, p, |q|);
  }

  // ---- what the primitive directory operations do to a tree ----

  /** The tree without p and everything under it. */
  function Without(t: Tree, p: Path): Tree {
    map x | x in t && !(p <= x) :: t[x]
  }

  /** The tree with p and all its ancestors present as directories. */
  function WithDirs(t: Tree, p: Path): Tree {
    map x | x in t.Keys + Ancestry(p) :: if x <= p then Dir else t[x]
  }

  /** p and its ancestors. */
  function Ancestry(p: Path): (s: set<Path>)
    ensures forall x :: x in s <==> x <= p
  {
    var s := set k | 0 <= k <= |p| :: p[..k];
    assert forall x | x <= p :: x == p[..|x|];
    s
  }

  // ---- iteration orders ----

  /** Code-point order on strings. */
  predicate StrLess(a: string, b: string) {
    if b == [] then false
    else if a == [] then true
    else if a[0] != b[0] then a[0] < b[0]
    else StrLess(a[1..], b[1..])
  }

  /** Component-wise order on paths. */
  predicate PartsLess(a: Path, b: Path) {
    if b == [] then false
    else if a == [] then true
    else if a[0] != b[0] then StrLess(a[0], b[0])
    else PartsLess(a[1..], b[1..])
  }

  /** The path written with slashes. */
  function Posix(p: Path): string {
    if p == [] then "" else if |p| == 1 then p[0] else p[0] + "/" + Posix(p[1..])
  }

  /** Depth first, then the written form. */
  predicate DepthLess(a: Path, b: Path) {
    |a| < |b| || (|a| == |b| && StrLess(Posix(a), Posix(b)))
  }

  /** b goes on after their first k characters, which are the same; a ends there or has the smaller character. */
  predicate DepartsAt(a: string, b: string, k: nat) {
    k <= |a| && k < |b| && a[..k] == b[..k] && (k == |a| || a[k] < b[k])
  }

  /** Lexicographic order by code points, said directly. */
  predicate Precedes(a: string, b: string) {
    exists k | 0 <= k <= |a| :: DepartsAt(a, b, k)
  }

  predicate PartsDepartAt(a: Path, b: Path, k: nat) {
    k <= |a| && k < |b| && a[..k] == b[..k] && (k == |a| || Precedes(a[k], b[k]))
  }

  /** The same for paths, component by component. */
  predicate PartsPrecede(a: Path, b: Path) {
    exists k | 0 <= k <= |a| :: PartsDepartAt(a, b, k)
  }

  lemma DepartsLater(x: char, a: string, b: string, k: nat)
    ensures DepartsAt([x] + a, [x] + b, k + 1) <==> DepartsAt(a, b, k)
  {
    if k <= |a| && k < |b| {
      assert ([x] + a)[..k + 1] == [x] + a[..k] && ([x] + b)[..k + 1] == [x] + b[..k];
      assert a[..k] == ([x] + a[..k])[1..] && b[..k] == ([x] + b[..k])[1..];
    }
  }

  /** The order both passes sort by is lexicographic. */
  lemma {:induction false} StrLessMeans(a: string, b: string)
    ensures StrLess(a, b) <==> Precedes(a, b)
    decreases |a|
  {
    if a == [] || b == [] || a[0] != b[0] {
      assert DepartsAt(a, b, 0) <==> StrLess(a, b);
      forall k | 0 < k <= |a| ensures !DepartsAt(a, b, k) {
        if k < |b| {
          assert a[..k][0] == a[0] && b[..k][0] == b[0];
        }
      }
    } else {
      var x := a[0];
      assert a == [x] + a[1..] && b == [x] + b[1..];
      StrLessMeans(a[1..], b[1..]);
      assert !DepartsAt(a, b, 0);
      if k :| 0 <= k <= |a| && DepartsAt(a, b, k) {
        DepartsLater(x, a[1..], b[1..], k - 1);
      }
      if k :| 0 <= k <= |a[1..]| && DepartsAt(a[1..], b[1..], k) {
        DepartsLater(x, a[1..], b[1..], k);
        assert DepartsAt(a, b, k + 1);
      }
    }
  }

  lemma PartsDepartLater(x: Name, a: Path, b: Path, k: nat)
    ensures PartsDepartAt([x] + a, [x] + b, k + 1) <==> PartsDepartAt(a, b, k)
  {
    if k <= |a| && k < |b| {
      assert ([x] + a)[..k + 1] == [x] + a[..k] && ([x] + b)[..k + 1] == [x] + b[..k];
      assert a[..k] == ([x] + a[..k])[1..] && b[..k] == ([x] + b[..k])[1..];
    }
  }

  /** And so, component by component, is the order of the opaque pass. */
  lemma {:induction false} PartsLessMeans(a: Path, b: Path)
    ensures PartsLess(a, b) <==> PartsPrecede(a, b)
    decreases |a|
  {
    if a == [] || b == [] || a[0] != b[0] {
      if a != [] && b != [] {
        StrLessMeans(a[0], b[0]);
      }
      assert PartsDepartAt(a, b, 0) <==> PartsLess(a, b);
      forall k | 0 < k <= |a| ensures !PartsDepartAt(a, b, k) {
        if k < |b| {
          assert a[..k][0] == a[0] && b[..k][0] == b[0];
        }
      }
    } else {
      var x := a[0];
      assert a == [x] + a[1..] && b == [x] + b[1..];
      PartsLessMeans(a[1..], b[1..]);
      StrLessMeans(x, x);
      StrLessTotal(x, x);
      assert !PartsDepartAt(a, b, 0);
      if k :| 0 <= k <= |a| && PartsDepartAt(a, b, k) {
        PartsDepartLater(x, a[1..], b[1..], k - 1);
      }
      if k :| 0 <= k <= |a[1..]| && PartsDepartAt(a[1..], b[1..], k) {
        PartsDepartLater(x, a[1..], b[1..], k);
        assert PartsDepartAt(a, b, k + 1);
      }
    }
  }

  lemma {:induction false} StrLessTransitive(a: string, b: string, c: string)
    requires StrLess(a, b) && StrLess(b, c)
    ensures StrLess(a, c)
    decreases |a|
  {
    if a != [] && a[0] == b[0] && b[0] == c[0] {
      StrLessTransitive(a[1..], b[1..], c[1..]);
    }
  }

  lemma {:induction false} StrLessTotal(a: string, b: string)
    ensures a == b || StrLess(a, b) || StrLess(b, a)
    ensures !(StrLess(a, b) && StrLess(b, a)) && !StrLess(a, a)
    decreases |a|
  {
    if a != [] && b != [] {
      StrLessTotal(a[1..], b[1..]);
      StrLessTotal(a[1..], a[1..]);
      if a[0] == b[0] {
        assert a == [a[0]] + a[1..] && b == [b[0]] + b[1..];
      }
    }
    if a != [] {
      StrLessTotal(a[1..], a[1..]);
    }
  }

  lemma {:induction false} PartsLessTransitive(a: Path, b: Path, c: Path)
    requires PartsLess(a, b) && PartsLess(b, c)
    ensures PartsLess(a, c)
    decreases |a|
  {
    if a != [] {
      if a[0] == b[0] == c[0] {
        PartsLessTransitive(a[1..], b[1..], c[1..]);
      } else if a[0] != b[0] && b[0] != c[0] {
        StrLessTransitive(a[0], b[0], c[0]);
        StrLessTotal(a[0], b[0]);
      }
    }
  }

  lemma {:induction false} PartsLessTotal(a: Path, b: Path)
    ensures a == b || PartsLess(a, b) || PartsLess(b, a)
    ensures !PartsLess(a, a)
    decreases |a|
  {
    if a != [] {
      PartsLessTotal(a[1..], a[1..]);
      if b != [] {
        StrLessTotal(a[0], b[0]);
        PartsLessTotal(a[1..], b[1..]);
        if a[0] == b[0] {
          assert a == [a[0]] + a[1..] && b == [b[0]] + b[1..];
        }
      }
    }
  }

  lemma {:induction false} StrLessCommonPrefix(p: string, a: string, b: string)
    ensures StrLess(p + a, p + b) == StrLess(a, b)
    decreases |p|
  {
    if p == [] {
      assert p + a == a && p + b == b;
    } else {
      assert (p + a)[1..] == p[1..] + a && (p + b)[1..] == p[1..] + b;
      StrLessCommonPrefix(p[1..], a, b);
    }
  }

  /** Two entries of one directory are visited in the order of their names. */
  lemma {:induction false} SiblingsSortByName(d: Path, a: Name, b: Name)
    ensures DepthLess(d + [a], d + [b]) == StrLess(a, b)
    decreases |d|
  {
    if d == [] {
      assert d + [a] == [a] && d + [b] == [b];
    } else {
      SiblingsSortByName(d[1..], a, b);
      assert (d + [a])[1..] == d[1..] + [a] && (d + [b])[1..] == d[1..] + [b];
      StrLessCommonPrefix(d[0] + "/", Posix(d[1..] + [a]), Posix(d[1..] + [b]));
    }
  }

  /** A finite non-empty set has an element none of the others precedes. */
  lemma {:induction false} MinimalExists(s: set<Path>, less: (Path, Path) -> bool) returns (m: Path)
    requires s != {}
    requires forall a, b, c :: less(a, b) && less(b, c) ==> less(a, c)
    requires forall a :: !less(a, a)
    ensures m in s && forall y | y in s :: !less(y, m)
    decreases |s|
  {
    var x :| x in s;
    m := x;
    if s != {x} {
      var n := MinimalExists(s - {x}, less);
      if !less(x, n) {
        m := n;
      }
      forall y | y in s ensures !less(y, m) {
        if y != x && less(x, n) {
          assert !less(y, n);
        }
      }
    }
  }

  lemma NextByParts(s: set<Path>)
    requires s != {}
    ensures exists m :: m in s && forall y | y in s :: !PartsLess(y, m)
  {
    forall a, b, c | PartsLess(a, b) && PartsLess(b, c) ensures PartsLess(a, c) {
      PartsLessTransitive(a, b, c);
    }
    forall a ensures !PartsLess(a, a) {
      PartsLessTotal(a, a);
    }
    var m := MinimalExists(s, PartsLess);
  }

  lemma NextByDepth(s: set<Path>)
    requires s != {}
    ensures exists m :: m in s && forall y | y in s :: !DepthLess(y, m)
  {
    forall a, b, c | DepthLess(a, b) && DepthLess(b, c) ensures DepthLess(a, c) {
      if |a| == |b| == |c| {
        StrLessTransitive(Posix(a), Posix(b), Posix(c));
      }
    }
    forall a ensures !DepthLess(a, a) {
      StrLessTotal(Posix(a), Posix(a));
    }
    var m := MinimalExists(s, DepthLess);
  }
}
