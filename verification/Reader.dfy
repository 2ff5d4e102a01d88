/**
 Reading through mounted stacks.

 The mount helpers hand the overlay a list of lower directories, topmost first.  The overlay finds a
 path component by component, at each directory carrying along the layers that still contribute to it
 (Walk).  The main theorem, MountShowsView, says that this lookup through the reversed pack order shows
 exactly the bottom-up materialised View; the nested writable mount shows the same as the flat one.

 A read-only stack of one pack is mounted without an overlay, markers and all: ReadOnlyShowsView says
 exactly when that makes a difference.
 */
module Reader {
  import opened Trees
  import opened Layers
  import opened Folding
  import opened Packs

  // ---- the overlay's own lookup, topmost layer first ----

  /** The part of a layer inside its top-level directory n. */
  function Sub(l: Tree, n: Name): Tree {
    map x | x in (set p | p in l && p != [] && p[0] == n :: p[1..]) && [n] + x in l :: l[[n] + x]
  }

  datatype Found = Missing | File(leaf: Entry) | Dirs(layers: seq<Tree>)

  /** Layer l lets nothing of lower layers through at its top-level name n. */
  predicate CutsOff(l: Tree, n: Name) {
    [OPQ] in l || [WH + n] in l
  }

  /** Looks up one name in a stack of contributing layers, topmost first. */
  function Descend(ls: seq<Tree>, n: Name): Found {
    if ls == [] then Missing
    else
      var l := ls[0];
      if IsLeaf(l, [n]) then File(l[[n]])
      else if IsDir(l, [n]) then
        if CutsOff(l, n) || [n, OPQ] in l then Dirs([Sub(l, n)])
        else match Descend(ls[1..], n)
          case Dirs(rest) => Dirs([Sub(l, n)] + rest)
          case _ => Dirs([Sub(l, n)])
      else if CutsOff(l, n) then Missing
      else Descend(ls[1..], n)
  }

  function Walk(ls: seq<Tree>, p: Path): Option<Entry>
    decreases |p|
  {
    if p == [] then (if ls == [] then None else Some(Dir))
    else match Descend(ls, p[0])
      case Missing => None
      case File(leaf) => if |p| == 1 then Some(leaf) else None
      case Dirs(layers) => Walk(layers, p[1..])
  }

  predicate PlainPath(p: Path) {
    forall i | 0 <= i < |p| :: !IsMarker(p[i])
  }

  function AllPaths(ls: seq<Tree>): set<Path> {
    if ls == [] then {} else ls[0].Keys + AllPaths(ls[1..])
  }

  /** The tree a mount of these lower directories shows. */
  function Mounted(ls: seq<Tree>): Tree {
    map p | p in AllPaths(ls) && PlainPath(p) && Walk(ls, p).Some? :: Walk(ls, p).value
  }

  // ---- whole-path lookup, layer by layer ----

  function Top(ls: seq<Tree>, p: Path): Option<Entry> {
    if ls == [] then None
    else if p in ls[0] then Some(ls[0][p])
    else if Hides(ls[0], p) then None
    else Top(ls[1..], p)
  }

  lemma InSub(l: Tree, n: Name, x: Path)
    ensures x in Sub(l, n) <==> [n] + x in l
    ensures x in Sub(l, n) ==> Sub(l, n)[x] == l[[n] + x]
  {
    assert ([n] + x)[1..] == x;
  }

  lemma SubIsLayer(l: Tree, n: Name)
    requires IsLayer(l) && IsDir(l, [n])
    ensures IsLayer(Sub(l, n))
  {
    var s := Sub(l, n);
    InSub(l, n, []);
    assert [n] + [] == [n];
    forall x | x in s && x != [] ensures IsDir(s, Parent(x)) {
      InSub(l, n, x);
      InSub(l, n, Parent(x));
      assert Parent([n] + x) == [n] + Parent(x);
    }
    forall x | x in s && MarkerPath(x)
      ensures s[x].Leaf? && (Last(x) == OPQ || GoodTarget(Target(Last(x))))
    {
      InSub(l, n, x);
      assert Last([n] + x) == Last(x);
    }
  }

  /** Hiding below a directory is hiding in the sublayer. */
  lemma HidesInSub(l: Tree, n: Name, q: Path)
    requires IsLayer(l) && IsDir(l, [n])
    ensures Hides(l, [n] + q) <==> CutsOff(l, n) || Hides(Sub(l, n), q)
  {
    var p, s := [n] + q, Sub(l, n);
    HidesAtFirst(l, n, q);
    forall k | 1 <= k <= |q| ensures HidesAt(l, p, k + 1) <==> HidesAt(s, q, k) {
      HidesAtDeeper(l, n, q, k);
    }
    if Hides(l, p) {
      var k :| 1 <= k <= |p| && HidesAt(l, p, k);
      if k > 1 {
        assert HidesAt(s, q, k - 1);
      }
    }
    if Hides(s, q) {
      var k :| 1 <= k <= |q| && HidesAt(s, q, k);
      assert HidesAt(l, p, k + 1);
    }
    if CutsOff(l, n) {
      assert HidesAt(l, p, 1);
    }
  }

  lemma HidesAtFirst(l: Tree, n: Name, q: Path)
    ensures HidesAt(l, [n] + q, 1) <==> CutsOff(l, n) || (q != [] && IsLeaf(l, [n]))
  {
    var p := [n] + q;
    assert p[..0] == [] && p[..1] == [n];
    assert Parent([n]) == [] && OpqPath([]) == [OPQ] && WhPath([n]) == [WH + n];
  }

  lemma HidesAtDeeper(l: Tree, n: Name, q: Path, k: nat)
    requires 1 <= k <= |q|
    ensures HidesAt(l, [n] + q, k + 1) <==> HidesAt(Sub(l, n), q, k)
  {
    var p := [n] + q;
    assert p[..k + 1] == [n] + q[..k] && p[..k] == [n] + q[..k - 1];
    InSub(l, n, OpqPath(q[..k - 1]));
    InSub(l, n, WhPath(q[..k]));
    InSub(l, n, q[..k]);
    assert OpqPath(p[..k]) == [n] + OpqPath(q[..k - 1]);
    assert WhPath(p[..k + 1]) == [n] + WhPath(q[..k]) by {
      assert Parent(p[..k + 1]) == [n] + Parent(q[..k]);
      assert Last(p[..k + 1]) == Last(q[..k]);
    }
  }

  /** A layer without name n says nothing about paths under n, except by cutting off. */
  lemma AbsentName(l: Tree, n: Name, q: Path)
    requires IsLayer(l) && [n] !in l
    ensures [n] + q !in l
    ensures Hides(l, [n] + q) <==> CutsOff(l, n)
  {
    var p := [n] + q;
    if p in l && q != [] {
      assert p[..1] == [n];
      AncestorIsDir(l, p, 1);
    }
    assert [n] + [] == [n];
    HidesAtFirst(l, n, q);
    if CutsOff(l, n) {
      assert HidesAt(l, p, 1);
    }
    forall k | 1 < k <= |p| ensures !HidesAt(l, p, k) {
      UnderAbsent(l, n, OpqPath(p[..k - 1]));
      UnderAbsent(l, n, WhPath(p[..k]));
      UnderAbsent(l, n, p[..k]);
    }
  }

  lemma UnderAbsent(l: Tree, n: Name, x: Path)
    requires IsLayer(l) && [n] !in l && x != [] && x[0] == n
    ensures x !in l
  {
    if x in l && |x| > 1 {
      assert x[..1] == [n];
      AncestorIsDir(l, x, 1);
    }
    assert |x| == 1 ==> x == [n];
  }

  /** One component of the walk loses nothing: what is below is found through what Descend returns. */
  lemma {:induction false} DescendFollowsTop(ls: seq<Tree>, n: Name, q: Path)
    requires AreLayers(ls) && !IsMarker(n)
    ensures var d := Descend(ls, n);
            && (d.Missing? ==> Top(ls, [n] + q) == None)
            && (d.File? ==> Top(ls, [n] + q) == if q == [] then Some(d.leaf) else None)
            && (d.Dirs? ==> d.layers != [] && AreLayers(d.layers) && Top(ls, [n] + q) == Top(d.layers, q))
    decreases |ls|
  {
    if ls != [] {
      var l, p := ls[0], [n] + q;
      assert q == [] ==> p == [n];
      if IsLeaf(l, [n]) {
        if q != [] {
          LeafHidesBelow(l, [n], p);
          if p in l {
            ProperPrefixIsDir(l, [n], p);
          }
        }
      } else if IsDir(l, [n]) {
        DescendFollowsTop(ls[1..], n, q);
        SubIsLayer(l, n);
        InSub(l, n, q);
        HidesInSub(l, n, q);
        var s := Sub(l, n);
        if [n, OPQ] in l && q != [] {
          InSub(l, n, [OPQ]);
          assert [n] + [OPQ] == [n, OPQ] && OpqPath([]) == [OPQ];
          OpaqueHidesBelow(s, [], q);
        }
        TopOfOne(s, q);
        assert forall rest: seq<Tree> :: ([s] + rest)[1..] == rest;
      } else {
        AbsentName(l, n, q);
        DescendFollowsTop(ls[1..], n, q);
      }
    }
  }

  lemma TopOfOne(s: Tree, q: Path)
    ensures Top([s], q) == if q in s then Some(s[q]) else None
  {
    assert [s][1..] == [];
  }

  /** The component walk and the whole-path lookup agree. */
  lemma {:induction false} WalkIsTop(ls: seq<Tree>, p: Path)
    requires AreLayers(ls) && PlainPath(p)
    ensures Walk(ls, p) == Top(ls, p)
    decreases |p|
  {
    if p == [] {
      if ls != [] {
        assert IsLayer(ls[0]);
      }
    } else {
      assert p == [p[0]] + p[1..];
      DescendFollowsTop(ls, p[0], p[1..]);
      var d := Descend(ls, p[0]);
      if d.Dirs? {
        WalkIsTop(d.layers, p[1..]);
      }
    }
  }

  // ---- bottom-up materialisation ----

  function Reversed(stack: seq<Tree>): seq<Tree> {
    if stack == [] then [] else [stack[|stack| - 1]] + Reversed(stack[..|stack| - 1])
  }

  lemma {:induction false} ReversedLayers(stack: seq<Tree>)
    requires AreLayers(stack)
    ensures AreLayers(Reversed(stack)) && |Reversed(stack)| == |stack|
    decreases |stack|
  {
    if stack != [] {
      ReversedLayers(stack[..|stack| - 1]);
    }
  }

  /** Looking from the top finds what materialising from the bottom puts there. */
  lemma {:induction false} TopIsView(stack: seq<Tree>, p: Path)
    requires AreLayers(stack) && !MarkerPath(p) && (stack != [] || p != [])
    ensures Top(Reversed(stack), p) == if p in View(stack) then Some(View(stack)[p]) else None
    decreases |stack|
  {
    if stack != [] {
      var a, l := Snoc(stack);
      assert Reversed(stack)[1..] == Reversed(a);
      if p !in l {
        assert IsLayer(l);
        TopIsView(a, p);
      }
    }
  }

  lemma {:induction false} TopIsListed(ls: seq<Tree>, p: Path)
    requires Top(ls, p).Some?
    ensures p in AllPaths(ls)
    decreases |ls|
  {
    if p !in ls[0] {
      TopIsListed(ls[1..], p);
    }
  }

  lemma {:induction false} ViewPathsArePlain(v: Tree, p: Path)
    requires IsView(v) && p in v
    ensures PlainPath(p)
    decreases |p|
  {
    if p != [] {
      ViewPathsArePlain(v, Parent(p));
      assert !MarkerPath(p);
      forall i | 0 <= i < |p| ensures !IsMarker(p[i]) {
        if i < |p| - 1 {
          assert Parent(p)[i] == p[i];
        }
      }
    }
  }

  /**
   Mounting a stack newest first shows exactly its materialised view: for every path, the component
   walk stops at files, whiteouts and opaque directories where folding old to new would.
   */
  lemma MountShowsView(stack: seq<Tree>)
    requires AreLayers(stack) && stack != []
    ensures Mounted(Reversed(stack)) == View(stack)
  {
    var ls := Reversed(stack);
    var x, y := Mounted(ls), View(stack);
    ReversedLayers(stack);
    EmptyIsView();
    ApplyAllIsView(EMPTY_TREE, stack);
    forall p ensures p in x <==> p in y ensures p in x ==> x[p] == y[p] {
      if p in y {
        ViewPathsArePlain(y, p);
      }
      if PlainPath(p) {
        WalkIsTop(ls, p);
        TopIsView(stack, p);
        if Top(ls, p).Some? {
          TopIsListed(ls, p);
        }
      }
    }
    assert x.Keys == y.Keys;
  }

  // ---- the mount helpers ----

  /** An overlay of lower directories, one directory as it is, or nothing to mount. */
  datatype Mount = Mount(lowerdirs: seq<Tree>) | Plain(root: Tree) | MountError

  function Shows(m: Mount): Tree {
    match m
    case Mount(lowerdirs) => Mounted(lowerdirs)
    case Plain(root) => root
    case MountError => EMPTY_TREE
  }

  /** A lone pack is mounted as it is; more are stacked newest first. */
  function ReadOnly(packs: seq<Tree>): Mount {
    if packs == [] then MountError else if |packs| == 1 then Plain(packs[0]) else Mount(Reversed(packs))
  }

  /** Read-only stack: lower mounts are appended base first and passed in reverse. */
  method MountStackRo(packs: seq<Tree>) returns (m: Mount)
    ensures m == ReadOnly(packs)
  {
    if packs == [] {
      return MountError;
    }
    if |packs| == 1 {
      return Plain(packs[0]);
    }
    var lowers := MountEach(packs);
    var reversed := ReverseAll(lowers);
    return Mount(reversed);
  }

  predicate HoldsMarker(l: Tree) {
    exists p | p in l :: MarkerPath(p)
  }

  /** The read-only mount shows the view of the stack exactly if it is an overlay or its pack is free of markers. */
  lemma ReadOnlyShowsView(stack: seq<Tree>)
    requires AreLayers(stack) && stack != []
    ensures Shows(ReadOnly(stack)) == View(stack) <==> |stack| > 1 || !HoldsMarker(stack[0])
  {
    if |stack| > 1 {
      MountShowsView(stack);
    } else {
      var l := stack[0];
      assert stack == [l];
      LoneView(l);
      if HoldsMarker(l) {
        var p :| p in l && MarkerPath(p);
        assert p !in Strip(l);
      } else {
        assert Strip(l).Keys == l.Keys;
      }
    }
  }

  lemma LoneView(l: Tree)
    requires IsLayer(l)
    ensures View([l]) == Strip(l)
  {
    MergeAloneShowsRun([l]);
    assert [l][..0] == [];
    var x := Merge(EMPTY_TREE, l);
    assert forall p | p in x :: p in l && x[p] == l[p];
    assert x.Keys == l.Keys;
  }

  method MountEach(packs: seq<Tree>) returns (handles: seq<Tree>)
    ensures handles == packs
  {
    handles := [];
    for i := 0 to |packs|
      invariant handles == packs[..i]
    {
      handles := handles + [packs[i]];
    }
  }

  method ReverseAll(handles: seq<Tree>) returns (r: seq<Tree>)
    ensures r == Reversed(handles)
  {
    r := [];
    for i := 0 to |handles|
      invariant r == Reversed(handles[..i])
    {
      assert handles[..i + 1][..|handles[..i + 1]| - 1] == handles[..i];
      r := [handles[i]] + r;
    }
    assert handles[..|handles|] == handles;
  }

  /** Writable shared mount: the committed stack is mounted first and serves as the one lower. */
  method MountLayeredRw(packs: seq<Tree>, upper: Tree) returns (m: Mount)
    ensures m == Mount([upper, LowerOf(packs)])
  {
    if packs != [] {
      var lower := MountStackRo(packs);
      return Mount([upper, Shows(lower)]);
    }
    return Mount([upper, EMPTY_TREE]);
  }

  /** Writable node-local mount: every pack is its own lower. */
  method MountLayeredRwKernelOverlay(packs: seq<Tree>, upper: Tree) returns (m: Mount)
    ensures m == Mount([upper] + FlatLowers(packs))
  {
    if packs != [] {
      var lowers := MountEach(packs);
      var reversed := ReverseAll(lowers);
      return Mount([upper] + reversed);
    }
    return Mount([upper] + [EMPTY_TREE]);
  }

  /** Published mirrors over a committed stack. */
  method MountDirsAndPacksRo(topDirs: seq<Tree>, packs: seq<Tree>) returns (m: Mount)
    ensures m == if topDirs + packs == [] then MountError else Mount(topDirs + Reversed(packs))
  {
    var lowerdirs := topDirs;
    if packs != [] {
      var lowers := MountEach(packs);
      var reversed := ReverseAll(lowers);
      lowerdirs := lowerdirs + reversed;
    }
    if lowerdirs == [] {
      assert Reversed(packs) == [] ==> packs == [];
      return MountError;
    }
    return Mount(lowerdirs);
  }

  lemma ReversedSnoc(packs: seq<Tree>, upper: Tree)
    ensures Reversed(packs + [upper]) == [upper] + Reversed(packs)
  {
    assert (packs + [upper])[..|packs|] == packs;
  }

  /** What the lower of a nested writable mount shows. */
  function LowerOf(packs: seq<Tree>): Tree {
    if packs == [] then EMPTY_TREE else Shows(ReadOnly(packs))
  }

  function FlatLowers(packs: seq<Tree>): seq<Tree> {
    if packs == [] then [EMPTY_TREE] else Reversed(packs)
  }

  lemma FlatShowsView(packs: seq<Tree>, upper: Tree)
    requires AreLayers(packs) && IsLayer(upper)
    ensures Mounted([upper] + FlatLowers(packs)) == View(packs + [upper])
  {
    if packs == [] {
      EmptyIsView();
      TwoLayers(EMPTY_TREE, upper);
      EmptyLower(upper);
      assert [upper] + [EMPTY_TREE] == [upper, EMPTY_TREE] && packs + [upper] == [upper];
    } else {
      ReversedSnoc(packs, upper);
      MountShowsView(packs + [upper]);
    }
  }

  /**
   The writable view is the same whether the committed packs are stacked flat under the upper or
   mounted first and used as a single lower; both show View(packs + [upper]).  A lone pack used as it is
   does no harm there: markers of the lowest layer hide nothing, and the overlay does not list them.
   */
  lemma NestedIsFlat(packs: seq<Tree>, upper: Tree)
    requires AreLayers(packs) && IsLayer(upper)
    ensures Mounted([upper, LowerOf(packs)]) == Mounted([upper] + FlatLowers(packs)) == View(packs + [upper])
  {
    FlatShowsView(packs, upper);
    NestedShowsView(packs, upper);
  }

  lemma NestedShowsView(packs: seq<Tree>, upper: Tree)
    requires AreLayers(packs) && IsLayer(upper)
    ensures Mounted([upper, LowerOf(packs)]) == View(packs + [upper])
  {
    if packs == [] {
      EmptyIsView();
      TwoLayers(EMPTY_TREE, upper);
      EmptyLower(upper);
      assert packs + [upper] == [upper];
    } else if |packs| == 1 {
      TwoLayers(packs[0], upper);
      assert packs + [upper] == [packs[0], upper];
    } else {
      StackedLower(packs, upper);
    }
  }

  lemma StackedLower(packs: seq<Tree>, upper: Tree)
    requires AreLayers(packs) && IsLayer(upper) && |packs| > 1
    ensures Mounted([upper, LowerOf(packs)]) == View(packs + [upper])
  {
    var v := View(packs);
    EmptyIsView();
    ApplyAllIsView(EMPTY_TREE, packs);
    MountShowsView(packs);
    ViewOfView(v);
    TwoLayers(v, upper);
    ViewSnoc([v], upper);
    ViewSnoc(packs, upper);
    assert [v, upper] == [v] + [upper];
  }

  lemma TwoLayers(lower: Tree, upper: Tree)
    requires IsLayer(lower) && IsLayer(upper)
    ensures Mounted([upper, lower]) == View([lower, upper])
  {
    assert Reversed([lower, upper]) == [upper, lower] by {
      assert [lower, upper][..1] == [lower] && [lower][..0] == [];
      assert Reversed([lower]) == [lower] + Reversed([]);
    }
    MountShowsView([lower, upper]);
  }

  lemma EmptyLower(upper: Tree)
    requires IsLayer(upper)
    ensures View([EMPTY_TREE, upper]) == View([upper])
  {
    EmptyIsView();
    ViewOfView(EMPTY_TREE);
    ViewSnoc([EMPTY_TREE], upper);
    ViewSnoc([], upper);
    assert [EMPTY_TREE] + [upper] == [EMPTY_TREE, upper] && [] + [upper] == [upper];
  }

  /** A published mirror is stacked over the packs, or bound as it is if there are none. */
  method MountPublishedMirrorRo(mirror: Tree, packs: seq<Tree>) returns (m: Mount)
    ensures m == PublishedMirror(mirror, packs)
  {
    if packs == [] {
      return Plain(mirror);
    }
    m := MountDirsAndPacksRo([mirror], packs);
  }

  function PublishedMirror(mirror: Tree, packs: seq<Tree>): Mount {
    if packs == [] then Plain(mirror) else Mount([mirror] + Reversed(packs))
  }

  /** It shows the mirror applied to the stack's view, exactly if there are packs or the mirror holds no marker. */
  lemma MirrorShowsView(mirror: Tree, packs: seq<Tree>)
    requires IsLayer(mirror) && AreLayers(packs)
    ensures Shows(PublishedMirror(mirror, packs)) == Apply(View(packs), mirror) <==> packs != [] || !HoldsMarker(mirror)
  {
    ViewSnoc(packs, mirror);
    if packs == [] {
      assert [] + [mirror] == [mirror];
      ReadOnlyShowsView([mirror]);
    } else {
      ReversedSnoc(packs, mirror);
      MountShowsView(packs + [mirror]);
    }
  }
}
