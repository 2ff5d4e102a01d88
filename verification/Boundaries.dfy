/**
 Which child boundary owns a path: the longest boundary that is a prefix of it, decided on strings and
 proved to be the longest boundary that is a prefix component by component.
 */
module Boundaries {
  import opened Trees
  import opened Names
  import opened Packs

  datatype Boundary = Boundary(path: string, childId: string)

  // ---- components ----

  /** The pieces between slashes. */
  function Split(s: string): (parts: seq<string>)
    ensures |parts| >= 1
  {
    if s == "" then [""]
    else if s[0] == '/' then [""] + Split(s[1..])
    else var rest := Split(s[1..]); [[s[0]] + rest[0]] + rest[1..]
  }

  /** Components that say something: not empty and not ".". */
  predicate Says(part: string) {
    part != "" && part != "."
  }

  function Kept(parts: seq<string>): seq<string> {
    if parts == [] then [] else (if Says(parts[0]) then [parts[0]] else []) + Kept(parts[1..])
  }

  /** The components a relative path names. */
  function Components(s: string): Path {
    Kept(Split(s))
  }

  /** The path with redundant slashes and dots removed, and no leading slash. */
  function Normalize(s: string): string {
    var parts := Components(s);
    if parts != [] then Posix(parts) else if s != "" && s[0] == '/' then "" else "."
  }

  /** Component sequences that a normalised path stands for. */
  predicate IsNormal(p: Path) {
    forall i | 0 <= i < |p| :: Says(p[i]) && NoChar(p[i], '/')
  }

  lemma {:induction false} SplitParts(s: string)
    ensures forall i | 0 <= i < |Split(s)| :: NoChar(Split(s)[i], '/')
    decreases |s|
  {
    if s != "" {
      SplitParts(s[1..]);
    }
  }

  lemma {:induction false} KeptParts(parts: seq<string>)
    ensures forall i | 0 <= i < |Kept(parts)| :: Says(Kept(parts)[i]) && Kept(parts)[i] in parts
    decreases |parts|
  {
    if parts != [] {
      KeptParts(parts[1..]);
    }
  }

  lemma ComponentsAreNormal(s: string)
    ensures IsNormal(Components(s))
  {
    SplitParts(s);
    KeptParts(Split(s));
    forall i | 0 <= i < |Components(s)| ensures NoChar(Components(s)[i], '/') {
      var k :| 0 <= k < |Split(s)| && Split(s)[k] == Components(s)[i];
    }
  }

  lemma {:induction false} SplitAfter(a: string, rest: string)
    requires NoChar(a, '/')
    ensures Split(a + "/" + rest) == [a] + Split(rest)
    ensures Split(a) == [a]
    decreases |a|
  {
    if a == "" {
      assert a + "/" + rest == "/" + rest;
      assert ("/" + rest)[1..] == rest;
    } else {
      var s := a + "/" + rest;
      SplitAfter(a[1..], rest);
      assert s[1..] == a[1..] + "/" + rest && s[0] == a[0] && a[0] != '/';
      assert [a[0]] + a[1..] == a;
      assert ([a[1..]] + Split(rest))[1..] == Split(rest);
    }
  }

  /** Writing components with slashes and reading them back. */
  lemma {:induction false} PosixReadsBack(p: Path)
    requires IsNormal(p) && p != []
    ensures Components(Posix(p)) == p && Normalize(Posix(p)) == Posix(p)
    decreases |p|
  {
    if |p| == 1 {
      SplitAfter(p[0], "");
      assert Kept([p[0]]) == [p[0]] + Kept([]);
      assert p == [p[0]];
    } else {
      PosixReadsBack(p[1..]);
      SplitAfter(p[0], Posix(p[1..]));
      var parts := Split(Posix(p));
      assert parts[0] == p[0] && parts[1..] == Split(Posix(p[1..]));
      assert p == [p[0]] + p[1..];
    }
  }

  lemma NormalPaths(p: Path, q: Path)
    requires IsNormal(p) && IsNormal(q) && p != [] && q != [] && Posix(p) == Posix(q)
    ensures p == q
  {
    PosixReadsBack(p);
    PosixReadsBack(q);
  }

  // ---- prefixes ----

  predicate StartsWith(s: string, prefix: string) {
    |prefix| <= |s| && s[..|prefix|] == prefix
  }

  /** The string test: the path is the boundary or starts with the boundary and a slash. */
  predicate Under(clean: string, boundaryPath: string) {
    clean == boundaryPath || StartsWith(clean, boundaryPath + "/")
  }

  lemma {:induction false} PosixAppend(p: Path, q: Path)
    requires p != [] && q != []
    ensures Posix(p + q) == Posix(p) + "/" + Posix(q)
    decreases |p|
  {
    if |p| == 1 {
      assert (p + q)[1..] == q;
    } else {
      assert (p + q)[1..] == p[1..] + q;
      PosixAppend(p[1..], q);
    }
  }

  lemma {:induction false} StartsComponentwise(p: Path, b: Path)
    requires IsNormal(p) && IsNormal(b) && p != [] && b != [] && StartsWith(Posix(p), Posix(b) + "/")
    ensures b < p
    decreases |b|
  {
    var s, t := Posix(p), Posix(b) + "/";
    var rest := s[|t|..];
    assert s == t + rest;
    var tail := if |b| == 1 then rest else Posix(b[1..]) + "/" + rest;
    assert s == b[0] + "/" + tail;
    assert s[|b[0]|] == '/';
    if |p| == 1 {
      assert false;
    } else {
      assert s == p[0] + "/" + Posix(p[1..]);
      SplitUnique(p[0], Posix(p[1..]), b[0], tail, '/');
      if |b| > 1 {
        assert Posix(p[1..]) == (Posix(b[1..]) + "/") + rest;
        StartsComponentwise(p[1..], b[1..]);
        assert b == [b[0]] + b[1..] && p == [p[0]] + p[1..];
      }
    }
  }

  /** On normalised paths the string test is exactly the component-wise prefix. */
  lemma PrefixIsComponentwise(p: Path, b: Path)
    requires IsNormal(p) && IsNormal(b) && p != [] && b != []
    ensures Under(Posix(p), Posix(b)) <==> b <= p
  {
    if Posix(p) == Posix(b) {
      NormalPaths(p, b);
    } else if StartsWith(Posix(p), Posix(b) + "/") {
      StartsComponentwise(p, b);
    }
    if b < p {
      assert p == b + p[|b|..];
      PosixAppend(b, p[|b|..]);
      assert Posix(p)[..|Posix(b) + "/"|] == Posix(b) + "/";
    }
  }

  function Inner(clean: string, boundaryPath: string): string
    requires |boundaryPath| <= |clean|
  {
    LeftStripped(clean[|boundaryPath|..])
  }

  lemma InnerAfterSlash(s: string, t: string, r: string)
    requires s == t + "/" + r && r != "" && r[0] != '/'
    ensures Inner(s, t) == r
  {
    var x := s[|t|..];
    assert x == "/" + r;
    assert x[0] == '/' && x[1..] == r;
    assert LeftStripped(x) == LeftStripped(r) && LeftStripped(r) == r;
  }

  /** What is left after the boundary is the remaining components. */
  lemma InnerIsRest(p: Path, b: Path)
    requires IsNormal(p) && p != [] && b != [] && b < p
    ensures |Posix(b)| <= |Posix(p)| && Inner(Posix(p), Posix(b)) == Posix(p[|b|..])
  {
    var rest := p[|b|..];
    assert p == b + rest;
    PosixAppend(b, rest);
    InnerAfterSlash(Posix(p), Posix(b), Posix(rest));
  }

  // ---- paths as they are spelled ----

  /** Writing the pieces back with slashes gives the string again. */
  lemma {:induction false} SplitWritesBack(s: string)
    ensures Posix(Split(s)) == s
    decreases |s|
  {
    if s != "" {
      var rest := Split(s[1..]);
      SplitWritesBack(s[1..]);
      if s[0] == '/' {
        assert ([""] + rest)[1..] == rest;
        assert s == "" + "/" + s[1..];
      } else {
        assert ([[s[0]] + rest[0]] + rest[1..])[1..] == rest[1..];
        assert s == [s[0]] + s[1..];
      }
    }
  }

  lemma {:induction false} SplitPosix(b: Path)
    requires IsNormal(b) && b != []
    ensures Split(Posix(b)) == b
    decreases |b|
  {
    assert b == [b[0]] + b[1..];
    if |b| == 1 {
      SplitAfter(b[0], "");
    } else {
      SplitPosix(b[1..]);
      SplitAfter(b[0], Posix(b[1..]));
    }
  }

  lemma {:induction false} SplitBelow(b: Path, rest: string)
    requires IsNormal(b) && b != []
    ensures Split(Posix(b) + "/" + rest) == b + Split(rest)
    decreases |b|
  {
    assert b == [b[0]] + b[1..];
    if |b| == 1 {
      SplitAfter(b[0], rest);
    } else {
      var tail := Posix(b[1..]) + "/" + rest;
      SplitBelow(b[1..], rest);
      SplitAfter(b[0], tail);
      assert Posix(b) + "/" + rest == b[0] + "/" + tail;
      assert [b[0]] + (b[1..] + Split(rest)) == b + Split(rest);
    }
  }

  /** The string test looks at the pieces as they are spelled. */
  lemma UnderIsSpelledPrefix(s: string, b: Path)
    requires IsNormal(b) && b != []
    ensures Under(s, Posix(b)) <==> b <= Split(s)
  {
    var t := Posix(b) + "/";
    if s == Posix(b) {
      SplitPosix(b);
    } else if StartsWith(s, t) {
      assert s == t + s[|t|..];
      SplitBelow(b, s[|t|..]);
    }
    if b <= Split(s) {
      SplitWritesBack(s);
      var rest := Split(s)[|b|..];
      assert Split(s) == b + rest;
      if rest == [] {
        assert Split(s) == b;
      } else {
        PosixAppend(b, rest);
        assert s[..|t|] == t;
      }
    }
  }

  /** How many leading pieces say something. */
  function Spelled(parts: seq<string>): nat {
    if parts == [] || !Says(parts[0]) then 0 else 1 + Spelled(parts[1..])
  }

  /** Among prefixes, the pieces as spelled agree with the components up to the first silent piece. */
  lemma {:induction false} SpelledPrefix(b: Path, parts: seq<string>)
    requires IsNormal(b)
    ensures b <= parts <==> b <= Kept(parts) && |b| <= Spelled(parts)
    decreases |b|
  {
    if b != [] && parts != [] && Says(parts[0]) {
      SpelledPrefix(b[1..], parts[1..]);
      assert b == [b[0]] + b[1..] && parts == [parts[0]] + parts[1..];
      assert Kept(parts) == [parts[0]] + Kept(parts[1..]);
    }
  }

  lemma {:induction false} KeptAppend(a: seq<string>, b: seq<string>)
    ensures Kept(a + b) == Kept(a) + Kept(b)
    decreases |a|
  {
    if a == [] {
      assert a + b == b;
    } else {
      assert (a + b)[1..] == a[1..] + b;
      KeptAppend(a[1..], b);
    }
  }

  lemma {:induction false} SplitTrailing(s: string)
    ensures Split(s + "/") == Split(s) + [""]
    decreases |s|
  {
    if s == "" {
      assert s + "/" == "/" && "/"[1..] == "";
    } else {
      assert (s + "/")[1..] == s[1..] + "/";
      SplitTrailing(s[1..]);
      var rest := Split(s[1..]);
      assert (rest + [""])[0] == rest[0] && (rest + [""])[1..] == rest[1..] + [""];
    }
  }

  lemma {:induction false} LeftStrippedComponents(s: string)
    ensures Components(LeftStripped(s)) == Components(s)
    decreases |s|
  {
    if s != "" && s[0] == '/' {
      LeftStrippedComponents(s[1..]);
      assert ([""] + Split(s[1..]))[1..] == Split(s[1..]);
    }
  }

  lemma {:induction false} RightStrippedComponents(s: string)
    ensures Components(RightStripped(s)) == Components(s)
    decreases |s|
  {
    if s != "" && s[|s| - 1] == '/' {
      var t := s[..|s| - 1];
      RightStrippedComponents(t);
      assert s == t + "/";
      SplitTrailing(t);
      KeptAppend(Split(t), [""]);
      assert Kept([""]) == [];
    }
  }

  /** Slashes at the ends name nothing. */
  lemma StrippedComponents(s: string)
    ensures Components(Stripped(s)) == Components(s)
  {
    LeftStrippedComponents(s);
    RightStrippedComponents(LeftStripped(s));
  }

  /** A normalised path is spelled as its components. */
  lemma NormalizedPrefix(s: string, b: Path)
    requires IsNormal(b) && b != []
    ensures Under(Normalize(s), Posix(b)) <==> b <= Components(s)
  {
    var p := Components(s);
    UnderIsSpelledPrefix(Normalize(s), b);
    ComponentsAreNormal(s);
    if p != [] {
      SplitPosix(p);
    } else {
      SplitAfter(".", "");
      assert Says(b[0]);
      assert Split("") == [""] && Split(".") == ["."];
    }
  }

  // ---- the longest boundary ----

  predicate Matches(b: Boundary, clean: string) {
    Stripped(b.path) != "" && Under(clean, Stripped(b.path))
  }

  /** The longest match, the first of equally long ones. */
  function Nearest(bs: seq<Boundary>, clean: string): Option<Boundary> {
    if bs == [] then None
    else
      var best, b := Nearest(bs[..|bs| - 1], clean), bs[|bs| - 1];
      if Matches(b, clean) && (best.None? || |Stripped(b.path)| > |Stripped(best.value.path)|) then Some(b) else best
  }

  method LongestPrefix(boundaries: seq<Boundary>, clean: string) returns (best: Option<Boundary>)
    ensures best == Nearest(boundaries, clean)
  {
    best := None;
    var bestLen := -1;
    for i := 0 to |boundaries|
      invariant best == Nearest(boundaries[..i], clean)
      invariant bestLen == if best.None? then -1 else |Stripped(best.value.path)|
    {
      assert boundaries[..i + 1][..i] == boundaries[..i];
      var path := Stripped(boundaries[i].path);
      if path == "" {
        continue;
      }
      if clean == path || StartsWith(clean, path + "/") {
        if |path| > bestLen {
          best := Some(boundaries[i]);
          bestLen := |path|;
        }
      }
    }
    assert boundaries[..|boundaries|] == boundaries;
  }

  /** None exactly when nothing matches; otherwise a match no other match is longer than. */
  lemma {:induction false} NearestIsLongest(bs: seq<Boundary>, clean: string)
    ensures Nearest(bs, clean).None? <==> forall i | 0 <= i < |bs| :: !Matches(bs[i], clean)
    ensures Nearest(bs, clean).Some? ==>
              var best := Nearest(bs, clean).value;
              && Matches(best, clean) && best in bs
              && forall i | 0 <= i < |bs| && Matches(bs[i], clean) :: |Stripped(bs[i].path)| <= |Stripped(best.path)|
    decreases |bs|
  {
    if bs != [] {
      var a := bs[..|bs| - 1];
      NearestIsLongest(a, clean);
      assert forall i | 0 <= i < |a| :: a[i] == bs[i];
      assert Nearest(a, clean).Some? ==> Nearest(a, clean).value in bs;
    }
  }

  /** Of equally long matches the first one wins. */
  lemma {:induction false} NearestIsFirst(bs: seq<Boundary>, clean: string) returns (k: nat)
    requires Nearest(bs, clean).Some?
    ensures k < |bs| && Nearest(bs, clean).value == bs[k] && Matches(bs[k], clean)
    ensures forall i | 0 <= i < k && Matches(bs[i], clean) :: |Stripped(bs[i].path)| < |Stripped(bs[k].path)|
    ensures forall i | k < i < |bs| && Matches(bs[i], clean) :: |Stripped(bs[i].path)| <= |Stripped(bs[k].path)|
    decreases |bs|
  {
    var a, b := bs[..|bs| - 1], bs[|bs| - 1];
    NearestIsLongest(a, clean);
    assert forall i | 0 <= i < |a| :: a[i] == bs[i];
    if Nearest(a, clean).Some? && Nearest(bs, clean) == Nearest(a, clean)
       && !(Matches(b, clean) && |Stripped(b.path)| > |Stripped(Nearest(a, clean).value.path)|) {
      k := NearestIsFirst(a, clean);
    } else {
      k := |bs| - 1;
    }
  }

  datatype Owning = Owning(ownerId: string, boundary: Option<Boundary>, relativePath: string, innerPath: string)

  function ResolveOwnerPath(bs: seq<Boundary>, relPath: string, parentId: string): Owning {
    var clean := Normalize(relPath);
    match Nearest(bs, clean)
    case None => Owning(parentId, None, clean, clean)
    case Some(b) =>
      NearestIsLongest(bs, clean);
      Owning(b.childId, Some(b), clean, Inner(clean, Stripped(b.path)))
  }

  // ---- ownership component by component ----

  /** Every boundary path, stripped, is a normalised path. */
  predicate NormalBoundaries(bs: seq<Boundary>) {
    forall i | 0 <= i < |bs| :: NormalBoundary(bs[i])
  }

  predicate NormalBoundary(b: Boundary) {
    Root(b) != [] && Posix(Root(b)) == Stripped(b.path)
  }

  /** The components of a boundary's path. */
  function Root(b: Boundary): Path {
    Components(Stripped(b.path))
  }

  lemma MatchesIsPrefix(b: Boundary, p: Path)
    requires NormalBoundary(b) && IsNormal(p) && p != []
    ensures Matches(b, Posix(p)) <==> Root(b) <= p
  {
    ComponentsAreNormal(Stripped(b.path));
    PrefixIsComponentwise(p, Root(b));
  }

  /** Longer as strings and longer in components agree among prefixes of one path. */
  lemma PrefixLengths(p: Path, a: Path, b: Path)
    requires a != [] && b != [] && a <= p && b <= p && |Posix(a)| <= |Posix(b)|
    ensures a <= b
  {
    if |b| < |a| {
      assert a[..|b|] == b;
      assert a == b + a[|b|..];
      PosixAppend(b, a[|b|..]);
      assert false;
    }
  }

  /**
   For every path that names something: the owner is the boundary whose components are the longest prefix
   of the path's components, or the parent if none is; boundary and inner path together are the path.
   */
  lemma OwnerIsLongestPrefix(bs: seq<Boundary>, relPath: string, parentId: string)
    requires NormalBoundaries(bs) && Components(relPath) != []
    ensures var own, p := ResolveOwnerPath(bs, relPath, parentId), Components(relPath);
            && own.relativePath == Posix(p)
            && (own.boundary.None? <==> forall i | 0 <= i < |bs| :: !(Root(bs[i]) <= p))
            && (own.boundary.None? ==> own.ownerId == parentId && own.innerPath == Posix(p))
            && (own.boundary.Some? ==>
                  var b := own.boundary.value;
                  && b in bs && own.ownerId == b.childId && Root(b) <= p
                  && (forall i | 0 <= i < |bs| && Root(bs[i]) <= p :: Root(bs[i]) <= Root(b))
                  && own.innerPath == Posix(p[|Root(b)|..]))
  {
    var p := Components(relPath);
    var clean := Posix(p);
    ComponentsAreNormal(relPath);
    NearestIsLongest(bs, clean);
    forall i | 0 <= i < |bs| ensures Matches(bs[i], clean) <==> Root(bs[i]) <= p {
      MatchesIsPrefix(bs[i], p);
    }
    if Nearest(bs, clean).Some? {
      var b := Nearest(bs, clean).value;
      assert NormalBoundary(b);
      MatchesIsPrefix(b, p);
      if Root(b) < p {
        InnerIsRest(p, Root(b));
      } else {
        assert Root(b) == p && p[|Root(b)|..] == [];
      }
      forall i | 0 <= i < |bs| && Root(bs[i]) <= p ensures Root(bs[i]) <= Root(b) {
        PrefixLengths(p, Root(bs[i]), Root(b));
      }
    }
  }

  lemma RestRebuilds(p: Path, a: Path)
    requires IsNormal(p) && a != [] && a <= p
    ensures Posix(p) == if Posix(p[|a|..]) == "" then Posix(a) else Posix(a) + "/" + Posix(p[|a|..])
  {
    var rest := p[|a|..];
    if rest == [] {
      assert a == p;
    } else {
      assert p == a + rest;
      PosixAppend(a, rest);
      assert forall i | 0 <= i < |rest| :: rest[i] == p[|a| + i];
    }
  }

  /** Boundary, slash and inner path rebuild the normalised path. */
  lemma BoundaryAndInnerRebuild(bs: seq<Boundary>, relPath: string, parentId: string)
    requires NormalBoundaries(bs) && Components(relPath) != []
    requires ResolveOwnerPath(bs, relPath, parentId).boundary.Some?
    ensures var own := ResolveOwnerPath(bs, relPath, parentId);
            var b := Stripped(own.boundary.value.path);
            own.relativePath == if own.innerPath == "" then b else b + "/" + own.innerPath
  {
    OwnerIsLongestPrefix(bs, relPath, parentId);
    ComponentsAreNormal(relPath);
    var b := ResolveOwnerPath(bs, relPath, parentId).boundary.value;
    assert NormalBoundary(b);
    RestRebuilds(Components(relPath), Root(b));
  }

  /** A boundary at the parent's own root, such as "" or "/", owns nothing. */
  lemma RootBoundaryIsIgnored(bs: seq<Boundary>, b: Boundary, more: seq<Boundary>, relPath: string, parentId: string)
    requires Stripped(b.path) == ""
    ensures ResolveOwnerPath(bs + [b] + more, relPath, parentId) == ResolveOwnerPath(bs + more, relPath, parentId)
  {
    DropRoot(bs, b, more, Normalize(relPath));
  }

  lemma {:induction false} DropRoot(bs: seq<Boundary>, b: Boundary, more: seq<Boundary>, clean: string)
    requires Stripped(b.path) == ""
    ensures Nearest(bs + [b] + more, clean) == Nearest(bs + more, clean)
    decreases |more|
  {
    var with, without := bs + [b] + more, bs + more;
    if more == [] {
      assert with == bs + [b] && without == bs;
      assert with[..|with| - 1] == bs;
    } else {
      var rest := more[..|more| - 1];
      assert with[..|with| - 1] == bs + [b] + rest && without[..|without| - 1] == bs + rest;
      DropRoot(bs, b, rest, clean);
    }
  }

  /** A path that names nothing, such as "", "." or "/", is the parent's, as "." or as "" if it is absolute. */
  lemma NothingIsTheParents(bs: seq<Boundary>, relPath: string, parentId: string)
    requires NormalBoundaries(bs) && Components(relPath) == []
    ensures var clean := if relPath != "" && relPath[0] == '/' then "" else ".";
            ResolveOwnerPath(bs, relPath, parentId) == Owning(parentId, None, clean, clean)
  {
    var clean := Normalize(relPath);
    NearestIsLongest(bs, clean);
    forall i | 0 <= i < |bs| ensures !Matches(bs[i], clean) {
      assert NormalBoundary(bs[i]);
      ComponentsAreNormal(Stripped(bs[i].path));
      PosixHead(Root(bs[i]));
    }
  }

  /** The written form of a normal path is longer than one character or differs from ".". */
  lemma PosixHead(p: Path)
    requires IsNormal(p) && p != []
    ensures Posix(p) != "" && Posix(p) != "." && !StartsWith(".", Posix(p) + "/") && !StartsWith("", Posix(p) + "/")
  {
    assert Says(p[0]);
    assert |p| == 1 ==> Posix(p) == p[0];
    assert |p| > 1 ==> Posix(p) == p[0] + "/" + Posix(p[1..]) && |Posix(p)| >= 2;
  }
}
