/**
 Where a write lands: the owner's overlay, under a percent-encoded name (section 2.1 of RFC 3986, over the
 UTF-8 bytes of the id), at the inner path.  Different paths never land in the same place.
 */
module Routing {
  import opened Trees
  import opened Names
  import opened Packs
  import opened Boundaries

  type Byte = b: nat | b < 256

  // ---- UTF-8 ----

  function CharBytes(c: char): (bytes: seq<Byte>)
    ensures 1 <= |bytes| <= 4
  {
    var n := c as int;
    var n1 := n / 64;
    var n2 := n1 / 64;
    if n < 0x80 then [n]
    else if n < 0x800 then [0xC0 + n1, 0x80 + n % 64]
    else if n < 0x1_0000 then [0xE0 + n2, 0x80 + n1 % 64, 0x80 + n % 64]
    else [0xF0 + n2 / 64, 0x80 + n2 % 64, 0x80 + n1 % 64, 0x80 + n % 64]
  }

  function Utf8(s: string): seq<Byte> {
    if s == "" then [] else CharBytes(s[0]) + Utf8(s[1..])
  }

  /** How many bytes the first character takes, from its first byte. */
  function Width(b: Byte): nat {
    if b < 0x80 then 1 else if b < 0xE0 then 2 else if b < 0xF0 then 3 else 4
  }

  /** The code point spelled by a lead digit and continuation bytes. */
  function Continued(lead: int, rest: seq<Byte>): int
    decreases |rest|
  {
    if rest == [] then lead else Continued(lead * 64 + (rest[0] as int - 0x80), rest[1..])
  }

  /** The code point of a character's bytes. */
  function Code(bytes: seq<Byte>): int
    requires bytes != []
  {
    var b: int := bytes[0];
    var lead := match Width(bytes[0]) case 1 => b case 2 => b - 0xC0 case 3 => b - 0xE0 case _ => b - 0xF0;
    Continued(lead, bytes[1..])
  }

  lemma ContinuedStep(lead: int, b: Byte, rest: seq<Byte>)
    ensures Continued(lead, [b] + rest) == Continued(lead * 64 + (b as int - 0x80), rest)
    ensures Continued(lead, [b]) == lead * 64 + (b as int - 0x80)
  {
    assert ([b] + rest)[1..] == rest;
    assert [b][1..] == [];
  }

  lemma CharReadsBack(c: char)
    ensures Width(CharBytes(c)[0]) == |CharBytes(c)| && Code(CharBytes(c)) == c as int
  {
    var bytes, n := CharBytes(c), c as int;
    var n1 := n / 64;
    var n2 := n1 / 64;
    if |bytes| == 2 {
      assert bytes[1..] == [bytes[1]];
      ContinuedStep(n1, bytes[1], []);
    } else if |bytes| == 3 {
      assert bytes[1..] == [bytes[1]] + [bytes[2]];
      ContinuedStep(n2, bytes[1], [bytes[2]]);
      ContinuedStep(n1, bytes[2], []);
    } else if |bytes| == 4 {
      assert bytes[1..] == [bytes[1]] + ([bytes[2]] + [bytes[3]]);
      ContinuedStep(n2 / 64, bytes[1], [bytes[2]] + [bytes[3]]);
      ContinuedStep(n2, bytes[2], [bytes[3]]);
      ContinuedStep(n1, bytes[3], []);
    }
  }

  lemma {:induction false} Utf8Injective(s: string, t: string)
    requires Utf8(s) == Utf8(t)
    ensures s == t
    decreases |s|
  {
    if s != "" && t != "" {
      var x, y := CharBytes(s[0]), CharBytes(t[0]);
      CharReadsBack(s[0]);
      CharReadsBack(t[0]);
      assert Utf8(s)[0] == x[0] && Utf8(t)[0] == y[0];
      assert |x| == |y|;
      assert x == Utf8(s)[..|x|] && y == Utf8(t)[..|y|];
      assert Utf8(s)[|x|..] == Utf8(s[1..]) && Utf8(t)[|y|..] == Utf8(t[1..]);
      Utf8Injective(s[1..], t[1..]);
      assert s == [s[0]] + s[1..] && t == [t[0]] + t[1..];
    }
  }

  // ---- percent-encoding ----

  /** Letters, digits, `_`, `.`, `-`, and `~`, which the encoder always lets through. */
  predicate Unreserved(b: Byte) {
    65 <= b <= 90 || 97 <= b <= 122 || 48 <= b <= 57 || b == 95 || b == 46 || b == 45 || b == 126
  }

  function Hex(d: nat): char
    requires d < 16
  {
    "0123456789ABCDEF"[d]
  }

  function HexValue(c: char): nat {
    if '0' <= c <= '9' then (c - '0') as nat else if 'A' <= c <= 'F' then (c - 'A') as nat + 10 else 0
  }

  function QuotedByte(b: Byte): string {
    if Unreserved(b) then [b as char] else ['%', Hex(b / 16), Hex(b % 16)]
  }

  function Quote(bytes: seq<Byte>): string {
    if bytes == [] then "" else QuotedByte(bytes[0]) + Quote(bytes[1..])
  }

  /** Percent-decoding. */
  function Unquote(s: string): seq<int> {
    if s == "" then []
    else if s[0] != '%' then [s[0] as int] + Unquote(s[1..])
    else if |s| >= 3 then [16 * HexValue(s[1]) + HexValue(s[2])] + Unquote(s[3..])
    else []
  }

  /** The encoder keeps ASCII letters, digits and `_.-~`, and no other byte. */
  lemma KeepsUnreserved(b: Byte)
    ensures QuotedByte(b) == [b as char] <==>
            var c := b as char;
            'a' <= c <= 'z' || 'A' <= c <= 'Z' || '0' <= c <= '9' || c == '_' || c == '.' || c == '-' || c == '~'
  {
  }

  lemma HexReadsBack(d: nat)
    requires d < 16
    ensures HexValue(Hex(d)) == d
  {
  }

  lemma ByteReadsBack(b: Byte, rest: string)
    ensures Unquote(QuotedByte(b) + rest) == [b as int] + Unquote(rest)
  {
    var s := QuotedByte(b) + rest;
    if Unreserved(b) {
      assert s[0] == b as char && s[1..] == rest;
    } else {
      assert s[0] == '%' && s[1] == Hex(b / 16) && s[2] == Hex(b % 16) && s[3..] == rest;
      HexReadsBack(b / 16);
      HexReadsBack(b % 16);
    }
  }

  lemma {:induction false} QuoteReadsBack(bytes: seq<Byte>)
    ensures Unquote(Quote(bytes)) == bytes
    decreases |bytes|
  {
    if bytes != [] {
      QuoteReadsBack(bytes[1..]);
      ByteReadsBack(bytes[0], Quote(bytes[1..]));
      assert bytes == [bytes[0]] + bytes[1..];
    }
  }

  lemma {:induction false} QuoteHasNoSlash(bytes: seq<Byte>)
    ensures NoChar(Quote(bytes), '/')
    decreases |bytes|
  {
    if bytes != [] {
      QuoteHasNoSlash(bytes[1..]);
      assert NoChar(QuotedByte(bytes[0]), '/');
      NoCharAppend(QuotedByte(bytes[0]), Quote(bytes[1..]), '/');
    }
  }

  const CHILD: string := "child"

  function SafeNamespaceName(id: string): string {
    if id == "" then CHILD else Quote(Utf8(id))
  }

  predicate Plain(c: char) {
    c as int < 128 && Unreserved(c as int)
  }

  /** Ids of unreserved characters are their own names. */
  lemma {:induction false} PlainIsItsOwnName(id: string)
    requires forall i | 0 <= i < |id| :: Plain(id[i])
    ensures Quote(Utf8(id)) == id
    decreases |id|
  {
    if id != "" {
      var c, rest := id[0], id[1..];
      assert Plain(c) && forall i | 0 <= i < |rest| :: rest[i] == id[i + 1];
      PlainIsItsOwnName(rest);
      assert Utf8(id) == [c as int] + Utf8(rest);
      assert id == [c] + rest;
    }
  }

  lemma ChildIsItsOwnName()
    ensures SafeNamespaceName(CHILD) == CHILD
  {
    PlainIsItsOwnName(CHILD);
  }

  lemma QuoteInjective(a: string, b: string)
    requires Quote(Utf8(a)) == Quote(Utf8(b))
    ensures a == b
  {
    QuoteReadsBack(Utf8(a));
    QuoteReadsBack(Utf8(b));
    Utf8Injective(a, b);
  }

  /** Names collide for equal ids and for the empty id with "child", never otherwise. */
  lemma NamesCollideExactly(a: string, b: string)
    ensures SafeNamespaceName(a) == SafeNamespaceName(b) <==>
            a == b || (a == "" && b == CHILD) || (a == CHILD && b == "")
  {
    ChildIsItsOwnName();
    if SafeNamespaceName(a) == SafeNamespaceName(b) {
      var x, y := if a == "" then CHILD else a, if b == "" then CHILD else b;
      assert SafeNamespaceName(a) == SafeNamespaceName(x) && SafeNamespaceName(b) == SafeNamespaceName(y);
      QuoteInjective(x, y);
    }
  }

  /** A name is one path component, whatever the id. */
  lemma NameIsOneComponent(id: string)
    ensures SafeNamespaceName(id) != "" && NoChar(SafeNamespaceName(id), '/')
  {
    QuoteHasNoSlash(Utf8(id));
    if id != "" {
      var bytes := Utf8(id);
      assert |QuotedByte(bytes[0])| > 0;
    }
  }

  lemma CharsLiterally()
    ensures CharBytes('\U{E9}') == [0xC3, 0xA9] && CharBytes('\U{20AC}') == [0xE2, 0x82, 0xAC]
    ensures CharBytes('\U{1F600}') == [0xF0, 0x9F, 0x98, 0x80]
  {
  }

  lemma Utf8Ascii(s: string)
    requires |s| == 3 && forall i | 0 <= i < 3 :: s[i] as int < 128
    ensures Utf8(s) == [s[0] as int, s[1] as int, s[2] as int]
  {
    var t, u := s[1..], s[2..];
    assert t[1..] == u && u[1..] == "";
    assert Utf8(u) == [s[2] as int];
    assert Utf8(t) == [s[1] as int] + Utf8(u);
  }

  lemma QuotesThree(a: Byte, b: Byte, c: Byte)
    ensures Quote([a, b, c]) == QuotedByte(a) + (QuotedByte(b) + QuotedByte(c))
  {
    var t, u := [b, c], [c];
    assert [a, b, c][1..] == t && t[1..] == u && u[1..] == [];
    assert Quote(u) == QuotedByte(c);
  }

  lemma SlashIsEncoded()
    ensures SafeNamespaceName("a/b") == "a%2Fb"
  {
    Utf8Ascii("a/b");
    QuotesThree(97, 47, 98);
    assert QuotedByte(47) == "%2F";
  }

  // ---- routing ----

  datatype Route = Route(ownerId: string, isParent: bool, overlay: string, innerPath: string)

  function RoutePath(bs: seq<Boundary>, parentId: string, relPath: string): Route {
    var own := ResolveOwnerPath(bs, relPath, parentId);
    Route(own.ownerId, own.boundary.None?, SafeNamespaceName(own.ownerId), own.innerPath)
  }

  /**
   A write to a path goes to the child of the longest boundary above it, component by component, at the rest
   of the path, or to the parent if no boundary is above it; decoding the overlay's name gives the bytes of the
   owner's id (of "child" for the empty id).
   */
  lemma RouteIs(bs: seq<Boundary>, parentId: string, relPath: string)
    requires NormalBoundaries(bs) && Components(relPath) != []
    ensures var r, p := RoutePath(bs, parentId, relPath), Components(relPath);
            && (r.isParent <==> forall i | 0 <= i < |bs| :: !(Root(bs[i]) <= p))
            && (r.isParent ==> r.ownerId == parentId && r.innerPath == Posix(p))
            && (!r.isParent ==>
                  exists b | b in bs ::
                    && Root(b) <= p && (forall i | 0 <= i < |bs| && Root(bs[i]) <= p :: Root(bs[i]) <= Root(b))
                    && r.ownerId == b.childId && r.innerPath == Posix(p[|Root(b)|..]))
            && Unquote(r.overlay) == Utf8(if r.ownerId == "" then CHILD else r.ownerId)
  {
    var r, own := RoutePath(bs, parentId, relPath), ResolveOwnerPath(bs, relPath, parentId);
    OwnerIsLongestPrefix(bs, relPath, parentId);
    NameDecodes(r.ownerId);
  }

  lemma NameDecodes(id: string)
    ensures Unquote(SafeNamespaceName(id)) == Utf8(if id == "" then CHILD else id)
  {
    PlainIsItsOwnName(CHILD);
    QuoteReadsBack(Utf8(if id == "" then CHILD else id));
  }

  /** Owners are told apart by their ids, and no id is empty. */
  predicate DistinctOwners(bs: seq<Boundary>, parentId: string) {
    && parentId != ""
    && (forall i | 0 <= i < |bs| :: bs[i].childId != "" && bs[i].childId != parentId)
    && forall i, j | 0 <= i < j < |bs| :: bs[i].childId != bs[j].childId
  }

  lemma SameOwnerSameBoundary(bs: seq<Boundary>, parentId: string, p: string, q: string)
    requires DistinctOwners(bs, parentId)
    requires ResolveOwnerPath(bs, p, parentId).ownerId == ResolveOwnerPath(bs, q, parentId).ownerId
    ensures ResolveOwnerPath(bs, p, parentId).boundary == ResolveOwnerPath(bs, q, parentId).boundary
  {
    NearestIsLongest(bs, Normalize(p));
    NearestIsLongest(bs, Normalize(q));
  }

  /** Two paths land in the same place of the same overlay exactly when they name the same file. */
  lemma RoutingIsInjective(bs: seq<Boundary>, parentId: string, p: string, q: string)
    requires NormalBoundaries(bs) && DistinctOwners(bs, parentId)
    requires Components(p) != [] && Components(q) != []
    ensures var r, s := RoutePath(bs, parentId, p), RoutePath(bs, parentId, q);
            r.overlay == s.overlay && r.innerPath == s.innerPath <==> Components(p) == Components(q)
  {
    var r, s := RoutePath(bs, parentId, p), RoutePath(bs, parentId, q);
    if r.overlay == s.overlay && r.innerPath == s.innerPath {
      OwnersAreNonempty(bs, parentId, p);
      OwnersAreNonempty(bs, parentId, q);
      NamesCollideExactly(r.ownerId, s.ownerId);
      SameOwnerSameBoundary(bs, parentId, p, q);
      OwnerIsLongestPrefix(bs, p, parentId);
      OwnerIsLongestPrefix(bs, q, parentId);
      if !r.isParent {
        BoundaryAndInnerRebuild(bs, p, parentId);
        BoundaryAndInnerRebuild(bs, q, parentId);
      }
      ComponentsAreNormal(p);
      ComponentsAreNormal(q);
      NormalPaths(Components(p), Components(q));
    }
  }

  lemma OwnersAreNonempty(bs: seq<Boundary>, parentId: string, p: string)
    requires DistinctOwners(bs, parentId)
    ensures ResolveOwnerPath(bs, p, parentId).ownerId != ""
  {
    NearestIsLongest(bs, Normalize(p));
  }
}
