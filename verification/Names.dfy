/** Generated file names: zero-padded numbers, pack files and mirror epochs, and why they never clash. */
module Names {

  function Digit(d: nat): char
    requires d < 10
  {
    "0123456789"[d]
  }

  function DigitValue(c: char): nat {
    if '0' <= c <= '9' then (c - '0') as nat else 0
  }

  /** Decimal notation. */
  function Dec(n: nat): string {
    if n < 10 then [Digit(n)] else Dec(n / 10) + [Digit(n % 10)]
  }

  /** At least width digits, zero-padded on the left. */
  function Padded(n: nat, width: nat): string {
    Zeros(if |Dec(n)| < width then width - |Dec(n)| else 0) + Dec(n)
  }

  function Zeros(k: nat): (z: string)
    ensures |z| == k
  {
    seq(k, _ => '0')
  }

  /** The number a digit string denotes. */
  function Value(s: string): nat {
    if s == [] then 0 else 10 * Value(s[..|s| - 1]) + DigitValue(s[|s| - 1])
  }

  predicate NoChar(s: string, c: char) {
    forall i | 0 <= i < |s| :: s[i] != c
  }

  lemma {:induction false} ValueOfDec(n: nat)
    ensures Value(Dec(n)) == n && (forall i | 0 <= i < |Dec(n)| :: '0' <= Dec(n)[i] <= '9')
  {
    if n >= 10 {
      ValueOfDec(n / 10);
      var s := Dec(n);
      assert s[..|s| - 1] == Dec(n / 10);
    } else {
      assert Dec(n)[..0] == [];
    }
  }

  lemma {:induction false} ValueAfterZeros(k: nat, s: string)
    ensures Value(Zeros(k) + s) == Value(s)
    decreases |s|, k
  {
    if s == [] {
      if k > 0 {
        assert (Zeros(k) + s)[..k - 1] == Zeros(k - 1) + s;
        ValueAfterZeros(k - 1, s);
        assert (Zeros(k) + s)[k - 1] == '0';
      } else {
        assert Zeros(0) + s == [];
      }
    } else {
      assert (Zeros(k) + s)[..k + |s| - 1] == Zeros(k) + s[..|s| - 1];
      ValueAfterZeros(k, s[..|s| - 1]);
    }
  }

  /** A padded number can be read back, and is all digits. */
  lemma PaddedReadsBack(n: nat, width: nat)
    ensures Value(Padded(n, width)) == n
    ensures forall i | 0 <= i < |Padded(n, width)| :: '0' <= Padded(n, width)[i] <= '9'
  {
    ValueOfDec(n);
    ValueAfterZeros(|Padded(n, width)| - |Dec(n)|, Dec(n));
  }

  /** A string splits in only one way at its first c. */
  lemma {:induction false} SplitUnique(x: string, y: string, x': string, y': string, c: char)
    requires NoChar(x, c) && NoChar(x', c)
    requires x + [c] + y == x' + [c] + y'
    ensures x == x' && y == y'
    decreases |x|
  {
    var s, s' := x + [c] + y, x' + [c] + y';
    assert s[0] == if x == [] then c else x[0];
    assert s'[0] == if x' == [] then c else x'[0];
    if x == [] {
      assert s[1..] == y && s'[1..] == y';
    } else {
      assert s[1..] == x[1..] + [c] + y && s'[1..] == x'[1..] + [c] + y';
      SplitUnique(x[1..], y, x'[1..], y', c);
    }
  }

  // ---- pack files ----

  function DeltaName(generation: nat): string {
    "delta-g" + Padded(generation, 4) + ".sqfs"
  }

  function CompactName(level: nat, from: nat, to: nat): string {
    "compact-L" + (Dec(level) + "-" + ("g" + Padded(from, 4) + "-" + ("g" + Padded(to, 4) + ".sqfs")))
  }

  lemma SameTail(x: string, y: string, tail: string)
    requires x + tail == y + tail
    ensures x == y
  {
    assert |x| == |y|;
    assert x == (x + tail)[..|x|] && y == (y + tail)[..|y|];
  }

  lemma SameHead(head: string, x: string, y: string)
    requires head + x == head + y
    ensures x == y
  {
    assert x == (head + x)[|head|..] && y == (head + y)[|head|..];
  }

  lemma DeltaNamesDiffer(a: nat, b: nat)
    requires DeltaName(a) == DeltaName(b)
    ensures a == b
  {
    var x, y := Padded(a, 4), Padded(b, 4);
    assert DeltaName(a) == "delta-g" + x + ".sqfs" && DeltaName(b) == "delta-g" + y + ".sqfs";
    SameTail("delta-g" + x, "delta-g" + y, ".sqfs");
    SameHead("delta-g", x, y);
    PaddedReadsBack(a, 4);
    PaddedReadsBack(b, 4);
  }

  lemma NoDashes(n: nat, width: nat)
    ensures NoChar(Padded(n, width), '-') && NoChar(Dec(n), '-')
    ensures NoChar("g" + Padded(n, width), '-')
  {
    PaddedReadsBack(n, width);
    ValueOfDec(n);
  }

  lemma CompactNamesDiffer(l: nat, a: nat, b: nat, l': nat, a': nat, b': nat)
    requires CompactName(l, a, b) == CompactName(l', a', b')
    ensures l == l' && a == a' && b == b'
  {
    var fa, fb, fa', fb' := "g" + Padded(a, 4), "g" + Padded(b, 4), "g" + Padded(a', 4), "g" + Padded(b', 4);
    var tail, tail' := fb + ".sqfs", fb' + ".sqfs";
    SameHead("compact-L", Dec(l) + "-" + (fa + "-" + tail), Dec(l') + "-" + (fa' + "-" + tail'));
    NoDashes(l, 0);
    NoDashes(l', 0);
    SplitUnique(Dec(l), fa + "-" + tail, Dec(l'), fa' + "-" + tail', '-');
    NoDashes(a, 4);
    NoDashes(a', 4);
    SplitUnique(fa, tail, fa', tail', '-');
    SameHead("g", Padded(a, 4), Padded(a', 4));
    SameTail(fb, fb', ".sqfs");
    SameHead("g", Padded(b, 4), Padded(b', 4));
    ValueOfDec(l);
    ValueOfDec(l');
    PaddedReadsBack(a, 4);
    PaddedReadsBack(a', 4);
    PaddedReadsBack(b, 4);
    PaddedReadsBack(b', 4);
  }

  lemma DeltaIsNotCompact(g: nat, l: nat, a: nat, b: nat)
    ensures DeltaName(g) != CompactName(l, a, b)
  {
    assert DeltaName(g)[0] == 'd' && CompactName(l, a, b)[0] == 'c';
  }

  // ---- directories and base names ----

  function InDir(dir: string, name: string): string {
    dir + "/" + name
  }

  /** The last component of a slash-separated path. */
  function Basename(path: string): string {
    if path == [] then []
    else if path[|path| - 1] == '/' then []
    else Basename(path[..|path| - 1]) + [path[|path| - 1]]
  }

  lemma {:induction false} BasenameInDir(dir: string, name: string)
    requires NoChar(name, '/')
    ensures Basename(InDir(dir, name)) == name
    decreases |name|
  {
    var path := InDir(dir, name);
    if name == [] {
      assert path[|path| - 1] == '/';
    } else {
      assert path[..|path| - 1] == InDir(dir, name[..|name| - 1]);
      BasenameInDir(dir, name[..|name| - 1]);
      assert name == name[..|name| - 1] + [name[|name| - 1]];
    }
  }

  lemma NoCharAppend(a: string, b: string, c: char)
    ensures NoChar(a + b, c) <==> NoChar(a, c) && NoChar(b, c)
  {
    if NoChar(a + b, c) {
      assert forall i | 0 <= i < |a| :: a[i] == (a + b)[i];
      assert forall i | 0 <= i < |b| :: b[i] == (a + b)[|a| + i];
    }
  }

  lemma DigitsHaveNoSlash(n: nat, width: nat)
    ensures NoChar(Padded(n, width), '/') && NoChar(Dec(n), '/')
  {
    PaddedReadsBack(n, width);
    ValueOfDec(n);
  }

  lemma DeltaNameHasNoSlash(g: nat)
    ensures NoChar(DeltaName(g), '/')
  {
    DigitsHaveNoSlash(g, 4);
    NoCharAppend("delta-g" + Padded(g, 4), ".sqfs", '/');
    NoCharAppend("delta-g", Padded(g, 4), '/');
  }

  lemma CompactNameHasNoSlash(l: nat, a: nat, b: nat)
    ensures NoChar(CompactName(l, a, b), '/')
  {
    DigitsHaveNoSlash(l, 0);
    DigitsHaveNoSlash(a, 4);
    DigitsHaveNoSlash(b, 4);
    var t3 := "g" + Padded(b, 4) + ".sqfs";
    var t2 := "g" + Padded(a, 4) + "-" + t3;
    var t1 := Dec(l) + "-" + t2;
    NoCharAppend("g" + Padded(b, 4), ".sqfs", '/');
    NoCharAppend("g", Padded(b, 4), '/');
    NoCharAppend("g" + Padded(a, 4) + "-", t3, '/');
    NoCharAppend("g" + Padded(a, 4), "-", '/');
    NoCharAppend("g", Padded(a, 4), '/');
    NoCharAppend(Dec(l) + "-", t2, '/');
    NoCharAppend(Dec(l), "-", '/');
    NoCharAppend("compact-L", t1, '/');
    assert CompactName(l, a, b) == "compact-L" + t1;
  }

  // ---- stripping slashes ----

  /** Without leading slashes. */
  function LeftStripped(s: string): string {
    if s != [] && s[0] == '/' then LeftStripped(s[1..]) else s
  }

  /** Without trailing slashes. */
  function RightStripped(s: string): string {
    if s != [] && s[|s| - 1] == '/' then RightStripped(s[..|s| - 1]) else s
  }

  /** Without slashes at either end. */
  function Stripped(s: string): string {
    RightStripped(LeftStripped(s))
  }

  lemma {:induction false} StrippedEnds(s: string)
    ensures var t := LeftStripped(s); t != [] ==> t[0] != '/' && t[|t| - 1] == s[|s| - 1]
    ensures var t := RightStripped(s); t != [] ==> t[|t| - 1] != '/' && t[0] == s[0]
    ensures (exists i | 0 <= i < |s| :: s[i] != '/') ==> LeftStripped(s) != [] && RightStripped(s) != []
    decreases |s|
  {
    if s != [] && s[0] == '/' {
      StrippedEnds(s[1..]);
      assert forall i | 0 < i < |s| :: s[i] == s[1..][i - 1];
    }
    if s != [] && s[|s| - 1] == '/' {
      StrippedEnds(s[..|s| - 1]);
      assert forall i | 0 <= i < |s| - 1 :: s[i] == s[..|s| - 1][i];
    }
  }

  lemma StrippedTwice(s: string)
    ensures Stripped(Stripped(s)) == Stripped(s)
  {
    StrippedEnds(s);
    StrippedEnds(LeftStripped(s));
  }

  // ---- mirror epochs ----

  function EpochName(epoch: nat): string {
    "e" + Padded(epoch, 6)
  }

  function StagingName(epoch: nat): string {
    "." + EpochName(epoch) + ".tmp"
  }

  lemma EpochNamesDiffer(a: nat, b: nat)
    ensures EpochName(a) == EpochName(b) ==> a == b
    ensures EpochName(a) != StagingName(b)
  {
    if EpochName(a) == EpochName(b) {
      SameHead("e", Padded(a, 6), Padded(b, 6));
      PaddedReadsBack(a, 6);
      PaddedReadsBack(b, 6);
    }
    assert EpochName(a)[0] == 'e' && StagingName(b)[0] == '.';
  }

  // ---- the formats, literally ----

  lemma DeltaLiterally()
    ensures DeltaName(7) == "delta-g0007.sqfs" && DeltaName(12345) == "delta-g12345.sqfs"
  {
    PaddedLiterally();
  }

  lemma CompactLiterally()
    ensures CompactName(1, 3, 12) == "compact-L1-g0003-g0012.sqfs"
  {
    PaddedLiterally();
    var to := "g" + Padded(12, 4) + ".sqfs";
    var from := "g" + Padded(3, 4) + "-" + to;
    assert to == "g0012.sqfs";
    assert from == "g0003-g0012.sqfs";
    assert CompactName(1, 3, 12) == "compact-L" + ("1" + "-" + from);
  }

  lemma EpochLiterally()
    ensures EpochName(42) == "e000042" && StagingName(42) == ".e000042.tmp"
  {
    PaddedLiterally();
  }

  lemma PaddedLiterally()
    ensures Padded(7, 4) == "0007" && Padded(3, 4) == "0003" && Padded(12, 4) == "0012"
    ensures Padded(12345, 4) == "12345" && Padded(42, 6) == "000042" && Dec(1) == "1"
  {
    assert Dec(12) == "12" && Dec(42) == "42" && Dec(123) == "123" && Dec(1234) == "1234" && Dec(12345) == "12345";
    assert Zeros(3) == "000" && Zeros(2) == "00" && Zeros(4) == "0000" && Zeros(0) == "";
  }
}
