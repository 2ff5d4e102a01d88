/** Swapping a run of packs for one compacted pack in a manifest's stack. */
module Publish {
  import opened Packs

  /** Smallest recorded generation of the packs (0 means unrecorded); 0 if none is recorded. */
  function GenerationMin(packs: seq<Pack>): nat {
    if packs == [] then 0
    else
      var rest, g := GenerationMin(packs[1..]), packs[0].generationMin;
      if g == 0 then rest else if rest == 0 || g < rest then g else rest
  }

  function GenerationMax(packs: seq<Pack>): nat {
    if packs == [] then 0
    else
      var rest, g := GenerationMax(packs[1..]), packs[0].generationMax;
      if g > rest then g else rest
  }

  /** The smallest and the largest recorded generation, 0 exactly if none is recorded. */
  lemma {:induction false} GenerationRange(packs: seq<Pack>)
    ensures GenerationMin(packs) == 0 <==> forall p | p in packs :: p.generationMin == 0
    ensures GenerationMin(packs) != 0 ==> exists p :: p in packs && p.generationMin == GenerationMin(packs)
    ensures forall p | p in packs && p.generationMin != 0 :: GenerationMin(packs) <= p.generationMin
    ensures GenerationMax(packs) == 0 <==> forall p | p in packs :: p.generationMax == 0
    ensures GenerationMax(packs) != 0 ==> exists p :: p in packs && p.generationMax == GenerationMax(packs)
    ensures forall p | p in packs :: p.generationMax <= GenerationMax(packs)
    decreases |packs|
  {
    if packs != [] {
      GenerationRange(packs[1..]);
      assert forall p :: p in packs <==> p == packs[0] || p in packs[1..];
    }
  }

  function WithCompactionMetadata(pack: Pack, selected: seq<Pack>, target: nat): Pack {
    pack.(level := target, generationMin := GenerationMin(selected), generationMax := GenerationMax(selected),
          kind := Compact)
  }

  function PathsOf(packs: seq<Pack>): set<string> {
    set i | 0 <= i < |packs| :: packs[i].path
  }

  /** Positions from `from` on whose pack has one of the paths. */
  function SelectedIndexes(lowers: seq<Pack>, paths: set<string>, from: nat): seq<nat>
    requires from <= |lowers|
    decreases |lowers| - from
  {
    if from == |lowers| then []
    else (if lowers[from].path in paths then [from] else []) + SelectedIndexes(lowers, paths, from + 1)
  }

  predicate Ascending(s: seq<nat>) {
    forall i, j | 0 <= i < j < |s| :: s[i] < s[j]
  }

  datatype Swap = Swap(lowers: seq<Pack>, retired: seq<Pack>)

  function PublishPartialCompaction(lowers: seq<Pack>, selected: seq<Pack>, newPack: Pack, target: nat): Result<Swap> {
    if selected == [] then Err("partial compaction requires at least one selected pack")
    else
      var indexes := SelectedIndexes(lowers, PathsOf(selected), 0);
      if |indexes| != |selected| then Err("selected packs are not all present in the manifest")
      else if exists i | 0 <= i < |indexes| :: indexes[i] != indexes[0] + i then
        Err("selected packs must be contiguous in the manifest stack")
      else
        SelectedAreIndexes(lowers, PathsOf(selected), 0);
        assert indexes[0] in indexes && indexes[|indexes| - 1] in indexes;
        var first, last := indexes[0], indexes[|indexes| - 1];
        var retired := lowers[first..last + 1];
        Ok(Swap(lowers[..first] + [WithCompactionMetadata(newPack, retired, target)] + lowers[last + 1..], retired))
  }

  lemma {:induction false} SelectedAreIndexes(lowers: seq<Pack>, paths: set<string>, from: nat)
    requires from <= |lowers|
    ensures forall x | x in SelectedIndexes(lowers, paths, from) :: from <= x < |lowers| && lowers[x].path in paths
    ensures forall x | from <= x < |lowers| && lowers[x].path in paths :: x in SelectedIndexes(lowers, paths, from)
    ensures Ascending(SelectedIndexes(lowers, paths, from))
    decreases |lowers| - from
  {
    if from < |lowers| {
      SelectedAreIndexes(lowers, paths, from + 1);
      var rest := SelectedIndexes(lowers, paths, from + 1);
      assert forall j | 0 <= j < |rest| :: rest[j] in rest;
    }
  }

  /** The paths of selected sit exactly at positions first.. of the stack. */
  predicate SitsAt(lowers: seq<Pack>, selected: seq<Pack>, first: nat) {
    && first + |selected| <= |lowers|
    && forall x | 0 <= x < |lowers| :: lowers[x].path in PathsOf(selected) <==> first <= x < first + |selected|
  }

  lemma {:induction false} AscendingGaps(s: seq<nat>, i: nat)
    requires Ascending(s) && i < |s|
    ensures s[0] + i <= s[i]
    decreases i
  {
    if i > 0 {
      AscendingGaps(s, i - 1);
    }
  }

  lemma HasMember(s: seq<nat>)
    ensures s != [] ==> exists x :: x in s
  {
    if s != [] {
      assert s[0] in s;
    }
  }

  /** An ascending list that is exactly an interval lists it in order. */
  lemma {:induction false} IntervalInOrder(s: seq<nat>, first: nat, n: nat)
    requires Ascending(s)
    requires forall x :: x in s <==> first <= x < first + n
    ensures |s| == n && forall i | 0 <= i < n :: s[i] == first + i
    decreases n
  {
    if n == 0 {
      HasMember(s);
    } else {
      assert forall i | 0 <= i < |s| :: s[i] in s;
      var last := first + n - 1;
      assert last in s;
      var k :| 0 <= k < |s| && s[k] == last;
      assert s[|s| - 1] in s;
      assert k == |s| - 1;
      var t := s[..k];
      forall x ensures x in t <==> first <= x < first + n - 1 {
        if x in t {
          var i :| 0 <= i < k && s[i] == x;
        }
        if first <= x < first + n - 1 {
          assert x in s;
          var i :| 0 <= i < |s| && s[i] == x;
          assert i < k && t[i] == x;
        }
      }
      IntervalInOrder(t, first, n - 1);
    }
  }

  /** A selection that is one block of the stack is replaced, block for pack. */
  lemma BlockIsReplaced(lowers: seq<Pack>, selected: seq<Pack>, newPack: Pack, target: nat, first: nat)
    requires selected != [] && SitsAt(lowers, selected, first)
    ensures var block := lowers[first..first + |selected|];
            PublishPartialCompaction(lowers, selected, newPack, target) == Ok(Swap(
              lowers[..first] + [WithCompactionMetadata(newPack, block, target)] + lowers[first + |selected|..],
              block))
  {
    var s := SelectedIndexes(lowers, PathsOf(selected), 0);
    SelectedAreIndexes(lowers, PathsOf(selected), 0);
    IntervalInOrder(s, first, |selected|);
  }

  /** Only a selection that is one block of the stack is published. */
  lemma OnlyBlocksPublish(lowers: seq<Pack>, selected: seq<Pack>, newPack: Pack, target: nat) returns (first: nat)
    requires PublishPartialCompaction(lowers, selected, newPack, target).Ok?
    ensures selected != [] && SitsAt(lowers, selected, first)
  {
    var s := SelectedIndexes(lowers, PathsOf(selected), 0);
    SelectedAreIndexes(lowers, PathsOf(selected), 0);
    first := s[0];
    forall x | 0 <= x < |lowers|
      ensures lowers[x].path in PathsOf(selected) <==> first <= x < first + |selected|
    {
      if first <= x < first + |s| {
        assert s[x - first] == x;
      }
    }
    assert s[|s| - 1] in s;
  }

  /**
   Publication succeeds exactly when the selected paths occupy one contiguous block of the stack, as
   long as the selection; then precisely that block is replaced.
   */
  lemma PublishReplacesBlock(lowers: seq<Pack>, selected: seq<Pack>, newPack: Pack, target: nat)
    ensures PublishPartialCompaction(lowers, selected, newPack, target).Ok? <==>
            selected != [] && exists first :: SitsAt(lowers, selected, first)
    ensures forall first: nat | selected != [] && SitsAt(lowers, selected, first) ::
              var block := lowers[first..first + |selected|];
              PublishPartialCompaction(lowers, selected, newPack, target) == Ok(Swap(
                lowers[..first] + [WithCompactionMetadata(newPack, block, target)] + lowers[first + |selected|..],
                block))
  {
    forall first: nat | selected != [] && SitsAt(lowers, selected, first)
      ensures var block := lowers[first..first + |selected|];
              PublishPartialCompaction(lowers, selected, newPack, target) == Ok(Swap(
                lowers[..first] + [WithCompactionMetadata(newPack, block, target)] + lowers[first + |selected|..],
                block))
    {
      BlockIsReplaced(lowers, selected, newPack, target, first);
    }
    if PublishPartialCompaction(lowers, selected, newPack, target).Ok? {
      var first := OnlyBlocksPublish(lowers, selected, newPack, target);
    }
  }

  /** With distinct paths, publishing a newest suffix replaces exactly that suffix. */
  lemma PublishSuffix(lowers: seq<Pack>, m: nat, newPack: Pack, target: nat)
    requires 1 <= m <= |lowers|
    requires forall i, j | 0 <= i < j < |lowers| :: lowers[i].path != lowers[j].path
    ensures var selected := lowers[|lowers| - m..];
            PublishPartialCompaction(lowers, selected, newPack, target) == Ok(Swap(
              lowers[..|lowers| - m] + [WithCompactionMetadata(newPack, selected, target)], selected))
  {
    var first, selected := |lowers| - m, lowers[|lowers| - m..];
    forall x | 0 <= x < |lowers| ensures lowers[x].path in PathsOf(selected) <==> first <= x < first + m {
      if lowers[x].path in PathsOf(selected) {
        var i :| 0 <= i < m && selected[i].path == lowers[x].path;
        assert selected[i] == lowers[first + i];
      }
      if first <= x {
        assert selected[x - first] == lowers[x];
      }
    }
    assert SitsAt(lowers, selected, first);
    BlockIsReplaced(lowers, selected, newPack, target, first);
    assert lowers[first..first + |selected|] == selected && lowers[first + |selected|..] == [];
    var pack := WithCompactionMetadata(newPack, selected, target);
    assert lowers[..first] + [pack] + [] == lowers[..first] + [pack];
  }
}
