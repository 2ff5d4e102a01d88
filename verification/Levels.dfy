/**
 The log-structured level planner: where a pack belongs, when a stack is healthy, and which newest
 suffix has to be merged to heal it.
 */
module Levels {
  import opened Packs

  /** Lower numbers are bigger tiers; level numbers ascend along a policy. */
  datatype Level = Level(level: nat, maxBytes: nat)

  datatype Policy = Policy(
    levels: seq<Level>,
    maxPacksPerLevel: nat,
    allowBaseCompaction: bool,
    maxOnlineBytes: nat
  )

  datatype Block = Unblocked | BaseBlocked | BudgetBlocked

  datatype Candidate = Candidate(packs: seq<Pack>, target: nat, totalBytes: nat, block: Block)

  /** What the policy parser produces: at least one level, sorted without duplicates. */
  predicate ValidPolicy(policy: Policy) {
    && policy.levels != []
    && policy.maxPacksPerLevel >= 1
    && forall i, j | 0 <= i < j < |policy.levels| :: policy.levels[i].level < policy.levels[j].level
  }

  function BaseLevel(policy: Policy): nat
    requires policy.levels != []
  {
    policy.levels[0].level
  }

  /** Of the first n levels, the last whose capacity holds size; the base level if none does. */
  function LastFitting(policy: Policy, size: nat, n: nat): nat
    requires policy.levels != [] && n <= |policy.levels|
  {
    if n == 0 then BaseLevel(policy)
    else if size <= policy.levels[n - 1].maxBytes then policy.levels[n - 1].level
    else LastFitting(policy, size, n - 1)
  }

  function TargetLevel(policy: Policy, size: nat): nat
    requires policy.levels != []
  {
    LastFitting(policy, size, |policy.levels|)
  }

  method ChooseInitialLevel(policy: Policy, size: nat) returns (chosen: nat)
    requires policy.levels != []
    ensures chosen == TargetLevel(policy, size)
  {
    chosen := BaseLevel(policy);
    for i := 0 to |policy.levels|
      invariant chosen == LastFitting(policy, size, i)
    {
      if size <= policy.levels[i].maxBytes {
        chosen := policy.levels[i].level;
      }
    }
  }

  /** Newer packs sit on strictly higher levels than older ones. */
  predicate Increasing(packs: seq<Pack>) {
    forall i, j | 0 <= i < j < |packs| :: packs[i].level < packs[j].level
  }

  /** The counting check accepts exactly the stacks with strictly increasing levels. */
  method IsValidStack(packs: seq<Pack>, policy: Policy) returns (valid: bool)
    requires policy.maxPacksPerLevel >= 1
    ensures valid <==> Increasing(packs)
  {
    var counts: map<nat, nat> := map[];
    var prevLevel: Option<nat> := None;
    for k := 0 to |packs|
      invariant Increasing(packs[..k])
      invariant prevLevel == if k == 0 then None else Some(packs[k - 1].level)
      invariant forall l :: l in counts <==> exists i | 0 <= i < k :: packs[i].level == l
      invariant forall l | l in counts :: counts[l] == 1
    {
      var level := packs[k].level;
      counts := counts[level := (if level in counts then counts[level] else 0) + 1];
      if counts[level] > policy.maxPacksPerLevel {
        assert exists i | 0 <= i < k :: packs[i].level == level;
        return false;
      }
      if prevLevel.Some? && level <= prevLevel.value {
        return false;
      }
      assert forall i | 0 <= i < k :: packs[i].level <= packs[k - 1].level by {
        assert forall i | 0 <= i < k :: packs[..k][i] == packs[i];
      }
      assert packs[..k + 1] == packs[..k] + [packs[k]];
      prevLevel := Some(level);
    }
    assert packs[..|packs|] == packs;
    return true;
  }

  /** Merging the newest m packs gives a healthy stack. */
  predicate Heals(packs: seq<Pack>, policy: Policy, m: nat)
    requires m <= |packs| && policy.levels != []
  {
    var prefix := packs[..|packs| - m];
    && Increasing(prefix)
    && forall p | p in prefix :: p.level < TargetLevel(policy, TotalSize(packs[|packs| - m..]))
  }

  function BlockOf(policy: Policy, target: nat, total: nat, allowBase: bool): Block
    requires policy.levels != []
  {
    if target <= BaseLevel(policy) && !allowBase then BaseBlocked
    else if total > policy.maxOnlineBytes && !allowBase then BudgetBlocked
    else Unblocked
  }

  function CandidateOf(packs: seq<Pack>, policy: Policy, allowBase: bool, m: nat): Candidate
    requires m <= |packs| && policy.levels != []
  {
    var group := packs[|packs| - m..];
    var total := TotalSize(group);
    var target := TargetLevel(policy, total);
    Candidate(group, target, total, BlockOf(policy, target, total, allowBase))
  }

  /** The first m or more newest packs whose merge heals the stack. */
  function SearchFrom(packs: seq<Pack>, policy: Policy, allowBase: bool, m: nat): Option<Candidate>
    requires m <= |packs| + 1 && policy.levels != []
    decreases |packs| + 1 - m
  {
    if m > |packs| then None
    else if Heals(packs, policy, m) then Some(CandidateOf(packs, policy, allowBase, m))
    else SearchFrom(packs, policy, allowBase, m + 1)
  }

  function Plan(packs: seq<Pack>, policy: Policy, allowBase: bool): Option<Candidate>
    requires policy.levels != []
  {
    if |packs| <= 1 || Increasing(packs) then None
    else SearchFrom(packs, policy, allowBase || policy.allowBaseCompaction, 1)
  }

  method PlanLevelCompaction(packs: seq<Pack>, policy: Policy, allowBase: bool)
    returns (c: Option<Candidate>)
    requires ValidPolicy(policy)
    ensures c == Plan(packs, policy, allowBase)
  {
    if |packs| <= 1 {
      return None;
    }
    var healthy := IsValidStack(packs, policy);
    if healthy {
      return None;
    }
    var allow := allowBase || policy.allowBaseCompaction;
    var n := |packs|;
    for m := 1 to n + 1
      invariant SearchFrom(packs, policy, allow, 1) == SearchFrom(packs, policy, allow, m)
    {
      c := TrySuffix(packs, policy, allow, m);
      if c.Some? {
        return;
      }
    }
    return None;
  }

  /** One round of the search: merge the newest m packs if that heals the stack. */
  method TrySuffix(packs: seq<Pack>, policy: Policy, allow: bool, m: nat) returns (c: Option<Candidate>)
    requires ValidPolicy(policy) && m <= |packs|
    ensures c == if Heals(packs, policy, m) then Some(CandidateOf(packs, policy, allow, m)) else None
  {
    var group, prefix := packs[|packs| - m..], packs[..|packs| - m];
    var prefixValid := IsValidStack(prefix, policy);
    if !prefixValid {
      return None;
    }
    var total := SumSizes(group);
    var target := ChooseInitialLevel(policy, total);
    var above := AboveAll(prefix, target);
    if !above {
      return None;
    }
    var block := if target <= BaseLevel(policy) && !allow then BaseBlocked
                 else if total > policy.maxOnlineBytes && !allow then BudgetBlocked
                 else Unblocked;
    return Some(Candidate(group, target, total, block));
  }

  method SumSizes(packs: seq<Pack>) returns (total: nat)
    ensures total == TotalSize(packs)
  {
    total := 0;
    for i := 0 to |packs|
      invariant total == TotalSize(packs[..i])
    {
      assert packs[..i + 1] == packs[..i] + [packs[i]];
      TotalSizeAppend(packs[..i], [packs[i]]);
      total := total + packs[i].size;
    }
    assert packs[..|packs|] == packs;
  }

  /** target exceeds the highest level of packs (-1 when there are none). */
  method AboveAll(packs: seq<Pack>, target: nat) returns (above: bool)
    ensures above <==> forall p | p in packs :: p.level < target
  {
    var highest: int := -1;
    for i := 0 to |packs|
      invariant forall k | 0 <= k < i :: packs[k].level <= highest
      invariant highest == -1 || exists k | 0 <= k < i :: packs[k].level == highest
    {
      if packs[i].level > highest {
        highest := packs[i].level;
      }
    }
    above := target > highest;
  }

  // ---- what the planner guarantees ----

  /** The stack after publishing a merge of its newest |c.packs| packs. */
  function Publication(packs: seq<Pack>, m: nat, merged: Pack): seq<Pack>
    requires m <= |packs|
  {
    packs[..|packs| - m] + [merged]
  }

  /** Healing is exactly: publishing at the target level yields increasing levels. */
  lemma HealsIsValidPublication(packs: seq<Pack>, policy: Policy, m: nat, merged: Pack)
    requires m <= |packs| && policy.levels != []
    requires merged.level == TargetLevel(policy, TotalSize(packs[|packs| - m..]))
    ensures Heals(packs, policy, m) <==> Increasing(Publication(packs, m, merged))
  {
    var prefix := packs[..|packs| - m];
    var pub := Publication(packs, m, merged);
    if Increasing(pub) {
      forall p | p in prefix ensures p.level < merged.level {
        var i :| 0 <= i < |prefix| && prefix[i] == p;
        assert pub[i] == p && pub[|prefix|] == merged;
      }
      assert forall i | 0 <= i < |prefix| :: prefix[i] == pub[i];
    }
  }

  lemma {:induction false} SearchFinds(packs: seq<Pack>, policy: Policy, allowBase: bool, m: nat) returns (k: nat)
    requires policy.levels != [] && 1 <= m <= |packs|
    ensures m <= k <= |packs| && Heals(packs, policy, k)
    ensures SearchFrom(packs, policy, allowBase, m) == Some(CandidateOf(packs, policy, allowBase, k))
    ensures forall j | m <= j < k :: !Heals(packs, policy, j)
    decreases |packs| - m
  {
    if Heals(packs, policy, m) {
      k := m;
    } else {
      assert m < |packs|;
      k := SearchFinds(packs, policy, allowBase, m + 1);
    }
  }

  /** A candidate is a non-empty newest suffix with its total and target, and no shorter one heals. */
  lemma PlanShape(packs: seq<Pack>, policy: Policy, allowBase: bool)
    requires ValidPolicy(policy) && Plan(packs, policy, allowBase).Some?
    ensures var c := Plan(packs, policy, allowBase).value;
            && 1 <= |c.packs| <= |packs|
            && c.packs == packs[|packs| - |c.packs|..]
            && c.totalBytes == TotalSize(c.packs)
            && c.target == TargetLevel(policy, c.totalBytes)
            && Heals(packs, policy, |c.packs|)
            && (forall k | 1 <= k < |c.packs| :: !Heals(packs, policy, k))
  {
    var k := SearchFinds(packs, policy, allowBase || policy.allowBaseCompaction, 1);
  }

  /** Any pack published at c's target in place of c's packs gives a stack the planner is silent on. */
  ghost predicate HealedBy(packs: seq<Pack>, policy: Policy, allowBase: bool, c: Candidate)
    requires |c.packs| <= |packs| && policy.levels != []
  {
    forall merged: Pack | merged.level == c.target ::
      && Increasing(Publication(packs, |c.packs|, merged))
      && Plan(Publication(packs, |c.packs|, merged), policy, allowBase).None?
  }

  /** Publishing the merge of fewer than m newest packs at its target is never healthy. */
  ghost predicate NoShorter(packs: seq<Pack>, policy: Policy, m: nat)
    requires m <= |packs| && policy.levels != []
  {
    forall k, merged: Pack | 1 <= k < m && merged.level == TargetLevel(policy, TotalSize(packs[|packs| - k..])) ::
      !Increasing(Publication(packs, k, merged))
  }

  lemma PlanHeals(packs: seq<Pack>, policy: Policy, allowBase: bool)
    requires ValidPolicy(policy) && Plan(packs, policy, allowBase).Some?
    ensures var c := Plan(packs, policy, allowBase).value;
            |c.packs| <= |packs| && HealedBy(packs, policy, allowBase, c)
  {
    PlanShape(packs, policy, allowBase);
    var c := Plan(packs, policy, allowBase).value;
    forall merged: Pack | merged.level == c.target
      ensures Increasing(Publication(packs, |c.packs|, merged))
    {
      HealsIsValidPublication(packs, policy, |c.packs|, merged);
    }
  }

  lemma PlanIsShortest(packs: seq<Pack>, policy: Policy, allowBase: bool)
    requires ValidPolicy(policy) && Plan(packs, policy, allowBase).Some?
    ensures var c := Plan(packs, policy, allowBase).value;
            |c.packs| <= |packs| && NoShorter(packs, policy, |c.packs|)
  {
    PlanShape(packs, policy, allowBase);
    var c := Plan(packs, policy, allowBase).value;
    forall k, merged: Pack
      | 1 <= k < |c.packs| && merged.level == TargetLevel(policy, TotalSize(packs[|packs| - k..]))
      ensures !Increasing(Publication(packs, k, merged))
    {
      HealsIsValidPublication(packs, policy, k, merged);
    }
  }

  lemma SilentWhenHealthy(packs: seq<Pack>, policy: Policy, allowBase: bool)
    requires ValidPolicy(policy)
    ensures Plan(packs, policy, allowBase).None? <==> Increasing(packs)
  {
    if |packs| > 1 && !Increasing(packs) {
      var m := SearchFinds(packs, policy, allowBase || policy.allowBaseCompaction, 1);
    }
  }

  /**
   The planner stays silent exactly on healthy stacks; otherwise it names the shortest newest suffix
   whose publication is healthy, and planning the published stack again is a no-op.
   */
  lemma PlannerCorrect(packs: seq<Pack>, policy: Policy, allowBase: bool)
    requires ValidPolicy(policy)
    ensures Plan(packs, policy, allowBase).None? <==> Increasing(packs)
    ensures Plan(packs, policy, allowBase).Some? ==>
              var c := Plan(packs, policy, allowBase).value;
              && 1 <= |c.packs| <= |packs|
              && c.packs == packs[|packs| - |c.packs|..]
              && c.totalBytes == TotalSize(c.packs)
              && c.target == TargetLevel(policy, c.totalBytes)
              && HealedBy(packs, policy, allowBase, c)
              && NoShorter(packs, policy, |c.packs|)
  {
    SilentWhenHealthy(packs, policy, allowBase);
    if Plan(packs, policy, allowBase).Some? {
      PlanShape(packs, policy, allowBase);
      PlanHeals(packs, policy, allowBase);
      PlanIsShortest(packs, policy, allowBase);
    }
  }

  /** A candidate is blocked only while base rewrites are off, and then for its target or else for its bytes. */
  lemma WhenBlocked(packs: seq<Pack>, policy: Policy, allowBase: bool)
    requires ValidPolicy(policy) && Plan(packs, policy, allowBase).Some?
    ensures var c := Plan(packs, policy, allowBase).value;
            c.block.Unblocked? <==>
              || allowBase || policy.allowBaseCompaction
              || (BaseLevel(policy) < c.target && c.totalBytes <= policy.maxOnlineBytes)
    ensures var c := Plan(packs, policy, allowBase).value;
            c.block.BaseBlocked? <==> !allowBase && !policy.allowBaseCompaction && c.target <= BaseLevel(policy)
    ensures var c := Plan(packs, policy, allowBase).value;
            c.block.BudgetBlocked? <==>
              && !allowBase && !policy.allowBaseCompaction
              && c.target > BaseLevel(policy) && c.totalBytes > policy.maxOnlineBytes
  {
    var k := SearchFinds(packs, policy, allowBase || policy.allowBaseCompaction, 1);
  }

  // ---- facts about target levels ----

  /** The target is a level of the policy whose tier holds the size, or the base. */
  lemma {:induction false} LastFittingIs(policy: Policy, size: nat, n: nat) returns (x: nat)
    requires ValidPolicy(policy) && n <= |policy.levels|
    ensures x < |policy.levels| && LastFitting(policy, size, n) == policy.levels[x].level
    ensures x == 0 || (x < n && size <= policy.levels[x].maxBytes)
    ensures forall y | x < y < n :: size > policy.levels[y].maxBytes
    decreases n
  {
    if n == 0 {
      x := 0;
    } else if size <= policy.levels[n - 1].maxBytes {
      x := n - 1;
    } else {
      x := LastFittingIs(policy, size, n - 1);
    }
  }

  /** More bytes never target a higher level. */
  lemma {:induction false} TargetIsAntitone(policy: Policy, a: nat, b: nat)
    requires ValidPolicy(policy) && a <= b
    ensures TargetLevel(policy, b) <= TargetLevel(policy, a)
  {
    var x := LastFittingIs(policy, a, |policy.levels|);
    var y := LastFittingIs(policy, b, |policy.levels|);
  }

  /**
   With base rewrites off, an unblocked candidate never contains a bottom pack that sits on (or below)
   the base level.
   */
  lemma OnlineNeverRewritesBase(packs: seq<Pack>, policy: Policy, allowBase: bool)
    requires ValidPolicy(policy)
    requires !allowBase && !policy.allowBaseCompaction
    requires packs != [] && packs[0].level <= BaseLevel(policy)
    requires Plan(packs, policy, allowBase).Some?
    requires Plan(packs, policy, allowBase).value.block.Unblocked?
    ensures |Plan(packs, policy, allowBase).value.packs| < |packs|
  {
    PlannerCorrect(packs, policy, allowBase);
    WhenBlocked(packs, policy, allowBase);
    PlanShape(packs, policy, allowBase);
    var c := Plan(packs, policy, allowBase).value;
    var n := |packs|;
    if |c.packs| == n {
      assert packs == [packs[0]] + packs[1..];
      TotalSizeAppend([packs[0]], packs[1..]);
      assert packs[n - n..] == packs;
      TargetIsAntitone(policy, TotalSize(packs[1..]), TotalSize(packs));
      assert packs[..n - (n - 1)] == [packs[0]];
      assert Heals(packs, policy, n - 1);
    }
  }

  // ---- how tall a healthy stack can be ----

  /** level is one of the first n levels of the policy. */
  predicate Configured(policy: Policy, level: nat, n: nat)
    requires n <= |policy.levels|
  {
    exists x | 0 <= x < n :: policy.levels[x].level == level
  }

  predicate OnLevels(packs: seq<Pack>, policy: Policy, n: nat)
    requires n <= |policy.levels|
  {
    forall i | 0 <= i < |packs| :: Configured(policy, packs[i].level, n)
  }

  /** A healthy stack with packs on the first n configured levels has at most n packs. */
  lemma {:induction false} AtMostOnePerLevel(packs: seq<Pack>, policy: Policy, n: nat)
    requires ValidPolicy(policy) && n <= |policy.levels|
    requires Increasing(packs) && OnLevels(packs, policy, n)
    ensures |packs| <= n
    decreases |packs|
  {
    if packs != [] {
      var last := |packs| - 1;
      assert Configured(policy, packs[last].level, n);
      var x :| 0 <= x < n && policy.levels[x].level == packs[last].level;
      forall i | 0 <= i < last ensures Configured(policy, packs[..last][i].level, x) {
        assert Configured(policy, packs[i].level, n);
        var y :| 0 <= y < n && policy.levels[y].level == packs[i].level;
        assert y < x;
      }
      AtMostOnePerLevel(packs[..last], policy, x);
    }
  }

  lemma TargetIsConfigured(policy: Policy, size: nat)
    requires ValidPolicy(policy)
    ensures Configured(policy, TargetLevel(policy, size), |policy.levels|)
  {
    var x := LastFittingIs(policy, size, |policy.levels|);
  }
}
