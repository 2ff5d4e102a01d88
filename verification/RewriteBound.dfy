/**
 How often a byte is rewritten.

 A run commits deltas one after another and compacts after each commit, with pack sizes adding up.  The
 bytes of one commit are followed through the packs that hold them.
 */
module RewriteBound {
  import opened Packs
  import opened Levels

  /** Size and level are all that matters here. */
  function Sized(size: nat, level: nat): Pack {
    Pack("", "", size, level, 0, 0, Delta)
  }

  function Appended(policy: Policy, packs: seq<Pack>, size: nat): seq<Pack>
    requires policy.levels != []
  {
    packs + [Sized(size, TargetLevel(policy, size))]
  }

  /** What the daemon publishes: nothing when the planner is silent or blocked. */
  function Allowed(policy: Policy, allowBase: bool, packs: seq<Pack>): (c: Option<Candidate>)
    requires ValidPolicy(policy)
    ensures c.Some? ==> 1 <= |c.value.packs| <= |packs|
  {
    var c := Plan(packs, policy, allowBase);
    if c.Some? && c.value.block.Unblocked? then
      PlanShape(packs, policy, allowBase);
      c
    else None
  }

  function Published(packs: seq<Pack>, c: Option<Candidate>): seq<Pack>
    requires c.Some? ==> |c.value.packs| <= |packs|
  {
    if c.None? then packs
    else Publication(packs, |c.value.packs|, Sized(c.value.totalBytes, c.value.target))
  }

  /** Commit of size bytes, then the compaction the planner asks for. */
  function Commit(policy: Policy, allowBase: bool, packs: seq<Pack>, size: nat): seq<Pack>
    requires ValidPolicy(policy)
  {
    var all := Appended(policy, packs, size);
    Published(all, Allowed(policy, allowBase, all))
  }

  /** The commit did not run into the base or budget guard. */
  predicate CommitUnblocked(policy: Policy, allowBase: bool, packs: seq<Pack>, size: nat)
    requires ValidPolicy(policy)
  {
    var c := Plan(Appended(policy, packs, size), policy, allowBase);
    c.Some? ==> c.value.block.Unblocked?
  }

  function Run(policy: Policy, allowBase: bool, sizes: seq<nat>): seq<Pack>
    requires ValidPolicy(policy)
  {
    if sizes == [] then []
    else Commit(policy, allowBase, Run(policy, allowBase, sizes[..|sizes| - 1]), sizes[|sizes| - 1])
  }

  predicate RunUnblocked(policy: Policy, allowBase: bool, sizes: seq<nat>)
    requires ValidPolicy(policy)
  {
    sizes != [] ==>
      && RunUnblocked(policy, allowBase, sizes[..|sizes| - 1])
      && CommitUnblocked(policy, allowBase, Run(policy, allowBase, sizes[..|sizes| - 1]), sizes[|sizes| - 1])
  }

  /** Every pack sits where its size puts it. */
  predicate Placed(policy: Policy, packs: seq<Pack>)
    requires ValidPolicy(policy)
  {
    forall i | 0 <= i < |packs| :: packs[i].level == TargetLevel(policy, packs[i].size)
  }

  lemma {:induction false} RunIsPlaced(policy: Policy, allowBase: bool, sizes: seq<nat>)
    requires ValidPolicy(policy)
    ensures Placed(policy, Run(policy, allowBase, sizes))
    decreases |sizes|
  {
    if sizes != [] {
      var prior := sizes[..|sizes| - 1];
      RunIsPlaced(policy, allowBase, prior);
      var all := Appended(policy, Run(policy, allowBase, prior), sizes[|sizes| - 1]);
      if Allowed(policy, allowBase, all).Some? {
        PlanShape(all, policy, allowBase);
      }
    }
  }

  lemma {:induction false} RunIsHealthy(policy: Policy, allowBase: bool, sizes: seq<nat>)
    requires ValidPolicy(policy) && RunUnblocked(policy, allowBase, sizes)
    ensures Increasing(Run(policy, allowBase, sizes))
    decreases |sizes|
  {
    if sizes != [] {
      var all := Appended(policy, Run(policy, allowBase, sizes[..|sizes| - 1]), sizes[|sizes| - 1]);
      PlannerCorrect(all, policy, allowBase);
    }
  }

  /** Every unblocked run keeps at most one pack per configured level. */
  lemma BoundedStack(policy: Policy, allowBase: bool, sizes: seq<nat>)
    requires ValidPolicy(policy) && RunUnblocked(policy, allowBase, sizes)
    ensures |Run(policy, allowBase, sizes)| <= |policy.levels|
  {
    var packs := Run(policy, allowBase, sizes);
    RunIsPlaced(policy, allowBase, sizes);
    RunIsHealthy(policy, allowBase, sizes);
    forall i | 0 <= i < |packs| ensures Configured(policy, packs[i].level, |policy.levels|) {
      TargetIsConfigured(policy, packs[i].size);
    }
    AtMostOnePerLevel(packs, policy, |policy.levels|);
  }

  // ---- following the bytes of one pack through a commit ----

  /** Where the bytes of pack i of the appended stack end up. */
  function Follow(c: Option<Candidate>, n: nat, i: nat): nat
    requires i < n && (c.Some? ==> |c.value.packs| <= n)
  {
    if c.Some? && i >= n - |c.value.packs| then n - |c.value.packs| else i
  }

  /** Pack i of an appended stack is rewritten by candidate c. */
  predicate Rewrites(c: Option<Candidate>, n: nat, i: nat)
    requires c.Some? ==> |c.value.packs| <= n
  {
    c.Some? && n - |c.value.packs| <= i < n
  }

  /** The bytes of a pack only ever move to lower levels, into packs at least as big. */
  lemma FollowFacts(policy: Policy, allowBase: bool, packs: seq<Pack>, i: nat)
    requires ValidPolicy(policy) && i < |packs| && Placed(policy, packs)
    ensures var c := Allowed(policy, allowBase, packs);
            var to := Follow(c, |packs|, i);
            && to < |Published(packs, c)|
            && Published(packs, c)[to].size >= packs[i].size
            && Published(packs, c)[to].level <= packs[i].level
  {
    var c := Allowed(policy, allowBase, packs);
    if Rewrites(c, |packs|, i) {
      PlanShape(packs, policy, allowBase);
      PartOfTotal(c.value.packs, i - (|packs| - |c.value.packs|));
      TargetIsAntitone(policy, packs[i].size, c.value.totalBytes);
    }
  }

  lemma PartOfTotal(packs: seq<Pack>, i: nat)
    requires i < |packs|
    ensures TotalSize(packs) == TotalSize(packs[..i]) + packs[i].size + TotalSize(packs[i + 1..])
  {
    assert packs == packs[..i] + ([packs[i]] + packs[i + 1..]);
    TotalSizeAppend(packs[..i], [packs[i]] + packs[i + 1..]);
    TotalSizeAppend([packs[i]], packs[i + 1..]);
  }

  /**
   A rewrite that leaves old bytes on their level adds more than any smaller tier could have held: the
   newer packs alone did not fit above them.
   */
  lemma StayGrows(policy: Policy, allowBase: bool, all: seq<Pack>, i: nat, y: nat)
    requires ValidPolicy(policy) && i < |all| - 1 && Increasing(all[..i + 1]) && y < |policy.levels|
    requires var c := Allowed(policy, allowBase, all);
             Rewrites(c, |all|, i) && c.value.target == all[i].level
    requires all[i].level < policy.levels[y].level
    ensures Allowed(policy, allowBase, all).value.totalBytes > all[i].size + policy.levels[y].maxBytes
  {
    PlanShape(all, policy, allowBase);
    SuffixTotal(all, |all| - |Plan(all, policy, allowBase).value.packs|, i);
    NewerOverflow(policy, allowBase, all, i, y);
  }

  lemma SuffixTotal(packs: seq<Pack>, a: nat, i: nat)
    requires a <= i < |packs|
    ensures TotalSize(packs[a..]) >= packs[i].size + TotalSize(packs[i + 1..])
  {
    var group := packs[a..];
    PartOfTotal(group, i - a);
    assert group[i - a + 1..] == packs[i + 1..];
  }

  /** The planner did not stop before pack i, so the packs newer than i overflow every tier above it. */
  lemma NewerOverflow(policy: Policy, allowBase: bool, all: seq<Pack>, i: nat, y: nat)
    requires ValidPolicy(policy) && i < |all| - 1 && Increasing(all[..i + 1]) && y < |policy.levels|
    requires Plan(all, policy, allowBase).Some?
    requires |all| - i <= |Plan(all, policy, allowBase).value.packs|
    requires all[i].level < policy.levels[y].level
    ensures TotalSize(all[i + 1..]) > policy.levels[y].maxBytes
  {
    PlanShape(all, policy, allowBase);
    var m: nat := |all| - i - 1;
    assert !Heals(all, policy, m);
    assert |all| - m == i + 1;
    NewerDidNotFit(policy, all, i, all[i + 1..], y);
  }

  /** If merging only the packs newer than i does not heal, they overflow every tier above pack i. */
  lemma NewerDidNotFit(policy: Policy, packs: seq<Pack>, i: nat, rest: seq<Pack>, y: nat)
    requires ValidPolicy(policy) && i < |packs| && Increasing(packs[..i + 1]) && y < |policy.levels|
    requires !(forall p | p in packs[..i + 1] :: p.level < TargetLevel(policy, TotalSize(rest)))
    requires packs[i].level < policy.levels[y].level
    ensures TotalSize(rest) > policy.levels[y].maxBytes
  {
    var x := LastFittingIs(policy, TotalSize(rest), |policy.levels|);
    assert packs[..i + 1][i] == packs[i];
    assert TargetLevel(policy, TotalSize(rest)) <= packs[i].level;
    assert x < y;
  }

  // ---- the bytes of one commit through a whole run ----

  /** The stack the last commit of the run plans over: the earlier stack and the new delta. */
  function LastStack(policy: Policy, allowBase: bool, sizes: seq<nat>): (all: seq<Pack>)
    requires ValidPolicy(policy) && sizes != []
    ensures Placed(policy, all)
    ensures Run(policy, allowBase, sizes) == Published(all, Allowed(policy, allowBase, all))
  {
    RunIsPlaced(policy, allowBase, sizes[..|sizes| - 1]);
    Appended(policy, Run(policy, allowBase, sizes[..|sizes| - 1]), sizes[|sizes| - 1])
  }

  /** The pack that holds the bytes of commit c after the run. */
  function Home(policy: Policy, allowBase: bool, sizes: seq<nat>, c: nat): (i: nat)
    requires ValidPolicy(policy) && c < |sizes|
    ensures i < |Run(policy, allowBase, sizes)|
  {
    var all := LastStack(policy, allowBase, sizes);
    var from := if c == |sizes| - 1 then |all| - 1 else Home(policy, allowBase, sizes[..|sizes| - 1], c);
    FollowFacts(policy, allowBase, all, from);
    Follow(Allowed(policy, allowBase, all), |all|, from)
  }

  function HomePack(policy: Policy, allowBase: bool, sizes: seq<nat>, c: nat): Pack
    requires ValidPolicy(policy) && c < |sizes|
  {
    Run(policy, allowBase, sizes)[Home(policy, allowBase, sizes, c)]
  }

  /** The last commit of the run rewrites the bytes of the earlier commit c and leaves them on level k. */
  predicate StaysOn(policy: Policy, allowBase: bool, sizes: seq<nat>, c: nat, k: nat)
    requires ValidPolicy(policy) && c < |sizes| - 1
  {
    var all := LastStack(policy, allowBase, sizes);
    var plan := Allowed(policy, allowBase, all);
    && Rewrites(plan, |all|, Home(policy, allowBase, sizes[..|sizes| - 1], c))
    && HomePack(policy, allowBase, sizes[..|sizes| - 1], c).level == k
    && plan.value.target == k
  }

  /** How many rewrites after its own commit left the bytes of commit c on level k. */
  function Stays(policy: Policy, allowBase: bool, sizes: seq<nat>, c: nat, k: nat): nat
    requires ValidPolicy(policy) && c < |sizes|
  {
    if c == |sizes| - 1 then 0
    else Stays(policy, allowBase, sizes[..|sizes| - 1], c, k)
         + (if StaysOn(policy, allowBase, sizes, c, k) then 1 else 0)
  }

  /** A byte's level never rises, and the pack around it never shrinks. */
  lemma LevelNeverRises(policy: Policy, allowBase: bool, sizes: seq<nat>, c: nat)
    requires ValidPolicy(policy) && c < |sizes| - 1
    ensures HomePack(policy, allowBase, sizes, c).level <= HomePack(policy, allowBase, sizes[..|sizes| - 1], c).level
    ensures HomePack(policy, allowBase, sizes, c).size >= HomePack(policy, allowBase, sizes[..|sizes| - 1], c).size
  {
    FollowFacts(policy, allowBase, LastStack(policy, allowBase, sizes),
                Home(policy, allowBase, sizes[..|sizes| - 1], c));
  }

  /** A stay adds more than the capacity of any smaller tier to the pack around the byte. */
  lemma StayGrowsHome(policy: Policy, allowBase: bool, sizes: seq<nat>, c: nat, k: nat, y: nat)
    requires ValidPolicy(policy) && c < |sizes| - 1 && y < |policy.levels| && k < policy.levels[y].level
    requires RunUnblocked(policy, allowBase, sizes) && StaysOn(policy, allowBase, sizes, c, k)
    ensures HomePack(policy, allowBase, sizes, c).size
            > HomePack(policy, allowBase, sizes[..|sizes| - 1], c).size + policy.levels[y].maxBytes
    ensures HomePack(policy, allowBase, sizes, c).level == k
  {
    var prior := sizes[..|sizes| - 1];
    RunIsHealthy(policy, allowBase, prior);
    var all, i := LastStack(policy, allowBase, sizes), Home(policy, allowBase, prior, c);
    assert all[..i + 1] == Run(policy, allowBase, prior)[..i + 1];
    StayGrows(policy, allowBase, all, i, y);
  }

  lemma FitsItsLevel(policy: Policy, p: Pack, x: nat)
    requires ValidPolicy(policy) && 0 < x < |policy.levels|
    requires p.level == TargetLevel(policy, p.size) == policy.levels[x].level
    ensures p.size <= policy.levels[x].maxBytes
  {
    var z := LastFittingIs(policy, p.size, |policy.levels|);
    assert z == x;
  }

  /** The home pack of a byte on level x accounts for s stays there. */
  predicate Accounted(policy: Policy, home: Pack, s: nat, d: nat, x: nat)
    requires x < |policy.levels|
  {
    var k := policy.levels[x].level;
    && (home.level > k ==> s == 0)
    && (home.level == k ==> s * d <= home.size)
    && (home.level < k && x > 0 ==> s * d <= policy.levels[x].maxBytes)
    && (x == 0 ==> s * d <= home.size)
  }

  lemma AccountStep(policy: Policy, before: Pack, after: Pack, s: nat, t: nat, d: nat, x: nat, stays: bool)
    requires ValidPolicy(policy) && x < |policy.levels| && Accounted(policy, before, s, d, x)
    requires before.level == TargetLevel(policy, before.size)
    requires after.level <= before.level && after.size >= before.size
    requires stays ==> before.level == after.level == policy.levels[x].level && after.size >= before.size + d
    requires t == s + if stays then 1 else 0
    ensures Accounted(policy, after, t, d, x)
  {
    if stays {
      OneMore(s, d, before.size, after.size);
    } else if before.level == policy.levels[x].level && x > 0 {
      FitsItsLevel(policy, before, x);
    }
    if s == 0 {
      assert s * d == 0;
    }
  }

  lemma OneMore(s: nat, d: nat, before: nat, after: nat)
    requires s * d <= before && before + d <= after
    ensures (s + 1) * d <= after
  {
    assert (s + 1) * d == s * d + d;
  }

  /** One commit, seen from the bytes of commit c. */
  lemma HomeStep(policy: Policy, allowBase: bool, sizes: seq<nat>, c: nat, x: nat, y: nat)
    returns (before: Pack, after: Pack, s: nat, stays: bool)
    requires ValidPolicy(policy) && c < |sizes| - 1 && x < y < |policy.levels|
    requires RunUnblocked(policy, allowBase, sizes)
    ensures before == HomePack(policy, allowBase, sizes[..|sizes| - 1], c)
    ensures after == HomePack(policy, allowBase, sizes, c)
    ensures before.level == TargetLevel(policy, before.size)
    ensures after.level <= before.level && after.size >= before.size
    ensures stays ==> before.level == after.level == policy.levels[x].level
                      && after.size > before.size + policy.levels[y].maxBytes
    ensures s == Stays(policy, allowBase, sizes[..|sizes| - 1], c, policy.levels[x].level)
    ensures Stays(policy, allowBase, sizes, c, policy.levels[x].level) == s + (if stays then 1 else 0)
  {
    var k, prior := policy.levels[x].level, sizes[..|sizes| - 1];
    before, after := HomePack(policy, allowBase, prior, c), HomePack(policy, allowBase, sizes, c);
    stays := StaysOn(policy, allowBase, sizes, c, k);
    s := Stays(policy, allowBase, prior, c, k);
    LevelNeverRises(policy, allowBase, sizes, c);
    RunIsPlaced(policy, allowBase, prior);
    if stays {
      StayGrowsHome(policy, allowBase, sizes, c, k, y);
    }
  }

  lemma StaysStep(policy: Policy, allowBase: bool, sizes: seq<nat>, c: nat, x: nat, y: nat)
    requires ValidPolicy(policy) && c < |sizes| - 1 && x < y < |policy.levels|
    requires RunUnblocked(policy, allowBase, sizes)
    requires Accounted(policy, HomePack(policy, allowBase, sizes[..|sizes| - 1], c),
                       Stays(policy, allowBase, sizes[..|sizes| - 1], c, policy.levels[x].level),
                       policy.levels[y].maxBytes + 1, x)
    ensures Accounted(policy, HomePack(policy, allowBase, sizes, c),
                      Stays(policy, allowBase, sizes, c, policy.levels[x].level), policy.levels[y].maxBytes + 1, x)
  {
    var before, after, s, stays := HomeStep(policy, allowBase, sizes, c, x, y);
    AccountStep(policy, before, after, s, Stays(policy, allowBase, sizes, c, policy.levels[x].level),
                policy.levels[y].maxBytes + 1, x, stays);
  }

  lemma {:induction false} StaysInvariant(policy: Policy, allowBase: bool, sizes: seq<nat>, c: nat, x: nat, y: nat)
    requires ValidPolicy(policy) && c < |sizes| && x < y < |policy.levels|
    requires RunUnblocked(policy, allowBase, sizes)
    ensures Accounted(policy, HomePack(policy, allowBase, sizes, c),
                      Stays(policy, allowBase, sizes, c, policy.levels[x].level), policy.levels[y].maxBytes + 1, x)
    decreases |sizes|
  {
    if c < |sizes| - 1 {
      StaysInvariant(policy, allowBase, sizes[..|sizes| - 1], c, x, y);
      StaysStep(policy, allowBase, sizes, c, x, y);
    } else {
      NoStays(policy, HomePack(policy, allowBase, sizes, c), policy.levels[y].maxBytes + 1, x);
    }
  }

  lemma NoStays(policy: Policy, home: Pack, d: nat, x: nat)
    requires x < |policy.levels|
    ensures Accounted(policy, home, 0, d, x)
  {
    assert 0 * d == 0;
  }

  /**
   Rewrite bound: over every unblocked run, at most cap(x) / (cap(y) + 1) rewrites leave a byte on level
   x, for every smaller tier y; on the base level the pack's own size takes the place of its capacity.
   */
  lemma RewritesAreBounded(policy: Policy, allowBase: bool, sizes: seq<nat>, c: nat, x: nat, y: nat)
    requires ValidPolicy(policy) && c < |sizes| && x < y < |policy.levels|
    requires RunUnblocked(policy, allowBase, sizes)
    ensures var s := Stays(policy, allowBase, sizes, c, policy.levels[x].level);
            s * (policy.levels[y].maxBytes + 1)
            <= if x > 0 then policy.levels[x].maxBytes else HomePack(policy, allowBase, sizes, c).size
  {
    StaysInvariant(policy, allowBase, sizes, c, x, y);
    RunIsPlaced(policy, allowBase, sizes);
    var home := HomePack(policy, allowBase, sizes, c);
    var d := policy.levels[y].maxBytes + 1;
    assert 0 * d == 0;
    if home.level == policy.levels[x].level && x > 0 {
      FitsItsLevel(policy, home, x);
    }
  }
}
