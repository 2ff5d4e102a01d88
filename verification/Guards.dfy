/**
 What whole runs say of commits and compactions in terms of manifests and uppers alone: when a commit seals,
 when a compaction goes ahead, and what base and budget guards leave untouched.
 */
module Guards {
  import opened Trees
  import opened Layers
  import opened Packs
  import opened Compaction
  import opened Levels
  import opened Publish
  import opened Names
  import opened Daemon
  import L = Lifecycle
  import S = ColdSafety
  import C = Cold

  // ---- one compaction ----

  /** The packs from k on gave way to one. */
  predicate SwappedFrom(before: seq<Pack>, after: seq<Pack>, k: nat) {
    k < |before| && |after| == k + 1 && after[..k] == before[..k]
  }

  /** Nothing happened, or newest packs of at most so many bytes gave way to one. */
  predicate OnlineRewrite(maxBytes: nat, before: seq<Pack>, after: seq<Pack>) {
    || after == before
    || exists k | 0 <= k < |before| :: SwappedFrom(before, after, k) && TotalSize(before[k..]) <= maxBytes
  }

  /** A bottom pack on the base level is still there. */
  predicate BaseKept(policy: Policy, before: seq<Pack>, after: seq<Pack>)
    requires policy.levels != []
  {
    before != [] && before[0].level <= BaseLevel(policy) ==> after != [] && after[0] == before[0]
  }

  /** The newest m packs are the fewest whose merge, at the level for their bytes, tops all older packs. */
  predicate Shortest(policy: Policy, packs: seq<Pack>, m: nat)
    requires policy.levels != []
  {
    1 <= m <= |packs| && Heals(packs, policy, m) && forall k | 1 <= k < m :: !Heals(packs, policy, k)
  }

  /** These packs may be merged now: base rewrites are allowed, or the merge goes above the base within the budget. */
  predicate MayRewrite(policy: Policy, allowBase: bool, run: seq<Pack>)
    requires policy.levels != []
  {
    || allowBase || policy.allowBaseCompaction
    || (TargetLevel(policy, TotalSize(run)) > BaseLevel(policy) && TotalSize(run) <= policy.maxOnlineBytes)
  }

  /**
   Of a stack that is not healthy a compaction merges the shortest newest run that heals it, exactly if it may
   be merged now and the merge does not raise.
   */
  lemma CompactionHappensExactly(cfg: Config, c: Child, allowBase: bool, info: BuildInfo, m: nat)
    requires ValidPolicy(cfg.policy) && Good(cfg, c) && !Increasing(c.lowers) && Shortest(cfg.policy, c.lowers, m)
    ensures var before, after := c.lowers, CompactedIfNeeded(cfg, c, allowBase, info).lowers;
            var run := before[|before| - m..];
            && (after != before <==> MayRewrite(cfg.policy, allowBase, run) && Buildable(ContentsOf(c.disk, run)))
            && (after != before ==> SwappedFrom(before, after, |before| - m) && Increasing(after))
  {
    ShortestIsPlanned(cfg.policy, c.lowers, allowBase, m);
    var k, pack := PlannedOutcome(cfg, c, allowBase, info);
    assert |c.lowers[k..]| == |c.lowers| - k;
    SwapShows(c.lowers, k, pack);
  }

  lemma PlannedOutcome(cfg: Config, c: Child, allowBase: bool, info: BuildInfo) returns (k: nat, pack: Pack)
    requires ValidPolicy(cfg.policy) && Good(cfg, c) && Plan(c.lowers, cfg.policy, allowBase).Some?
    ensures k + 2 <= |c.lowers| && Plan(c.lowers, cfg.policy, allowBase).value.packs == c.lowers[k..]
    ensures Increasing(c.lowers[..k] + [pack])
    ensures CompactedIfNeeded(cfg, c, allowBase, info).lowers
            == if MayRewrite(cfg.policy, allowBase, c.lowers[k..]) && Buildable(ContentsOf(c.disk, c.lowers[k..]))
               then c.lowers[..k] + [pack] else c.lowers
  {
    PlanMayRewrite(cfg.policy, c.lowers, allowBase);
    k, pack := OutcomeOf(cfg, c, allowBase, info);
    CompactsMeans(cfg, c, allowBase);
  }

  lemma CompactsMeans(cfg: Config, c: Child, allowBase: bool)
    requires ValidPolicy(cfg.policy) && Plan(c.lowers, cfg.policy, allowBase).Some?
    ensures var cand := Plan(c.lowers, cfg.policy, allowBase).value;
            Compacts(cfg, c, allowBase) <==> cand.block.Unblocked? && Buildable(ContentsOf(c.disk, cand.packs))
  {
  }

  lemma PlanMayRewrite(policy: Policy, packs: seq<Pack>, allowBase: bool)
    requires ValidPolicy(policy) && Plan(packs, policy, allowBase).Some?
    ensures var cand := Plan(packs, policy, allowBase).value;
            cand.block.Unblocked? <==> MayRewrite(policy, allowBase, cand.packs)
  {
    PlanShape(packs, policy, allowBase);
    WhenBlocked(packs, policy, allowBase);
  }

  lemma ShortestIsPlanned(policy: Policy, packs: seq<Pack>, allowBase: bool, m: nat)
    requires ValidPolicy(policy) && !Increasing(packs) && Shortest(policy, packs, m)
    ensures Plan(packs, policy, allowBase).Some? && |Plan(packs, policy, allowBase).value.packs| == m
  {
    SilentWhenHealthy(packs, policy, allowBase);
    PlanShape(packs, policy, allowBase);
  }

  /** The stack after a planned compaction. */
  lemma OutcomeOf(cfg: Config, c: Child, allowBase: bool, info: BuildInfo) returns (k: nat, pack: Pack)
    requires ValidPolicy(cfg.policy) && Good(cfg, c) && Plan(c.lowers, cfg.policy, allowBase).Some?
    ensures k + 2 <= |c.lowers| && Plan(c.lowers, cfg.policy, allowBase).value.packs == c.lowers[k..]
    ensures Increasing(c.lowers[..k] + [pack])
    ensures CompactedIfNeeded(cfg, c, allowBase, info).lowers
            == if Compacts(cfg, c, allowBase) then c.lowers[..k] + [pack] else c.lowers
  {
    k, pack := CompactedIsReplaced(cfg, c, allowBase, info);
  }

  lemma SwapShows(before: seq<Pack>, k: nat, pack: Pack)
    requires k + 2 <= |before|
    ensures before[..k] + [pack] != before && SwappedFrom(before, before[..k] + [pack], k)
  {
    assert |before[..k] + [pack]| == k + 1;
  }

  /** A healthy stack is left alone. */
  lemma HealthyIsLeftAlone(cfg: Config, c: Child, allowBase: bool, info: BuildInfo)
    requires ValidPolicy(cfg.policy) && Increasing(c.lowers)
    ensures CompactedIfNeeded(cfg, c, allowBase, info) == c
  {
    SilentWhenHealthy(c.lowers, cfg.policy, allowBase);
  }

  /** With base compaction off, a compaction keeps within the budget and away from the base. */
  lemma CompactsOnline(cfg: Config, c: Child, info: BuildInfo)
    requires ValidPolicy(cfg.policy) && Good(cfg, c) && !cfg.policy.allowBaseCompaction
    ensures var after := CompactedIfNeeded(cfg, c, false, info).lowers;
            OnlineRewrite(cfg.policy.maxOnlineBytes, c.lowers, after) && BaseKept(cfg.policy, c.lowers, after)
  {
    SilentWhenHealthy(c.lowers, cfg.policy, false);
    if Plan(c.lowers, cfg.policy, false).Some? {
      var cand := Plan(c.lowers, cfg.policy, false).value;
      var m := |cand.packs|;
      PlanShape(c.lowers, cfg.policy, false);
      CompactionHappensExactly(cfg, c, false, info, m);
      WhenBlocked(c.lowers, cfg.policy, false);
      var after := CompactedIfNeeded(cfg, c, false, info).lowers;
      if after != c.lowers {
        assert SwappedFrom(c.lowers, after, |c.lowers| - m);
        assert TotalSize(c.lowers[|c.lowers| - m..]) <= cfg.policy.maxOnlineBytes;
        if c.lowers[0].level <= BaseLevel(cfg.policy) {
          OnlineNeverRewritesBase(c.lowers, cfg.policy, false);
          assert after[0] == after[..|c.lowers| - m][0];
        }
      }
    }
  }

  // ---- one operation ----

  predicate HasFile(upper: Tree) {
    exists p | p in upper :: IsLeaf(upper, p) && (p == [] || !IsMarker(Last(p)))
  }

  /** What a commit appended, if it sealed the upper. */
  predicate Sealed(cfg: Config, c: Child, sealed: Child, delta: BuildInfo)
    requires ValidPolicy(cfg.policy)
  {
    && sealed.generation == c.generation + 1 && sealed.upper == EMPTY_TREE
    && |sealed.lowers| == |c.lowers| + 1 && sealed.lowers[..|c.lowers|] == c.lowers
    && var d := sealed.lowers[|c.lowers|];
       && d.kind.Delta? && d.generationMin == d.generationMax == sealed.generation
       && d.sha256 == delta.sha256 && d.size == delta.size && d.level == TargetLevel(cfg.policy, d.size)
       && d.path in sealed.disk && sealed.disk[d.path] == c.upper
  }

  /**
   A commit seals exactly the uppers that hold a file other than a whiteout, and otherwise changes nothing;
   what follows the seal is at most one compaction, and none if post-commit compaction is off.
   */
  lemma CommitSealsExactly(cfg: Config, c: Child, delta: BuildInfo, compact: BuildInfo)
    requires ValidPolicy(cfg.policy) && Good(cfg, c)
    ensures var d := Step(cfg, c, CommitOp(delta, compact));
            && (!HasFile(c.upper) ==> d == c)
            && (HasFile(c.upper) ==>
                  exists sealed ::
                    && Sealed(cfg, c, sealed, delta) && Good(cfg, sealed)
                    && d == if cfg.compactAfterCommit then Step(cfg, sealed, CompactOp(false, compact)) else sealed)
  {
    assert HasFile(c.upper) <==> Dirty(c.upper);
    if Dirty(c.upper) {
      CommittedIsGood(cfg, c, delta);
      assert Sealed(cfg, c, Committed(cfg, c, delta), delta);
    }
  }

  /** An operation that does not ask for base compaction, under a policy that does not allow it. */
  predicate Online(cfg: Config, op: Op) {
    !cfg.policy.allowBaseCompaction && (op.CompactOp? ==> !op.allowBase)
  }

  /** The stack a step's compaction starts from: with the new delta if the step seals. */
  function Appended(cfg: Config, c: Child, op: Op): seq<Pack>
    requires ValidPolicy(cfg.policy)
  {
    if op.CommitOp? && HasFile(c.upper) then c.lowers + [DeltaPack(cfg, c.generation + 1, op.delta)] else c.lowers
  }

  lemma StepIsOnline(cfg: Config, c: Child, op: Op)
    requires ValidPolicy(cfg.policy) && Good(cfg, c) && Online(cfg, op)
    ensures var after := Step(cfg, c, op).lowers;
            && OnlineRewrite(cfg.policy.maxOnlineBytes, Appended(cfg, c, op), after)
            && BaseKept(cfg.policy, c.lowers, after)
  {
    match op
    case Write(_) =>
    case CommitOp(delta, compact) =>
      assert HasFile(c.upper) <==> Dirty(c.upper);
      if Dirty(c.upper) {
        CommittedIsGood(cfg, c, delta);
        var d := Committed(cfg, c, delta);
        if cfg.compactAfterCommit {
          CompactsOnline(cfg, d, compact);
        }
        assert c.lowers != [] ==> d.lowers[0] == c.lowers[0];
      }
    case CompactOp(_, info) => CompactsOnline(cfg, c, info);
  }

  // ---- whole runs ----

  predicate AllOnline(cfg: Config, ops: seq<Op>) {
    forall i | 0 <= i < |ops| :: Online(cfg, ops[i])
  }

  /**
   While base compaction is neither allowed nor asked for, a bottom pack that once sits on the base level
   stays the bottom pack for the rest of the run.
   */
  lemma {:induction false} BaseStays(cfg: Config, ops: seq<Op>, n: nat)
    requires ValidPolicy(cfg.policy) && ValidRun(ops) && AllOnline(cfg, ops) && n <= |ops|
    ensures BaseKept(cfg.policy, Run(cfg, ops[..n]).lowers, Run(cfg, ops).lowers)
    decreases |ops|
  {
    if n == |ops| {
      assert ops[..n] == ops;
    } else {
      var prior := ops[..|ops| - 1];
      assert prior[..n] == ops[..n];
      BaseStays(cfg, prior, n);
      EveryRunIsGood(cfg, prior);
      assert Online(cfg, ops[|ops| - 1]);
      StepIsOnline(cfg, Run(cfg, prior), ops[|ops| - 1]);
    }
  }

  /** And no operation of the run rewrites packs of more bytes than the online budget. */
  lemma RewritesStayInBudget(cfg: Config, ops: seq<Op>)
    requires ValidPolicy(cfg.policy) && ValidRun(ops) && ops != [] && Online(cfg, ops[|ops| - 1])
    ensures var prior, op := Run(cfg, ops[..|ops| - 1]), ops[|ops| - 1];
            OnlineRewrite(cfg.policy.maxOnlineBytes, Appended(cfg, prior, op), Run(cfg, ops).lowers)
  {
    EveryRunIsGood(cfg, ops[..|ops| - 1]);
    StepIsOnline(cfg, Run(cfg, ops[..|ops| - 1]), ops[|ops| - 1]);
  }

  // ---- with archives and recalls in between ----

  predicate LifeOnline(s: L.Settings, op: L.Op) {
    !s.daemon.policy.allowBaseCompaction && (op.CompactOp? ==> !op.allowBase)
  }

  function LifeAppended(s: L.Settings, f: L.Format, l: L.Life, op: L.Op): seq<Pack>
    requires L.Wired(s)
  {
    if op.CommitOp? && HasFile(l.upper) then l.w.manifest.lowers + [L.NextDelta(s, f, l)] else l.w.manifest.lowers
  }

  lemma LifeStepIsOnline(s: L.Settings, f: L.Format, l: L.Life, op: L.Op)
    requires L.Wired(s) && L.ReadsBack(f) && L.LifeOk(s, f, l) && L.ValidOp(s, f, l, op) && LifeOnline(s, op)
    ensures BaseKept(s.daemon.policy, l.w.manifest.lowers, L.Step(s, f, l, op).w.manifest.lowers)
    ensures OnlineRewrite(s.daemon.policy.maxOnlineBytes, LifeAppended(s, f, l, op),
                          L.Step(s, f, l, op).w.manifest.lowers)
  {
    if op.ArchiveOp? || op.RecallOp? {
      ColdStepKeepsStack(s, f, l, op);
    } else {
      L.StepRefinesDaemon(s, f, l, op);
      SameAppended(s, f, l, op);
      StepIsOnline(s.daemon, L.ChildOf(f, l), L.DaemonOp(s, f, l, op));
    }
  }

  lemma ColdStepKeepsStack(s: L.Settings, f: L.Format, l: L.Life, op: L.Op)
    requires L.Wired(s) && L.LifeOk(s, f, l) && (op.ArchiveOp? || op.RecallOp?)
    ensures L.Step(s, f, l, op).w.manifest.lowers == l.w.manifest.lowers
  {
    match op
    case ArchiveOp(removeHot, text, n) =>
      if !Dirty(l.upper) {
        L.ColdStepKeepsChild(s, f, l, S.ArchiveEvent(removeHot, text, n));
      }
    case RecallOp(n) => L.ColdStepKeepsChild(s, f, l, S.RecallEvent(n));
  }

  lemma SameAppended(s: L.Settings, f: L.Format, l: L.Life, op: L.Op)
    requires L.Wired(s) && !op.ArchiveOp? && !op.RecallOp?
    ensures Appended(s.daemon, L.ChildOf(f, l), L.DaemonOp(s, f, l, op)) == LifeAppended(s, f, l, op)
    ensures LifeOnline(s, op) ==> Online(s.daemon, L.DaemonOp(s, f, l, op))
  {
  }

  /** The base pack also outlives archives and recalls, with crashes anywhere inside them. */
  lemma {:induction false} BaseOutlivesArchives(s: L.Settings, f: L.Format, start: L.Life, ops: seq<L.Op>, n: nat)
    requires L.Wired(s) && L.ReadsBack(f) && L.IsNew(start) && L.ValidRun(s, f, start, ops) && n <= |ops|
    requires forall i | 0 <= i < |ops| :: LifeOnline(s, ops[i])
    ensures BaseKept(s.daemon.policy, L.Run(s, f, start, ops[..n]).w.manifest.lowers,
                     L.Run(s, f, start, ops).w.manifest.lowers)
    decreases |ops|
  {
    if n == |ops| {
      assert ops[..n] == ops;
    } else {
      var prior := ops[..|ops| - 1];
      assert prior[..n] == ops[..n];
      BaseOutlivesArchives(s, f, start, prior, n);
      L.EveryLifeIsOk(s, f, start, prior);
      assert LifeOnline(s, ops[|ops| - 1]);
      LifeStepIsOnline(s, f, L.Run(s, f, start, prior), ops[|ops| - 1]);
    }
  }

  lemma LifeStaysInBudget(s: L.Settings, f: L.Format, start: L.Life, ops: seq<L.Op>)
    requires L.Wired(s) && L.ReadsBack(f) && L.IsNew(start) && L.ValidRun(s, f, start, ops)
    requires ops != [] && LifeOnline(s, ops[|ops| - 1])
    ensures var prior, op := L.Run(s, f, start, ops[..|ops| - 1]), ops[|ops| - 1];
            OnlineRewrite(s.daemon.policy.maxOnlineBytes, LifeAppended(s, f, prior, op),
                          L.Run(s, f, start, ops).w.manifest.lowers)
  {
    L.EveryLifeIsOk(s, f, start, ops[..|ops| - 1]);
    LifeStepIsOnline(s, f, L.Run(s, f, start, ops[..|ops| - 1]), ops[|ops| - 1]);
  }

  /**
   A child whose upper holds a file other than a whiteout is not archived; any other is, by the archive of its
   generation's prefix, and keeps its upper and revision.
   */
  lemma OnlyCleanChildrenAreArchived(s: L.Settings, f: L.Format, l: L.Life, removeHot: bool, text: string, n: nat)
    requires L.Wired(s)
    ensures var x := L.Step(s, f, l, L.ArchiveOp(removeHot, text, n));
            if HasFile(l.upper) then x == l
            else x == l.(w := C.ArchiveCut(l.w, C.ChildPrefix(s.cold, l.w.manifest.generation), removeHot, text, n).0)
  {
    assert HasFile(l.upper) <==> Dirty(l.upper);
  }

  /** Where a compaction is written: between the recorded generations of its packs, or the present one. */
  lemma OutputIsNamed(cfg: Config, c: Child, cand: Candidate)
    ensures exists from: nat, to: nat ::
              && OutputPath(cfg, c, cand) == InDir(cfg.packDir, CompactName(cand.target, from, to))
              && (if forall p | p in cand.packs :: p.generationMin == 0 then from == c.generation
                  else (exists p :: p in cand.packs && p.generationMin == from)
                       && forall p | p in cand.packs && p.generationMin != 0 :: 0 < from <= p.generationMin)
              && (if forall p | p in cand.packs :: p.generationMax == 0 then to == c.generation
                  else (exists p :: p in cand.packs && p.generationMax == to)
                       && forall p | p in cand.packs :: p.generationMax <= to)
  {
    GenerationRange(cand.packs);
    var from, to := GenerationMin(cand.packs), GenerationMax(cand.packs);
    var a, b := if from == 0 then c.generation else from, if to == 0 then c.generation else to;
    assert OutputPath(cfg, c, cand) == InDir(cfg.packDir, CompactName(cand.target, a, b));
  }
}
