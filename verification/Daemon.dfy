/**
 One shared-nfs child over whole runs: writes into the active upper, commits that seal the upper into a
 delta pack, post-commit and explicit compactions. What every run keeps: generation ranges partition the
 history, outputs never overwrite a pack of the stack, stacks stay short.
 */
module Daemon {
  import opened Trees
  import opened Layers
  import opened Folding
  import opened MergeWalk
  import opened Packs
  import opened Compaction
  import opened Levels
  import opened Publish
  import opened Names

  datatype Config = Config(policy: Policy, packDir: string, compactAfterCommit: bool)

  /** What a pack build reports about the file it wrote. */
  datatype BuildInfo = BuildInfo(sha256: string, size: nat)

  datatype Child = Child(
    generation: nat,
    revision: string,
    lowers: seq<Pack>,
    upper: Tree,
    disk: map<string, Tree>
  )

  const NEW_CHILD := Child(0, "", [], EMPTY_TREE, map[])

  /** The contents of packs on disk (packs read back exactly what they were built from). */
  function ContentsOf(disk: map<string, Tree>, packs: seq<Pack>): seq<Tree> {
    seq(|packs|, i requires 0 <= i < |packs| => if packs[i].path in disk then disk[packs[i].path] else EMPTY_TREE)
  }

  /** What a reader of the writable mount sees. */
  function Visible(c: Child): Tree {
    View(ContentsOf(c.disk, c.lowers) + [c.upper])
  }

  // ---- the operations as functions ----

  function RevisionName(generation: nat): string {
    "g" + Dec(generation)
  }

  function DeltaPath(cfg: Config, generation: nat): string {
    InDir(cfg.packDir, DeltaName(generation))
  }

  function DeltaPack(cfg: Config, generation: nat, info: BuildInfo): Pack
    requires ValidPolicy(cfg.policy)
  {
    Pack(DeltaPath(cfg, generation), info.sha256, info.size, TargetLevel(cfg.policy, info.size),
         generation, generation, Delta)
  }

  /** The upper is sealed, built into a delta pack and appended to the stack. */
  function Committed(cfg: Config, c: Child, info: BuildInfo): Child
    requires ValidPolicy(cfg.policy)
  {
    var g := c.generation + 1;
    Child(g, RevisionName(g), c.lowers + [DeltaPack(cfg, g, info)], EMPTY_TREE,
          c.disk[DeltaPath(cfg, g) := c.upper])
  }

  function OutputPath(cfg: Config, c: Child, cand: Candidate): string {
    var from, to := GenerationMin(cand.packs), GenerationMax(cand.packs);
    InDir(cfg.packDir,
          CompactName(cand.target, if from == 0 then c.generation else from, if to == 0 then c.generation else to))
  }

  function CompactedPack(cfg: Config, c: Child, cand: Candidate, info: BuildInfo): Pack {
    WithCompactionMetadata(Pack(OutputPath(cfg, c, cand), info.sha256, info.size, 0, 0, 0, Base),
                           cand.packs, cand.target)
  }

  /** The candidate's packs are merged into one file, which replaces them in the manifest. */
  function Compacted(cfg: Config, c: Child, cand: Candidate, info: BuildInfo): Child {
    var out := OutputPath(cfg, c, cand);
    match PublishPartialCompaction(c.lowers, cand.packs, CompactedPack(cfg, c, cand, info), cand.target)
    case Err(_) => c
    case Ok(swap) => c.(lowers := swap.lowers, disk := c.disk[out := Built(ContentsOf(c.disk, cand.packs))])
  }

  /** The compaction the planner asks for goes ahead: it is not blocked and its merges do not raise. */
  predicate Compacts(cfg: Config, c: Child, allowBase: bool)
    requires ValidPolicy(cfg.policy)
  {
    var plan := Plan(c.lowers, cfg.policy, allowBase);
    plan.Some? && plan.value.block.Unblocked? && Buildable(ContentsOf(c.disk, plan.value.packs))
  }

  function CompactedIfNeeded(cfg: Config, c: Child, allowBase: bool, info: BuildInfo): Child
    requires ValidPolicy(cfg.policy)
  {
    if Compacts(cfg, c, allowBase)
    then Compacted(cfg, c, Plan(c.lowers, cfg.policy, allowBase).value, info)
    else c
  }

  function AfterCommit(cfg: Config, c: Child, delta: BuildInfo, compact: BuildInfo): Child
    requires ValidPolicy(cfg.policy)
  {
    if !Dirty(c.upper) then c
    else
      var d := Committed(cfg, c, delta);
      if cfg.compactAfterCommit then CompactedIfNeeded(cfg, d, false, compact) else d
  }

  // ---- the daemon's own steps ----

  class ChildService {
    const cfg: Config
    var generation: nat
    var revision: string
    var lowers: seq<Pack>
    var upper: Tree
    var disk: map<string, Tree>

    function State(): Child
      reads this
    {
      Child(generation, revision, lowers, upper, disk)
    }

    constructor (cfg: Config)
      ensures State() == NEW_CHILD && this.cfg == cfg
    {
      this.cfg := cfg;
      generation, revision, lowers, upper, disk := 0, "", [], EMPTY_TREE, map[];
    }

    /** Copies a sealed upper entry by entry, whiteouts included; counts files. */
    method PrepareDeltaSource(source: Tree) returns (prepared: Tree, copied: nat)
      requires Rooted(source)
      ensures prepared == source
      ensures copied == |set p | p in source && source[p].Leaf?|
    {
      prepared, copied := EMPTY_TREE, 0;
      var rest := source.Keys - {[]};
      ghost var counted: set<Path> := {};
      while rest != {}
        invariant rest <= source.Keys - {[]}
        invariant prepared == map p | p in source && p !in rest :: source[p]
        invariant counted == (set p | p in source && p !in rest && source[p].Leaf?)
        invariant copied == |counted|
        decreases rest
      {
        NextByParts(rest);
        var e :| e in rest && forall y | y in rest :: !PartsLess(y, e);
        prepared := prepared[e := source[e]];
        if source[e].Leaf? {
          copied := copied + 1;
          counted := counted + {e};
        }
        rest := rest - {e};
      }
      assert counted == set p | p in source && source[p].Leaf?;
      assert prepared.Keys == source.Keys;
    }

    /** Commit of the active upper: seal, build, append to the manifest, then compact if configured. */
    method CommitSharedNfs(delta: BuildInfo, compact: BuildInfo)
      requires ValidPolicy(cfg.policy) && Good(cfg, State())
      modifies this
      ensures State() == AfterCommit(cfg, old(State()), delta, compact)
    {
      if !(exists p | p in upper :: upper[p].Leaf? && !MarkerPath(p)) {
        return;
      }
      var newGeneration := generation + 1;
      var sealed := upper;
      upper := EMPTY_TREE;
      var prepared, copied := PrepareDeltaSource(sealed);
      var path := DeltaPath(cfg, newGeneration);
      disk := disk[path := prepared];
      var level := ChooseInitialLevel(cfg.policy, delta.size);
      var pack := Pack(path, delta.sha256, delta.size, level, newGeneration, newGeneration, Delta);
      generation, revision := newGeneration, RevisionName(newGeneration);
      lowers := lowers + [pack];
      assert State() == Committed(cfg, old(State()), delta);
      CommittedIsGood(cfg, old(State()), delta);
      if cfg.compactAfterCommit {
        var done := CompactIfNeeded(false, compact);
      }
    }

    /** Plans, builds and publishes one compaction; false when nothing was published. */
    method CompactIfNeeded(allowBase: bool, info: BuildInfo) returns (done: bool)
      requires ValidPolicy(cfg.policy) && Good(cfg, State())
      modifies this
      ensures State() == CompactedIfNeeded(cfg, old(State()), allowBase, info)
      ensures done <==> Compacts(cfg, old(State()), allowBase)
    {
      var plan := PlanLevelCompaction(lowers, cfg.policy, allowBase);
      if plan.None? || !plan.value.block.Unblocked? {
        return false;
      }
      PlannedIsPublishable(cfg, State(), allowBase, info);
      done := Rewrite(plan.value, info);
    }

    /** Builds the candidate's merge and swaps it into the manifest; nothing changes if the build raises. */
    method Rewrite(cand: Candidate, info: BuildInfo) returns (done: bool)
      requires cand.packs != [] && AreLayers(ContentsOf(disk, cand.packs))
      requires PublishPartialCompaction(lowers, cand.packs, CompactedPack(cfg, State(), cand, info), cand.target).Ok?
      modifies this
      ensures done <==> Buildable(ContentsOf(old(disk), cand.packs))
      ensures State() == if done then Compacted(cfg, old(State()), cand, info) else old(State())
    {
      var built := BuildPartialCompaction(ContentsOf(disk, cand.packs));
      if built.Err? {
        return false;
      }
      var out := OutputPath(cfg, State(), cand);
      var swap := PublishPartialCompaction(lowers, cand.packs, CompactedPack(cfg, State(), cand, info), cand.target);
      disk := disk[out := built.value];
      lowers := swap.value.lowers;
      return true;
    }
  }

  /** What the planner chooses can be read back and published. */
  lemma PlannedIsPublishable(cfg: Config, c: Child, allowBase: bool, info: BuildInfo)
    requires ValidPolicy(cfg.policy) && Good(cfg, c) && Plan(c.lowers, cfg.policy, allowBase).Some?
    ensures var cand := Plan(c.lowers, cfg.policy, allowBase).value;
            && cand.packs != [] && AreLayers(ContentsOf(c.disk, cand.packs))
            && PublishPartialCompaction(c.lowers, cand.packs, CompactedPack(cfg, c, cand, info), cand.target).Ok?
  {
    var k := CompactionSteps(cfg, c, allowBase, info);
    SuffixContents(cfg, c, |c.lowers| - k);
  }

  // ---- invariants of a child ----

  /** The packs' generation ranges, in stack order, partition 1..generation. */
  predicate Partition(packs: seq<Pack>, generation: nat) {
    if packs == [] then generation == 0
    else
      && packs[0].generationMin == 1
      && packs[|packs| - 1].generationMax == generation
      && (forall i | 0 <= i < |packs| :: packs[i].generationMin <= packs[i].generationMax)
      && forall i | 0 < i < |packs| :: packs[i].generationMin == packs[i - 1].generationMax + 1
  }

  predicate WellNamed(cfg: Config, p: Pack) {
    match p.kind
    case Base => false
    case Delta => p.generationMin == p.generationMax && p.path == DeltaPath(cfg, p.generationMax)
    case Compact => p.path == InDir(cfg.packDir, CompactName(p.level, p.generationMin, p.generationMax))
  }

  predicate Stored(c: Child) {
    && IsLayer(c.upper)
    && forall i | 0 <= i < |c.lowers| :: c.lowers[i].path in c.disk && IsLayer(c.disk[c.lowers[i].path])
  }

  /** An unhealthy stack ends in a fresh delta sitting where its size puts it. */
  predicate HealthyOrFresh(cfg: Config, packs: seq<Pack>)
    requires ValidPolicy(cfg.policy)
  {
    Increasing(packs)
    || (packs != [] && packs[|packs| - 1].kind.Delta?
        && packs[|packs| - 1].level == TargetLevel(cfg.policy, packs[|packs| - 1].size))
  }

  predicate Good(cfg: Config, c: Child)
    requires ValidPolicy(cfg.policy)
  {
    && Stored(c)
    && Partition(c.lowers, c.generation)
    && (forall i | 0 <= i < |c.lowers| :: WellNamed(cfg, c.lowers[i]))
    && OnLevels(c.lowers, cfg.policy, |cfg.policy.levels|)
    && HealthyOrFresh(cfg, c.lowers)
    && (c.lowers != [] ==> c.revision == RevisionName(c.generation))
  }

  lemma {:induction false} RangesAscend(packs: seq<Pack>, generation: nat, i: nat, j: nat)
    requires Partition(packs, generation) && i < j < |packs|
    ensures packs[i].generationMax < packs[j].generationMin
    decreases j
  {
    if i < j - 1 {
      RangesAscend(packs, generation, i, j - 1);
    }
  }

  /** What a pack file is called. */
  function FileName(p: Pack): string {
    if p.kind.Delta? then DeltaName(p.generationMax) else CompactName(p.level, p.generationMin, p.generationMax)
  }

  /** The path is another file than the pack's, with another base name. */
  predicate FreshFor(p: Pack, path: string) {
    p.path != path && Basename(p.path) != Basename(path)
  }

  /** In one directory, files of different names are fresh for each other. */
  lemma DifferentNameIsFresh(cfg: Config, p: Pack, name: string)
    requires WellNamed(cfg, p) && NoChar(name, '/') && FileName(p) != name
    ensures FreshFor(p, InDir(cfg.packDir, name))
  {
    DeltaNameHasNoSlash(p.generationMax);
    CompactNameHasNoSlash(p.level, p.generationMin, p.generationMax);
    BasenameInDir(cfg.packDir, FileName(p));
    BasenameInDir(cfg.packDir, name);
  }

  lemma NamesDiffer(cfg: Config, p: Pack, q: Pack)
    requires WellNamed(cfg, p) && WellNamed(cfg, q) && p.generationMax < q.generationMin <= q.generationMax
    ensures FreshFor(p, q.path)
  {
    DeltaNameHasNoSlash(q.generationMax);
    CompactNameHasNoSlash(q.level, q.generationMin, q.generationMax);
    RangeNamesDiffer(p, q);
    DifferentNameIsFresh(cfg, p, FileName(q));
  }

  lemma RangeNamesDiffer(p: Pack, q: Pack)
    requires !p.kind.Base? && !q.kind.Base? && p.generationMax < q.generationMax
    ensures FileName(p) != FileName(q)
  {
    if p.kind.Delta? && q.kind.Delta? && FileName(p) == FileName(q) {
      DeltaNamesDiffer(p.generationMax, q.generationMax);
    } else if p.kind.Compact? && q.kind.Compact? && FileName(p) == FileName(q) {
      CompactNamesDiffer(p.level, p.generationMin, p.generationMax, q.level, q.generationMin, q.generationMax);
    } else if p.kind.Delta? {
      DeltaIsNotCompact(p.generationMax, q.level, q.generationMin, q.generationMax);
    } else {
      DeltaIsNotCompact(q.generationMax, p.level, p.generationMin, p.generationMax);
    }
  }

  /** Pack files of one stack have pairwise distinct base names, so archive keys never collide. */
  lemma PathsDistinct(cfg: Config, c: Child)
    requires ValidPolicy(cfg.policy) && Good(cfg, c)
    ensures forall i, j | 0 <= i < j < |c.lowers| :: FreshFor(c.lowers[i], c.lowers[j].path)
  {
    forall i, j | 0 <= i < j < |c.lowers| ensures FreshFor(c.lowers[i], c.lowers[j].path) {
      RangesAscend(c.lowers, c.generation, i, j);
      NamesDiffer(cfg, c.lowers[i], c.lowers[j]);
    }
  }

  lemma StoredLayers(c: Child)
    requires Stored(c)
    ensures AreLayers(ContentsOf(c.disk, c.lowers))
  {
  }

  lemma SuffixContents(cfg: Config, c: Child, m: nat)
    requires Stored(c) && m <= |c.lowers|
    ensures var n := |c.lowers|;
            && AreLayers(ContentsOf(c.disk, c.lowers[n - m..]))
            && AreLayers(ContentsOf(c.disk, c.lowers[..n - m]))
            && ContentsOf(c.disk, c.lowers)
               == ContentsOf(c.disk, c.lowers[..n - m]) + ContentsOf(c.disk, c.lowers[n - m..])
  {
  }

  // ---- fresh outputs ----

  /** The delta of the next generation is not a file the stack refers to. */
  lemma DeltaIsFresh(cfg: Config, c: Child)
    requires ValidPolicy(cfg.policy) && Good(cfg, c)
    ensures forall i | 0 <= i < |c.lowers| :: FreshFor(c.lowers[i], DeltaPath(cfg, c.generation + 1))
  {
    forall i | 0 <= i < |c.lowers| ensures FreshFor(c.lowers[i], DeltaPath(cfg, c.generation + 1)) {
      RangesCover(c.lowers, c.generation, i);
      LaterDeltaIsFresh(cfg, c.lowers[i], c.generation + 1);
    }
  }

  lemma LaterDeltaIsFresh(cfg: Config, p: Pack, generation: nat)
    requires WellNamed(cfg, p) && p.generationMax < generation
    ensures FreshFor(p, DeltaPath(cfg, generation))
  {
    if p.kind.Delta? && FileName(p) == DeltaName(generation) {
      DeltaNamesDiffer(p.generationMax, generation);
    } else {
      DeltaIsNotCompact(generation, p.level, p.generationMin, p.generationMax);
    }
    DeltaNameHasNoSlash(generation);
    DifferentNameIsFresh(cfg, p, DeltaName(generation));
  }

  /** If a newest pack sitting where its size puts it heals the stack alone, the stack was healthy. */
  lemma FreshAlone(packs: seq<Pack>, policy: Policy)
    requires ValidPolicy(policy) && packs != [] && Heals(packs, policy, 1)
    requires packs[|packs| - 1].level == TargetLevel(policy, packs[|packs| - 1].size)
    ensures Increasing(packs)
  {
    var n := |packs|;
    var last := packs[n - 1];
    assert packs[n - 1..] == [last] && [last][1..] == [];
    assert TotalSize([last]) == last.size;
    forall i | 0 <= i < n - 1 ensures packs[i].level < last.level {
      assert packs[..n - 1][i] == packs[i];
    }
    forall i, j | 0 <= i < j < n - 1 ensures packs[i].level < packs[j].level {
      assert packs[..n - 1][i] == packs[i] && packs[..n - 1][j] == packs[j];
    }
  }

  /** A candidate never consists of the newest pack alone. */
  lemma CandidateMergesAtLeastTwo(cfg: Config, packs: seq<Pack>, allowBase: bool)
    requires ValidPolicy(cfg.policy) && HealthyOrFresh(cfg, packs) && Plan(packs, cfg.policy, allowBase).Some?
    ensures |Plan(packs, cfg.policy, allowBase).value.packs| >= 2
  {
    PlanShape(packs, cfg.policy, allowBase);
    SilentWhenHealthy(packs, cfg.policy, allowBase);
    if |Plan(packs, cfg.policy, allowBase).value.packs| == 1 {
      FreshAlone(packs, cfg.policy);
    }
  }

  lemma {:induction false} SuffixRange(packs: seq<Pack>, generation: nat, k: nat)
    requires Partition(packs, generation) && k < |packs|
    ensures GenerationMin(packs[k..]) == packs[k].generationMin
    ensures GenerationMax(packs[k..]) == generation
    ensures packs[k].generationMin >= 1
    decreases |packs| - k
  {
    var rest := packs[k..];
    assert rest[0] == packs[k] && rest[1..] == packs[k + 1..];
    if k > 0 {
      assert packs[k].generationMin == packs[k - 1].generationMax + 1;
    }
    if k + 1 < |packs| {
      SuffixRange(packs, generation, k + 1);
      RangesAscend(packs, generation, k, k + 1);
      if k + 1 < |packs| - 1 {
        RangesAscend(packs, generation, k, |packs| - 1);
      }
    }
  }

  /** No single pack spans from an older pack's start to the present generation. */
  lemma NoPackSpans(packs: seq<Pack>, generation: nat, k: nat, i: nat)
    requires Partition(packs, generation) && k < |packs| - 1 && i < |packs|
    ensures !(packs[i].generationMin == packs[k].generationMin && packs[i].generationMax == generation)
  {
    var n := |packs|;
    if i < n - 1 {
      RangesAscend(packs, generation, i, n - 1);
    } else {
      RangesAscend(packs, generation, k, n - 1);
    }
  }

  lemma SpanIsFresh(cfg: Config, p: Pack, target: nat, from: nat, to: nat)
    requires WellNamed(cfg, p) && !(p.generationMin == from && p.generationMax == to)
    ensures FreshFor(p, InDir(cfg.packDir, CompactName(target, from, to)))
  {
    var name := CompactName(target, from, to);
    if p.kind.Delta? {
      DeltaIsNotCompact(p.generationMax, target, from, to);
    } else if FileName(p) == name {
      CompactNamesDiffer(p.level, p.generationMin, p.generationMax, target, from, to);
    }
    CompactNameHasNoSlash(target, from, to);
    DifferentNameIsFresh(cfg, p, name);
  }

  // ---- the invariants are kept ----

  lemma CommittedIsGood(cfg: Config, c: Child, info: BuildInfo)
    requires ValidPolicy(cfg.policy) && Good(cfg, c)
    ensures Good(cfg, Committed(cfg, c, info))
  {
    var pack := DeltaPack(cfg, c.generation + 1, info);
    CommittedPacks(cfg, c, info);
    CommittedFiles(cfg, c, info);
    AppendedPartition(c.lowers, c.generation, pack);
  }

  lemma CommittedPacks(cfg: Config, c: Child, info: BuildInfo)
    requires ValidPolicy(cfg.policy) && Good(cfg, c)
    ensures var d := Committed(cfg, c, info);
            && (forall i | 0 <= i < |d.lowers| :: WellNamed(cfg, d.lowers[i]))
            && OnLevels(d.lowers, cfg.policy, |cfg.policy.levels|) && HealthyOrFresh(cfg, d.lowers)
  {
    var d := Committed(cfg, c, info);
    TargetIsConfigured(cfg.policy, info.size);
    forall i | 0 <= i < |d.lowers|
      ensures Configured(cfg.policy, d.lowers[i].level, |cfg.policy.levels|) && WellNamed(cfg, d.lowers[i])
    {
      assert d.lowers[i] == if i < |c.lowers| then c.lowers[i] else DeltaPack(cfg, c.generation + 1, info);
    }
  }

  lemma CommittedFiles(cfg: Config, c: Child, info: BuildInfo)
    requires ValidPolicy(cfg.policy) && Good(cfg, c)
    ensures Stored(Committed(cfg, c, info))
  {
    var d := Committed(cfg, c, info);
    DeltaIsFresh(cfg, c);
    EmptyIsView();
    forall i | 0 <= i < |d.lowers| ensures d.lowers[i].path in d.disk && IsLayer(d.disk[d.lowers[i].path]) {
      assert d.lowers[i] == if i < |c.lowers| then c.lowers[i] else DeltaPack(cfg, c.generation + 1, info);
    }
  }

  lemma AppendedPartition(packs: seq<Pack>, generation: nat, pack: Pack)
    requires Partition(packs, generation)
    requires pack.generationMin == pack.generationMax == generation + 1
    ensures Partition(packs + [pack], generation + 1)
  {
  }

  /** Packs k and newer replaced by one. */
  function Replaced(c: Child, k: nat, pack: Pack, content: Tree): Child
    requires k <= |c.lowers|
  {
    c.(lowers := c.lowers[..k] + [pack], disk := c.disk[pack.path := content])
  }

  /** The pack that merges packs k and newer: named after its level and its range. */
  function MergedPack(cfg: Config, c: Child, k: nat, target: nat, info: BuildInfo): Pack
    requires k < |c.lowers|
  {
    var from := c.lowers[k].generationMin;
    Pack(InDir(cfg.packDir, CompactName(target, from, c.generation)), info.sha256, info.size, target,
         from, c.generation, Compact)
  }

  lemma OutputIsMergedPack(cfg: Config, c: Child, k: nat, cand: Candidate, info: BuildInfo)
    requires Partition(c.lowers, c.generation) && k < |c.lowers| && cand.packs == c.lowers[k..]
    ensures OutputPath(cfg, c, cand) == MergedPack(cfg, c, k, cand.target, info).path
    ensures CompactedPack(cfg, c, cand, info) == MergedPack(cfg, c, k, cand.target, info)
  {
    SuffixRange(c.lowers, c.generation, k);
    RangesCover(c.lowers, c.generation, k);
  }

  lemma RangesCover(packs: seq<Pack>, generation: nat, k: nat)
    requires Partition(packs, generation) && k < |packs|
    ensures packs[k].generationMin <= packs[k].generationMax <= generation
  {
    if k < |packs| - 1 {
      RangesAscend(packs, generation, k, |packs| - 1);
    }
  }

  lemma PublishesMergedPack(cfg: Config, c: Child, k: nat, cand: Candidate, info: BuildInfo)
    requires Partition(c.lowers, c.generation) && k < |c.lowers| && cand.packs == c.lowers[k..]
    requires forall i, j | 0 <= i < j < |c.lowers| :: c.lowers[i].path != c.lowers[j].path
    ensures var pack := MergedPack(cfg, c, k, cand.target, info);
            PublishPartialCompaction(c.lowers, cand.packs, pack, cand.target)
            == Ok(Swap(c.lowers[..k] + [pack], cand.packs))
  {
    var pack := MergedPack(cfg, c, k, cand.target, info);
    PublishSuffix(c.lowers, |cand.packs|, pack, cand.target);
    SuffixRange(c.lowers, c.generation, k);
  }

  lemma MergedPackIsFresh(cfg: Config, c: Child, k: nat, target: nat, info: BuildInfo)
    requires ValidPolicy(cfg.policy) && Good(cfg, c) && k < |c.lowers| - 1
    ensures WellNamed(cfg, MergedPack(cfg, c, k, target, info))
    ensures forall i | 0 <= i < |c.lowers| :: FreshFor(c.lowers[i], MergedPack(cfg, c, k, target, info).path)
  {
    forall i | 0 <= i < |c.lowers| ensures FreshFor(c.lowers[i], MergedPack(cfg, c, k, target, info).path) {
      NoPackSpans(c.lowers, c.generation, k, i);
      SpanIsFresh(cfg, c.lowers[i], target, c.lowers[k].generationMin, c.generation);
    }
  }

  /** Where the planner cuts the stack: at least two packs merge, and the result is healthy. */
  lemma PlanCut(cfg: Config, packs: seq<Pack>, allowBase: bool) returns (k: nat)
    requires ValidPolicy(cfg.policy) && HealthyOrFresh(cfg, packs) && Plan(packs, cfg.policy, allowBase).Some?
    ensures var cand := Plan(packs, cfg.policy, allowBase).value;
            && k + 2 <= |packs| && cand.packs == packs[k..]
            && Configured(cfg.policy, cand.target, |cfg.policy.levels|)
            && forall merged: Pack | merged.level == cand.target :: Increasing(packs[..k] + [merged])
  {
    var cand := Plan(packs, cfg.policy, allowBase).value;
    PlanShape(packs, cfg.policy, allowBase);
    CandidateMergesAtLeastTwo(cfg, packs, allowBase);
    TargetIsConfigured(cfg.policy, cand.totalBytes);
    k := |packs| - |cand.packs|;
    forall merged: Pack | merged.level == cand.target ensures Increasing(packs[..k] + [merged]) {
      HealsIsValidPublication(packs, cfg.policy, |cand.packs|, merged);
    }
  }

  /**
   What a compaction publishes: packs k and newer become one pack that holds their build, is named
   after their range, and lies in a file no pack of the stack uses.
   */
  lemma CompactionSteps(cfg: Config, c: Child, allowBase: bool, info: BuildInfo) returns (k: nat)
    requires ValidPolicy(cfg.policy) && Good(cfg, c) && Plan(c.lowers, cfg.policy, allowBase).Some?
    ensures k + 2 <= |c.lowers|
    ensures var cand := Plan(c.lowers, cfg.policy, allowBase).value;
            var pack := MergedPack(cfg, c, k, cand.target, info);
            && cand.packs == c.lowers[k..]
            && OutputPath(cfg, c, cand) == pack.path
            && PublishPartialCompaction(c.lowers, cand.packs, CompactedPack(cfg, c, cand, info), cand.target)
               == Ok(Swap(c.lowers[..k] + [pack], cand.packs))
            && WellNamed(cfg, pack) && Configured(cfg.policy, pack.level, |cfg.policy.levels|)
            && (forall i | 0 <= i < |c.lowers| :: FreshFor(c.lowers[i], pack.path))
            && Increasing(c.lowers[..k] + [pack])
  {
    k := PlanCut(cfg, c.lowers, allowBase);
    var cand := Plan(c.lowers, cfg.policy, allowBase).value;
    PathsDistinct(cfg, c);
    OutputIsMergedPack(cfg, c, k, cand, info);
    PublishesMergedPack(cfg, c, k, cand, info);
    MergedPackIsFresh(cfg, c, k, cand.target, info);
  }

  /** A compaction that goes ahead replaces packs k and newer by their merged pack. */
  lemma CompactedIsReplaced(cfg: Config, c: Child, allowBase: bool, info: BuildInfo) returns (k: nat, pack: Pack)
    requires ValidPolicy(cfg.policy) && Good(cfg, c) && Plan(c.lowers, cfg.policy, allowBase).Some?
    ensures k + 2 <= |c.lowers| && Plan(c.lowers, cfg.policy, allowBase).value.packs == c.lowers[k..]
    ensures Compacted(cfg, c, Plan(c.lowers, cfg.policy, allowBase).value, info)
            == Replaced(c, k, pack, Built(ContentsOf(c.disk, c.lowers[k..])))
    ensures pack.generationMin == c.lowers[k].generationMin && pack.generationMax == c.generation
    ensures WellNamed(cfg, pack) && Configured(cfg.policy, pack.level, |cfg.policy.levels|)
    ensures forall i | 0 <= i < |c.lowers| :: FreshFor(c.lowers[i], pack.path)
    ensures Increasing(c.lowers[..k] + [pack])
  {
    k := CompactionSteps(cfg, c, allowBase, info);
    pack := MergedPack(cfg, c, k, Plan(c.lowers, cfg.policy, allowBase).value.target, info);
  }

  lemma ReplacedIsGood(cfg: Config, c: Child, k: nat, pack: Pack, content: Tree)
    requires ValidPolicy(cfg.policy) && Good(cfg, c) && k < |c.lowers| && IsLayer(content)
    requires WellNamed(cfg, pack) && Configured(cfg.policy, pack.level, |cfg.policy.levels|)
    requires pack.generationMin == c.lowers[k].generationMin && pack.generationMax == c.generation
    requires forall i | 0 <= i < |c.lowers| :: c.lowers[i].path != pack.path
    requires Increasing(c.lowers[..k] + [pack])
    ensures Good(cfg, Replaced(c, k, pack, content))
  {
    var d := Replaced(c, k, pack, content);
    PublishedIsStored(c, d, k, pack, content);
    PublishedPartition(c.lowers, c.generation, k, pack);
    forall i | 0 <= i < |d.lowers|
      ensures WellNamed(cfg, d.lowers[i]) && Configured(cfg.policy, d.lowers[i].level, |cfg.policy.levels|)
    {
      assert d.lowers[i] == if i < k then c.lowers[i] else pack;
    }
  }

  lemma CompactedIsGood(cfg: Config, c: Child, allowBase: bool, info: BuildInfo)
    requires ValidPolicy(cfg.policy) && Good(cfg, c) && Plan(c.lowers, cfg.policy, allowBase).Some?
    ensures var d := Compacted(cfg, c, Plan(c.lowers, cfg.policy, allowBase).value, info);
            Good(cfg, d) && Increasing(d.lowers)
  {
    var k, pack := CompactedIsReplaced(cfg, c, allowBase, info);
    var run := ContentsOf(c.disk, c.lowers[k..]);
    SuffixContents(cfg, c, |c.lowers| - k);
    BuiltIsLayer(run);
    ReplacedIsGood(cfg, c, k, pack, Built(run));
  }

  lemma PublishedIsStored(c: Child, d: Child, k: nat, pack: Pack, built: Tree)
    requires Stored(c) && k <= |c.lowers| && IsLayer(built) && IsLayer(d.upper)
    requires forall i | 0 <= i < |c.lowers| :: c.lowers[i].path != pack.path
    requires d.lowers == c.lowers[..k] + [pack] && d.disk == c.disk[pack.path := built]
    ensures Stored(d)
  {
    forall i | 0 <= i < |d.lowers| ensures d.lowers[i].path in d.disk && IsLayer(d.disk[d.lowers[i].path]) {
      if i < k {
        assert d.lowers[i] == c.lowers[i];
      }
    }
  }

  lemma PublishedPartition(packs: seq<Pack>, generation: nat, k: nat, pack: Pack)
    requires Partition(packs, generation) && k < |packs|
    requires pack.generationMin == packs[k].generationMin && pack.generationMax == generation
    ensures Partition(packs[..k] + [pack], generation)
  {
    var d := packs[..k] + [pack];
    assert forall i | 0 <= i < k :: d[i] == packs[i];
    if k < |packs| - 1 {
      RangesAscend(packs, generation, k, |packs| - 1);
    }
  }

  lemma CompactedIfNeededIsGood(cfg: Config, c: Child, allowBase: bool, info: BuildInfo)
    requires ValidPolicy(cfg.policy) && Good(cfg, c)
    ensures Good(cfg, CompactedIfNeeded(cfg, c, allowBase, info))
    ensures Compacts(cfg, c, allowBase) ==> Increasing(CompactedIfNeeded(cfg, c, allowBase, info).lowers)
  {
    if Compacts(cfg, c, allowBase) {
      CompactedIsGood(cfg, c, allowBase, info);
    }
  }

  // ---- runs ----

  datatype Op =
    | Write(upper: Tree)
    | CommitOp(delta: BuildInfo, compact: BuildInfo)
    | CompactOp(allowBase: bool, info: BuildInfo)

  predicate ValidOp(op: Op) {
    op.Write? ==> IsLayer(op.upper)
  }

  predicate ValidRun(ops: seq<Op>) {
    forall i | 0 <= i < |ops| :: ValidOp(ops[i])
  }

  function Step(cfg: Config, c: Child, op: Op): Child
    requires ValidPolicy(cfg.policy)
  {
    match op
    case Write(upper) => c.(upper := upper)
    case CommitOp(delta, compact) => AfterCommit(cfg, c, delta, compact)
    case CompactOp(allowBase, info) => CompactedIfNeeded(cfg, c, allowBase, info)
  }

  function Run(cfg: Config, ops: seq<Op>): Child
    requires ValidPolicy(cfg.policy)
  {
    if ops == [] then NEW_CHILD else Step(cfg, Run(cfg, ops[..|ops| - 1]), ops[|ops| - 1])
  }

  lemma StepIsGood(cfg: Config, c: Child, op: Op)
    requires ValidPolicy(cfg.policy) && Good(cfg, c) && ValidOp(op)
    ensures Good(cfg, Step(cfg, c, op))
  {
    match op
    case Write(_) =>
    case CommitOp(delta, compact) =>
      if Dirty(c.upper) {
        CommittedIsGood(cfg, c, delta);
        CompactedIfNeededIsGood(cfg, Committed(cfg, c, delta), false, compact);
      }
    case CompactOp(allowBase, info) => CompactedIfNeededIsGood(cfg, c, allowBase, info);
  }

  /** Every run keeps all of the child's invariants. */
  lemma {:induction false} EveryRunIsGood(cfg: Config, ops: seq<Op>)
    requires ValidPolicy(cfg.policy) && ValidRun(ops)
    ensures Good(cfg, Run(cfg, ops))
    decreases |ops|
  {
    if ops != [] {
      EveryRunIsGood(cfg, ops[..|ops| - 1]);
      StepIsGood(cfg, Run(cfg, ops[..|ops| - 1]), ops[|ops| - 1]);
    }
  }

  predicate Covers(p: Pack, generation: nat) {
    p.generationMin <= generation <= p.generationMax
  }

  lemma {:induction false} SomePackCovers(packs: seq<Pack>, generation: nat, g: nat) returns (i: nat)
    requires Partition(packs, generation) && 1 <= g <= generation
    ensures i < |packs| && Covers(packs[i], g)
  {
    i := 0;
    while packs[i].generationMax < g
      invariant i < |packs| && packs[i].generationMin <= g
      decreases |packs| - i
    {
      assert packs[i + 1].generationMin == packs[i].generationMax + 1;
      i := i + 1;
    }
  }

  lemma RevisionReadsBack(generation: nat)
    ensures RevisionName(generation)[0] == 'g' && Value(RevisionName(generation)[1..]) == generation
  {
    ValueOfDec(generation);
    assert RevisionName(generation)[1..] == Dec(generation);
  }

  /**
   Generation conservation: after any run every generation from 1 to the present one is recorded by
   exactly one pack, no pack records another, and the revision names the present generation.
   */
  lemma GenerationsAreConserved(cfg: Config, ops: seq<Op>, g: nat)
    requires ValidPolicy(cfg.policy) && ValidRun(ops)
    ensures var c := Run(cfg, ops);
            && ((exists i | 0 <= i < |c.lowers| :: Covers(c.lowers[i], g)) <==> 1 <= g <= c.generation)
            && (forall i, j | 0 <= i < j < |c.lowers| :: !(Covers(c.lowers[i], g) && Covers(c.lowers[j], g)))
            && (c.lowers != [] ==> |c.revision| > 0 && c.revision[0] == 'g' && Value(c.revision[1..]) == c.generation)
  {
    EveryRunIsGood(cfg, ops);
    RevisionReadsBack(Run(cfg, ops).generation);
    var c := Run(cfg, ops);
    if 1 <= g <= c.generation {
      var i := SomePackCovers(c.lowers, c.generation, g);
    }
    if i :| 0 <= i < |c.lowers| && Covers(c.lowers[i], g) {
      SuffixRange(c.lowers, c.generation, i);
      if i < |c.lowers| - 1 {
        RangesAscend(c.lowers, c.generation, i, |c.lowers| - 1);
      }
    }
    forall i, j | 0 <= i < j < |c.lowers| ensures !(Covers(c.lowers[i], g) && Covers(c.lowers[j], g)) {
      RangesAscend(c.lowers, c.generation, i, j);
    }
  }

  /**
   The packs have distinct files and base names, and neither the next delta nor the output of the
   compaction the planner would choose shares one with them.
   */
  predicate FreshOutputs(cfg: Config, c: Child, allowBase: bool)
    requires ValidPolicy(cfg.policy)
  {
    && (forall i, j | 0 <= i < j < |c.lowers| :: FreshFor(c.lowers[i], c.lowers[j].path))
    && (forall i | 0 <= i < |c.lowers| :: FreshFor(c.lowers[i], DeltaPath(cfg, c.generation + 1)))
    && var plan := Plan(c.lowers, cfg.policy, allowBase);
       plan.Some? ==> forall i | 0 <= i < |c.lowers| :: FreshFor(c.lowers[i], OutputPath(cfg, c, plan.value))
  }

  /** After any run no build writes to a file of the stack. */
  lemma OutputsAreFresh(cfg: Config, ops: seq<Op>, allowBase: bool)
    requires ValidPolicy(cfg.policy) && ValidRun(ops)
    ensures FreshOutputs(cfg, Run(cfg, ops), allowBase)
  {
    EveryRunIsGood(cfg, ops);
    GoodOutputsAreFresh(cfg, Run(cfg, ops), allowBase);
  }

  lemma GoodOutputsAreFresh(cfg: Config, c: Child, allowBase: bool)
    requires ValidPolicy(cfg.policy) && Good(cfg, c)
    ensures FreshOutputs(cfg, c, allowBase)
  {
    PathsDistinct(cfg, c);
    DeltaIsFresh(cfg, c);
    if Plan(c.lowers, cfg.policy, allowBase).Some? {
      PlannedOutputIsFresh(cfg, c, allowBase);
    }
  }

  lemma PlannedOutputIsFresh(cfg: Config, c: Child, allowBase: bool)
    requires ValidPolicy(cfg.policy) && Good(cfg, c) && Plan(c.lowers, cfg.policy, allowBase).Some?
    ensures var out := OutputPath(cfg, c, Plan(c.lowers, cfg.policy, allowBase).value);
            forall i | 0 <= i < |c.lowers| :: FreshFor(c.lowers[i], out)
  {
    var k := CompactionSteps(cfg, c, allowBase, BuildInfo("", 0));
  }

  /**
   With base compaction allowed and post-commit compaction on, a commit leaves a healthy stack exactly if
   the merge the planner asks for, if any, does not raise; a healthy stack has at most one pack per
   configured level.
   */
  lemma BoundedAfterCommit(cfg: Config, ops: seq<Op>, delta: BuildInfo, compact: BuildInfo)
    requires ValidPolicy(cfg.policy) && ValidRun(ops)
    requires cfg.policy.allowBaseCompaction && cfg.compactAfterCommit && Dirty(Run(cfg, ops).upper)
    ensures var d := Committed(cfg, Run(cfg, ops), delta);
            var plan := Plan(d.lowers, cfg.policy, false);
            var after := Step(cfg, Run(cfg, ops), CommitOp(delta, compact)).lowers;
            && (Increasing(after) <==> (plan.Some? ==> Buildable(ContentsOf(d.disk, plan.value.packs))))
            && (Increasing(after) ==> |after| <= |cfg.policy.levels|)
  {
    var c := Run(cfg, ops);
    var d := Committed(cfg, c, delta);
    EveryRunIsGood(cfg, ops);
    CommittedIsGood(cfg, c, delta);
    CompactedIfNeededIsGood(cfg, d, false, compact);
    SilentWhenHealthy(d.lowers, cfg.policy, false);
    if Plan(d.lowers, cfg.policy, false).Some? {
      WhenBlocked(d.lowers, cfg.policy, false);
    }
    var after := Step(cfg, c, CommitOp(delta, compact)).lowers;
    if Increasing(after) {
      AtMostOnePerLevel(after, cfg.policy, |cfg.policy.levels|);
    }
  }
}
