/**
 What a reader of a shared-nfs child sees.  It is always what an append-only log of the sealed uppers would
 show, exactly if no compaction loses anything or uncovers anything of the packs beneath (CompactedRunShowsLog).
 */
module Visibility {
  import opened Trees
  import opened Layers
  import opened Folding
  import opened MergeWalk
  import opened Packs
  import opened Compaction
  import opened Levels
  import opened Daemon

  // ---- what readers see ----

  /** A commit by itself is invisible. */
  lemma CommitIsInvisible(cfg: Config, c: Child, info: BuildInfo)
    requires ValidPolicy(cfg.policy) && Good(cfg, c)
    ensures ContentsOf(Committed(cfg, c, info).disk, Committed(cfg, c, info).lowers)
            == ContentsOf(c.disk, c.lowers) + [c.upper]
    ensures Visible(Committed(cfg, c, info)) == Visible(c)
  {
    CommittedContents(cfg, c, info);
    StoredLayers(c);
    EmptyIsView();
    AddingNothing(ContentsOf(c.disk, c.lowers) + [c.upper]);
  }

  lemma CommittedContents(cfg: Config, c: Child, info: BuildInfo)
    requires ValidPolicy(cfg.policy) && Good(cfg, c)
    ensures ContentsOf(Committed(cfg, c, info).disk, Committed(cfg, c, info).lowers)
            == ContentsOf(c.disk, c.lowers) + [c.upper]
  {
    var d := Committed(cfg, c, info);
    DeltaIsFresh(cfg, c);
    var before, after := ContentsOf(c.disk, c.lowers) + [c.upper], ContentsOf(d.disk, d.lowers);
    assert forall i | 0 <= i < |c.lowers| :: d.lowers[i] == c.lowers[i];
    assert after == before;
  }

  /** The run of packs a compaction would merge. */
  function RunOf(cfg: Config, c: Child, allowBase: bool): seq<Tree>
    requires ValidPolicy(cfg.policy) && Plan(c.lowers, cfg.policy, allowBase).Some?
  {
    ContentsOf(c.disk, Plan(c.lowers, cfg.policy, allowBase).value.packs)
  }

  /** The packs it would leave alone. */
  function KeptOf(cfg: Config, c: Child, allowBase: bool): seq<Tree>
    requires ValidPolicy(cfg.policy) && Plan(c.lowers, cfg.policy, allowBase).Some?
  {
    var packs := Plan(c.lowers, cfg.policy, allowBase).value.packs;
    if |packs| <= |c.lowers| then ContentsOf(c.disk, c.lowers[..|c.lowers| - |packs|]) else []
  }

  /** If the compaction goes ahead, it loses nothing and uncovers nothing of the packs beneath. */
  predicate FaithfulCompaction(cfg: Config, c: Child, allowBase: bool)
    requires ValidPolicy(cfg.policy)
  {
    Compacts(cfg, c, allowBase) ==>
      var run := RunOf(cfg, c, allowBase);
      NothingLost(run) && Shields(run, View(KeptOf(cfg, c, allowBase)))
  }

  lemma ReplacedContents(c: Child, k: nat, pack: Pack, content: Tree)
    requires k <= |c.lowers| && forall i | 0 <= i < |c.lowers| :: c.lowers[i].path != pack.path
    ensures var d := Replaced(c, k, pack, content);
            ContentsOf(d.disk, d.lowers) == ContentsOf(c.disk, c.lowers[..k]) + [content]
  {
    var d := Replaced(c, k, pack, content);
    assert forall i | 0 <= i < k :: d.lowers[i] == c.lowers[i];
  }

  /** A compaction that goes ahead replaces its run in the stack of contents by the run's build. */
  lemma CompactedContents(cfg: Config, c: Child, allowBase: bool, info: BuildInfo)
    returns (kept: seq<Tree>, run: seq<Tree>)
    requires ValidPolicy(cfg.policy) && Good(cfg, c) && Compacts(cfg, c, allowBase)
    ensures AreLayers(kept) && AreLayers(run) && run != [] && run == RunOf(cfg, c, allowBase)
    ensures kept == KeptOf(cfg, c, allowBase) && ContentsOf(c.disk, c.lowers) == kept + run
    ensures var d := CompactedIfNeeded(cfg, c, allowBase, info);
            ContentsOf(d.disk, d.lowers) == kept + [Built(run)] && d.upper == c.upper
  {
    var k, pack := CompactedIsReplaced(cfg, c, allowBase, info);
    run := ContentsOf(c.disk, c.lowers[k..]);
    kept := ContentsOf(c.disk, c.lowers[..k]);
    SuffixContents(cfg, c, |c.lowers| - k);
    ReplacedContents(c, k, pack, Built(run));
  }

  /** A compaction leaves the stack's view, and so every later view, as it was exactly if it is faithful. */
  lemma CompactionIsInvisible(cfg: Config, c: Child, allowBase: bool, info: BuildInfo)
    requires ValidPolicy(cfg.policy) && Good(cfg, c)
    ensures var d := CompactedIfNeeded(cfg, c, allowBase, info);
            && (View(ContentsOf(d.disk, d.lowers)) == View(ContentsOf(c.disk, c.lowers))
                <==> FaithfulCompaction(cfg, c, allowBase))
            && d.upper == c.upper
  {
    if Compacts(cfg, c, allowBase) {
      var kept, run := CompactedContents(cfg, c, allowBase, info);
      BuildKeepsView(kept, run);
    }
  }

  // ---- refinement: the child against an append-only log of sealed uppers ----

  datatype Log = Log(layers: seq<Tree>, upper: Tree)

  function LogStep(l: Log, op: Op): Log {
    match op
    case Write(upper) => l.(upper := upper)
    case CommitOp(_, _) => if Dirty(l.upper) then Log(l.layers + [l.upper], EMPTY_TREE) else l
    case CompactOp(_, _) => l
  }

  function LogRun(ops: seq<Op>): Log {
    if ops == [] then Log([], EMPTY_TREE) else LogStep(LogRun(ops[..|ops| - 1]), ops[|ops| - 1])
  }

  function Shown(l: Log): Tree {
    View(l.layers + [l.upper])
  }

  predicate FaithfulStep(cfg: Config, c: Child, op: Op)
    requires ValidPolicy(cfg.policy)
  {
    match op
    case Write(_) => true
    case CommitOp(delta, _) =>
      Dirty(c.upper) && cfg.compactAfterCommit ==> FaithfulCompaction(cfg, Committed(cfg, c, delta), false)
    case CompactOp(allowBase, _) => FaithfulCompaction(cfg, c, allowBase)
  }

  predicate FaithfulRun(cfg: Config, ops: seq<Op>)
    requires ValidPolicy(cfg.policy)
  {
    ops != [] ==>
      && FaithfulRun(cfg, ops[..|ops| - 1])
      && FaithfulStep(cfg, Run(cfg, ops[..|ops| - 1]), ops[|ops| - 1])
  }

  lemma ViewOfSnoc(a: seq<Tree>, b: seq<Tree>, x: Tree)
    requires View(a) == View(b)
    ensures View(a + [x]) == View(b + [x])
  {
    ApplyAllAppend(EMPTY_TREE, a, [x]);
    ApplyAllAppend(EMPTY_TREE, b, [x]);
  }

  /** Packs and upper agree with the log. */
  predicate FollowsLog(c: Child, l: Log) {
    View(ContentsOf(c.disk, c.lowers)) == View(l.layers) && c.upper == l.upper
  }

  /** A child that follows its log goes on to do so exactly if the step is faithful. */
  lemma StepRefinesLog(cfg: Config, c: Child, l: Log, op: Op)
    requires ValidPolicy(cfg.policy) && Good(cfg, c) && ValidOp(op) && FollowsLog(c, l)
    ensures FollowsLog(Step(cfg, c, op), LogStep(l, op)) <==> FaithfulStep(cfg, c, op)
  {
    match op
    case Write(_) =>
    case CommitOp(delta, compact) =>
      if Dirty(c.upper) {
        CommitIsInvisible(cfg, c, delta);
        ViewOfSnoc(ContentsOf(c.disk, c.lowers), l.layers, c.upper);
        CommittedIsGood(cfg, c, delta);
        if cfg.compactAfterCommit {
          CompactionIsInvisible(cfg, Committed(cfg, c, delta), false, compact);
        }
      }
    case CompactOp(allowBase, info) => CompactionIsInvisible(cfg, c, allowBase, info);
  }

  /** At every moment of the run the child agrees with its log. */
  predicate AlwaysFollowsLog(cfg: Config, ops: seq<Op>)
    requires ValidPolicy(cfg.policy)
  {
    forall n | 0 <= n <= |ops| :: FollowsLog(Run(cfg, ops[..n]), LogRun(ops[..n]))
  }

  lemma AlwaysSnoc(cfg: Config, ops: seq<Op>)
    requires ValidPolicy(cfg.policy) && ops != []
    ensures AlwaysFollowsLog(cfg, ops) <==>
            AlwaysFollowsLog(cfg, ops[..|ops| - 1]) && FollowsLog(Run(cfg, ops), LogRun(ops))
  {
    var prior := ops[..|ops| - 1];
    assert ops[..|ops|] == ops;
    assert forall n | 0 <= n <= |prior| :: prior[..n] == ops[..n];
    forall n | 0 <= n <= |prior| && AlwaysFollowsLog(cfg, ops)
      ensures FollowsLog(Run(cfg, prior[..n]), LogRun(prior[..n]))
    {
      assert FollowsLog(Run(cfg, ops[..n]), LogRun(ops[..n]));
    }
    forall n | 0 <= n <= |ops| && AlwaysFollowsLog(cfg, prior) && FollowsLog(Run(cfg, ops), LogRun(ops))
      ensures FollowsLog(Run(cfg, ops[..n]), LogRun(ops[..n]))
    {
      assert n < |ops| ==> FollowsLog(Run(cfg, prior[..n]), LogRun(prior[..n]));
    }
  }

  /**
   Over every run: at every moment a reader sees exactly what the append-only log shows, if and only if no
   compaction of the run lost anything or uncovered anything of the packs beneath.
   */
  lemma {:induction false} CompactedRunShowsLog(cfg: Config, ops: seq<Op>)
    requires ValidPolicy(cfg.policy) && ValidRun(ops)
    ensures FaithfulRun(cfg, ops) <==> AlwaysFollowsLog(cfg, ops)
    ensures FaithfulRun(cfg, ops) ==>
              FollowsLog(Run(cfg, ops), LogRun(ops)) && Visible(Run(cfg, ops)) == Shown(LogRun(ops))
    decreases |ops|
  {
    if ops == [] {
      assert forall n | 0 <= n <= |ops| :: ops[..n] == [];
    } else {
      var prior := ops[..|ops| - 1];
      CompactedRunShowsLog(cfg, prior);
      AlwaysSnoc(cfg, ops);
      EveryRunIsGood(cfg, prior);
      if FaithfulRun(cfg, prior) {
        StepRefinesLog(cfg, Run(cfg, prior), LogRun(prior), ops[|ops| - 1]);
      }
    }
    FollowingShows(Run(cfg, ops), LogRun(ops));
  }

  lemma FollowingShows(c: Child, l: Log)
    ensures FollowsLog(c, l) ==> Visible(c) == Shown(l)
  {
    if FollowsLog(c, l) {
      ViewOfSnoc(ContentsOf(c.disk, c.lowers), l.layers, c.upper);
    }
  }

  /** Only writes change what the log shows. */
  lemma OnlyWritesChangeTheLog(ops: seq<Op>)
    requires ValidRun(ops) && ops != [] && !ops[|ops| - 1].Write?
    ensures Shown(LogRun(ops)) == Shown(LogRun(ops[..|ops| - 1]))
  {
    var l := LogRun(ops[..|ops| - 1]);
    LogLayers(ops[..|ops| - 1]);
    if ops[|ops| - 1].CommitOp? && Dirty(l.upper) {
      EmptyIsView();
      AddingNothing(l.layers + [l.upper]);
    }
  }

  lemma {:induction false} LogLayers(ops: seq<Op>)
    requires ValidRun(ops)
    ensures AreLayers(LogRun(ops).layers + [LogRun(ops).upper])
    decreases |ops|
  {
    EmptyIsView();
    if ops != [] {
      LogLayers(ops[..|ops| - 1]);
      var l := LogRun(ops[..|ops| - 1]);
      assert forall i | 0 <= i < |l.layers| :: (l.layers + [l.upper])[i] == l.layers[i];
      assert (l.layers + [l.upper])[|l.layers|] == l.upper;
      assert ValidOp(ops[|ops| - 1]);
    }
  }

  // ---- a discipline on committed uppers that needs no check at compaction time ----

  lemma TamePrefix(a: seq<Tree>, b: seq<Tree>)
    requires Tame(a + b)
    ensures Tame(a) && Tame(b)
  {
    assert forall i | 0 <= i < |a| :: (a + b)[i] == a[i];
    assert forall i | 0 <= i < |b| :: (a + b)[|a| + i] == b[i];
  }

  /** The child's packs hold only what the log's layers hold. */
  predicate Drawn(packs: seq<Tree>, layers: seq<Tree>) {
    forall i, p | 0 <= i < |packs| && p in packs[i] :: HoldsAt(layers, p, packs[i][p]) || p == []
  }

  lemma CompactionStaysDrawn(kept: seq<Tree>, run: seq<Tree>, layers: seq<Tree>)
    requires AreLayers(run) && run != [] && Drawn(kept + run, layers)
    ensures Drawn(kept + [Built(run)], layers)
  {
    var s, t := kept + run, kept + [Built(run)];
    forall i, p | 0 <= i < |t| && p in t[i] && p != [] ensures HoldsAt(layers, p, t[i][p]) {
      if i < |kept| {
        assert s[i] == t[i];
      } else {
        BuiltComesFrom(run, p);
        var j :| 0 <= j < |run| && p in run[j] && run[j][p] == Built(run)[p];
        assert s[|kept| + j] == run[j];
      }
    }
  }

  lemma CompactedStaysDrawn(cfg: Config, c: Child, allowBase: bool, info: BuildInfo, layers: seq<Tree>)
    requires ValidPolicy(cfg.policy) && Good(cfg, c) && AreLayers(layers) && Tame(layers)
    requires Drawn(ContentsOf(c.disk, c.lowers), layers)
    ensures FaithfulCompaction(cfg, c, allowBase)
    ensures var d := CompactedIfNeeded(cfg, c, allowBase, info);
            Drawn(ContentsOf(d.disk, d.lowers), layers) && d.upper == c.upper
  {
    if Compacts(cfg, c, allowBase) {
      var kept, run := CompactedContents(cfg, c, allowBase, info);
      DrawnIsTame(kept + run, layers);
      TamePrefix(kept, run);
      TameShields(kept, run);
      CompactionStaysDrawn(kept, run, layers);
    }
  }

  lemma TameShields(kept: seq<Tree>, run: seq<Tree>)
    requires AreLayers(kept) && AreLayers(run) && Tame(run)
    ensures NothingLost(run) && Shields(run, View(kept))
  {
    TameNothingLost(run);
    TameKeepsLeaves(run);
    EmptyIsView();
    ApplyAllIsView(EMPTY_TREE, kept);
    KeepsLeavesShields(View(kept), run);
  }

  lemma DrawnIsTame(packs: seq<Tree>, layers: seq<Tree>)
    requires AreLayers(packs) && AreLayers(layers) && Drawn(packs, layers) && Tame(layers)
    ensures Tame(packs)
  {
    forall i, p | 0 <= i < |packs| && p in packs[i] && MarkerPath(p) && IsWhiteout(Last(p))
      ensures !SortsFirst(Target(Last(p)))
    {
      var j :| 0 <= j < |layers| && p in layers[j] && layers[j][p] == packs[i][p];
      assert NoRiskyWhiteout(layers[j]);
    }
    forall i, j, p | 0 <= i < |packs| && 0 <= j < |packs| && p in packs[i] && p in packs[j]
      ensures packs[i][p].Dir? == packs[j][p].Dir?
    {
      if p == [] {
        assert IsLayer(packs[i]) && IsLayer(packs[j]);
      } else {
        var x :| 0 <= x < |layers| && p in layers[x] && layers[x][p] == packs[i][p];
        var y :| 0 <= y < |layers| && p in layers[y] && layers[y][p] == packs[j][p];
        assert SameKinds(layers[x], layers[y]);
      }
    }
  }

  lemma DrawnGrows(packs: seq<Tree>, layers: seq<Tree>, x: Tree)
    requires Drawn(packs, layers)
    ensures Drawn(packs, layers + [x]) && Drawn(packs + [x], layers + [x])
  {
    var bigger := layers + [x];
    forall p, e | HoldsAt(layers, p, e) ensures HoldsAt(bigger, p, e) {
      var i :| 0 <= i < |layers| && p in layers[i] && layers[i][p] == e;
      assert bigger[i] == layers[i];
    }
    assert bigger[|layers|] == x;
    forall p | p in x ensures HoldsAt(bigger, p, x[p]) {
    }
  }

  /** One operation of a child whose log stays tame. */
  lemma TameStepFollowsLog(cfg: Config, c: Child, l: Log, op: Op)
    requires ValidPolicy(cfg.policy) && Good(cfg, c) && ValidOp(op)
    requires AreLayers(LogStep(l, op).layers) && Tame(LogStep(l, op).layers)
    requires Drawn(ContentsOf(c.disk, c.lowers), l.layers) && c.upper == l.upper
    ensures FaithfulStep(cfg, c, op)
    ensures var d, k := Step(cfg, c, op), LogStep(l, op);
            Drawn(ContentsOf(d.disk, d.lowers), k.layers) && d.upper == k.upper
  {
    var k := LogStep(l, op);
    match op {
      case Write(_) =>
      case CommitOp(delta, compact) =>
        if Dirty(c.upper) {
          CommitIsInvisible(cfg, c, delta);
          CommittedIsGood(cfg, c, delta);
          DrawnGrows(ContentsOf(c.disk, c.lowers), l.layers, c.upper);
          if cfg.compactAfterCommit {
            CompactedStaysDrawn(cfg, Committed(cfg, c, delta), false, compact, k.layers);
          }
        }
      case CompactOp(allowBase, info) => CompactedStaysDrawn(cfg, c, allowBase, info, k.layers);
    }
  }

  lemma {:induction false} TameRunFollowsLog(cfg: Config, ops: seq<Op>)
    requires ValidPolicy(cfg.policy) && ValidRun(ops) && Tame(LogRun(ops).layers)
    ensures FaithfulRun(cfg, ops)
    ensures var c, l := Run(cfg, ops), LogRun(ops);
            Drawn(ContentsOf(c.disk, c.lowers), l.layers) && c.upper == l.upper
    decreases |ops|
  {
    if ops != [] {
      var prior, op := ops[..|ops| - 1], ops[|ops| - 1];
      LogLayers(ops);
      LayersOfLog(LogRun(ops));
      EveryRunIsGood(cfg, prior);
      TameLogPrefix(LogRun(prior), op);
      TameRunFollowsLog(cfg, prior);
      TameStepFollowsLog(cfg, Run(cfg, prior), LogRun(prior), op);
    }
  }

  lemma LayersOfLog(l: Log)
    requires AreLayers(l.layers + [l.upper])
    ensures AreLayers(l.layers) && IsLayer(l.upper)
  {
    assert forall i | 0 <= i < |l.layers| :: (l.layers + [l.upper])[i] == l.layers[i];
    assert (l.layers + [l.upper])[|l.layers|] == l.upper;
  }

  lemma TameLogPrefix(l: Log, op: Op)
    requires Tame(LogStep(l, op).layers)
    ensures Tame(l.layers)
  {
    if LogStep(l, op).layers != l.layers {
      TamePrefix(l.layers, [l.upper]);
    }
  }

  /**
   If the uppers ever committed agree on which paths are directories and whiten out no name sorting
   before its whiteout, the child shows its log after every run, whatever was compacted and when.
   */
  lemma TameRunShowsLog(cfg: Config, ops: seq<Op>)
    requires ValidPolicy(cfg.policy) && ValidRun(ops) && Tame(LogRun(ops).layers)
    ensures Visible(Run(cfg, ops)) == Shown(LogRun(ops))
  {
    TameRunFollowsLog(cfg, ops);
    CompactedRunShowsLog(cfg, ops);
  }
}
