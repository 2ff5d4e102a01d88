/**
 A shared-nfs child's whole life on one machine: writes into the upper, commits that seal it and compact,
 explicit compactions, archives (with and without eviction) and recalls, the last two cut by crashes
 anywhere.  What readers see is always what an append-only log of the sealed uppers would show.
 */
module Lifecycle {
  import opened Trees
  import opened Layers
  import opened Folding
  import opened Packs
  import opened Compaction
  import opened Levels
  import opened Publish
  import opened Names
  import opened Reader
  import D = Daemon
  import V = Visibility
  import C = Cold
  import S = ColdSafety

  // ---- the machine ----

  /** Recalled packs go where the daemon builds packs. */
  datatype Settings = Settings(daemon: D.Config, cold: C.Config)

  predicate Wired(s: Settings) {
    ValidPolicy(s.daemon.policy) && s.cold.hotDir == s.daemon.packDir
  }

  /** How a tree becomes a pack file and is read back. */
  datatype Format = Format(encode: Tree -> string, extract: string -> Tree)

  /** Reading back undoes building. */
  ghost predicate ReadsBack(f: Format) {
    forall t :: f.extract(f.encode(t)) == t
  }

  datatype Life = Life(w: C.World, revision: string, upper: Tree)

  predicate IsNew(l: Life) {
    S.IsNew(l.w) && l.revision == "" && l.upper == EMPTY_TREE
  }

  /** What the build of a tree reports. */
  function Info(f: Format, t: Tree): D.BuildInfo {
    D.BuildInfo(C.Sha256(f.encode(t)), |f.encode(t)|)
  }

  /** The bytes behind a pack's path, hot or archived. */
  function Behind(w: C.World, path: string): string {
    if path in w.hot then w.hot[path]
    else if C.ObjectKey(w.manifest.uri, path) in w.store then w.store[C.ObjectKey(w.manifest.uri, path)]
    else ""
  }

  /** The child as commits and compactions see it, wherever its bytes are. */
  function ChildOf(f: Format, l: Life): D.Child {
    D.Child(l.w.manifest.generation, l.revision, l.w.manifest.lowers, l.upper,
            map path | path in l.w.hot.Keys + PathsOf(l.w.manifest.lowers) :: f.extract(Behind(l.w, path)))
  }

  datatype Op =
    | Write(upper: Tree)
    | CommitOp
    | CompactOp(allowBase: bool)
    | ArchiveOp(removeHot: bool, text: string, crashAfter: nat)
    | RecallOp(crashAfter: nat)

  /** Seals the upper into a delta pack file and appends it to the manifest. */
  function Sealed(s: Settings, f: Format, l: Life): Life
    requires Wired(s)
  {
    var g := l.w.manifest.generation + 1;
    var pack := D.DeltaPack(s.daemon, g, Info(f, l.upper));
    Life(S.Committed(l.w, pack, f.encode(l.upper)), D.RevisionName(g), EMPTY_TREE)
  }

  /** What a compaction of the planner's choice builds. */
  function MergeOf(s: Settings, c: D.Child, allowBase: bool): Tree
    requires Wired(s) && Plan(c.lowers, s.daemon.policy, allowBase).Some?
  {
    Built(D.ContentsOf(c.disk, Plan(c.lowers, s.daemon.policy, allowBase).value.packs))
  }

  function CompactInfo(s: Settings, f: Format, c: D.Child, allowBase: bool): D.BuildInfo
    requires Wired(s)
  {
    if Plan(c.lowers, s.daemon.policy, allowBase).Some? then Info(f, MergeOf(s, c, allowBase)) else D.BuildInfo("", 0)
  }

  /** Plans, builds and publishes one compaction, if it goes ahead. */
  function CompactedLife(s: Settings, f: Format, l: Life, allowBase: bool): Life
    requires Wired(s)
  {
    var c := ChildOf(f, l);
    if !D.Compacts(s.daemon, c, allowBase) then l
    else
      var cand := Plan(c.lowers, s.daemon.policy, allowBase).value;
      var pack := D.CompactedPack(s.daemon, c, cand, CompactInfo(s, f, c, allowBase));
      match PublishPartialCompaction(c.lowers, cand.packs, pack, cand.target)
      case Err(_) => l
      case Ok(swap) =>
        l.(w := l.w.(hot := l.w.hot[D.OutputPath(s.daemon, c, cand) := f.encode(MergeOf(s, c, allowBase))],
                     manifest := l.w.manifest.(lowers := swap.lowers)))
  }

  function CommittedLife(s: Settings, f: Format, l: Life): Life
    requires Wired(s)
  {
    if !Dirty(l.upper) then l
    else
      var d := Sealed(s, f, l);
      if s.daemon.compactAfterCommit then CompactedLife(s, f, d, false) else d
  }

  function Step(s: Settings, f: Format, l: Life, op: Op): Life
    requires Wired(s)
  {
    match op
    case Write(upper) => l.(upper := upper)
    case CommitOp => CommittedLife(s, f, l)
    case CompactOp(allowBase) => CompactedLife(s, f, l, allowBase)
    case ArchiveOp(removeHot, text, n) =>
      if Dirty(l.upper) then l else l.(w := S.Step(s.cold, l.w, S.ArchiveEvent(removeHot, text, n)))
    case RecallOp(n) => l.(w := S.Step(s.cold, l.w, S.RecallEvent(n)))
  }

  function Run(s: Settings, f: Format, start: Life, ops: seq<Op>): Life
    requires Wired(s)
  {
    if ops == [] then start else Step(s, f, Run(s, f, start, ops[..|ops| - 1]), ops[|ops| - 1])
  }

  /** Users write layers; commits and compactions that go ahead find the child not cold. */
  predicate ValidOp(s: Settings, f: Format, l: Life, op: Op)
    requires Wired(s)
  {
    match op
    case Write(upper) => IsLayer(upper)
    case CommitOp => Dirty(l.upper) ==> !l.w.manifest.packState.Cold?
    case CompactOp(allowBase) => D.Compacts(s.daemon, ChildOf(f, l), allowBase) ==> !l.w.manifest.packState.Cold?
    case _ => true
  }

  predicate ValidRun(s: Settings, f: Format, start: Life, ops: seq<Op>)
    requires Wired(s)
  {
    ops != [] ==>
      && ValidRun(s, f, start, ops[..|ops| - 1])
      && ValidOp(s, f, Run(s, f, start, ops[..|ops| - 1]), ops[|ops| - 1])
  }

  // ---- the machine does what the daemon model and the cold model say ----

  ghost predicate LifeOk(s: Settings, f: Format, l: Life)
    requires Wired(s)
  {
    D.Good(s.daemon, ChildOf(f, l)) && C.Safe(l.w)
  }

  lemma StartIsOk(s: Settings, f: Format, l: Life)
    requires Wired(s) && IsNew(l)
    ensures LifeOk(s, f, l)
  {
    EmptyIsView();
  }

  /** The trees behind the packs are what their bytes read back as. */
  lemma ContentsRead(f: Format, l: Life)
    ensures D.ContentsOf(ChildOf(f, l).disk, l.w.manifest.lowers)
            == seq(|C.Contents(l.w)|, i requires 0 <= i < |C.Contents(l.w)| => f.extract(C.Contents(l.w)[i]))
  {
    var lowers := l.w.manifest.lowers;
    forall i | 0 <= i < |lowers| ensures lowers[i].path in ChildOf(f, l).disk {
      assert lowers[i].path in PathsOf(lowers);
    }
  }

  /** The delta pack of the next generation. */
  function NextDelta(s: Settings, f: Format, l: Life): Pack
    requires Wired(s)
  {
    D.DeltaPack(s.daemon, l.w.manifest.generation + 1, Info(f, l.upper))
  }

  /** The files of a child that is not cold, a new pack among them. */
  lemma AppendedDisk(f: Format, l: Life, pack: Pack, t: Tree)
    requires ReadsBack(f) && C.Safe(l.w) && !l.w.manifest.packState.Cold?
    ensures ChildOf(f, l.(w := S.Committed(l.w, pack, f.encode(t)))).disk == ChildOf(f, l).disk[pack.path := t]
  {
    var lowers := l.w.manifest.lowers;
    var x := l.(w := S.Committed(l.w, pack, f.encode(t)));
    AllHotPaths(l.w);
    PathsAppend(lowers, pack);
    assert x.w.hot.Keys + PathsOf(x.w.manifest.lowers) == l.w.hot.Keys + PathsOf(lowers) + {pack.path};
    var a, b := ChildOf(f, x).disk, ChildOf(f, l).disk[pack.path := t];
    assert a.Keys == b.Keys;
  }

  /** Sealing is the daemon model's commit, and writes a fresh pack file. */
  lemma SealedRefines(s: Settings, f: Format, l: Life)
    requires Wired(s) && ReadsBack(f) && LifeOk(s, f, l) && !l.w.manifest.packState.Cold?
    ensures ChildOf(f, Sealed(s, f, l)) == D.Committed(s.daemon, ChildOf(f, l), Info(f, l.upper))
  {
    AppendedDisk(f, l, NextDelta(s, f, l), l.upper);
    var pack := NextDelta(s, f, l);
    assert ChildOf(f, Sealed(s, f, l)).disk
           == ChildOf(f, l.(w := S.Committed(l.w, pack, f.encode(l.upper)))).disk;
  }

  lemma PathsAppend(lowers: seq<Pack>, pack: Pack)
    ensures PathsOf(lowers + [pack]) == PathsOf(lowers) + {pack.path}
  {
    var a := PathsOf(lowers + [pack]);
    forall p | p in PathsOf(lowers) ensures p in a {
      var i :| 0 <= i < |lowers| && lowers[i].path == p;
      assert (lowers + [pack])[i].path == p;
    }
    assert (lowers + [pack])[|lowers|] == pack;
  }

  /** While the child is not cold every pack file is there. */
  lemma AllHotPaths(w: C.World)
    requires C.Safe(w) && !w.manifest.packState.Cold?
    ensures PathsOf(w.manifest.lowers) <= w.hot.Keys
  {
  }

  lemma FreshByName(lowers: seq<Pack>, pack: Pack, name: string, dir: string)
    requires pack.path == InDir(dir, name) && NoChar(name, '/') && name != "manifest.toml"
    requires forall i | 0 <= i < |lowers| :: D.FreshFor(lowers[i], pack.path)
    ensures S.FreshPack(lowers, pack)
  {
    BasenameInDir(dir, name);
    forall p | p in lowers ensures !C.SameName(p, pack) {
      var i :| 0 <= i < |lowers| && lowers[i] == p;
    }
  }

  lemma SealedIsFresh(s: Settings, f: Format, l: Life)
    requires Wired(s) && D.Good(s.daemon, ChildOf(f, l))
    ensures S.FreshPack(l.w.manifest.lowers, NextDelta(s, f, l))
  {
    var pack, g := NextDelta(s, f, l), l.w.manifest.generation + 1;
    D.DeltaIsFresh(s.daemon, ChildOf(f, l));
    DeltaNameHasNoSlash(g);
    assert DeltaName(g)[0] == 'd';
    FreshByName(l.w.manifest.lowers, pack, DeltaName(g), s.daemon.packDir);
  }

  lemma SealedIsSafe(s: Settings, f: Format, l: Life)
    requires Wired(s) && LifeOk(s, f, l) && !l.w.manifest.packState.Cold?
    ensures C.Safe(Sealed(s, f, l).w) && !Sealed(s, f, l).w.manifest.packState.Cold?
  {
    SealedIsFresh(s, f, l);
    S.CommittedIsSafe(l.w, NextDelta(s, f, l), f.encode(l.upper));
  }

  lemma SealedIsOk(s: Settings, f: Format, l: Life)
    requires Wired(s) && ReadsBack(f) && LifeOk(s, f, l) && !l.w.manifest.packState.Cold?
    ensures LifeOk(s, f, Sealed(s, f, l)) && !Sealed(s, f, l).w.manifest.packState.Cold?
  {
    SealedRefines(s, f, l);
    SealedIsSafe(s, f, l);
    D.CommittedIsGood(s.daemon, ChildOf(f, l), Info(f, l.upper));
  }

  /** A compaction that goes ahead is the daemon model's, and writes a fresh pack file. */
  lemma CompactedRefines(s: Settings, f: Format, l: Life, allowBase: bool)
    requires Wired(s) && ReadsBack(f) && LifeOk(s, f, l)
    requires D.Compacts(s.daemon, ChildOf(f, l), allowBase) ==> !l.w.manifest.packState.Cold?
    ensures LifeOk(s, f, CompactedLife(s, f, l, allowBase))
    ensures ChildOf(f, CompactedLife(s, f, l, allowBase))
            == D.CompactedIfNeeded(s.daemon, ChildOf(f, l), allowBase, CompactInfo(s, f, ChildOf(f, l), allowBase))
  {
    var c := ChildOf(f, l);
    if D.Compacts(s.daemon, c, allowBase) {
      var info := CompactInfo(s, f, c, allowBase);
      var k := D.CompactionSteps(s.daemon, c, allowBase, info);
      var cand := Plan(c.lowers, s.daemon.policy, allowBase).value;
      var pack := D.MergedPack(s.daemon, c, k, cand.target, info);
      SwapRefines(f, l, k, pack, MergeOf(s, c, allowBase));
      SwapIsSafe(s, f, l, k, pack, MergeOf(s, c, allowBase));
      D.CompactedIfNeededIsGood(s.daemon, c, allowBase, info);
    }
  }

  /** The files and the manifest after packs k and newer were swapped for one. */
  function Swapped(f: Format, l: Life, k: nat, pack: Pack, t: Tree): Life
    requires k <= |l.w.manifest.lowers|
  {
    l.(w := l.w.(hot := l.w.hot[pack.path := f.encode(t)],
                 manifest := l.w.manifest.(lowers := l.w.manifest.lowers[..k] + [pack])))
  }

  lemma SwapRefines(f: Format, l: Life, k: nat, pack: Pack, t: Tree)
    requires ReadsBack(f) && C.Safe(l.w) && !l.w.manifest.packState.Cold? && k <= |l.w.manifest.lowers|
    ensures ChildOf(f, Swapped(f, l, k, pack, t)) == D.Replaced(ChildOf(f, l), k, pack, t)
  {
    var x, lowers := Swapped(f, l, k, pack, t), l.w.manifest.lowers;
    AllHotPaths(l.w);
    PathsAppend(lowers[..k], pack);
    forall p | p in PathsOf(lowers[..k]) ensures p in PathsOf(lowers) {
      var i :| 0 <= i < k && lowers[..k][i].path == p;
      assert lowers[i].path == p;
    }
    var a, b := ChildOf(f, x).disk, ChildOf(f, l).disk[pack.path := t];
    assert a.Keys == b.Keys;
    assert a == b;
  }

  lemma SwapIsSafe(s: Settings, f: Format, l: Life, k: nat, pack: Pack, t: Tree)
    requires Wired(s) && C.Safe(l.w) && !l.w.manifest.packState.Cold? && k < |l.w.manifest.lowers|
    requires pack.kind.Compact? && D.WellNamed(s.daemon, pack)
    requires pack.sha256 == Info(f, t).sha256 && pack.size == Info(f, t).size
    requires forall i | 0 <= i < |l.w.manifest.lowers| :: D.FreshFor(l.w.manifest.lowers[i], pack.path)
    ensures C.Safe(Swapped(f, l, k, pack, t).w)
  {
    var name := CompactName(pack.level, pack.generationMin, pack.generationMax);
    CompactNameHasNoSlash(pack.level, pack.generationMin, pack.generationMax);
    assert name[0] == 'c';
    FreshByName(l.w.manifest.lowers, pack, name, s.daemon.packDir);
    S.CompactedIsSafe(s.cold, l.w, k, pack, f.encode(t));
  }

  // ---- archives and recalls ----

  /** Packs recalled into the directory they were built in are where they were. */
  lemma PlacedInPlace(s: Settings, c: D.Child)
    requires Wired(s) && D.Good(s.daemon, c)
    ensures C.Placed(c.lowers, s.cold.hotDir, |c.lowers|) == c.lowers
  {
    forall i | 0 <= i < |c.lowers| ensures C.AtFinalPath(s.cold.hotDir, c.lowers[i]) == c.lowers[i] {
      var p := c.lowers[i];
      assert D.WellNamed(s.daemon, p);
      DeltaNameHasNoSlash(p.generationMax);
      CompactNameHasNoSlash(p.level, p.generationMin, p.generationMax);
      BasenameInDir(s.daemon.packDir, D.FileName(p));
    }
  }

  /** The child but for files no pack refers to. */
  predicate SameChild(c: D.Child, x: D.Child) {
    && x.generation == c.generation && x.revision == c.revision && x.lowers == c.lowers && x.upper == c.upper
    && (forall i | 0 <= i < |x.lowers| :: x.lowers[i].path in x.disk)
    && D.ContentsOf(x.disk, x.lowers) == D.ContentsOf(c.disk, c.lowers)
  }

  lemma SameChildIsGood(s: Settings, c: D.Child, x: D.Child)
    requires Wired(s) && D.Good(s.daemon, c) && SameChild(c, x)
    ensures D.Good(s.daemon, x)
  {
    forall i | 0 <= i < |x.lowers| ensures IsLayer(x.disk[x.lowers[i].path]) {
      assert D.ContentsOf(x.disk, x.lowers)[i] == D.ContentsOf(c.disk, c.lowers)[i];
    }
  }

  lemma ColdStepKeepsChild(s: Settings, f: Format, l: Life, e: S.Event)
    requires Wired(s) && LifeOk(s, f, l) && (e.ArchiveEvent? || e.RecallEvent?)
    ensures var x := l.(w := S.Step(s.cold, l.w, e));
            LifeOk(s, f, x) && SameChild(ChildOf(f, l), ChildOf(f, x))
  {
    var x := l.(w := S.Step(s.cold, l.w, e));
    S.ColdStepKeepsContents(s.cold, l.w, e);
    PlacedInPlace(s, ChildOf(f, l));
    ContentsRead(f, l);
    ContentsRead(f, x);
    forall i | 0 <= i < |x.w.manifest.lowers| ensures x.w.manifest.lowers[i].path in ChildOf(f, x).disk {
      assert x.w.manifest.lowers[i].path in PathsOf(x.w.manifest.lowers);
    }
    SameChildIsGood(s, ChildOf(f, l), ChildOf(f, x));
  }

  // ---- refinement ----

  /** The daemon model's operation for a write, a commit or a compaction. */
  function DaemonOp(s: Settings, f: Format, l: Life, op: Op): D.Op
    requires Wired(s) && !op.ArchiveOp? && !op.RecallOp?
  {
    match op
    case Write(upper) => D.Write(upper)
    case CommitOp =>
      D.CommitOp(Info(f, l.upper),
                 CompactInfo(s, f, D.Committed(s.daemon, ChildOf(f, l), Info(f, l.upper)), false))
    case CompactOp(allowBase) => D.CompactOp(allowBase, CompactInfo(s, f, ChildOf(f, l), allowBase))
  }

  lemma StepRefinesDaemon(s: Settings, f: Format, l: Life, op: Op)
    requires Wired(s) && ReadsBack(f) && LifeOk(s, f, l) && ValidOp(s, f, l, op)
    requires !op.ArchiveOp? && !op.RecallOp?
    ensures LifeOk(s, f, Step(s, f, l, op))
    ensures ChildOf(f, Step(s, f, l, op)) == D.Step(s.daemon, ChildOf(f, l), DaemonOp(s, f, l, op))
  {
    match op
    case Write(upper) =>
      assert ChildOf(f, l.(upper := upper)) == ChildOf(f, l).(upper := upper);
    case CommitOp => CommitRefines(s, f, l);
    case CompactOp(allowBase) => CompactedRefines(s, f, l, allowBase);
  }

  lemma CommitRefines(s: Settings, f: Format, l: Life)
    requires Wired(s) && ReadsBack(f) && LifeOk(s, f, l) && ValidOp(s, f, l, CommitOp)
    ensures LifeOk(s, f, CommittedLife(s, f, l))
    ensures ChildOf(f, CommittedLife(s, f, l)) == D.Step(s.daemon, ChildOf(f, l), DaemonOp(s, f, l, CommitOp))
  {
    if Dirty(l.upper) {
      SealedRefines(s, f, l);
      SealedIsOk(s, f, l);
      if s.daemon.compactAfterCommit {
        CompactedRefines(s, f, Sealed(s, f, l), false);
      }
    }
  }

  lemma StepIsOk(s: Settings, f: Format, l: Life, op: Op)
    requires Wired(s) && ReadsBack(f) && LifeOk(s, f, l) && ValidOp(s, f, l, op)
    ensures LifeOk(s, f, Step(s, f, l, op))
  {
    match op
    case ArchiveOp(removeHot, text, n) =>
      if !Dirty(l.upper) {
        ColdStepKeepsChild(s, f, l, S.ArchiveEvent(removeHot, text, n));
      }
    case RecallOp(n) => ColdStepKeepsChild(s, f, l, S.RecallEvent(n));
    case _ => StepRefinesDaemon(s, f, l, op);
  }

  /**
   Every run keeps all invariants of the daemon model and of cold storage: generation ranges, names and
   levels, and at every crash point every pack within reach.
   */
  lemma {:induction false} EveryLifeIsOk(s: Settings, f: Format, start: Life, ops: seq<Op>)
    requires Wired(s) && ReadsBack(f) && IsNew(start) && ValidRun(s, f, start, ops)
    ensures LifeOk(s, f, Run(s, f, start, ops)) && C.Recoverable(Run(s, f, start, ops).w)
    decreases |ops|
  {
    if ops == [] {
      StartIsOk(s, f, start);
    } else {
      EveryLifeIsOk(s, f, start, ops[..|ops| - 1]);
      StepIsOk(s, f, Run(s, f, start, ops[..|ops| - 1]), ops[|ops| - 1]);
    }
    C.SafeIsRecoverable(Run(s, f, start, ops).w);
  }

  /** Fresh outputs in all these runs: no build writes to a file of the stack, and archive keys never collide. */
  lemma LifeOutputsAreFresh(s: Settings, f: Format, start: Life, ops: seq<Op>, allowBase: bool)
    requires Wired(s) && ReadsBack(f) && IsNew(start) && ValidRun(s, f, start, ops)
    ensures D.FreshOutputs(s.daemon, ChildOf(f, Run(s, f, start, ops)), allowBase)
  {
    EveryLifeIsOk(s, f, start, ops);
    D.GoodOutputsAreFresh(s.daemon, ChildOf(f, Run(s, f, start, ops)), allowBase);
  }

  // ---- what readers see ----

  function LogStep(g: V.Log, op: Op): V.Log {
    match op
    case Write(upper) => g.(upper := upper)
    case CommitOp => if Dirty(g.upper) then V.Log(g.layers + [g.upper], EMPTY_TREE) else g
    case _ => g
  }

  function LogRun(ops: seq<Op>): V.Log {
    if ops == [] then V.Log([], EMPTY_TREE) else LogStep(LogRun(ops[..|ops| - 1]), ops[|ops| - 1])
  }

  /** A compaction that goes ahead loses nothing and uncovers nothing of the packs beneath. */
  predicate Faithful(s: Settings, f: Format, l: Life, op: Op)
    requires Wired(s)
  {
    !op.ArchiveOp? && !op.RecallOp? ==> V.FaithfulStep(s.daemon, ChildOf(f, l), DaemonOp(s, f, l, op))
  }

  predicate FaithfulRun(s: Settings, f: Format, start: Life, ops: seq<Op>)
    requires Wired(s)
  {
    ops != [] ==>
      && FaithfulRun(s, f, start, ops[..|ops| - 1])
      && Faithful(s, f, Run(s, f, start, ops[..|ops| - 1]), ops[|ops| - 1])
  }

  predicate FollowsLog(f: Format, l: Life, g: V.Log) {
    V.FollowsLog(ChildOf(f, l), g)
  }

  lemma StepFollowsLog(s: Settings, f: Format, l: Life, g: V.Log, op: Op)
    requires Wired(s) && ReadsBack(f) && LifeOk(s, f, l) && ValidOp(s, f, l, op) && FollowsLog(f, l, g)
    ensures FollowsLog(f, Step(s, f, l, op), LogStep(g, op)) <==> Faithful(s, f, l, op)
  {
    match op
    case ArchiveOp(removeHot, text, n) =>
      if !Dirty(l.upper) {
        ColdStepKeepsChild(s, f, l, S.ArchiveEvent(removeHot, text, n));
      }
    case RecallOp(n) => ColdStepKeepsChild(s, f, l, S.RecallEvent(n));
    case _ =>
      StepRefinesDaemon(s, f, l, op);
      V.StepRefinesLog(s.daemon, ChildOf(f, l), g, DaemonOp(s, f, l, op));
      SameLog(g, op, DaemonOp(s, f, l, op));
  }

  lemma SameLog(g: V.Log, op: Op, d: D.Op)
    requires || (op.Write? && d.Write? && d.upper == op.upper)
             || (op.CommitOp? && d.CommitOp?)
             || (op.CompactOp? && d.CompactOp?)
    ensures V.LogStep(g, d) == LogStep(g, op)
  {
  }

  /** At every moment of the run the child agrees with its log. */
  predicate AlwaysFollowsLog(s: Settings, f: Format, start: Life, ops: seq<Op>)
    requires Wired(s)
  {
    forall n | 0 <= n <= |ops| :: FollowsLog(f, Run(s, f, start, ops[..n]), LogRun(ops[..n]))
  }

  lemma AlwaysSnoc(s: Settings, f: Format, start: Life, ops: seq<Op>)
    requires Wired(s) && ops != []
    ensures AlwaysFollowsLog(s, f, start, ops) <==>
            && AlwaysFollowsLog(s, f, start, ops[..|ops| - 1])
            && FollowsLog(f, Run(s, f, start, ops), LogRun(ops))
  {
    var prior := ops[..|ops| - 1];
    assert ops[..|ops|] == ops;
    assert forall n | 0 <= n <= |prior| :: prior[..n] == ops[..n];
    forall n | 0 <= n <= |prior| && AlwaysFollowsLog(s, f, start, ops)
      ensures FollowsLog(f, Run(s, f, start, prior[..n]), LogRun(prior[..n]))
    {
      assert FollowsLog(f, Run(s, f, start, ops[..n]), LogRun(ops[..n]));
    }
    forall n | 0 <= n < |ops| && AlwaysFollowsLog(s, f, start, prior)
      ensures FollowsLog(f, Run(s, f, start, ops[..n]), LogRun(ops[..n]))
    {
      assert FollowsLog(f, Run(s, f, start, prior[..n]), LogRun(prior[..n]));
    }
  }

  lemma NewFollowsLog(f: Format, l: Life)
    requires IsNew(l)
    ensures FollowsLog(f, l, LogRun([]))
  {
    assert D.ContentsOf(ChildOf(f, l).disk, []) == [];
  }

  /**
   Over every run of writes, commits, compactions, archives and recalls, with crashes anywhere inside the
   last two: the visible tree is at every moment that of the log, if and only if no compaction of the run
   lost anything or uncovered anything of the packs beneath.
   */
  lemma {:induction false} LifeShowsLog(s: Settings, f: Format, start: Life, ops: seq<Op>)
    requires Wired(s) && ReadsBack(f) && IsNew(start) && ValidRun(s, f, start, ops)
    ensures FaithfulRun(s, f, start, ops) <==> AlwaysFollowsLog(s, f, start, ops)
    ensures FaithfulRun(s, f, start, ops) ==>
              && FollowsLog(f, Run(s, f, start, ops), LogRun(ops))
              && D.Visible(ChildOf(f, Run(s, f, start, ops))) == V.Shown(LogRun(ops))
    decreases |ops|
  {
    if ops == [] {
      NewFollowsLog(f, start);
      assert forall n | 0 <= n <= |ops| :: ops[..n] == [];
    } else {
      var prior := ops[..|ops| - 1];
      LifeShowsLog(s, f, start, prior);
      AlwaysSnoc(s, f, start, ops);
      EveryLifeIsOk(s, f, start, prior);
      if FaithfulRun(s, f, start, prior) {
        StepFollowsLog(s, f, Run(s, f, start, prior), LogRun(prior), ops[|ops| - 1]);
      }
    }
    V.FollowingShows(ChildOf(f, Run(s, f, start, ops)), LogRun(ops));
  }

  lemma {:induction false} LogLayers(s: Settings, f: Format, start: Life, ops: seq<Op>)
    requires Wired(s) && ValidRun(s, f, start, ops)
    ensures AreLayers(LogRun(ops).layers) && IsLayer(LogRun(ops).upper)
    decreases |ops|
  {
    EmptyIsView();
    if ops != [] {
      LogLayers(s, f, start, ops[..|ops| - 1]);
      var g := LogRun(ops[..|ops| - 1]);
      assert ValidOp(s, f, Run(s, f, start, ops[..|ops| - 1]), ops[|ops| - 1]);
      assert forall i | 0 <= i < |g.layers| :: (g.layers + [g.upper])[i] == g.layers[i];
    }
  }

  /** In the log everything but a write shows what was there. */
  lemma LogStepKeepsShown(g: V.Log, op: Op)
    requires AreLayers(g.layers) && IsLayer(g.upper) && !op.Write?
    ensures V.Shown(LogStep(g, op)) == V.Shown(g)
  {
    if op.CommitOp? && Dirty(g.upper) {
      AddingNothing(g.layers + [g.upper]);
    }
  }

  /** Of all operations only writes change the visible tree. */
  lemma OnlyWritesShow(s: Settings, f: Format, start: Life, ops: seq<Op>)
    requires Wired(s) && ReadsBack(f) && IsNew(start)
    requires ValidRun(s, f, start, ops) && FaithfulRun(s, f, start, ops)
    requires ops != [] && !ops[|ops| - 1].Write?
    ensures D.Visible(ChildOf(f, Run(s, f, start, ops)))
            == D.Visible(ChildOf(f, Run(s, f, start, ops[..|ops| - 1])))
  {
    LifeShowsLog(s, f, start, ops);
    LifeShowsLog(s, f, start, ops[..|ops| - 1]);
    LogLayers(s, f, start, ops[..|ops| - 1]);
    LogStepKeepsShown(LogRun(ops[..|ops| - 1]), ops[|ops| - 1]);
  }

  /**
   The read-only mount of the child shows the tree of the log's layers exactly if it stacks several packs
   or its only pack holds no marker.
   */
  lemma ReadOnlyMountSeesLog(s: Settings, f: Format, start: Life, ops: seq<Op>)
    requires Wired(s) && ReadsBack(f) && IsNew(start)
    requires ValidRun(s, f, start, ops) && FaithfulRun(s, f, start, ops)
    requires Run(s, f, start, ops).w.manifest.lowers != []
    ensures var c := ChildOf(f, Run(s, f, start, ops));
            var packs := D.ContentsOf(c.disk, c.lowers);
            Shows(ReadOnly(packs)) == View(LogRun(ops).layers) <==> |packs| > 1 || !HoldsMarker(packs[0])
  {
    var c := ChildOf(f, Run(s, f, start, ops));
    LifeShowsLog(s, f, start, ops);
    EveryLifeIsOk(s, f, start, ops);
    D.StoredLayers(c);
    ReadOnlyShowsView(D.ContentsOf(c.disk, c.lowers));
  }

  // ---- a discipline that needs no check at compaction time ----

  lemma TameStep(s: Settings, f: Format, l: Life, g: V.Log, op: Op)
    requires Wired(s) && ReadsBack(f) && LifeOk(s, f, l) && ValidOp(s, f, l, op)
    requires AreLayers(LogStep(g, op).layers) && Tame(LogStep(g, op).layers)
    requires V.Drawn(D.ContentsOf(ChildOf(f, l).disk, l.w.manifest.lowers), g.layers) && l.upper == g.upper
    ensures Faithful(s, f, l, op)
    ensures var x, k := Step(s, f, l, op), LogStep(g, op);
            V.Drawn(D.ContentsOf(ChildOf(f, x).disk, x.w.manifest.lowers), k.layers) && x.upper == k.upper
  {
    match op
    case ArchiveOp(removeHot, text, n) =>
      if !Dirty(l.upper) {
        ColdStepKeepsChild(s, f, l, S.ArchiveEvent(removeHot, text, n));
      }
    case RecallOp(n) => ColdStepKeepsChild(s, f, l, S.RecallEvent(n));
    case _ =>
      StepRefinesDaemon(s, f, l, op);
      V.TameStepFollowsLog(s.daemon, ChildOf(f, l), g, DaemonOp(s, f, l, op));
  }

  lemma {:induction false} TameLifeIsFaithful(s: Settings, f: Format, start: Life, ops: seq<Op>)
    requires Wired(s) && ReadsBack(f) && IsNew(start) && ValidRun(s, f, start, ops) && Tame(LogRun(ops).layers)
    ensures FaithfulRun(s, f, start, ops)
    ensures var x, g := Run(s, f, start, ops), LogRun(ops);
            V.Drawn(D.ContentsOf(ChildOf(f, x).disk, x.w.manifest.lowers), g.layers) && x.upper == g.upper
    decreases |ops|
  {
    if ops != [] {
      var prior, op := ops[..|ops| - 1], ops[|ops| - 1];
      LogLayers(s, f, start, ops);
      EveryLifeIsOk(s, f, start, prior);
      if LogRun(ops).layers != LogRun(prior).layers {
        V.TamePrefix(LogRun(prior).layers, [LogRun(prior).upper]);
      }
      TameLifeIsFaithful(s, f, start, prior);
      TameStep(s, f, Run(s, f, start, prior), LogRun(prior), op);
    }
  }

  /**
   If the uppers ever committed agree on which paths are directories and whiten out no name sorting before
   its whiteout, every life shows its log, whatever was compacted, archived and recalled, and when.
   */
  lemma TameLifeShowsLog(s: Settings, f: Format, start: Life, ops: seq<Op>)
    requires Wired(s) && ReadsBack(f) && IsNew(start) && ValidRun(s, f, start, ops) && Tame(LogRun(ops).layers)
    ensures D.Visible(ChildOf(f, Run(s, f, start, ops))) == V.Shown(LogRun(ops))
  {
    TameLifeIsFaithful(s, f, start, ops);
    LifeShowsLog(s, f, start, ops);
  }
}
