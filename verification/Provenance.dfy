/**
 Where the upper of a local-ssd-async child comes from and where it ends up: which publications are labelled
 with the generation their upper was written over, when a mount shows the child's pending state, and exactly
 which writes can still be committed, for the first time or again.
 */
module Provenance {
  import opened Trees
  import opened Layers
  import opened Folding
  import opened Packs
  import opened Writers
  import opened WriterRuns

  // ---- labels ----

  /** This upper is empty or was last written over generation g. */
  predicate MadeOver(w: World, u: Upper, g: nat) {
    u.tree == EMPTY_TREE || (u.write < |w.writes| && w.writes[u.write].generation == g)
  }

  /** The record a publication is of. */
  function RecordOf(w: World, s: Step): Snapshot
    requires Publishes(w, s)
  {
    PhaseOf(w, s.a).m
  }

  /** This step publishes a dirty upper. */
  predicate Publishes(w: World, s: Step) {
    && (s.Publish? || s.Unmount? || s.LatePublish?)
    && (if s.LatePublish? then PhaseOf(w, s.a).Picked? else PhaseOf(w, s.a).Mounted?)
    && Dirty(UpperOf(w, s.a.node))
  }

  /**
   A publication, late or not, labels its epoch with the generation of its record; the label is true exactly
   if that is the generation the node's upper was last written over.  An epoch on the present generation is
   the one a commit would take.
   */
  lemma PublicationLabels(start: World, steps: seq<Step>, s: Step)
    requires IsStart(start) && ValidRun(start, steps) && Publishes(Run(start, steps), s)
    ensures var w, x := Run(start, steps), Do(Run(start, steps), s);
            && x.mirror.Some? && x.mirror != w.mirror
            && x.mirror.value.tree == UpperOf(w, s.a.node) && x.mirror.value.base == RecordOf(w, s).generation
            && IsOf(x, x.mirror.value.tree, x.mirror.value.write)
            && (TrueLabel(x, x.mirror.value) <==> MadeOver(w, UpperAt(w, s.a.node), RecordOf(w, s).generation))
  {
    RunKeeps(start, steps);
    var w := Run(start, steps);
    assert UpperOk(w, UpperAt(w, s.a.node));
  }

  predicate WritesIn(steps: seq<Step>, a: Agent) {
    exists i | 0 <= i < |steps| :: steps[i].Write? && steps[i].a == a
  }

  /**
   From the moment a mount hydrates its upper until it unmounts, whatever others do: its publications are
   labelled truly if and only if it has written, or the upper it ended up with at hydration (the node's own,
   or else the mirror's) is empty or was written over the generation it had loaded.
   */
  lemma MountKeepsLabels(start: World, steps: seq<Step>, a: Agent, more: seq<Step>)
    requires IsStart(start) && ValidRun(start, steps) && PhaseOf(Run(start, steps), a).Hydrating?
    requires ValidRun(Do(Run(start, steps), Hydrate(a)), more)
    requires var w := Run(start, steps);
             var y := Run(Do(w, Hydrate(a)), more);
             PhaseOf(y, a).Mounted? && y.turn == w.turn
    ensures var w := Run(start, steps);
            var y := Run(Do(w, Hydrate(a)), more);
            var g := PhaseOf(w, a).m.generation;
            && PhaseOf(y, a).m == PhaseOf(w, a).m
            && (MadeOver(y, UpperAt(y, a.node), g) <==> WritesIn(more, a) || MadeOver(w, Hydrated(w, a.node), g))
  {
    RunKeeps(start, steps);
    var w := Run(start, steps);
    StepKeeps(w, Hydrate(a));
    MountIsKept(Do(w, Hydrate(a)), a, more);
  }

  lemma {:induction false} RunFromKeeps(w: World, steps: seq<Step>)
    requires Inv(w) && ValidRun(w, steps)
    ensures Inv(Run(w, steps))
    decreases |steps|
  {
    if steps != [] {
      RunFromKeeps(w, steps[..|steps| - 1]);
      StepKeeps(Run(w, steps[..|steps| - 1]), steps[|steps| - 1]);
    }
  }

  /**
   x comes after w by these steps: if the mount that agent a had in w still lasts, its snapshot is the same,
   and what its upper was written over is what it was unless it wrote.
   */
  predicate Lasts(w: World, a: Agent, more: seq<Step>, x: World)
    requires PhaseOf(w, a).Mounted?
  {
    var m := PhaseOf(w, a).m;
    && x.turn >= w.turn && (x.turn == w.turn ==> !PhaseOf(x, a).Hydrating?)
    && (x.turn == w.turn && PhaseOf(x, a).Mounted? ==>
          && PhaseOf(x, a).m == m
          && (MadeOver(x, UpperAt(x, a.node), m.generation)
              <==> WritesIn(more, a) || MadeOver(w, UpperAt(w, a.node), m.generation)))
  }

  lemma {:induction false} MountIsKept(w: World, a: Agent, more: seq<Step>)
    requires Inv(w) && PhaseOf(w, a).Mounted? && ValidRun(w, more)
    ensures Lasts(w, a, more, Run(w, more))
    decreases |more|
  {
    if more != [] {
      var prior, s := more[..|more| - 1], more[|more| - 1];
      MountIsKept(w, a, prior);
      RunFromKeeps(w, prior);
      StepIsKept(w, a, prior, Run(w, prior), s);
      assert prior + [s] == more;
    }
  }

  lemma StepIsKept(w: World, a: Agent, prior: seq<Step>, y: World, s: Step)
    requires PhaseOf(w, a).Mounted? && Lasts(w, a, prior, y) && Inv(y)
    ensures Lasts(w, a, prior + [s], Do(y, s))
  {
    MountLasts(y, a, s);
    WritesInSnoc(prior, s, a);
    if y.turn == w.turn && PhaseOf(y, a).Mounted? {
      if s.Write? && s.a == a {
        WritesHere(y, a, s.upper);
      } else {
        UpperStays(y, a, s);
      }
    }
  }

  lemma WritesInSnoc(steps: seq<Step>, s: Step, a: Agent)
    ensures WritesIn(steps + [s], a) <==> WritesIn(steps, a) || (s.Write? && s.a == a)
  {
    var all := steps + [s];
    if WritesIn(steps, a) {
      var i :| 0 <= i < |steps| && steps[i].Write? && steps[i].a == a;
      assert all[i] == steps[i];
    }
    if s.Write? && s.a == a {
      assert all[|steps|] == s;
    }
  }

  /** Turns only go up, and an agent gets to hydrate or mount in no old turn. */
  lemma MountLasts(w: World, a: Agent, s: Step)
    ensures var x := Do(w, s);
            && x.turn >= w.turn
            && (x.turn == w.turn && !PhaseOf(w, a).Hydrating? ==>
                  && !PhaseOf(x, a).Hydrating?
                  && (PhaseOf(x, a).Mounted? ==> PhaseOf(w, a).Mounted? && PhaseOf(x, a).m == PhaseOf(w, a).m))
  {
  }

  lemma QuietUppers(w: World, s: Step)
    requires !s.Write? && !s.Hydrate? && !s.CleanUpper?
    ensures Do(w, s).uppers == w.uppers && Do(w, s).writes == w.writes
  {
  }

  /** Only the mounted agent changes its node's upper. */
  lemma UpperStays(w: World, a: Agent, s: Step)
    requires Inv(w) && PhaseOf(w, a).Mounted? && !(s.Write? && s.a == a)
    ensures UpperAt(Do(w, s), a.node) == UpperAt(w, a.node) && Do(w, s).writes == w.writes
  {
    if s.Write? || s.Hydrate? || s.CleanUpper? {
      PhaseIsOk(w, a);
      PhaseIsOk(w, s.a);
      assert s.a == a || !Holding(PhaseOf(w, s.a));
    } else {
      QuietUppers(w, s);
    }
  }

  lemma WritesHere(w: World, a: Agent, upper: Tree)
    requires PhaseOf(w, a).Mounted?
    ensures var x := Do(w, Step.Write(a, upper));
            MadeOver(x, UpperAt(x, a.node), PhaseOf(w, a).m.generation)
  {
  }

  // ---- what a mount shows ----

  /** What an upper over a view shows at a path. */
  function Seen(v: Tree, upper: Tree, p: Path): Option<Entry> {
    if p in upper then Some(upper[p])
    else if p in v && !Hides(upper, p) then Some(v[p])
    else None
  }

  ghost predicate SameSeen(v: Tree, upper: Tree, u: Tree, other: Tree) {
    forall p :: !MarkerPath(p) ==> Seen(v, upper, p) == Seen(u, other, p)
  }

  /** The upper a commit would take now, if any. */
  function PendingUpper(w: World): Tree {
    if w.mirror.Some? && w.mirror.value.base == w.manifest.generation then w.mirror.value.tree else EMPTY_TREE
  }

  /**
   What a caller can look at before mounting: the present generation was loaded, and the node's own upper is
   empty or the tree of the mirror; without a mirror on the present generation, both are missing.
   */
  predicate InStep(w: World, node: nat, m: Snapshot) {
    && m.generation == w.manifest.generation
    && if w.mirror.Some? && w.mirror.value.base == w.manifest.generation
       then UpperOf(w, node) == EMPTY_TREE || UpperOf(w, node) == w.mirror.value.tree
       else UpperOf(w, node) == EMPTY_TREE && w.mirror.None?
  }

  /**
   A fresh mount shows the pending state of the child if and only if, path by path, the upper it ends up with
   shows over the loaded view what the pending upper shows over the committed one; in particular if the node
   is in step with the mirror.
   */
  lemma MountShowsPending(start: World, steps: seq<Step>, a: Agent)
    requires IsStart(start) && ValidRun(start, steps) && PhaseOf(Run(start, steps), a).Hydrating?
    ensures var w := Run(start, steps);
            var m := PhaseOf(w, a).m;
            var shown := View(m.lowers + [UpperOf(Do(w, Hydrate(a)), a.node)]);
            && (shown == Pending(w) <==>
                  SameSeen(View(m.lowers), Hydrated(w, a.node).tree, View(w.manifest.lowers), PendingUpper(w)))
            && (InStep(w, a.node, m) ==> shown == Pending(w))
  {
    RunKeeps(start, steps);
    var w := Run(start, steps);
    PhaseIsOk(w, a);
    HydratedShows(w, a.node, PhaseOf(w, a).m);
  }

  lemma HydratedShows(w: World, node: nat, m: Snapshot)
    requires Inv(w) && Current(w, m)
    ensures var shown := View(m.lowers + [Hydrated(w, node).tree]);
            && (shown == Pending(w) <==>
                  SameSeen(View(m.lowers), Hydrated(w, node).tree, View(w.manifest.lowers), PendingUpper(w)))
            && (InStep(w, node, m) ==> shown == Pending(w))
  {
    var u, v := Hydrated(w, node).tree, View(w.manifest.lowers);
    ViewSnoc(m.lowers, u);
    PendingIsApplied(w);
    SeenIsApplied(View(m.lowers), u, v, PendingUpper(w));
    if InStep(w, node, m) {
      assert u == PendingUpper(w) && View(m.lowers) == v;
    }
  }

  lemma PendingIsApplied(w: World)
    requires Inv(w)
    ensures Pending(w) == Apply(View(w.manifest.lowers), PendingUpper(w))
  {
    if PendingUpper(w) == EMPTY_TREE {
      EmptyIsView();
      AddingNothing(w.manifest.lowers);
      ViewSnoc(w.manifest.lowers, EMPTY_TREE);
    }
  }

  lemma SeenIsApplied(v: Tree, upper: Tree, u: Tree, other: Tree)
    ensures Apply(v, upper) == Apply(u, other) <==> SameSeen(v, upper, u, other)
  {
    var a, b := Apply(v, upper), Apply(u, other);
    if a == b {
      forall p | !MarkerPath(p) ensures Seen(v, upper, p) == Seen(u, other, p) {
        assert p in a <==> Seen(v, upper, p).Some?;
        assert p in b <==> Seen(u, other, p).Some?;
      }
    }
    if SameSeen(v, upper, u, other) {
      forall p ensures p in a <==> p in b ensures p in a ==> a[p] == b[p] {
        if !MarkerPath(p) {
          assert Seen(v, upper, p) == Seen(u, other, p);
        }
      }
      assert a.Keys == b.Keys;
    }
  }

  // ---- which writes can still be committed ----

  predicate MirrorHas(w: World, u: nat) {
    w.mirror.Some? && w.mirror.value.write == u
  }

  /** This node's upper is of write u. */
  predicate NodeHas(w: World, node: nat, u: nat) {
    UpperOf(w, node) != EMPTY_TREE && UpperAt(w, node).write == u
  }

  predicate CommitterHas(w: World, a: Agent, u: nat) {
    PhaseOf(w, a).Building? && PhaseOf(w, a).mirror.write == u
  }

  /** The upper of write u has something to commit and is still a node's, the mirror's, or about to be committed. */
  predicate Lives(w: World, u: nat)
    requires u < |w.writes|
  {
    && Dirty(w.writes[u].tree)
    && (MirrorHas(w, u)
        || (exists node | node in w.uppers :: NodeHas(w, node, u))
        || (exists a | a in w.phases :: CommitterHas(w, a, u)))
  }

  /** From w to x a commit was made of write u. */
  predicate CommitsWrite(w: World, x: World, u: nat) {
    exists i | |w.commits| <= i < |x.commits| :: x.commits[i].write == u
  }

  /** These further steps commit write u. */
  predicate IsCommittedBy(w: World, u: nat, more: seq<Step>) {
    ValidRun(w, more) && CommitsWrite(w, Run(w, more), u)
  }

  /**
   Whenever the lock is free: the upper of a write, committed before or not, can still be committed, if only
   by mounting and unmounting without another write, if and only if it lives.
   */
  lemma CommittableWhileItLives(start: World, steps: seq<Step>, u: nat)
    requires IsStart(start) && ValidRun(start, steps)
    requires Run(start, steps).lock.None? && u < |Run(start, steps).writes|
    ensures var w := Run(start, steps);
            Lives(w, u) <==> exists more :: IsCommittedBy(w, u, more)
  {
    RunKeeps(start, steps);
    WhileItLives(Run(start, steps), u);
  }

  lemma WhileItLives(w: World, u: nat)
    requires Inv(w) && w.lock.None? && u < |w.writes|
    ensures Lives(w, u) <==> exists more :: IsCommittedBy(w, u, more)
  {
    if Lives(w, u) {
      var more := CommitIt(w, u);
    }
    forall more | IsCommittedBy(w, u, more) ensures Lives(w, u) {
      OnlyLiveCommits(w, u, more);
    }
  }

  lemma OnlyLiveCommits(w: World, u: nat, more: seq<Step>)
    requires Inv(w) && u < |w.writes| && IsCommittedBy(w, u, more)
    ensures Lives(w, u)
  {
    if !Lives(w, u) {
      DeadStays(w, u, more);
    }
  }

  lemma CommitIt(w: World, u: nat) returns (more: seq<Step>)
    requires Inv(w) && w.lock.None? && u < |w.writes| && Lives(w, u)
    ensures IsCommittedBy(w, u, more)
  {
    var node := Carrier(w, u);
    var a := Agent(node, 0);
    more := [Vanish(a)] + RelabelSteps(a, a);
    CommitItIsValid(w, a);
    VanishAndRelabel(w, a);
  }

  lemma VanishAndRelabel(w: World, a: Agent)
    requires w.lock.None? && Dirty(Hydrated(w, a.node).tree)
    ensures CommitsWrite(w, Run(w, [Vanish(a)] + RelabelSteps(a, a)), Hydrated(w, a.node).write)
  {
    RunAppend(w, [Vanish(a)], RelabelSteps(a, a));
    RunOne(w, Vanish(a));
    Relabels(At(w, a, Idle), a, a);
    AddsIsCommit(w, At(w, a, Idle), Run(At(w, a, Idle), RelabelSteps(a, a)), Hydrated(w, a.node));
  }

  lemma AddsIsCommit(w: World, x: World, y: World, up: Upper)
    requires x.commits == w.commits && Adds(x, y, x.manifest.generation, up.tree, up.write)
    ensures CommitsWrite(w, y, up.write)
  {
    assert y.commits[|w.commits|].write == up.write;
  }

  lemma CommitItIsValid(w: World, a: Agent)
    ensures ValidRun(w, [Vanish(a)] + RelabelSteps(a, a))
  {
    PlainIsValid(w, [Vanish(a)] + RelabelSteps(a, a));
  }

  /** A node that has the upper, or would hydrate it. */
  lemma Carrier(w: World, u: nat) returns (node: nat)
    requires Inv(w) && w.lock.None? && u < |w.writes| && Lives(w, u)
    ensures Hydrated(w, node).write == u && Dirty(Hydrated(w, node).tree)
  {
    if n :| n in w.uppers && NodeHas(w, n, u) {
      assert UpperOk(w, w.uppers[n]);
      return n;
    }
    if a :| a in w.phases && CommitterHas(w, a, u) {
      assert PhaseOk(w, a);
    }
    node := Unused(w.uppers.Keys);
  }

  lemma Unused(s: set<nat>) returns (n: nat)
    ensures n !in s
  {
    n := 0;
    var rest := s;
    while rest != {}
      invariant forall x | x in s && x !in rest :: x < n
      decreases rest
    {
      var x :| x in rest;
      rest := rest - {x};
      n := if x < n then n else x + 1;
    }
  }

  /** From w to x write u, which does not live, has not been committed and has not come to life. */
  predicate StaysDead(w: World, u: nat, x: World) {
    && u < |w.writes| <= |x.writes| && |w.commits| <= |x.commits| && !Lives(x, u) && !CommitsWrite(w, x, u)
  }

  lemma {:induction false} DeadStays(w: World, u: nat, more: seq<Step>)
    requires Inv(w) && ValidRun(w, more) && u < |w.writes| && !Lives(w, u)
    ensures StaysDead(w, u, Run(w, more))
    decreases |more|
  {
    if more != [] {
      var prior := more[..|more| - 1];
      DeadStays(w, u, prior);
      RunFromKeeps(w, prior);
      DeadStep(w, u, Run(w, prior), more[|more| - 1]);
    }
  }

  lemma DeadStep(w: World, u: nat, x: World, s: Step)
    requires StaysDead(w, u, x) && Inv(x)
    ensures StaysDead(w, u, Do(x, s))
  {
    StepStaysDead(x, s, u);
    NoneAdded(w, x, Do(x, s), u);
  }

  lemma NoneAdded(w: World, x: World, y: World, u: nat)
    requires |w.commits| <= |x.commits| && !CommitsWrite(w, x, u)
    requires y.commits == x.commits || (|y.commits| == |x.commits| + 1 && y.commits[..|x.commits|] == x.commits
                                        && y.commits[|x.commits|].write != u)
    ensures |w.commits| <= |y.commits| && !CommitsWrite(w, y, u)
  {
    forall i | |w.commits| <= i < |y.commits| ensures y.commits[i].write != u {
      if i < |x.commits| {
        assert y.commits[i] == y.commits[..|x.commits|][i] == x.commits[i];
      }
    }
  }

  /** Nobody has write u. */
  ghost predicate Gone(w: World, u: nat) {
    !MirrorHas(w, u) && (forall node: nat :: !NodeHas(w, node, u)) && forall a: Agent :: !CommitterHas(w, a, u)
  }

  /** What has a write with nothing dirty in it can not be published, so it is never in a mirror. */
  lemma OnlyDirtyCommits(w: World, a: Agent, u: nat)
    requires Inv(w) && u < |w.writes| && !Lives(w, u)
    ensures !CommitterHas(w, a, u)
  {
    PhaseIsOk(w, a);
  }

  lemma GoneMeans(w: World, u: nat)
    requires u < |w.writes| && Dirty(w.writes[u].tree)
    ensures Gone(w, u) <==> !Lives(w, u)
  {
    forall node | NodeHas(w, node, u) ensures node in w.uppers {
    }
    forall a | CommitterHas(w, a, u) ensures a in w.phases {
    }
  }

  lemma StaysGone(w: World, s: Step, u: nat)
    requires Inv(w) && u < |w.writes| && Gone(w, u)
    ensures Gone(Do(w, s), u)
  {
    MirrorStaysGone(w, s, u);
    forall node ensures !NodeHas(Do(w, s), node, u) {
      NodeStaysGone(w, s, node, u);
    }
    forall a ensures !CommitterHas(Do(w, s), a, u) {
      CommitterStaysGone(w, s, a, u);
    }
  }

  lemma MirrorStaysGone(w: World, s: Step, u: nat)
    requires Gone(w, u)
    ensures !MirrorHas(Do(w, s), u)
  {
    if Publishes(w, s) {
      assert !NodeHas(w, s.a.node, u);
    }
  }

  lemma NodeStaysGone(w: World, s: Step, node: nat, u: nat)
    requires u < |w.writes| && Gone(w, u)
    ensures !NodeHas(Do(w, s), node, u)
  {
    assert !NodeHas(w, node, u);
    if !s.Write? && !s.Hydrate? && !s.CleanUpper? {
      QuietUppers(w, s);
    }
  }

  lemma CommitterStaysGone(w: World, s: Step, a: Agent, u: nat)
    requires Gone(w, u)
    ensures !CommitterHas(Do(w, s), a, u)
  {
    assert !CommitterHas(w, a, u);
  }

  lemma WritesGrow(w: World, s: Step)
    ensures w.writes <= Do(w, s).writes
  {
  }

  lemma CommitsGrow(w: World, s: Step)
    ensures var x := Do(w, s);
            x.commits == w.commits || (s.WriteManifest? && PhaseOf(w, s.a).Building?
                                       && x.commits == w.commits + [PhaseOf(w, s.a).mirror])
  {
  }

  lemma StepStaysDead(w: World, s: Step, u: nat)
    requires Inv(w) && u < |w.writes| && !Lives(w, u)
    ensures var x := Do(w, s);
            && w.writes <= x.writes && !Lives(x, u)
            && (x.commits == w.commits || (|x.commits| == |w.commits| + 1 && x.commits[..|w.commits|] == w.commits
                                           && x.commits[|w.commits|].write != u))
  {
    WritesGrow(w, s);
    CommitsGrow(w, s);
    if s.WriteManifest? {
      OnlyDirtyCommits(w, s.a, u);
    }
    if Dirty(w.writes[u].tree) {
      GoneMeans(w, u);
      StaysGone(w, s, u);
      GoneMeans(Do(w, s), u);
    }
  }

  /** A commit of the mirror, cut short or not, leaves its upper committable unless nobody else has it. */
  lemma CleanupDecides(w: World, b: Agent, cut: nat)
    requires Inv(w) && w.lock.None? && PhaseOf(w, b).Idle?
    requires w.mirror.Some? && w.mirror.value.base == w.manifest.generation
    ensures var u, x := w.mirror.value.write, Run(w, CommitSteps(b, cut));
            && |x.commits| == |w.commits| + 1 && x.commits[|w.commits|] == w.mirror.value && x.writes == w.writes
            && u < |x.writes|
            && (Lives(x, u) <==>
                  || cut == 0
                  || exists node | node in w.uppers :: NodeHas(w, node, u) && (cut == 1 || node != b.node))
  {
    Commits(w, b, cut);
    AfterCleanup(w, b, cut);
  }

  lemma AfterCleanup(w: World, b: Agent, cut: nat)
    requires Inv(w) && w.lock.None? && w.mirror.Some?
    ensures var u, x := w.mirror.value.write, CommittedBy(w, b, w.mirror.value, cut);
            && u < |x.writes| && x.writes == w.writes
            && (Lives(x, u) <==>
                  || cut == 0
                  || exists node | node in w.uppers :: NodeHas(w, node, u) && (cut == 1 || node != b.node))
  {
    var u, x := w.mirror.value.write, CommittedBy(w, b, w.mirror.value, cut);
    CommittedFacts(w, b, w.mirror.value, cut);
    NobodyCommits(w, x, b, u);
    HoldersAfter(w, x, b, cut, u);
    GoneMeans(x, u);
  }

  lemma NobodyCommits(w: World, x: World, b: Agent, u: nat)
    requires Inv(w) && w.lock.None? && forall c :: PhaseOf(x, c) == if c == b then Idle else PhaseOf(w, c)
    ensures forall a: Agent :: !CommitterHas(x, a, u)
  {
    forall a: Agent ensures !CommitterHas(x, a, u) {
      PhaseIsOk(w, a);
    }
  }

  lemma HoldersAfter(w: World, x: World, b: Agent, cut: nat, u: nat)
    requires forall n: nat :: UpperAt(x, n) == if n == b.node && cut >= 2 then NO_UPPER else UpperAt(w, n)
    ensures (exists node: nat :: NodeHas(x, node, u))
            <==> exists node | node in w.uppers :: NodeHas(w, node, u) && (cut <= 1 || node != b.node)
  {
    if node: nat :| NodeHas(x, node, u) {
      assert UpperAt(x, node) == UpperAt(w, node);
      assert node in w.uppers && NodeHas(w, node, u);
    }
    if node :| node in w.uppers && NodeHas(w, node, u) && (cut <= 1 || node != b.node) {
      assert UpperAt(x, node) == UpperAt(w, node);
      assert NodeHas(x, node, u);
    }
  }

  /** Of the commits of one upper only the first can be labelled truly. */
  lemma OnlyFirstCommitIsTrue(start: World, steps: seq<Step>, i: nat, j: nat)
    requires IsStart(start) && ValidRun(start, steps) && i < j < |Run(start, steps).commits|
    requires Run(start, steps).commits[i].write == Run(start, steps).commits[j].write
    ensures Run(start, steps).commits[j].write < |Run(start, steps).writes|
    ensures !TrueLabel(Run(start, steps), Run(start, steps).commits[j])
  {
    CommitsLandWhereWritten(start, steps);
    var w := Run(start, steps);
    assert LandsWhereLabelled(w, i) && LandsWhereLabelled(w, j);
  }
}
