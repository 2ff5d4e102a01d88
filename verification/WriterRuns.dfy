/**
 What the single-writer protocol does not prevent, as runs from a fresh child: publishing without the lock,
 committing an upper to a generation it was not written over, committing one upper twice, and replacing a newer
 mirror by an older upper.  Stretches that one agent makes undisturbed are put together to whole runs.
 */
module WriterRuns {
  import opened Trees
  import opened Layers
  import opened Packs
  import opened Writers

  // ---- putting runs together ----

  lemma {:induction false} RunAppend(w: World, a: seq<Step>, b: seq<Step>)
    ensures Run(w, a + b) == Run(Run(w, a), b)
    decreases |b|
  {
    if b == [] {
      assert a + b == a;
    } else {
      assert (a + b)[..|a + b| - 1] == a + b[..|b| - 1];
      RunAppend(w, a, b[..|b| - 1]);
    }
  }

  lemma RunOne(w: World, s: Step)
    ensures Run(w, [s]) == Do(w, s)
  {
    assert [s][..0] == [];
  }

  lemma RunTwo(w: World, s: Step, t: Step)
    ensures Run(w, [s, t]) == Do(Do(w, s), t)
  {
    RunOne(w, s);
    assert [s, t][..1] == [s];
  }

  lemma RunThree(w: World, a: seq<Step>, b: seq<Step>, c: seq<Step>)
    ensures Run(w, a + b + c) == Run(Run(Run(w, a), b), c)
  {
    RunAppend(w, a + b, c);
    RunAppend(w, a, b);
  }

  lemma RunFour(w: World, a: seq<Step>, b: seq<Step>, c: seq<Step>, d: seq<Step>)
    ensures Run(w, a + b + c + d) == Run(Run(Run(Run(w, a), b), c), d)
  {
    RunAppend(w, a + b + c, d);
    RunThree(w, a, b, c);
  }

  /** Nothing is compacted, and users write layers. */
  predicate PlainStep(s: Step) {
    !s.Compact? && (s.Write? ==> IsLayer(s.upper))
  }

  predicate Plain(steps: seq<Step>) {
    forall s | s in steps :: PlainStep(s)
  }

  lemma PlainAppend(a: seq<Step>, b: seq<Step>)
    requires Plain(a) && Plain(b)
    ensures Plain(a + b)
  {
  }

  lemma {:induction false} PlainIsValid(w: World, steps: seq<Step>)
    requires Plain(steps)
    ensures ValidRun(w, steps)
    decreases |steps|
  {
    if steps != [] {
      assert PlainStep(steps[|steps| - 1]);
      PlainIsValid(w, steps[..|steps| - 1]);
    }
  }

  // ---- stretches of a run that one agent makes undisturbed ----

  function MountSteps(a: Agent): seq<Step> {
    [Load(a), Acquire(a)] + [Hydrate(a)]
  }

  function WriteSteps(a: Agent, upper: Tree): seq<Step> {
    MountSteps(a) + [Step.Write(a, upper)]
  }

  function LeaveSteps(a: Agent): seq<Step> {
    [Unmount(a), Release(a)]
  }

  /** Cleaning up after a commit, cut short by an exception before the first or the second removal, or whole. */
  function CleanupSteps(b: Agent, cut: nat): seq<Step> {
    if cut == 0 then [CommitFails(b)]
    else if cut == 1 then [CleanMirror(b), CommitFails(b)]
    else [CleanMirror(b), CleanUpper(b)] + [EndCommit(b)]
  }

  function CommitSteps(b: Agent, cut: nat): seq<Step> {
    [BeginCommit(b), ReadMirror(b)] + [WriteManifest(b)] + CleanupSteps(b, cut)
  }

  /** A mounted agent, from a world without a lock. */
  function MountedBy(w: World, a: Agent): World {
    At(w, a, Mounted(w.manifest)).(lock := Some(a), turn := w.turn + 1,
                                   uppers := w.uppers[a.node := Hydrated(w, a.node)])
  }

  lemma Mounts(w: World, a: Agent)
    requires w.lock.None? && PhaseOf(w, a).Idle?
    ensures Run(w, MountSteps(a)) == MountedBy(w, a)
  {
    RunTwo(w, Load(a), Acquire(a));
    RunAppend(w, [Load(a), Acquire(a)], [Hydrate(a)]);
    var x := Do(w, Load(a));
    assert x == At(w, a, Loaded(w.manifest));
    Takes(x, a);
    assert w.phases[a := Loaded(w.manifest)][a := Mounted(w.manifest)] == w.phases[a := Mounted(w.manifest)];
  }

  /** Taking the lock and hydrating, from a loaded manifest. */
  lemma Takes(w: World, a: Agent)
    requires w.lock.None? && PhaseOf(w, a).Loaded?
    ensures Run(Do(w, Acquire(a)), [Hydrate(a)])
            == At(w, a, Mounted(PhaseOf(w, a).m)).(lock := Some(a), turn := w.turn + 1,
                                                   uppers := w.uppers[a.node := Hydrated(w, a.node)])
  {
    var m := PhaseOf(w, a).m;
    var y := Do(w, Acquire(a));
    assert y == Locked(w, a, Hydrating(m));
    RunOne(y, Hydrate(a));
    assert w.phases[a := Hydrating(m)][a := Mounted(m)] == w.phases[a := Mounted(m)];
  }

  function WrittenOver(m: Snapshot, upper: Tree): Written {
    Written(m.generation, upper, View(m.lowers + [upper]))
  }

  lemma MountsAndWrites(w: World, a: Agent, upper: Tree)
    requires w.lock.None? && PhaseOf(w, a).Idle?
    ensures Run(w, WriteSteps(a, upper))
            == Wrote(w, a, w.manifest, upper)
  {
    Mounts(w, a);
    RunAppend(w, MountSteps(a), [Step.Write(a, upper)]);
    RunOne(Run(w, MountSteps(a)), Step.Write(a, upper));
    assert w.uppers[a.node := Hydrated(w, a.node)][a.node := Upper(upper, |w.writes|)]
           == w.uppers[a.node := Upper(upper, |w.writes|)];
  }

  /** The epoch a writer with this snapshot leaves behind. */
  function Epoch(w: World, a: Agent, m: Snapshot): Mirror {
    Mirror(w.published, m.generation, UpperOf(w, a.node), View(m.lowers), UpperAt(w, a.node).write)
  }

  /** An unmounted writer: what is dirty is published, and the lock is gone. */
  function LeftBy(w: World, a: Agent, m: Snapshot): World {
    var x := At(w, a, Idle).(lock := None, released := w.released + {w.turn});
    if Dirty(UpperOf(w, a.node)) then x.(published := w.published + 1, mirror := Some(Epoch(w, a, m))) else x
  }

  lemma Leaves(w: World, a: Agent)
    requires PhaseOf(w, a).Mounted?
    ensures Run(w, LeaveSteps(a)) == LeftBy(w, a, PhaseOf(w, a).m)
  {
    var m := PhaseOf(w, a).m;
    RunTwo(w, Unmount(a), Release(a));
    var x := At(Published(w, a.node, m), a, Draining(m));
    assert Do(w, Unmount(a)) == x;
    assert x.phases[a := Idle] == w.phases[a := Idle];
  }

  /** A session of one agent: it mounts, writes and leaves. */
  function SessionSteps(a: Agent, upper: Tree): seq<Step> {
    WriteSteps(a, upper) + LeaveSteps(a)
  }

  function AfterSession(w: World, a: Agent, upper: Tree): World {
    var m := w.manifest;
    At(w, a, Idle).(turn := w.turn + 1, released := w.released + {w.turn + 1}, published := w.published + 1,
                    mirror := Some(Mirror(w.published, m.generation, upper, View(m.lowers), |w.writes|)),
                    uppers := w.uppers[a.node := Upper(upper, |w.writes|)],
                    writes := w.writes + [WrittenOver(m, upper)])
  }

  /** A writer with this snapshot mounted and this upper written, from a world without a lock. */
  function Wrote(w: World, a: Agent, m: Snapshot, upper: Tree): World {
    At(w, a, Mounted(m)).(lock := Some(a), turn := w.turn + 1, uppers := w.uppers[a.node := Upper(upper, |w.writes|)],
                          writes := w.writes + [WrittenOver(m, upper)])
  }

  lemma LeavesWritten(w: World, a: Agent, upper: Tree)
    requires w.lock.None? && Dirty(upper)
    ensures LeftBy(Wrote(w, a, w.manifest, upper), a, w.manifest) == AfterSession(w, a, upper)
  {
    assert w.phases[a := Mounted(w.manifest)][a := Idle] == w.phases[a := Idle];
  }

  lemma Session(w: World, a: Agent, upper: Tree)
    requires w.lock.None? && PhaseOf(w, a).Idle? && Dirty(upper)
    ensures Run(w, SessionSteps(a, upper)) == AfterSession(w, a, upper)
  {
    RunAppend(w, WriteSteps(a, upper), LeaveSteps(a));
    MountsAndWrites(w, a, upper);
    Leaves(Wrote(w, a, w.manifest, upper), a);
    LeavesWritten(w, a, upper);
  }

  /** A commit of this mirror, undisturbed but for its cut. */
  function CommittedBy(w: World, b: Agent, mirror: Mirror, cut: nat): World {
    var lowers := w.manifest.lowers + [mirror.tree];
    At(w, b, Idle).(
      turn := w.turn + 1, released := w.released + {w.turn + 1},
      manifest := Snapshot(w.manifest.generation + 1, lowers),
      mirror := if cut == 0 then w.mirror else None,
      uppers := if cut <= 1 then w.uppers else w.uppers[b.node := NO_UPPER],
      history := w.history + [View(lowers)], commits := w.commits + [mirror])
  }

  lemma BeginsCommit(w: World, b: Agent)
    requires w.lock.None? && PhaseOf(w, b).Idle? && w.mirror.Some? && w.mirror.value.base == w.manifest.generation
    ensures Run(w, [BeginCommit(b), ReadMirror(b)]) == Locked(w, b, Building(w.mirror.value, w.manifest))
  {
    RunTwo(w, BeginCommit(b), ReadMirror(b));
    var x := Locked(w, b, Committing);
    assert Do(w, BeginCommit(b)) == x;
    assert x.phases[b := Building(w.mirror.value, w.manifest)] == w.phases[b := Building(w.mirror.value, w.manifest)];
  }

  /** What a cleanup that was cut after so many removals leaves. */
  function CleanedUp(w: World, b: Agent, cut: nat): World {
    At(w, b, Idle).(lock := None, released := w.released + {w.turn},
                    mirror := if cut == 0 then w.mirror else None,
                    uppers := if cut <= 1 then w.uppers else w.uppers[b.node := NO_UPPER])
  }

  lemma FailsNow(w: World, b: Agent)
    requires PhaseOf(w, b).Cleaning? || PhaseOf(w, b).Sweeping?
    ensures Do(w, CommitFails(b)) == Unlocked(w, b)
  {
  }

  lemma CutOnce(w: World, b: Agent)
    requires PhaseOf(w, b).Cleaning?
    ensures Unlocked(RemoveMirror(w, b), b) == CleanedUp(w, b, 1)
  {
    assert w.phases[b := Sweeping][b := Idle] == w.phases[b := Idle];
  }

  lemma Uncut(w: World, b: Agent)
    requires PhaseOf(w, b).Cleaning?
    ensures PhaseOf(RemoveUpper(RemoveMirror(w, b), b), b).Closing?
    ensures Unlocked(RemoveUpper(RemoveMirror(w, b), b), b) == CleanedUp(w, b, 2)
  {
    assert w.phases[b := Sweeping][b := Closing][b := Idle] == w.phases[b := Idle];
  }

  lemma CleansUp(w: World, b: Agent, cut: nat)
    requires PhaseOf(w, b).Cleaning?
    ensures Run(w, CleanupSteps(b, cut)) == CleanedUp(w, b, cut)
  {
    if cut == 0 {
      RunOne(w, CommitFails(b));
      FailsNow(w, b);
    } else if cut == 1 {
      RunTwo(w, CleanMirror(b), CommitFails(b));
      FailsNow(RemoveMirror(w, b), b);
      CutOnce(w, b);
    } else {
      CleansUpWhole(w, b);
    }
  }

  lemma CleansUpWhole(w: World, b: Agent)
    requires PhaseOf(w, b).Cleaning?
    ensures Run(w, CleanupSteps(b, 2)) == CleanedUp(w, b, 2)
  {
    RunAppend(w, [CleanMirror(b), CleanUpper(b)], [EndCommit(b)]);
    RunTwo(w, CleanMirror(b), CleanUpper(b));
    RunOne(RemoveUpper(RemoveMirror(w, b), b), EndCommit(b));
    Uncut(w, b);
  }

  lemma FinishesCommit(w: World, b: Agent, cut: nat)
    requires PhaseOf(w, b).Building? && w.lock == Some(b)
    ensures var mirror, m := PhaseOf(w, b).mirror, PhaseOf(w, b).m;
            var lowers := m.lowers + [mirror.tree];
            Run(Run(w, [WriteManifest(b)]), CleanupSteps(b, cut))
            == CleanedUp(w, b, cut).(manifest := Snapshot(m.generation + 1, lowers),
                                     history := w.history + [View(lowers)], commits := w.commits + [mirror])
  {
    RunOne(w, WriteManifest(b));
    var x := WriteCommit(w, b);
    CleansUp(x, b, cut);
    assert x.phases[b := Idle] == w.phases[b := Idle];
  }

  lemma Commits(w: World, b: Agent, cut: nat)
    requires w.lock.None? && PhaseOf(w, b).Idle? && w.mirror.Some? && w.mirror.value.base == w.manifest.generation
    ensures Run(w, CommitSteps(b, cut)) == CommittedBy(w, b, w.mirror.value, cut)
  {
    BeginsCommit(w, b);
    RunThree(w, [BeginCommit(b), ReadMirror(b)], [WriteManifest(b)], CleanupSteps(b, cut));
    var x := Run(w, [BeginCommit(b), ReadMirror(b)]);
    FinishesCommit(x, b, cut);
    assert x.phases[b := Idle] == w.phases[b := Idle];
  }

  /** Without a mirror on the present generation a commit changes nothing but the lock's turn. */
  lemma CommitGivesUp(w: World, b: Agent, cut: nat)
    requires w.lock.None? && PhaseOf(w, b).Idle?
    requires w.mirror.None? || w.mirror.value.base != w.manifest.generation
    ensures Run(w, CommitSteps(b, cut)) == At(w, b, Idle).(turn := w.turn + 1, released := w.released + {w.turn + 1})
  {
    RunThree(w, [BeginCommit(b), ReadMirror(b)], [WriteManifest(b)], CleanupSteps(b, cut));
    BeginsInVain(w, b);
    IdleCommit(Run(w, [BeginCommit(b), ReadMirror(b)]), b, cut);
  }

  lemma BeginsInVain(w: World, b: Agent)
    requires w.lock.None? && PhaseOf(w, b).Idle?
    requires w.mirror.None? || w.mirror.value.base != w.manifest.generation
    ensures Run(w, [BeginCommit(b), ReadMirror(b)])
            == At(w, b, Idle).(turn := w.turn + 1, released := w.released + {w.turn + 1})
  {
    RunTwo(w, BeginCommit(b), ReadMirror(b));
    var x := Locked(w, b, Committing);
    BeginsOnly(w, b);
    ReadsInVain(x, b);
    LockedAndUnlocked(w, b);
  }

  lemma LockedAndUnlocked(w: World, b: Agent)
    requires w.lock.None?
    ensures Unlocked(Locked(w, b, Committing), b)
            == At(w, b, Idle).(turn := w.turn + 1, released := w.released + {w.turn + 1})
  {
    assert w.phases[b := Committing][b := Idle] == w.phases[b := Idle];
  }

  lemma BeginsOnly(w: World, b: Agent)
    requires w.lock.None? && PhaseOf(w, b).Idle?
    ensures Do(w, BeginCommit(b)) == Locked(w, b, Committing)
  {
  }

  lemma ReadsInVain(w: World, b: Agent)
    requires PhaseOf(w, b).Committing? && (w.mirror.None? || w.mirror.value.base != w.manifest.generation)
    ensures Do(w, ReadMirror(b)) == Unlocked(w, b)
  {
  }

  /** A committer that is not at work does nothing. */
  lemma IdleSteps(w: World, b: Agent)
    requires PhaseOf(w, b).Idle?
    ensures Do(w, WriteManifest(b)) == w && Do(w, CommitFails(b)) == w
    ensures Do(w, CleanMirror(b)) == w && Do(w, CleanUpper(b)) == w && Do(w, EndCommit(b)) == w
  {
  }

  lemma IdleCommit(w: World, b: Agent, cut: nat)
    requires PhaseOf(w, b).Idle?
    ensures Run(Run(w, [WriteManifest(b)]), CleanupSteps(b, cut)) == w
  {
    IdleSteps(w, b);
    RunOne(w, WriteManifest(b));
    if cut == 0 {
      RunOne(w, CommitFails(b));
    } else if cut == 1 {
      RunTwo(w, CleanMirror(b), CommitFails(b));
    } else {
      RunTwo(w, CleanMirror(b), CleanUpper(b));
      RunAppend(w, [CleanMirror(b), CleanUpper(b)], [EndCommit(b)]);
      RunOne(w, EndCommit(b));
    }
  }

  // ---- these stretches are plain ----

  lemma MountIsPlain(a: Agent)
    ensures Plain(MountSteps(a)) && Plain(LeaveSteps(a))
  {
  }

  lemma SessionIsPlain(a: Agent, upper: Tree)
    requires IsLayer(upper)
    ensures Plain(WriteSteps(a, upper)) && Plain(SessionSteps(a, upper))
  {
    MountIsPlain(a);
    PlainAppend(MountSteps(a), [Step.Write(a, upper)]);
    PlainAppend(WriteSteps(a, upper), LeaveSteps(a));
  }

  lemma CommitIsPlain(b: Agent, cut: nat)
    ensures Plain(CommitSteps(b, cut))
  {
    assert Plain([BeginCommit(b), ReadMirror(b)] + [WriteManifest(b)]) && Plain(CleanupSteps(b, cut));
    PlainAppend([BeginCommit(b), ReadMirror(b)] + [WriteManifest(b)], CleanupSteps(b, cut));
  }

  // ---- a publication without the lock ----

  function NonHolderSteps(a: Agent, c: Agent, b: Agent, upper: Tree): seq<Step> {
    WriteSteps(a, upper) + [PickUp(c, a)] + LeaveSteps(a) + [Load(b), Acquire(b)]
  }

  lemma NonHolderIsValid(start: World, a: Agent, c: Agent, b: Agent, upper: Tree)
    requires IsLayer(upper)
    ensures ValidRun(start, NonHolderSteps(a, c, b, upper))
  {
    SessionIsPlain(a, upper);
    MountIsPlain(a);
    PlainAppend(WriteSteps(a, upper), [PickUp(c, a)]);
    PlainAppend(WriteSteps(a, upper) + [PickUp(c, a)], LeaveSteps(a));
    PlainAppend(WriteSteps(a, upper) + [PickUp(c, a)] + LeaveSteps(a), [Load(b), Acquire(b)]);
    PlainIsValid(start, NonHolderSteps(a, c, b, upper));
  }

  /**
   From a fresh child: a writer mounts and writes, a publishing thread picks its record up, the writer
   unmounts, another node takes the lock; the thread then replaces the mirror although the lock is the other
   node's and its own heartbeat raises.
   */
  lemma PublishesWithoutLock(start: World, a: Agent, c: Agent, b: Agent, upper: Tree)
    requires IsStart(start) && IsLayer(upper) && Dirty(upper)
    requires a != c && a != b && b != c && a.node == c.node
    ensures var steps := NonHolderSteps(a, c, b, upper);
            var w := Run(start, steps);
            && ValidRun(start, steps)
            && PhaseOf(w, c).Picked? && !Heartbeat(w, PhaseOf(w, c).turn)
            && w.lock == Some(b) && Holding(PhaseOf(w, b))
            && Do(w, LatePublish(c)).mirror != w.mirror
  {
    NonHolderIsValid(start, a, c, b, upper);
    var w := LeftPicked(start, a, c, b, upper);
    RunAppend(start, WriteSteps(a, upper) + [PickUp(c, a)] + LeaveSteps(a), [Load(b), Acquire(b)]);
    TakenElsewhere(w, a, b, c, upper);
  }

  lemma LeftPicked(start: World, a: Agent, c: Agent, b: Agent, upper: Tree) returns (w: World)
    requires IsStart(start) && Dirty(upper) && a != c && a != b && b != c && a.node == c.node
    ensures w == Run(start, WriteSteps(a, upper) + [PickUp(c, a)] + LeaveSteps(a))
    ensures w.lock.None? && PhaseOf(w, b).Idle? && PhaseOf(w, c).Picked? && PhaseOf(w, c).turn in w.released
    ensures UpperOf(w, c.node) == upper && w.mirror.Some? && w.mirror.value.uid < w.published
  {
    RunThree(start, WriteSteps(a, upper), [PickUp(c, a)], LeaveSteps(a));
    MountsAndWrites(start, a, upper);
    var x := Wrote(start, a, start.manifest, upper);
    WroteFacts(start, a, start.manifest, upper);
    LeavesPicked(x, a, c);
    PickedFacts(x, a, c, start.manifest);
    PickedMirror(x, a, c, start.manifest);
    w := PickedAndLeft(x, a, c, start.manifest);
    SameUpper(w, x, c.node);
  }

  lemma WroteFacts(w: World, a: Agent, m: Snapshot, upper: Tree)
    ensures var x := Wrote(w, a, m, upper);
            && (forall b :: PhaseOf(x, b) == if b == a then Mounted(m) else PhaseOf(w, b))
            && UpperAt(x, a.node) == Upper(upper, |w.writes|) && x.published == w.published
  {
  }

  lemma SameUpper(w: World, x: World, node: nat)
    requires w.uppers == x.uppers
    ensures UpperAt(w, node) == UpperAt(x, node)
  {
  }

  lemma TakenElsewhere(w: World, a: Agent, b: Agent, c: Agent, upper: Tree)
    requires w.lock.None? && PhaseOf(w, b).Idle? && PhaseOf(w, c).Picked? && PhaseOf(w, c).turn in w.released
    requires b != c && UpperOf(w, c.node) == upper && Dirty(upper)
    requires w.mirror.Some? && w.mirror.value.uid < w.published
    ensures var x := Run(w, [Load(b), Acquire(b)]);
            && PhaseOf(x, c).Picked? && !Heartbeat(x, PhaseOf(x, c).turn)
            && x.lock == Some(b) && Holding(PhaseOf(x, b))
            && Do(x, LatePublish(c)).mirror != x.mirror
  {
    RunTwo(w, Load(b), Acquire(b));
    OtherTakes(w, b);
  }

  lemma OtherTakes(w: World, b: Agent)
    requires w.lock.None? && PhaseOf(w, b).Idle?
    ensures Do(Do(w, Load(b)), Acquire(b))
            == At(w, b, Hydrating(w.manifest)).(lock := Some(b), turn := w.turn + 1)
  {
    var x := At(w, b, Loaded(w.manifest));
    assert Do(w, Load(b)) == x;
    assert x.phases[b := Hydrating(w.manifest)] == w.phases[b := Hydrating(w.manifest)];
  }

  /** A writer whose record was picked up leaves. */
  function PickedAndLeft(w: World, a: Agent, c: Agent, m: Snapshot): World {
    LeftBy(At(w, c, Picked(a, w.turn, m)), a, m)
  }

  lemma LeavesPicked(w: World, a: Agent, c: Agent)
    requires PhaseOf(w, a).Mounted? && PhaseOf(w, c).Idle? && a != c && a.node == c.node
    ensures Run(Run(w, [PickUp(c, a)]), LeaveSteps(a)) == PickedAndLeft(w, a, c, PhaseOf(w, a).m)
  {
    RunOne(w, PickUp(c, a));
    var y := At(w, c, Picked(a, w.turn, PhaseOf(w, a).m));
    assert Run(w, [PickUp(c, a)]) == y;
    Leaves(y, a);
  }

  lemma PickedFacts(w: World, a: Agent, c: Agent, m: Snapshot)
    requires a != c
    ensures var x := PickedAndLeft(w, a, c, m);
            && x.lock.None? && x.released == w.released + {w.turn} && x.turn == w.turn
            && x.uppers == w.uppers && x.writes == w.writes && x.manifest == w.manifest && x.commits == w.commits
            && PhaseOf(x, c) == Picked(a, w.turn, m)
            && (forall b | b != a && b != c :: PhaseOf(x, b) == PhaseOf(w, b))
  {
  }

  lemma PickedMirror(w: World, a: Agent, c: Agent, m: Snapshot)
    ensures var x := PickedAndLeft(w, a, c, m);
            if Dirty(UpperOf(w, a.node)) then x.mirror.Some? && x.mirror.value.uid == w.published < x.published
            else x.mirror == w.mirror
  {
  }

  // ---- a writer that loaded too early ----

  function StaleSteps(a: Agent, b: Agent, upper: Tree): seq<Step> {
    [Load(a)] + SessionSteps(b, upper) + CommitSteps(b, 2)
  }

  lemma StaleIsPlain(a: Agent, b: Agent, upper: Tree)
    requires IsLayer(upper)
    ensures Plain(StaleSteps(a, b, upper))
  {
    SessionIsPlain(b, upper);
    CommitIsPlain(b, 2);
    PlainAppend([Load(a)], SessionSteps(b, upper));
    PlainAppend([Load(a)] + SessionSteps(b, upper), CommitSteps(b, 2));
  }

  lemma StaleIsValid(start: World, a: Agent, b: Agent, upper: Tree)
    requires IsLayer(upper)
    ensures ValidRun(start, StaleSteps(a, b, upper))
  {
    StaleIsPlain(a, b, upper);
    PlainIsValid(start, StaleSteps(a, b, upper));
  }

  /** From a fresh child: one agent loads the manifest, another writes and commits before it takes the lock. */
  lemma StaleLoadHappens(start: World, a: Agent, b: Agent, upper: Tree)
    requires IsStart(start) && IsLayer(upper) && Dirty(upper) && a != b
    ensures var w := Run(start, StaleSteps(a, b, upper));
            && ValidRun(start, StaleSteps(a, b, upper))
            && w.lock.None? && PhaseOf(w, a).Loaded? && PhaseOf(w, a).m.generation < w.manifest.generation
  {
    StaleIsValid(start, a, b, upper);
    var w := StaleState(start, a, b, upper);
  }

  /** The child after that. */
  function Stale(start: World, a: Agent, b: Agent, upper: Tree): World {
    var x := AfterSession(At(start, a, Loaded(start.manifest)), b, upper);
    CommittedBy(x, b, x.mirror.value, 2)
  }

  lemma SessionFacts(w: World, b: Agent, upper: Tree)
    requires w.lock.None?
    ensures var x := AfterSession(w, b, upper);
            && x.lock.None? && x.manifest == w.manifest && x.commits == w.commits
            && x.mirror.Some? && x.mirror.value.base == w.manifest.generation && x.mirror.value.tree == upper
            && (forall c :: PhaseOf(x, c) == if c == b then Idle else PhaseOf(w, c))
            && forall n: nat :: UpperAt(x, n) == if n == b.node then Upper(upper, |w.writes|) else UpperAt(w, n)
  {
  }

  lemma CommittedFacts(w: World, b: Agent, mirror: Mirror, cut: nat)
    requires w.lock.None?
    ensures var x := CommittedBy(w, b, mirror, cut);
            && x.lock.None? && x.manifest.generation == w.manifest.generation + 1 && |x.commits| == |w.commits| + 1
            && (cut != 0 ==> x.mirror.None?)
            && (forall c :: PhaseOf(x, c) == if c == b then Idle else PhaseOf(w, c))
            && forall n: nat :: UpperAt(x, n) == if n == b.node && cut >= 2 then NO_UPPER else UpperAt(w, n)
  {
  }

  lemma StaleFacts(start: World, a: Agent, b: Agent, upper: Tree)
    requires IsStart(start) && a != b
    ensures var w := Stale(start, a, b, upper);
            && w.lock.None? && w.mirror.None? && w.manifest.generation == 1 && |w.commits| == 1
            && PhaseOf(w, a) == Loaded(start.manifest) && start.manifest.generation == 0
            && (forall c | c != a :: PhaseOf(w, c).Idle?)
            && UpperOf(w, a.node) == EMPTY_TREE
  {
    var w1 := At(start, a, Loaded(start.manifest));
    SessionFacts(w1, b, upper);
    CommittedFacts(AfterSession(w1, b, upper), b, AfterSession(w1, b, upper).mirror.value, 2);
  }

  lemma StaleState(start: World, a: Agent, b: Agent, upper: Tree) returns (w: World)
    requires IsStart(start) && IsLayer(upper) && Dirty(upper) && a != b
    ensures w == Run(start, StaleSteps(a, b, upper))
    ensures w.lock.None? && w.mirror.None? && w.manifest.generation == 1 && |w.commits| == 1
    ensures PhaseOf(w, a) == Loaded(start.manifest) && start.manifest.generation == 0
    ensures forall c | c != a :: PhaseOf(w, c).Idle?
    ensures UpperOf(w, a.node) == EMPTY_TREE
  {
    w := Stale(start, a, b, upper);
    StaleFacts(start, a, b, upper);
    RunsStale(start, a, b, upper);
  }

  lemma RunsStale(start: World, a: Agent, b: Agent, upper: Tree)
    requires IsStart(start) && Dirty(upper) && a != b
    ensures Run(start, StaleSteps(a, b, upper)) == Stale(start, a, b, upper)
  {
    RunThree(start, [Load(a)], SessionSteps(b, upper), CommitSteps(b, 2));
    RunOne(start, Load(a));
    var w1 := At(start, a, Loaded(start.manifest));
    Session(w1, b, upper);
    Commits(AfterSession(w1, b, upper), b, 2);
  }

  /** With its manifest loaded: takes the lock, writes and leaves. */
  function TakeSteps(d: Agent, upper: Tree): seq<Step> {
    [Acquire(d), Hydrate(d)] + [Step.Write(d, upper)] + LeaveSteps(d)
  }

  lemma TakesAndWrites(w: World, d: Agent, upper: Tree)
    requires w.lock.None? && PhaseOf(w, d).Loaded?
    ensures Run(Run(w, [Acquire(d), Hydrate(d)]), [Step.Write(d, upper)])
            == Wrote(w, d, PhaseOf(w, d).m, upper)
  {
    RunTwo(w, Acquire(d), Hydrate(d));
    RunOne(Do(w, Acquire(d)), Hydrate(d));
    Takes(w, d);
    RunOne(Run(w, [Acquire(d), Hydrate(d)]), Step.Write(d, upper));
    assert w.uppers[d.node := Hydrated(w, d.node)][d.node := Upper(upper, |w.writes|)]
           == w.uppers[d.node := Upper(upper, |w.writes|)];
  }

  lemma TakesAndLeaves(w: World, d: Agent, upper: Tree)
    requires w.lock.None? && PhaseOf(w, d).Loaded? && Dirty(upper)
    ensures var x, m := Run(w, TakeSteps(d, upper)), PhaseOf(w, d).m;
            && x.lock.None? && x.manifest == w.manifest && x.commits == w.commits && x.published == w.published + 1
            && x.mirror == Some(Mirror(w.published, m.generation, upper, View(m.lowers), |w.writes|))
            && x.writes == w.writes + [WrittenOver(m, upper)]
            && UpperAt(x, d.node) == Upper(upper, |w.writes|)
            && PhaseOf(x, d).Idle? && forall b | b != d :: PhaseOf(x, b) == PhaseOf(w, b)
  {
    RunThree(w, [Acquire(d), Hydrate(d)], [Step.Write(d, upper)], LeaveSteps(d));
    TakesAndWrites(w, d, upper);
    Leaves(Wrote(w, d, PhaseOf(w, d).m, upper), d);
  }

  /** What a commit added. */
  predicate Adds(w: World, x: World, base: nat, tree: Tree, write: nat) {
    && |x.commits| == |w.commits| + 1 && x.commits[..|w.commits|] == w.commits
    && x.commits[|w.commits|].base == base && x.commits[|w.commits|].tree == tree
    && x.commits[|w.commits|].write == write
  }

  /** Mounts and leaves again, and the mirror is committed. */
  function RelabelSteps(a: Agent, b: Agent): seq<Step> {
    MountSteps(a) + LeaveSteps(a) + CommitSteps(b, 2)
  }

  /**
   With no write in between: a dirty upper that a node still has, or hydrates from the mirror, is published as
   of the present generation and committed there, whatever it was written over.
   */
  lemma Relabels(w: World, a: Agent, b: Agent)
    requires w.lock.None? && PhaseOf(w, a).Idle? && PhaseOf(w, b).Idle? && Dirty(Hydrated(w, a.node).tree)
    ensures var y := Run(w, RelabelSteps(a, b));
            && Adds(w, y, w.manifest.generation, Hydrated(w, a.node).tree, Hydrated(w, a.node).write)
            && y.writes == w.writes
  {
    RunThree(w, MountSteps(a), LeaveSteps(a), CommitSteps(b, 2));
    Mounts(w, a);
    Relabelled(w, a, b);
    Leaves(MountedBy(w, a), a);
    Commits(LeftBy(MountedBy(w, a), a, w.manifest), b, 2);
  }

  lemma Relabelled(w: World, a: Agent, b: Agent)
    requires w.lock.None? && PhaseOf(w, b).Idle? && Dirty(Hydrated(w, a.node).tree)
    ensures var x := LeftBy(MountedBy(w, a), a, w.manifest);
            && x.lock.None? && PhaseOf(x, b).Idle? && x.manifest == w.manifest && x.writes == w.writes
            && x.commits == w.commits && x.mirror.Some?
            && x.mirror.value == Mirror(w.published, w.manifest.generation, Hydrated(w, a.node).tree,
                                        View(w.manifest.lowers), Hydrated(w, a.node).write)
  {
    assert UpperAt(MountedBy(w, a), a.node) == Hydrated(w, a.node);
  }

  /** If there is neither a mirror nor anything dirty, nothing is committed. */
  lemma NothingToRelabel(w: World, a: Agent, b: Agent)
    requires w.lock.None? && PhaseOf(w, a).Idle? && PhaseOf(w, b).Idle?
    requires w.mirror.None? && !Dirty(UpperOf(w, a.node))
    ensures Run(w, RelabelSteps(a, b)).commits == w.commits && Run(w, RelabelSteps(a, b)).writes == w.writes
  {
    RunThree(w, MountSteps(a), LeaveSteps(a), CommitSteps(b, 2));
    Mounts(w, a);
    NothingRelabelled(w, a, b);
    Leaves(MountedBy(w, a), a);
    CommitGivesUp(LeftBy(MountedBy(w, a), a, w.manifest), b, 2);
  }

  lemma NothingRelabelled(w: World, a: Agent, b: Agent)
    requires w.lock.None? && PhaseOf(w, b).Idle? && w.mirror.None? && !Dirty(UpperOf(w, a.node))
    ensures var x := LeftBy(MountedBy(w, a), a, w.manifest);
            && x.lock.None? && PhaseOf(x, b).Idle? && x.mirror.None? && x.writes == w.writes && x.commits == w.commits
  {
    assert UpperAt(MountedBy(w, a), a.node) == UpperAt(w, a.node);
  }

  /**
   The manifest is loaded before the lock is taken.  What a writer that loaded an older generation publishes
   is refused: the commit raises and changes nothing.
   */
  lemma StaleCommitIsRefused(w: World, a: Agent, upper: Tree)
    requires w.lock.None? && PhaseOf(w, a).Loaded? && Dirty(upper)
    requires PhaseOf(w, a).m.generation < w.manifest.generation
    ensures var x := Run(w, TakeSteps(a, upper));
            var y := Run(x, CommitSteps(a, 2));
            && x.mirror.Some? && x.mirror.value.tree == upper && x.mirror.value.base < x.manifest.generation
            && x.lock.None? && y.lock.None? && PhaseOf(y, a).Idle? && y.commits == w.commits
            && y.mirror == x.mirror && y.manifest == x.manifest == w.manifest
            && y.uppers == x.uppers && UpperAt(x, a.node) == Upper(upper, |w.writes|)
            && y.writes == x.writes == w.writes + [WrittenOver(PhaseOf(w, a).m, upper)]
  {
    TakesAndLeaves(w, a, upper);
    CommitGivesUp(Run(w, TakeSteps(a, upper)), a, 2);
  }

  function StaleWriteSteps(a: Agent, upper: Tree): seq<Step> {
    TakeSteps(a, upper) + CommitSteps(a, 2) + RelabelSteps(a, a)
  }

  /** But the refusal holds only until the next mount, which labels the upper anew and lets it be committed. */
  lemma StaleWriteLandsLater(w: World, a: Agent, upper: Tree)
    requires w.lock.None? && PhaseOf(w, a).Loaded? && Dirty(upper)
    requires PhaseOf(w, a).m.generation < w.manifest.generation
    ensures var z := Run(w, StaleWriteSteps(a, upper));
            && Adds(w, z, w.manifest.generation, upper, |w.writes|) && |z.writes| == |w.writes| + 1
            && z.writes[|w.writes|].generation == PhaseOf(w, a).m.generation
            && !TrueLabel(z, z.commits[|w.commits|])
  {
    RunThree(w, TakeSteps(a, upper), CommitSteps(a, 2), RelabelSteps(a, a));
    StaleCommitIsRefused(w, a, upper);
    Relabels(Run(Run(w, TakeSteps(a, upper)), CommitSteps(a, 2)), a, a);
  }

  lemma TakeIsPlain(d: Agent, upper: Tree)
    requires IsLayer(upper)
    ensures Plain(TakeSteps(d, upper))
  {
    MountIsPlain(d);
    PlainAppend([Acquire(d), Hydrate(d)] + [Step.Write(d, upper)], LeaveSteps(d));
  }

  lemma RelabelIsPlain(a: Agent, b: Agent)
    ensures Plain(RelabelSteps(a, b))
  {
    MountIsPlain(a);
    CommitIsPlain(b, 2);
    PlainAppend(MountSteps(a), LeaveSteps(a));
    PlainAppend(MountSteps(a) + LeaveSteps(a), CommitSteps(b, 2));
  }

  lemma StaleWriteIsValid(start: World, a: Agent, b: Agent, first: Tree, second: Tree)
    requires IsLayer(first) && IsLayer(second)
    ensures ValidRun(start, StaleSteps(a, b, first) + StaleWriteSteps(a, second))
  {
    StaleIsPlain(a, b, first);
    TakeIsPlain(a, second);
    CommitIsPlain(a, 2);
    RelabelIsPlain(a, a);
    PlainAppend(TakeSteps(a, second), CommitSteps(a, 2));
    PlainAppend(TakeSteps(a, second) + CommitSteps(a, 2), RelabelSteps(a, a));
    PlainAppend(StaleSteps(a, b, first), StaleWriteSteps(a, second));
    PlainIsValid(start, StaleSteps(a, b, first) + StaleWriteSteps(a, second));
  }

  /** All of it from a fresh child: an upper written over generation 0 becomes the commit to generation 1. */
  lemma StaleWriteLandsFromStart(start: World, a: Agent, b: Agent, first: Tree, second: Tree)
    requires IsStart(start) && IsLayer(first) && Dirty(first) && IsLayer(second) && Dirty(second) && a != b
    ensures var steps := StaleSteps(a, b, first) + StaleWriteSteps(a, second);
            var z := Run(start, steps);
            && ValidRun(start, steps) && |z.commits| == 2 && z.commits[1].base == 1 && z.commits[1].tree == second
            && z.commits[1].write < |z.writes| && z.writes[z.commits[1].write].generation == 0
  {
    var w := StaleState(start, a, b, first);
    RunAppend(start, StaleSteps(a, b, first), StaleWriteSteps(a, second));
    StaleWriteLandsLater(w, a, second);
    StaleWriteIsValid(start, a, b, first, second);
  }

  // ---- one upper committed twice ----

  function TwiceSteps(a: Agent, b: Agent, upper: Tree, cut: nat): seq<Step> {
    SessionSteps(a, upper) + CommitSteps(b, cut) + RelabelSteps(a, b)
  }

  /**
   After a commit of what agent a wrote, made by agent b, the upper on a's node is gone exactly if b is on
   the same node and its cleanup was not cut short.
   */
  lemma OnlyOwnUpperIsCleaned(w: World, a: Agent, b: Agent, upper: Tree, cut: nat)
    requires w.lock.None? && PhaseOf(w, a).Idle? && PhaseOf(w, b).Idle? && Dirty(upper)
    ensures var y := Run(w, SessionSteps(a, upper) + CommitSteps(b, cut));
            && y.lock.None? && (y.mirror.None? <==> cut != 0) && PhaseOf(y, a).Idle? && PhaseOf(y, b).Idle?
            && y.manifest == Snapshot(w.manifest.generation + 1, w.manifest.lowers + [upper])
            && Adds(w, y, w.manifest.generation, upper, |w.writes|)
            && y.writes == w.writes + [WrittenOver(w.manifest, upper)]
            && UpperAt(y, a.node) == (if a.node == b.node && cut >= 2 then NO_UPPER else Upper(upper, |w.writes|))
            && (Dirty(UpperOf(y, a.node)) <==> a.node != b.node || cut <= 1)
  {
    RunAppend(w, SessionSteps(a, upper), CommitSteps(b, cut));
    Session(w, a, upper);
    Commits(AfterSession(w, a, upper), b, cut);
    CleanedFacts(w, a, b, upper, cut);
  }

  lemma CleanedFacts(w: World, a: Agent, b: Agent, upper: Tree, cut: nat)
    requires w.lock.None? && PhaseOf(w, a).Idle? && PhaseOf(w, b).Idle? && Dirty(upper)
    ensures var x := AfterSession(w, a, upper);
            var y := CommittedBy(x, b, x.mirror.value, cut);
            && y.lock.None? && (y.mirror.None? <==> cut != 0) && PhaseOf(y, a).Idle? && PhaseOf(y, b).Idle?
            && y.manifest == Snapshot(w.manifest.generation + 1, w.manifest.lowers + [upper])
            && Adds(w, y, w.manifest.generation, upper, |w.writes|)
            && y.writes == w.writes + [WrittenOver(w.manifest, upper)]
            && UpperAt(y, a.node) == (if a.node == b.node && cut >= 2 then NO_UPPER else Upper(upper, |w.writes|))
            && (Dirty(UpperOf(y, a.node)) <==> a.node != b.node || cut <= 1)
  {
    SessionFacts(w, a, upper);
    CommittedFacts(AfterSession(w, a, upper), b, AfterSession(w, a, upper).mirror.value, cut);
  }

  lemma TwiceIsValid(start: World, a: Agent, b: Agent, upper: Tree, cut: nat)
    requires IsLayer(upper)
    ensures ValidRun(start, TwiceSteps(a, b, upper, cut))
  {
    SessionIsPlain(a, upper);
    CommitIsPlain(b, cut);
    RelabelIsPlain(a, b);
    PlainAppend(SessionSteps(a, upper), CommitSteps(b, cut));
    PlainAppend(SessionSteps(a, upper) + CommitSteps(b, cut), RelabelSteps(a, b));
    PlainIsValid(start, TwiceSteps(a, b, upper, cut));
  }

  /**
   From a fresh child, with a single write: a writes and unmounts, b commits, a mounts and unmounts again, b
   commits again.  The one upper is committed over generation 0 and again over generation 1 exactly if b is
   on another node or the first cleanup was cut short.
   */
  lemma UpperCommittedTwice(start: World, a: Agent, b: Agent, upper: Tree, cut: nat)
    requires IsStart(start) && IsLayer(upper) && Dirty(upper) && a != b
    ensures ValidRun(start, TwiceSteps(a, b, upper, cut))
    ensures var w := Run(start, TwiceSteps(a, b, upper, cut));
            && |w.commits| == (if a.node == b.node && cut >= 2 then 1 else 2) && |w.writes| == 1
            && forall i | 0 <= i < |w.commits| ::
                 && w.commits[i].base == i && w.commits[i].tree == upper && w.commits[i].write == 0
                 && (TrueLabel(w, w.commits[i]) <==> i == 0)
  {
    TwiceIsValid(start, a, b, upper, cut);
    var first := SessionSteps(a, upper) + CommitSteps(b, cut);
    RunAppend(start, first, RelabelSteps(a, b));
    OnlyOwnUpperIsCleaned(start, a, b, upper, cut);
    CommittedAgain(start, Run(start, first), a, b, upper, cut);
  }

  lemma CommittedAgain(start: World, y: World, a: Agent, b: Agent, upper: Tree, cut: nat)
    requires start.commits == [] && start.writes == [] && start.manifest.generation == 0 && Dirty(upper)
    requires y.lock.None? && (y.mirror.None? <==> cut != 0) && PhaseOf(y, a).Idle? && PhaseOf(y, b).Idle?
    requires Adds(start, y, 0, upper, 0) && y.writes == [WrittenOver(start.manifest, upper)]
    requires y.manifest.generation == 1
    requires UpperAt(y, a.node) == if a.node == b.node && cut >= 2 then NO_UPPER else Upper(upper, 0)
    ensures var z := Run(y, RelabelSteps(a, b));
            && |z.commits| == (if a.node == b.node && cut >= 2 then 1 else 2) && |z.writes| == 1
            && forall i | 0 <= i < |z.commits| ::
                 && z.commits[i].base == i && z.commits[i].tree == upper && z.commits[i].write == 0
                 && (TrueLabel(z, z.commits[i]) <==> i == 0)
  {
    if a.node == b.node && cut >= 2 {
      NothingToRelabel(y, a, b);
    } else {
      Relabels(y, a, b);
    }
    TwoCommits(start, y, Run(y, RelabelSteps(a, b)), upper);
  }

  /** One write, one commit of it, and perhaps another. */
  lemma TwoCommits(start: World, y: World, z: World, upper: Tree)
    requires start.commits == [] && start.writes == [] && start.manifest.generation == 0
    requires Adds(start, y, 0, upper, 0) && y.writes == [WrittenOver(start.manifest, upper)]
    requires z.writes == y.writes && (z.commits == y.commits || Adds(y, z, 1, upper, 0))
    ensures |z.writes| == 1 && |z.commits| == (if z.commits == y.commits then 1 else 2)
    ensures forall i | 0 <= i < |z.commits| ::
              && z.commits[i].base == i && z.commits[i].tree == upper && z.commits[i].write == 0
              && (TrueLabel(z, z.commits[i]) <==> i == 0)
  {
    assert z.commits != y.commits ==> z.commits[0] == z.commits[..1][0] == y.commits[0];
  }

  // ---- an upper that hides a newer mirror ----

  function OverwriteSteps(a: Agent, b: Agent, older: Tree, newer: Tree): seq<Step> {
    SessionSteps(a, older) + SessionSteps(b, newer)
  }

  lemma OverwriteIsValid(start: World, a: Agent, b: Agent, older: Tree, newer: Tree)
    requires IsLayer(older) && IsLayer(newer)
    ensures ValidRun(start, OverwriteSteps(a, b, older, newer))
  {
    SessionIsPlain(a, older);
    SessionIsPlain(b, newer);
    PlainAppend(SessionSteps(a, older), SessionSteps(b, newer));
    PlainIsValid(start, OverwriteSteps(a, b, older, newer));
  }

  lemma RemountIsValid(w: World, a: Agent)
    ensures ValidRun(w, MountSteps(a) + LeaveSteps(a))
  {
    MountIsPlain(a);
    PlainAppend(MountSteps(a), LeaveSteps(a));
    PlainIsValid(w, MountSteps(a) + LeaveSteps(a));
  }

  /**
   From a fresh child, with no commit and every mount live: a writes and leaves, b on another node writes and
   leaves, and the next mount on a's node shows a's older upper and makes it the mirror again.
   */
  lemma OlderUpperReplacesNewer(start: World, a: Agent, b: Agent, older: Tree, newer: Tree)
    requires IsStart(start) && IsLayer(older) && Dirty(older) && IsLayer(newer) && Dirty(newer) && a.node != b.node
    ensures var steps := OverwriteSteps(a, b, older, newer);
            var x := Run(start, steps);
            var y := Run(x, MountSteps(a) + LeaveSteps(a));
            && ValidRun(start, steps) && ValidRun(x, MountSteps(a) + LeaveSteps(a))
            && x.mirror.Some? && x.mirror.value.tree == newer
            && y.mirror.Some? && y.mirror.value.tree == older && y.mirror.value.base == y.manifest.generation
  {
    OverwriteIsValid(start, a, b, older, newer);
    RunAppend(start, SessionSteps(a, older), SessionSteps(b, newer));
    Session(start, a, older);
    Session(AfterSession(start, a, older), b, newer);
    TwoSessions(start, a, b, older, newer);
    var x := AfterSession(AfterSession(start, a, older), b, newer);
    RemountIsValid(x, a);
    Remounts(x, a);
  }

  lemma TwoSessions(start: World, a: Agent, b: Agent, older: Tree, newer: Tree)
    requires IsStart(start) && a.node != b.node
    ensures var x := AfterSession(AfterSession(start, a, older), b, newer);
            && x.lock.None? && PhaseOf(x, a).Idle? && UpperOf(x, a.node) == older
            && x.mirror.Some? && x.mirror.value.tree == newer
  {
  }

  /** Mounting and leaving makes a dirty upper the mirror. */
  lemma Remounts(w: World, a: Agent)
    requires w.lock.None? && PhaseOf(w, a).Idle? && Dirty(UpperOf(w, a.node))
    ensures var y := Run(w, MountSteps(a) + LeaveSteps(a));
            && y.mirror.Some? && y.mirror.value.tree == UpperOf(w, a.node)
            && y.mirror.value.base == y.manifest.generation == w.manifest.generation
  {
    RunAppend(w, MountSteps(a), LeaveSteps(a));
    Mounts(w, a);
    assert UpperAt(MountedBy(w, a), a.node) == UpperAt(w, a.node);
    Leaves(MountedBy(w, a), a);
  }

  // ---- an upper committed to a generation it was not written over ----

  /** a mounts, its record is picked up by c, and it leaves. */
  function PickSteps(a: Agent, c: Agent): seq<Step> {
    MountSteps(a) + [PickUp(c, a)] + LeaveSteps(a)
  }

  function MislabelSteps(a: Agent, c: Agent, d: Agent, e: Agent, first: Tree, second: Tree): seq<Step> {
    StaleSteps(d, e, first) + PickSteps(a, c) + (TakeSteps(d, second) + [LatePublish(c)]) + CommitSteps(e, 2)
  }

  lemma PickIsPlain(a: Agent, c: Agent)
    ensures Plain(PickSteps(a, c))
  {
    MountIsPlain(a);
    PlainAppend(MountSteps(a), [PickUp(c, a)]);
    PlainAppend(MountSteps(a) + [PickUp(c, a)], LeaveSteps(a));
  }

  lemma MislabelIsValid(start: World, a: Agent, c: Agent, d: Agent, e: Agent, first: Tree, second: Tree)
    requires IsLayer(first) && IsLayer(second)
    ensures ValidRun(start, MislabelSteps(a, c, d, e, first, second))
  {
    StaleIsPlain(d, e, first);
    PickIsPlain(a, c);
    TakeIsPlain(d, second);
    CommitIsPlain(e, 2);
    PlainAppend(TakeSteps(d, second), [LatePublish(c)]);
    PlainAppend(StaleSteps(d, e, first), PickSteps(a, c));
    PlainAppend(StaleSteps(d, e, first) + PickSteps(a, c), TakeSteps(d, second) + [LatePublish(c)]);
    PlainAppend(StaleSteps(d, e, first) + PickSteps(a, c) + (TakeSteps(d, second) + [LatePublish(c)]),
                CommitSteps(e, 2));
    PlainIsValid(start, MislabelSteps(a, c, d, e, first, second));
  }

  /**
   From a fresh child: thread d loads generation 0; another node commits generation 1; on d's node a mounts
   generation 1, its record is picked up, and it leaves; d mounts its generation 0, writes and leaves; the
   late publication labels d's upper with generation 1, and it is committed over generation 1.
   */
  lemma LatePublicationCommitsElsewhere(start: World, a: Agent, c: Agent, d: Agent, e: Agent, first: Tree, second: Tree)
    requires IsStart(start) && IsLayer(first) && Dirty(first) && IsLayer(second) && Dirty(second)
    requires a != c && a != d && c != d && e != a && e != c && e != d
    requires a.node == c.node == d.node && e.node != a.node
    ensures var steps := MislabelSteps(a, c, d, e, first, second);
            var w := Run(start, steps);
            && ValidRun(start, steps)
            && |w.commits| == 2 && w.commits[1].tree == second && w.commits[1].base == 1
            && w.commits[1].write < |w.writes| && w.writes[w.commits[1].write].generation == 0
  {
    MislabelIsValid(start, a, c, d, e, first, second);
    RunFour(start, StaleSteps(d, e, first), PickSteps(a, c), TakeSteps(d, second) + [LatePublish(c)],
            CommitSteps(e, 2));
    var w1 := StaleState(start, d, e, first);
    PickedState(w1, a, c, d);
    var w2 := Run(w1, PickSteps(a, c));
    LateState(w2, c, d, second);
    Commits(Run(w2, TakeSteps(d, second) + [LatePublish(c)]), e, 2);
  }

  lemma PickedState(w: World, a: Agent, c: Agent, d: Agent)
    requires w.lock.None? && w.mirror.None? && PhaseOf(w, a).Idle? && PhaseOf(w, c).Idle? && PhaseOf(w, d).Loaded?
    requires a != c && a != d && c != d && a.node == c.node == d.node && UpperOf(w, d.node) == EMPTY_TREE
    ensures var x := Run(w, PickSteps(a, c));
            && x.lock.None? && x.mirror.None? && x.manifest == w.manifest && x.commits == w.commits
            && PhaseOf(x, c) == Picked(a, w.turn + 1, w.manifest) && PhaseOf(x, d) == PhaseOf(w, d)
            && x.turn == w.turn + 1
            && forall b | b != a && b != c :: PhaseOf(x, b) == PhaseOf(w, b)
  {
    RunThree(w, MountSteps(a), [PickUp(c, a)], LeaveSteps(a));
    Mounts(w, a);
    LeavesPicked(Run(w, MountSteps(a)), a, c);
    PickedFacts(Run(w, MountSteps(a)), a, c, w.manifest);
    PickedMirror(Run(w, MountSteps(a)), a, c, w.manifest);
  }

  lemma LateState(w: World, c: Agent, d: Agent, upper: Tree)
    requires w.lock.None? && PhaseOf(w, d).Loaded? && PhaseOf(w, c).Picked? && c != d && c.node == d.node
    requires Dirty(upper)
    ensures var x, m := Run(w, TakeSteps(d, upper) + [LatePublish(c)]), PhaseOf(w, c).m;
            && x.lock.None? && x.manifest == w.manifest && x.commits == w.commits
            && x.mirror == Some(Mirror(w.published + 1, m.generation, upper, View(m.lowers), |w.writes|))
            && x.writes == w.writes + [WrittenOver(PhaseOf(w, d).m, upper)]
            && forall b | b != c && b != d :: PhaseOf(x, b) == PhaseOf(w, b)
  {
    RunAppend(w, TakeSteps(d, upper), [LatePublish(c)]);
    TakesAndLeaves(w, d, upper);
    RunOne(Run(w, TakeSteps(d, upper)), LatePublish(c));
  }
}
