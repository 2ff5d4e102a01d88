/**
 The single-writer protocol of a local-ssd-async child: nodes share a lock file that is never stolen, a
 dirty mirror and a manifest.  Mounting (manifest loaded first, lock taken later), publishing, unmounting
 and committing are separate interleaved steps; daemons crash and threads fail between any two.

 A publishing thread picks up the record of a mount and publishes later, whatever has become of the mount by
 then; the failed heartbeat of a released lock does not stop it.  A mirror publication and a manifest write
 are single steps; so is an explicit compaction.
 */
module Writers {
  import opened Trees
  import opened Layers
  import opened Folding
  import opened Packs
  import opened Compaction

  /** One thread of one node's daemon. */
  datatype Agent = Agent(node: nat, thread: nat)

  /** A manifest as read at some moment: its generation and the contents of its packs. */
  datatype Snapshot = Snapshot(generation: nat, lowers: seq<Tree>)

  /** One write of a node's upper: the generation mounted, the upper as written, and what its writer then saw. */
  datatype Written = Written(generation: nat, tree: Tree, saw: Tree)

  /** A node-local upper and the number of the write it is of. */
  datatype Upper = Upper(tree: Tree, write: nat)

  const NO_UPPER := Upper(EMPTY_TREE, 0)

  /**
   A published epoch.  No file stores the last two: the view of the stack its record had mounted, and the
   number of the write its tree is of.
   */
  datatype Mirror = Mirror(uid: nat, base: nat, tree: Tree, beneath: Tree, write: nat)

  datatype Phase =
    | Idle
    | Loaded(m: Snapshot)
    | Hydrating(m: Snapshot)
    | Mounted(m: Snapshot)
    | Draining(m: Snapshot)
    | Committing
    | Building(mirror: Mirror, m: Snapshot)
    | Cleaning
    | Sweeping
    | Closing
    | Picked(of: Agent, turn: nat, m: Snapshot)

  /**
   `turn` counts how often the lock file was created; `released` are the turns whose lock object was
   released.  `history` (the view at each generation), `writes`, `commits` and `published` are recorded for the
   proofs.
   */
  datatype World = World(
    lock: Option<Agent>,
    turn: nat,
    released: set<nat>,
    manifest: Snapshot,
    mirror: Option<Mirror>,
    uppers: map<nat, Upper>,
    phases: map<Agent, Phase>,
    published: nat,
    history: seq<Tree>,
    writes: seq<Written>,
    commits: seq<Mirror>
  )

  function PhaseOf(w: World, a: Agent): Phase {
    if a in w.phases then w.phases[a] else Idle
  }

  /** The node-local upper, which survives crashes. */
  function UpperAt(w: World, node: nat): Upper {
    if node in w.uppers then w.uppers[node] else NO_UPPER
  }

  function UpperOf(w: World, node: nat): Tree {
    UpperAt(w, node).tree
  }

  predicate Holding(p: Phase) {
    !p.Idle? && !p.Loaded? && !p.Picked?
  }

  predicate LiveMount(p: Phase) {
    p.Mounted? || p.Draining?
  }

  datatype Step =
    | Load(a: Agent)
    | Acquire(a: Agent)
    | Hydrate(a: Agent)
    | Write(a: Agent, upper: Tree)
    | Publish(a: Agent)
    | PickUp(a: Agent, of: Agent)
    | LatePublish(a: Agent)
    | Unmount(a: Agent)
    | Release(a: Agent)
    | MountFails(a: Agent)
    | BeginCommit(a: Agent)
    | ReadMirror(a: Agent)
    | WriteManifest(a: Agent)
    | CleanMirror(a: Agent)
    | CleanUpper(a: Agent)
    | EndCommit(a: Agent)
    | CommitFails(a: Agent)
    | Vanish(a: Agent)
    | Crash(node: nat)
    | Compact(k: nat)

  function At(w: World, a: Agent, p: Phase): World {
    w.(phases := w.phases[a := p])
  }

  /** Creates the lock file. */
  function Locked(w: World, a: Agent, p: Phase): World {
    At(w, a, p).(lock := Some(a), turn := w.turn + 1)
  }

  /** Removes the lock file; the lock object knows it is released. */
  function Unlocked(w: World, a: Agent): World {
    At(w, a, Idle).(lock := None, released := w.released + {w.turn})
  }

  /** The heartbeat of the lock object of a turn does not raise. */
  predicate Heartbeat(w: World, turn: nat) {
    turn !in w.released
  }

  /** The node's upper becomes the latest epoch, tagged with the generation the record mounted. */
  function Published(w: World, node: nat, m: Snapshot): World {
    var u := UpperAt(w, node);
    if Dirty(u.tree)
    then w.(mirror := Some(Mirror(w.published, m.generation, u.tree, View(m.lowers), u.write)),
            published := w.published + 1)
    else w
  }

  /** A step that is not enabled does nothing. */
  function Do(w: World, s: Step): World {
    match s
    case Load(a) => if PhaseOf(w, a).Idle? then At(w, a, Loaded(w.manifest)) else w
    case Acquire(a) => AcquireLock(w, a)
    case Hydrate(a) => HydrateUpper(w, a)
    case Write(a, upper) => WriteUpper(w, a, upper)
    case Publish(a) => if PhaseOf(w, a).Mounted? then Published(w, a.node, PhaseOf(w, a).m) else w
    case PickUp(a, of) => PickRecord(w, a, of)
    case LatePublish(a) => PublishRecord(w, a)
    case Unmount(a) => UnmountChild(w, a)
    case Release(a) => if PhaseOf(w, a).Draining? then Unlocked(w, a) else w
    case MountFails(a) => if PhaseOf(w, a).Mounted? then Unlocked(w, a) else w
    case BeginCommit(a) => if PhaseOf(w, a).Idle? && w.lock.None? then Locked(w, a, Committing) else w
    case ReadMirror(a) => ReadLatest(w, a)
    case WriteManifest(a) => WriteCommit(w, a)
    case CleanMirror(a) => RemoveMirror(w, a)
    case CleanUpper(a) => RemoveUpper(w, a)
    case EndCommit(a) => if PhaseOf(w, a).Closing? then Unlocked(w, a) else w
    case CommitFails(a) => if CanFail(PhaseOf(w, a)) then Unlocked(w, a) else w
    case Vanish(a) => At(w, a, Idle)
    case Crash(node) => w.(phases := map a | a in w.phases && a.node != node :: w.phases[a])
    case Compact(k) => CompactNewest(w, k)
  }

  predicate CanFail(p: Phase) {
    p.Committing? || p.Building? || p.Cleaning? || p.Sweeping? || p.Closing?
  }

  /** A mount takes the writer lock, or becomes a read-only mount (not tracked) when the file exists. */
  function AcquireLock(w: World, a: Agent): World {
    if !PhaseOf(w, a).Loaded? then w
    else if w.lock.Some? then At(w, a, Idle)
    else Locked(w, a, Hydrating(PhaseOf(w, a).m))
  }

  /** An empty local upper is filled from the latest mirror. */
  function Hydrated(w: World, node: nat): Upper {
    if UpperOf(w, node) == EMPTY_TREE && w.mirror.Some?
    then Upper(w.mirror.value.tree, w.mirror.value.write) else UpperAt(w, node)
  }

  function HydrateUpper(w: World, a: Agent): World {
    if !PhaseOf(w, a).Hydrating? then w
    else At(w, a, Mounted(PhaseOf(w, a).m)).(uppers := w.uppers[a.node := Hydrated(w, a.node)])
  }

  /** The writer leaves another upper, looking at it over what it mounted. */
  function WriteUpper(w: World, a: Agent, upper: Tree): World {
    if !PhaseOf(w, a).Mounted? then w
    else
      var m := PhaseOf(w, a).m;
      w.(uppers := w.uppers[a.node := Upper(upper, |w.writes|)],
         writes := w.writes + [Written(m.generation, upper, View(m.lowers + [upper]))])
  }

  /** A publishing thread of the same daemon takes a record off the table. */
  function PickRecord(w: World, a: Agent, of: Agent): World {
    if PhaseOf(w, a).Idle? && a.node == of.node && LiveMount(PhaseOf(w, of))
    then At(w, a, Picked(of, w.turn, PhaseOf(w, of).m)) else w
  }

  /** It publishes the record, whether or not the heartbeat raises. */
  function PublishRecord(w: World, a: Agent): World {
    if !PhaseOf(w, a).Picked? then w
    else
      At(Published(w, a.node, PhaseOf(w, a).m), a, Idle)
  }

  function UnmountChild(w: World, a: Agent): World {
    if !PhaseOf(w, a).Mounted? then w
    else
      var m := PhaseOf(w, a).m;
      At(Published(w, a.node, m), a, Draining(m))
  }

  /** Under the lock, the mirror must sit on the manifest's generation. */
  function ReadLatest(w: World, a: Agent): World {
    if !PhaseOf(w, a).Committing? then w
    else if w.mirror.None? || w.mirror.value.base != w.manifest.generation then Unlocked(w, a)
    else At(w, a, Building(w.mirror.value, w.manifest))
  }

  function WriteCommit(w: World, a: Agent): World {
    if !PhaseOf(w, a).Building? then w
    else
      var mirror, m := PhaseOf(w, a).mirror, PhaseOf(w, a).m;
      var lowers := m.lowers + [mirror.tree];
      At(w, a, Cleaning).(manifest := Snapshot(m.generation + 1, lowers),
                          history := w.history + [View(lowers)],
                          commits := w.commits + [mirror])
  }

  /** Cleaning up: the mirror goes, then the committing node's own upper. */
  function RemoveMirror(w: World, a: Agent): World {
    if PhaseOf(w, a).Cleaning? then At(w, a, Sweeping).(mirror := None) else w
  }

  function RemoveUpper(w: World, a: Agent): World {
    if PhaseOf(w, a).Sweeping? then At(w, a, Closing).(uppers := w.uppers[a.node := NO_UPPER]) else w
  }

  function CompactNewest(w: World, k: nat): World {
    var lowers := w.manifest.lowers;
    if k >= |lowers| then w
    else w.(manifest := w.manifest.(lowers := lowers[..k] + [Built(lowers[k..])]))
  }

  /** Users write layers, and compactions lose and uncover nothing. */
  predicate ValidStep(w: World, s: Step) {
    match s
    case Write(_, upper) => IsLayer(upper)
    case Compact(k) =>
      k < |w.manifest.lowers| ==>
        NothingLost(w.manifest.lowers[k..]) && Shields(w.manifest.lowers[k..], View(w.manifest.lowers[..k]))
    case _ => true
  }

  predicate IsStart(w: World) {
    && w.lock.None? && w.turn == 0 && w.released == {}
    && w.mirror.None? && w.uppers == map[] && w.phases == map[]
    && w.published == 0 && w.writes == [] && w.commits == []
    && w.manifest.generation == 0 && AreLayers(w.manifest.lowers)
    && w.history == [View(w.manifest.lowers)]
  }

  function Run(start: World, steps: seq<Step>): World {
    if steps == [] then start else Do(Run(start, steps[..|steps| - 1]), steps[|steps| - 1])
  }

  predicate ValidRun(start: World, steps: seq<Step>) {
    steps != [] ==>
      ValidRun(start, steps[..|steps| - 1]) && ValidStep(Run(start, steps[..|steps| - 1]), steps[|steps| - 1])
  }

  // ---- invariants ----

  /** A snapshot shows the view recorded for its generation. */
  predicate Current(w: World, m: Snapshot) {
    m.generation < |w.history| && AreLayers(m.lowers) && View(m.lowers) == w.history[m.generation]
  }

  /** A write was made over the view of its generation. */
  predicate WrittenOk(history: seq<Tree>, x: Written) {
    x.generation < |history| && IsLayer(x.tree) && x.saw == Apply(history[x.generation], x.tree)
  }

  predicate WritesOk(w: World) {
    forall k | 0 <= k < |w.writes| :: WrittenOk(w.history, w.writes[k])
  }

  /** This tree is of that write. */
  predicate IsOf(w: World, tree: Tree, write: nat) {
    write < |w.writes| && w.writes[write].tree == tree
  }

  predicate MirrorOk(w: World, x: Mirror) {
    && x.uid < w.published && x.base < |w.history|
    && IsLayer(x.tree) && Dirty(x.tree) && x.beneath == w.history[x.base] && IsOf(w, x.tree, x.write)
  }

  predicate Finishing(p: Phase) {
    p.Cleaning? || p.Sweeping? || p.Closing?
  }

  /** A commit has written the manifest and is not finished. */
  predicate PostCommit(w: World) {
    w.lock.Some? && Finishing(PhaseOf(w, w.lock.value))
  }

  /** A picked-up record and the turn of its mount. */
  predicate PickedOk(w: World, a: Agent, of: Agent, turn: nat, m: Snapshot) {
    && 1 <= turn <= w.turn && a.node == of.node && Current(w, m)
    && (PostCommit(w) ==> m.generation < w.manifest.generation)
    && (turn == w.turn && w.lock.Some? ==> w.lock == Some(of))
  }

  /** Committed epochs with this uid had this base. */
  predicate UidFits(commits: seq<Mirror>, x: Mirror) {
    forall i | 0 <= i < |commits| && commits[i].uid == x.uid :: commits[i].base == x.base
  }

  predicate PhaseOk(w: World, a: Agent) {
    var p := PhaseOf(w, a);
    && (Holding(p) ==> w.lock == Some(a))
    && match p
       case Loaded(m) => Current(w, m)
       case Hydrating(m) => Current(w, m)
       case Mounted(m) => Current(w, m)
       case Draining(m) => Current(w, m)
       case Building(mirror, m) =>
         && mirror.base == m.generation == w.manifest.generation && Current(w, m)
         && MirrorOk(w, mirror) && UidFits(w.commits, mirror)
         && (w.mirror.Some? && w.mirror.value.uid == mirror.uid ==> w.mirror == Some(mirror))
       case Cleaning => w.mirror.Some? ==> w.mirror.value.base < w.manifest.generation
       case Sweeping => w.mirror.Some? ==> w.mirror.value.base < w.manifest.generation
       case Closing => w.mirror.Some? ==> w.mirror.value.base < w.manifest.generation
       case Picked(of, turn, m) => PickedOk(w, a, of, turn, m)
       case _ => true
  }

  /** Commit i turned generation i into i + 1, on the view its record had mounted. */
  predicate CommitOk(w: World, i: nat)
    requires i < |w.commits|
  {
    var c := w.commits[i];
    && i + 1 < |w.history|
    && c.base == i && c.uid < w.published
    && c.beneath == w.history[i]
    && w.history[i + 1] == Apply(c.beneath, c.tree)
    && IsOf(w, c.tree, c.write) && w.writes[c.write].generation <= i
  }

  predicate PhasesOk(w: World) {
    forall a | a in w.phases :: PhaseOk(w, a)
  }

  predicate CommitsOk(w: World) {
    forall i | 0 <= i < |w.commits| :: CommitOk(w, i)
  }

  /** Epochs are numbered apart; a committed epoch that is still the mirror has its old base. */
  predicate UidsOk(w: World) {
    && (forall i, j | 0 <= i < j < |w.commits| :: w.commits[i].uid != w.commits[j].uid)
    && (w.mirror.Some? ==> UidFits(w.commits, w.mirror.value))
  }

  /** Every turn but the present one is released, and the present one exactly if the file is gone. */
  predicate TurnsOk(w: World) {
    && (forall t: nat | 1 <= t < w.turn :: t in w.released)
    && (w.turn >= 1 ==> (w.turn in w.released <==> w.lock.None?))
    && (w.lock.Some? ==> w.turn >= 1)
    && forall t | t in w.released :: t <= w.turn
  }

  predicate UpperOk(w: World, u: Upper) {
    IsLayer(u.tree) && (u.tree == EMPTY_TREE || IsOf(w, u.tree, u.write))
  }

  predicate UppersOk(w: World) {
    forall n | n in w.uppers :: UpperOk(w, w.uppers[n])
  }

  predicate Inv(w: World) {
    && |w.history| == w.manifest.generation + 1 == |w.commits| + 1
    && Current(w, w.manifest)
    && UppersOk(w) && WritesOk(w) && TurnsOk(w)
    && (w.mirror.Some? ==> MirrorOk(w, w.mirror.value))
    && PhasesOk(w) && CommitsOk(w) && UidsOk(w)
  }

  lemma StartIsOk(w: World)
    requires IsStart(w)
    ensures Inv(w)
  {
  }

  lemma PhaseIsOk(w: World, a: Agent)
    requires PhasesOk(w)
    ensures PhaseOk(w, a)
  {
    if a in w.phases {
      assert PhaseOk(w, a);
    }
  }

  /** Only the lock holder is past taking the lock. */
  lemma OnlyHolder(w: World, a: Agent, b: Agent)
    requires PhasesOk(w) && Holding(PhaseOf(w, a)) && Holding(PhaseOf(w, b))
    ensures a == b && w.lock == Some(a)
  {
    PhaseIsOk(w, a);
    PhaseIsOk(w, b);
  }

  /** Commits stay in order when the history and the count of epochs only grow. */
  lemma CommitsStayOk(w: World, x: World)
    requires CommitsOk(w) && x.commits == w.commits && w.history <= x.history && w.published <= x.published
    requires w.writes <= x.writes
    ensures CommitsOk(x)
  {
    forall i | 0 <= i < |x.commits| ensures CommitOk(x, i) {
      assert CommitOk(w, i);
    }
  }

  // ---- publications ----

  /** Publishing under a recorded snapshot keeps everything, whoever does it. */
  lemma PublishKeeps(w: World, node: nat, m: Snapshot)
    requires Inv(w) && Current(w, m) && (PostCommit(w) ==> m.generation < w.manifest.generation)
    ensures Inv(Published(w, node, m))
  {
    PublishedPhases(w, node, m);
    PublishedEpoch(w, node, m);
    CommitsStayOk(w, Published(w, node, m));
  }

  lemma PublishedPhases(w: World, node: nat, m: Snapshot)
    requires Inv(w) && (PostCommit(w) ==> m.generation < w.manifest.generation)
    ensures PhasesOk(Published(w, node, m))
  {
    var x := Published(w, node, m);
    forall b | b in x.phases ensures PhaseOk(x, b) {
      PhaseIsOk(w, b);
    }
  }

  lemma PublishedEpoch(w: World, node: nat, m: Snapshot)
    requires Inv(w) && Current(w, m)
    ensures var x := Published(w, node, m);
            UidsOk(x) && (x.mirror.Some? ==> MirrorOk(x, x.mirror.value))
  {
    var x := Published(w, node, m);
    if Dirty(UpperOf(w, node)) {
      assert UpperOk(w, UpperAt(w, node));
      forall i | 0 <= i < |x.commits| ensures x.commits[i].uid != x.mirror.value.uid {
        assert CommitOk(w, i);
      }
    }
  }

  lemma HolderPublishes(w: World, a: Agent)
    requires Inv(w) && PhaseOf(w, a).Mounted?
    ensures Inv(Published(w, a.node, PhaseOf(w, a).m))
  {
    PhaseIsOk(w, a);
    PublishKeeps(w, a.node, PhaseOf(w, a).m);
  }

  lemma LatePublishKeeps(w: World, a: Agent)
    requires Inv(w) && PhaseOf(w, a).Picked?
    ensures Inv(PublishRecord(w, a))
  {
    var m := PhaseOf(w, a).m;
    PhaseIsOk(w, a);
    PublishKeeps(w, a.node, m);
    MoveKeeps(Published(w, a.node, m), a, Idle);
  }

  // ---- commits and compactions ----

  lemma WriteCommitKeeps(w: World, a: Agent)
    requires Inv(w) && PhaseOf(w, a).Building?
    ensures Inv(WriteCommit(w, a))
  {
    CommitManifest(w, a);
    CommitRest(w, a);
    CommitPhases(w, a);
    CommittedOk(w, a);
    CommittedUids(w, a);
  }

  lemma CommitManifest(w: World, a: Agent)
    requires Inv(w) && PhaseOf(w, a).Building?
    ensures var x := WriteCommit(w, a);
            |x.history| == x.manifest.generation + 1 == |x.commits| + 1 && Current(x, x.manifest)
  {
    PhaseIsOk(w, a);
    var lowers := PhaseOf(w, a).m.lowers + [PhaseOf(w, a).mirror.tree];
    assert AreLayers(lowers);
  }

  lemma CommitRest(w: World, a: Agent)
    requires Inv(w) && PhaseOf(w, a).Building?
    ensures var x := WriteCommit(w, a);
            UppersOk(x) && WritesOk(x) && TurnsOk(x) && (x.mirror.Some? ==> MirrorOk(x, x.mirror.value))
  {
    var x := WriteCommit(w, a);
    forall k | 0 <= k < |x.writes| ensures WrittenOk(x.history, x.writes[k]) {
      assert WrittenOk(w.history, w.writes[k]);
    }
    forall n | n in x.uppers ensures UpperOk(x, x.uppers[n]) {
      assert UpperOk(w, w.uppers[n]);
    }
  }

  lemma CommitPhases(w: World, a: Agent)
    requires Inv(w) && PhaseOf(w, a).Building?
    ensures PhasesOk(WriteCommit(w, a))
  {
    var x := WriteCommit(w, a);
    PhaseIsOk(w, a);
    forall b | b in x.phases ensures PhaseOk(x, b) {
      PhaseIsOk(w, b);
      if b != a && Holding(PhaseOf(w, b)) {
        OnlyHolder(w, a, b);
      }
    }
  }

  lemma CommittedOk(w: World, a: Agent)
    requires Inv(w) && PhaseOf(w, a).Building?
    ensures CommitsOk(WriteCommit(w, a))
  {
    var x := WriteCommit(w, a);
    CommitsStayOk(w, x.(commits := w.commits));
    forall i | 0 <= i < |w.commits| ensures CommitOk(x, i) {
      assert CommitOk(x.(commits := w.commits), i);
    }
    NewCommitOk(w, a);
  }

  lemma NewCommitOk(w: World, a: Agent)
    requires Inv(w) && PhaseOf(w, a).Building?
    ensures CommitOk(WriteCommit(w, a), |w.commits|)
  {
    PhaseIsOk(w, a);
    ViewSnoc(PhaseOf(w, a).m.lowers, PhaseOf(w, a).mirror.tree);
    assert WrittenOk(w.history, w.writes[PhaseOf(w, a).mirror.write]);
  }

  lemma CommittedUids(w: World, a: Agent)
    requires Inv(w) && PhaseOf(w, a).Building?
    ensures UidsOk(WriteCommit(w, a))
  {
    PhaseIsOk(w, a);
    forall i | 0 <= i < |w.commits| ensures w.commits[i].uid != PhaseOf(w, a).mirror.uid {
      assert CommitOk(w, i);
    }
  }

  lemma LowersKeep(w: World, lowers: seq<Tree>)
    requires Inv(w) && AreLayers(lowers) && View(lowers) == View(w.manifest.lowers)
    ensures Inv(w.(manifest := w.manifest.(lowers := lowers)))
  {
    var x := w.(manifest := w.manifest.(lowers := lowers));
    forall b | b in x.phases ensures PhaseOk(x, b) {
      PhaseIsOk(w, b);
    }
    CommitsStayOk(w, x);
  }

  lemma CompactKeeps(w: World, k: nat)
    requires Inv(w) && ValidStep(w, Step.Compact(k))
    ensures Inv(CompactNewest(w, k)) && View(CompactNewest(w, k).manifest.lowers) == View(w.manifest.lowers)
  {
    if k < |w.manifest.lowers| {
      assert w.manifest.lowers == w.manifest.lowers[..k] + w.manifest.lowers[k..];
      BuildKeepsView(w.manifest.lowers[..k], w.manifest.lowers[k..]);
      LowersKeep(w, CompactNewest(w, k).manifest.lowers);
    }
  }

  // ---- moves of one agent ----

  lemma MoveKeeps(w: World, a: Agent, p: Phase)
    requires Inv(w) && PhaseOk(At(w, a, p), a) && !Finishing(p)
    ensures Inv(At(w, a, p))
  {
    var x := At(w, a, p);
    forall b | b in x.phases ensures PhaseOk(x, b) {
      if b != a {
        PhaseIsOk(w, b);
      }
    }
    CommitsStayOk(w, x);
  }

  lemma LockKeeps(w: World, a: Agent, p: Phase)
    requires Inv(w) && w.lock.None? && (p.Hydrating? || p.Committing?) && PhaseOk(Locked(w, a, p), a)
    ensures Inv(Locked(w, a, p))
  {
    var x := Locked(w, a, p);
    forall b | b in x.phases ensures PhaseOk(x, b) {
      if b != a {
        PhaseIsOk(w, b);
      }
    }
    CommitsStayOk(w, x);
  }

  lemma UnlockKeeps(w: World, a: Agent)
    requires Inv(w) && Holding(PhaseOf(w, a))
    ensures Inv(Unlocked(w, a))
  {
    var x := Unlocked(w, a);
    PhaseIsOk(w, a);
    forall b | b in x.phases ensures PhaseOk(x, b) {
      PhaseIsOk(w, b);
      if b != a && Holding(PhaseOf(w, b)) {
        OnlyHolder(w, a, b);
      }
    }
    CommitsStayOk(w, x);
  }

  /** Uppers change and writes are added. */
  lemma UppersKeep(w: World, x: World)
    requires Inv(w) && w.writes <= x.writes && x == w.(uppers := x.uppers, writes := x.writes)
    requires UppersOk(x) && WritesOk(x)
    ensures Inv(x)
  {
    forall b | b in x.phases ensures PhaseOk(x, b) {
      PhaseIsOk(w, b);
    }
    CommitsStayOk(w, x);
  }

  lemma WriteKeeps(w: World, a: Agent, upper: Tree)
    requires Inv(w) && IsLayer(upper)
    ensures Inv(WriteUpper(w, a, upper))
  {
    if PhaseOf(w, a).Mounted? {
      PhaseIsOk(w, a);
      ViewSnoc(PhaseOf(w, a).m.lowers, upper);
      UppersKeep(w, WriteUpper(w, a, upper));
    }
  }

  /** A step of the finishing committer. */
  lemma FinishKeeps(w: World, a: Agent, x: World)
    requires Inv(w) && Finishing(PhaseOf(w, a)) && (x.mirror == w.mirror || x.mirror.None?)
    requires x == At(w, a, PhaseOf(x, a)).(mirror := x.mirror) && Finishing(PhaseOf(x, a))
    ensures Inv(x)
  {
    PhaseIsOk(w, a);
    forall b | b in x.phases ensures PhaseOk(x, b) {
      PhaseIsOk(w, b);
      if b != a && Holding(PhaseOf(w, b)) {
        OnlyHolder(w, a, b);
      }
    }
    CommitsStayOk(w, x);
  }

  lemma CleanupKeeps(w: World, a: Agent)
    requires Inv(w)
    ensures Inv(RemoveMirror(w, a)) && Inv(RemoveUpper(w, a))
  {
    EmptyIsView();
    if PhaseOf(w, a).Cleaning? {
      FinishKeeps(w, a, RemoveMirror(w, a));
    }
    if PhaseOf(w, a).Sweeping? {
      FinishKeeps(w, a, At(w, a, Closing));
      UppersKeep(At(w, a, Closing), RemoveUpper(w, a));
    }
  }

  lemma CrashKeeps(w: World, node: nat)
    requires Inv(w)
    ensures Inv(Do(w, Crash(node)))
  {
    var x := Do(w, Crash(node));
    forall b | b in x.phases ensures PhaseOk(x, b) {
      PhaseIsOk(w, b);
    }
    CommitsStayOk(w, x);
  }

  lemma AcquireKeeps(w: World, a: Agent)
    requires Inv(w)
    ensures Inv(AcquireLock(w, a))
  {
    PhaseIsOk(w, a);
    if PhaseOf(w, a).Loaded? {
      if w.lock.Some? {
        MoveKeeps(w, a, Idle);
      } else {
        LockKeeps(w, a, Hydrating(PhaseOf(w, a).m));
      }
    }
  }

  lemma HydrateKeeps(w: World, a: Agent)
    requires Inv(w)
    ensures Inv(HydrateUpper(w, a))
  {
    if PhaseOf(w, a).Hydrating? {
      PhaseIsOk(w, a);
      MoveKeeps(w, a, Mounted(PhaseOf(w, a).m));
      EmptyIsView();
      UppersKeep(At(w, a, Mounted(PhaseOf(w, a).m)), HydrateUpper(w, a));
    }
  }

  lemma PickUpKeeps(w: World, a: Agent, of: Agent)
    requires Inv(w)
    ensures Inv(PickRecord(w, a, of))
  {
    PhaseIsOk(w, of);
    if PickRecord(w, a, of) != w {
      MoveKeeps(w, a, Picked(of, w.turn, PhaseOf(w, of).m));
    }
  }

  lemma UnmountKeeps(w: World, a: Agent)
    requires Inv(w) && PhaseOf(w, a).Mounted?
    ensures Inv(UnmountChild(w, a))
  {
    var m := PhaseOf(w, a).m;
    var x := Published(w, a.node, m);
    HolderPublishes(w, a);
    PhaseIsOk(x, a);
    assert PhaseOf(x, a) == Mounted(m);
    MoveKeeps(x, a, Draining(m));
  }

  lemma ReadMirrorKeeps(w: World, a: Agent)
    requires Inv(w)
    ensures Inv(ReadLatest(w, a))
  {
    if PhaseOf(w, a).Committing? {
      PhaseIsOk(w, a);
      if w.mirror.None? || w.mirror.value.base != w.manifest.generation {
        UnlockKeeps(w, a);
      } else {
        MoveKeeps(w, a, Building(w.mirror.value, w.manifest));
      }
    }
  }

  lemma MountStepKeeps(w: World, s: Step)
    requires Inv(w) && ValidStep(w, s)
    requires s.Load? || s.Acquire? || s.Hydrate? || s.Write? || s.Publish? || s.PickUp? || s.LatePublish?
    ensures Inv(Do(w, s))
  {
    match s {
      case Load(a) =>
        if PhaseOf(w, a).Idle? {
          MoveKeeps(w, a, Loaded(w.manifest));
        }
      case Acquire(a) => AcquireKeeps(w, a);
      case Hydrate(a) => HydrateKeeps(w, a);
      case Write(a, upper) => WriteKeeps(w, a, upper);
      case Publish(a) =>
        if PhaseOf(w, a).Mounted? {
          HolderPublishes(w, a);
        }
      case PickUp(a, of) => PickUpKeeps(w, a, of);
      case LatePublish(a) =>
        if PhaseOf(w, a).Picked? {
          LatePublishKeeps(w, a);
        }
      case _ =>
    }
  }

  lemma StepKeeps(w: World, s: Step)
    requires Inv(w) && ValidStep(w, s)
    ensures Inv(Do(w, s))
  {
    match s {
      case Unmount(a) =>
        if PhaseOf(w, a).Mounted? {
          UnmountKeeps(w, a);
        }
      case Release(a) =>
        if PhaseOf(w, a).Draining? {
          UnlockKeeps(w, a);
        }
      case MountFails(a) =>
        if PhaseOf(w, a).Mounted? {
          UnlockKeeps(w, a);
        }
      case BeginCommit(a) =>
        if PhaseOf(w, a).Idle? && w.lock.None? {
          LockKeeps(w, a, Committing);
        }
      case ReadMirror(a) => ReadMirrorKeeps(w, a);
      case WriteManifest(a) =>
        if PhaseOf(w, a).Building? {
          WriteCommitKeeps(w, a);
        }
      case CleanMirror(a) => CleanupKeeps(w, a);
      case CleanUpper(a) => CleanupKeeps(w, a);
      case EndCommit(a) =>
        if PhaseOf(w, a).Closing? {
          UnlockKeeps(w, a);
        }
      case CommitFails(a) =>
        if CanFail(PhaseOf(w, a)) {
          UnlockKeeps(w, a);
        }
      case Vanish(a) => MoveKeeps(w, a, Idle);
      case Crash(node) => CrashKeeps(w, node);
      case Compact(k) => CompactKeeps(w, k);
      case _ => MountStepKeeps(w, s);
    }
  }

  lemma {:induction false} RunKeeps(start: World, steps: seq<Step>)
    requires IsStart(start) && ValidRun(start, steps)
    ensures Inv(Run(start, steps))
    decreases |steps|
  {
    if steps == [] {
      StartIsOk(start);
    } else {
      RunKeeps(start, steps[..|steps| - 1]);
      StepKeeps(Run(start, steps[..|steps| - 1]), steps[|steps| - 1]);
    }
  }

  // ---- main results ----

  /**
   Single writer: whatever the interleaving, the late publications and the crashes, at most one agent is
   mounted read-write or committing, and while one is, the lock file exists and is its own.
   */
  lemma SingleWriter(start: World, steps: seq<Step>, a: Agent, b: Agent)
    requires IsStart(start) && ValidRun(start, steps)
    requires var w := Run(start, steps); Holding(PhaseOf(w, a)) && Holding(PhaseOf(w, b))
    ensures a == b && Run(start, steps).lock == Some(a)
  {
    RunKeeps(start, steps);
    OnlyHolder(Run(start, steps), a, b);
  }

  /**
   A publisher's heartbeat goes through exactly when the lock file is there and is the one its record's
   mount created: then, and only then, it publishes under its own lock.
   */
  lemma HeartbeatTells(start: World, steps: seq<Step>, a: Agent)
    requires IsStart(start) && ValidRun(start, steps) && PhaseOf(Run(start, steps), a).Picked?
    ensures var w := Run(start, steps);
            var p := PhaseOf(w, a);
            Heartbeat(w, p.turn) <==> w.lock == Some(p.of) && w.turn == p.turn
  {
    RunKeeps(start, steps);
    PhaseIsOk(Run(start, steps), a);
  }

  /**
   Mirror and generation change only by a step of the lock holder or by a publisher of a picked-up record;
   the latter's publication is its holder's exactly when its heartbeat goes through.
   */
  lemma OnlyHolderChanges(start: World, steps: seq<Step>, s: Step)
    requires IsStart(start) && ValidRun(start, steps)
    requires var w := Run(start, steps);
             Do(w, s).mirror != w.mirror || Do(w, s).manifest.generation != w.manifest.generation
    ensures !s.Compact? && !s.Crash?
    ensures var w := Run(start, steps);
            var p := PhaseOf(w, s.a);
            || w.lock == Some(s.a)
            || (s.LatePublish? && p.Picked? && (Heartbeat(w, p.turn) <==> w.lock == Some(p.of) && w.turn == p.turn))
  {
    RunKeeps(start, steps);
    if s.LatePublish? {
      HeartbeatTells(start, steps, s.a);
    } else {
      HolderChanges(Run(start, steps), s);
    }
  }

  lemma HolderChanges(w: World, s: Step)
    requires Inv(w) && !s.LatePublish?
    requires Do(w, s).mirror != w.mirror || Do(w, s).manifest.generation != w.manifest.generation
    ensures !s.Compact? && !s.Crash? && w.lock == Some(s.a)
  {
    if s.Compact? {
      CompactsQuietly(w, s.k);
      assert false;
    } else if s.Publish? || s.Unmount? || s.WriteManifest? || s.CleanMirror? {
      PhaseIsOk(w, s.a);
      ChangerHolds(w, s);
    } else {
      QuietSteps(w, s);
      assert false;
    }
  }

  lemma CompactsQuietly(w: World, k: nat)
    ensures var x := Do(w, Step.Compact(k)); x.mirror == w.mirror && x.manifest.generation == w.manifest.generation
  {
  }

  lemma ChangerHolds(w: World, s: Step)
    requires (s.Publish? || s.Unmount? || s.WriteManifest? || s.CleanMirror?) && Do(w, s) != w
    ensures Holding(PhaseOf(w, s.a))
  {
  }

  // ---- what becomes of the lock file ----

  /** The lock file exists and nobody is left who would remove it. */
  predicate Stranded(w: World) {
    w.lock.Some? && !Holding(PhaseOf(w, w.lock.value))
  }

  /** The holder's node crashes, or its thread fails where nothing releases the lock, as between lock and mount. */
  predicate Kills(w: World, s: Step) {
    w.lock.Some? && (s == Vanish(w.lock.value) || s == Crash(w.lock.value.node))
  }

  /**
   A lock file is stranded exactly by the death of its holder, and then for good: no later step removes it or
   gives it to another.
   */
  lemma StrandedByDeath(start: World, steps: seq<Step>, s: Step)
    requires IsStart(start) && ValidRun(start, steps)
    ensures var w := Run(start, steps);
            && (Stranded(Do(w, s)) <==> Stranded(w) || Kills(w, s))
            && (Stranded(w) ==> Do(w, s).lock == w.lock)
  {
    RunKeeps(start, steps);
    var w := Run(start, steps);
    StrandingStep(w, s);
  }

  lemma StrandingStep(w: World, s: Step)
    requires PhasesOk(w)
    ensures Stranded(Do(w, s)) <==> Stranded(w) || Kills(w, s)
    ensures Stranded(w) ==> Do(w, s).lock == w.lock
  {
    if s.Compact? || s.Crash? {
      OthersDieAlone(w, s);
    } else if w.lock == Some(s.a) {
      HolderSteps(w, s);
    } else {
      PhaseIsOk(w, s.a);
      OtherSteps(w, s);
    }
  }

  lemma OthersDieAlone(w: World, s: Step)
    requires s.Compact? || s.Crash?
    ensures Do(w, s).lock == w.lock && (Stranded(Do(w, s)) <==> Stranded(w) || Kills(w, s))
  {
  }

  /** A step of the holder keeps the lock file and a holder, or removes it, or is its death. */
  lemma HolderSteps(w: World, s: Step)
    requires !s.Compact? && !s.Crash? && w.lock == Some(s.a)
    ensures Stranded(Do(w, s)) <==> Stranded(w) || s.Vanish?
    ensures Stranded(w) ==> Do(w, s).lock == w.lock
  {
  }

  lemma OtherSteps(w: World, s: Step)
    requires !s.Compact? && !s.Crash? && w.lock != Some(s.a) && PhaseOk(w, s.a)
    ensures Stranded(Do(w, s)) <==> Stranded(w)
    ensures Stranded(w) ==> Do(w, s).lock == w.lock
  {
  }

  lemma {:induction false} StrandedForGood(start: World, steps: seq<Step>, n: nat)
    requires IsStart(start) && ValidRun(start, steps) && n <= |steps| && Stranded(Run(start, steps[..n]))
    ensures Stranded(Run(start, steps)) && Run(start, steps).lock == Run(start, steps[..n]).lock
    decreases |steps|
  {
    if n == |steps| {
      assert steps[..n] == steps;
    } else {
      var prior := steps[..|steps| - 1];
      assert prior[..n] == steps[..n];
      StrandedForGood(start, prior, n);
      StrandedByDeath(start, prior, steps[|steps| - 1]);
    }
  }

  /** How a holder gives up from where it is. */
  function GivingUp(p: Phase, a: Agent): seq<Step> {
    if p.Hydrating? then [Hydrate(a), MountFails(a)]
    else if p.Mounted? then [MountFails(a)]
    else if p.Draining? then [Release(a)]
    else [CommitFails(a)]
  }

  /** Nothing but the lock file went, and uppers that were empty may be filled. */
  ghost predicate OnlyUnlocked(w: World, x: World, a: Agent) {
    && x.lock.None? && PhaseOf(x, a).Idle?
    && x.manifest == w.manifest && x.mirror == w.mirror && x.commits == w.commits && x.writes == w.writes
    && forall n :: n != a.node || UpperOf(w, n) != EMPTY_TREE ==> UpperAt(x, n) == UpperAt(w, n)
  }

  /** While it lives, the holder can give up at any point on its own: that removes the lock file and nothing else. */
  lemma HolderCanGiveUp(start: World, steps: seq<Step>, a: Agent)
    requires IsStart(start) && ValidRun(start, steps) && Holding(PhaseOf(Run(start, steps), a))
    ensures var w := Run(start, steps); OnlyUnlocked(w, Run(w, GivingUp(PhaseOf(w, a), a)), a)
  {
    var w := Run(start, steps);
    if PhaseOf(w, a).Hydrating? {
      FailsHydrating(w, a);
    } else {
      FailsAtOnce(w, a);
    }
  }

  lemma FailsAtOnce(w: World, a: Agent)
    requires Holding(PhaseOf(w, a)) && !PhaseOf(w, a).Hydrating?
    ensures OnlyUnlocked(w, Run(w, GivingUp(PhaseOf(w, a), a)), a)
  {
    var s := GivingUp(PhaseOf(w, a), a)[0];
    OneStep(w, s);
    assert Do(w, s) == Unlocked(w, a);
  }

  lemma FailsHydrating(w: World, a: Agent)
    requires PhaseOf(w, a).Hydrating?
    ensures OnlyUnlocked(w, Run(w, [Hydrate(a), MountFails(a)]), a)
  {
    var x := HydrateUpper(w, a);
    OneStep(w, Hydrate(a));
    assert [Hydrate(a), MountFails(a)][..1] == [Hydrate(a)];
    assert Run(w, [Hydrate(a), MountFails(a)]) == Do(x, MountFails(a)) == Unlocked(x, a);
  }

  lemma OneStep(w: World, s: Step)
    ensures Run(w, [s]) == Do(w, s)
  {
    assert [s][..0] == [];
  }

  /** The label of an epoch: the generation of the record that published it is that of its write. */
  predicate TrueLabel(w: World, x: Mirror)
    requires x.write < |w.writes|
  {
    x.base == w.writes[x.write].generation
  }

  /** Two views agree on every path the upper neither holds nor hides. */
  predicate AgreeUnder(upper: Tree, v: Tree, u: Tree) {
    forall p | p in v.Keys + u.Keys && !MarkerPath(p) && p !in upper && !Hides(upper, p) ::
      p in v && p in u && v[p] == u[p]
  }

  /**
   Commits land where they are labelled: commit i is of an epoch labelled with generation i, on exactly the
   view its record had mounted.  Its upper was written over generation i, on that view, if and only if the
   label is true; it is never of a later generation.  It shows what its writer saw if and only if the two
   views agree wherever the upper neither holds nor hides anything, so always if the label is true.
   */
  lemma CommitsLandWhereWritten(start: World, steps: seq<Step>)
    requires IsStart(start) && ValidRun(start, steps)
    ensures var w := Run(start, steps);
            && |w.history| == w.manifest.generation + 1 == |w.commits| + 1
            && View(w.manifest.lowers) == w.history[w.manifest.generation]
            && (forall i, j | 0 <= i < j < |w.commits| :: w.commits[i].uid != w.commits[j].uid)
            && forall i | 0 <= i < |w.commits| :: LandsWhereLabelled(w, i)
  {
    RunKeeps(start, steps);
    var w := Run(start, steps);
    forall i | 0 <= i < |w.commits| ensures LandsWhereLabelled(w, i) {
      Lands(w, i);
    }
  }

  predicate LandsWhereLabelled(w: World, i: nat)
    requires i < |w.commits| && |w.history| == |w.commits| + 1
  {
    var c := w.commits[i];
    && c.base == i && c.beneath == w.history[i] && w.history[i + 1] == Apply(c.beneath, c.tree)
    && IsOf(w, c.tree, c.write)
    && var made := w.writes[c.write];
       && made.generation <= i && made.saw == Apply(w.history[made.generation], c.tree)
       && (made.generation == i <==> TrueLabel(w, c))
       && (w.history[i + 1] == made.saw <==> AgreeUnder(c.tree, w.history[i], w.history[made.generation]))
  }

  lemma Lands(w: World, i: nat)
    requires Inv(w) && i < |w.commits|
    ensures LandsWhereLabelled(w, i)
  {
    var c := w.commits[i];
    assert CommitOk(w, i);
    var made := w.writes[c.write];
    assert WrittenOk(w.history, made);
    AgreementShows(c.tree, w.history[i], w.history[made.generation]);
  }

  lemma AgreementShows(upper: Tree, v: Tree, u: Tree)
    ensures Apply(v, upper) == Apply(u, upper) <==> AgreeUnder(upper, v, u)
  {
    var a, b := Apply(v, upper), Apply(u, upper);
    if a == b {
      forall p | p in v.Keys + u.Keys && !MarkerPath(p) && p !in upper && !Hides(upper, p)
        ensures p in v && p in u && v[p] == u[p]
      {
        assert p in a || p in b;
        assert a[p] == b[p];
      }
    }
    if AgreeUnder(upper, v, u) {
      assert a.Keys == b.Keys;
    }
  }

  /** The latest state of the child that a commit would make permanent. */
  function Pending(w: World): Tree {
    if w.mirror.Some? && w.mirror.value.base == w.manifest.generation
    then Apply(w.mirror.value.beneath, w.mirror.value.tree)
    else View(w.manifest.lowers)
  }

  /** What the commit under way is about to make permanent. */
  function Underway(w: World, a: Agent): Tree
    requires PhaseOf(w, a).Building?
  {
    Apply(PhaseOf(w, a).mirror.beneath, PhaseOf(w, a).mirror.tree)
  }

  /**
   Only publications change the pending state; mounting, compacting, cleaning up and crashing do not.  A
   commit makes permanent what it read, so it keeps the pending state exactly if nothing else became pending
   since, in particular if the mirror is still the one it read.
   */
  lemma OnlyPublicationsChangePending(start: World, steps: seq<Step>, s: Step)
    requires IsStart(start) && ValidRun(start, steps) && ValidStep(Run(start, steps), s)
    requires !s.Publish? && !s.Unmount? && !s.LatePublish?
    ensures var w := Run(start, steps);
            if s.WriteManifest? && PhaseOf(w, s.a).Building? then
              && Pending(Do(w, s)) == Underway(w, s.a)
              && (w.mirror == Some(PhaseOf(w, s.a).mirror) ==> Pending(w) == Underway(w, s.a))
            else Pending(Do(w, s)) == Pending(w)
  {
    RunKeeps(start, steps);
    StepKeepsPending(Run(start, steps), s);
  }

  lemma CommitMakesPermanent(w: World, a: Agent)
    requires Inv(w) && PhaseOf(w, a).Building?
    ensures Pending(WriteCommit(w, a)) == Underway(w, a)
    ensures w.mirror == Some(PhaseOf(w, a).mirror) ==> Pending(w) == Underway(w, a)
  {
    PhaseIsOk(w, a);
    ViewSnoc(PhaseOf(w, a).m.lowers, PhaseOf(w, a).mirror.tree);
  }

  /** All other steps leave mirror and manifest alone. */
  lemma QuietSteps(w: World, s: Step)
    requires !s.Publish? && !s.Unmount? && !s.LatePublish? && !s.WriteManifest? && !s.CleanMirror? && !s.Compact?
    ensures Do(w, s).mirror == w.mirror && Do(w, s).manifest == w.manifest
  {
  }

  lemma CleanupKeepsPending(w: World, a: Agent)
    requires Inv(w) && PhaseOf(w, a).Cleaning?
    ensures Pending(RemoveMirror(w, a)) == Pending(w)
  {
    PhaseIsOk(w, a);
  }

  lemma CompactKeepsPending(w: World, k: nat)
    requires Inv(w) && ValidStep(w, Step.Compact(k))
    ensures Pending(CompactNewest(w, k)) == Pending(w)
  {
    CompactKeeps(w, k);
    CompactsQuietly(w, k);
    SameViewPending(w, CompactNewest(w, k));
  }

  lemma SameViewPending(w: World, x: World)
    requires x.mirror == w.mirror && x.manifest.generation == w.manifest.generation
    requires View(x.manifest.lowers) == View(w.manifest.lowers)
    ensures Pending(x) == Pending(w)
  {
  }

  lemma SamePending(w: World, x: World)
    requires x.mirror == w.mirror && x.manifest == w.manifest
    ensures Pending(x) == Pending(w)
  {
  }

  lemma StepKeepsPending(w: World, s: Step)
    requires Inv(w) && ValidStep(w, s) && !s.Publish? && !s.Unmount? && !s.LatePublish?
    ensures if s.WriteManifest? && PhaseOf(w, s.a).Building? then
              && Pending(Do(w, s)) == Underway(w, s.a)
              && (w.mirror == Some(PhaseOf(w, s.a).mirror) ==> Pending(w) == Underway(w, s.a))
            else Pending(Do(w, s)) == Pending(w)
  {
    if s.WriteManifest? && PhaseOf(w, s.a).Building? {
      CommitMakesPermanent(w, s.a);
    } else if s.CleanMirror? && PhaseOf(w, s.a).Cleaning? {
      CleanupKeepsPending(w, s.a);
    } else if s.Compact? {
      CompactKeepsPending(w, s.k);
    } else {
      if !s.WriteManifest? && !s.CleanMirror? {
        QuietSteps(w, s);
      }
      SamePending(w, Do(w, s));
    }
  }

  /**
   A publication makes pending the upper over what its record had mounted, if that is the manifest's present
   generation; if the record is older, the pending state falls back to the committed view.
   */
  lemma PublicationShows(w: World, node: nat, m: Snapshot)
    requires Dirty(UpperOf(w, node))
    ensures Pending(Published(w, node, m)) ==
            if m.generation == w.manifest.generation then View(m.lowers + [UpperOf(w, node)])
            else View(w.manifest.lowers)
  {
    ViewSnoc(m.lowers, UpperOf(w, node));
  }
}
