/**
 Cold recoverability at every crash point, over all runs of archives, recalls, commits and compactions;
 exactly when a recall and an archive complete; and how a commit to a cold child strands it.
 */
module ColdSafety {
  import opened Packs
  import opened Names
  import opened Cold

  /** x is safe and promises the same bytes of the same generation as w. */
  predicate SafeAfter(w: World, x: World) {
    Safe(x) && Promised(x.manifest) == Promised(w.manifest) && x.manifest.generation == w.manifest.generation
  }

  /** And its packs are where they were. */
  predicate SafeInPlace(w: World, x: World) {
    SafeAfter(w, x) && x.manifest.lowers == w.manifest.lowers
  }

  /** And its packs are where they were, or all in the hot directory. */
  predicate SafeOrPlaced(w: World, x: World, hotDir: string) {
    && SafeAfter(w, x)
    && (x.manifest.lowers == w.manifest.lowers
        || x.manifest.lowers == Placed(w.manifest.lowers, hotDir, |w.manifest.lowers|))
  }

  // ---- archive ----

  /** Writing the right bytes under a pack's key spoils no other pack's object. */
  lemma UploadKeepsObjects(w: World, prefix: string, uri: string, i: nat, k: nat, bytes: string)
    requires DistinctNames(w.manifest.lowers) && i < |w.manifest.lowers| && k < |w.manifest.lowers|
    requires Matches(bytes, w.manifest.lowers[i]) && ObjectMatches(w.store, uri, w.manifest.lowers[k])
    ensures ObjectMatches(w.store[PackKey(prefix, w.manifest.lowers[i]) := bytes], uri, w.manifest.lowers[k])
  {
    if PackKey(prefix, w.manifest.lowers[i]) == PackKey(uri, w.manifest.lowers[k]) {
      KeysDiffer(prefix, uri, w.manifest.lowers[i], w.manifest.lowers[k]);
    }
  }

  /** The first i packs are hot and uploaded under the prefix. */
  predicate Uploaded(w: World, prefix: string, i: nat)
    requires i <= |w.manifest.lowers|
  {
    forall j | 0 <= j < i ::
      w.manifest.lowers[j].path in w.hot && ObjectMatches(w.store, prefix, w.manifest.lowers[j])
  }

  lemma UploadStep(w: World, prefix: string, i: nat)
    requires Safe(w) && i < |w.manifest.lowers| && Uploaded(w, prefix, i)
    requires w.manifest.lowers[i].path in w.hot
    ensures var p := w.manifest.lowers[i];
            var x := w.(store := w.store[PackKey(prefix, p) := w.hot[p.path]]);
            Safe(x) && Uploaded(x, prefix, i + 1)
  {
    var p := w.manifest.lowers[i];
    var x := w.(store := w.store[PackKey(prefix, p) := w.hot[p.path]]);
    forall j | 0 <= j < i ensures ObjectMatches(x.store, prefix, w.manifest.lowers[j]) {
      UploadKeepsObjects(w, prefix, prefix, i, j, w.hot[p.path]);
    }
    if w.manifest.packState.Cold? {
      forall k | 0 <= k < |w.manifest.lowers|
        ensures ObjectMatches(x.store, w.manifest.uri, w.manifest.lowers[k])
      {
        UploadKeepsObjects(w, prefix, w.manifest.uri, i, k, w.hot[p.path]);
      }
    }
  }

  lemma {:induction false} UploadsAreSafe(w: World, prefix: string, removeHot: bool, text: string, i: nat, n: nat)
    requires Safe(w) && i <= |w.manifest.lowers| && Uploaded(w, prefix, i) && Stripped(prefix) != ""
    ensures var rest := Snapshot(w.manifest, prefix, removeHot, text);
            SafeInPlace(w, Cut(w, Uploads(w.manifest, prefix, i, rest), n).0)
    decreases |w.manifest.lowers| - i
  {
    var m, rest := w.manifest, Snapshot(w.manifest, prefix, removeHot, text);
    if i == |m.lowers| {
      SnapshotIsSafe(w, prefix, removeHot, text, n);
    } else {
      var p := m.lowers[i];
      var e := Upload(PackKey(prefix, p), p.path);
      CutStep(w, e, Uploads(m, prefix, i + 1, rest), Uploads(m, prefix, i, rest), n);
      if n > 0 && p.path in w.hot {
        UploadStep(w, prefix, i);
        UploadsAreSafe(Exec(w, e).value, prefix, removeHot, text, i + 1, n - 1);
      }
    }
  }

  lemma ManifestUploadKeeps(w: World, prefix: string, text: string)
    requires Safe(w) && Uploaded(w, prefix, |w.manifest.lowers|)
    ensures var x := w.(store := w.store[ManifestKey(prefix) := text]);
            Safe(x) && Uploaded(x, prefix, |w.manifest.lowers|)
  {
    forall i | 0 <= i < |w.manifest.lowers|
      ensures PackKey(prefix, w.manifest.lowers[i]) != ManifestKey(prefix)
      ensures PackKey(w.manifest.uri, w.manifest.lowers[i]) != ManifestKey(prefix)
    {
      assert NotManifest(w.manifest.lowers[i]);
      ManifestKeyDiffers(prefix, prefix, w.manifest.lowers[i]);
      ManifestKeyDiffers(w.manifest.uri, prefix, w.manifest.lowers[i]);
    }
    var x := w.(store := w.store[ManifestKey(prefix) := text]);
    forall i | 0 <= i < |w.manifest.lowers|
      ensures ObjectMatches(w.store, prefix, w.manifest.lowers[i]) ==>
                ObjectMatches(x.store, prefix, w.manifest.lowers[i])
      ensures ObjectMatches(w.store, w.manifest.uri, w.manifest.lowers[i]) ==>
                ObjectMatches(x.store, w.manifest.uri, w.manifest.lowers[i])
    {
    }
  }

  lemma ArchivedIsSafe(w: World, prefix: string, removeHot: bool)
    requires Safe(w) && Uploaded(w, prefix, |w.manifest.lowers|) && Stripped(prefix) != ""
    ensures Safe(w.(manifest := WithColdState(w.manifest, prefix, removeHot)))
  {
    StrippedTwice(prefix);
  }

  lemma SnapshotIsSafe(w: World, prefix: string, removeHot: bool, text: string, n: nat)
    requires Safe(w) && Uploaded(w, prefix, |w.manifest.lowers|) && Stripped(prefix) != ""
    ensures SafeInPlace(w, Cut(w, Snapshot(w.manifest, prefix, removeHot, text), n).0)
  {
    var m := w.manifest;
    var x := w.(store := w.store[ManifestKey(prefix) := text]);
    CutStep(w, UploadManifest(ManifestKey(prefix), text), Registration(m, prefix, removeHot),
            Snapshot(m, prefix, removeHot, text), n);
    if n > 0 {
      ManifestUploadKeeps(w, prefix, text);
      RegistrationIsSafe(x, prefix, removeHot, n - 1);
    }
  }

  lemma RegistrationIsSafe(w: World, prefix: string, removeHot: bool, n: nat)
    requires Safe(w) && Uploaded(w, prefix, |w.manifest.lowers|) && Stripped(prefix) != ""
    ensures SafeInPlace(w, Cut(w, Registration(w.manifest, prefix, removeHot), n).0)
  {
    var m, archived := w.manifest, WithColdState(w.manifest, prefix, removeHot);
    CutStep(w, SaveManifest(archived), Eviction(m, removeHot), Registration(m, prefix, removeHot), n);
    if n > 0 {
      ArchivedIsSafe(w, prefix, removeHot);
      if removeHot {
        UnlinksAreSafe(w.(manifest := archived), 0, n - 1);
      }
    }
  }

  lemma {:induction false} UnlinksAreSafe(w: World, i: nat, n: nat)
    requires Safe(w) && w.manifest.packState.Cold? && i <= |w.manifest.lowers|
    ensures SafeInPlace(w, Cut(w, Unlinks(w.manifest.lowers, i), n).0)
    decreases |w.manifest.lowers| - i
  {
    var lowers := w.manifest.lowers;
    if i < |lowers| && n > 0 {
      var e := Unlink(lowers[i].path);
      CutStep(w, e, Unlinks(lowers, i + 1), Unlinks(lowers, i), n);
      UnlinksAreSafe(Exec(w, e).value, i + 1, n - 1);
    }
  }

  // ---- recall ----

  predicate StagedFrom(w: World, i: nat) {
    forall j | i <= j < |w.manifest.lowers| :: StagedAt(w, j)
  }

  predicate StagedAt(w: World, j: nat)
    requires j < |w.manifest.lowers|
  {
    j in w.staged && Matches(w.staged[j], w.manifest.lowers[j])
  }

  predicate MovedUpTo(w: World, hotDir: string, i: nat)
    requires i <= |w.manifest.lowers|
  {
    forall j | 0 <= j < i :: MovedAt(w, hotDir, j)
  }

  predicate MovedAt(w: World, hotDir: string, j: nat)
    requires j < |w.manifest.lowers|
  {
    var f := FinalPath(hotDir, w.manifest.lowers[j]);
    f in w.hot && Matches(w.hot[f], w.manifest.lowers[j])
  }

  lemma FinalNames(hotDir: string, p: Pack)
    ensures SameName(AtFinalPath(hotDir, p), p)
  {
    BasenameHasNoSlash(p.path);
    BasenameInDir(hotDir, Basename(p.path));
  }

  /** The first i packs are downloaded and verified. */
  predicate StagedUpTo(w: World, i: nat)
    requires i <= |w.manifest.lowers|
  {
    forall j | 0 <= j < i :: StagedAt(w, j)
  }

  lemma DownloadStep(w: World, i: nat) returns (x: World)
    requires Safe(w) && i < |w.manifest.lowers| && StagedUpTo(w, i)
    requires ObjectMatches(w.store, w.manifest.uri, w.manifest.lowers[i])
    ensures Exec(w, DownloadOf(w.manifest, i)) == Some(x) && x.manifest == w.manifest
    ensures Safe(x) && StagedUpTo(x, i + 1)
  {
    x := w.(staged := w.staged[i := w.store[PackKey(w.manifest.uri, w.manifest.lowers[i])]]);
    assert forall j | 0 <= j < i :: StagedAt(w, j) ==> StagedAt(x, j);
  }

  function DownloadOf(m: Manifest, i: nat): Effect
    requires i < |m.lowers|
  {
    Download(i, PackKey(m.uri, m.lowers[i]), m.lowers[i])
  }

  lemma {:induction false} DownloadsAreSafe(w: World, hotDir: string, i: nat, n: nat)
    requires Safe(w) && i <= |w.manifest.lowers| && StagedUpTo(w, i)
    ensures SafeOrPlaced(w, Cut(w, Downloads(w.manifest, i, Installation(w.manifest, hotDir)), n).0, hotDir)
    decreases |w.manifest.lowers| - i
  {
    var m, rest := w.manifest, Installation(w.manifest, hotDir);
    if i == |m.lowers| {
      MoveInsAreSafe(w, hotDir, n);
    } else if n == 0 {
      CutAtOnce(w, Downloads(m, i, rest), hotDir);
    } else if ObjectMatches(w.store, m.uri, m.lowers[i]) {
      var x := DownloadOnce(w, i, n, rest);
      DownloadsAreSafe(x, hotDir, i + 1, n - 1);
    } else {
      DownloadRaises(w, i, n, rest, hotDir);
    }
  }

  lemma DownloadOnce(w: World, i: nat, n: nat, rest: seq<Effect>) returns (x: World)
    requires Safe(w) && i < |w.manifest.lowers| && StagedUpTo(w, i) && n > 0
    requires ObjectMatches(w.store, w.manifest.uri, w.manifest.lowers[i])
    ensures x.manifest == w.manifest && Safe(x) && StagedUpTo(x, i + 1)
    ensures Cut(w, Downloads(w.manifest, i, rest), n) == Cut(x, Downloads(w.manifest, i + 1, rest), n - 1)
  {
    x := DownloadStep(w, i);
    CutStep(w, DownloadOf(w.manifest, i), Downloads(w.manifest, i + 1, rest), Downloads(w.manifest, i, rest), n);
  }

  lemma DownloadRaises(w: World, i: nat, n: nat, rest: seq<Effect>, hotDir: string)
    requires Safe(w) && i < |w.manifest.lowers| && n > 0
    requires !ObjectMatches(w.store, w.manifest.uri, w.manifest.lowers[i])
    ensures SafeOrPlaced(w, Cut(w, Downloads(w.manifest, i, rest), n).0, hotDir)
  {
    CutStep(w, DownloadOf(w.manifest, i), Downloads(w.manifest, i + 1, rest), Downloads(w.manifest, i, rest), n);
  }

  lemma MoveInStep(w: World, hotDir: string, i: nat) returns (x: World)
    requires Safe(w) && i < |w.manifest.lowers| && StagedFrom(w, i) && MovedUpTo(w, hotDir, i)
    ensures Exec(w, MoveIn(i, FinalPath(hotDir, w.manifest.lowers[i]))) == Some(x) && x.manifest == w.manifest
    ensures Safe(x) && StagedFrom(x, i + 1) && MovedUpTo(x, hotDir, i + 1)
  {
    var m, f := w.manifest, FinalPath(hotDir, w.manifest.lowers[i]);
    assert StagedAt(w, i);
    x := w.(hot := w.hot[f := w.staged[i]], staged := w.staged - {i});
    assert forall j | i < j < |m.lowers| :: StagedAt(w, j) ==> StagedAt(x, j);
    forall k | 0 <= k < |m.lowers| && k != i
      ensures f != m.lowers[k].path && f != FinalPath(hotDir, m.lowers[k])
    {
      FinalNames(hotDir, m.lowers[i]);
      FinalNames(hotDir, m.lowers[k]);
      assert !SameName(m.lowers[i], m.lowers[k]) by {
        assert if i < k then !SameName(m.lowers[i], m.lowers[k]) else !SameName(m.lowers[k], m.lowers[i]);
      }
    }
    assert forall j | 0 <= j < i :: MovedAt(w, hotDir, j) ==> MovedAt(x, hotDir, j);
  }

  /** How far the moves get before the crash. */
  lemma {:induction false} MoveInsGetTo(w: World, hotDir: string, i: nat, n: nat, rest: seq<Effect>)
    returns (x: World, k: nat, left: nat)
    requires Safe(w) && i <= |w.manifest.lowers| && StagedFrom(w, i) && MovedUpTo(w, hotDir, i)
    ensures x.manifest == w.manifest && k <= |w.manifest.lowers| && (k == |w.manifest.lowers| || left == 0)
    ensures Safe(x) && MovedUpTo(x, hotDir, k)
    ensures Cut(w, MoveIns(w.manifest.lowers, hotDir, i, rest), n)
            == Cut(x, MoveIns(w.manifest.lowers, hotDir, k, rest), left)
    decreases |w.manifest.lowers| - i
  {
    if i == |w.manifest.lowers| || n == 0 {
      return w, i, n;
    }
    var y := MoveInOnce(w, hotDir, i, n, rest);
    x, k, left := MoveInsGetTo(y, hotDir, i + 1, n - 1, rest);
  }

  lemma MoveInsAreSafe(w: World, hotDir: string, n: nat)
    requires Safe(w) && StagedFrom(w, 0)
    ensures SafeOrPlaced(w, Cut(w, Installation(w.manifest, hotDir), n).0, hotDir)
  {
    var save := [SaveManifest(Recalled(w.manifest, hotDir))];
    var x, k, left := MoveInsGetTo(w, hotDir, 0, n, save);
    if k == |w.manifest.lowers| {
      SaveIsSafe(x, hotDir, left);
    } else {
      CutAtOnce(x, MoveIns(w.manifest.lowers, hotDir, k, save), hotDir);
    }
  }

  lemma CutAtOnce(w: World, effects: seq<Effect>, hotDir: string)
    requires Safe(w) && effects != []
    ensures SafeOrPlaced(w, Cut(w, effects, 0).0, hotDir)
  {
  }

  lemma MoveInOnce(w: World, hotDir: string, i: nat, n: nat, rest: seq<Effect>) returns (x: World)
    requires Safe(w) && i < |w.manifest.lowers| && StagedFrom(w, i) && MovedUpTo(w, hotDir, i) && n > 0
    ensures x.manifest == w.manifest && Safe(x) && StagedFrom(x, i + 1) && MovedUpTo(x, hotDir, i + 1)
    ensures Cut(w, MoveIns(w.manifest.lowers, hotDir, i, rest), n)
            == Cut(x, MoveIns(w.manifest.lowers, hotDir, i + 1, rest), n - 1)
  {
    var lowers := w.manifest.lowers;
    x := MoveInStep(w, hotDir, i);
    CutStep(w, MoveIn(i, FinalPath(hotDir, lowers[i])), MoveIns(lowers, hotDir, i + 1, rest),
            MoveIns(lowers, hotDir, i, rest), n);
  }

  lemma SaveIsSafe(w: World, hotDir: string, n: nat)
    requires Safe(w) && MovedUpTo(w, hotDir, |w.manifest.lowers|)
    ensures SafeOrPlaced(w, Cut(w, [SaveManifest(Recalled(w.manifest, hotDir))], n).0, hotDir)
  {
    var save := SaveManifest(Recalled(w.manifest, hotDir));
    RecalledIsSafe(w, hotDir);
    CutStep(w, save, [], [save], n);
  }

  lemma RecalledIsSafe(w: World, hotDir: string)
    requires Safe(w) && MovedUpTo(w, hotDir, |w.manifest.lowers|)
    ensures SafeAfter(w, w.(manifest := Recalled(w.manifest, hotDir)))
  {
    var before, after := w.manifest.lowers, Recalled(w.manifest, hotDir).lowers;
    forall i | 0 <= i < |before| ensures SameName(after[i], before[i]) && NotManifest(after[i]) {
      FinalNames(hotDir, before[i]);
      assert NotManifest(before[i]);
    }
    forall i | 0 <= i < |before|
      ensures after[i].path in w.hot && Matches(w.hot[after[i].path], after[i])
    {
      assert MovedAt(w, hotDir, i);
    }
    forall i, j | 0 <= i < j < |before| ensures !SameName(after[i], after[j]) {
      assert !SameName(before[i], before[j]) && SameName(after[i], before[i]) && SameName(after[j], before[j]);
    }
  }

  // ---- runs ----

  datatype Event =
    | ArchiveEvent(removeHot: bool, text: string, crashAfter: nat)
    | RecallEvent(crashAfter: nat)
    | CommitEvent(pack: Pack, bytes: string)
    | CompactEvent(k: nat, pack: Pack, bytes: string)

  predicate FreshPack(lowers: seq<Pack>, pack: Pack) {
    NotManifest(pack) && forall p | p in lowers :: !SameName(p, pack)
  }

  /** Commits and compactions write fresh packs and are made only while the child is not cold. */
  predicate ValidEvent(w: World, e: Event) {
    match e
    case ArchiveEvent(_, _, _) => true
    case RecallEvent(_) => true
    case CommitEvent(pack, bytes) =>
      !w.manifest.packState.Cold? && FreshPack(w.manifest.lowers, pack) && Matches(bytes, pack)
    case CompactEvent(k, pack, bytes) =>
      && !w.manifest.packState.Cold? && k < |w.manifest.lowers|
      && FreshPack(w.manifest.lowers, pack) && Matches(bytes, pack)
  }

  function Committed(w: World, pack: Pack, bytes: string): World {
    w.(hot := w.hot[pack.path := bytes],
       manifest := w.manifest.(generation := w.manifest.generation + 1, lowers := w.manifest.lowers + [pack]))
  }

  function Step(cfg: Config, w: World, e: Event): World {
    match e
    case ArchiveEvent(removeHot, text, n) =>
      ArchiveCut(w, ChildPrefix(cfg, w.manifest.generation), removeHot, text, n).0
    case RecallEvent(n) => EnsureHotCut(w, cfg.hotDir, n).0
    case CommitEvent(pack, bytes) => Committed(w, pack, bytes)
    case CompactEvent(k, pack, bytes) =>
      if k > |w.manifest.lowers| then w
      else w.(hot := w.hot[pack.path := bytes],
              manifest := w.manifest.(lowers := w.manifest.lowers[..k] + [pack]))
  }

  /** A new child over whatever files and objects happen to exist. */
  predicate IsNew(w: World) {
    w.manifest == Manifest(0, [], Missing, "")
  }

  function Run(cfg: Config, start: World, events: seq<Event>): World {
    if events == [] then start else Step(cfg, Run(cfg, start, events[..|events| - 1]), events[|events| - 1])
  }

  predicate ValidRun(cfg: Config, start: World, events: seq<Event>) {
    events != [] ==>
      && ValidRun(cfg, start, events[..|events| - 1])
      && ValidEvent(Run(cfg, start, events[..|events| - 1]), events[|events| - 1])
  }

  lemma FreshPathDiffers(lowers: seq<Pack>, pack: Pack)
    requires FreshPack(lowers, pack)
    ensures forall i | 0 <= i < |lowers| :: lowers[i].path != pack.path && !SameName(lowers[i], pack)
  {
    forall i | 0 <= i < |lowers| ensures lowers[i].path != pack.path && !SameName(lowers[i], pack) {
      assert lowers[i] in lowers;
    }
  }

  lemma CommittedIsSafe(w: World, pack: Pack, bytes: string)
    requires Safe(w) && !w.manifest.packState.Cold? && FreshPack(w.manifest.lowers, pack) && Matches(bytes, pack)
    ensures Safe(Committed(w, pack, bytes))
  {
    var lowers := w.manifest.lowers + [pack];
    FreshPathDiffers(w.manifest.lowers, pack);
    assert forall i | 0 <= i < |lowers| :: lowers[i] == if i < |w.manifest.lowers| then w.manifest.lowers[i] else pack;
  }

  lemma CompactedIsSafe(cfg: Config, w: World, k: nat, pack: Pack, bytes: string)
    requires Safe(w) && ValidEvent(w, CompactEvent(k, pack, bytes))
    ensures Safe(Step(cfg, w, CompactEvent(k, pack, bytes)))
  {
    var lowers := w.manifest.lowers[..k] + [pack];
    FreshPathDiffers(w.manifest.lowers, pack);
    assert forall i | 0 <= i < |lowers| :: lowers[i] == if i < k then w.manifest.lowers[i] else pack;
  }

  /** Archives and recalls, cut anywhere, keep every pack's bytes within reach and unchanged. */
  lemma ColdStepKeepsContents(cfg: Config, w: World, e: Event)
    requires Safe(w) && (e.ArchiveEvent? || e.RecallEvent?)
    ensures Contents(Step(cfg, w, e)) == Contents(w) && SafeOrPlaced(w, Step(cfg, w, e), cfg.hotDir)
  {
    SafeIsRecoverable(w);
    match e {
      case ArchiveEvent(removeHot, text, n) =>
        var prefix := ChildPrefix(cfg, w.manifest.generation);
        ChildPrefixIsUri(cfg, w.manifest.generation);
        UploadsAreSafe(w, prefix, removeHot, text, 0, n);
      case RecallEvent(n) =>
        DownloadsAreSafe(w, cfg.hotDir, 0, n);
    }
    SafeIsRecoverable(Step(cfg, w, e));
  }

  /**
   At every crash point of every run each pack is hot with matching bytes, or the manifest is cold and
   the store holds it under its uri; what the packs hold is what the manifest promises.
   */
  lemma {:induction false} EveryRunIsRecoverable(cfg: Config, start: World, events: seq<Event>)
    requires IsNew(start) && ValidRun(cfg, start, events)
    ensures var w := Run(cfg, start, events);
            Safe(w) && Recoverable(w) && Contents(w) == Promised(w.manifest)
    decreases |events|
  {
    if events != [] {
      var prior, e := events[..|events| - 1], events[|events| - 1];
      EveryRunIsRecoverable(cfg, start, prior);
      var w := Run(cfg, start, prior);
      match e
      case ArchiveEvent(_, _, _) => ColdStepKeepsContents(cfg, w, e);
      case RecallEvent(_) => ColdStepKeepsContents(cfg, w, e);
      case CommitEvent(pack, bytes) => CommittedIsSafe(w, pack, bytes);
      case CompactEvent(k, pack, bytes) => CompactedIsSafe(cfg, w, k, pack, bytes);
    }
    SafeIsRecoverable(Run(cfg, start, events));
  }

  // ---- exactly when a recall and an archive complete ----

  predicate ArchivedFrom(w: World, i: nat) {
    forall j | i <= j < |w.manifest.lowers| :: ObjectMatches(w.store, w.manifest.uri, w.manifest.lowers[j])
  }

  lemma {:induction false} DownloadsExactly(w: World, i: nat, rest: seq<Effect>, n: nat) returns (x: World)
    requires i <= |w.manifest.lowers| && n >= |w.manifest.lowers| - i
    requires forall j | 0 <= j < i :: j in w.staged
    ensures x.hot == w.hot && x.store == w.store && x.manifest == w.manifest
    ensures Cut(w, Downloads(w.manifest, i, rest), n)
            == if ArchivedFrom(w, i) then Cut(x, rest, n - (|w.manifest.lowers| - i)) else (x, Raised)
    ensures ArchivedFrom(w, i) ==> forall j | 0 <= j < |w.manifest.lowers| :: j in x.staged
    decreases |w.manifest.lowers| - i
  {
    var m := w.manifest;
    if i == |m.lowers| {
      x := w;
    } else {
      var e := DownloadOf(m, i);
      CutStep(w, e, Downloads(m, i + 1, rest), Downloads(m, i, rest), n);
      match Exec(w, e)
      case None =>
        assert !ObjectMatches(w.store, m.uri, m.lowers[i]);
        x := w.(staged := map[]);
      case Some(y) => x := DownloadsExactly(y, i + 1, rest, n - 1);
    }
  }

  lemma {:induction false} MoveInsExactly(w: World, lowers: seq<Pack>, hotDir: string, i: nat, m: Manifest, n: nat)
    requires i <= |lowers| && n > |lowers| - i
    requires forall j | i <= j < |lowers| :: j in w.staged
    requires forall j | 0 <= j < i :: FinalPath(hotDir, lowers[j]) in w.hot
    ensures var r := Cut(w, MoveIns(lowers, hotDir, i, [SaveManifest(m)]), n);
            && r.1.Done? && r.0.manifest == m && r.0.store == w.store
            && forall j | 0 <= j < |lowers| :: FinalPath(hotDir, lowers[j]) in r.0.hot
    decreases |lowers| - i
  {
    var save := [SaveManifest(m)];
    if i == |lowers| {
      CutStep(w, save[0], [], save, n);
    } else {
      var e := MoveIn(i, FinalPath(hotDir, lowers[i]));
      CutStep(w, e, MoveIns(lowers, hotDir, i + 1, save), MoveIns(lowers, hotDir, i, save), n);
      MoveInsExactly(Exec(w, e).value, lowers, hotDir, i + 1, m, n - 1);
    }
  }

  /**
   A recall left to finish completes exactly when a uri is recorded and every object under it is present
   and matches; otherwise it raises having published nothing.
   */
  lemma RecallExactly(w: World, hotDir: string, n: nat)
    requires n > 2 * |w.manifest.lowers|
    ensures var r := RecallCut(w, hotDir, n);
            && (r.1.Done? <==> w.manifest.uri != "" && AllArchived(w, w.manifest.uri))
            && (r.1.Done? ==>
                  && r.0.manifest.packState.Hot? && r.0.manifest.uri == w.manifest.uri
                  && r.0.manifest.generation == w.manifest.generation && r.0.store == w.store
                  && r.0.manifest.lowers == seq(|w.manifest.lowers|, i requires 0 <= i < |w.manifest.lowers| =>
                       w.manifest.lowers[i].(path := hotDir + "/" + Basename(w.manifest.lowers[i].path))))
            && (r.1.Done? ==> AllHot(r.0))
            && (!r.1.Done? ==>
                r.1.Raised? && r.0.hot == w.hot && r.0.store == w.store && r.0.manifest == w.manifest)
  {
    if w.manifest.uri != "" {
      var x := DownloadsExactly(w, 0, Installation(w.manifest, hotDir), n);
      assert ArchivedFrom(w, 0) <==> AllArchived(w, w.manifest.uri);
      if ArchivedFrom(w, 0) {
        MoveInsExactly(x, w.manifest.lowers, hotDir, 0, Recalled(w.manifest, hotDir), n - |w.manifest.lowers|);
      }
    }
  }

  /** From every reachable cold state a recall left to finish brings all packs back. */
  lemma ColdChildComesBack(cfg: Config, w: World, n: nat)
    requires Safe(w) && w.manifest.packState.Cold? && n > 2 * |w.manifest.lowers|
    ensures var r := RecallCut(w, cfg.hotDir, n);
            && r.1.Done? && r.0.manifest.packState.Hot? && AllHot(r.0) && Contents(r.0) == Contents(w)
            && !NeedsRecall(r.0)
  {
    RecallExactly(w, cfg.hotDir, n);
    if w.manifest.lowers != [] {
      ColdStepKeepsContents(cfg, w, RecallEvent(n));
    }
  }

  predicate HotFrom(w: World, i: nat) {
    forall j | i <= j < |w.manifest.lowers| :: w.manifest.lowers[j].path in w.hot
  }

  lemma {:induction false} UploadsExactly(w: World, prefix: string, i: nat, rest: seq<Effect>, n: nat)
    returns (x: World)
    requires i <= |w.manifest.lowers| && n >= |w.manifest.lowers| - i
    ensures x.hot == w.hot && x.manifest == w.manifest
    ensures Cut(w, Uploads(w.manifest, prefix, i, rest), n)
            == if HotFrom(w, i)
               then Cut(x, rest, n - (|w.manifest.lowers| - i)) else (x, Raised)
    decreases |w.manifest.lowers| - i
  {
    var m := w.manifest;
    if i == |m.lowers| {
      x := w;
    } else {
      var e := Upload(PackKey(prefix, m.lowers[i]), m.lowers[i].path);
      CutStep(w, e, Uploads(m, prefix, i + 1, rest), Uploads(m, prefix, i, rest), n);
      match Exec(w, e)
      case None => x := w.(staged := map[]);
      case Some(y) =>
        x := UploadsExactly(y, prefix, i + 1, rest, n - 1);
        assert HotFrom(w, i) <==> HotFrom(y, i + 1);
    }
  }

  lemma {:induction false} UnlinksFinish(w: World, lowers: seq<Pack>, i: nat, n: nat)
    requires i <= |lowers| && n >= |lowers| - i
    ensures var r := Cut(w, Unlinks(lowers, i), n);
            && r.1.Done? && r.0.manifest == w.manifest
            && (forall j | i <= j < |lowers| :: lowers[j].path !in r.0.hot)
            && forall p | p in r.0.hot :: p in w.hot
    decreases |lowers| - i
  {
    if i < |lowers| {
      var e := Unlink(lowers[i].path);
      CutStep(w, e, Unlinks(lowers, i + 1), Unlinks(lowers, i), n);
      UnlinksFinish(Exec(w, e).value, lowers, i + 1, n - 1);
    }
  }

  /**
   An archive left to finish completes exactly when every pack is hot; then no pack file is left if
   eviction was asked for.  Otherwise it raises with files and manifest untouched.
   */
  lemma ArchiveExactly(w: World, prefix: string, removeHot: bool, text: string, n: nat)
    requires n >= 2 * |w.manifest.lowers| + 2
    ensures var r := ArchiveCut(w, prefix, removeHot, text, n);
            && (r.1.Done? <==> AllHot(w))
            && (r.1.Done? ==>
                  && r.0.manifest.packState == (if removeHot then Cold else Hot)
                  && r.0.manifest.uri == Stripped(prefix)
                  && r.0.manifest.lowers == w.manifest.lowers && r.0.manifest.generation == w.manifest.generation)
            && (r.1.Done? ==>
                if removeHot then forall i | 0 <= i < |w.manifest.lowers| :: w.manifest.lowers[i].path !in r.0.hot
                   else r.0.hot == w.hot)
            && (!r.1.Done? ==> r.1.Raised? && r.0.hot == w.hot && r.0.manifest == w.manifest)
  {
    var m, snapshot := w.manifest, Snapshot(w.manifest, prefix, removeHot, text);
    var x := UploadsExactly(w, prefix, 0, snapshot, n);
    if AllHot(w) {
      var left := n - |m.lowers|;
      var put, save := UploadManifest(ManifestKey(prefix), text), SaveManifest(WithColdState(m, prefix, removeHot));
      CutStep(x, put, Registration(m, prefix, removeHot), snapshot, left);
      var y := Exec(x, put).value;
      CutStep(y, save, Eviction(m, removeHot), Registration(m, prefix, removeHot), left - 1);
      if removeHot {
        UnlinksFinish(Exec(y, save).value, m.lowers, 0, left - 2);
      }
    }
  }

  // ---- what goes wrong: committing to a cold child ----

  /**
   The code does not stop a commit to a cold child.  Each pack then still has its bytes somewhere, but
   no recall completes again, and no archive either while some old pack is evicted.
   */
  lemma CommitWhileColdStrandsTheChild(cfg: Config, w: World, pack: Pack, bytes: string, prefix: string,
                                       removeHot: bool, text: string, n: nat)
    requires Safe(w) && w.manifest.packState.Cold? && FreshPack(w.manifest.lowers, pack) && Matches(bytes, pack)
    requires PackKey(w.manifest.uri, pack) !in w.store
    requires n >= 2 * |w.manifest.lowers| + 4
    ensures var x := Committed(w, pack, bytes);
            && Recoverable(x) && NeedsRecall(x)
            && RecallCut(x, cfg.hotDir, n).1.Raised?
            && RecallCut(x, cfg.hotDir, n).0.manifest == x.manifest
            && ((exists i | 0 <= i < |w.manifest.lowers| ::
                   w.manifest.lowers[i].path !in w.hot)
                ==> ArchiveCut(x, prefix, removeHot, text, n).1.Raised?)
  {
    var x, last := Committed(w, pack, bytes), |w.manifest.lowers|;
    CommittedIsRecoverable(w, pack, bytes);
    RecallExactly(x, cfg.hotDir, n);
    assert x.manifest.lowers[last] == pack && !ObjectMatches(x.store, x.manifest.uri, x.manifest.lowers[last]);
    if i :| 0 <= i < last && w.manifest.lowers[i].path !in w.hot {
      FreshPathDiffers(w.manifest.lowers, pack);
      ArchiveExactly(x, prefix, removeHot, text, n);
      assert x.manifest.lowers[i] == w.manifest.lowers[i];
    }
  }

  lemma CommittedIsRecoverable(w: World, pack: Pack, bytes: string)
    requires Safe(w) && FreshPack(w.manifest.lowers, pack) && Matches(bytes, pack)
    ensures Recoverable(Committed(w, pack, bytes))
  {
    var x := Committed(w, pack, bytes);
    SafeIsRecoverable(w);
    FreshPathDiffers(w.manifest.lowers, pack);
    forall i | 0 <= i < |x.manifest.lowers| ensures PackRecoverable(x, x.manifest.lowers[i]) {
      if i < |w.manifest.lowers| {
        assert x.manifest.lowers[i] == w.manifest.lowers[i];
        assert PackRecoverable(w, w.manifest.lowers[i]);
      }
    }
  }
}
