/**
 What an archive that finishes records and leaves behind, what an access finds, in every world and not only in
 those that runs reach, and how a lost pack file comes back from a mirror in cold storage.
 */
module ColdOutcomes {
  import opened Packs
  import opened Names
  import opened Cold
  import opened ColdSafety

  // ---- archives ----

  lemma {:induction false} UploadsFinish(w: World, prefix: string, i: nat, rest: seq<Effect>, n: nat)
    returns (x: World)
    requires Safe(w) && AllHot(w) && i <= |w.manifest.lowers| && Uploaded(w, prefix, i)
    requires n >= |w.manifest.lowers| - i
    ensures Cut(w, Uploads(w.manifest, prefix, i, rest), n) == Cut(x, rest, n - (|w.manifest.lowers| - i))
    ensures x == w.(store := x.store) && Safe(x) && Uploaded(x, prefix, |w.manifest.lowers|)
    ensures SameElsewhere(w, x, prefix)
    decreases |w.manifest.lowers| - i
  {
    var m := w.manifest;
    if i == |m.lowers| {
      x := w;
    } else {
      var e := Upload(PackKey(prefix, m.lowers[i]), m.lowers[i].path);
      CutStep(w, e, Uploads(m, prefix, i + 1, rest), Uploads(m, prefix, i, rest), n);
      UploadStep(w, prefix, i);
      x := UploadsFinish(Exec(w, e).value, prefix, i + 1, rest, n - 1);
    }
  }

  /** This object belongs to the archive of the child under the prefix. */
  predicate KeyOf(m: Manifest, prefix: string, key: string) {
    key == ManifestKey(prefix) || exists i | 0 <= i < |m.lowers| :: key == PackKey(prefix, m.lowers[i])
  }

  /** No other object was added, changed or removed. */
  predicate SameElsewhere(w: World, x: World, prefix: string) {
    && (forall key | key in w.store && !KeyOf(w.manifest, prefix, key) ::
          key in x.store && x.store[key] == w.store[key])
    && forall key | key in x.store && !KeyOf(w.manifest, prefix, key) :: key in w.store
  }

  lemma {:induction false} UnlinksOnlyUnlink(w: World, lowers: seq<Pack>, i: nat, n: nat)
    requires i <= |lowers| && n >= |lowers| - i
    ensures var r := Cut(w, Unlinks(lowers, i), n); r.1.Done? && r.0.store == w.store && r.0.manifest == w.manifest
    decreases |lowers| - i
  {
    if i < |lowers| {
      var e := Unlink(lowers[i].path);
      CutStep(w, e, Unlinks(lowers, i + 1), Unlinks(lowers, i), n);
      UnlinksOnlyUnlink(Exec(w, e).value, lowers, i + 1, n - 1);
    }
  }

  /**
   An archive that finishes records the child as cold exactly if eviction was asked for; if not, no access needs
   a recall.  Either way the child keeps its packs and generation, its uri is recorded, every pack and the
   manifest snapshot are under that uri, and no other object changed.
   */
  lemma ArchiveRecords(w: World, prefix: string, removeHot: bool, text: string, n: nat)
    requires Safe(w) && AllHot(w) && Stripped(prefix) != "" && n >= 2 * |w.manifest.lowers| + 2
    ensures var r := ArchiveCut(w, prefix, removeHot, text, n);
            var m := r.0.manifest;
            && r.1.Done?
            && (m.packState.Cold? <==> removeHot) && (!removeHot ==> !NeedsRecall(r.0) && r.0.hot == w.hot)
            && m.lowers == w.manifest.lowers && m.generation == w.manifest.generation
            && m.uri == Stripped(prefix) != "" && AllArchived(r.0, m.uri)
            && ManifestKey(prefix) in r.0.store && r.0.store[ManifestKey(prefix)] == text
            && SameElsewhere(w, r.0, prefix)
  {
    var m, snapshot := w.manifest, Snapshot(w.manifest, prefix, removeHot, text);
    ArchiveExactly(w, prefix, removeHot, text, n);
    var x := UploadsFinish(w, prefix, 0, snapshot, n);
    SnapshotRecords(x, prefix, removeHot, text, n - |m.lowers|);
    SnapshotElsewhere(w, x, ArchiveCut(w, prefix, removeHot, text, n).0, prefix, text);
  }

  lemma SnapshotElsewhere(w: World, x: World, y: World, prefix: string, text: string)
    requires SameElsewhere(w, x, prefix) && y.store == x.store[ManifestKey(prefix) := text]
    ensures SameElsewhere(w, y, prefix)
  {
  }

  lemma SnapshotRecords(w: World, prefix: string, removeHot: bool, text: string, n: nat)
    requires Safe(w) && Uploaded(w, prefix, |w.manifest.lowers|) && n >= |w.manifest.lowers| + 2
    ensures var r := Cut(w, Snapshot(w.manifest, prefix, removeHot, text), n);
            && r.0.store == w.store[ManifestKey(prefix) := text]
            && r.0.manifest == WithColdState(w.manifest, prefix, removeHot)
            && AllArchived(r.0, Stripped(prefix))
  {
    var m := w.manifest;
    var put, save := UploadManifest(ManifestKey(prefix), text), SaveManifest(WithColdState(m, prefix, removeHot));
    CutStep(w, put, Registration(m, prefix, removeHot), Snapshot(m, prefix, removeHot, text), n);
    var x := w.(store := w.store[ManifestKey(prefix) := text]);
    CutStep(x, save, Eviction(m, removeHot), Registration(m, prefix, removeHot), n - 1);
    var y := x.(manifest := WithColdState(m, prefix, removeHot));
    if removeHot {
      UnlinksOnlyUnlink(y, m.lowers, 0, n - 2);
    }
    ManifestUploadKeeps(w, prefix, text);
    StrippedTwice(prefix);
    forall i | 0 <= i < |m.lowers| ensures ObjectMatches(x.store, Stripped(prefix), m.lowers[i]) {
      assert ObjectMatches(x.store, prefix, m.lowers[i]);
    }
  }

  // ---- a child whose archives keep it hot ----

  /** None of the effects writes a cold manifest. */
  predicate WritesNoCold(effects: seq<Effect>) {
    forall e | e in effects && e.SaveManifest? :: !e.manifest.packState.Cold?
  }

  lemma {:induction false} CutStaysWarm(w: World, effects: seq<Effect>, n: nat)
    requires WritesNoCold(effects) && !w.manifest.packState.Cold?
    ensures !Cut(w, effects, n).0.manifest.packState.Cold?
    decreases |effects|
  {
    if effects != [] && n > 0 && Exec(w, effects[0]).Some? {
      assert effects[0] in effects;
      CutStaysWarm(Exec(w, effects[0]).value, effects[1..], n - 1);
    }
  }

  lemma {:induction false} UploadsWriteNoCold(m: Manifest, prefix: string, i: nat, rest: seq<Effect>)
    requires i <= |m.lowers| && WritesNoCold(rest)
    ensures WritesNoCold(Uploads(m, prefix, i, rest))
    decreases |m.lowers| - i
  {
    if i < |m.lowers| {
      UploadsWriteNoCold(m, prefix, i + 1, rest);
    }
  }

  lemma {:induction false} MoveInsWriteNoCold(lowers: seq<Pack>, hotDir: string, i: nat, rest: seq<Effect>)
    requires i <= |lowers| && WritesNoCold(rest)
    ensures WritesNoCold(MoveIns(lowers, hotDir, i, rest))
    decreases |lowers| - i
  {
    if i < |lowers| {
      MoveInsWriteNoCold(lowers, hotDir, i + 1, rest);
    }
  }

  lemma {:induction false} DownloadsWriteNoCold(m: Manifest, i: nat, rest: seq<Effect>)
    requires i <= |m.lowers| && WritesNoCold(rest)
    ensures WritesNoCold(Downloads(m, i, rest))
    decreases |m.lowers| - i
  {
    if i < |m.lowers| {
      DownloadsWriteNoCold(m, i + 1, rest);
    }
  }

  lemma StepStaysWarm(cfg: Config, w: World, e: Event)
    requires !w.manifest.packState.Cold? && (e.ArchiveEvent? ==> !e.removeHot)
    ensures !Step(cfg, w, e).manifest.packState.Cold?
  {
    match e
    case ArchiveEvent(_, text, n) =>
      var m, prefix := w.manifest, ChildPrefix(cfg, w.manifest.generation);
      assert WritesNoCold(Snapshot(m, prefix, false, text));
      UploadsWriteNoCold(m, prefix, 0, Snapshot(m, prefix, false, text));
      CutStaysWarm(w, ArchiveEffects(m, prefix, false, text), n);
    case RecallEvent(n) =>
      var save := [SaveManifest(Recalled(w.manifest, cfg.hotDir))];
      MoveInsWriteNoCold(w.manifest.lowers, cfg.hotDir, 0, save);
      DownloadsWriteNoCold(w.manifest, 0, Installation(w.manifest, cfg.hotDir));
      CutStaysWarm(w, RecallEffects(w.manifest, cfg.hotDir), n);
    case _ =>
  }

  /** A child whose archives all keep its packs hot is never cold, and no access to it ever recalls. */
  lemma {:induction false} KeptHotIsNeverCold(cfg: Config, start: World, events: seq<Event>)
    requires IsNew(start) && ValidRun(cfg, start, events)
    requires forall i | 0 <= i < |events| && events[i].ArchiveEvent? :: !events[i].removeHot
    ensures !Run(cfg, start, events).manifest.packState.Cold? && !NeedsRecall(Run(cfg, start, events))
    decreases |events|
  {
    if events != [] {
      KeptHotIsNeverCold(cfg, start, events[..|events| - 1]);
      StepStaysWarm(cfg, Run(cfg, start, events[..|events| - 1]), events[|events| - 1]);
    }
    EveryRunIsRecoverable(cfg, start, events);
  }

  // ---- accesses ----

  /** Enough effects are enough: more change nothing. */
  lemma {:induction false} CutIsStable(w: World, effects: seq<Effect>, n: nat, k: nat)
    requires Cut(w, effects, n).1.Done? && n <= k
    ensures Cut(w, effects, k) == Cut(w, effects, n)
    decreases |effects|
  {
    if effects != [] {
      CutIsStable(Exec(w, effects[0]).value, effects[1..], n - 1, k - 1);
    }
  }

  /**
   In every world, whatever the budget: an access that goes on finds every pack file there.  With enough of it,
   the access raises exactly if the child has packs, is cold or lacks one of their files, and its uri is empty
   or some object under it is missing or wrong; and it touches nothing if no file is missing and it is not cold.
   */
  lemma AccessFindsPacks(w: World, hotDir: string, n: nat)
    ensures var r := EnsureHotCut(w, hotDir, n);
            && (r.1.Done? ==> AllHot(r.0))
            && ((!w.manifest.packState.Cold? && AllHot(w)) || w.manifest.lowers == [] ==> r == (w, Done))
            && (n > 2 * |w.manifest.lowers| ==>
                  && !r.1.Crashed?
                  && (r.1.Raised? <==>
                        && w.manifest.lowers != [] && (w.manifest.packState.Cold? || !AllHot(w))
                        && (w.manifest.uri == "" || !AllArchived(w, w.manifest.uri)))
                  && (r.1.Raised? ==> r.0.hot == w.hot && r.0.store == w.store && r.0.manifest == w.manifest))
  {
    if NeedsRecall(w) {
      RecallExactly(w, hotDir, n + 2 * |w.manifest.lowers| + 1);
      if RecallCut(w, hotDir, n).1.Done? {
        CutIsStable(w, RecallEffects(w.manifest, hotDir), n, n + 2 * |w.manifest.lowers| + 1);
      }
      if n > 2 * |w.manifest.lowers| {
        RecallExactly(w, hotDir, n);
      }
    }
  }

  /** In a run, an access to a child that is not cold is no event. */
  lemma HotChildIsLeftAlone(cfg: Config, start: World, events: seq<Event>, n: nat)
    requires IsNew(start) && ValidRun(cfg, start, events)
    requires !Run(cfg, start, events).manifest.packState.Cold?
    ensures Step(cfg, Run(cfg, start, events), RecallEvent(n)) == Run(cfg, start, events)
  {
    EveryRunIsRecoverable(cfg, start, events);
    AccessFindsPacks(Run(cfg, start, events), cfg.hotDir, n);
  }

  /**
   A recall that finishes, with whatever budget, has found every object under the recorded uri with exactly the
   promised bytes and length; one that raises after it began leaves no download behind.
   */
  lemma RecallVerifies(w: World, hotDir: string, n: nat)
    ensures var r := RecallCut(w, hotDir, n);
            && (r.1.Done? ==>
                  forall i | 0 <= i < |w.manifest.lowers| ::
                    var p, key := w.manifest.lowers[i], PackKey(w.manifest.uri, w.manifest.lowers[i]);
                    key in w.store && w.store[key] == p.sha256 && |w.store[key]| == p.size)
            && (r.1.Raised? && w.manifest.uri != "" ==> r.0.staged == map[])
  {
    if RecallCut(w, hotDir, n).1.Done? {
      var k := n + 2 * |w.manifest.lowers| + 1;
      CutIsStable(w, RecallEffects(w.manifest, hotDir), n, k);
      RecallExactly(w, hotDir, k);
      forall i | 0 <= i < |w.manifest.lowers|
        ensures ObjectMatches(w.store, w.manifest.uri, w.manifest.lowers[i])
      {
        assert AllArchived(w, w.manifest.uri);
      }
    }
    RaisedIsClean(w, RecallEffects(w.manifest, hotDir), n);
  }

  lemma {:induction false} RaisedIsClean(w: World, effects: seq<Effect>, n: nat)
    ensures Cut(w, effects, n).1.Raised? ==> Cut(w, effects, n).0.staged == map[]
    decreases |effects|
  {
    if effects != [] && n > 0 && Exec(w, effects[0]).Some? {
      RaisedIsClean(Exec(w, effects[0]).value, effects[1..], n - 1);
    }
  }

  // ---- a lost pack file ----

  lemma {:induction false} CutIgnoresManifest(w: World, m: Manifest, effects: seq<Effect>, n: nat)
    ensures var r, s := Cut(w, effects, n), Cut(w.(manifest := m), effects, n);
            r.0.hot == s.0.hot && r.0.store == s.0.store && r.1 == s.1
    decreases |effects|
  {
    if effects != [] && n > 0 {
      var v := w.(manifest := m);
      match Exec(w, effects[0])
      case None =>
      case Some(x) =>
        var y := Exec(v, effects[0]).value;
        CutIgnoresManifest(x, y.manifest, effects[1..], n - 1);
        assert y == x.(manifest := y.manifest);
    }
  }

  /**
   A hot child that lost pack files, or all of them, but is mirrored under its uri: the next access brings back
   what was lost, every pack with the bytes the manifest promises.
   */
  lemma LostPackComesBack(w: World, hotDir: string, n: nat)
    requires DistinctNames(w.manifest.lowers) && HotIsRight(w) && !w.manifest.packState.Cold? && !AllHot(w)
    requires w.manifest.uri != "" && Stripped(w.manifest.uri) == w.manifest.uri && AllArchived(w, w.manifest.uri)
    requires n > 2 * |w.manifest.lowers|
    ensures var r := EnsureHotCut(w, hotDir, n);
            r.1.Done? && AllHot(r.0) && !NeedsRecall(r.0) && Contents(r.0) == Promised(w.manifest)
  {
    var cold := w.manifest.(packState := Cold);
    var v := w.(manifest := cold);
    assert Safe(v) && NeedsRecall(v);
    var cfg := Config("", "", hotDir);
    ColdChildComesBack(cfg, v, n);
    ColdStepKeepsContents(cfg, v, RecallEvent(n));
    RecallExactly(w, hotDir, n);
    RecallExactly(v, hotDir, n);
    assert Downloads(cold, 0, Installation(cold, hotDir)) == RecallEffects(cold, hotDir);
    SameRecallEffects(w.manifest, cold, hotDir, 0);
    CutIgnoresManifest(w, cold, RecallEffects(w.manifest, hotDir), n);
    SafeIsRecoverable(v);
    SameContents(RecallCut(w, hotDir, n).0, RecallCut(v, hotDir, n).0);
  }

  /** The effects of a recall do not depend on the recorded state. */
  lemma {:induction false} SameRecallEffects(m: Manifest, other: Manifest, hotDir: string, i: nat)
    requires other == m.(packState := other.packState) && i <= |m.lowers|
    ensures Downloads(m, i, Installation(m, hotDir)) == Downloads(other, i, Installation(other, hotDir))
    decreases |m.lowers| - i
  {
    assert Recalled(m, hotDir) == Recalled(other, hotDir);
    if i < |m.lowers| {
      SameRecallEffects(m, other, hotDir, i + 1);
    }
  }

  lemma SameContents(x: World, y: World)
    requires x.hot == y.hot && x.store == y.store && x.manifest.lowers == y.manifest.lowers
    requires x.manifest.uri == y.manifest.uri
    ensures Contents(x) == Contents(y)
  {
  }
}
