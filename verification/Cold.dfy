/**
 Cold storage: archive and recall of a child's packs as sequences of single effects (one upload, one
 manifest write, one unlink, one download, one rename), cut by a crash after any of them.

 Pack files are their bytes; the hash is ideal (it determines the bytes).  A manifest write and a rename
 are single effects.
 */
module Cold {
  import opened Packs
  import opened Names
  import opened Routing

  // ---- object keys ----

  function ObjectKey(prefix: string, path: string): string {
    Stripped(prefix) + "/packs" + ("/" + Basename(path))
  }

  function PackKey(prefix: string, pack: Pack): string {
    ObjectKey(prefix, pack.path)
  }

  function ManifestKey(prefix: string): string {
    Stripped(prefix) + ("/" + "manifest.toml")
  }

  datatype Config = Config(prefix: string, childId: string, hotDir: string)

  /** The prefix one generation of a child is archived under. */
  function ChildPrefix(cfg: Config, generation: nat): string {
    Stripped(cfg.prefix) + "/children/" + SafeNamespaceName(cfg.childId) + ("/g" + Padded(generation, 4))
  }

  // ---- worlds ----

  datatype PackState = Missing | Hot | Cold

  datatype Manifest = Manifest(generation: nat, lowers: seq<Pack>, packState: PackState, uri: string)

  /** Local pack files, files being downloaded, the object store, and the manifest on disk. */
  datatype World = World(
    hot: map<string, string>,
    staged: map<nat, string>,
    store: map<string, string>,
    manifest: Manifest
  )

  function Sha256(bytes: string): string {
    bytes
  }

  predicate Matches(bytes: string, pack: Pack) {
    Sha256(bytes) == pack.sha256 && |bytes| == pack.size
  }

  predicate ObjectMatches(store: map<string, string>, uri: string, pack: Pack) {
    PackKey(uri, pack) in store && Matches(store[PackKey(uri, pack)], pack)
  }

  predicate NeedsRecall(w: World) {
    && w.manifest.lowers != []
    && (w.manifest.packState.Cold? || exists i | 0 <= i < |w.manifest.lowers| :: w.manifest.lowers[i].path !in w.hot)
  }

  /** The bytes behind each pack of the manifest, wherever they are. */
  function Contents(w: World): seq<string> {
    seq(|w.manifest.lowers|, i requires 0 <= i < |w.manifest.lowers| =>
      var p := w.manifest.lowers[i];
      if p.path in w.hot then w.hot[p.path]
      else if PackKey(w.manifest.uri, p) in w.store then w.store[PackKey(w.manifest.uri, p)]
      else "")
  }

  // ---- single effects ----

  datatype Effect =
    | Upload(key: string, path: string)
    | UploadManifest(key: string, text: string)
    | SaveManifest(manifest: Manifest)
    | Unlink(path: string)
    | Download(slot: nat, key: string, pack: Pack)
    | MoveIn(slot: nat, final: string)

  /** None: the effect raises. */
  function Exec(w: World, e: Effect): Option<World> {
    match e
    case Upload(key, path) =>
      if path in w.hot then Some(w.(store := w.store[key := w.hot[path]])) else None
    case UploadManifest(key, text) => Some(w.(store := w.store[key := text]))
    case SaveManifest(m) => Some(w.(manifest := m))
    case Unlink(path) => Some(w.(hot := w.hot - {path}))
    case Download(slot, key, pack) =>
      if key in w.store && Matches(w.store[key], pack)
      then Some(w.(staged := w.staged[slot := w.store[key]])) else None
    case MoveIn(slot, final) =>
      if slot in w.staged
      then Some(w.(hot := w.hot[final := w.staged[slot]], staged := w.staged - {slot})) else None
  }

  datatype Outcome = Done | Raised | Crashed

  /** The effects in order, at most n of them before a crash; an effect that raises drops the downloads. */
  function Cut(w: World, effects: seq<Effect>, n: nat): (World, Outcome)
    decreases |effects|
  {
    if effects == [] then (w, Done)
    else if n == 0 then (w, Crashed)
    else
      match Exec(w, effects[0])
      case None => (w.(staged := map[]), Raised)
      case Some(x) => Cut(x, effects[1..], n - 1)
  }

  // ---- archive and recall as effects ----

  /** The uploads from pack i on, then the rest. */
  function Uploads(m: Manifest, prefix: string, i: nat, rest: seq<Effect>): seq<Effect>
    requires i <= |m.lowers|
    decreases |m.lowers| - i
  {
    if i == |m.lowers| then rest
    else [Upload(PackKey(prefix, m.lowers[i]), m.lowers[i].path)] + Uploads(m, prefix, i + 1, rest)
  }

  function Unlinks(lowers: seq<Pack>, i: nat): seq<Effect>
    requires i <= |lowers|
    decreases |lowers| - i
  {
    if i == |lowers| then [] else [Unlink(lowers[i].path)] + Unlinks(lowers, i + 1)
  }

  function WithColdState(m: Manifest, prefix: string, removeHot: bool): Manifest {
    m.(packState := if removeHot then Cold else Hot, uri := Stripped(prefix))
  }

  function Eviction(m: Manifest, removeHot: bool): seq<Effect> {
    if removeHot then Unlinks(m.lowers, 0) else []
  }

  function Registration(m: Manifest, prefix: string, removeHot: bool): seq<Effect> {
    [SaveManifest(WithColdState(m, prefix, removeHot))] + Eviction(m, removeHot)
  }

  function Snapshot(m: Manifest, prefix: string, removeHot: bool, text: string): seq<Effect> {
    [UploadManifest(ManifestKey(prefix), text)] + Registration(m, prefix, removeHot)
  }

  function ArchiveEffects(m: Manifest, prefix: string, removeHot: bool, text: string): seq<Effect> {
    Uploads(m, prefix, 0, Snapshot(m, prefix, removeHot, text))
  }

  /** The downloads from pack i on, then the rest. */
  function Downloads(m: Manifest, i: nat, rest: seq<Effect>): seq<Effect>
    requires i <= |m.lowers|
    decreases |m.lowers| - i
  {
    if i == |m.lowers| then rest
    else [Download(i, PackKey(m.uri, m.lowers[i]), m.lowers[i])] + Downloads(m, i + 1, rest)
  }

  function FinalPath(hotDir: string, pack: Pack): string {
    InDir(hotDir, Basename(pack.path))
  }

  function AtFinalPath(hotDir: string, pack: Pack): Pack {
    pack.(path := FinalPath(hotDir, pack))
  }

  /** The renames from pack i on, then the rest. */
  function MoveIns(lowers: seq<Pack>, hotDir: string, i: nat, rest: seq<Effect>): seq<Effect>
    requires i <= |lowers|
    decreases |lowers| - i
  {
    if i == |lowers| then rest
    else [MoveIn(i, FinalPath(hotDir, lowers[i]))] + MoveIns(lowers, hotDir, i + 1, rest)
  }

  /** The first i packs, each at its final path. */
  function Placed(lowers: seq<Pack>, hotDir: string, i: nat): (placed: seq<Pack>)
    requires i <= |lowers|
    ensures |placed| == i && forall j | 0 <= j < i :: placed[j] == AtFinalPath(hotDir, lowers[j])
  {
    if i == 0 then [] else Placed(lowers, hotDir, i - 1) + [AtFinalPath(hotDir, lowers[i - 1])]
  }

  function Recalled(m: Manifest, hotDir: string): Manifest {
    m.(packState := Hot, lowers := Placed(m.lowers, hotDir, |m.lowers|))
  }

  function Installation(m: Manifest, hotDir: string): seq<Effect> {
    MoveIns(m.lowers, hotDir, 0, [SaveManifest(Recalled(m, hotDir))])
  }

  function RecallEffects(m: Manifest, hotDir: string): seq<Effect> {
    Downloads(m, 0, Installation(m, hotDir))
  }

  /** A recall without a recorded uri raises before any effect. */
  function RecallCut(w: World, hotDir: string, n: nat): (World, Outcome) {
    if w.manifest.uri == "" then (w, Raised) else Cut(w, RecallEffects(w.manifest, hotDir), n)
  }

  /** What an access does first. */
  function EnsureHotCut(w: World, hotDir: string, n: nat): (World, Outcome) {
    if NeedsRecall(w) then RecallCut(w, hotDir, n) else (w, Done)
  }

  function ArchiveCut(w: World, prefix: string, removeHot: bool, text: string, n: nat): (World, Outcome) {
    Cut(w, ArchiveEffects(w.manifest, prefix, removeHot, text), n)
  }

  // ---- the code's own loops ----

  class ColdStore {
    var hot: map<string, string>
    var staged: map<nat, string>
    var store: map<string, string>
    var manifest: Manifest

    function State(): World
      reads this
    {
      World(hot, staged, store, manifest)
    }

    constructor (w: World)
      ensures State() == w
    {
      hot, staged, store, manifest := w.hot, w.staged, w.store, w.manifest;
    }

    /** Uploads every pack, then the manifest snapshot; only then rewrites the manifest and evicts. */
    method ArchiveCommittedPacks(prefix: string, removeHot: bool, text: string, budget: nat)
      returns (outcome: Outcome)
      modifies this
      ensures (State(), outcome) == ArchiveCut(old(State()), prefix, removeHot, text, budget)
    {
      var m := manifest;
      ghost var snapshot := Snapshot(m, prefix, removeHot, text);
      ghost var registration := Registration(m, prefix, removeHot);
      var stop, left := UploadPacks(prefix, budget, snapshot);
      if stop.Some? {
        return stop.value;
      }
      CutStep(State(), UploadManifest(ManifestKey(prefix), text), registration, snapshot, left);
      if left == 0 {
        return Crashed;
      }
      store, left := store[ManifestKey(prefix) := text], left - 1;
      var archived := WithColdState(m, prefix, removeHot);
      CutStep(State(), SaveManifest(archived), Eviction(m, removeHot), registration, left);
      if left == 0 {
        return Crashed;
      }
      manifest, left := archived, left - 1;
      if removeHot {
        outcome := EvictHot(m.lowers, left);
      } else {
        outcome := Done;
      }
    }

    method UploadPacks(prefix: string, budget: nat, ghost rest: seq<Effect>)
      returns (stop: Option<Outcome>, left: nat)
      modifies this
      ensures manifest == old(manifest)
      ensures Cut(old(State()), Uploads(manifest, prefix, 0, rest), budget)
              == if stop.Some? then (State(), stop.value) else Cut(State(), rest, left)
    {
      left := budget;
      for i := 0 to |manifest.lowers|
        invariant manifest == old(manifest)
        invariant Cut(old(State()), Uploads(manifest, prefix, 0, rest), budget)
                  == Cut(State(), Uploads(manifest, prefix, i, rest), left)
      {
        var key, path := PackKey(prefix, manifest.lowers[i]), manifest.lowers[i].path;
        CutStep(State(), Upload(key, path), Uploads(manifest, prefix, i + 1, rest),
                Uploads(manifest, prefix, i, rest), left);
        if left == 0 {
          return Some(Crashed), left;
        }
        if path !in hot {
          staged := map[];
          return Some(Raised), left;
        }
        store := store[key := hot[path]];
        left := left - 1;
      }
      stop := None;
    }

    method EvictHot(lowers: seq<Pack>, budget: nat) returns (outcome: Outcome)
      modifies this
      ensures (State(), outcome) == Cut(old(State()), Unlinks(lowers, 0), budget)
    {
      var left := budget;
      for i := 0 to |lowers|
        invariant Cut(old(State()), Unlinks(lowers, 0), budget) == Cut(State(), Unlinks(lowers, i), left)
      {
        CutStep(State(), Unlink(lowers[i].path), Unlinks(lowers, i + 1), Unlinks(lowers, i), left);
        if left == 0 {
          return Crashed;
        }
        if lowers[i].path in hot {
          hot := hot - {lowers[i].path};
        } else {
          assert hot - {lowers[i].path} == hot;
        }
        left := left - 1;
      }
      return Done;
    }

    /** Downloads and verifies every pack before moving any into place; then rewrites the manifest. */
    method RecallColdStoragePacks(hotDir: string, budget: nat) returns (outcome: Outcome)
      modifies this
      ensures (State(), outcome) == RecallCut(old(State()), hotDir, budget)
    {
      var m := manifest;
      if m.uri == "" {
        return Raised;
      }
      ghost var save := [SaveManifest(Recalled(m, hotDir))];
      var stop, left := DownloadPacks(budget, Installation(m, hotDir));
      if stop.Some? {
        return stop.value;
      }
      var recalled: seq<Pack>;
      stop, left, recalled := MovePacksIn(hotDir, left, save);
      if stop.Some? {
        return stop.value;
      }
      CutStep(State(), save[0], [], save, left);
      if left == 0 {
        return Crashed;
      }
      manifest := m.(packState := Hot, lowers := recalled);
      return Done;
    }

    method DownloadPacks(budget: nat, ghost rest: seq<Effect>) returns (stop: Option<Outcome>, left: nat)
      modifies this
      ensures manifest == old(manifest)
      ensures Cut(old(State()), Downloads(manifest, 0, rest), budget)
              == if stop.Some? then (State(), stop.value) else Cut(State(), rest, left)
      ensures stop.None? ==> forall i | 0 <= i < |manifest.lowers| :: i in staged
    {
      left := budget;
      for i := 0 to |manifest.lowers|
        invariant manifest == old(manifest)
        invariant Cut(old(State()), Downloads(manifest, 0, rest), budget)
                  == Cut(State(), Downloads(manifest, i, rest), left)
        invariant forall j | 0 <= j < i :: j in staged
      {
        var pack := manifest.lowers[i];
        var key := PackKey(manifest.uri, pack);
        CutStep(State(), Download(i, key, pack), Downloads(manifest, i + 1, rest), Downloads(manifest, i, rest), left);
        if left == 0 {
          return Some(Crashed), left;
        }
        if key !in store || !Matches(store[key], pack) {
          staged := map[];
          return Some(Raised), left;
        }
        staged := staged[i := store[key]];
        left := left - 1;
      }
      stop := None;
    }

    method MovePacksIn(hotDir: string, budget: nat, ghost rest: seq<Effect>)
      returns (stop: Option<Outcome>, left: nat, recalled: seq<Pack>)
      requires forall i | 0 <= i < |manifest.lowers| :: i in staged
      modifies this
      ensures manifest == old(manifest)
      ensures Cut(old(State()), MoveIns(manifest.lowers, hotDir, 0, rest), budget)
              == if stop.Some? then (State(), stop.value) else Cut(State(), rest, left)
      ensures stop.None? ==> recalled == Placed(manifest.lowers, hotDir, |manifest.lowers|)
    {
      left, recalled := budget, [];
      var lowers := manifest.lowers;
      for i := 0 to |lowers|
        invariant manifest == old(manifest)
        invariant Cut(old(State()), MoveIns(lowers, hotDir, 0, rest), budget)
                  == Cut(State(), MoveIns(lowers, hotDir, i, rest), left)
        invariant forall j | i <= j < |lowers| :: j in staged
        invariant recalled == Placed(lowers, hotDir, i)
      {
        var final := FinalPath(hotDir, lowers[i]);
        CutStep(State(), MoveIn(i, final), MoveIns(lowers, hotDir, i + 1, rest),
                MoveIns(lowers, hotDir, i, rest), left);
        if left == 0 {
          return Some(Crashed), left, recalled;
        }
        hot, staged := hot[final := staged[i]], staged - {i};
        recalled := recalled + [AtFinalPath(hotDir, lowers[i])];
        left := left - 1;
      }
      stop := None;
    }

    /** Recalls before access when needed. */
    method EnsureHot(hotDir: string, budget: nat) returns (outcome: Outcome)
      modifies this
      ensures (State(), outcome) == EnsureHotCut(old(State()), hotDir, budget)
    {
      if manifest.lowers == []
         || (!manifest.packState.Cold? && forall i | 0 <= i < |manifest.lowers| :: manifest.lowers[i].path in hot) {
        return Done;
      }
      outcome := RecallColdStoragePacks(hotDir, budget);
    }
  }

  lemma CutStep(w: World, e: Effect, rest: seq<Effect>, all: seq<Effect>, n: nat)
    requires all == [e] + rest
    ensures n == 0 ==> Cut(w, all, n) == (w, Crashed)
    ensures n > 0 ==> Cut(w, all, n) ==
                      match Exec(w, e) case None => (w.(staged := map[]), Raised) case Some(x) => Cut(x, rest, n - 1)
  {
    assert all[0] == e && all[1..] == rest;
  }

  // ---- what holds at every crash point ----

  predicate SameName(p: Pack, q: Pack) {
    Basename(p.path) == Basename(q.path)
  }

  /** The pack's object can not be taken for the manifest snapshot. */
  predicate NotManifest(p: Pack) {
    Basename(p.path) != "manifest.toml"
  }

  predicate DistinctNames(lowers: seq<Pack>) {
    && (forall i, j {:trigger SameName(lowers[i], lowers[j])} | 0 <= i < j < |lowers| ::
          !SameName(lowers[i], lowers[j]))
    && forall i {:trigger NotManifest(lowers[i])} | 0 <= i < |lowers| :: NotManifest(lowers[i])
  }

  predicate AllArchived(w: World, uri: string) {
    forall i {:trigger ObjectMatches(w.store, uri, w.manifest.lowers[i])} | 0 <= i < |w.manifest.lowers| ::
      ObjectMatches(w.store, uri, w.manifest.lowers[i])
  }

  predicate AllHot(w: World) {
    forall i | 0 <= i < |w.manifest.lowers| :: w.manifest.lowers[i].path in w.hot
  }

  /** Whatever local file a pack has is the right one. */
  predicate HotIsRight(w: World) {
    forall i | 0 <= i < |w.manifest.lowers| && w.manifest.lowers[i].path in w.hot ::
      Matches(w.hot[w.manifest.lowers[i].path], w.manifest.lowers[i])
  }

  predicate Safe(w: World) {
    && DistinctNames(w.manifest.lowers)
    && HotIsRight(w)
    && if w.manifest.packState.Cold?
       then w.manifest.uri != "" && Stripped(w.manifest.uri) == w.manifest.uri && AllArchived(w, w.manifest.uri)
       else AllHot(w)
  }

  /** Each pack is hot with matching bytes, or the manifest is cold and the store holds it under its uri. */
  predicate Recoverable(w: World) {
    forall i | 0 <= i < |w.manifest.lowers| :: PackRecoverable(w, w.manifest.lowers[i])
  }

  predicate PackRecoverable(w: World, p: Pack) {
    || (p.path in w.hot && Matches(w.hot[p.path], p))
    || (w.manifest.packState.Cold? && ObjectMatches(w.store, w.manifest.uri, p))
  }

  /** The bytes the manifest promises. */
  function Promised(m: Manifest): seq<string> {
    seq(|m.lowers|, i requires 0 <= i < |m.lowers| => m.lowers[i].sha256)
  }

  lemma SafeIsRecoverable(w: World)
    requires Safe(w)
    ensures Recoverable(w) && Contents(w) == Promised(w.manifest)
  {
  }

  // ---- keys do not collide ----

  lemma {:induction false} BasenameHasNoSlash(path: string)
    ensures NoChar(Basename(path), '/')
    decreases |path|
  {
    if path != [] && path[|path| - 1] != '/' {
      BasenameHasNoSlash(path[..|path| - 1]);
    }
  }

  /** A string splits in only one way at its last slash. */
  lemma LastSplitUnique(a: string, x: string, b: string, y: string)
    requires a + ("/" + x) == b + ("/" + y) && NoChar(x, '/') && NoChar(y, '/')
    ensures a == b && x == y
  {
    var s, t := a + ("/" + x), b + ("/" + y);
    assert s[|a|] == '/' && t[|b|] == '/';
    assert forall i | |a| < i < |s| :: s[i] == x[i - |a| - 1] != '/';
    assert forall i | |b| < i < |t| :: t[i] == y[i - |b| - 1] != '/';
    assert |a| == |b|;
    assert a == s[..|a|] && b == t[..|b|];
    assert x == s[|a| + 1..] && y == t[|b| + 1..];
  }

  /** Keys tell prefixes and base names apart. */
  lemma KeysDiffer(u: string, v: string, p: Pack, q: Pack)
    requires PackKey(u, p) == PackKey(v, q)
    ensures SameName(p, q) && SameName(q, p) && Stripped(u) == Stripped(v)
  {
    BasenameHasNoSlash(p.path);
    BasenameHasNoSlash(q.path);
    LastSplitUnique(Stripped(u) + "/packs", Basename(p.path), Stripped(v) + "/packs", Basename(q.path));
    SameTail(Stripped(u), Stripped(v), "/packs");
  }

  lemma ManifestKeyDiffers(u: string, v: string, p: Pack)
    requires NotManifest(p)
    ensures PackKey(u, p) != ManifestKey(v)
  {
    BasenameHasNoSlash(p.path);
    if PackKey(u, p) == ManifestKey(v) {
      LastSplitUnique(Stripped(u) + "/packs", Basename(p.path), Stripped(v), "manifest.toml");
    }
  }

  lemma ChildPrefixStripped(cfg: Config, generation: nat)
    ensures var s := ChildPrefix(cfg, generation);
            Stripped(s) == if Stripped(cfg.prefix) == "" then s[1..] else s
  {
    var s, p := ChildPrefix(cfg, generation), Stripped(cfg.prefix);
    PaddedReadsBack(generation, 4);
    assert |Padded(generation, 4)| > 0;
    assert s[|s| - 1] == Padded(generation, 4)[|Padded(generation, 4)| - 1] != '/';
    if p == "" {
      assert s[0] == '/' && s[1] == 'c';
      assert LeftStripped(s) == s[1..];
    } else {
      StrippedEnds(cfg.prefix);
      StrippedEnds(LeftStripped(cfg.prefix));
      assert s[0] == p[0] != '/';
    }
  }

  /**
   Under one configured prefix different children, and different generations of one child, are archived
   apart; only the empty id shares its place with the id "child".
   */
  lemma ChildPrefixesDiffer(cfg: Config, other: Config, g: nat, h: nat)
    requires Stripped(cfg.prefix) == Stripped(other.prefix)
    requires Stripped(ChildPrefix(cfg, g)) == Stripped(ChildPrefix(other, h))
    ensures g == h
    ensures cfg.childId == other.childId || {cfg.childId, other.childId} == {"", CHILD}
  {
    SameChildPrefix(cfg, other, g, h);
    PrefixParts(Stripped(cfg.prefix) + "/children/", SafeNamespaceName(cfg.childId), SafeNamespaceName(other.childId),
                g, h);
    NamesCollideExactly(cfg.childId, other.childId);
  }

  lemma SameChildPrefix(cfg: Config, other: Config, g: nat, h: nat)
    requires Stripped(cfg.prefix) == Stripped(other.prefix)
    requires Stripped(ChildPrefix(cfg, g)) == Stripped(ChildPrefix(other, h))
    ensures ChildPrefix(cfg, g) == ChildPrefix(other, h)
  {
    ChildPrefixStripped(cfg, g);
    ChildPrefixStripped(other, h);
    var s, t := ChildPrefix(cfg, g), ChildPrefix(other, h);
    if Stripped(cfg.prefix) == "" {
      assert s[0] == t[0] == '/';
      assert s == [s[0]] + s[1..] && t == [t[0]] + t[1..];
    }
  }

  lemma PrefixParts(p: string, x: string, y: string, g: nat, h: nat)
    requires p + x + ("/g" + Padded(g, 4)) == p + y + ("/g" + Padded(h, 4))
    ensures x == y && g == h
  {
    var a, b := "g" + Padded(g, 4), "g" + Padded(h, 4);
    DigitsHaveNoSlash(g, 4);
    DigitsHaveNoSlash(h, 4);
    NoCharAppend("g", Padded(g, 4), '/');
    NoCharAppend("g", Padded(h, 4), '/');
    assert "/g" + Padded(g, 4) == "/" + a && "/g" + Padded(h, 4) == "/" + b;
    LastSplitUnique(p + x, a, p + y, b);
    SameHead("g", Padded(g, 4), Padded(h, 4));
    SameHead(p, x, y);
    PaddedReadsBack(g, 4);
    PaddedReadsBack(h, 4);
  }

  /** The daemon's archive prefixes never strip to nothing. */
  lemma ChildPrefixIsUri(cfg: Config, generation: nat)
    ensures Stripped(ChildPrefix(cfg, generation)) != ""
  {
    ChildPrefixStripped(cfg, generation);
  }

  lemma KeysLiterally()
    ensures ObjectKey("/cold/", "/nfs/x.sqfs") == "cold/packs/x.sqfs" && ManifestKey("cold/") == "cold/manifest.toml"
  {
    StrippedLiterally();
    BasenameInDir("/nfs", "x.sqfs");
    assert InDir("/nfs", "x.sqfs") == "/nfs/x.sqfs";
  }

  lemma ChildPrefixLiterally(hotDir: string)
    ensures ChildPrefix(Config("cold/", "a/b", hotDir), 3) == "cold" + "/children/" + "a%2Fb" + "/g0003"
  {
    StrippedLiterally();
    SlashIsEncoded();
    PaddedLiterally();
    assert "/g" + Padded(3, 4) == "/g0003";
  }

  lemma StrippedLiterally()
    ensures Stripped("/cold/") == "cold" && Stripped("cold/") == "cold"
  {
    assert "/cold/"[1..] == "cold/" && "cold/"[..4] == "cold";
  }
}
