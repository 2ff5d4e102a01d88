/**
 One node's table of writable mounts: reference counts, the writer locks of local-ssd-async children, and the
 ways a mount ends.  Lock files and mirrors are shared with the other nodes.
 */
module Mounts {
  import opened Packs

  datatype Mode = Ro | Rw

  datatype Policy = SharedNfs | LocalSsdAsync

  /** `locked`: the record holds the child's writer lock. */
  datatype Record = Record(
    mountpoint: string, mode: Mode, policy: Policy, refcount: int, lastUsed: int, locked: bool, base: nat
  )

  /** Where to mount a manifest, its write policy and its generation. */
  datatype Request = Request(mountpoint: string, policy: Policy, base: nat)

  /** Lock files with the node that created them; base generation of each child's latest mirror. */
  datatype Table = Table(records: map<string, Record>, locks: map<string, nat>, mirrors: map<string, nat>)

  // ---- operations as functions ----

  predicate Publishes(t: Table, dirty: set<string>, id: string) {
    id in t.records && t.records[id].locked && id in dirty
  }

  function LocksLeft(t: Table, ids: set<string>): map<string, nat> {
    map id | id in t.locks && !(id in ids && id in t.records && t.records[id].locked) :: t.locks[id]
  }

  function MirrorsLeft(t: Table, ids: set<string>, dirty: set<string>): map<string, nat> {
    map id | id in t.mirrors.Keys + ids && (id in t.mirrors || Publishes(t, dirty, id)) ::
      if id in ids && Publishes(t, dirty, id) then t.records[id].base else t.mirrors[id]
  }

  /** Each of the mounts is published if dirty, unmounted, unlocked and forgotten. */
  function TornDown(t: Table, ids: set<string>, dirty: set<string>): Table {
    Table(t.records - ids, LocksLeft(t, ids), MirrorsLeft(t, ids, dirty))
  }

  /** A writable mount; under local-ssd-async it holds the writer lock. */
  function NewRecord(want: Request, refcount: int, now: int): Record {
    Record(want.mountpoint, Rw, want.policy, refcount, now, want.policy.LocalSsdAsync?, want.base)
  }

  /** Opening for writing: reuses the mount, takes the lock, or falls back to the published mirror. */
  function Opened(t: Table, node: nat, id: string, want: Request, readable: bool, now: int): Result<Table> {
    if id in t.records then
      var r := t.records[id];
      if r.mountpoint != want.mountpoint then Err("mounted elsewhere")
      else if r.mode.Ro? then Err("mounted read-only")
      else if r.policy != want.policy then Err("mounted with another write policy")
      else Ok(t.(records := t.records[id := r.(refcount := r.refcount + 1, lastUsed := now)]))
    else if want.policy.SharedNfs? then
      Ok(t.(records := t.records[id := NewRecord(want, 1, now)]))
    else if id in t.locks then
      if readable then
        Ok(t.(records := t.records[id := Record(want.mountpoint, Ro, LocalSsdAsync, 1, now, false, want.base)]))
      else Err("writer lock is held and nothing is published")
    else
      Ok(t.(records := t.records[id := NewRecord(want, 1, now)], locks := t.locks[id := node]))
  }

  /** Why opening for writing fails: the child is mounted differently, or its lock is held and nothing readable. */
  predicate Refuses(t: Table, id: string, want: Request, readable: bool) {
    if id in t.records then
      || t.records[id].mountpoint != want.mountpoint
      || t.records[id].mode == Ro
      || t.records[id].policy != want.policy
    else want.policy == LocalSsdAsync && id in t.locks && !readable
  }

  function Unmounted(t: Table, id: string, dirty: set<string>): Table {
    if id !in t.records then t
    else if t.records[id].refcount <= 1 then TornDown(t, {id}, dirty)
    else t.(records := t.records[id := t.records[id].(refcount := t.records[id].refcount - 1)])
  }

  function Released(t: Table, id: string, now: int): Table {
    if id !in t.records then t
    else
      var r := t.records[id];
      t.(records := t.records[id := r.(refcount := if r.refcount > 0 then r.refcount - 1 else r.refcount,
                                       lastUsed := now)])
  }

  predicate Expired(r: Record, ttl: int, now: int) {
    r.refcount <= 0 && now - r.lastUsed >= ttl
  }

  function ExpiredIds(records: map<string, Record>, ttl: int, now: int): set<string> {
    set id | id in records && Expired(records[id], ttl, now)
  }

  // ---- the manager ----

  class NfsRoot {
    var locks: map<string, nat>
    var mirrors: map<string, nat>

    constructor ()
      ensures locks == map[] && mirrors == map[]
    {
      locks, mirrors := map[], map[];
    }
  }

  class ChildMountManager {
    const nfs: NfsRoot
    const node: nat
    var records: map<string, Record>

    constructor (nfs: NfsRoot, node: nat)
      ensures this.nfs == nfs && this.node == node && records == map[]
    {
      this.nfs, this.node, this.records := nfs, node, map[];
    }

    function State(): Table
      reads this, nfs
    {
      Table(records, nfs.locks, nfs.mirrors)
    }

    method MountRw(id: string, want: Request, readable: bool, now: int) returns (r: Result<Mode>)
      modifies this`records, nfs`locks
      ensures match Opened(old(State()), node, id, want, readable, now)
              case Ok(t) => r.Ok? && State() == t && id in t.records && r.value == t.records[id].mode
              case Err(_) => r.Err? && State() == old(State())
      ensures r.Err? <==> Refuses(old(State()), id, want, readable)
      ensures r.Ok? ==>
                && id in records && records[id].mountpoint == want.mountpoint && records[id].policy == want.policy
                && r.value == records[id].mode && (id in old(records) ==> r.value == Rw)
    {
      if id in records {
        var record := records[id];
        if record.mountpoint != want.mountpoint {
          return Err("mounted elsewhere");
        }
        if record.mode.Ro? {
          return Err("mounted read-only");
        }
        if record.policy != want.policy {
          return Err("mounted with another write policy");
        }
        records := records[id := record.(refcount := record.refcount + 1, lastUsed := now)];
        return Ok(Rw);
      }
      if want.policy.SharedNfs? {
        records := records[id := NewRecord(want, 1, now)];
        return Ok(Rw);
      }
      var acquired := AcquireLock(id);
      if !acquired {
        if !readable {
          return Err("writer lock is held and nothing is published");
        }
        records := records[id := Record(want.mountpoint, Ro, LocalSsdAsync, 1, now, false, want.base)];
        return Ok(Ro);
      }
      records := records[id := NewRecord(want, 1, now)];
      return Ok(Rw);
    }

    /** Creates the lock file if there is none; an existing one is never stolen. */
    method AcquireLock(id: string) returns (ok: bool)
      modifies nfs`locks
      ensures ok <==> id !in old(nfs.locks)
      ensures nfs.locks == if ok then old(nfs.locks)[id := node] else old(nfs.locks)
    {
      ok := id !in nfs.locks;
      if ok {
        nfs.locks := nfs.locks[id := node];
      }
    }

    /** Publish, then unmount, then release the lock, then forget the record. */
    method TearDown(id: string, dirty: set<string>)
      requires id in records
      modifies this`records, nfs
      ensures State() == TornDown(old(State()), {id}, dirty)
    {
      var record := records[id];
      if record.locked && id in dirty {
        nfs.mirrors := nfs.mirrors[id := record.base];
      }
      if record.locked && id in nfs.locks {
        nfs.locks := nfs.locks - {id};
      }
      records := records - {id};
      OneTornDown(old(State()), id, dirty);
    }

    method Unmount(id: string, dirty: set<string>)
      modifies this`records, nfs
      ensures State() == Unmounted(old(State()), id, dirty)
    {
      if id !in records {
        return;
      }
      var left := records[id].refcount - 1;
      if left <= 0 {
        TearDown(id, dirty);
      } else {
        records := records[id := records[id].(refcount := left)];
      }
    }

    method ForceUnmount(id: string, dirty: set<string>)
      modifies this`records, nfs
      ensures State() == if id in old(records) then TornDown(old(State()), {id}, dirty) else old(State())
    {
      if id in records {
        TearDown(id, dirty);
      }
    }

    /** Drops one handle; the mount lingers until it idles out. */
    method Release(id: string, now: int)
      modifies this`records
      ensures State() == Released(old(State()), id, now)
    {
      if id !in records {
        return;
      }
      var record := records[id];
      if record.refcount > 0 {
        record := record.(refcount := record.refcount - 1);
      }
      records := records[id := record.(lastUsed := now)];
    }

    method IdleUnmountExpired(ttl: int, now: int, dirty: set<string>) returns (expired: set<string>)
      modifies this`records, nfs
      ensures expired == ExpiredIds(old(records), ttl, now)
      ensures State() == TornDown(old(State()), expired, dirty)
    {
      ghost var before := State();
      expired := {};
      var ids := records.Keys;
      NothingTornDown(before, dirty);
      while ids != {}
        invariant ids <= before.records.Keys && ids !! expired
        invariant expired == ExpiredIds(before.records, ttl, now) - ids
        invariant State() == TornDown(before, expired, dirty)
        decreases ids
      {
        var id :| id in ids;
        ids := ids - {id};
        if Expired(records[id], ttl, now) {
          TornDownInTwo(before, expired, {id}, dirty);
          TearDown(id, dirty);
          expired := expired + {id};
        }
      }
    }

    method StopAll(dirty: set<string>)
      modifies this`records, nfs
      ensures records == map[]
      ensures State() == TornDown(old(State()), old(records.Keys), dirty)
    {
      ghost var before, done: set<string> := State(), {};
      NothingTornDown(before, dirty);
      while records != map[]
        invariant done !! records.Keys && done + records.Keys == before.records.Keys
        invariant State() == TornDown(before, done, dirty)
        decreases records.Keys
      {
        var id :| id in records;
        TornDownInTwo(before, done, {id}, dirty);
        TearDown(id, dirty);
        done := done + {id};
      }
    }
  }

  lemma OneTornDown(t: Table, id: string, dirty: set<string>)
    requires id in t.records
    ensures var r := t.records[id];
            TornDown(t, {id}, dirty)
            == Table(t.records - {id},
                     if r.locked && id in t.locks then t.locks - {id} else t.locks,
                     if r.locked && id in dirty then t.mirrors[id := r.base] else t.mirrors)
  {
    var r, x := t.records[id], TornDown(t, {id}, dirty);
    assert x.locks == if r.locked && id in t.locks then t.locks - {id} else t.locks;
    assert x.mirrors == if r.locked && id in dirty then t.mirrors[id := r.base] else t.mirrors;
  }

  lemma NothingTornDown(t: Table, dirty: set<string>)
    ensures TornDown(t, {}, dirty) == t
  {
    var x := TornDown(t, {}, dirty);
    assert x.records == t.records && x.locks.Keys == t.locks.Keys && x.mirrors.Keys == t.mirrors.Keys;
  }

  lemma LocksInTwo(t: Table, a: set<string>, b: set<string>, dirty: set<string>)
    requires a !! b
    ensures LocksLeft(TornDown(t, a, dirty), b) == LocksLeft(t, a + b)
  {
    var x, y := LocksLeft(TornDown(t, a, dirty), b), LocksLeft(t, a + b);
    assert x.Keys == y.Keys;
  }

  lemma MirrorsInTwo(t: Table, a: set<string>, b: set<string>, dirty: set<string>)
    requires a !! b
    ensures MirrorsLeft(TornDown(t, a, dirty), b, dirty) == MirrorsLeft(t, a + b, dirty)
  {
    var x, y := MirrorsLeft(TornDown(t, a, dirty), b, dirty), MirrorsLeft(t, a + b, dirty);
    assert x.Keys == y.Keys;
  }

  /** Tearing mounts down one after the other, in any order, comes to the same. */
  lemma TornDownInTwo(t: Table, a: set<string>, b: set<string>, dirty: set<string>)
    requires a !! b
    ensures TornDown(TornDown(t, a, dirty), b, dirty) == TornDown(t, a + b, dirty)
  {
    LocksInTwo(t, a, b, dirty);
    MirrorsInTwo(t, a, b, dirty);
  }

  // ---- locks and records ----

  predicate MountsLocally(r: Record) {
    r.mode.Rw? && r.policy.LocalSsdAsync?
  }

  /** The node's lock files are exactly those of its writable local-ssd-async mounts. */
  predicate Valid(t: Table, node: nat) {
    && (forall id | id in t.records :: t.records[id].locked <==> MountsLocally(t.records[id]))
    && (forall id | id in t.records && t.records[id].locked :: id in t.locks && t.locks[id] == node)
    && forall id | id in t.locks && t.locks[id] == node :: id in t.records && t.records[id].locked
  }

  /** Lock files of other nodes are as they were. */
  predicate OthersUntouched(t: Table, x: Table, node: nat) {
    && (forall id | id in t.locks && t.locks[id] != node :: id in x.locks && x.locks[id] == t.locks[id])
    && forall id | id in x.locks && x.locks[id] != node :: id in t.locks && t.locks[id] == x.locks[id]
  }

  /**
   Every way to open or end mounts keeps lock files and writable mounts in step and leaves other nodes'
   lock files alone.
   */
  lemma TearingDownKeepsLocks(t: Table, node: nat, ids: set<string>, dirty: set<string>)
    requires Valid(t, node)
    ensures Valid(TornDown(t, ids, dirty), node) && OthersUntouched(t, TornDown(t, ids, dirty), node)
  {
  }

  lemma UnmountingKeepsLocks(t: Table, node: nat, id: string, dirty: set<string>)
    requires Valid(t, node)
    ensures Valid(Unmounted(t, id, dirty), node) && OthersUntouched(t, Unmounted(t, id, dirty), node)
  {
    TearingDownKeepsLocks(t, node, {id}, dirty);
  }

  lemma OpeningKeepsLocks(t: Table, node: nat, id: string, want: Request, readable: bool, now: int)
    requires Valid(t, node) && Opened(t, node, id, want, readable, now).Ok?
    ensures var x := Opened(t, node, id, want, readable, now).value;
            Valid(x, node) && OthersUntouched(t, x, node)
  {
    var x := Opened(t, node, id, want, readable, now).value;
    OpenedChanges(t, node, id, want, readable, now);
    OneRecordChanges(t, x, node, id);
  }

  /** Opening changes one record, and creates its lock file exactly if the record is new and holds it. */
  lemma OpenedChanges(t: Table, node: nat, id: string, want: Request, readable: bool, now: int)
    requires Valid(t, node) && Opened(t, node, id, want, readable, now).Ok?
    ensures var x := Opened(t, node, id, want, readable, now).value;
            && id in x.records && x.records == t.records[id := x.records[id]]
            && (x.records[id].locked <==> MountsLocally(x.records[id]))
            && (if id !in t.records && x.records[id].locked then id !in t.locks && x.locks == t.locks[id := node]
                else x.locks == t.locks)
            && (id in t.records ==> x.records[id].locked == t.records[id].locked)
  {
  }

  lemma OneRecordChanges(t: Table, x: Table, node: nat, id: string)
    requires Valid(t, node) && id in x.records && x.records == t.records[id := x.records[id]]
    requires x.records[id].locked <==> MountsLocally(x.records[id])
    requires if id !in t.records && x.records[id].locked then id !in t.locks && x.locks == t.locks[id := node]
             else x.locks == t.locks
    requires id in t.records ==> x.records[id].locked == t.records[id].locked
    ensures Valid(x, node) && OthersUntouched(t, x, node)
  {
  }

  // ---- what each operation does, field by field ----

  /**
   Opening for writing is refused exactly if the child is mounted at another place, read-only or under another
   policy, in this order, or is not mounted and its lock is held with nothing readable.  A mount in place is
   counted once more and otherwise as it was.  A new one is as requested, counted once, and writable unless the
   lock was held; its lock file is created exactly if it is writable and local-ssd-async.
   */
  lemma OpensExactly(t: Table, node: nat, id: string, want: Request, readable: bool, now: int)
    ensures var r := Opened(t, node, id, want, readable, now);
            && (r.Err? <==> Refuses(t, id, want, readable))
            && (r.Err? && id in t.records ==>
                  r.message == if t.records[id].mountpoint != want.mountpoint then "mounted elsewhere"
                               else if t.records[id].mode == Ro then "mounted read-only"
                               else "mounted with another write policy")
            && (r.Ok? ==>
                  var x := r.value;
                  && x.mirrors == t.mirrors && x.records.Keys == t.records.Keys + {id}
                  && (forall other | other in t.records && other != id :: x.records[other] == t.records[other])
                  && var rec := x.records[id];
                     if id in t.records then
                       && x.locks == t.locks && rec.mode == Rw && rec.lastUsed == now
                       && rec.refcount == t.records[id].refcount + 1
                       && rec.mountpoint == t.records[id].mountpoint == want.mountpoint
                       && rec.policy == t.records[id].policy == want.policy
                       && rec.locked == t.records[id].locked && rec.base == t.records[id].base
                     else
                       && rec.mountpoint == want.mountpoint && rec.policy == want.policy && rec.base == want.base
                       && rec.refcount == 1 && rec.lastUsed == now
                       && (rec.mode == Ro <==> want.policy == LocalSsdAsync && id in t.locks)
                       && (rec.locked <==> rec.mode == Rw && want.policy == LocalSsdAsync)
                       && x.locks == if rec.locked then t.locks[id := node] else t.locks)
  {
  }

  /**
   Ending mounts forgets exactly their records, removes exactly the lock files they held, and leaves as the
   child's mirror the generation they had mounted exactly if they held the lock and were dirty.
   */
  lemma TearsDownExactly(t: Table, ids: set<string>, dirty: set<string>, id: string)
    ensures var x := TornDown(t, ids, dirty);
            var ended := id in ids && id in t.records;
            && (id in x.records <==> id in t.records && id !in ids)
            && (id in x.records ==> x.records[id] == t.records[id])
            && (id in x.locks <==> id in t.locks && !(ended && t.records[id].locked))
            && (id in x.locks ==> x.locks[id] == t.locks[id])
            && (if ended && t.records[id].locked && id in dirty
                then id in x.mirrors && x.mirrors[id] == t.records[id].base
                else (id in x.mirrors <==> id in t.mirrors) && (id in t.mirrors ==> x.mirrors[id] == t.mirrors[id]))
  {
  }

  /** Unmounting ends the last reference and else only counts; forcing ends any. */
  lemma UnmountsExactly(t: Table, node: nat, id: string, dirty: set<string>)
    requires id in t.records
    ensures var x, y := Done(t, node, UnmountOp(id, dirty)), Done(t, node, ForceOp(id, dirty));
            && (id in x.records <==> t.records[id].refcount > 1)
            && (id in x.records ==>
                  && x.records == t.records[id := t.records[id].(refcount := t.records[id].refcount - 1)]
                  && x.locks == t.locks && x.mirrors == t.mirrors)
            && (id !in x.records ==> x == y)
            && id !in y.records
  {
  }

  /**
   A release lowers the count, not below zero, and dates the last use; idling later ends the mount exactly if
   that was the last reference and the time to live has passed since.
   */
  lemma ReleasedIsReaped(t: Table, node: nat, id: string, now: int, ttl: int, later: int, dirty: set<string>)
    requires id in t.records && t.records[id].refcount >= 0
    ensures var r := t.records[id];
            var x := Done(t, node, ReleaseOp(id, now));
            var y := Done(x, node, IdleOp(ttl, later, dirty));
            && x.locks == t.locks && x.mirrors == t.mirrors
            && x.records == t.records[id := r.(refcount := if r.refcount == 0 then 0 else r.refcount - 1,
                                               lastUsed := now)]
            && (id !in y.records <==> r.refcount <= 1 && later - now >= ttl)
  {
  }

  /** Idling ends exactly the unreferenced mounts that have not been used for the time to live. */
  lemma IdlingReapsExactly(t: Table, node: nat, ttl: int, now: int, dirty: set<string>, id: string)
    requires id in t.records
    ensures id !in Done(t, node, IdleOp(ttl, now, dirty)).records <==>
            t.records[id].refcount <= 0 && now - t.records[id].lastUsed >= ttl
  {
  }

  // ---- any number of nodes over one NFS root ----

  datatype Op =
    | OpenOp(id: string, want: Request, readable: bool, now: int)
    | UnmountOp(id: string, dirty: set<string>)
    | ForceOp(id: string, dirty: set<string>)
    | ReleaseOp(id: string, now: int)
    | IdleOp(ttl: int, now: int, dirty: set<string>)
    | StopOp(dirty: set<string>)

  /** One operation on one node's table; an open that fails changes nothing. */
  function Done(t: Table, node: nat, op: Op): Table {
    match op
    case OpenOp(id, want, readable, now) =>
      var r := Opened(t, node, id, want, readable, now);
      if r.Ok? then r.value else t
    case UnmountOp(id, dirty) => Unmounted(t, id, dirty)
    case ForceOp(id, dirty) => if id in t.records then TornDown(t, {id}, dirty) else t
    case ReleaseOp(id, now) => Released(t, id, now)
    case IdleOp(ttl, now, dirty) => TornDown(t, ExpiredIds(t.records, ttl, now), dirty)
    case StopOp(dirty) => TornDown(t, t.records.Keys, dirty)
  }

  /** The shared files and every node's records. */
  datatype Cluster = Cluster(locks: map<string, nat>, mirrors: map<string, nat>, nodes: map<nat, map<string, Record>>)

  const NO_MOUNTS := Cluster(map[], map[], map[])

  /** What one node sees: its own records and the shared files. */
  function TableOf(c: Cluster, node: nat): Table {
    Table(if node in c.nodes then c.nodes[node] else map[], c.locks, c.mirrors)
  }

  function Step(c: Cluster, node: nat, op: Op): Cluster {
    var t := Done(TableOf(c, node), node, op);
    Cluster(t.locks, t.mirrors, c.nodes[node := t.records])
  }

  /** Operations in the order they take effect, each with its node. */
  function Run(ops: seq<(nat, Op)>): Cluster {
    if ops == [] then NO_MOUNTS
    else Step(Run(ops[..|ops| - 1]), ops[|ops| - 1].0, ops[|ops| - 1].1)
  }

  ghost predicate AllValid(c: Cluster) {
    forall node: nat :: Valid(TableOf(c, node), node)
  }

  lemma DoneKeepsLocks(t: Table, node: nat, op: Op)
    requires Valid(t, node)
    ensures Valid(Done(t, node, op), node) && OthersUntouched(t, Done(t, node, op), node)
  {
    match op
    case OpenOp(id, want, readable, now) =>
      if Opened(t, node, id, want, readable, now).Ok? {
        OpeningKeepsLocks(t, node, id, want, readable, now);
      }
    case UnmountOp(id, dirty) => UnmountingKeepsLocks(t, node, id, dirty);
    case ForceOp(id, dirty) => TearingDownKeepsLocks(t, node, {id}, dirty);
    case ReleaseOp(id, now) => assert Released(t, id, now).records.Keys == t.records.Keys;
    case IdleOp(ttl, now, dirty) => TearingDownKeepsLocks(t, node, ExpiredIds(t.records, ttl, now), dirty);
    case StopOp(dirty) => TearingDownKeepsLocks(t, node, t.records.Keys, dirty);
  }

  lemma StepKeepsAll(c: Cluster, node: nat, op: Op)
    requires AllValid(c)
    ensures AllValid(Step(c, node, op))
  {
    var t, x := TableOf(c, node), Step(c, node, op);
    var done := Done(t, node, op);
    assert Valid(t, node);
    DoneKeepsLocks(t, node, op);
    forall n: nat ensures Valid(TableOf(x, n), n) {
      if n == node {
        assert TableOf(x, n) == done;
      } else {
        assert Valid(TableOf(c, n), n);
        assert TableOf(x, n).records == TableOf(c, n).records;
      }
    }
  }

  /**
   Whatever any number of nodes do in whatever order, on every node the lock files it created are exactly
   those of its writable local-ssd-async mounts.
   */
  lemma {:induction false} EveryTableStaysValid(ops: seq<(nat, Op)>)
    ensures AllValid(Run(ops))
    decreases |ops|
  {
    if ops != [] {
      EveryTableStaysValid(ops[..|ops| - 1]);
      StepKeepsAll(Run(ops[..|ops| - 1]), ops[|ops| - 1].0, ops[|ops| - 1].1);
    }
  }

  predicate WritesLocally(c: Cluster, node: nat, id: string) {
    id in TableOf(c, node).records && MountsLocally(TableOf(c, node).records[id])
  }

  predicate SameMount(r: Record, q: Record) {
    q == r.(refcount := q.refcount, lastUsed := q.lastUsed)
  }

  predicate HasRecord(c: Cluster, node: nat, id: string) {
    id in TableOf(c, node).records
  }

  lemma StepKeepsMount(c: Cluster, node: nat, op: Op, n: nat, id: string)
    requires HasRecord(c, n, id) && HasRecord(Step(c, node, op), n, id)
    ensures SameMount(TableOf(c, n).records[id], TableOf(Step(c, node, op), n).records[id])
  {
    if n == node {
      DoneKeepsMount(TableOf(c, n), n, op, id);
      assert TableOf(Step(c, node, op), n) == Done(TableOf(c, n), n, op);
    } else {
      assert TableOf(Step(c, node, op), n).records == TableOf(c, n).records;
    }
  }

  lemma DoneKeepsMount(t: Table, node: nat, op: Op, id: string)
    requires id in t.records && id in Done(t, node, op).records
    ensures SameMount(t.records[id], Done(t, node, op).records[id])
  {
    match op
    case OpenOp(other, want, readable, now) => OpensExactly(t, node, other, want, readable, now);
    case UnmountOp(other, dirty) => TearsDownExactly(t, {other}, dirty, id);
    case ForceOp(other, dirty) => TearsDownExactly(t, {other}, dirty, id);
    case ReleaseOp(_, _) =>
    case IdleOp(ttl, now, dirty) => TearsDownExactly(t, ExpiredIds(t.records, ttl, now), dirty, id);
    case StopOp(dirty) => TearsDownExactly(t, t.records.Keys, dirty, id);
  }

  /** While a record exists, whatever the nodes do, its place, mode, policy, lock and base stay what they are. */
  lemma {:induction false} MountsStayAsMade(ops: seq<(nat, Op)>, m: nat, n: nat, id: string)
    requires m <= |ops| && forall k | m <= k <= |ops| :: HasRecord(Run(ops[..k]), n, id)
    ensures HasRecord(Run(ops[..m]), n, id) && HasRecord(Run(ops), n, id)
    ensures SameMount(TableOf(Run(ops[..m]), n).records[id], TableOf(Run(ops), n).records[id])
    decreases |ops|
  {
    assert ops[..|ops|] == ops;
    if m < |ops| {
      var prior := ops[..|ops| - 1];
      assert forall k | m <= k <= |prior| :: prior[..k] == ops[..k];
      forall k | m <= k <= |prior| ensures HasRecord(Run(prior[..k]), n, id) {
        assert HasRecord(Run(ops[..k]), n, id);
      }
      MountsStayAsMade(prior, m, n, id);
      StepKeepsMount(Run(prior), ops[|ops| - 1].0, ops[|ops| - 1].1, n, id);
    }
  }

  /** At no time do two nodes have one child mounted for writing; the one that has it created the lock file. */
  lemma OneWriter(ops: seq<(nat, Op)>, m: nat, n: nat, id: string)
    requires WritesLocally(Run(ops), m, id)
    ensures id in Run(ops).locks && Run(ops).locks[id] == m
    ensures WritesLocally(Run(ops), n, id) ==> m == n
  {
    EveryTableStaysValid(ops);
    var c := Run(ops);
    assert Valid(TableOf(c, m), m) && Valid(TableOf(c, n), n);
  }

  /** A stop leaves no lock file of its node, and every other node's mounts and lock files as they were. */
  lemma StopFreesItsNodeOnly(ops: seq<(nat, Op)>, node: nat, dirty: set<string>, n: nat, id: string)
    ensures var c, x := Run(ops), Run(ops + [(node, StopOp(dirty))]);
            && (id in x.locks ==> x.locks[id] != node)
            && (n != node ==> (WritesLocally(x, n, id) <==> WritesLocally(c, n, id)))
  {
    var all := ops + [(node, StopOp(dirty))];
    assert all[..|all| - 1] == ops;
    EveryTableStaysValid(ops);
    assert Valid(TableOf(Run(ops), node), node);
  }

  /** Reaping idle mounts on one node ends no mount that is open there, and none on any other node. */
  lemma OpenMountsSurviveIdling(ops: seq<(nat, Op)>, node: nat, ttl: int, now: int, dirty: set<string>,
                                n: nat, id: string)
    requires id in TableOf(Run(ops), n).records
    requires TableOf(Run(ops), n).records[id].refcount > 0
    ensures var c, x := Run(ops), Run(ops + [(node, IdleOp(ttl, now, dirty))]);
            && id in TableOf(x, n).records && TableOf(x, n).records[id] == TableOf(c, n).records[id]
            && (WritesLocally(c, n, id) ==> id in x.locks && x.locks[id] == n)
  {
    var all := ops + [(node, IdleOp(ttl, now, dirty))];
    assert all[..|all| - 1] == ops;
    EveryTableStaysValid(all);
    assert Valid(TableOf(Run(all), n), n);
  }

  // ---- reference counts ----

  function OpenedTimes(t: Table, node: nat, id: string, want: Request, now: int, n: nat): Result<Table> {
    if n == 0 then Ok(t)
    else
      match OpenedTimes(t, node, id, want, now, n - 1)
      case Err(e) => Err(e)
      case Ok(x) => Opened(x, node, id, want, true, now)
  }

  function UnmountedTimes(t: Table, id: string, dirty: set<string>, n: nat): Table
    decreases n
  {
    if n == 0 then t else UnmountedTimes(Unmounted(t, id, dirty), id, dirty, n - 1)
  }

  /** The table with this child open n times. */
  function WithOpen(t: Table, node: nat, id: string, want: Request, now: int, n: nat): Table {
    t.(records := t.records[id := NewRecord(want, n, now)],
       locks := if want.policy.LocalSsdAsync? then t.locks[id := node] else t.locks)
  }

  lemma {:induction false} OpenedCounts(t: Table, node: nat, id: string, want: Request, now: int, n: nat)
    requires n > 0 && id !in t.records && (want.policy.LocalSsdAsync? ==> id !in t.locks)
    ensures OpenedTimes(t, node, id, want, now, n) == Ok(WithOpen(t, node, id, want, now, n))
    decreases n
  {
    if n > 1 {
      OpenedCounts(t, node, id, want, now, n - 1);
      var x := OpenedTimes(t, node, id, want, now, n - 1).value;
      assert x.records[id := NewRecord(want, n, now)] == t.records[id := NewRecord(want, n, now)];
    }
  }

  lemma {:induction false} UnmountedCounts(t: Table, id: string, dirty: set<string>, n: nat)
    requires n > 0 && id in t.records && t.records[id].refcount == n
    ensures UnmountedTimes(t, id, dirty, n) == TornDown(t, {id}, dirty)
    ensures forall k | 0 <= k < n :: id in UnmountedTimes(t, id, dirty, k).records
    ensures forall k | 0 <= k < n :: UnmountedTimes(t, id, dirty, k).locks == t.locks
    decreases n
  {
    if n > 1 {
      var x := Unmounted(t, id, dirty);
      UnmountedCounts(x, id, dirty, n - 1);
      OnlyCounts(t, id, n - 1, dirty);
      forall k | 0 < k < n
        ensures id in UnmountedTimes(t, id, dirty, k).records && UnmountedTimes(t, id, dirty, k).locks == t.locks
      {
        assert UnmountedTimes(t, id, dirty, k) == UnmountedTimes(x, id, dirty, k - 1);
      }
    }
  }

  /** The count makes no difference to tearing down. */
  lemma OnlyCounts(t: Table, id: string, n: nat, dirty: set<string>)
    requires id in t.records
    ensures var x := t.(records := t.records[id := t.records[id].(refcount := n)]);
            TornDown(x, {id}, dirty) == TornDown(t, {id}, dirty)
  {
    var x := t.(records := t.records[id := t.records[id].(refcount := n)]);
    assert x.records - {id} == t.records - {id};
    assert LocksLeft(x, {id}) == LocksLeft(t, {id});
    assert MirrorsLeft(x, {id}, dirty).Keys == MirrorsLeft(t, {id}, dirty).Keys;
  }

  /**
   n opens and n unmounts undo each other.  Under local-ssd-async the writer lock is held from the first open
   to the last unmount, and the dirty upper is published before it goes.
   */
  lemma OpensAndUnmountsBalance(t: Table, node: nat, id: string, want: Request, now: int, dirty: set<string>, n: nat)
    requires n > 0 && id !in t.records && (want.policy.LocalSsdAsync? ==> id !in t.locks)
    ensures OpenedTimes(t, node, id, want, now, n).Ok?
    ensures var x := OpenedTimes(t, node, id, want, now, n).value;
            var published := want.policy.LocalSsdAsync? && id in dirty;
            && UnmountedTimes(x, id, dirty, n)
               == t.(mirrors := if published then t.mirrors[id := want.base] else t.mirrors)
            && forall k | 0 <= k < n && want.policy.LocalSsdAsync? :: id in UnmountedTimes(x, id, dirty, k).locks
  {
    OpenedCounts(t, node, id, want, now, n);
    UnmountedCounts(WithOpen(t, node, id, want, now, n), id, dirty, n);
    LastUnmount(t, id, want, now, n, node, dirty);
  }

  lemma LastUnmount(t: Table, id: string, want: Request, now: int, n: nat, node: nat, dirty: set<string>)
    requires id !in t.records && (want.policy.LocalSsdAsync? ==> id !in t.locks)
    ensures var published := want.policy.LocalSsdAsync? && id in dirty;
            TornDown(WithOpen(t, node, id, want, now, n), {id}, dirty)
            == t.(mirrors := if published then t.mirrors[id := want.base] else t.mirrors)
  {
    var x := WithOpen(t, node, id, want, now, n);
    var y := TornDown(x, {id}, dirty);
    assert y.records == t.records;
    assert y.locks.Keys == t.locks.Keys && y.locks == t.locks;
    var published := want.policy.LocalSsdAsync? && id in dirty;
    assert y.mirrors.Keys == if published then t.mirrors.Keys + {id} else t.mirrors.Keys;
  }
}
