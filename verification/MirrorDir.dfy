/**
 Publication of a dirty mirror, cut by a crash after any single effect: removing or copying one entry, a
 rename, a symlink, a file replacement.  Readers find no mirror, the previous epoch, or the new one, each
 complete; never one being staged or deleted.  Publications are made under the writer lock, and the
 removal of all mirror state is one effect.
 */
module MirrorDir {
  import opened Trees
  import opened Packs
  import opened Names

  /** One epoch directory: its tree, if present, and whether its metadata file is. */
  datatype EpochDir = EpochDir(tree: Option<Tree>, described: bool)

  datatype Published = Published(epoch: nat, base: nat, path: string)

  /** The epoch directories by name, the `current` link and publish.json with their temporaries. */
  datatype Disk = Disk(
    epochs: map<string, EpochDir>,
    current: Option<string>,
    currentTmp: Option<string>,
    publish: Option<Published>,
    publishTmp: Option<Published>
  )

  const NO_MIRROR := Disk(map[], None, None, None, None)

  datatype Epoch = Epoch(number: nat, base: nat, tree: Tree)

  predicate HasTree(d: Disk, name: string) {
    name in d.epochs && d.epochs[name].tree.Some?
  }

  /** What a reader finds: the published tree, or whatever `current` points at if that is gone. */
  function Latest(d: Disk): Option<Epoch> {
    if d.publish.None? then None
    else
      var p := d.publish.value;
      if HasTree(d, p.path) then Some(Epoch(p.epoch, p.base, d.epochs[p.path].tree.value))
      else if d.current.Some? && HasTree(d, d.current.value)
      then Some(Epoch(p.epoch, p.base, d.epochs[d.current.value].tree.value))
      else None
  }

  /** A reader finds the announced epoch with the tree at the announced path, or for want of it behind `current`. */
  lemma ReaderFinds(d: Disk)
    ensures Latest(d).Some? <==>
            d.publish.Some? && (HasTree(d, d.publish.value.path) || (d.current.Some? && HasTree(d, d.current.value)))
    ensures Latest(d).Some? ==>
              && Latest(d).value.number == d.publish.value.epoch && Latest(d).value.base == d.publish.value.base
              && var name := if HasTree(d, d.publish.value.path) then d.publish.value.path else d.current.value;
                 Some(Latest(d).value.tree) == d.epochs[name].tree
  {
  }

  function NextEpoch(d: Disk): nat {
    if d.publish.Some? then d.publish.value.epoch + 1 else 1
  }

  /** What is published is there, under its own epoch's name. */
  predicate Valid(d: Disk) {
    d.publish.Some? ==>
      d.publish.value.path == EpochName(d.publish.value.epoch) && HasTree(d, d.publish.value.path)
  }

  /** Nothing but one epoch directory differs. */
  predicate SameExcept(d: Disk, x: Disk, name: string) {
    && x == d.(epochs := x.epochs)
    && forall n | n in x.epochs.Keys + d.epochs.Keys && n != name ::
         n in x.epochs && n in d.epochs && x.epochs[n] == d.epochs[n]
  }

  /** What has been copied of the source when these entries are left. */
  function Copied(source: Tree, rest: set<Path>): Tree {
    map p | p in source && p !in rest :: source[p]
  }

  lemma OneMoreCopied(source: Tree, rest: set<Path>, e: Path)
    requires e in rest && e in source
    ensures Copied(source, rest)[e := source[e]] == Copied(source, rest - {e})
  {
  }

  lemma OneChanged(d: Disk, x: Disk, name: string, dir: EpochDir)
    requires SameExcept(d, x, name)
    ensures SameExcept(d, x.(epochs := x.epochs[name := dir]), name)
  {
  }

  /** Neither the staging nor the final directory of the next epoch is the published one. */
  lemma NextIsUnpublished(d: Disk)
    requires Valid(d)
    ensures d.publish.Some? ==>
              EpochName(NextEpoch(d)) != d.publish.value.path && StagingName(NextEpoch(d)) != d.publish.value.path
    ensures EpochName(NextEpoch(d)) != StagingName(NextEpoch(d))
  {
    EpochNamesDiffer(NextEpoch(d), NextEpoch(d));
    if d.publish.Some? {
      EpochNamesDiffer(d.publish.value.epoch, NextEpoch(d));
      EpochNamesDiffer(NextEpoch(d), d.publish.value.epoch);
    }
  }

  /** Moving the staged epoch to its final name shows nothing yet. */
  lemma MovedIsInvisible(d: Disk, x: Disk, epoch: nat)
    requires Valid(d) && epoch == NextEpoch(d) && StagingName(epoch) in d.epochs
    requires x == d.(epochs := (d.epochs - {StagingName(epoch)})[EpochName(epoch) := d.epochs[StagingName(epoch)]])
    ensures Valid(x) && Latest(x) == Latest(d)
  {
    NextIsUnpublished(d);
  }

  /** After a publication, whole or cut short: nothing new, or the new epoch complete. */
  predicate Publication(d: Disk, source: Tree, base: nat, x: Disk) {
    && Valid(x)
    && ((x.publish == d.publish && Latest(x) == Latest(d))
        || (x.publish == Some(Published(NextEpoch(d), base, EpochName(NextEpoch(d))))
            && Latest(x) == Some(Epoch(NextEpoch(d), base, source))))
  }

  /** How many effects deleting an epoch directory takes. */
  function RemovalCost(epochs: map<string, EpochDir>, name: string): nat {
    if name !in epochs then 0
    else 1 + match epochs[name].tree case None => 0 case Some(tree) => |tree.Keys|
  }

  /** How many effects a whole publication takes: clear, make, copy and describe, announce. */
  function PublicationCost(d: Disk, source: Tree): nat {
    var e := NextEpoch(d);
    RemovalCost(d.epochs, StagingName(e)) + RemovalCost(d.epochs, EpochName(e)) + |source.Keys| + 1 + 6
  }

  /** One child's mirror directory. */
  class DirtyMirror {
    var epochs: map<string, EpochDir>
    var current: Option<string>
    var currentTmp: Option<string>
    var publish: Option<Published>
    var publishTmp: Option<Published>

    function State(): Disk
      reads this
    {
      Disk(epochs, current, currentTmp, publish, publishTmp)
    }

    constructor ()
      ensures State() == NO_MIRROR
    {
      epochs, current, currentTmp, publish, publishTmp := map[], None, None, None, None;
    }

    /**
     Stages the epoch, moves it into place, points `current` at it and announces it; stops after budget
     effects.  Returns whether it got to the end, which it does exactly when the budget covers the cost.
     */
    method PublishLogicalMirror(source: Tree, base: nat, budget: nat) returns (done: bool)
      requires Rooted(source) && Valid(State())
      modifies this
      ensures Publication(old(State()), source, base, State())
      ensures done <==> budget >= PublicationCost(old(State()), source)
      ensures done ==> Latest(State()) == Some(Epoch(NextEpoch(old(State())), base, source))
      ensures done ==> current == Some(EpochName(NextEpoch(old(State()))))
    {
      var epoch := if publish.Some? then publish.value.epoch + 1 else 1;
      var staging, final := StagingName(epoch), EpochName(epoch);
      ghost var start := State();
      NextIsUnpublished(start);
      var ok, left := RemoveTree(staging, budget);
      ghost var cleared := State();
      if !ok {
        return false;
      }
      ok, left := RemoveTree(final, left);
      ghost var ready := State();
      if !ok {
        return false;
      }
      ok, left := StageTree(source, staging, left);
      ghost var staged := State();
      if !ok {
        return false;
      }
      done := Announce(epoch, base, left);
    }

    /** From a complete staged epoch to a published one. */
    method Announce(epoch: nat, base: nat, budget: nat) returns (done: bool)
      requires Valid(State()) && epoch == NextEpoch(State()) && HasTree(State(), StagingName(epoch))
      requires EpochName(epoch) !in epochs
      modifies this
      ensures Publication(old(State()), old(epochs[StagingName(epoch)].tree.value), base, State())
      ensures done <==> budget >= 6
      ensures done ==> current == Some(EpochName(epoch)) && publish == Some(Published(epoch, base, EpochName(epoch)))
    {
      ghost var start := State();
      NextIsUnpublished(start);
      if budget == 0 {
        return false;
      }
      epochs := (epochs - {StagingName(epoch)})[EpochName(epoch) := epochs[StagingName(epoch)]];
      ghost var moved := State();
      MovedIsInvisible(start, moved, epoch);
      if budget == 1 {
        return false;
      }
      currentTmp := None;
      if budget == 2 {
        return false;
      }
      currentTmp := Some(EpochName(epoch));
      if budget == 3 {
        return false;
      }
      current, currentTmp := currentTmp, None;
      if budget == 4 {
        return false;
      }
      publishTmp := Some(Published(epoch, base, EpochName(epoch)));
      if budget == 5 {
        return false;
      }
      publish, publishTmp := publishTmp, None;
      return true;
    }

    /** Deletes an epoch directory entry by entry. */
    method RemoveTree(name: string, budget: nat) returns (ok: bool, left: nat)
      modifies this`epochs
      ensures SameExcept(old(State()), State(), name)
      ensures ok ==> name !in epochs
      ensures ok <==> budget >= RemovalCost(old(epochs), name)
      ensures ok ==> left == budget - RemovalCost(old(epochs), name)
    {
      left := budget;
      if name !in epochs {
        return true, left;
      }
      if epochs[name].tree.Some? {
        var rest := epochs[name].tree.value.Keys;
        while rest != {}
          invariant name in epochs && epochs[name].tree.Some? && epochs[name].tree.value.Keys == rest
          invariant left + |old(epochs[name].tree.value).Keys| == budget + |rest|
          invariant SameExcept(old(State()), State(), name)
          decreases rest
        {
          if left == 0 {
            return false, left;
          }
          var p :| p in rest;
          var tree := epochs[name].tree.value;
          OneChanged(old(State()), State(), name, epochs[name].(tree := Some(tree - {p})));
          epochs := epochs[name := epochs[name].(tree := Some(tree - {p}))];
          rest, left := rest - {p}, left - 1;
        }
      }
      if left == 0 {
        return false, left;
      }
      epochs := epochs - {name};
      return true, left - 1;
    }

    /** Copies the upper entry by entry and writes the metadata. */
    method StageTree(source: Tree, name: string, budget: nat) returns (ok: bool, left: nat)
      requires Rooted(source) && name !in epochs
      modifies this`epochs
      ensures SameExcept(old(State()), State(), name)
      ensures ok ==> name in epochs && epochs[name] == EpochDir(Some(source), true)
      ensures ok <==> budget >= |source.Keys| + 1
      ensures ok ==> left == budget - (|source.Keys| + 1)
    {
      left := budget;
      if left == 0 {
        return false, left;
      }
      var tree: Tree := EMPTY_TREE;
      epochs, left := epochs[name := EpochDir(Some(tree), false)], left - 1;
      var rest := source.Keys - {[]};
      while rest != {}
        invariant rest <= source.Keys - {[]}
        invariant left + |source.Keys| == budget + |rest|
        invariant tree == Copied(source, rest)
        invariant name in epochs && epochs[name] == EpochDir(Some(tree), false)
        invariant SameExcept(old(State()), State(), name)
        decreases rest
      {
        if left == 0 {
          return false, left;
        }
        NextByParts(rest);
        var e :| e in rest && forall y | y in rest :: !PartsLess(y, e);
        OneMoreCopied(source, rest, e);
        tree := tree[e := source[e]];
        OneChanged(old(State()), State(), name, EpochDir(Some(tree), false));
        epochs := epochs[name := EpochDir(Some(tree), false)];
        rest, left := rest - {e}, left - 1;
      }
      assert tree == Copied(source, {}) == source;
      if left == 0 {
        return false, left;
      }
      epochs := epochs[name := epochs[name].(described := true)];
      return true, left - 1;
    }
  }

  // ---- histories ----

  datatype Event = PublicationEvent(source: Tree, base: nat) | CleanupEvent

  predicate Follows(d: Disk, e: Event, x: Disk) {
    match e
    case PublicationEvent(source, base) => Publication(d, source, base, x)
    case CleanupEvent => x == NO_MIRROR
  }

  /** Disk states between publications, whole or cut short, and cleanups, starting from nothing. */
  predicate IsHistory(ds: seq<Disk>, es: seq<Event>) {
    && |ds| == |es| + 1 && ds[0] == NO_MIRROR
    && forall i | 0 <= i < |es| :: Follows(ds[i], es[i], ds[i + 1])
  }

  predicate NoCleanup(es: seq<Event>, i: nat, j: nat)
    requires i <= j <= |es|
  {
    forall k | i <= k < j :: es[k].PublicationEvent?
  }

  /**
   What a reader finds at any time, crashes included, is nothing or exactly the tree and base handed to
   some publication since the last cleanup.
   */
  lemma {:induction false} LatestWasPublished(ds: seq<Disk>, es: seq<Event>, i: nat) returns (j: nat)
    requires IsHistory(ds, es) && i <= |es|
    ensures Valid(ds[i]) && (ds[i].publish.Some? <==> Latest(ds[i]).Some?)
    ensures Latest(ds[i]).Some? ==>
              && j < i && NoCleanup(es, j, i)
              && Latest(ds[i]).value.tree == es[j].source && Latest(ds[i]).value.base == es[j].base
              && Latest(ds[i]).value.number == NextEpoch(ds[j])
    decreases i
  {
    j := 0;
    if i > 0 {
      assert Follows(ds[i - 1], es[i - 1], ds[i]);
      j := LatestWasPublished(ds, es, i - 1);
      if es[i - 1].PublicationEvent? && Latest(ds[i]) != Latest(ds[i - 1]) {
        j := i - 1;
      }
    }
  }

  /** How many publications since the last cleanup readers came to see. */
  function Shown(ds: seq<Disk>, es: seq<Event>, i: nat): nat
    requires |ds| == |es| + 1 && i <= |es|
  {
    if i == 0 || es[i - 1].CleanupEvent? then 0
    else Shown(ds, es, i - 1) + (if Latest(ds[i]) != Latest(ds[i - 1]) then 1 else 0)
  }

  /** Epochs are numbered from one, without gaps: cut publications use up no number. */
  lemma {:induction false} EpochsCount(ds: seq<Disk>, es: seq<Event>, i: nat)
    requires IsHistory(ds, es) && i <= |es|
    ensures Shown(ds, es, i) == if Latest(ds[i]).Some? then Latest(ds[i]).value.number else 0
    decreases i
  {
    if i > 0 {
      EpochsCount(ds, es, i - 1);
      var j := LatestWasPublished(ds, es, i - 1);
      assert Follows(ds[i - 1], es[i - 1], ds[i]);
    }
  }

  /** Between cleanups epochs only go up, and a changed mirror has a higher epoch. */
  lemma {:induction false} EpochsIncrease(ds: seq<Disk>, es: seq<Event>, i: nat, j: nat)
    requires IsHistory(ds, es) && i <= j <= |es| && NoCleanup(es, i, j)
    requires Latest(ds[i]).Some?
    ensures Latest(ds[j]).Some?
    ensures Latest(ds[i]).value.number <= Latest(ds[j]).value.number
    ensures Latest(ds[i]).value.number == Latest(ds[j]).value.number ==> Latest(ds[i]) == Latest(ds[j])
    decreases j
  {
    if i < j {
      EpochsIncrease(ds, es, i, j - 1);
      assert Follows(ds[j - 1], es[j - 1], ds[j]);
      var k := LatestWasPublished(ds, es, j - 1);
      assert ds[j - 1].publish.Some?;
      assert Latest(ds[j - 1]).value.number == ds[j - 1].publish.value.epoch;
    }
  }
}
