/**
  Allocations and releases on one worker that overlap.  The store's operations read the
  whole map of the worker, then write a whole map back, with nothing in between to
  notice that the stored map has moved on.
 */
module PortRaces {
  import opened PortPool
  import opened PortLedger

  /** What was read, and the revision it was read at. */
  datatype Snapshot = Snapshot(allocations: Allocations, revision: nat)

  /** Where one call is. */
  datatype Call =
    | Idle
    | Picked(session: string, mapping: Mapping)
    | Checked(session: string, mapping: Mapping, seen: Snapshot)  // about to write the allocation
    | Popped(session: string, seen: Snapshot)                     // about to write the release

  /** `held` is what callers were granted and have not released. */
  datatype World = World(store: Allocations, revision: nat, held: Allocations, calls: map<nat, Call>)

  datatype Action =
    | Pick(call: nat, session: string, names: Template)  // first read, choice of ports
    | Check(call: nat)                                   // second read, conflict check
    | Write(call: nat)
    | Pop(call: nat, session: string)                    // read of a release
    | WriteRelease(call: nat)

  const EMPTY_WORLD := World(map[], 0, map[], map[])

  function At(w: World, c: nat): Call {
    if c in w.calls then w.calls[c] else Idle
  }

  function Now(w: World): Snapshot {
    Snapshot(w.store, w.revision)
  }

  function Put(w: World, a: Allocations): World {
    w.(store := a, revision := w.revision + 1)
  }

  function Step(w: World, act: Action, lo: int, hi: int): World {
    var here := At(w, act.call);
    match act
    case Pick(c, s, names) =>
      if here.Idle? && names != [] && lo < hi && EnoughFound(Used(w.store), lo, hi, |names|) then
        w.(calls := w.calls[c := Picked(s, Assign(names, FirstFree(Used(w.store), lo, hi, |names|)))])
      else w
    case Check(c) =>
      if !here.Picked? then w
      else if here.mapping.Values !! Used(w.store) then
        w.(calls := w.calls[c := Checked(here.session, here.mapping, Now(w))])
      else w.(calls := w.calls[c := Idle])
    case Write(c) =>
      if here.Checked? then
        Put(w, here.seen.allocations[here.session := here.mapping])
          .(held := w.held[here.session := here.mapping], calls := w.calls[c := Idle])
      else w
    case Pop(c, s) =>
      if here.Idle? && s in w.store then w.(calls := w.calls[c := Popped(s, Now(w))]) else w
    case WriteRelease(c) =>
      if here.Popped? then
        Put(w, here.seen.allocations - {here.session}).(held := w.held - {here.session}, calls := w.calls[c := Idle])
      else w
  }

  function Run(w: World, acts: seq<Action>, lo: int, hi: int): World
    decreases |acts|
  {
    if acts == [] then w else Step(Run(w, acts[..|acts| - 1], lo, hi), acts[|acts| - 1], lo, hi)
  }

  // ---------------------------------------------------------------- what is stored

  ghost predicate CallOk(c: Call, lo: int, hi: int) {
    match c
    case Idle => true
    case Picked(_, m) => Injective(m) && Bounded(m, lo, hi)
    case Checked(_, m, seen) =>
      Injective(m) && Bounded(m, lo, hi) && Consistent(seen.allocations, lo, hi) && m.Values !! Used(seen.allocations)
    case Popped(_, seen) => Consistent(seen.allocations, lo, hi)
  }

  predicate SeenOk(w: World, seen: Snapshot) {
    seen.revision <= w.revision && (seen.revision == w.revision ==> seen.allocations == w.store)
  }

  ghost predicate WorldInv(w: World, lo: int, hi: int) {
    && Consistent(w.store, lo, hi)
    && (forall c :: c in w.calls ==> CallOk(w.calls[c], lo, hi))
    && (forall c :: c in w.calls && w.calls[c].Checked? ==> SeenOk(w, w.calls[c].seen))
    && (forall c :: c in w.calls && w.calls[c].Popped? ==> SeenOk(w, w.calls[c].seen))
  }

  lemma PickKeeps(w: World, c: nat, s: string, names: Template, lo: int, hi: int)
    requires WorldInv(w, lo, hi)
    ensures WorldInv(Step(w, Pick(c, s, names), lo, hi), lo, hi)
  {
    if EnoughFound(Used(w.store), lo, hi, |names|) {
      PickIs(Used(w.store), names, lo, hi);
    }
  }

  lemma ReadKeeps(w: World, act: Action, lo: int, hi: int)
    requires WorldInv(w, lo, hi) && (act.Check? || act.Pop?)
    ensures WorldInv(Step(w, act, lo, hi), lo, hi)
  {
  }

  lemma WriteKeeps(w: World, act: Action, lo: int, hi: int)
    requires WorldInv(w, lo, hi) && (act.Write? || act.WriteRelease?)
    ensures WorldInv(Step(w, act, lo, hi), lo, hi)
  {
    var here := At(w, act.call);
    assert CallOk(here, lo, hi);
    if here.Checked? {
      CommitKeeps(here.seen.allocations, here.session, here.mapping, lo, hi);
    } else if here.Popped? {
      RemoveKeeps(here.seen.allocations, here.session, lo, hi);
    }
  }

  lemma StepKeeps(w: World, act: Action, lo: int, hi: int)
    requires WorldInv(w, lo, hi)
    ensures WorldInv(Step(w, act, lo, hi), lo, hi)
  {
    match act
    case Pick(c, s, names) => PickKeeps(w, c, s, names, lo, hi);
    case Check(_) => ReadKeeps(w, act, lo, hi);
    case Pop(_, _) => ReadKeeps(w, act, lo, hi);
    case Write(_) => WriteKeeps(w, act, lo, hi);
    case WriteRelease(_) => WriteKeeps(w, act, lo, hi);
  }

  /**
    Over every interleaving, stale picks and stale writes included, the stored map is
    consistent: mappings injective, in range, and disjoint between sessions.
   */
  lemma {:induction false} StoredIsConsistent(acts: seq<Action>, lo: int, hi: int)
    ensures WorldInv(Run(EMPTY_WORLD, acts, lo, hi), lo, hi)
    ensures Consistent(Run(EMPTY_WORLD, acts, lo, hi).store, lo, hi)
    decreases |acts|
  {
    if acts != [] {
      StoredIsConsistent(acts[..|acts| - 1], lo, hi);
      StepKeeps(Run(EMPTY_WORLD, acts[..|acts| - 1], lo, hi), acts[|acts| - 1], lo, hi);
    }
  }

  // ---------------------------------------------------------------- what callers hold

  /** The snapshot a pending write of call c goes back to, if it is about to write. */
  predicate Writes(w: World, act: Action) {
    (act.Write? && At(w, act.call).Checked?) || (act.WriteRelease? && At(w, act.call).Popped?)
  }

  /** Nothing but the writing session's own entry has moved since the write's read. */
  predicate UpToDate(w: World, act: Action)
    requires Writes(w, act)
  {
    var here := At(w, act.call);
    here.seen.allocations - {here.session} == w.store - {here.session}
  }

  /**
    From a world in which the store holds what was granted, a write keeps it so if and
    only if it is up to date; an unchanged revision is enough for that.
   */
  lemma WriteLosesNothingIff(acts: seq<Action>, act: Action, lo: int, hi: int)
    requires var w := Run(EMPTY_WORLD, acts, lo, hi); w.held == w.store && Writes(w, act)
    ensures
      var w := Run(EMPTY_WORLD, acts, lo, hi);
      var w' := Step(w, act, lo, hi);
      && (w'.held == w'.store <==> UpToDate(w, act))
      && (At(w, act.call).seen.revision == w.revision ==> UpToDate(w, act))
  {
    var w := Run(EMPTY_WORLD, acts, lo, hi);
    StoredIsConsistent(acts, lo, hi);
    var here := At(w, act.call);
    var seen, s := here.seen.allocations, here.session;
    if act.Write? {
      MergeEq(seen, w.store, s, here.mapping);
    }
  }

  lemma MergeEq(a: Allocations, b: Allocations, s: string, m: Mapping)
    ensures a[s := m] == b[s := m] <==> a - {s} == b - {s}
  {
    if a[s := m] == b[s := m] {
      assert a - {s} == a[s := m] - {s};
      assert b - {s} == b[s := m] - {s};
    }
    if a - {s} == b - {s} {
      assert a[s := m] == (a - {s})[s := m];
      assert b[s := m] == (b - {s})[s := m];
    }
  }

  /** At every moment of the run the store holds what was granted and not released. */
  ghost predicate LosesNothing(acts: seq<Action>, lo: int, hi: int) {
    forall k :: 0 <= k <= |acts| ==>
      var w := Run(EMPTY_WORLD, acts[..k], lo, hi);
      w.held == w.store
  }

  ghost predicate UpToDateAt(acts: seq<Action>, k: nat, lo: int, hi: int)
    requires k < |acts|
  {
    var w := Run(EMPTY_WORLD, acts[..k], lo, hi);
    Writes(w, acts[k]) ==> UpToDate(w, acts[k])
  }

  lemma {:induction false} HeldIsStored(acts: seq<Action>, lo: int, hi: int)
    requires forall k :: 0 <= k < |acts| ==> UpToDateAt(acts, k, lo, hi)
    ensures var w := Run(EMPTY_WORLD, acts, lo, hi); w.held == w.store
    decreases |acts|
  {
    if acts != [] {
      var init, act := acts[..|acts| - 1], acts[|acts| - 1];
      forall k | 0 <= k < |init|
        ensures UpToDateAt(init, k, lo, hi)
      {
        assert init[..k] == acts[..k] && UpToDateAt(acts, k, lo, hi);
      }
      HeldIsStored(init, lo, hi);
      assert UpToDateAt(acts, |acts| - 1, lo, hi);
      if Writes(Run(EMPTY_WORLD, init, lo, hi), act) {
        WriteLosesNothingIff(init, act, lo, hi);
      }
    }
  }

  /** Every grant stays stored until its release if and only if every write of the run is up to date. */
  lemma LosesNothingIff(acts: seq<Action>, lo: int, hi: int)
    ensures LosesNothing(acts, lo, hi) <==> forall k :: 0 <= k < |acts| ==> UpToDateAt(acts, k, lo, hi)
  {
    if LosesNothing(acts, lo, hi) {
      forall k | 0 <= k < |acts|
        ensures UpToDateAt(acts, k, lo, hi)
      {
        var w, next := Run(EMPTY_WORLD, acts[..k], lo, hi), Run(EMPTY_WORLD, acts[..k + 1], lo, hi);
        assert acts[..k + 1][..k] == acts[..k] && w.held == w.store && next.held == next.store;
        if Writes(w, acts[k]) {
          WriteLosesNothingIff(acts[..k], acts[k], lo, hi);
        }
      }
    }
    if forall k :: 0 <= k < |acts| ==> UpToDateAt(acts, k, lo, hi) {
      forall k | 0 <= k <= |acts|
        ensures var w := Run(EMPTY_WORLD, acts[..k], lo, hi); w.held == w.store
      {
        var part := acts[..k];
        forall j | 0 <= j < k
          ensures UpToDateAt(part, j, lo, hi)
        {
          assert part[..j] == acts[..j] && UpToDateAt(acts, j, lo, hi);
        }
        HeldIsStored(part, lo, hi);
      }
    }
  }

  /** The write, if it is one, is made at the revision it was read at. */
  ghost predicate GuardedAt(acts: seq<Action>, k: nat, lo: int, hi: int)
    requires k < |acts|
  {
    var w := Run(EMPTY_WORLD, acts[..k], lo, hi);
    Writes(w, acts[k]) ==> At(w, acts[k].call).seen.revision == w.revision
  }

  /**
    With writes guarded by the revision, as an etcd transaction would do it, every grant
    stays stored until its release, and what callers hold is free of conflicts.
   */
  lemma GuardedWritesLoseNothing(acts: seq<Action>, lo: int, hi: int)
    requires forall k :: 0 <= k < |acts| ==> GuardedAt(acts, k, lo, hi)
    ensures LosesNothing(acts, lo, hi) && Consistent(Run(EMPTY_WORLD, acts, lo, hi).held, lo, hi)
  {
    forall k | 0 <= k < |acts|
      ensures UpToDateAt(acts, k, lo, hi)
    {
      assert GuardedAt(acts, k, lo, hi);
      StoredIsConsistent(acts[..k], lo, hi);
      if Writes(Run(EMPTY_WORLD, acts[..k], lo, hi), acts[k]) {
        SameRevision(Run(EMPTY_WORLD, acts[..k], lo, hi), acts[k], lo, hi);
      }
    }
    LosesNothingIff(acts, lo, hi);
    StoredIsConsistent(acts, lo, hi);
    assert acts[..|acts|] == acts;
  }

  lemma SameRevision(w: World, act: Action, lo: int, hi: int)
    requires WorldInv(w, lo, hi) && Writes(w, act) && At(w, act.call).seen.revision == w.revision
    ensures UpToDate(w, act)
  {
  }

  // ---------------------------------------------------------------- a call by itself

  lemma Extend(w: World, acts: seq<Action>, act: Action, lo: int, hi: int)
    ensures Run(w, acts + [act], lo, hi) == Step(Run(w, acts, lo, hi), act, lo, hi)
  {
    assert (acts + [act])[..|acts|] == acts;
  }

  /** An allocation that nothing overlaps does what `PortLedger` says, and grants what it stores. */
  lemma AllocationAlone(w: World, c: nat, s: string, names: Template, lo: int, hi: int)
    requires At(w, c).Idle?
    ensures
      var w' := Run(w, [Pick(c, s, names), Check(c), Write(c)], lo, hi);
      && At(w', c).Idle?
      && w'.store == Apply(w.store, Allocate(s, names), lo, hi)
      && w'.held == if Commits(w.store, Allocate(s, names), lo, hi) then w.held[s := w'.store[s]] else w.held
  {
    RunOf3(w, Pick(c, s, names), Check(c), Write(c), lo, hi);
    if Commits(w.store, Allocate(s, names), lo, hi) {
      PickIs(Used(w.store), names, lo, hi);
    }
  }

  lemma RunOf3(w: World, a: Action, b: Action, c: Action, lo: int, hi: int)
    ensures Run(w, [a, b, c], lo, hi) == Step(Step(Step(w, a, lo, hi), b, lo, hi), c, lo, hi)
  {
    assert [] + [a] == [a] && [a] + [b] == [a, b] && [a, b] + [c] == [a, b, c];
    Extend(w, [], a, lo, hi);
    Extend(w, [a], b, lo, hi);
    Extend(w, [a, b], c, lo, hi);
  }

  /** So does a release: afterwards the session holds nothing. */
  lemma ReleaseAlone(w: World, c: nat, s: string, lo: int, hi: int)
    requires At(w, c).Idle?
    ensures
      var w' := Run(w, [Pop(c, s), WriteRelease(c)], lo, hi);
      && At(w', c).Idle?
      && w'.store == w.store - {s}
      && w'.held == if s in w.store then w.held - {s} else w.held
  {
    assert [] + [Pop(c, s)] == [Pop(c, s)];
    Extend(w, [], Pop(c, s), lo, hi);
    assert [Pop(c, s)] + [WriteRelease(c)] == [Pop(c, s), WriteRelease(c)];
    Extend(w, [Pop(c, s)], WriteRelease(c), lo, hi);
    if s !in w.store {
      assert w.store - {s} == w.store;
    }
  }

  /** A stale pick that meets a port taken meanwhile is refused, and changes nothing. */
  lemma ConflictRefused(w: World, c: nat, lo: int, hi: int)
    requires At(w, c).Picked? && !(At(w, c).mapping.Values !! Used(w.store))
    ensures
      var w' := Run(w, [Check(c)], lo, hi);
      At(w', c).Idle? && w'.store == w.store && w'.held == w.held && w'.revision == w.revision
  {
    assert [] + [Check(c)] == [Check(c)];
    Extend(w, [], Check(c), lo, hi);
  }

  // ---------------------------------------------------------------- two calls at once

  /** Two overlapping allocations, unguarded: both sessions are granted the lowest port. */
  lemma RaceGrantsTwice(s: string, t: string, n: string, lo: int, hi: int) returns (acts: seq<Action>)
    requires s != t && lo < hi
    ensures var w := Run(EMPTY_WORLD, acts, lo, hi);
      w.held == map[s := map[n := lo], t := map[n := lo]] && w.store == map[t := map[n := lo]]
  {
    var names := Single(n);
    acts := [Pick(0, s, names), Pick(1, t, names), Check(0), Check(1), Write(0), Write(1)];
    var none: Allocations := map[];
    var m: Mapping := map[n := lo];
    SingleUse(s, n, lo);
    LowestFree({}, lo, hi, lo);
    assert Used(none) == {};
    var w2 := EMPTY_WORLD.(calls := map[0 := Picked(s, m), 1 := Picked(t, m)]);
    var w4 := EMPTY_WORLD.(calls := map[0 := Checked(s, m, Snapshot(none, 0)), 1 := Checked(t, m, Snapshot(none, 0))]);
    var w6 := World(map[t := m], 2, map[s := m, t := m], map[0 := Idle, 1 := Idle]);
    RunOf6(acts, lo, hi);
    assert Step(Step(EMPTY_WORLD, acts[0], lo, hi), acts[1], lo, hi) == w2;
    assert Step(Step(w2, acts[2], lo, hi), acts[3], lo, hi) == w4;
    assert Step(Step(w4, acts[4], lo, hi), acts[5], lo, hi) == w6;
  }

  lemma RunOf6(acts: seq<Action>, lo: int, hi: int)
    requires |acts| == 6
    ensures
      var w2 := Step(Step(EMPTY_WORLD, acts[0], lo, hi), acts[1], lo, hi);
      var w4 := Step(Step(w2, acts[2], lo, hi), acts[3], lo, hi);
      Run(EMPTY_WORLD, acts, lo, hi) == Step(Step(w4, acts[4], lo, hi), acts[5], lo, hi)
  {
    assert acts[..1][..0] == [] && acts[..2][..1] == acts[..1] && acts[..3][..2] == acts[..2];
    assert acts[..4][..3] == acts[..3] && acts[..5][..4] == acts[..4];
    assert Run(EMPTY_WORLD, acts[..1], lo, hi) == Step(EMPTY_WORLD, acts[0], lo, hi);
    assert Run(EMPTY_WORLD, acts[..2], lo, hi) == Step(Run(EMPTY_WORLD, acts[..1], lo, hi), acts[1], lo, hi);
    assert Run(EMPTY_WORLD, acts[..3], lo, hi) == Step(Run(EMPTY_WORLD, acts[..2], lo, hi), acts[2], lo, hi);
    assert Run(EMPTY_WORLD, acts[..4], lo, hi) == Step(Run(EMPTY_WORLD, acts[..3], lo, hi), acts[3], lo, hi);
    assert Run(EMPTY_WORLD, acts[..5], lo, hi) == Step(Run(EMPTY_WORLD, acts[..4], lo, hi), acts[4], lo, hi);
  }
}
