/** A worker's port allocations, and runs of allocations and releases that do not overlap. */
module PortLedger {
  import opened PortPool

  type Mapping = map<string, int>
  type Allocations = map<string, Mapping>

  /** `PortTemplate` refuses duplicate port names when it is built. */
  type Template = names: seq<string> | Distinct(names) witness []

  function Single(name: string): (names: Template)
    ensures |names| == 1 && names[0] == name
  {
    [name]
  }

  predicate Distinct(names: seq<string>) {
    forall i, j :: 0 <= i < j < |names| ==> names[i] != names[j]
  }

  /** Every port any session of the worker holds. */
  function Used(a: Allocations): set<int> {
    set s, n | s in a && n in a[s] :: a[s][n]
  }

  ghost predicate Injective(m: Mapping) {
    forall x, y :: x in m && y in m && x != y ==> m[x] != m[y]
  }

  ghost predicate Bounded(m: Mapping, lo: int, hi: int) {
    forall n :: n in m ==> lo <= m[n] <= hi
  }

  ghost predicate Apart(m: Mapping, m': Mapping) {
    forall x, y :: x in m && y in m' ==> m[x] != m'[y]
  }

  /** What the allocator is for: no port serves two purposes, and all lie in the range. */
  ghost predicate Consistent(a: Allocations, lo: int, hi: int) {
    && (forall s :: s in a ==> Injective(a[s]) && Bounded(a[s], lo, hi))
    && (forall s, t :: s in a && t in a && s != t ==> Apart(a[s], a[t]))
  }

  /** The i-th port name gets the i-th port. */
  function Assign(names: Template, ports: seq<int>): Mapping
    requires |names| <= |ports|
  {
    if names == [] then map[]
    else
      var last := |names| - 1;
      Assign(names[..last], ports)[names[last] := ports[last]]
  }

  lemma {:induction false} AssignAt(names: Template, ports: seq<int>)
    requires |names| <= |ports|
    ensures forall n :: n in Assign(names, ports) <==> n in names
    ensures forall k :: 0 <= k < |names| ==> Assign(names, ports)[names[k]] == ports[k]
  {
    if names != [] {
      var last := |names| - 1;
      var init: Template := names[..last];
      var name := names[last];
      AssignAt(init, ports);
      assert names == init + [name];
      assert Assign(names, ports) == Assign(init, ports)[name := ports[last]];
      forall k | 0 <= k < |names|
        ensures Assign(names, ports)[names[k]] == ports[k]
      {
        if k < last {
          assert init[k] == names[k] && names[k] != name;
        }
      }
    }
  }

  lemma AssignIs(names: Template, ports: seq<int>)
    requires |names| <= |ports| && Increasing(ports)
    ensures Injective(Assign(names, ports))
    ensures forall n :: n in Assign(names, ports) ==> Assign(names, ports)[n] in ports[..|names|]
  {
    AssignAt(names, ports);
    var m := Assign(names, ports);
    forall n | n in m
      ensures m[n] in ports[..|names|]
    {
      var k :| 0 <= k < |names| && names[k] == n;
      assert ports[..|names|][k] == m[n];
    }
    forall x, y | x in m && y in m && x != y
      ensures m[x] != m[y]
    {
      var i :| 0 <= i < |names| && names[i] == x;
      var j :| 0 <= j < |names| && names[j] == y;
    }
  }

  lemma ValuesAfterAdd(m: Mapping, n: string, p: int)
    requires n !in m
    ensures m[n := p].Values == m.Values + {p}
  {
    var b := m[n := p];
    forall v | v in m.Values
      ensures v in b.Values
    {
      var x :| x in m && m[x] == v;
      assert x in b && b[x] == v;
    }
    assert n in b && b[n] in b.Values;
  }

  lemma ValuesBelow(names: Template, ports: seq<int>, p: int)
    requires |names| < |ports| && Increasing(ports) && p in Assign(names, ports).Values
    ensures p < ports[|names|]
  {
    AssignIs(names, ports);
    var m := Assign(names, ports);
    var n :| n in m && m[n] == p;
    var j :| 0 <= j < |names| && ports[..|names|][j] == p;
  }

  lemma OneMore(s: set<int>, p: int)
    requires p !in s
    ensures |s + {p}| == |s| + 1
  {
  }

  lemma {:induction false} AssignedCount(names: Template, ports: seq<int>)
    requires |names| <= |ports| && Increasing(ports)
    ensures |Assign(names, ports).Values| == |names|
  {
    if names == [] {
      assert Assign(names, ports).Values == {};
    } else {
      var last := |names| - 1;
      var init: Template := names[..last];
      AssignedCount(init, ports);
      AssignAt(init, ports);
      var m := Assign(init, ports);
      if ports[last] in m.Values {
        ValuesBelow(init, ports, ports[last]);
      }
      ValuesAfterAdd(m, names[last], ports[last]);
      OneMore(m.Values, ports[last]);
    }
  }

  lemma ApartFromUsed(a: Allocations, m: Mapping, s: string)
    requires m.Values !! Used(a) && s in a
    ensures Apart(a[s], m) && Apart(m, a[s])
  {
    forall x, y | x in a[s] && y in m
      ensures a[s][x] != m[y]
    {
      assert a[s][x] in Used(a) && m[y] in m.Values;
    }
  }

  lemma CommitKeeps(a: Allocations, sid: string, m: Mapping, lo: int, hi: int)
    requires Consistent(a, lo, hi) && Injective(m) && Bounded(m, lo, hi) && m.Values !! Used(a)
    ensures Consistent(a[sid := m], lo, hi)
  {
    var b := a[sid := m];
    forall s, t | s in b && t in b && s != t
      ensures Apart(b[s], b[t])
    {
      if s == sid {
        ApartFromUsed(a, m, t);
      } else if t == sid {
        ApartFromUsed(a, m, s);
      }
    }
  }

  lemma UsedAfterCommit(a: Allocations, sid: string, m: Mapping)
    requires sid !in a
    ensures Used(a[sid := m]) == Used(a) + m.Values
  {
    var b := a[sid := m];
    forall p | p in Used(a)
      ensures p in Used(b)
    {
      var s, n :| s in a && n in a[s] && a[s][n] == p;
      assert s in b && n in b[s] && b[s][n] == p;
    }
    forall p | p in m.Values
      ensures p in Used(b)
    {
      var n :| n in m && m[n] == p;
      assert sid in b && n in b[sid];
    }
    forall p | p in Used(b)
      ensures p in Used(a) + m.Values
    {
      var s, n :| s in b && n in b[s] && b[s][n] == p;
      assert s != sid ==> s in a && n in a[s];
    }
  }

  lemma RemoveKeeps(a: Allocations, sid: string, lo: int, hi: int)
    requires Consistent(a, lo, hi)
    ensures Consistent(a - {sid}, lo, hi)
    ensures Used(a - {sid}) <= Used(a)
  {
  }

  lemma UsedInRange(a: Allocations, lo: int, hi: int)
    requires Consistent(a, lo, hi)
    ensures InRange(Used(a), lo, hi) == Used(a)
  {
  }

  /** The mapping picked against a set of taken ports: injective, in range, all free. */
  lemma PickIs(taken: set<int>, names: Template, lo: int, hi: int)
    requires EnoughFound(taken, lo, hi, |names|)
    ensures var m := Assign(names, FirstFree(taken, lo, hi, |names|));
      Injective(m) && Bounded(m, lo, hi) && m.Values !! taken && |m.Values| == |names|
  {
    var pick := FirstFree(taken, lo, hi, |names|);
    FirstFreeIs(taken, lo, hi, |names|);
    AssignIs(names, pick);
    AssignedCount(names, pick);
  }

  // ---------------------------------------------------------------- runs without overlap

  datatype Op = Allocate(session: string, names: Template) | Release(session: string)

  predicate Commits(a: Allocations, op: Op, lo: int, hi: int) {
    op.Allocate? && op.names != [] && lo < hi && EnoughFound(Used(a), lo, hi, |op.names|)
  }

  function Apply(a: Allocations, op: Op, lo: int, hi: int): Allocations {
    if op.Release? then a - {op.session}
    else if Commits(a, op, lo, hi) then
      a[op.session := Assign(op.names, FirstFree(Used(a), lo, hi, |op.names|))]
    else a
  }

  function Play(ops: seq<Op>, lo: int, hi: int): Allocations {
    if ops == [] then map[] else Apply(Play(ops[..|ops| - 1], lo, hi), ops[|ops| - 1], lo, hi)
  }

  function Max(x: nat, y: nat): nat {
    if x < y then y else x
  }

  /** The most ports that were in use at once. */
  function Peak(ops: seq<Op>, lo: int, hi: int): nat {
    if ops == [] then 0 else Max(Peak(ops[..|ops| - 1], lo, hi), |Used(Play(ops, lo, hi))|)
  }

  /** The most ports in use and newly granted together. */
  function PeakDemand(ops: seq<Op>, lo: int, hi: int): nat {
    if ops == [] then 0
    else
      var before := Play(ops[..|ops| - 1], lo, hi);
      var op := ops[|ops| - 1];
      Max(PeakDemand(ops[..|ops| - 1], lo, hi), |Used(before)| + if Commits(before, op, lo, hi) then |op.names| else 0)
  }

  lemma ApplyKeeps(a: Allocations, op: Op, lo: int, hi: int)
    requires Consistent(a, lo, hi)
    ensures Consistent(Apply(a, op, lo, hi), lo, hi)
    ensures Commits(a, op, lo, hi) && op.session !in a ==> |Used(Apply(a, op, lo, hi))| == |Used(a)| + |op.names|
  {
    if Commits(a, op, lo, hi) {
      PickIs(Used(a), op.names, lo, hi);
      var m := Assign(op.names, FirstFree(Used(a), lo, hi, |op.names|));
      CommitKeeps(a, op.session, m, lo, hi);
      if op.session !in a {
        UsedAfterCommit(a, op.session, m);
      }
    } else {
      RemoveKeeps(a, op.session, lo, hi);
    }
  }

  /**
    In every reached state: the allocations are consistent, the free count reported is
    what is left of the range and not negative, and validation tells exactly whether an
    allocation would find enough ports.
   */
  lemma {:induction false} ReachedStates(ops: seq<Op>, lo: int, hi: int)
    requires lo <= hi
    ensures var a := Play(ops, lo, hi);
      && Consistent(a, lo, hi)
      && |Used(a)| + |Free(Used(a), lo, hi)| == hi - lo + 1
      && (forall n: nat :: Validates(Used(a), lo, hi, n) <==> EnoughFound(Used(a), lo, hi, n))
  {
    if ops != [] {
      ReachedStates(ops[..|ops| - 1], lo, hi);
      ApplyKeeps(Play(ops[..|ops| - 1], lo, hi), ops[|ops| - 1], lo, hi);
    }
    var a := Play(ops, lo, hi);
    UsedInRange(a, lo, hi);
    FreeCount(Used(a), lo, hi);
    ValidationAgrees(Used(a), lo, hi);
  }

  /** No port at or above lo + peak demand is ever handed out. */
  lemma {:induction false} WatermarkByDemand(ops: seq<Op>, lo: int, hi: int, s: string, n: string)
    requires s in Play(ops, lo, hi) && n in Play(ops, lo, hi)[s]
    ensures Play(ops, lo, hi)[s][n] < lo + PeakDemand(ops, lo, hi)
  {
    if ops != [] {
      var init := ops[..|ops| - 1];
      var before, op := Play(init, lo, hi), ops[|ops| - 1];
      if s in before && n in before[s] && before[s] == Play(ops, lo, hi)[s] {
        WatermarkByDemand(init, lo, hi, s, n);
      } else {
        var pick := FirstFree(Used(before), lo, hi, |op.names|);
        AssignAt(op.names, pick);
        var k :| 0 <= k < |op.names| && op.names[k] == n;
        FirstFreeBelow(Used(before), lo, hi, |op.names|, pick[k]);
        assert Play(ops, lo, hi)[s][n] == pick[k];
      }
    }
  }

  // ---------------------------------------------------------------- the watermark, exactly

  ghost predicate AllBelow(a: Allocations, bound: int) {
    forall s, n :: s in a && n in a[s] ==> a[s][n] < bound
  }

  /** At every moment of the run, all ports handed out lie below lo + the largest use so far. */
  ghost predicate WatermarkHolds(ops: seq<Op>, lo: int, hi: int) {
    forall k :: 0 <= k <= |ops| ==> AllBelow(Play(ops[..k], lo, hi), lo + Peak(ops[..k], lo, hi))
  }

  /**
    What a caller can check before a call: a session that still holds ports asks for no
    more than the largest use so far leaves.
   */
  ghost predicate FitsPeak(ops: seq<Op>, k: nat, lo: int, hi: int)
    requires k < |ops|
  {
    var a := Play(ops[..k], lo, hi);
    Commits(a, ops[k], lo, hi) && ops[k].session in a ==> |Used(a)| + |ops[k].names| <= Peak(ops[..k], lo, hi)
  }

  lemma {:induction false} PlayKeeps(ops: seq<Op>, lo: int, hi: int)
    ensures var a := Play(ops, lo, hi);
      && Consistent(a, lo, hi)
      && (forall s :: s in a ==> a[s] != map[])
      && |Used(a)| <= Peak(ops, lo, hi)
  {
    if ops == [] {
      assert Used(Play(ops, lo, hi)) == {};
    } else {
      var before, op := Play(ops[..|ops| - 1], lo, hi), ops[|ops| - 1];
      PlayKeeps(ops[..|ops| - 1], lo, hi);
      ApplyKeeps(before, op, lo, hi);
      if Commits(before, op, lo, hi) {
        var pick := FirstFree(Used(before), lo, hi, |op.names|);
        AssignAt(op.names, pick);
        assert op.names[0] in Assign(op.names, pick);
      }
    }
  }

  /** A session that holds ports frees at least one by allocating again. */
  lemma ReallocationFrees(a: Allocations, s: string, m: Mapping, lo: int, hi: int)
    requires Consistent(a, lo, hi) && s in a && a[s] != map[] && m.Values !! Used(a)
    ensures |Used(a[s := m])| < |Used(a)| + |m.Values|
  {
    var n :| n in a[s];
    var p := a[s][n];
    var all := Used(a) + m.Values;
    assert p in Used(a);
    forall q | q in Used(a[s := m])
      ensures q in all - {p}
    {
      var t, x :| t in a[s := m] && x in a[s := m][t] && a[s := m][t][x] == q;
      if t == s {
        assert q in m.Values;
      } else {
        assert Apart(a[t], a[s]) && q in Used(a);
      }
    }
    SubsetCount(Used(a[s := m]), all - {p});
    assert |all| == |Used(a)| + |m.Values|;
  }

  lemma {:induction false} IntervalCount(ports: set<int>, lo: int, n: nat)
    requires forall p :: p in ports ==> lo <= p < lo + n
    ensures |ports| <= n
  {
    if n == 0 {
      assert forall p :: p !in ports;
    } else {
      var top := lo + n - 1;
      IntervalCount(ports - {top}, lo, n - 1);
      SubsetCount(ports - {top}, ports);
      SubsetCount(ports - (ports - {top}), {top});
    }
  }

  /** A commit under the watermark: what was in use and what is granted fit below it together. */
  lemma DemandBelow(a: Allocations, op: Op, lo: int, hi: int, bound: nat)
    requires Consistent(a, lo, hi) && Commits(a, op, lo, hi)
    requires AllBelow(a, lo + bound) && AllBelow(Apply(a, op, lo, hi), lo + bound)
    ensures |Used(a)| + |op.names| <= bound
  {
    PickIs(Used(a), op.names, lo, hi);
    var b := Apply(a, op, lo, hi);
    var m := b[op.session];
    forall p | p in m.Values
      ensures lo <= p < lo + bound
    {
      var n :| n in m && m[n] == p;
      assert b[op.session][n] == p;
    }
    IntervalCount(Used(a) + m.Values, lo, bound);
    assert |Used(a) + m.Values| == |Used(a)| + |m.Values|;
  }

  lemma {:induction false} DemandFits(ops: seq<Op>, lo: int, hi: int)
    requires forall k :: 0 <= k < |ops| ==> FitsPeak(ops, k, lo, hi)
    ensures PeakDemand(ops, lo, hi) <= Peak(ops, lo, hi)
  {
    if ops != [] {
      var last := |ops| - 1;
      var init, op := ops[..last], ops[last];
      forall k | 0 <= k < |init|
        ensures FitsPeak(init, k, lo, hi)
      {
        assert init[..k] == ops[..k] && FitsPeak(ops, k, lo, hi);
      }
      DemandFits(init, lo, hi);
      PlayKeeps(init, lo, hi);
      ApplyKeeps(Play(init, lo, hi), op, lo, hi);
      assert FitsPeak(ops, last, lo, hi);
    }
  }

  /** One call under the watermark before and after it asks for no more than it may. */
  lemma WatermarkFits(ops: seq<Op>, k: nat, lo: int, hi: int)
    requires WatermarkHolds(ops, lo, hi) && k < |ops|
    ensures FitsPeak(ops, k, lo, hi)
  {
    var a, op := Play(ops[..k], lo, hi), ops[k];
    assert ops[..k + 1][..k] == ops[..k];
    PlayKeeps(ops[..k], lo, hi);
    if Commits(a, op, lo, hi) && op.session in a {
      var peak := Peak(ops[..k + 1], lo, hi);
      assert AllBelow(a, lo + Peak(ops[..k], lo, hi));
      assert Play(ops[..k + 1], lo, hi) == Apply(a, op, lo, hi);
      DemandBelow(a, op, lo, hi, peak);
      PickIs(Used(a), op.names, lo, hi);
      ReallocationFrees(a, op.session, Apply(a, op, lo, hi)[op.session], lo, hi);
    }
  }

  /**
    The watermark holds all through a run if and only if every session that allocates
    while it still holds ports asks for no more than the largest use so far leaves.
   */
  lemma WatermarkIff(ops: seq<Op>, lo: int, hi: int)
    ensures WatermarkHolds(ops, lo, hi) <==> forall k :: 0 <= k < |ops| ==> FitsPeak(ops, k, lo, hi)
  {
    if WatermarkHolds(ops, lo, hi) {
      forall k | 0 <= k < |ops|
        ensures FitsPeak(ops, k, lo, hi)
      {
        WatermarkFits(ops, k, lo, hi);
      }
    } else if forall k :: 0 <= k < |ops| ==> FitsPeak(ops, k, lo, hi) {
      var k :| 0 <= k <= |ops| && !AllBelow(Play(ops[..k], lo, hi), lo + Peak(ops[..k], lo, hi));
      var part := ops[..k];
      forall j | 0 <= j < k
        ensures FitsPeak(part, j, lo, hi)
      {
        assert part[..j] == ops[..j] && FitsPeak(ops, j, lo, hi);
      }
      DemandFits(part, lo, hi);
      var s, n :| s in Play(part, lo, hi) && n in Play(part, lo, hi)[s]
                  && Play(part, lo, hi)[s][n] >= lo + Peak(part, lo, hi);
      WatermarkByDemand(part, lo, hi, s, n);
      assert false;
    }
  }

  /** No session that still holds ports allocates again before releasing them. */
  ghost predicate NoReallocation(ops: seq<Op>, lo: int, hi: int) {
    forall k :: 0 <= k < |ops| && ops[k].Allocate? ==> ops[k].session !in Play(ops[..k], lo, hi)
  }

  /** Without re-allocation the watermark always holds. */
  lemma Watermark(ops: seq<Op>, lo: int, hi: int)
    requires NoReallocation(ops, lo, hi)
    ensures WatermarkHolds(ops, lo, hi)
  {
    WatermarkIff(ops, lo, hi);
  }

  /** A session that allocates twice is given the port after the one it gives up. */
  lemma ReallocationPassesWatermark(s: string, n: string)
    ensures var ops := [Allocate(s, Single(n)), Allocate(s, Single(n))];
      && Play(ops, 2000, 9999) == map[s := map[n := 2001]]
      && Peak(ops, 2000, 9999) == 1
      && !WatermarkHolds(ops, 2000, 9999)
  {
    var op := Allocate(s, Single(n));
    var ops := [op, op];
    assert ops[..1] == [op] && [op][..0] == [];
    assert Used(map[]) == {};
    SingleUse(s, n, 2000);
    SingleUse(s, n, 2001);
    LowestFree({}, 2000, 9999, 2000);
    LowestFree({2000}, 2000, 9999, 2001);
    assert Play([op], 2000, 9999) == map[s := map[n := 2000]];
    assert Play(ops, 2000, 9999) == map[s := map[n := 2001]];
    assert Peak([op], 2000, 9999) == Max(Peak([], 2000, 9999), 1);
    assert ops[..2] == ops && Play(ops, 2000, 9999)[s][n] == 2001;
  }

  lemma SingleUse(s: string, n: string, p: int)
    ensures var a: Allocations := map[s := map[n := p]]; Used(a) == {p}
    ensures Assign(Single(n), [p]) == map[n := p]
  {
    var a: Allocations := map[s := map[n := p]];
    assert a[s][n] in Used(a);
  }

  lemma LowestFree(taken: set<int>, lo: int, hi: int, p: int)
    requires lo <= p <= hi && p !in taken && forall q :: lo <= q < p ==> q in taken
    ensures FirstFree(taken, lo, hi, 1) == [p]
    decreases p - lo
  {
    if lo < p {
      LowestFree(taken, lo + 1, hi, p);
      assert Free(taken, lo, hi) == Free(taken, lo + 1, hi);
    }
  }
}
