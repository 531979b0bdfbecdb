/** The allocation service and its etcd store as objects, one call at a time. */
module PortAllocationService {
  import opened Wrappers
  import opened PortPool
  import opened PortLedger

  /** The ports `PortAllocation` accepts when a granted mapping is wrapped into it. */
  const VALUE_OBJECT_MIN := 2000
  const VALUE_OBJECT_MAX := 65535

  datatype AllocationError =
    | WorkerIdRequired
    | SessionIdRequired
    | InvalidPortRange
    | NotEnoughPorts(need: nat, free: int)
    | PortConflict
    | RejectedAfterCommit

  datatype AllocationResult = Granted(ports: Mapping) | Refused(error: AllocationError)

  predicate Acceptable(m: Mapping) {
    forall p :: p in m.Values ==> VALUE_OBJECT_MIN <= p <= VALUE_OBJECT_MAX
  }

  /** Whether a call gets as far as committing a mapping. */
  predicate Reaches(a: Allocations, worker: string, session: string, names: Template, lo: int, hi: int) {
    worker != "" && session != "" && Commits(a, Allocate(session, names), lo, hi)
  }

  /** What a call answers when no other call overlaps it. */
  function Decision(a: Allocations, worker: string, session: string, names: Template, lo: int, hi: int)
    : AllocationResult
  {
    if worker == "" then Refused(WorkerIdRequired)
    else if session == "" then Refused(SessionIdRequired)
    else if names == [] then Granted(map[])
    else if lo >= hi then Refused(InvalidPortRange)
    else if !EnoughFound(Used(a), lo, hi, |names|) then Refused(NotEnoughPorts(|names|, hi - lo + 1 - |Used(a)|))
    else
      var mapping := Assign(names, FirstFree(Used(a), lo, hi, |names|));
      if Acceptable(mapping) then Granted(mapping) else Refused(RejectedAfterCommit)
  }

  class EtcdStateStore {
    var workers: map<string, Allocations>

    constructor ()
      ensures workers == map[]
    {
      workers := map[];
    }

    function Of(worker: string): Allocations
      reads this
    {
      if worker in workers then workers[worker] else map[]
    }

    method GetAllocatedPorts(worker: string) returns (ports: set<int>)
      ensures ports == Used(Of(worker))
    {
      var a := Of(worker);
      var remaining := a.Keys;
      ports := {};
      while remaining != {}
        invariant remaining <= a.Keys
        invariant ports == Used(a - remaining)
        decreases remaining
      {
        var s :| s in remaining;
        UsedAfterCommit(a - remaining, s, a[s]);
        assert a - (remaining - {s}) == (a - remaining)[s := a[s]];
        ports := ports + a[s].Values;
        remaining := remaining - {s};
      }
      assert a - {} == a;
    }

    /** Refuses exactly when one of the ports is in use on the worker. */
    method AllocateSessionPorts(worker: string, session: string, ports: Mapping) returns (ok: bool)
      modifies this
      ensures ok <==> ports.Values !! Used(old(Of(worker)))
      ensures workers == if ok then old(workers)[worker := old(Of(worker))[session := ports]] else old(workers)
    {
      var current := Of(worker);
      var used := GetAllocatedPorts(worker);
      var unchecked := ports.Keys;
      while unchecked != {}
        invariant unchecked <= ports.Keys
        invariant forall n :: n in ports && n !in unchecked ==> ports[n] !in used
        decreases unchecked
      {
        var n :| n in unchecked;
        if ports[n] in used {
          assert ports[n] in ports.Values;
          return false;
        }
        unchecked := unchecked - {n};
      }
      workers := workers[worker := current[session := ports]];
      return true;
    }

    method ReleaseSessionPorts(worker: string, session: string) returns (released: Option<Mapping>)
      modifies this
      ensures released == if session in old(Of(worker)) then Some(old(Of(worker))[session]) else None
      ensures workers == if released.Some? then old(workers)[worker := old(Of(worker)) - {session}] else old(workers)
    {
      var current := Of(worker);
      if session !in current {
        return None;
      }
      workers := workers[worker := current - {session}];
      return Some(current[session]);
    }
  }

  class Service {
    const lo: int
    const hi: int
    const etcd: EtcdStateStore

    constructor (etcd: EtcdStateStore, lo: int, hi: int)
      ensures this.etcd == etcd && this.lo == lo && this.hi == hi
    {
      this.etcd, this.lo, this.hi := etcd, lo, hi;
    }

    method AllocatePorts(worker: string, session: string, names: Template) returns (r: AllocationResult)
      modifies etcd
      ensures r == Decision(old(etcd.Of(worker)), worker, session, names, lo, hi)
      ensures etcd.workers ==
        if Reaches(old(etcd.Of(worker)), worker, session, names, lo, hi)
        then old(etcd.workers)[worker := Apply(old(etcd.Of(worker)), Allocate(session, names), lo, hi)]
        else old(etcd.workers)
    {
      if worker == "" {
        return Refused(WorkerIdRequired);
      }
      if session == "" {
        return Refused(SessionIdRequired);
      }
      if names == [] {
        return Granted(map[]);
      }
      if lo >= hi {
        return Refused(InvalidPortRange);
      }
      var taken := etcd.GetAllocatedPorts(worker);
      var available := FindAvailablePorts(taken, lo, hi, |names|);
      if |available| < |names| {
        return Refused(NotEnoughPorts(|names|, hi - lo + 1 - |taken|));
      }
      var mapping := MapNames(names, available);
      PickIs(taken, names, lo, hi);
      var ok := etcd.AllocateSessionPorts(worker, session, mapping);
      if !ok {
        return Refused(PortConflict);
      }
      if !Acceptable(mapping) {
        return Refused(RejectedAfterCommit);
      }
      return Granted(mapping);
    }

    method MapNames(names: Template, ports: seq<int>) returns (mapping: Mapping)
      requires |names| <= |ports|
      ensures mapping == Assign(names, ports) && mapping.Keys == set n | n in names
    {
      mapping := map[];
      for i := 0 to |names|
        invariant mapping == Assign(names[..i], ports)
      {
        assert names[..i + 1][..i] == names[..i];
        mapping := mapping[names[i] := ports[i]];
      }
      assert names[..|names|] == names;
      AssignAt(names, ports);
    }

    method ReleasePorts(worker: string, session: string) returns (released: Option<Mapping>)
      modifies etcd
      ensures worker == "" || session == "" ==> released == None && etcd.workers == old(etcd.workers)
      ensures worker != "" && session != "" ==>
        && etcd.Of(worker) == old(etcd.Of(worker)) - {session}
        && released == if session in old(etcd.Of(worker)) then Some(old(etcd.Of(worker))[session]) else None
      ensures forall w :: w != worker ==> etcd.Of(w) == old(etcd.Of(w))
    {
      if worker == "" || session == "" {
        return None;
      }
      released := etcd.ReleaseSessionPorts(worker, session);
    }

    method ValidatePortAvailability(worker: string, names: Template) returns (available: bool)
      ensures available <==> names == [] || hi - lo + 1 - |Used(etcd.Of(worker))| >= |names|
      ensures available ==> EnoughFound(Used(etcd.Of(worker)), lo, hi, |names|)
      ensures Consistent(etcd.Of(worker), lo, hi) && lo <= hi ==>
        (available <==> EnoughFound(Used(etcd.Of(worker)), lo, hi, |names|))
    {
      if names == [] {
        return true;
      }
      var taken := etcd.GetAllocatedPorts(worker);
      available := hi - lo + 1 - |taken| >= |names|;
      if lo <= hi {
        ValidationAgrees(taken, lo, hi);
        assert available <==> Validates(taken, lo, hi, |names|);
      }
      if Consistent(etcd.Of(worker), lo, hi) {
        UsedInRange(etcd.Of(worker), lo, hi);
      }
    }

    /** All zeros when etcd fails.  The utilization is given before it is rounded to two decimals. */
    method GetPortUsageStats(worker: string, etcdFails: bool)
      returns (total: int, allocatedCount: nat, available: int, utilization: real, sessions: nat)
      ensures etcdFails ==> total == allocatedCount == available == sessions == 0
      ensures !etcdFails ==>
        total == hi - lo + 1 && allocatedCount == |Used(etcd.Of(worker))| && sessions == |etcd.Of(worker)|
      ensures allocatedCount + available == total && utilization == Utilization(allocatedCount, total)
      ensures !etcdFails && Consistent(etcd.Of(worker), lo, hi) && lo <= hi ==>
        available == |Free(Used(etcd.Of(worker)), lo, hi)|
    {
      if etcdFails {
        return 0, 0, 0, 0.0, 0;
      }
      var taken := etcd.GetAllocatedPorts(worker);
      allocatedCount := |taken|;
      total := hi - lo + 1;
      available := total - allocatedCount;
      utilization := Utilization(allocatedCount, total);
      sessions := |etcd.Of(worker)|;
      if Consistent(etcd.Of(worker), lo, hi) && lo <= hi {
        UsedInRange(etcd.Of(worker), lo, hi);
        FreeCount(taken, lo, hi);
      }
    }
  }

  function Utilization(taken: nat, total: int): real {
    if total > 0 then taken as real / total as real * 100.0 else 0.0
  }

  lemma ShareMeans(part: real, total: real)
    requires 0.0 <= part && 0.0 < total
    ensures
      var share := part / total;
      share * total == part && 0.0 <= share && (share <= 1.0 <==> part <= total) && (share == 1.0 <==> part == total)
  {
    var share := part / total;
    assert share * total == part;
    if share > 1.0 {
      assert (share - 1.0) * total > 0.0;
    }
    if share < 1.0 {
      assert (1.0 - share) * total > 0.0;
    }
  }

  /** That many percent of the total are taken. */
  lemma UtilizationIs(taken: nat, total: int)
    requires total > 0
    ensures Utilization(taken, total) * total as real == 100.0 * taken as real
  {
    var share, whole := taken as real / total as real, total as real;
    assert share * whole == taken as real;
    assert (share * 100.0) * whole == 100.0 * (share * whole);
  }

  /** The share of the range that is allocated, full exactly when no port is free. */
  lemma UtilizationMeans(a: Allocations, lo: int, hi: int)
    requires lo <= hi && Consistent(a, lo, hi)
    ensures
      var percent := Utilization(|Used(a)|, hi - lo + 1);
      0.0 <= percent <= 100.0 && (percent == 100.0 <==> Free(Used(a), lo, hi) == [])
  {
    UsedInRange(a, lo, hi);
    FreeCount(Used(a), lo, hi);
    ShareMeans(|Used(a)| as real, (hi - lo + 1) as real);
  }

  /** Which input gets which answer; the identifiers are looked at first, an empty template before the range. */
  lemma DecisionMeans(a: Allocations, worker: string, session: string, names: Template, lo: int, hi: int)
    ensures
      var r := Decision(a, worker, session, names, lo, hi);
      var given, free := worker != "" && session != "", hi - lo + 1 - |InRange(Used(a), lo, hi)|;
      && (worker == "" ==> r == Refused(WorkerIdRequired))
      && (worker != "" && session == "" ==> r == Refused(SessionIdRequired))
      && (given && names == [] ==> r == Granted(map[]))
      && (given && names != [] && lo >= hi ==> r == Refused(InvalidPortRange))
      && (given && names != [] && lo < hi ==>
            if free < |names| then r == Refused(NotEnoughPorts(|names|, hi - lo + 1 - |Used(a)|))
            else r.Granted? || r == Refused(RejectedAfterCommit))
  {
    if lo < hi {
      FirstFreeIs(Used(a), lo, hi, |names|);
    }
  }

  /** The lowest or the highest port picked is not one `PortAllocation` accepts. */
  predicate PickRejected(taken: set<int>, lo: int, hi: int, n: nat)
    requires n > 0 && EnoughFound(taken, lo, hi, n)
  {
    var pick := FirstFree(taken, lo, hi, n);
    pick[0] < VALUE_OBJECT_MIN || pick[n - 1] > VALUE_OBJECT_MAX
  }

  /** The ports of a picked mapping, from the lowest to the highest. */
  lemma PickSpans(taken: set<int>, names: Template, lo: int, hi: int)
    requires names != [] && EnoughFound(taken, lo, hi, |names|)
    ensures
      var pick := FirstFree(taken, lo, hi, |names|);
      var ports := Assign(names, pick).Values;
      && pick[0] in ports && pick[|names| - 1] in ports
      && forall p :: p in ports ==> pick[0] <= p <= pick[|names| - 1]
  {
    var pick := FirstFree(taken, lo, hi, |names|);
    var m, last := Assign(names, pick), |names| - 1;
    FirstFreeIs(taken, lo, hi, |names|);
    AssignAt(names, pick);
    AssignIs(names, pick);
    assert names[0] in m && m[names[0]] == pick[0];
    assert names[last] in m && m[names[last]] == pick[last];
    forall p | p in m.Values
      ensures pick[0] <= p <= pick[last]
    {
      var n :| n in m && m[n] == p;
      var k :| 0 <= k < |names| && pick[..|names|][k] == p;
    }
  }

  lemma AcceptableIff(taken: set<int>, names: Template, lo: int, hi: int)
    requires names != [] && EnoughFound(taken, lo, hi, |names|)
    ensures Acceptable(Assign(names, FirstFree(taken, lo, hi, |names|))) <==> !PickRejected(taken, lo, hi, |names|)
  {
    PickSpans(taken, names, lo, hi);
  }

  /**
    A grant is stored as told: one port per name, different, in range and free before.
    A refusal leaves the allocations as they were, except exactly when the call gets as
    far as a commit and the lowest or highest port picked is not acceptable.
   */
  lemma AllocationMeans(a: Allocations, worker: string, session: string, names: Template, lo: int, hi: int)
    ensures
      var r := Decision(a, worker, session, names, lo, hi);
      var b := if Reaches(a, worker, session, names, lo, hi) then Apply(a, Allocate(session, names), lo, hi) else a;
      && (r.Granted? && names != [] ==>
            && b == a[session := r.ports]
            && (forall n :: n in r.ports <==> n in names)
            && Injective(r.ports) && Bounded(r.ports, lo, hi) && r.ports.Values !! Used(a))
      && (r.Granted? && names == [] ==> b == a)
      && (r.Refused? && b != a <==>
            Reaches(a, worker, session, names, lo, hi) && PickRejected(Used(a), lo, hi, |names|))
      && (r.Refused? && b != a <==> r == Refused(RejectedAfterCommit))
      && (Consistent(a, lo, hi) ==> Consistent(b, lo, hi))
  {
    if Reaches(a, worker, session, names, lo, hi) {
      var pick := FirstFree(Used(a), lo, hi, |names|);
      var m := Assign(names, pick);
      PickIs(Used(a), names, lo, hi);
      AcceptableIff(Used(a), names, lo, hi);
      AssignAt(names, pick);
      assert names[0] in m && m[names[0]] in m.Values;
      CommitChanges(a, session, m);
      if Consistent(a, lo, hi) {
        CommitKeeps(a, session, m, lo, hi);
      }
    }
  }

  lemma CommitChanges(a: Allocations, session: string, m: Mapping)
    requires m.Values != {} && m.Values !! Used(a)
    ensures a[session := m] != a
  {
    var n :| n in m && m[n] in m.Values;
    var b := a[session := m];
    assert b[session][n] in Used(b);
  }

  /** As many different port names as are asked for. */
  function Names(n: nat): (names: Template)
    ensures |names| == n
  {
    seq(n, i requires 0 <= i < n => seq(i, _ => 'p'))
  }

  lemma WholeRange(lo: int, hi: int)
    requires lo <= hi
    ensures var free := FirstFree({}, lo, hi, hi - lo + 1);
      |free| == hi - lo + 1 && free[0] == lo && free[hi - lo] == hi
  {
    assert InRange({}, lo, hi) == {};
    FreeCount({}, lo, hi);
    FreeIs({}, lo, hi);
    var free := FirstFree({}, lo, hi, hi - lo + 1);
    assert free == Free({}, lo, hi) && lo in free && hi in free;
    var i :| 0 <= i < |free| && free[i] == lo;
    var j :| 0 <= j < |free| && free[j] == hi;
  }

  /** In a range that is not wholly acceptable, a call that asks for all of it is refused after its commit. */
  lemma CommittedThoughRefused(worker: string, session: string, lo: int, hi: int) returns (names: Template)
    requires worker != "" && session != "" && lo < hi && (lo < VALUE_OBJECT_MIN || hi > VALUE_OBJECT_MAX)
    ensures Reaches(map[], worker, session, names, lo, hi)
    ensures Decision(map[], worker, session, names, lo, hi) == Refused(RejectedAfterCommit)
  {
    names := Names(hi - lo + 1);
    var none: Allocations := map[];
    assert Used(none) == {};
    WholeRange(lo, hi);
    AcceptableIff({}, names, lo, hi);
  }

  /** No call at all is refused after its commit if and only if the whole range is acceptable. */
  lemma NeverRejectedIff(lo: int, hi: int)
    requires lo < hi
    ensures (forall a, worker, session, names ::
               Decision(a, worker, session, names, lo, hi) != Refused(RejectedAfterCommit))
            <==> 2000 <= lo && hi <= 65535
  {
    if VALUE_OBJECT_MIN <= lo && hi <= VALUE_OBJECT_MAX {
      forall a, worker, session, names
        ensures Decision(a, worker, session, names, lo, hi) != Refused(RejectedAfterCommit)
      {
        if EnoughFound(Used(a), lo, hi, |names|) {
          PickIs(Used(a), names, lo, hi);
        }
      }
    } else {
      var names := CommittedThoughRefused("w", "s", lo, hi);
    }
  }

  /** Releasing undoes an allocation, and allocating again after it grants the same ports. */
  lemma ReleaseUndoesAllocate(a: Allocations, session: string, names: Template, lo: int, hi: int)
    requires session !in a
    ensures
      var granted := Apply(a, Allocate(session, names), lo, hi);
      var released := Apply(granted, Release(session), lo, hi);
      released == a && Apply(released, Allocate(session, names), lo, hi) == granted
  {
    assert Apply(Apply(a, Allocate(session, names), lo, hi), Release(session), lo, hi) == a;
  }
}
