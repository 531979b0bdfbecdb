/** The free ports of a worker's range and how the allocator picks among them. */
module PortPool {

  function InRange(ports: set<int>, lo: int, hi: int): set<int> {
    set p | p in ports && lo <= p <= hi
  }

  /** The simple definition: the range, filtered by "not allocated". */
  function Free(taken: set<int>, lo: int, hi: int): seq<int>
    decreases hi - lo
  {
    if lo > hi then [] else (if lo in taken then [] else [lo]) + Free(taken, lo + 1, hi)
  }

  /** ... of which the first `count` are taken. */
  function FirstFree(taken: set<int>, lo: int, hi: int, count: nat): seq<int> {
    var free := Free(taken, lo, hi);
    if |free| <= count then free else free[..count]
  }

  ghost predicate Increasing(s: seq<int>) {
    forall i, j :: 0 <= i < j < |s| ==> s[i] < s[j]
  }

  /** `_find_available_ports`: a scan upwards from the lowest port. */
  method FindAvailablePorts(taken: set<int>, lo: int, hi: int, count: nat) returns (available: seq<int>)
    ensures available == FirstFree(taken, lo, hi, count)
  {
    available := [];
    var port := lo;
    while |available| < count && port <= hi
      invariant |available| <= count && (port <= hi + 1 || port == lo)
      invariant available + Free(taken, port, hi) == Free(taken, lo, hi)
      decreases hi + 1 - port
    {
      var rest := Free(taken, port + 1, hi);
      assert Free(taken, port, hi) == (if port in taken then [] else [port]) + rest;
      if port !in taken {
        assert (available + [port]) + rest == available + ([port] + rest);
        available := available + [port];
      } else {
        assert [] + rest == rest;
      }
      port := port + 1;
    }
    assert available == (available + Free(taken, port, hi))[..|available|];
  }

  lemma {:induction false} FreeIs(taken: set<int>, lo: int, hi: int)
    ensures var free := Free(taken, lo, hi);
      && Increasing(free)
      && (forall k :: 0 <= k < |free| ==> lo <= free[k] <= hi && free[k] !in taken)
      && (forall p :: lo <= p <= hi && p !in taken ==> p in free)
    decreases hi - lo
  {
    if lo <= hi {
      FreeIs(taken, lo + 1, hi);
      var rest := Free(taken, lo + 1, hi);
      var free := Free(taken, lo, hi);
      if lo in taken {
        assert free == rest;
      } else {
        assert free == [lo] + rest;
        forall p | lo <= p <= hi && p !in taken
          ensures p in free
        {
          assert p == lo || p in rest;
        }
      }
    }
  }

  lemma {:induction false} FreeSplits(taken: set<int>, lo: int, mid: int, hi: int)
    requires lo <= mid <= hi + 1
    ensures Free(taken, lo, hi) == Free(taken, lo, mid - 1) + Free(taken, mid, hi)
    decreases mid - lo
  {
    if lo < mid {
      FreeSplits(taken, lo + 1, mid, hi);
    }
  }

  /** Allocated and free ports partition the range. */
  lemma {:induction false} FreeCount(taken: set<int>, lo: int, hi: int)
    requires lo <= hi + 1
    ensures |Free(taken, lo, hi)| + |InRange(taken, lo, hi)| == hi - lo + 1
    decreases hi - lo
  {
    if lo > hi {
      assert InRange(taken, lo, hi) == {};
    } else {
      FreeCount(taken, lo + 1, hi);
      var rest := InRange(taken, lo + 1, hi);
      assert InRange(taken, lo, hi) == if lo in taken then rest + {lo} else rest;
    }
  }

  lemma SubsetCount(a: set<int>, b: set<int>)
    requires a <= b
    ensures |b| == |a| + |b - a|
    ensures |a| == |b| ==> a == b
  {
    assert b == a + (b - a);
  }

  /** The pick is strictly increasing, all of it free, and as long as it can be. */
  lemma FirstFreeIs(taken: set<int>, lo: int, hi: int, count: nat)
    ensures var pick := FirstFree(taken, lo, hi, count);
      && Increasing(pick)
      && (forall k :: 0 <= k < |pick| ==> lo <= pick[k] <= hi && pick[k] !in taken)
      && (lo <= hi + 1 ==>
            var free := hi - lo + 1 - |InRange(taken, lo, hi)|;
            |pick| == if free < count then free else count)
  {
    FreeIs(taken, lo, hi);
    if lo <= hi + 1 {
      FreeCount(taken, lo, hi);
    }
  }

  /** ... and leaves out no free port below one it takes. */
  lemma FirstFreeHasNoGap(taken: set<int>, lo: int, hi: int, count: nat, k: nat, q: int)
    requires k < |FirstFree(taken, lo, hi, count)|
    requires lo <= q < FirstFree(taken, lo, hi, count)[k] && q !in taken
    ensures q in FirstFree(taken, lo, hi, count)
  {
    FreeIs(taken, lo, hi);
    var free := Free(taken, lo, hi);
    var j :| 0 <= j < |free| && free[j] == q;
    if j < k {
      assert FirstFree(taken, lo, hi, count)[j] == q;
    }
  }

  /** However the allocated ports lie, n ports are found below lo + |taken| + n. */
  lemma FirstFreeBelow(taken: set<int>, lo: int, hi: int, n: nat, p: int)
    requires p in FirstFree(taken, lo, hi, n)
    ensures p < lo + |taken| + n
  {
    var free := Free(taken, lo, hi);
    var k :| 0 <= k < |FirstFree(taken, lo, hi, n)| && FirstFree(taken, lo, hi, n)[k] == p;
    PositionOf(taken, lo, hi, k);
    SubsetCount(InRange(taken, lo, p - 1), taken);
  }

  /** A free port stands behind as many free ports as lie below it. */
  lemma PositionOf(taken: set<int>, lo: int, hi: int, k: nat)
    requires k < |Free(taken, lo, hi)|
    ensures var p := Free(taken, lo, hi)[k]; p - lo <= k + |InRange(taken, lo, p - 1)|
  {
    FreeIs(taken, lo, hi);
    var p := Free(taken, lo, hi)[k];
    FreeSplits(taken, lo, p, hi);
    FreeCount(taken, lo, p - 1);
    FreeIs(taken, lo, p - 1);
  }

  /** What `validate_port_availability` computes from the number of allocated ports. */
  predicate Validates(taken: set<int>, lo: int, hi: int, n: nat) {
    n == 0 || hi - lo + 1 - |taken| >= n
  }

  predicate EnoughFound(taken: set<int>, lo: int, hi: int, n: nat) {
    |FirstFree(taken, lo, hi, n)| >= n
  }

  /**
    A yes is always right.  Yes and "the scan finds enough" agree for every request if
    and only if no allocated port lies outside the range, or the range is full anyway.
   */
  lemma ValidationAgrees(taken: set<int>, lo: int, hi: int)
    requires lo <= hi
    ensures forall n: nat :: Validates(taken, lo, hi, n) ==> EnoughFound(taken, lo, hi, n)
    ensures (forall n: nat :: Validates(taken, lo, hi, n) <==> EnoughFound(taken, lo, hi, n))
            <==> (InRange(taken, lo, hi) == taken || Free(taken, lo, hi) == [])
  {
    FreeCount(taken, lo, hi);
    SubsetCount(InRange(taken, lo, hi), taken);
    var n := |Free(taken, lo, hi)|;
    if InRange(taken, lo, hi) != taken && n > 0 {
      assert EnoughFound(taken, lo, hi, n) && !Validates(taken, lo, hi, n);
    }
  }
}
