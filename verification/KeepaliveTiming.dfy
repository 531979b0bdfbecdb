/**
  When the keepalive loop keeps its lease, with refresh calls taken as instantaneous.
  A run is described by which refresh attempts reach etcd; the lease is granted at 0.
 */
module KeepaliveTiming {
  import opened EtcdLeases

  /** The configured default: a third of the TTL, but at least one second. */
  function Interval(ttl: int): real {
    var third := ttl as real / 3.0;
    if third > 1.0 then third else 1.0
  }

  /** When the attempt after these attempts takes place. */
  function AttemptTime(ttl: int, reached: seq<bool>): real {
    if reached == [] then 0.0
    else AttemptTime(ttl, reached[..|reached| - 1]) + (if reached[|reached| - 1] then Interval(ttl) else 1.0)
  }

  /** The expiry etcd has for the lease after these attempts. */
  function Expiry(ttl: int, reached: seq<bool>): real {
    if reached == [] then ttl as real
    else
      var before := reached[..|reached| - 1];
      if reached[|reached| - 1] then AttemptTime(ttl, before) + ttl as real else Expiry(ttl, before)
  }

  /** The lease is still alive when the attempt after these attempts takes place. */
  predicate AliveAt(ttl: int, reached: seq<bool>) {
    AttemptTime(ttl, reached) < Expiry(ttl, reached)
  }

  /** No attempt of the run, nor the one after it, finds the lease expired. */
  ghost predicate Kept(ttl: int, reached: seq<bool>) {
    forall n :: 0 <= n <= |reached| ==> AliveAt(ttl, reached[..n])
  }

  /** Failed attempts since the last one that reached etcd. */
  function Failing(reached: seq<bool>): nat {
    if reached == [] || reached[|reached| - 1] then 0 else 1 + Failing(reached[..|reached| - 1])
  }

  ghost predicate BurstsAtMost(reached: seq<bool>, k: nat) {
    forall n :: 0 <= n <= |reached| ==> Failing(reached[..n]) <= k
  }

  lemma {:induction false} AttemptWithin(ttl: int, reached: seq<bool>)
    ensures AttemptTime(ttl, reached) <= Expiry(ttl, reached) - ttl as real + Interval(ttl) + Failing(reached) as real
  {
    if reached != [] {
      AttemptWithin(ttl, reached[..|reached| - 1]);
    }
  }

  /** Reached once, then cut off k times. */
  function CutOff(k: nat): seq<bool> {
    if k == 0 then [true] else CutOff(k - 1) + [false]
  }

  lemma {:induction false} CutOffTimes(ttl: int, k: nat)
    ensures |CutOff(k)| == k + 1
    ensures AttemptTime(ttl, CutOff(k)) == Interval(ttl) + k as real && Expiry(ttl, CutOff(k)) == ttl as real
    ensures forall n :: 0 <= n <= k + 1 ==> Failing(CutOff(k)[..n]) <= k
  {
    var c := CutOff(k);
    if k == 0 {
      assert c[..0] == [] && c[..1] == c;
    } else {
      CutOffTimes(ttl, k - 1);
      assert c[..k] == CutOff(k - 1);
      assert CutOff(k - 1)[..k] == CutOff(k - 1) && Failing(CutOff(k - 1)) <= k - 1;
      forall n | 0 <= n <= k + 1
        ensures Failing(c[..n]) <= k
      {
        if n <= k {
          assert c[..n] == CutOff(k - 1)[..n];
        } else {
          assert c[..n] == c;
        }
      }
    }
  }

  lemma KeptPrefix(ttl: int, reached: seq<bool>)
    requires reached != []
    ensures Kept(ttl, reached) <==> Kept(ttl, reached[..|reached| - 1]) && AliveAt(ttl, reached)
  {
    var init := reached[..|reached| - 1];
    assert reached[..|reached|] == reached;
    assert forall n :: 0 <= n <= |init| ==> reached[..n] == init[..n];
  }

  /** etcd at the instant of the attempt after these attempts, the lease ended if it was due. */
  function Drive(e: Store, l: LeaseId, reached: seq<bool>): Store
    requires l in e.leases
  {
    if reached == [] then Expire(e, l)
    else
      var before := Drive(e, l, reached[..|reached| - 1]);
      var ok := reached[|reached| - 1];
      var served := if ok then Serve(before, Refresh(l)).0 else before;
      Expire(served.(now := served.now + if ok then Interval(e.leases[l].ttl) else 1.0), l)
  }

  /** etcd still honours a freshly granted lease at the end of a run exactly when the run keeps it. */
  lemma {:induction false} HonouredIffKept(e: Store, l: LeaseId, reached: seq<bool>)
    requires l in e.leases && e.leases[l].expiry == e.now + e.leases[l].ttl as real
    ensures
      var ttl, d := e.leases[l].ttl, Drive(e, l, reached);
      && d.now == e.now + AttemptTime(ttl, reached)
      && (l in d.leases <==> Kept(ttl, reached))
      && (l in d.leases ==> d.leases[l] == Lease(ttl, e.now + Expiry(ttl, reached)))
  {
    if reached == [] {
      assert forall n :: 0 <= n <= |reached| ==> reached[..n] == [];
      assert reached[..0] == [];
    } else {
      HonouredIffKept(e, l, reached[..|reached| - 1]);
      KeptPrefix(e.leases[l].ttl, reached);
    }
  }

  /**
    The keepalive loop never lets its lease expire in any run whose failure bursts are at
    most k long, if and only if interval + k is below the TTL.
   */
  lemma KeptIffWithinTtl(ttl: int, k: nat)
    ensures (forall reached: seq<bool> :: BurstsAtMost(reached, k) ==> Kept(ttl, reached))
            <==> Interval(ttl) + k as real < ttl as real
  {
    if Interval(ttl) + k as real < ttl as real {
      forall reached: seq<bool> | BurstsAtMost(reached, k)
        ensures Kept(ttl, reached)
      {
        forall n | 0 <= n <= |reached|
          ensures AliveAt(ttl, reached[..n])
        {
          AttemptWithin(ttl, reached[..n]);
        }
      }
    } else {
      var c := CutOff(k);
      CutOffTimes(ttl, k);
      assert c[..k + 1] == c;
      assert BurstsAtMost(c, k) && !AliveAt(ttl, c[..k + 1]);
      assert !Kept(ttl, c);
    }
  }

  /** The same of etcd: it honours the lease through every such run if and only if that holds. */
  lemma LeaseSurvivesIff(e: Store, l: LeaseId, k: nat)
    requires l in e.leases && e.leases[l].expiry == e.now + e.leases[l].ttl as real
    ensures (forall reached: seq<bool> :: BurstsAtMost(reached, k) ==> l in Drive(e, l, reached).leases)
            <==> Interval(e.leases[l].ttl) + k as real < e.leases[l].ttl as real
  {
    KeptIffWithinTtl(e.leases[l].ttl, k);
    forall reached: seq<bool>
      ensures l in Drive(e, l, reached).leases <==> Kept(e.leases[l].ttl, reached)
    {
      HonouredIffKept(e, l, reached);
    }
  }

  /**
    With the default interval: a lease of one second is lost even with etcd always
    reachable, one of two seconds survives that but no failure, and a longer one rides out
    as many failures in a row as fit into less than two thirds of it.
   */
  lemma DefaultLeases(ttl: int, k: nat)
    ensures (forall reached: seq<bool> :: BurstsAtMost(reached, k) ==> Kept(ttl, reached))
            <==> if ttl <= 1 then false else if ttl == 2 then k == 0 else 3 * k < 2 * ttl
    ensures (forall reached: seq<bool> :: BurstsAtMost(reached, k) ==> Kept(15, reached)) <==> k <= 9
  {
    KeptIffWithinTtl(ttl, k);
    KeptIffWithinTtl(15, k);
  }

  /** The loop itself: it runs on until an attempt finds the lease expired. */
  method Keepalive(ttl: int, reached: seq<bool>) returns (kept: bool, clock: real)
    ensures kept <==> Kept(ttl, reached)
    ensures kept ==> clock == AttemptTime(ttl, reached)
  {
    clock := 0.0;
    var expiry := ttl as real;
    var n := 0;
    assert reached[..0] == [];
    while n < |reached| && clock < expiry
      invariant 0 <= n <= |reached|
      invariant clock == AttemptTime(ttl, reached[..n]) && expiry == Expiry(ttl, reached[..n])
      invariant forall j :: 0 <= j < n ==> AliveAt(ttl, reached[..j])
    {
      assert reached[..n + 1][..n] == reached[..n];
      if reached[n] {
        expiry := clock + ttl as real;
        clock := clock + Interval(ttl);
      } else {
        clock := clock + 1.0;
      }
      n := n + 1;
    }
    assert reached[..|reached|] == reached;
    kept := clock < expiry;
  }
}
