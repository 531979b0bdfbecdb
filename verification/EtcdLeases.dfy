/**
  The part of etcd that leader election relies on: leases with an expiry, and the
  single leader key, which is attached to a lease and disappears with it.
  A lease etcd still honours is one that is present in `leases`.
 */
module EtcdLeases {
  import opened Wrappers

  type LeaseId = nat

  /** Times are in seconds. */
  datatype Lease = Lease(ttl: int, expiry: real)

  /** What the leader key stores, with the lease it is attached to. */
  datatype LeaderRecord = LeaderRecord(leaderId: string, lease: LeaseId)

  datatype Store = Store(now: real, leases: map<LeaseId, Lease>, key: Option<LeaderRecord>, nextLease: LeaseId)

  datatype Request =
    | Grant(ttl: int)
    | PutIfAbsent(leaderId: string, lease: LeaseId)
    | Refresh(lease: LeaseId)
    | Revoke(lease: LeaseId)

  datatype Reply =
    | Granted(lease: LeaseId)
    | Created
    | Exists
    | Renewed
    | Revoked
    | LeaseGone        // etcd answers that it does not know the lease
    | ConnectionError  // no usable answer reached the caller

  const EMPTY_STORE := Store(0.0, map[], None, 0)

  ghost predicate Valid(e: Store) {
    && (forall l :: l in e.leases ==> l < e.nextLease)
    && (e.key.Some? ==> e.key.value.lease in e.leases)
  }

  /** A lease ends, by revocation or expiry, and takes the key attached to it along. */
  function Drop(e: Store, l: LeaseId): Store {
    e.(leases := e.leases - {l},
       key := if e.key.Some? && e.key.value.lease == l then None else e.key)
  }

  /** One request executed by etcd, with the answer etcd gives. */
  function Serve(e: Store, r: Request): (Store, Reply) {
    match r
    case Grant(ttl) =>
      var lease := Lease(ttl, e.now + ttl as real);
      (e.(leases := e.leases[e.nextLease := lease], nextLease := e.nextLease + 1), Granted(e.nextLease))
    case PutIfAbsent(id, l) =>
      if e.key.Some? then (e, Exists)
      else if l !in e.leases then (e, LeaseGone)
      else (e.(key := Some(LeaderRecord(id, l))), Created)
    case Refresh(l) =>
      if l in e.leases then
        var lease := e.leases[l].(expiry := e.now + e.leases[l].ttl as real);
        (e.(leases := e.leases[l := lease]), Renewed)
      else (e, LeaseGone)
    case Revoke(l) =>
      if l in e.leases then (Drop(e, l), Revoked) else (e, LeaseGone)
  }

  /** Time passes; a lease past its expiry ends. */
  function Expire(e: Store, l: LeaseId): Store {
    if l in e.leases && e.leases[l].expiry <= e.now then Drop(e, l) else e
  }

  /** How one etcd state may follow another while no new lease is claimed from it. */
  ghost predicate Follows(e: Store, e': Store) {
    && e.nextLease <= e'.nextLease
    && (forall l :: l in e'.leases && l < e.nextLease ==> l in e.leases)
    && (forall l :: l in e'.leases && e.key.Some? && e.key.value.lease == l ==> e'.key == e.key)
  }

  lemma ServeFollows(e: Store, r: Request)
    requires Valid(e)
    ensures Valid(Serve(e, r).0) && Follows(e, Serve(e, r).0)
  {
  }

  lemma ExpireFollows(e: Store, l: LeaseId)
    requires Valid(e)
    ensures Valid(Expire(e, l)) && Follows(e, Expire(e, l))
  {
  }
}
