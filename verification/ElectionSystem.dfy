/**
  Any number of election services around one etcd, as a step system.  A run is any
  sequence of actions whatever; an action that is not possible changes nothing.
 */
module ElectionSystem {
  import opened Wrappers
  import opened EtcdLeases
  import opened ElectionNode

  /**
    `sent` holds every request ever issued.  etcd may execute a sent request late, or
    again, without the caller ever seeing that answer: this covers the client's own
    retries, lost answers, and requests of coroutines that were cancelled meanwhile.
   */
  datatype System = System(etcd: Store, sent: set<Request>, nodes: map<nat, Node>)

  datatype Task = CampaignTask | KeepaliveTask | StopTask

  datatype Action =
    | Tick(seconds: real)
    | ExpireLease(lease: LeaseId)
    | ExecuteUnseen(request: Request)
    | Answer(node: nat, task: Task)  // etcd serves the call and the answer reaches the caller
    | Fail(node: nat, task: Task)    // the call ends in a connection error
    | Start(node: nat)
    | RunCampaign(node: nat)
    | RunKeepalive(node: nat)
    | CallStop(node: nat)            // only after `start_async` has returned
    | RunStop(node: nat)

  /** The request a task of the node is waiting on. */
  function Outstanding(m: Node, t: Task): Option<Request> {
    match t
    case CampaignTask => (
      match m.campaign
      case Granting(_, None) => Some(Grant(m.ttl))
      case Putting(_, l, None) => Some(PutIfAbsent(m.instanceId, l))
      case Revoking(_, l, None) => Some(Revoke(l))
      case _ => None)
    case KeepaliveTask =>
      if m.keepalive.Refreshing? && m.keepalive.reply.None? then Some(Refresh(m.keepalive.lease)) else None
    case StopTask => if m.stop.Releasing? && m.stop.reply.None? then Some(Revoke(m.stop.lease)) else None
  }

  function Deliver(m: Node, t: Task, r: Reply): Node
    requires Outstanding(m, t).Some?
  {
    match t
    case CampaignTask => m.(campaign := m.campaign.(reply := Some(r)))
    case KeepaliveTask => m.(keepalive := m.keepalive.(reply := Some(r)))
    case StopTask => m.(stop := m.stop.(reply := Some(r)))
  }

  function Requests(m: Node): set<Request> {
    set t: Task | Outstanding(m, t).Some? :: Outstanding(m, t).value
  }

  function SetNode(s: System, i: nat, m: Node): System {
    s.(nodes := s.nodes[i := m], sent := s.sent + Requests(m))
  }

  function Step(s: System, a: Action): System {
    match a
    case Tick(d) => if d >= 0.0 then s.(etcd := s.etcd.(now := s.etcd.now + d)) else s
    case ExpireLease(l) => s.(etcd := Expire(s.etcd, l))
    case ExecuteUnseen(r) => if r in s.sent then s.(etcd := Serve(s.etcd, r).0) else s
    case _ => if a.node in s.nodes then NodeAction(s, a.node, s.nodes[a.node], a) else s
  }

  function NodeAction(s: System, i: nat, m: Node, a: Action): System
    requires i in s.nodes && s.nodes[i] == m
  {
    match a
    case Answer(_, t) =>
      if Outstanding(m, t).Some? then
        var (e, r) := Serve(s.etcd, Outstanding(m, t).value);
        SetNode(s.(etcd := e), i, Deliver(m, t, r))
      else s
    case Fail(_, t) => if Outstanding(m, t).Some? then SetNode(s, i, Deliver(m, t, ConnectionError)) else s
    case Start(_) => if m.stop.NotStopping? then SetNode(s, i, StartAsync(m)) else s
    case RunCampaign(_) => SetNode(s, i, CampaignStep(m, s.etcd.now))
    case RunKeepalive(_) => SetNode(s, i, KeepaliveStep(m))
    case CallStop(_) => if Starting(m) then s else SetNode(s, i, StopAsync(m))
    case RunStop(_) => SetNode(s, i, StopStep(m))
    case _ => s
  }

  function Run(s: System, actions: seq<Action>): System
    decreases |actions|
  {
    if actions == [] then s else Step(Run(s, actions[..|actions| - 1]), actions[|actions| - 1])
  }

  /** Every service stopped, etcd empty; the configured ids need not even be distinct. */
  ghost predicate Initial(s: System) {
    && s.etcd == EMPTY_STORE && s.sent == {}
    && forall i :: i in s.nodes ==> s.nodes[i] == NewNode(s.nodes[i].instanceId, s.nodes[i].ttl)
  }

  // ---------------------------------------------------------------- the invariant

  /** The leases a node knows of, from the moment a grant is answered. */
  function Claims(m: Node): set<LeaseId> {
    (if m.lease.Some? then {m.lease.value} else {})
    + (match m.campaign
       case Granting(_, Some(Granted(l))) => {l}
       case Putting(_, l, _) => {l}
       case Revoking(_, l, _) => {l}
       case _ => {})
  }

  /** A lease the node won the key with keeps the key for as long as etcd honours it. */
  ghost predicate Backed(e: Store, m: Node) {
    forall l :: l in e.leases && Won(m, l) ==> e.key == Some(LeaderRecord(m.instanceId, l))
  }

  predicate Won(m: Node, l: LeaseId) {
    m.lease == Some(l) || (m.campaign.Putting? && m.campaign.lease == l && m.campaign.reply == Some(Created))
  }

  ghost predicate NodeOk(e: Store, m: Node) {
    NodeInv(m) && Backed(e, m) && (forall l :: l in Claims(m) ==> l < e.nextLease)
  }

  ghost predicate SentOk(s: System) {
    forall id, l: LeaseId :: PutIfAbsent(id, l) in s.sent ==>
      l < s.etcd.nextLease && forall i :: i in s.nodes && l in Claims(s.nodes[i]) ==> s.nodes[i].instanceId == id
  }

  ghost predicate ClaimsDisjoint(s: System) {
    forall i, j :: i in s.nodes && j in s.nodes && i != j ==> Claims(s.nodes[i]) !! Claims(s.nodes[j])
  }

  ghost predicate Inv(s: System) {
    && Valid(s.etcd)
    && (forall i :: i in s.nodes ==> NodeOk(s.etcd, s.nodes[i]))
    && SentOk(s)
    && ClaimsDisjoint(s)
  }

  // ---------------------------------------------------------------- preservation

  /** etcd moves on by itself: no node that was in order gets out of order. */
  lemma EtcdMoves(s: System, e: Store)
    requires Inv(s) && Valid(e) && Follows(s.etcd, e)
    ensures Inv(s.(etcd := e))
  {
    forall i | i in s.nodes
      ensures NodeOk(e, s.nodes[i])
    {
      var m := s.nodes[i];
      forall l | l in e.leases && Won(m, l)
        ensures e.key == Some(LeaderRecord(m.instanceId, l))
      {
        assert l in Claims(m);
        assert l in s.etcd.leases;
      }
    }
  }

  /** What a node may turn into without help from etcd: it claims and wins nothing new. */
  ghost predicate Advances(m: Node, m': Node) {
    && m'.instanceId == m.instanceId
    && Claims(m') <= Claims(m)
    && (forall l :: Won(m', l) ==> Won(m, l))
    && (forall id, l: LeaseId :: PutIfAbsent(id, l) in Requests(m') ==> id == m.instanceId && l in Claims(m))
  }

  lemma NodeAdvances(s: System, i: nat, m': Node)
    requires Inv(s) && i in s.nodes && NodeInv(m') && Advances(s.nodes[i], m')
    ensures Inv(SetNode(s, i, m'))
  {
    var s' := SetNode(s, i, m');
    forall id, l: LeaseId | PutIfAbsent(id, l) in s'.sent
      ensures l < s.etcd.nextLease
      ensures forall j :: j in s'.nodes && l in Claims(s'.nodes[j]) ==> s'.nodes[j].instanceId == id
    {
      if PutIfAbsent(id, l) in Requests(m') {
        assert l in Claims(s.nodes[i]);
      }
    }
  }

  lemma CampaignAdvances(m: Node, now: real)
    requires NodeInv(m)
    ensures Advances(m, StartAsync(m)) && Advances(m, CampaignStep(m, now))
  {
  }

  lemma KeepaliveAdvances(m: Node)
    requires NodeInv(m)
    ensures Advances(m, KeepaliveStep(m))
  {
  }

  lemma StopAdvances(m: Node)
    requires NodeInv(m)
    ensures Advances(m, StopAsync(m)) && Advances(m, StopStep(m))
  {
  }

  /** An answer that brings neither a lease nor the key. */
  lemma PlainAnswer(m: Node, t: Task, r: Reply)
    requires NodeInv(m) && Outstanding(m, t).Some? && !r.Granted? && !r.Created?
    requires t.KeepaliveTask? ==> r in {Renewed, LeaseGone, ConnectionError}
    ensures NodeInv(Deliver(m, t, r)) && Advances(m, Deliver(m, t, r))
  {
  }

  lemma NewLeaseAnswer(m: Node, t: Task, l: LeaseId)
    requires NodeInv(m) && Outstanding(m, t).Some? && Outstanding(m, t).value.Grant?
    ensures var m' := Deliver(m, t, Granted(l));
      && NodeInv(m') && m' == m.(campaign := Granting(m'.campaign.starting, Some(Granted(l))))
      && Claims(m') <= Claims(m) + {l}
      && (forall id, k: LeaseId :: PutIfAbsent(id, k) !in Requests(m'))
  {
  }

  lemma KeyAnswer(m: Node, t: Task)
    requires NodeInv(m) && Outstanding(m, t).Some? && Outstanding(m, t).value.PutIfAbsent?
    ensures m.campaign.Putting? && Outstanding(m, t).value == PutIfAbsent(m.instanceId, m.campaign.lease)
    ensures var m' := Deliver(m, t, Created);
      NodeInv(m') && m' == m.(campaign := Putting(m.campaign.starting, m.campaign.lease, Some(Created)))
  {
  }

  /** Which answers a request can get. */
  lemma AnswersFit(e: Store, q: Request)
    ensures var r := Serve(e, q).1;
      && (r.Granted? <==> q.Grant?) && (r.Created? ==> q.PutIfAbsent?) && (q.Refresh? ==> r in {Renewed, LeaseGone})
  {
  }

  /** A call is answered: the claims can only grow by a lease nobody has seen before. */
  lemma AnswerKeeps(s: System, i: nat, t: Task)
    requires Inv(s) && i in s.nodes && Outstanding(s.nodes[i], t).Some?
    ensures Inv(Step(s, Answer(i, t)))
  {
    var m := s.nodes[i];
    var q := Outstanding(m, t).value;
    var (e, r) := Serve(s.etcd, q);
    ServeFollows(s.etcd, q);
    AnswersFit(s.etcd, q);
    EtcdMoves(s, e);
    var s1 := s.(etcd := e);
    assert NodeOk(s.etcd, m);
    if q.Grant? {
      NewLeaseAnswer(m, t, s.etcd.nextLease);
      FreshClaim(s1, i, Deliver(m, t, r), s.etcd.nextLease);
    } else if r.Created? {
      KeyAnswer(m, t);
      WinsKey(s1, i, Deliver(m, t, r));
    } else {
      PlainAnswer(m, t, r);
      NodeAdvances(s1, i, Deliver(m, t, r));
    }
  }

  lemma FreshClaim(s: System, i: nat, m': Node, l: LeaseId)
    requires Inv(s) && i in s.nodes && NodeInv(m')
    requires m'.instanceId == s.nodes[i].instanceId && m'.lease == s.nodes[i].lease && !m'.campaign.Putting?
    requires Claims(m') <= Claims(s.nodes[i]) + {l}
    requires forall id, k: LeaseId :: PutIfAbsent(id, k) !in Requests(m')
    requires l < s.etcd.nextLease && (forall j :: j in s.nodes ==> l !in Claims(s.nodes[j]))
    requires forall id :: PutIfAbsent(id, l) !in s.sent
    ensures Inv(SetNode(s, i, m'))
  {
  }

  lemma WinsKey(s: System, i: nat, m': Node)
    requires Inv(s) && i in s.nodes && NodeInv(m')
    requires s.nodes[i].campaign.Putting?
    requires
      var c := s.nodes[i].campaign;
      m' == s.nodes[i].(campaign := Putting(c.starting, c.lease, Some(Created)))
    requires s.etcd.key == Some(LeaderRecord(m'.instanceId, m'.campaign.lease))
    ensures Inv(SetNode(s, i, m'))
  {
    var s' := SetNode(s, i, m');
    assert Claims(m') == Claims(s.nodes[i]);
    assert forall id, l: LeaseId :: PutIfAbsent(id, l) !in Requests(m');
    assert NodeOk(s.etcd, m') by {
      assert NodeOk(s.etcd, s.nodes[i]);
    }
    assert SentOk(s') && ClaimsDisjoint(s');
  }

  lemma StepKeeps(s: System, a: Action)
    requires Inv(s)
    ensures Inv(Step(s, a))
  {
    match a {
      case Tick(d) => EtcdMoves(s, s.etcd.(now := s.etcd.now + d));
      case ExpireLease(l) => ExpireFollows(s.etcd, l); EtcdMoves(s, Expire(s.etcd, l));
      case ExecuteUnseen(r) => ServeFollows(s.etcd, r); EtcdMoves(s, Serve(s.etcd, r).0);
      case _ => if a.node in s.nodes { NodeActionKeeps(s, a.node, a); }
    }
  }

  lemma NodeActionKeeps(s: System, i: nat, a: Action)
    requires Inv(s) && i in s.nodes && !a.Tick? && !a.ExpireLease? && !a.ExecuteUnseen? && a.node == i
    ensures Inv(Step(s, a))
  {
    var m := s.nodes[i];
    assert NodeOk(s.etcd, m);
    match a {
      case Answer(_, t) => if Outstanding(m, t).Some? { AnswerKeeps(s, i, t); }
      case Fail(_, t) =>
        if Outstanding(m, t).Some? {
          PlainAnswer(m, t, ConnectionError);
          NodeAdvances(s, i, Deliver(m, t, ConnectionError));
        }
      case Start(_) =>
        if m.stop.NotStopping? {
          StartKeeps(m);
          CampaignAdvances(m, s.etcd.now);
          NodeAdvances(s, i, StartAsync(m));
        }
      case RunCampaign(_) =>
        CampaignStepKeeps(m, s.etcd.now);
        CampaignAdvances(m, s.etcd.now);
        NodeAdvances(s, i, CampaignStep(m, s.etcd.now));
      case RunKeepalive(_) =>
        KeepaliveStepKeeps(m);
        KeepaliveAdvances(m);
        NodeAdvances(s, i, KeepaliveStep(m));
      case CallStop(_) =>
        if !Starting(m) {
          StopStepKeeps(m);
          StopAdvances(m);
          NodeAdvances(s, i, StopAsync(m));
        }
      case RunStop(_) =>
        StopStepKeeps(m);
        StopAdvances(m);
        NodeAdvances(s, i, StopStep(m));
      case _ =>
    }
  }

  lemma {:induction false} RunKeeps(s: System, actions: seq<Action>)
    requires Inv(s)
    ensures Inv(Run(s, actions))
    decreases |actions|
  {
    if actions != [] {
      RunKeeps(s, actions[..|actions| - 1]);
      StepKeeps(Run(s, actions[..|actions| - 1]), actions[|actions| - 1]);
    }
  }

  lemma InitialInv(s: System)
    requires Initial(s)
    ensures Inv(s)
  {
    forall i | i in s.nodes
      ensures NodeOk(s.etcd, s.nodes[i])
    {
      assert s.nodes[i] == NewNode(s.nodes[i].instanceId, s.nodes[i].ttl);
    }
  }
}
