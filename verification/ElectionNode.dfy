/**
  One `LeaderElectionService` object.  Its coroutines run until they await something;
  each function below is one such stretch of code, from an await to the next.
 */
module ElectionNode {
  import opened Wrappers
  import opened EtcdLeases

  datatype ServiceState = STOPPED | CAMPAIGNING | LEADER | STANDBY | STOPPING

  /**
    Where the acquiring coroutine is: `start_async` itself while `starting`, else the
    campaign task.  A call in flight carries the reply once one has arrived.
   */
  datatype Campaign =
    | NoCampaign
    | CampaignLoop  // at the head of the loop, or asleep before it
    | Granting(starting: bool, reply: Option<Reply>)
    | Putting(starting: bool, lease: LeaseId, reply: Option<Reply>)
    | Revoking(starting: bool, lease: LeaseId, reply: Option<Reply>)
    | NotifyingAcquired(starting: bool)

  /** Where the newest keepalive task is. */
  datatype Keepalive =
    | NoKeepalive
    | KeepaliveLoop
    | Refreshing(lease: LeaseId, reply: Option<Reply>)
    | NotifyingLost

  /** Where a call of `stop_async` is. */
  datatype Stop =
    | NotStopping
    | AwaitKeepalive
    | AwaitCampaign
    | Releasing(lease: LeaseId, reply: Option<Reply>)
    | NotifyingReleased

  /** A round of callbacks that was started, with the lease it was about. */
  datatype Round = Acquired(lease: LeaseId) | Lost(lease: LeaseId)

  datatype Node = Node(
    instanceId: string,
    ttl: int,
    running: bool,
    state: ServiceState,
    isLeader: bool,
    lease: Option<LeaseId>,
    acquiredAt: Option<real>,
    campaign: Campaign,
    keepalive: Keepalive,
    stop: Stop,
    rounds: seq<Round>)

  function NewNode(instanceId: string, ttl: int): Node {
    Node(instanceId, ttl, false, STOPPED, false, None, None, NoCampaign, NoKeepalive, NotStopping, [])
  }

  // ---------------------------------------------------------------- start and campaign

  /** `start_async` up to its first etcd call; a running service refuses. */
  function StartAsync(m: Node): Node {
    if m.running then m
    else m.(running := true, state := CAMPAIGNING, campaign := Granting(true, None))
  }

  function CampaignTurn(m: Node): Node
    requires m.campaign.CampaignLoop?
  {
    if !m.running then m.(campaign := NoCampaign)
    else if m.isLeader then m
    else m.(campaign := Granting(false, None))
  }

  /** The attempt is over: `start_async` spawns the campaign loop, or the loop goes round. */
  function AfterAttempt(m: Node): Node {
    m.(campaign := CampaignLoop)
  }

  function GrantReturned(m: Node): Node
    requires m.campaign.Granting? && m.campaign.reply.Some?
  {
    match m.campaign.reply.value
    case Granted(l) => m.(campaign := Putting(m.campaign.starting, l, None))
    case _ => AfterAttempt(m)
  }

  function PutReturned(m: Node, now: real): Node
    requires m.campaign.Putting? && m.campaign.reply.Some?
  {
    match m.campaign.reply.value
    case Created => BecomeLeader(m, m.campaign.lease, now).(campaign := NotifyingAcquired(m.campaign.starting))
    case Exists => m.(campaign := Revoking(m.campaign.starting, m.campaign.lease, None))
    case _ => AfterAttempt(m)
  }

  function RevokeReturned(m: Node): Node
    requires m.campaign.Revoking? && m.campaign.reply.Some?
  {
    if m.campaign.reply.value.Revoked? then AfterAttempt(m.(state := STANDBY)) else AfterAttempt(m)
  }

  /**
    An older keepalive task can only be inside its last round of lost callbacks; that
    round goes on by itself and touches no field.
   */
  function BecomeLeader(m: Node, l: LeaseId, now: real): Node {
    m.(isLeader := true, lease := Some(l), state := LEADER, acquiredAt := Some(now),
       keepalive := KeepaliveLoop, rounds := m.rounds + [Acquired(l)])
  }

  /** Whatever the acquiring coroutine does when it is resumed. */
  function CampaignStep(m: Node, now: real): Node {
    match m.campaign
    case CampaignLoop => CampaignTurn(m)
    case Granting(_, Some(_)) => GrantReturned(m)
    case Putting(_, _, Some(_)) => PutReturned(m, now)
    case Revoking(_, _, Some(_)) => RevokeReturned(m)
    case NotifyingAcquired(_) => AfterAttempt(m)
    case _ => m
  }

  // ---------------------------------------------------------------- keepalive

  function KeepaliveTurn(m: Node): Node
    requires m.keepalive.KeepaliveLoop?
  {
    if m.running && m.isLeader then
      if m.lease.Some? then m.(keepalive := Refreshing(m.lease.value, None)) else m
    else m.(keepalive := NoKeepalive)
  }

  function RefreshReturned(m: Node): Node
    requires m.keepalive.Refreshing? && m.keepalive.reply.Some?
  {
    match m.keepalive.reply.value
    case LeaseGone => LoseLeadership(m).(keepalive := NotifyingLost)
    case _ => m.(keepalive := KeepaliveLoop)  // renewed, or an error that is ridden out
  }

  function LoseLeadership(m: Node): Node {
    m.(isLeader := false, lease := None, acquiredAt := None, state := STANDBY,
       rounds := if m.isLeader && m.lease.Some? then m.rounds + [Lost(m.lease.value)] else m.rounds)
  }

  /** Whatever the newest keepalive task does when it is resumed. */
  function KeepaliveStep(m: Node): Node {
    match m.keepalive
    case KeepaliveLoop => KeepaliveTurn(m)
    case Refreshing(_, Some(_)) => RefreshReturned(m)
    case NotifyingLost => m.(keepalive := NoKeepalive)
    case _ => m
  }

  // ---------------------------------------------------------------- stop

  predicate Starting(m: Node) {
    match m.campaign
    case Granting(s, _) => s
    case Putting(s, _, _) => s
    case Revoking(s, _, _) => s
    case NotifyingAcquired(s) => s
    case _ => false
  }

  /** `stop_async` up to its first await; a cancelled task never touches a field again. */
  function StopAsync(m: Node): Node {
    if !m.running then m
    else
      var m1 := m.(state := STOPPING, running := false);
      if m1.keepalive.NoKeepalive? then CancelCampaign(m1)
      else m1.(keepalive := NoKeepalive, stop := AwaitKeepalive)
  }

  function CancelCampaign(m: Node): Node {
    if m.campaign.NoCampaign? then ReleaseIfLeader(m)
    else m.(campaign := NoCampaign, stop := AwaitCampaign)
  }

  function ReleaseIfLeader(m: Node): Node {
    if m.isLeader && m.lease.Some? then m.(stop := Releasing(m.lease.value, None)) else Finish(m)
  }

  function Finish(m: Node): Node {
    m.(state := STOPPED, stop := NotStopping)
  }

  /**
    Whatever `stop_async` does when it is resumed.  A keepalive task spawned while
    `stop_async` waited is ahead of it in asyncio's first-in-first-out queue, so the
    release call returns only after that task has had its (only) turn.
   */
  function StopStep(m: Node): Node {
    match m.stop
    case AwaitKeepalive => CancelCampaign(m)
    case AwaitCampaign => ReleaseIfLeader(m)
    case Releasing(_, Some(_)) =>
      if m.keepalive.NoKeepalive? then LoseLeadership(m).(stop := NotifyingReleased) else m
    case NotifyingReleased => Finish(m)
    case _ => m
  }

  // ---------------------------------------------------------------- what a node keeps

  /** Rounds strictly alternate, and each loss is the loss of the lease acquired just before. */
  ghost predicate Alternating(rounds: seq<Round>) {
    forall k :: 0 <= k < |rounds| ==> InTurn(rounds, k)
  }

  ghost predicate InTurn(rounds: seq<Round>, k: nat)
    requires k < |rounds|
  {
    if k % 2 == 0 then rounds[k].Acquired? else rounds[k] == Lost(rounds[k - 1].lease)
  }

  /** A stopped service neither claims leadership nor has a loop left that could act. */
  predicate Quiet(m: Node) {
    && !m.running && m.state == STOPPED && !m.isLeader && m.lease == None && m.acquiredAt == None
    && m.campaign.NoCampaign? && m.keepalive.NoKeepalive? && m.stop.NotStopping?
  }

  predicate Acquiring(c: Campaign) {
    c.Granting? || c.Putting? || c.Revoking?
  }

  ghost predicate BeliefInv(m: Node) {
    && (m.isLeader <==> m.lease.Some?)
    && (m.isLeader <==> m.acquiredAt.Some?)
    && Alternating(m.rounds)
    && (m.isLeader <==> |m.rounds| % 2 == 1)
    && (m.isLeader ==> m.rounds[|m.rounds| - 1] == Acquired(m.lease.value))
  }

  ghost predicate TaskInv(m: Node) {
    && (Acquiring(m.campaign) ==> !m.isLeader)
    && (m.keepalive.Refreshing? ==>
          && m.running && m.lease == Some(m.keepalive.lease)
          && (m.keepalive.reply.Some? ==> m.keepalive.reply.value in {Renewed, LeaseGone, ConnectionError}))
    && (m.running ==>
          && m.stop.NotStopping? && !m.campaign.NoCampaign?
          && (if m.isLeader then m.state == LEADER && (m.keepalive.KeepaliveLoop? || m.keepalive.Refreshing?)
              else
                && (m.state == CAMPAIGNING || m.state == STANDBY)
                && (m.keepalive.NoKeepalive? || m.keepalive.NotifyingLost?)))
    && (!m.running && m.stop.NotStopping? ==> Quiet(m))
  }

  ghost predicate StopInv(m: Node) {
    !m.stop.NotStopping? ==>
      && !m.running && !Starting(m)
      && (m.keepalive.NoKeepalive? || (m.keepalive.KeepaliveLoop? && m.isLeader))
      && (m.stop.AwaitKeepalive? || m.campaign.NoCampaign?)
      && (m.stop.Releasing? ==> m.lease == Some(m.stop.lease))
      && (m.stop.NotifyingReleased? ==> !m.isLeader)
  }

  ghost predicate NodeInv(m: Node) {
    BeliefInv(m) && TaskInv(m) && StopInv(m)
  }

  lemma AlternatingAppend(rounds: seq<Round>, r: Round)
    requires Alternating(rounds)
    requires if |rounds| % 2 == 0 then r.Acquired? else r == Lost(rounds[|rounds| - 1].lease)
    ensures Alternating(rounds + [r])
  {
    var rs := rounds + [r];
    forall k | 0 <= k < |rs|
      ensures InTurn(rs, k)
    {
      if k < |rounds| {
        assert InTurn(rounds, k);
      }
    }
  }

  lemma CampaignStepKeeps(m: Node, now: real)
    requires NodeInv(m)
    ensures NodeInv(CampaignStep(m, now))
  {
    if m.campaign.Putting? && m.campaign.reply == Some(Created) {
      AlternatingAppend(m.rounds, Acquired(m.campaign.lease));
    }
  }

  lemma KeepaliveStepKeeps(m: Node)
    requires NodeInv(m)
    ensures NodeInv(KeepaliveStep(m))
  {
    if m.isLeader {
      AlternatingAppend(m.rounds, Lost(m.lease.value));
    }
  }

  lemma StopStepKeeps(m: Node)
    requires NodeInv(m)
    ensures NodeInv(StopStep(m))
    ensures !Starting(m) ==> NodeInv(StopAsync(m))
  {
    if m.isLeader {
      AlternatingAppend(m.rounds, Lost(m.lease.value));
    }
  }

  lemma StartKeeps(m: Node)
    requires NodeInv(m) && m.stop.NotStopping?
    ensures NodeInv(StartAsync(m))
  {
  }
}
