/**
  The election service as the object it is: fields updated in place by its methods.
  Each method is one stretch between awaits and refines the function of the same
  stretch in `ElectionNode`, over which the run theorems are proved.
 */
module LeaderElectionService {
  import opened Wrappers
  import opened EtcdLeases
  import opened N = ElectionNode

  class Service {
    const instanceId: string
    const ttl: int
    var running: bool
    var state: ServiceState
    var isLeader: bool
    var lease: Option<LeaseId>
    var acquiredAt: Option<real>
    var campaign: Campaign
    var keepalive: Keepalive
    var stop: Stop
    var rounds: seq<Round>

    ghost function View(): Node
      reads this
    {
      Node(instanceId, ttl, running, state, isLeader, lease, acquiredAt, campaign, keepalive, stop, rounds)
    }

    constructor (instanceId: string, ttl: int)
      ensures View() == NewNode(instanceId, ttl) && NodeInv(View()) && Quiet(View())
    {
      this.instanceId, this.ttl := instanceId, ttl;
      running, state, isLeader, lease, acquiredAt := false, STOPPED, false, None, None;
      campaign, keepalive, stop, rounds := NoCampaign, NoKeepalive, NotStopping, [];
    }

    /** Refuses (raises) exactly when the service is already running. */
    method Start() returns (refused: bool)
      requires NodeInv(View()) && stop.NotStopping?
      modifies this
      ensures refused <==> old(running)
      ensures View() == N.StartAsync(old(View())) && NodeInv(View())
    {
      StartKeeps(View());
      if running {
        return true;
      }
      running := true;
      state := CAMPAIGNING;
      campaign := Granting(true, None);
      return false;
    }

    method OnBecomeLeader(l: LeaseId, now: real)
      modifies this
      ensures View() == N.BecomeLeader(old(View()), l, now)
    {
      isLeader := true;
      lease := Some(l);
      state := LEADER;
      acquiredAt := Some(now);
      keepalive := KeepaliveLoop;
      rounds := rounds + [Acquired(l)];
    }

    method OnLoseLeadership()
      requires isLeader ==> lease.Some?
      modifies this
      ensures View() == N.LoseLeadership(old(View()))
    {
      var wasLeader, gone := isLeader, lease;
      isLeader := false;
      lease := None;
      acquiredAt := None;
      state := STANDBY;
      if wasLeader {
        rounds := rounds + [Lost(gone.value)];
      }
    }

    /** The campaign task, or the acquisition inside `start_async`, runs to its next await. */
    method ResumeCampaign(now: real)
      requires NodeInv(View())
      modifies this
      ensures View() == N.CampaignStep(old(View()), now) && NodeInv(View())
    {
      CampaignStepKeeps(View(), now);
      match campaign
      case CampaignLoop =>
        if !running {
          campaign := NoCampaign;
        } else if !isLeader {
          campaign := Granting(false, None);
        }
      case Granting(starting, Some(Granted(l))) =>
        campaign := Putting(starting, l, None);
      case Putting(starting, l, Some(Created)) =>
        OnBecomeLeader(l, now);
        campaign := NotifyingAcquired(starting);
      case Putting(starting, l, Some(Exists)) =>
        campaign := Revoking(starting, l, None);
      case Revoking(_, _, Some(Revoked)) =>
        state := STANDBY;
        campaign := CampaignLoop;
      case Granting(_, Some(_)) => campaign := CampaignLoop;
      case Putting(_, _, Some(_)) => campaign := CampaignLoop;
      case Revoking(_, _, Some(_)) => campaign := CampaignLoop;
      case NotifyingAcquired(_) => campaign := CampaignLoop;
      case _ =>
    }

    method ResumeKeepalive()
      requires NodeInv(View())
      modifies this
      ensures View() == N.KeepaliveStep(old(View())) && NodeInv(View())
    {
      KeepaliveStepKeeps(View());
      match keepalive
      case KeepaliveLoop =>
        if running && isLeader {
          keepalive := Refreshing(lease.value, None);
        } else {
          keepalive := NoKeepalive;
        }
      case Refreshing(_, Some(LeaseGone)) =>
        OnLoseLeadership();
        keepalive := NotifyingLost;
      case Refreshing(_, Some(_)) => keepalive := KeepaliveLoop;
      case NotifyingLost => keepalive := NoKeepalive;
      case _ =>
    }

    method CancelCampaign()
      modifies this
      ensures View() == N.CancelCampaign(old(View()))
    {
      if campaign.NoCampaign? {
        ReleaseIfLeader();
      } else {
        campaign := NoCampaign;
        stop := AwaitCampaign;
      }
    }

    method ReleaseIfLeader()
      modifies this
      ensures View() == N.ReleaseIfLeader(old(View()))
    {
      if isLeader && lease.Some? {
        stop := Releasing(lease.value, None);
      } else {
        stop := NotStopping;
        state := STOPPED;
      }
    }

    /** Safe to call repeatedly: on a service that is not running it does nothing. */
    method CallStop()
      requires NodeInv(View()) && !Starting(View())
      modifies this
      ensures View() == N.StopAsync(old(View())) && NodeInv(View())
      ensures stop.NotStopping? ==> Quiet(View())
    {
      StopStepKeeps(View());
      if !running {
        return;
      }
      state := STOPPING;
      running := false;
      if keepalive.NoKeepalive? {
        CancelCampaign();
      } else {
        keepalive := NoKeepalive;
        stop := AwaitKeepalive;
      }
    }

    /** When this leaves no stop under way, the service is quiet. */
    method ResumeStop()
      requires NodeInv(View()) && !stop.NotStopping?
      modifies this
      ensures View() == N.StopStep(old(View())) && NodeInv(View())
      ensures stop.NotStopping? ==> Quiet(View())
    {
      StopStepKeeps(View());
      match stop
      case AwaitKeepalive => CancelCampaign();
      case AwaitCampaign => ReleaseIfLeader();
      case Releasing(_, Some(_)) =>
        if keepalive.NoKeepalive? {
          OnLoseLeadership();
          stop := NotifyingReleased;
        }
      case NotifyingReleased =>
        state := STOPPED;
        stop := NotStopping;
      case _ =>
    }
  }
}
