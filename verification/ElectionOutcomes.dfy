/**
  What particular sequences of actions lead to, field by field: an attempt that wins, one
  that finds the key taken, one that breaks off, a refresh that is renewed, ridden out or
  refused, a release that is answered; and the runs in which the obvious guesses fail.
 */
module ElectionOutcomes {
  import opened Wrappers
  import opened EtcdLeases
  import opened ElectionNode
  import opened ElectionSystem
  import opened ElectionTheorems

  lemma RunOf1(s: System, a: Action)
    ensures Run(s, [a]) == Step(s, a)
  {
    assert [] + [a] == [a];
    Extend(s, [], a);
  }

  lemma RunOf2(s: System, a: Action, b: Action)
    ensures Run(s, [a, b]) == Step(Step(s, a), b)
  {
    assert [a] + [b] == [a, b];
    RunOf1(s, a);
    Extend(s, [a], b);
  }

  /** Only service i differs from s, by being m; and etcd is e. */
  ghost predicate Becomes(s: System, t: System, i: nat, m: Node, e: Store) {
    i in s.nodes && t.nodes == s.nodes[i := m] && t.etcd == e
  }

  // ---------------------------------------------------------------- attempts

  /** The next call of the acquiring coroutine is answered, and it goes on. */
  function Go(i: nat): seq<Action> {
    [Answer(i, CampaignTask), RunCampaign(i)]
  }

  lemma AnswerIs(s: System, i: nat, task: Task)
    requires i in s.nodes && Outstanding(s.nodes[i], task).Some?
    ensures
      var (e, r) := Serve(s.etcd, Outstanding(s.nodes[i], task).value);
      Becomes(s, Step(s, Answer(i, task)), i, Deliver(s.nodes[i], task, r), e)
  {
  }

  lemma FailIs(s: System, i: nat, task: Task)
    requires i in s.nodes && Outstanding(s.nodes[i], task).Some?
    ensures Becomes(s, Step(s, Fail(i, task)), i, Deliver(s.nodes[i], task, ConnectionError), s.etcd)
  {
  }

  lemma KeepaliveIs(s: System, i: nat)
    requires i in s.nodes
    ensures Becomes(s, Step(s, RunKeepalive(i)), i, KeepaliveStep(s.nodes[i]), s.etcd)
  {
  }

  lemma GoIs(s: System, i: nat)
    requires i in s.nodes && Outstanding(s.nodes[i], CampaignTask).Some?
    ensures
      var (e, r) := Serve(s.etcd, Outstanding(s.nodes[i], CampaignTask).value);
      Becomes(s, Run(s, Go(i)), i, CampaignStep(Deliver(s.nodes[i], CampaignTask, r), e.now), e)
  {
    AnswerIs(s, i, CampaignTask);
    RunOf2(s, Answer(i, CampaignTask), RunCampaign(i));
  }

  function WithLease(e: Store, ttl: int): Store {
    e.(leases := e.leases[e.nextLease := Lease(ttl, e.now + ttl as real)], nextLease := e.nextLease + 1)
  }

  lemma GrantPhase(s: System, i: nat, starting: bool)
    requires i in s.nodes && s.nodes[i].campaign == Granting(starting, None)
    ensures Becomes(s, Run(s, Go(i)), i, s.nodes[i].(campaign := Putting(starting, s.etcd.nextLease, None)),
                    WithLease(s.etcd, s.nodes[i].ttl))
  {
    GoIs(s, i);
  }

  /** Leading under lease l, acquired at this instant. */
  function Leading(m: Node, l: LeaseId, now: real): Node {
    m.(isLeader := true, lease := Some(l), acquiredAt := Some(now), state := LEADER,
       keepalive := KeepaliveLoop, rounds := m.rounds + [Acquired(l)])
  }

  lemma PutPhase(s: System, i: nat, starting: bool, l: LeaseId)
    requires i in s.nodes && s.nodes[i].campaign == Putting(starting, l, None)
    requires l in s.etcd.leases && s.etcd.key == None
    ensures Becomes(s, Run(s, Go(i)), i, Leading(s.nodes[i], l, s.etcd.now).(campaign := NotifyingAcquired(starting)),
                    s.etcd.(key := Some(LeaderRecord(s.nodes[i].instanceId, l))))
  {
    GoIs(s, i);
  }

  lemma PutRefused(s: System, i: nat, starting: bool, l: LeaseId)
    requires i in s.nodes && s.nodes[i].campaign == Putting(starting, l, None) && s.etcd.key.Some?
    ensures Becomes(s, Run(s, Go(i)), i, s.nodes[i].(campaign := Revoking(starting, l, None)), s.etcd)
  {
    GoIs(s, i);
  }

  lemma RevokePhase(s: System, i: nat, starting: bool, l: LeaseId)
    requires i in s.nodes && s.nodes[i].campaign == Revoking(starting, l, None)
    requires l in s.etcd.leases && s.etcd.key.Some? && s.etcd.key.value.lease != l
    ensures Becomes(s, Run(s, Go(i)), i, s.nodes[i].(state := STANDBY, campaign := CampaignLoop),
                    s.etcd.(leases := s.etcd.leases - {l}))
  {
    GoIs(s, i);
  }

  lemma AttemptWins(s: System, i: nat, starting: bool)
    requires i in s.nodes && s.nodes[i].campaign == Granting(starting, None) && s.etcd.key == None
    ensures
      var l := s.etcd.nextLease;
      Becomes(s, Run(s, Go(i) + Go(i)), i,
              Leading(s.nodes[i], l, s.etcd.now).(campaign := NotifyingAcquired(starting)),
              WithLease(s.etcd, s.nodes[i].ttl).(key := Some(LeaderRecord(s.nodes[i].instanceId, l))))
  {
    RunsOn(s, Go(i), Go(i));
    GrantPhase(s, i, starting);
    PutPhase(Run(s, Go(i)), i, starting, s.etcd.nextLease);
  }

  lemma AttemptLoses(s: System, i: nat, starting: bool)
    requires Valid(s.etcd) && i in s.nodes && s.nodes[i].campaign == Granting(starting, None) && s.etcd.key.Some?
    ensures Becomes(s, Run(s, Go(i) + Go(i) + Go(i)), i, s.nodes[i].(state := STANDBY, campaign := CampaignLoop),
                    s.etcd.(nextLease := s.etcd.nextLease + 1))
  {
    RunsOn(s, Go(i) + Go(i), Go(i));
    RunsOn(s, Go(i), Go(i));
    var l := s.etcd.nextLease;
    var s1, s2 := Run(s, Go(i)), Run(s, Go(i) + Go(i));
    GrantPhase(s, i, starting);
    PutRefused(s1, i, starting, l);
    RevokePhase(s2, i, starting, l);
    assert s2.etcd.leases - {l} == s.etcd.leases;
  }

  /** Whichever call of an attempt fails, the next round of the campaign loop follows and nothing else changes. */
  lemma AttemptBreaksOff(s: System, i: nat)
    requires i in s.nodes && Acquiring(s.nodes[i].campaign) && s.nodes[i].campaign.reply == None
    ensures
      var t := Run(s, [Fail(i, CampaignTask), RunCampaign(i)]);
      Becomes(s, t, i, s.nodes[i].(campaign := CampaignLoop), s.etcd)
  {
    RunOf2(s, Fail(i, CampaignTask), RunCampaign(i));
    FailIs(s, i, CampaignTask);
  }

  /** The same when the attempt's own lease has died meanwhile. */
  lemma AttemptOutlivesLease(s: System, i: nat)
    requires i in s.nodes && (s.nodes[i].campaign.Putting? || s.nodes[i].campaign.Revoking?)
    requires s.nodes[i].campaign.reply == None && s.nodes[i].campaign.lease !in s.etcd.leases
    requires s.nodes[i].campaign.Putting? ==> s.etcd.key == None
    ensures Becomes(s, Run(s, Go(i)), i, s.nodes[i].(campaign := CampaignLoop), s.etcd)
  {
    GoIs(s, i);
  }

  // ---------------------------------------------------------------- starting and campaigning

  /** The actions by which a stopped service acquires leadership. */
  function Acquire(i: nat): seq<Action> {
    [Start(i)] + (Go(i) + Go(i))
  }

  function Started(m: Node): Node {
    m.(running := true, state := CAMPAIGNING, campaign := Granting(true, None))
  }

  lemma StartPhase(s: System, i: nat)
    requires i in s.nodes && Quiet(s.nodes[i])
    ensures Becomes(s, Run(s, [Start(i)]), i, Started(s.nodes[i]), s.etcd)
  {
    RunOf1(s, Start(i));
  }

  /** With the leader key absent, a service that is started becomes the leader. */
  lemma AcquireWorks(s: System, i: nat)
    requires i in s.nodes && Quiet(s.nodes[i]) && s.etcd.key == None
    ensures
      var t, l := Run(s, Acquire(i)), s.etcd.nextLease;
      && Becomes(s, t, i, Leading(Started(s.nodes[i]), l, s.etcd.now).(campaign := NotifyingAcquired(true)),
                 WithLease(s.etcd, s.nodes[i].ttl).(key := Some(LeaderRecord(s.nodes[i].instanceId, l))))
      && t.nodes[i].isLeader && t.nodes[i].running && t.nodes[i].lease == Some(l)
  {
    RunsOn(s, [Start(i)], Go(i) + Go(i));
    StartPhase(s, i);
    AttemptWins(Run(s, [Start(i)]), i, true);
  }

  /** With the key taken it goes to standby, its unused lease revoked, and will campaign. */
  lemma StartBehindLeader(s: System, i: nat)
    requires Valid(s.etcd) && i in s.nodes && Quiet(s.nodes[i]) && s.etcd.key.Some?
    ensures Becomes(s, Run(s, [Start(i)] + (Go(i) + Go(i) + Go(i))), i,
                    Started(s.nodes[i]).(state := STANDBY, campaign := CampaignLoop),
                    s.etcd.(nextLease := s.etcd.nextLease + 1))
  {
    RunsOn(s, [Start(i)], Go(i) + Go(i) + Go(i));
    StartPhase(s, i);
    AttemptLoses(Run(s, [Start(i)]), i, true);
  }

  /** A running service that does not lead and is at the head of its campaign loop. */
  predicate Campaigning(m: Node) {
    m.running && !m.isLeader && m.campaign == CampaignLoop
  }

  lemma CampaignPhase(s: System, i: nat)
    requires i in s.nodes && Campaigning(s.nodes[i])
    ensures Becomes(s, Run(s, [RunCampaign(i)]), i, s.nodes[i].(campaign := Granting(false, None)), s.etcd)
  {
    RunOf1(s, RunCampaign(i));
  }

  /** Whenever the leader key is gone, a standby takes over at its next round. */
  lemma StandbyTakesOver(s: System, i: nat)
    requires i in s.nodes && Campaigning(s.nodes[i]) && s.etcd.key == None
    ensures
      var t, l := Run(s, [RunCampaign(i)] + (Go(i) + Go(i))), s.etcd.nextLease;
      && Becomes(s, t, i, Leading(s.nodes[i], l, s.etcd.now).(campaign := NotifyingAcquired(false)),
                 WithLease(s.etcd, s.nodes[i].ttl).(key := Some(LeaderRecord(s.nodes[i].instanceId, l))))
      && Honoured(t, i)
  {
    RunsOn(s, [RunCampaign(i)], Go(i) + Go(i));
    CampaignPhase(s, i);
    AttemptWins(Run(s, [RunCampaign(i)]), i, false);
  }

  /** While there is a leader, it stays on standby, its unused lease is revoked, and it will try again. */
  lemma StandbyStaysBehind(s: System, i: nat)
    requires Valid(s.etcd) && i in s.nodes && Campaigning(s.nodes[i]) && s.etcd.key.Some?
    ensures
      var t := Run(s, [RunCampaign(i)] + (Go(i) + Go(i) + Go(i)));
      && Becomes(s, t, i, s.nodes[i].(state := STANDBY), s.etcd.(nextLease := s.etcd.nextLease + 1))
      && Campaigning(t.nodes[i])
  {
    RunsOn(s, [RunCampaign(i)], Go(i) + Go(i) + Go(i));
    CampaignPhase(s, i);
    AttemptLoses(Run(s, [RunCampaign(i)]), i, false);
  }

  /** When its callbacks have been called, a new leader's campaign loop is there again. */
  lemma CallbacksEnd(s: System, i: nat)
    requires i in s.nodes && s.nodes[i].campaign.NotifyingAcquired?
    ensures Becomes(s, Run(s, [RunCampaign(i)]), i, s.nodes[i].(campaign := CampaignLoop), s.etcd)
  {
    RunOf1(s, RunCampaign(i));
  }

  // ---------------------------------------------------------------- keepalive

  /** A running leader under lease l whose keepalive loop is about to refresh it. */
  predicate Leads(m: Node, l: LeaseId) {
    m.running && m.isLeader && m.lease == Some(l) && m.keepalive == KeepaliveLoop
  }

  lemma RefreshSent(s: System, i: nat, l: LeaseId)
    requires i in s.nodes && Leads(s.nodes[i], l)
    ensures
      var t := Run(s, [RunKeepalive(i)]);
      Becomes(s, t, i, s.nodes[i].(keepalive := Refreshing(l, None)), s.etcd) && Refresh(l) in t.sent
  {
    RunOf1(s, RunKeepalive(i));
    assert Outstanding(s.nodes[i].(keepalive := Refreshing(l, None)), KeepaliveTask) == Some(Refresh(l));
  }

  lemma RefreshAnswered(s: System, i: nat, l: LeaseId)
    requires i in s.nodes && Leads(s.nodes[i], l)
    ensures
      var t := Run(s, [RunKeepalive(i), Answer(i, KeepaliveTask)]);
      if l in s.etcd.leases then
        var lease := Lease(s.etcd.leases[l].ttl, s.etcd.now + s.etcd.leases[l].ttl as real);
        Becomes(s, t, i, s.nodes[i].(keepalive := Refreshing(l, Some(Renewed))),
                s.etcd.(leases := s.etcd.leases[l := lease]))
      else Becomes(s, t, i, s.nodes[i].(keepalive := Refreshing(l, Some(LeaseGone))), s.etcd)
  {
    RunOf2(s, RunKeepalive(i), Answer(i, KeepaliveTask));
    RefreshSent(s, i, l);
    RunOf1(s, RunKeepalive(i));
    AnswerIs(Step(s, RunKeepalive(i)), i, KeepaliveTask);
  }

  /** One round of the keepalive loop gives a live lease its full time again and changes nothing else. */
  lemma KeepaliveRenews(s: System, i: nat, l: LeaseId)
    requires i in s.nodes && Leads(s.nodes[i], l) && l in s.etcd.leases
    ensures
      var ttl := s.etcd.leases[l].ttl;
      Becomes(s, Run(s, [RunKeepalive(i), Answer(i, KeepaliveTask)] + [RunKeepalive(i)]), i, s.nodes[i],
              s.etcd.(leases := s.etcd.leases[l := Lease(ttl, s.etcd.now + ttl as real)]))
  {
    RunsOn(s, [RunKeepalive(i), Answer(i, KeepaliveTask)], [RunKeepalive(i)]);
    RefreshAnswered(s, i, l);
    RunOf1(Run(s, [RunKeepalive(i), Answer(i, KeepaliveTask)]), RunKeepalive(i));
  }

  /** A connection error is ridden out: nothing changes, and a further refresh is sent. */
  lemma KeepaliveRidesOut(s: System, i: nat, l: LeaseId)
    requires i in s.nodes && Leads(s.nodes[i].(keepalive := KeepaliveLoop), l)
    requires s.nodes[i].keepalive == Refreshing(l, None)
    ensures
      var t := Run(s, [Fail(i, KeepaliveTask), RunKeepalive(i)] + [RunKeepalive(i)]);
      t.nodes == s.nodes && t.etcd == s.etcd && Refresh(l) in t.sent
  {
    RunsOn(s, [Fail(i, KeepaliveTask), RunKeepalive(i)], [RunKeepalive(i)]);
    RunOf2(s, Fail(i, KeepaliveTask), RunKeepalive(i));
    FailIs(s, i, KeepaliveTask);
    KeepaliveIs(Step(s, Fail(i, KeepaliveTask)), i);
    RefreshSent(Run(s, [Fail(i, KeepaliveTask), RunKeepalive(i)]), i, l);
  }

  /** A dead lease is found out: leadership is dropped with one round of lost callbacks. */
  lemma KeepaliveDrops(s: System, i: nat, l: LeaseId)
    requires i in s.nodes && Leads(s.nodes[i], l) && l !in s.etcd.leases
    ensures
      var t := Run(s, [RunKeepalive(i), Answer(i, KeepaliveTask)] + [RunKeepalive(i), RunKeepalive(i)]);
      Becomes(s, t, i, s.nodes[i].(isLeader := false, lease := None, acquiredAt := None, state := STANDBY,
                                   keepalive := NoKeepalive, rounds := s.nodes[i].rounds + [Lost(l)]), s.etcd)
  {
    RunsOn(s, [RunKeepalive(i), Answer(i, KeepaliveTask)], [RunKeepalive(i), RunKeepalive(i)]);
    RefreshAnswered(s, i, l);
    var found := Run(s, [RunKeepalive(i), Answer(i, KeepaliveTask)]);
    RunOf2(found, RunKeepalive(i), RunKeepalive(i));
    KeepaliveIs(found, i);
    KeepaliveIs(Step(found, RunKeepalive(i)), i);
  }

  /** A leader whose lease has died drops it and, with the key gone, leads again under a new one. */
  lemma LeadsAgain(s: System, i: nat, l: LeaseId)
    requires i in s.nodes && Leads(s.nodes[i], l) && s.nodes[i].campaign == CampaignLoop
    requires l !in s.etcd.leases && s.etcd.key == None
    ensures
      var drop := [RunKeepalive(i), Answer(i, KeepaliveTask)] + [RunKeepalive(i), RunKeepalive(i)];
      var t, l' := Run(s, drop + ([RunCampaign(i)] + (Go(i) + Go(i)))), s.etcd.nextLease;
      Honoured(t, i) && Leads(t.nodes[i], l') && t.nodes[i].rounds == s.nodes[i].rounds + [Lost(l), Acquired(l')]
  {
    var drop := [RunKeepalive(i), Answer(i, KeepaliveTask)] + [RunKeepalive(i), RunKeepalive(i)];
    RunsOn(s, drop, [RunCampaign(i)] + (Go(i) + Go(i)));
    KeepaliveDrops(s, i, l);
    var dropped := Run(s, drop);
    assert Campaigning(dropped.nodes[i]) && dropped.etcd.key == None;
    StandbyTakesOver(dropped, i);
  }

  // ---------------------------------------------------------------- releasing

  /** The actions by which a leader stops, its release call answered. */
  function StopAndRelease(i: nat): seq<Action> {
    [CallStop(i), RunStop(i)] + [RunStop(i), Answer(i, StopTask)] + [RunStop(i), RunStop(i)]
  }

  lemma StopCalled(s: System, i: nat)
    requires i in s.nodes && !Starting(s.nodes[i])
    ensures Becomes(s, Step(s, CallStop(i)), i, StopAsync(s.nodes[i]), s.etcd)
  {
  }

  lemma StopIs(s: System, i: nat)
    requires i in s.nodes
    ensures Becomes(s, Step(s, RunStop(i)), i, StopStep(s.nodes[i]), s.etcd)
  {
  }

  lemma StopPhase(s: System, i: nat, l: LeaseId)
    requires i in s.nodes && NodeInv(s.nodes[i]) && s.nodes[i].running && !Starting(s.nodes[i])
    requires s.nodes[i].lease == Some(l)
    ensures
      var m := s.nodes[i].(running := false, state := STOPPING, keepalive := NoKeepalive, campaign := NoCampaign,
                           stop := AwaitCampaign);
      Becomes(s, Run(s, [CallStop(i), RunStop(i)]), i, m, s.etcd)
  {
    RunOf2(s, CallStop(i), RunStop(i));
    StopCalled(s, i);
    StopIs(Step(s, CallStop(i)), i);
  }

  lemma ReleaseSent(s: System, i: nat, l: LeaseId)
    requires i in s.nodes && s.nodes[i].stop == AwaitCampaign && s.nodes[i].isLeader && s.nodes[i].lease == Some(l)
    ensures Becomes(s, Step(s, RunStop(i)), i, s.nodes[i].(stop := Releasing(l, None)), s.etcd)
  {
  }

  lemma ReleasePhase(s: System, i: nat, l: LeaseId)
    requires i in s.nodes && s.nodes[i].stop == AwaitCampaign && s.nodes[i].isLeader && s.nodes[i].lease == Some(l)
    ensures
      var t := Run(s, [RunStop(i), Answer(i, StopTask)]);
      && i in t.nodes && t.nodes[i].stop.Releasing? && t.nodes[i].stop.reply.Some?
      && Becomes(s, t, i, s.nodes[i].(stop := t.nodes[i].stop),
                 s.etcd.(leases := s.etcd.leases - {l},
                         key := if l in s.etcd.leases && s.etcd.key.Some? && s.etcd.key.value.lease == l
                                then None else s.etcd.key))
  {
    RunOf2(s, RunStop(i), Answer(i, StopTask));
    ReleaseSent(s, i, l);
    AnswerIs(Step(s, RunStop(i)), i, StopTask);
    if l !in s.etcd.leases {
      assert s.etcd.leases - {l} == s.etcd.leases;
    }
  }

  lemma FinishPhase(s: System, i: nat)
    requires i in s.nodes && NodeInv(s.nodes[i]) && s.nodes[i].isLeader && s.nodes[i].keepalive.NoKeepalive?
    requires s.nodes[i].stop.Releasing? && s.nodes[i].stop.reply.Some?
    ensures
      var m := s.nodes[i];
      Becomes(s, Run(s, [RunStop(i), RunStop(i)]), i,
              m.(isLeader := false, lease := None, acquiredAt := None, state := STOPPED, stop := NotStopping,
                 rounds := m.rounds + [Lost(m.lease.value)]), s.etcd)
  {
    RunOf2(s, RunStop(i), RunStop(i));
    StopIs(s, i);
    StopIs(Step(s, RunStop(i)), i);
  }

  /** A leader that stops with its release answered leaves neither its lease nor its key behind. */
  lemma StopReleases(s: System, i: nat, l: LeaseId)
    requires Inv(s) && i in s.nodes && s.nodes[i].running && s.nodes[i].lease == Some(l)
    requires s.nodes[i].campaign.CampaignLoop? || s.nodes[i].campaign == NotifyingAcquired(false)
    ensures
      var t := Run(s, StopAndRelease(i));
      && i in t.nodes && Quiet(t.nodes[i]) && t.nodes[i].rounds == s.nodes[i].rounds + [Lost(l)]
      && (forall j :: j in s.nodes && j != i ==> j in t.nodes && t.nodes[j] == s.nodes[j])
      && t.etcd.leases == s.etcd.leases - {l} && (l in s.etcd.leases ==> t.etcd.key == None)
  {
    var a, b, c := [CallStop(i), RunStop(i)], [RunStop(i), Answer(i, StopTask)], [RunStop(i), RunStop(i)];
    RunsOn(s, a + b, c);
    RunsOn(s, a, b);
    RunKeeps(s, a + b);
    assert NodeOk(s.etcd, s.nodes[i]);
    assert Won(s.nodes[i], l);
    StopPhase(s, i, l);
    ReleasePhase(Run(s, a), i, l);
    assert NodeOk(Run(s, a + b).etcd, Run(s, a + b).nodes[i]);
    FinishPhase(Run(s, a + b), i);
  }

  /** However a release is reached, once answered its lease is gone for good, and the key is not its. */
  lemma ReleaseIsFinal(s: System, i: nat, future: seq<Action>)
    requires Inv(s) && i in s.nodes && s.nodes[i].stop.Releasing? && s.nodes[i].stop.reply == None
    ensures
      var l, t := s.nodes[i].stop.lease, Run(Step(s, Answer(i, StopTask)), future);
      l !in t.etcd.leases && (t.etcd.key.Some? ==> t.etcd.key.value.lease != l)
  {
    var l, u := s.nodes[i].stop.lease, Step(s, Answer(i, StopTask));
    assert NodeOk(s.etcd, s.nodes[i]) && l in Claims(s.nodes[i]);
    StepKeeps(s, Answer(i, StopTask));
    StepFollows(s, Answer(i, StopTask));
    RenewalIsOld(u, future, i, l);
    RunKeeps(u, future);
  }

  /** A put whose answer never arrives may still make its service the one the key names, without its knowing. */
  lemma PutUnseen(s: System, id: string, l: LeaseId)
    requires PutIfAbsent(id, l) in s.sent && s.etcd.key == None && l in s.etcd.leases
    ensures
      var t := Run(s, [ExecuteUnseen(PutIfAbsent(id, l))]);
      t.nodes == s.nodes && t.etcd == s.etcd.(key := Some(LeaderRecord(id, l)))
  {
    RunOf1(s, ExecuteUnseen(PutIfAbsent(id, l)));
  }

  // ---------------------------------------------------------------- belief alone

  /** Once its lease has run out, etcd forgets the lease and the key bound to it; no service notices. */
  lemma LeaseRunsOut(s: System, l: LeaseId, seconds: real)
    requires seconds >= 0.0 && l in s.etcd.leases && s.etcd.leases[l].expiry <= s.etcd.now + seconds
    requires s.etcd.key.Some? && s.etcd.key.value.lease == l
    ensures
      var t := Run(s, [Tick(seconds), ExpireLease(l)]);
      t.nodes == s.nodes && t.etcd.key == None && l !in t.etcd.leases && t.etcd.nextLease == s.etcd.nextLease
  {
    RunOf2(s, Tick(seconds), ExpireLease(l));
  }

  /**
    `is_leader` by itself is not exclusive: service 0 leads, stays cut off until its lease
    ends, service 1 takes over, and both answer true.
   */
  lemma BeliefIsNotExclusive(s: System) returns (actions: seq<Action>)
    requires Initial(s) && s.nodes.Keys == {0, 1} && s.nodes[0].ttl >= 0
    ensures
      var t := Run(s, actions);
      0 in t.nodes && 1 in t.nodes && t.nodes[0].isLeader && t.nodes[1].isLeader && !Honoured(t, 0) && Honoured(t, 1)
  {
    AcquireWorks(s, 0);
    var s1 := Run(s, Acquire(0));
    var seconds := s.nodes[0].ttl as real;
    var wait := [Tick(seconds), ExpireLease(0)];
    LeaseRunsOut(s1, 0, seconds);
    RunsOn(s, Acquire(0), wait);
    AcquireWorks(Run(s1, wait), 1);
    RunsOn(s, Acquire(0) + wait, Acquire(1));
    actions := Acquire(0) + wait + Acquire(1);
  }

  // ---------------------------------------------------------------- a renewal outlived by its lease

  /** A reachable state in which that happens: etcd renews, and the lease runs out before the answer is seen. */
  lemma StaleRenewal(s: System) returns (past: seq<Action>)
    requires Initial(s) && 0 in s.nodes && s.nodes[0].ttl >= 0
    ensures
      var t := Run(s, past);
      && 0 in t.nodes && t.nodes[0].lease == Some(0) && 0 !in t.etcd.leases
      && t.nodes[0].keepalive == Refreshing(0, Some(Renewed))
      && exists future :: Survivals(t, future, 0, 0) == 1
  {
    AcquireWorks(s, 0);
    var s1 := Run(s, Acquire(0));
    var refresh := [RunKeepalive(0), Answer(0, KeepaliveTask)];
    RefreshAnswered(s1, 0, 0);
    RunsOn(s, Acquire(0), refresh);
    var wait := [Tick(s.nodes[0].ttl as real), ExpireLease(0)];
    LeaseRunsOut(Run(s1, refresh), 0, s.nodes[0].ttl as real);
    RunsOn(s, Acquire(0) + refresh, wait);
    past := Acquire(0) + refresh + wait;
    SurvivedIff(s, past, 0, 0);
  }
}
