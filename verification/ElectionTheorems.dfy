/** What leader election guarantees over every run of every set of services. */
module ElectionTheorems {
  import opened Wrappers
  import opened EtcdLeases
  import opened ElectionNode
  import opened ElectionSystem

  // ---------------------------------------------------------------- runs in parts

  lemma Extend(s: System, actions: seq<Action>, a: Action)
    ensures Run(s, actions + [a]) == Step(Run(s, actions), a)
  {
    assert (actions + [a])[..|actions|] == actions;
  }

  lemma RunsOn(s: System, a: seq<Action>, b: seq<Action>)
    ensures Run(s, a + b) == Run(Run(s, a), b)
    decreases |b|
  {
    if b == [] {
      assert a + b == a;
    } else {
      var c := b[..|b| - 1];
      assert a + b == (a + c) + [b[|b| - 1]];
      Extend(s, a + c, b[|b| - 1]);
      RunsOn(s, a, c);
    }
  }

  lemma Prepend(s: System, a: Action, actions: seq<Action>)
    ensures Run(s, [a] + actions) == Run(Step(s, a), actions)
  {
    assert [] + [a] == [a];
    Extend(s, [], a);
    RunsOn(s, [a], actions);
  }

  // ---------------------------------------------------------------- one leader

  ghost predicate Honoured(s: System, i: nat) {
    i in s.nodes && s.nodes[i].isLeader && s.nodes[i].lease.Some? && s.nodes[i].lease.value in s.etcd.leases
  }

  /**
    At most one service both believes to lead and holds a lease etcd honours; it is the
    one the leader key names, so every other believer holds a dead lease.
   */
  lemma ExclusiveLeader(s: System, actions: seq<Action>, i: nat, j: nat)
    requires Initial(s)
    requires Honoured(Run(s, actions), i)
    ensures
      var t := Run(s, actions);
      && t.etcd.key == Some(LeaderRecord(t.nodes[i].instanceId, t.nodes[i].lease.value))
      && (j in t.nodes && j != i && t.nodes[j].isLeader ==> t.nodes[j].lease.Some? && !Honoured(t, j))
  {
    InitialInv(s);
    RunKeeps(s, actions);
    var t := Run(s, actions);
    assert NodeOk(t.etcd, t.nodes[i]) && Won(t.nodes[i], t.nodes[i].lease.value);
    if j in t.nodes && j != i && t.nodes[j].isLeader {
      assert NodeOk(t.etcd, t.nodes[j]);
      var l := t.nodes[j].lease.value;
      assert l in Claims(t.nodes[j]) && t.nodes[i].lease.value in Claims(t.nodes[i]);
      if l in t.etcd.leases {
        assert Won(t.nodes[j], l);
        assert false;
      }
    }
  }

  // ---------------------------------------------------------------- rounds of callbacks

  /** Whether the action is one of the node itself. */
  predicate Own(a: Action, i: nat) {
    !a.Tick? && !a.ExpireLease? && !a.ExecuteUnseen? && a.node == i
  }

  lemma OthersLeaveAlone(s: System, a: Action, i: nat)
    requires i in s.nodes && !Own(a, i)
    ensures i in Step(s, a).nodes && Step(s, a).nodes[i] == s.nodes[i]
  {
  }

  /** The three things that can happen to a node's belief in one step. */
  ghost predicate OneTransition(m: Node, m': Node) {
    || (m'.isLeader == m.isLeader && m'.lease == m.lease && m'.rounds == m.rounds)
    || (!m.isLeader && m'.isLeader && m'.lease.Some? && m'.rounds == m.rounds + [Acquired(m'.lease.value)])
    || (m.isLeader && !m'.isLeader && m.lease.Some? && m'.lease == None
          && m'.rounds == m.rounds + [Lost(m.lease.value)])
  }

  /**
    Whatever happens next in whatever run, a node's belief changes only together with
    exactly one round of the matching callbacks, and those rounds strictly alternate.
   */
  lemma TransitionsAlternate(s: System, actions: seq<Action>, a: Action, i: nat)
    requires Initial(s) && i in Run(s, actions).nodes
    ensures
      var t := Run(s, actions);
      var t' := Step(t, a);
      && i in t'.nodes
      && OneTransition(t.nodes[i], t'.nodes[i])
      && Alternating(t'.nodes[i].rounds)
      && (t'.nodes[i].isLeader <==> |t'.nodes[i].rounds| % 2 == 1)
  {
    InitialInv(s);
    RunKeeps(s, actions);
    var t := Run(s, actions);
    StepKeeps(t, a);
    assert NodeOk(t.etcd, t.nodes[i]);
    assert NodeOk(Step(t, a).etcd, Step(t, a).nodes[i]);
    NodeInvTransition(t, a, i);
  }

  lemma NodeInvTransition(t: System, a: Action, i: nat)
    requires i in t.nodes && NodeInv(t.nodes[i])
    ensures i in Step(t, a).nodes && OneTransition(t.nodes[i], Step(t, a).nodes[i])
  {
    if Own(a, i) {
      OwnTransition(t, a, i);
    } else {
      OthersLeaveAlone(t, a, i);
    }
  }

  lemma OwnTransition(t: System, a: Action, i: nat)
    requires i in t.nodes && NodeInv(t.nodes[i]) && Own(a, i)
    ensures i in Step(t, a).nodes && OneTransition(t.nodes[i], Step(t, a).nodes[i])
  {
  }

  /** A running leader always has a keepalive loop that is still maintaining its lease. */
  lemma RunningLeaderIsMaintained(s: System, actions: seq<Action>, i: nat)
    requires Initial(s) && i in Run(s, actions).nodes
    ensures
      var m := Run(s, actions).nodes[i];
      m.running && m.isLeader ==> m.state == LEADER && (m.keepalive.KeepaliveLoop? || m.keepalive.Refreshing?)
  {
    InitialInv(s);
    RunKeeps(s, actions);
    assert NodeOk(Run(s, actions).etcd, Run(s, actions).nodes[i]);
  }

  // ---------------------------------------------------------------- dead leases

  ghost predicate Dead(e: Store, l: LeaseId) {
    l < e.nextLease && l !in e.leases
  }

  /** No answer telling the node that the dead lease was renewed is on its way to it. */
  ghost predicate NoStaleRenewal(m: Node, l: LeaseId) {
    m.lease == Some(l) && m.keepalive.Refreshing? ==> m.keepalive.reply != Some(Renewed)
  }

  lemma StepFollows(s: System, a: Action)
    requires Inv(s)
    ensures Follows(s.etcd, Step(s, a).etcd)
  {
    match a
    case Tick(_) =>
    case ExpireLease(l) => ExpireFollows(s.etcd, l);
    case ExecuteUnseen(r) => ServeFollows(s.etcd, r);
    case Answer(i, t) =>
      if i in s.nodes && Outstanding(s.nodes[i], t).Some? {
        ServeFollows(s.etcd, Outstanding(s.nodes[i], t).value);
      }
    case _ =>
  }

  lemma DeadStepKeeps(s: System, a: Action, i: nat, l: LeaseId)
    requires Inv(s) && i in s.nodes && Dead(s.etcd, l) && NoStaleRenewal(s.nodes[i], l)
    ensures i in Step(s, a).nodes && Dead(Step(s, a).etcd, l) && NoStaleRenewal(Step(s, a).nodes[i], l)
  {
    StepFollows(s, a);
    assert NodeOk(s.etcd, s.nodes[i]);
    if Own(a, i) {
      DeadOwnStep(s, a, i, l);
    } else {
      OthersLeaveAlone(s, a, i);
    }
  }

  lemma DeadOwnStep(s: System, a: Action, i: nat, l: LeaseId)
    requires i in s.nodes && NodeInv(s.nodes[i]) && l !in s.etcd.leases && NoStaleRenewal(s.nodes[i], l)
    requires Own(a, i)
    ensures i in Step(s, a).nodes && NoStaleRenewal(Step(s, a).nodes[i], l)
  {
  }

  /** The keepalive loop is about to go on from a refresh of the lease that got an answer from etcd. */
  predicate Answered(m: Node, l: LeaseId) {
    && m.lease == Some(l) && m.keepalive.Refreshing?
    && m.keepalive.reply.Some? && m.keepalive.reply != Some(ConnectionError)
  }

  /** Going on, the service keeps believing. */
  predicate Survives(t: System, a: Action, i: nat, l: LeaseId) {
    && i in t.nodes && a == RunKeepalive(i) && Answered(t.nodes[i], l)
    && i in Step(t, a).nodes && Step(t, a).nodes[i].lease == Some(l)
  }

  function Survivals(t: System, future: seq<Action>, i: nat, l: LeaseId): nat
    decreases |future|
  {
    if future == [] then 0
    else (if Survives(t, future[0], i, l) then 1 else 0) + Survivals(Step(t, future[0]), future[1..], i, l)
  }

  lemma AnsweredStep(t: System, a: Action, i: nat, l: LeaseId)
    requires i in t.nodes && NodeInv(t.nodes[i])
    ensures i in Step(t, a).nodes
    ensures !NoStaleRenewal(t.nodes[i], l) ==>
      if a == RunKeepalive(i) then NoStaleRenewal(Step(t, a).nodes[i], l)
      else NoStaleRenewal(Step(t, a).nodes[i], l) || Step(t, a).nodes[i].keepalive == t.nodes[i].keepalive
    ensures Survives(t, a, i, l) ==> !NoStaleRenewal(t.nodes[i], l)
  {
    if !Own(a, i) {
      OthersLeaveAlone(t, a, i);
    }
  }

  lemma {:induction false} SurvivedOnce(t: System, future: seq<Action>, i: nat, l: LeaseId)
    requires Inv(t) && i in t.nodes && Dead(t.etcd, l)
    ensures Survivals(t, future, i, l) <= if NoStaleRenewal(t.nodes[i], l) then 0 else 1
    decreases |future|
  {
    if future != [] {
      var a := future[0];
      assert NodeOk(t.etcd, t.nodes[i]);
      StepKeeps(t, a);
      StepFollows(t, a);
      AnsweredStep(t, a, i, l);
      if NoStaleRenewal(t.nodes[i], l) {
        DeadStepKeeps(t, a, i, l);
      }
      SurvivedOnce(Step(t, a), future[1..], i, l);
    }
  }

  /** A renewal seen after the lease has died was on its way already. */
  lemma {:induction false} RenewalIsOld(t: System, future: seq<Action>, i: nat, l: LeaseId)
    requires Inv(t) && i in t.nodes && Dead(t.etcd, l)
    ensures i in Run(t, future).nodes && Dead(Run(t, future).etcd, l)
    ensures
      var m := Run(t, future).nodes[i];
      NoStaleRenewal(m, l) || m.keepalive == t.nodes[i].keepalive
    decreases |future|
  {
    if future != [] {
      var before, a := future[..|future| - 1], future[|future| - 1];
      var u := Run(t, before);
      RenewalIsOld(t, before, i, l);
      RunKeeps(t, before);
      assert NodeOk(u.etcd, u.nodes[i]);
      StepFollows(u, a);
      if NoStaleRenewal(u.nodes[i], l) {
        DeadStepKeeps(u, a, i, l);
      } else {
        AnsweredStep(u, a, i, l);
      }
    }
  }

  lemma AnswerDrops(t: System, i: nat, l: LeaseId)
    requires i in t.nodes && NodeInv(t.nodes[i]) && Answered(t.nodes[i], l)
    requires t.nodes[i].keepalive.reply != Some(Renewed)
    ensures
      var m, t' := t.nodes[i], Step(t, RunKeepalive(i));
      && i in t'.nodes
      && var m' := t'.nodes[i];
         !m'.isLeader && m'.lease == None && m'.state == STANDBY && m'.rounds == m.rounds + [Lost(l)]
  {
  }

  /**
    A service whose lease has died drops it, with one round of lost callbacks, at the
    first refresh that gets an answer, however the run goes on.  The one exception is a
    renewal that was on its way already when the lease died: that one answer, and no
    second one, is survived.
   */
  lemma DeadLeaseDropped(s: System, past: seq<Action>, future: seq<Action>, i: nat, l: LeaseId)
    requires Initial(s)
    requires i in Run(s, past).nodes && Run(s, past).nodes[i].lease == Some(l) && l !in Run(s, past).etcd.leases
    ensures
      var m0 := Run(s, past).nodes[i];
      var t := Run(Run(s, past), future);
      && i in t.nodes
      && l !in t.etcd.leases
      && (Answered(t.nodes[i], l) ==>
            if t.nodes[i].keepalive.reply == Some(Renewed) then t.nodes[i].keepalive == m0.keepalive
            else
              var m, m' := t.nodes[i], Step(t, RunKeepalive(i)).nodes[i];
              !m'.isLeader && m'.lease == None && m'.state == STANDBY && m'.rounds == m.rounds + [Lost(l)])
      && Survivals(Run(s, past), future, i, l) <= if m0.keepalive == Refreshing(l, Some(Renewed)) then 1 else 0
  {
    InitialInv(s);
    RunKeeps(s, past);
    var s0 := Run(s, past);
    assert NodeOk(s0.etcd, s0.nodes[i]) && l in Claims(s0.nodes[i]);
    RenewalIsOld(s0, future, i, l);
    SurvivedOnce(s0, future, i, l);
    RunKeeps(s0, future);
    var t := Run(s0, future);
    assert NodeOk(t.etcd, t.nodes[i]);
    if Answered(t.nodes[i], l) && t.nodes[i].keepalive.reply != Some(Renewed) {
      AnswerDrops(t, i, l);
    }
  }

  /** Believing survives some answered refresh of a dead lease exactly if a renewal was on its way already. */
  lemma SurvivedIff(s: System, past: seq<Action>, i: nat, l: LeaseId)
    requires Initial(s)
    requires i in Run(s, past).nodes && Run(s, past).nodes[i].lease == Some(l) && l !in Run(s, past).etcd.leases
    ensures (exists future :: Survivals(Run(s, past), future, i, l) == 1)
            <==> Run(s, past).nodes[i].keepalive == Refreshing(l, Some(Renewed))
  {
    var t := Run(s, past);
    if t.nodes[i].keepalive == Refreshing(l, Some(Renewed)) {
      var a := RunKeepalive(i);
      assert Survives(t, a, i, l);
      assert Survivals(t, [a], i, l) == 1 + Survivals(Step(t, a), [], i, l);
    } else {
      forall future
        ensures Survivals(t, future, i, l) != 1
      {
        DeadLeaseDropped(s, past, future, i, l);
      }
    }
  }

  // ---------------------------------------------------------------- stopping

  lemma StoppedIsQuiet(t: System, i: nat)
    requires Inv(t) && i in t.nodes && !t.nodes[i].running && t.nodes[i].stop.NotStopping?
    ensures Quiet(t.nodes[i])
  {
    assert NodeOk(t.etcd, t.nodes[i]);
  }

  /** A stopped service is quiet, and stays so through everything but a new start. */
  lemma StoppedStaysQuiet(s: System, actions: seq<Action>, a: Action, i: nat)
    requires Initial(s) && i in Run(s, actions).nodes
    requires !Run(s, actions).nodes[i].running && Run(s, actions).nodes[i].stop.NotStopping?
    ensures Quiet(Run(s, actions).nodes[i])
    ensures
      var t, t' := Run(s, actions), Step(Run(s, actions), a);
      a != Start(i) ==> i in t'.nodes && t'.nodes[i] == t.nodes[i]
  {
    InitialInv(s);
    RunKeeps(s, actions);
    var t := Run(s, actions);
    StoppedIsQuiet(t, i);
    if a != Start(i) {
      QuietStays(t, a, i);
    }
  }

  lemma QuietDoesNothing(t: System, a: Action, i: nat)
    requires i in t.nodes && Quiet(t.nodes[i]) && Own(a, i) && a != Start(i)
    ensures i in Step(t, a).nodes && Step(t, a).nodes[i] == t.nodes[i]
  {
  }

  lemma QuietStays(t: System, a: Action, i: nat)
    requires i in t.nodes && Quiet(t.nodes[i]) && a != Start(i)
    ensures i in Step(t, a).nodes && Step(t, a).nodes[i] == t.nodes[i]
  {
    if Own(a, i) {
      QuietDoesNothing(t, a, i);
    } else {
      OthersLeaveAlone(t, a, i);
    }
  }

  /** How many helping steps a call of `stop_async` can still take. */
  function StopRank(m: Node): (rank: nat)
    ensures rank <= 6
  {
    var k := if m.keepalive.NoKeepalive? then 0 else 1;
    match m.stop
    case NotStopping => 0
    case NotifyingReleased => 1
    case Releasing(_, Some(_)) => 2 + k
    case Releasing(_, None) => 3 + k
    case AwaitCampaign => 4 + k
    case AwaitKeepalive => 6
  }

  /** What `stop_async` can always be brought further by; a release call may fail. */
  function Awaited(m: Node, i: nat): Action {
    match m.stop
    case Releasing(_, None) => Fail(i, StopTask)
    case Releasing(_, Some(_)) => if m.keepalive.NoKeepalive? then RunStop(i) else RunKeepalive(i)
    case _ => RunStop(i)
  }

  /** The awaited step, or an answer to the release call instead of its failure. */
  predicate Helps(m: Node, a: Action, i: nat) {
    && !m.stop.NotStopping?
    && (a == Awaited(m, i) || (m.stop.Releasing? && m.stop.reply.None? && a == Answer(i, StopTask)))
  }

  lemma OwnStopMoves(s: System, a: Action, i: nat)
    requires i in s.nodes && NodeInv(s.nodes[i]) && !s.nodes[i].stop.NotStopping? && Own(a, i)
    ensures i in Step(s, a).nodes && StopRank(Step(s, a).nodes[i]) <= StopRank(s.nodes[i])
    ensures Helps(s.nodes[i], a, i) ==> StopRank(Step(s, a).nodes[i]) < StopRank(s.nodes[i])
    ensures !Step(s, a).nodes[i].running
  {
  }

  /** No interleaved action sets a stop back, and each helping one brings it closer to its end. */
  lemma StopMovesOn(s: System, a: Action, i: nat)
    requires Inv(s) && i in s.nodes && !s.nodes[i].stop.NotStopping?
    ensures i in Step(s, a).nodes && StopRank(Step(s, a).nodes[i]) <= StopRank(s.nodes[i])
    ensures Helps(s.nodes[i], a, i) ==> StopRank(Step(s, a).nodes[i]) < StopRank(s.nodes[i])
    ensures !Step(s, a).nodes[i].running
  {
    assert NodeOk(s.etcd, s.nodes[i]);
    if Own(a, i) {
      OwnStopMoves(s, a, i);
    } else {
      OthersLeaveAlone(s, a, i);
    }
  }

  /** Once quiet, a service stays as it is until it is started again. */
  lemma {:induction false} QuietUntilStart(t: System, more: seq<Action>, i: nat)
    requires i in t.nodes && Quiet(t.nodes[i]) && Start(i) !in more
    ensures i in Run(t, more).nodes && Run(t, more).nodes[i] == t.nodes[i]
    decreases |more|
  {
    if more != [] {
      var before, a := more[..|more| - 1], more[|more| - 1];
      assert a in more;
      QuietUntilStart(t, before, i);
      QuietStays(Run(t, before), a, i);
    }
  }

  /** How many of the actions to come help a stop of service i. */
  function Helping(t: System, future: seq<Action>, i: nat): nat
    decreases |future|
  {
    if future == [] then 0
    else
      (if i in t.nodes && Helps(t.nodes[i], future[0], i) then 1 else 0)
      + Helping(Step(t, future[0]), future[1..], i)
  }

  /** How many of them either help it or find it done. */
  function Served(t: System, future: seq<Action>, i: nat): nat
    decreases |future|
  {
    if future == [] then 0
    else
      (if i in t.nodes && (t.nodes[i].stop.NotStopping? || Helps(t.nodes[i], future[0], i)) then 1 else 0)
      + Served(Step(t, future[0]), future[1..], i)
  }

  /** A stop takes six helping steps at most. */
  lemma {:induction false} StopAbsorbs(t: System, future: seq<Action>, i: nat)
    requires Inv(t) && i in t.nodes && !t.nodes[i].running && Start(i) !in future
    ensures Helping(t, future, i) <= StopRank(t.nodes[i]) <= 6
    decreases |future|
  {
    assert NodeOk(t.etcd, t.nodes[i]);
    if future != [] {
      var a := future[0];
      StepKeeps(t, a);
      if t.nodes[i].stop.NotStopping? {
        QuietStays(t, a, i);
      } else {
        StopMovesOn(t, a, i);
      }
      StopAbsorbs(Step(t, a), future[1..], i);
    }
  }

  lemma StopEnds(t: System, future: seq<Action>, i: nat) returns (k: nat)
    requires Inv(t) && i in t.nodes && !t.nodes[i].running && Served(t, future, i) >= StopRank(t.nodes[i])
    ensures k <= |future| && i in Run(t, future[..k]).nodes && Quiet(Run(t, future[..k]).nodes[i])
    decreases |future|
  {
    assert NodeOk(t.etcd, t.nodes[i]);
    k := 0;
    if !t.nodes[i].stop.NotStopping? {
      var a := future[0];
      StopMovesOn(t, a, i);
      StepKeeps(t, a);
      k := StopEnds(Step(t, a), future[1..], i);
      assert future[..k + 1] == [a] + future[1..][..k];
      Prepend(t, a, future[1..][..k]);
      k := k + 1;
    }
  }

  /**
    However a run goes on from any reachable state in which `stop_async` is under way,
    even one that races with a pending acquisition, and whether its release call is
    answered or fails: once as many actions as the stop still can take, six at most, have
    either helped it or come when it was done, the service has been stopped with no flag,
    no lease and no loop that can act; and that is how it stays until a new start.
   */
  lemma StopCompletes(s: System, past: seq<Action>, future: seq<Action>, i: nat)
    requires Initial(s) && i in Run(s, past).nodes && !Run(s, past).nodes[i].stop.NotStopping?
    requires Served(Run(s, past), future, i) >= StopRank(Run(s, past).nodes[i])
    ensures
      var t := Run(s, past);
      && (exists k :: 0 <= k <= |future| && i in Run(t, future[..k]).nodes && Quiet(Run(t, future[..k]).nodes[i]))
      && (Start(i) !in future ==> i in Run(t, future).nodes && Quiet(Run(t, future).nodes[i]))
  {
    InitialInv(s);
    RunKeeps(s, past);
    var t := Run(s, past);
    assert NodeOk(t.etcd, t.nodes[i]);
    var k := StopEnds(t, future, i);
    if Start(i) !in future {
      RunsOn(t, future[..k], future[k..]);
      assert future == future[..k] + future[k..];
      QuietUntilStart(Run(t, future[..k]), future[k..], i);
    }
  }

  /** From each such state there is such a way on, without a new start, of any sufficient length. */
  lemma StopNeverStuck(t: System, i: nat, n: nat) returns (more: seq<Action>)
    requires Inv(t) && i in t.nodes && !t.nodes[i].running && n >= StopRank(t.nodes[i])
    ensures |more| == n == Served(t, more, i) && Start(i) !in more
    ensures i in Run(t, more).nodes && Quiet(Run(t, more).nodes[i])
    decreases n
  {
    assert NodeOk(t.etcd, t.nodes[i]);
    more := [];
    if n > 0 {
      var stopping := !t.nodes[i].stop.NotStopping?;
      var a := if stopping then Awaited(t.nodes[i], i) else Tick(0.0);
      if stopping {
        StopMovesOn(t, a, i);
      }
      StepKeeps(t, a);
      more := StopNeverStuck(Step(t, a), i, n - 1);
      Prepend(t, a, more);
      assert ([a] + more)[1..] == more;
      more := [a] + more;
    }
  }
}
