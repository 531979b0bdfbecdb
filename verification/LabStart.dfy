/**
  Starting a CML lab and polling it until it has converged, against whatever the lab
  service answers.  The executor bounds the polling from outside, so a run is any finite
  number of polls; `StillPolling` is a run in which nothing has been decided yet.
 */
module LabStart {
  import opened Wrappers

  const STARTED := "STARTED"
  const STOPPED := "STOPPED"
  const DEFINED_ON_CORE := "DEFINED_ON_CORE"
  const QUEUED := "QUEUED"

  /** An answer without a state: the lab does not exist on the worker. */
  datatype Reply = Unavailable | Reported(state: Option<string>)

  /** One round of the loop; the convergence check may fail instead of answering. */
  datatype Poll = Poll(cancelled: bool, reply: Reply, converged: Option<bool>)

  datatype Environment = Environment(
    labId: string,
    workerIp: string,
    initial: Reply,
    initialConverged: Option<bool>,
    cancelledBeforeStart: bool,
    startWorks: bool,
    polls: seq<Poll>)

  datatype Reason =
    | LabIdRequired
    | WorkerIpRequired
    | StateUnavailable
    | GhostLab
    | StartFailed
    | UnexpectedState(state: Option<string>)

  datatype Result = Completed(pollCount: nat) | Failed(reason: Reason) | Cancelled | StillPolling

  predicate Converged(check: Option<bool>) {
    check == Some(true)
  }

  predicate Up(reply: Reply, check: Option<bool>) {
    reply == Reported(Some(STARTED)) && Converged(check)
  }

  /** What ends the polling: cancellation, an unexpected state, or a converged lab. */
  predicate Decisive(p: Poll) {
    p.cancelled || Up(p.reply, p.converged)
    || (p.reply.Reported? && p.reply.state != Some(QUEUED) && p.reply.state != Some(STARTED))
  }

  function FirstDecisive(polls: seq<Poll>): (n: nat)
    ensures n <= |polls|
    ensures forall k :: 0 <= k < n ==> !Decisive(polls[k])
    ensures n < |polls| ==> Decisive(polls[n])
  {
    if polls == [] || Decisive(polls[0]) then 0 else 1 + FirstDecisive(polls[1..])
  }

  predicate Startable(reply: Reply) {
    reply == Reported(Some(STOPPED)) || reply == Reported(Some(DEFINED_ON_CORE))
  }

  /** The result as decided before any poll, if it is. */
  function Early(env: Environment): Option<Result> {
    if env.labId == "" then Some(Failed(LabIdRequired))
    else if env.workerIp == "" then Some(Failed(WorkerIpRequired))
    else if env.initial == Unavailable then Some(Failed(StateUnavailable))
    else if env.initial == Reported(None) then Some(Failed(GhostLab))
    else if Up(env.initial, env.initialConverged) then Some(Completed(0))
    else if Startable(env.initial) && env.cancelledBeforeStart then Some(Cancelled)
    else if Startable(env.initial) && !env.startWorks then Some(Failed(StartFailed))
    else None
  }

  /** The result as the first decisive poll fixes it. */
  function DecidedBy(polls: seq<Poll>): Result {
    var n := FirstDecisive(polls);
    if n == |polls| then StillPolling
    else if polls[n].cancelled then Cancelled
    else if Up(polls[n].reply, polls[n].converged) then Completed(n + 1)
    else Failed(UnexpectedState(polls[n].reply.state))
  }

  function Decided(env: Environment): Result {
    if Early(env).Some? then Early(env).value else DecidedBy(env.polls)
  }

  // ---------------------------------------------------------------- what a result means

  predicate Asks(env: Environment) {
    env.labId != "" && env.workerIp != ""
  }

  predicate MayStart(env: Environment) {
    env.initial.Reported? && (env.initial.state == Some(STOPPED) || env.initial.state == Some(DEFINED_ON_CORE))
  }

  /** Nothing is wrong, the lab has not converged yet, and it has been started if it had to be. */
  predicate Polls(env: Environment) {
    && Asks(env) && env.initial.Reported? && env.initial.state.Some?
    && (env.initial.state == Some(STARTED) ==> env.initialConverged != Some(true))
    && (MayStart(env) ==> !env.cancelledBeforeStart && env.startWorks)
  }

  /** Nothing can be told yet: no answer, queued, or started without a confirmed convergence. */
  predicate Waits(p: Poll) {
    && !p.cancelled
    && (p.reply.Reported? ==>
          p.reply.state == Some(QUEUED) || (p.reply.state == Some(STARTED) && p.converged != Some(true)))
  }

  /** What the k-th poll, reached with nothing decided, makes of the run. */
  ghost predicate FitsPoll(p: Poll, k: nat, result: Result) {
    && (p.cancelled ==> result == Cancelled)
    && (!p.cancelled && p.reply.Reported? ==>
          && (p.reply.state == Some(STARTED) && p.converged == Some(true) ==> result == Completed(k + 1))
          && (p.reply.state != Some(STARTED) && p.reply.state != Some(QUEUED) ==>
                result == Failed(UnexpectedState(p.reply.state))))
  }

  /** The result that fits what the environment answers. */
  ghost predicate Fits(env: Environment, result: Result) {
    && (env.labId == "" ==> result == Failed(LabIdRequired))
    && (env.labId != "" && env.workerIp == "" ==> result == Failed(WorkerIpRequired))
    && (Asks(env) ==>
          && (env.initial == Unavailable ==> result == Failed(StateUnavailable))
          && (env.initial == Reported(None) ==> result == Failed(GhostLab))
          && (env.initial == Reported(Some(STARTED)) && env.initialConverged == Some(true) ==> result == Completed(0))
          && (MayStart(env) && env.cancelledBeforeStart ==> result == Cancelled)
          && (MayStart(env) && !env.cancelledBeforeStart && !env.startWorks ==> result == Failed(StartFailed)))
    && (Polls(env) ==>
          && (forall k :: 0 <= k < |env.polls| && (forall j :: 0 <= j < k ==> Waits(env.polls[j])) ==>
                FitsPoll(env.polls[k], k, result))
          && ((forall j :: 0 <= j < |env.polls| ==> Waits(env.polls[j])) ==> result == StillPolling))
  }

  lemma DecisiveIff(p: Poll)
    ensures Decisive(p) <==> !Waits(p)
  {
  }

  /** The first decisive observation gives that result. */
  lemma DecidedFits(env: Environment)
    ensures Fits(env, Decided(env))
    ensures Early(env).None? <==> Polls(env)
  {
    if Polls(env) {
      var n := FirstDecisive(env.polls);
      forall k | 0 <= k < |env.polls|
        ensures Decisive(env.polls[k]) <==> !Waits(env.polls[k])
      {
        DecisiveIff(env.polls[k]);
      }
      forall k | 0 <= k < |env.polls| && (forall j :: 0 <= j < k ==> Waits(env.polls[j]))
        ensures FitsPoll(env.polls[k], k, Decided(env))
      {
        if Decisive(env.polls[k]) {
          assert k == n;
        }
      }
    }
  }

  /** A run is completed only by a lab that is started and confirmed to have converged. */
  ghost predicate Confirmed(env: Environment, pollCount: nat) {
    if pollCount == 0 then env.initial == Reported(Some(STARTED)) && env.initialConverged == Some(true)
    else
      && pollCount <= |env.polls| && env.polls[pollCount - 1].reply == Reported(Some(STARTED))
      && env.polls[pollCount - 1].converged == Some(true)
  }

  /** The percentages reported in the first n polls, none of them decisive. */
  function Reports(polls: seq<Poll>, n: nat): seq<int>
    requires n <= |polls|
  {
    if n == 0 then []
    else
      Reports(polls, n - 1)
      + match polls[n - 1].reply
        case Unavailable => []
        case Reported(state) => [if state == Some(QUEUED) then 20 else if 20 + n * 10 < 90 then 20 + n * 10 else 90]
  }

  lemma {:induction false} ReportsBelow(polls: seq<Poll>, n: nat)
    requires n <= |polls|
    ensures forall k :: 0 <= k < |Reports(polls, n)| ==> 0 < Reports(polls, n)[k] <= 90
  {
    if n > 0 {
      ReportsBelow(polls, n - 1);
    }
  }

  /** All percentages reported. */
  function Progress(env: Environment): seq<int> {
    if Early(env).Some? then
      if Early(env).value.Completed? then [100] else []
    else
      (if Startable(env.initial) then [10] else [])
      + Reports(env.polls, FirstDecisive(env.polls)) + (if Decided(env).Completed? then [100] else [])
  }

  lemma CompletionReported(env: Environment)
    ensures
      var progress, done := Progress(env), Decided(env).Completed?;
      && (100 in progress <==> done)
      && (done ==> progress != [] && progress[|progress| - 1] == 100)
      && (forall k :: 0 <= k < |progress| ==> 0 < progress[k] <= 90 || (k == |progress| - 1 && progress[k] == 100))
  {
    if Early(env).None? {
      var n := FirstDecisive(env.polls);
      var before := (if Startable(env.initial) then [10] else []) + Reports(env.polls, n);
      ReportsBelow(env.polls, n);
      assert forall k :: 0 <= k < |before| ==> 0 < before[k] <= 90;
      assert Progress(env) == before + if Decided(env).Completed? then [100] else [];
      if Decided(env).Completed? {
        assert Progress(env)[|before|] == 100;
      }
    } else if Decided(env).Completed? {
      assert Progress(env)[0] == 100;
    }
  }

  /** A started lab is reported in steps of ten up to 90, a queued one as 20, an unavailable one not at all. */
  lemma {:induction false} ReportsMean(polls: seq<Poll>, n: nat, reply: Reply)
    requires n <= |polls| && forall k :: 0 <= k < n ==> polls[k].reply == reply
    ensures reply == Unavailable ==> Reports(polls, n) == []
    ensures reply.Reported? ==> |Reports(polls, n)| == n
    ensures reply == Reported(Some(QUEUED)) ==> forall k :: 0 <= k < n ==> Reports(polls, n)[k] == 20
    ensures reply == Reported(Some(STARTED)) ==>
      forall k :: 0 <= k < n ==> Reports(polls, n)[k] == if k <= 6 then 30 + k * 10 else 90
  {
    if n > 0 {
      ReportsMean(polls, n - 1, reply);
    }
  }

  lemma OnlyConfirmedCompletes(env: Environment)
    ensures Decided(env).Completed? ==> Confirmed(env, Decided(env).pollCount)
  {
  }

  /**
    Runs the scenario.  `seen` are the lab states asked for, in order, `starts` the states
    in which `start_lab` was called, `progress` the percentages reported.
   */
  method Execute(env: Environment) returns (result: Result, seen: seq<Reply>, starts: seq<Reply>, progress: seq<int>)
    ensures Fits(env, result)
    ensures result.Completed? ==> Confirmed(env, result.pollCount)
    ensures result.Completed? ==>
      seen != [] && seen[|seen| - 1] == Reported(Some(STARTED)) && result.pollCount == |seen| - 1
    ensures Early(env).None? ==>
      var n := FirstDecisive(env.polls);
      |seen| == 1 + n + if n < |env.polls| && !env.polls[n].cancelled then 1 else 0
    ensures |seen| <= |env.polls| + 1
    ensures forall k :: 1 <= k < |seen| ==> seen[k] == env.polls[k - 1].reply
    ensures starts == [] || (starts == [env.initial] && MayStart(env))
    ensures starts != [] <==> Asks(env) && MayStart(env) && !env.cancelledBeforeStart
    ensures progress == Progress(env)
    ensures 100 in progress <==> result.Completed?
    ensures result.Completed? ==> progress != [] && progress[|progress| - 1] == 100
    ensures forall k :: 0 <= k < |progress| ==> 0 < progress[k] <= 90 || (k == |progress| - 1 && progress[k] == 100)
  {
    result, seen, starts, progress := Perform(env);
    DecidedFits(env);
    OnlyConfirmedCompletes(env);
    CompletionReported(env);
  }

  method Perform(env: Environment) returns (result: Result, seen: seq<Reply>, starts: seq<Reply>, progress: seq<int>)
    ensures result == Decided(env) && progress == Progress(env)
    ensures Early(env).None? ==>
      var n := FirstDecisive(env.polls);
      |seen| == 1 + n + if n < |env.polls| && !env.polls[n].cancelled then 1 else 0
    ensures result.Completed? ==> |seen| == result.pollCount + 1 && seen[result.pollCount] == Reported(Some(STARTED))
    ensures |seen| <= |env.polls| + 1
    ensures forall k :: 1 <= k < |seen| ==> seen[k] == env.polls[k - 1].reply
    ensures starts
            == if Asks(env) && Startable(env.initial) && !env.cancelledBeforeStart then [env.initial] else []
  {
    seen, starts, progress := [], [], [];
    if env.labId == "" {
      return Failed(LabIdRequired), seen, starts, progress;
    }
    if env.workerIp == "" {
      return Failed(WorkerIpRequired), seen, starts, progress;
    }
    seen := [env.initial];
    if env.initial == Unavailable {
      return Failed(StateUnavailable), seen, starts, progress;
    }
    if env.initial == Reported(None) {
      return Failed(GhostLab), seen, starts, progress;
    }
    if env.initial == Reported(Some(STARTED)) && Converged(env.initialConverged) {
      return Completed(0), seen, starts, [100];
    }
    if Startable(env.initial) {
      if env.cancelledBeforeStart {
        return Cancelled, seen, starts, progress;
      }
      starts := [env.initial];
      if !env.startWorks {
        return Failed(StartFailed), seen, starts, progress;
      }
      progress := [10];
    }
    var replies, reports;
    result, replies, reports := PollUntilDecided(env.polls);
    seen := seen + replies;
    progress := progress + reports;
    assert progress == Progress(env);
  }

  /** The polling loop. */
  method PollUntilDecided(polls: seq<Poll>) returns (result: Result, seen: seq<Reply>, progress: seq<int>)
    ensures result == DecidedBy(polls)
    ensures
      var n := FirstDecisive(polls);
      && progress == Reports(polls, n) + (if result.Completed? then [100] else [])
      && |seen| == n + if n < |polls| && !polls[n].cancelled then 1 else 0
    ensures forall k :: 0 <= k < |seen| ==> seen[k] == polls[k].reply
  {
    seen, progress := [], [];
    var pollCount := 0;
    while pollCount < |polls|
      invariant pollCount <= FirstDecisive(polls)
      invariant |seen| == pollCount
      invariant forall k :: 0 <= k < |seen| ==> seen[k] == polls[k].reply
      invariant progress == Reports(polls, pollCount)
    {
      var poll := polls[pollCount];
      if poll.cancelled {
        return Cancelled, seen, progress;
      }
      pollCount := pollCount + 1;
      seen := seen + [poll.reply];
      match poll.reply
      case Unavailable =>
        assert progress + [] == progress;
      case Reported(state) =>
        if state == Some(QUEUED) {
          progress := progress + [20];
        } else if state != Some(STARTED) {
          return Failed(UnexpectedState(state)), seen, progress;
        } else if Converged(poll.converged) {
          return Completed(pollCount), seen, progress + [100];
        } else {
          progress := progress + [if 20 + pollCount * 10 < 90 then 20 + pollCount * 10 else 90];
        }
    }
    return StillPolling, seen, progress;
  }

  lemma {:induction false} FirstDecisiveStays(polls: seq<Poll>, more: seq<Poll>)
    ensures FirstDecisive(polls) < |polls| ==> FirstDecisive(polls + more) == FirstDecisive(polls)
    ensures FirstDecisive(polls) == |polls| ==> FirstDecisive(polls + more) == |polls| + FirstDecisive(more)
  {
    if polls == [] {
      assert polls + more == more;
    } else {
      assert (polls + more)[1..] == polls[1..] + more;
      FirstDecisiveStays(polls[1..], more);
    }
  }

  /** Once decided, nothing the environment would do later changes the result. */
  lemma DecisionIsFinal(env: Environment, more: seq<Poll>)
    ensures Decided(env) != StillPolling ==> Decided(env.(polls := env.polls + more)) == Decided(env)
    ensures Decided(env) == StillPolling && more != [] && Decisive(more[0]) ==>
      Decided(env.(polls := env.polls + more)) != StillPolling
  {
    FirstDecisiveStays(env.polls, more);
  }
}
