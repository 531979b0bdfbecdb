/**
  Retrying on optimistic-concurrency conflicts: the decorator's loop, and any number of
  decorated read-modify-write operations, each reloading the record inside the call, on
  one versioned record.  The repository refuses a write whose version has moved on.
 */
module OptimisticRetry {

  // ---------------------------------------------------------------- the decorator's loop

  /** What one call of the decorated operation does. */
  datatype Attempt<T> = Returns(value: T) | Conflicts | Raises

  /** `NothingToRaise`: no attempt was allowed, so there is no exception to re-raise. */
  datatype Outcome<T> = Returned(value: T) | ConflictRaised | OtherRaised | NothingToRaise

  /** The number of conflicts before the first attempt that ends otherwise. */
  function LeadingConflicts<T>(attempts: seq<Attempt<T>>): (n: nat)
    ensures n <= |attempts|
    ensures forall k :: 0 <= k < n ==> attempts[k].Conflicts?
    ensures n < |attempts| ==> !attempts[n].Conflicts?
  {
    if attempts == [] || !attempts[0].Conflicts? then 0 else 1 + LeadingConflicts(attempts[1..])
  }

  /** The k-th delay: the initial one, multiplied k times. */
  function Delay(initial: real, factor: real, k: nat): real {
    if k == 0 then initial else Delay(initial, factor, k - 1) * factor
  }

  function Power(b: real, e: nat): real {
    if e == 0 then 1.0 else b * Power(b, e - 1)
  }

  lemma {:induction false} DelayIsGeometric(initial: real, factor: real, k: nat)
    ensures Delay(initial, factor, k) == initial * Power(factor, k)
  {
    if k > 0 {
      DelayIsGeometric(initial, factor, k - 1);
      var p := Power(factor, k - 1);
      assert (initial * p) * factor == initial * (factor * p);
    }
  }

  /**
    The result is that of the first attempt that does not conflict; the conflict itself
    is raised only when all allowed attempts conflict.  One sleep precedes every attempt
    but the first, each `backoffFactor` times the one before.
   */
  method Retry<T>(maxAttempts: int, initialDelay: real, backoffFactor: real, attempts: seq<Attempt<T>>)
      returns (outcome: Outcome<T>, sleeps: seq<real>)
    requires maxAttempts <= |attempts|
    ensures maxAttempts <= 0 ==> outcome == NothingToRaise && sleeps == []
    ensures maxAttempts > 0 ==>
      var n := LeadingConflicts(attempts);
      if n >= maxAttempts then outcome == ConflictRaised && |sleeps| == maxAttempts - 1
      else |sleeps| == n && outcome == if attempts[n].Returns? then Returned(attempts[n].value) else OtherRaised
    ensures forall k :: 0 <= k < |sleeps| ==> sleeps[k] == Delay(initialDelay, backoffFactor, k)
  {
    sleeps := [];
    var delay := initialDelay;
    var attempt := 1;
    while attempt <= maxAttempts
      invariant attempt == 1 || 1 <= attempt <= maxAttempts
      invariant |sleeps| == attempt - 1
      invariant forall k :: 0 <= k < attempt - 1 ==> attempts[k].Conflicts?
      invariant delay == Delay(initialDelay, backoffFactor, attempt - 1)
      invariant forall k :: 0 <= k < |sleeps| ==> sleeps[k] == Delay(initialDelay, backoffFactor, k)
    {
      match attempts[attempt - 1]
      case Returns(v) => return Returned(v), sleeps;
      case Raises => return OtherRaised, sleeps;
      case Conflicts =>
        if attempt == maxAttempts {
          return ConflictRaised, sleeps;
        }
        sleeps := sleeps + [delay];
        delay := delay * backoffFactor;
        attempt := attempt + 1;
    }
    return NothingToRaise, sleeps;
  }

  // ---------------------------------------------------------------- many clients, one record

  datatype Phase<!V> =
    | Idle
    | Reading
    | Writing(version: nat, value: V)
    | Sleeping
    | Succeeded
    | Exhausted
    | Crashed

  /** A client with its current operation; `start` is the record's version when it was called. */
  datatype Client<!V> = Client(
    maxAttempts: nat, update: V -> V, phase: Phase<V>, failed: nat, start: nat, calls: nat, successes: nat)

  datatype Commit<!V> = Commit(client: nat, update: V -> V)

  datatype World<!V> = World(version: nat, value: V, log: seq<Commit<V>>, clients: map<nat, Client<V>>)

  datatype Action<!V> = Call(client: nat, update: V -> V) | Read(client: nat) | Write(client: nat) | Wake(client: nat)

  ghost function Step<V>(w: World<V>, a: Action<V>): World<V> {
    if a.client !in w.clients then w
    else
      var c := w.clients[a.client];
      match a
      case Call(i, f) =>
        if c.phase.Reading? || c.phase.Writing? || c.phase.Sleeping? then w
        else w.(clients := w.clients[i := c.(update := f, failed := 0, start := w.version, calls := c.calls + 1,
                                             phase := if c.maxAttempts == 0 then Crashed else Reading)])
      case Read(i) =>
        if c.phase.Reading? then w.(clients := w.clients[i := c.(phase := Writing(w.version, w.value))]) else w
      case Write(i) =>
        if !c.phase.Writing? then w
        else if c.phase.version == w.version then
          World(w.version + 1, c.update(c.phase.value), w.log + [Commit(i, c.update)],
                w.clients[i := c.(phase := Succeeded, successes := c.successes + 1)])
        else
          w.(clients := w.clients[i := c.(failed := c.failed + 1,
                                         phase := if c.failed + 1 == c.maxAttempts then Exhausted else Sleeping)])
      case Wake(i) =>
        if c.phase.Sleeping? then w.(clients := w.clients[i := c.(phase := Reading)]) else w
  }

  ghost function Run<V>(w: World<V>, acts: seq<Action<V>>): World<V>
    decreases |acts|
  {
    if acts == [] then w else Step(Run(w, acts[..|acts| - 1]), acts[|acts| - 1])
  }

  ghost predicate Initial<V>(w: World<V>) {
    && w.version == 0 && w.log == []
    && forall i :: i in w.clients ==>
         w.clients[i].phase.Idle? && w.clients[i].calls == 0 && w.clients[i].successes == 0
  }

  /** The record as it would be had the logged updates been applied one after the other. */
  ghost function Fold<V>(initial: V, log: seq<Commit<V>>): V
    decreases |log|
  {
    if log == [] then initial else log[|log| - 1].update(Fold(initial, log[..|log| - 1]))
  }

  ghost function CommitsBy<V>(log: seq<Commit<V>>, i: nat): nat
    decreases |log|
  {
    if log == [] then 0
    else CommitsBy(log[..|log| - 1], i) + if log[|log| - 1].client == i then 1 else 0
  }

  ghost predicate ByOthers<V>(log: seq<Commit<V>>, from: nat, i: nat) {
    forall k :: from <= k < |log| ==> log[k].client != i
  }

  predicate Busy<V>(p: Phase<V>) {
    p.Reading? || p.Writing? || p.Sleeping?
  }

  ghost predicate ClientInv<V>(w: World<V>, initial: V, i: nat)
    requires i in w.clients
  {
    var c := w.clients[i];
    && CommitsBy(w.log, i) == c.successes
    && c.successes <= c.calls
    && (c.phase.Idle? ==> c.calls == 0)
    && (Busy(c.phase) || c.phase.Exhausted? ==>
          c.successes < c.calls && c.start + c.failed <= w.version && ByOthers(w.log, c.start, i))
    && (Busy(c.phase) ==> c.failed < c.maxAttempts)
    && (c.phase.Writing? ==>
          c.start + c.failed <= c.phase.version <= |w.log|
          && c.phase.value == Fold(initial, w.log[..c.phase.version]))
    && (c.phase.Exhausted? ==> c.failed == c.maxAttempts)
    && (c.phase.Crashed? ==> c.maxAttempts == 0)
  }

  ghost predicate Inv<V>(w: World<V>, initial: V) {
    && w.version == |w.log|
    && w.value == Fold(initial, w.log)
    && (forall i :: i in w.clients ==> ClientInv(w, initial, i))
    && (forall k :: 0 <= k < |w.log| ==> w.log[k].client in w.clients)
  }

  lemma CommitKeeps<V>(w: World<V>, initial: V, i: nat)
    requires Inv(w, initial) && i in w.clients && w.clients[i].phase.Writing? && w.clients[i].phase.version == w.version
    ensures Inv(Step(w, Write(i)), initial)
  {
    var w' := Step(w, Write(i));
    assert w'.log[..|w.log|] == w.log && w.log[..w.version] == w.log;
    forall j | j in w'.clients
      ensures ClientInv(w', initial, j)
    {
      assert ClientInv(w, initial, j);
      if j != i && w.clients[j].phase.Writing? {
        var v := w.clients[j].phase.version;
        assert w'.log[..v] == w.log[..v];
      }
    }
  }

  /** A step that commits nothing changes nothing but the client that takes it. */
  lemma QuietStepKeeps<V>(w: World<V>, initial: V, a: Action<V>)
    requires Inv(w, initial) && a.client in w.clients
    requires !(a.Write? && w.clients[a.client].phase.Writing? && w.clients[a.client].phase.version == w.version)
    ensures Inv(Step(w, a), initial)
  {
    var w', i := Step(w, a), a.client;
    assert ClientInv(w, initial, i);
    assert w.log[..w.version] == w.log;
    assert w' == w.(clients := w.clients[i := w'.clients[i]]);
    assert ClientInv(w', initial, i);
    forall j | j in w'.clients
      ensures ClientInv(w', initial, j)
    {
      assert ClientInv(w, initial, j);
    }
  }

  lemma StepKeeps<V>(w: World<V>, initial: V, a: Action<V>)
    requires Inv(w, initial)
    ensures Inv(Step(w, a), initial)
  {
    if a.client in w.clients {
      var c := w.clients[a.client];
      if a.Write? && c.phase.Writing? && c.phase.version == w.version {
        CommitKeeps(w, initial, a.client);
      } else {
        QuietStepKeeps(w, initial, a);
      }
    }
  }

  lemma {:induction false} RunKeeps<V>(w: World<V>, acts: seq<Action<V>>)
    requires Initial(w)
    ensures Inv(Run(w, acts), w.value)
    decreases |acts|
  {
    if acts != [] {
      RunKeeps(w, acts[..|acts| - 1]);
      StepKeeps(Run(w, acts[..|acts| - 1]), w.value, acts[|acts| - 1]);
    }
  }

  /**
    No interleaving loses an update: the record is the fold of all successful updates in
    commit order, and every client's successes are exactly its entries in that order.
   */
  lemma NoLostUpdate<V>(w: World<V>, acts: seq<Action<V>>, i: nat)
    requires Initial(w) && i in Run(w, acts).clients
    ensures
      var t := Run(w, acts);
      && t.value == Fold(w.value, t.log)
      && t.version == |t.log|
      && t.clients[i].successes == CommitsBy(t.log, i)
  {
    RunKeeps(w, acts);
    assert ClientInv(Run(w, acts), w.value, i);
  }

  /** A client gives up only after as many commits by others as it was allowed attempts. */
  lemma ExhaustedByOthers<V>(w: World<V>, acts: seq<Action<V>>, i: nat)
    requires Initial(w) && i in Run(w, acts).clients && Run(w, acts).clients[i].phase.Exhausted?
    ensures
      var t := Run(w, acts);
      var c := t.clients[i];
      c.start + c.maxAttempts <= |t.log| && ByOthers(t.log, c.start, i)
  {
    RunKeeps(w, acts);
    assert ClientInv(Run(w, acts), w.value, i);
  }

  /** A log in which everyone in s commits at most once, and nobody else, is no longer than s. */
  lemma {:induction false} LogBound<V>(log: seq<Commit<V>>, s: set<nat>)
    requires forall k :: 0 <= k < |log| ==> log[k].client in s
    requires forall i :: i in s ==> CommitsBy(log, i) <= 1
    ensures |log| <= |s|
    decreases |log|
  {
    if log != [] {
      var init, last := log[..|log| - 1], log[|log| - 1].client;
      forall k | 0 <= k < |init|
        ensures init[k].client in s - {last}
      {
        if init[k].client == last {
          Counted(init, k);
        }
      }
      LogBound(init, s - {last});
    }
  }

  lemma {:induction false} Counted<V>(log: seq<Commit<V>>, k: nat)
    requires k < |log|
    ensures CommitsBy(log, log[k].client) >= 1
    decreases |log|
  {
    if k < |log| - 1 {
      Counted(log[..|log| - 1], k);
    }
  }

  /**
    Where no client makes more than one call, as many attempts as there are clients are
    always enough: in every interleaving such a client, once it has called, is still at it
    or has succeeded.
   */
  lemma EnoughAttemptsSucceed<V>(w: World<V>, acts: seq<Action<V>>, i: nat)
    requires Initial(w) && i in Run(w, acts).clients
    requires forall j :: j in Run(w, acts).clients ==> Run(w, acts).clients[j].calls <= 1
    requires Run(w, acts).clients[i].maxAttempts >= |Run(w, acts).clients|
    ensures
      var c := Run(w, acts).clients[i];
      !c.phase.Exhausted? && !c.phase.Crashed? && (c.calls > 0 ==> Busy(c.phase) || c.phase.Succeeded?)
  {
    var t := Run(w, acts);
    RunKeeps(w, acts);
    assert ClientInv(t, w.value, i);
    assert i in t.clients.Keys;
    if t.clients[i].phase.Exhausted? {
      var others := t.clients.Keys - {i};
      assert |others| == |t.clients.Keys| - 1;
      forall j | j in others
        ensures CommitsBy(t.log, j) <= 1
      {
        assert ClientInv(t, w.value, j);
      }
      forall k | 0 <= k < |t.log|
        ensures t.log[k].client in others
      {
        if t.log[k].client == i {
          Counted(t.log, k);
        }
      }
      LogBound(t.log, others);
      assert false;
    }
  }

  // ---------------------------------------------------------------- one call

  lemma Extend<V>(w: World<V>, acts: seq<Action<V>>, a: Action<V>)
    ensures Run(w, acts + [a]) == Step(Run(w, acts), a)
  {
    assert (acts + [a])[..|acts|] == acts;
  }

  lemma RunOf3<V>(w: World<V>, a: Action<V>, b: Action<V>, c: Action<V>)
    ensures Run(w, [a, b, c]) == Step(Step(Step(w, a), b), c)
  {
    assert [] + [a] == [a] && [a] + [b] == [a, b] && [a, b] + [c] == [a, b, c];
    Extend(w, [], a);
    Extend(w, [a], b);
    Extend(w, [a, b], c);
  }

  /** The client's update f has been applied to the record as it was, and to nothing else. */
  ghost predicate Applied<V>(w: World<V>, w': World<V>, i: nat, f: V -> V) {
    && w'.value == f(w.value) && w'.version == w.version + 1 && w'.log == w.log + [Commit(i, f)]
    && i in w'.clients && w'.clients[i].phase.Succeeded?
    && (forall j :: j in w.clients && j != i ==> j in w'.clients && w'.clients[j] == w.clients[j])
  }

  /** An operation that no other commit disturbs succeeds at once. */
  lemma CallSucceeds<V>(w: World<V>, i: nat, f: V -> V)
    requires i in w.clients && !Busy(w.clients[i].phase) && w.clients[i].maxAttempts > 0
    ensures Applied(w, Run(w, [Call(i, f), Read(i), Write(i)]), i, f)
  {
    RunOf3(w, Call(i, f), Read(i), Write(i));
  }

  /** A conflict leaves the record alone; the client sleeps to try again, or gives up at its last attempt. */
  lemma ConflictRetries<V>(w: World<V>, acts: seq<Action<V>>, i: nat)
    requires Initial(w)
    requires
      var t := Run(w, acts);
      i in t.clients && t.clients[i].phase.Writing? && t.clients[i].phase.version != t.version
    ensures
      var t := Run(w, acts);
      var t', c := Run(w, acts + [Write(i)]), t.clients[i];
      && t'.value == t.value && t'.version == t.version && t'.log == t.log
      && i in t'.clients && t'.clients[i].update == c.update && t'.clients[i].failed == c.failed + 1
      && t'.clients[i].phase == if c.failed + 1 < c.maxAttempts then Sleeping else Exhausted
  {
    RunKeeps(w, acts);
    assert ClientInv(Run(w, acts), w.value, i);
    Extend(w, acts, Write(i));
  }

  /** After its sleep it calls the operation again, which succeeds on the current record if left undisturbed. */
  lemma RetrySucceeds<V>(w: World<V>, i: nat)
    requires i in w.clients && w.clients[i].phase.Sleeping?
    ensures Applied(w, Run(w, [Wake(i), Read(i), Write(i)]), i, w.clients[i].update)
  {
    RunOf3(w, Wake(i), Read(i), Write(i));
  }

  /** Only a decorator that allows no attempt at all ends in neither a result nor a conflict. */
  lemma NeverCrashes<V>(w: World<V>, acts: seq<Action<V>>, i: nat)
    requires Initial(w) && i in Run(w, acts).clients && Run(w, acts).clients[i].maxAttempts > 0
    ensures !Run(w, acts).clients[i].phase.Crashed?
  {
    RunKeeps(w, acts);
    assert ClientInv(Run(w, acts), w.value, i);
  }
}
