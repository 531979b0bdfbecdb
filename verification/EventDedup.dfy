/**
  De-duplicating events through leased etcd keys: check, process, mark.  Every call may
  fail, with or without taking effect; failures are swallowed.  A key marked at t is there
  until t + ttl, or a clear.
 */
module EventDedup {
  import opened Wrappers

  /** What happened, in order. */
  datatype Event =
    | Delivered(id: string)
    | Skipped(id: string, at: int)
    | Processed(id: string)
    | Marked(id: string, at: int, ttl: int)
    | Cleared(id: string)

  /** A handler between its awaits. */
  datatype Handler = Idle | Accepted(id: string) | Done(id: string)

  /**
    `leaseHasId` says whether the lease object of the etcd client in use has the attribute
    `id` that `mark_processed` reads; the client of this service calls it `lease_id`.
   */
  datatype World = World(
    leaseHasId: bool,
    now: int,
    marks: map<string, int>,  // until when each marked id is there
    handlers: map<nat, Handler>,
    history: seq<Event>)

  /** How a writing call ends; when the answer is lost etcd has executed it all the same. */
  datatype Outcome = Works | Fails | AnswerLost

  datatype Action =
    | Tick(seconds: nat)
    | Deliver(handler: nat, id: string, getFails: bool)
    | Process(handler: nat)
    | Mark(handler: nat, ttl: int, grantFails: bool, put: Outcome)
    | Clear(id: string, delete: Outcome)

  function At(w: World, h: nat): Handler {
    if h in w.handlers then w.handlers[h] else Idle
  }

  predicate IsMarked(w: World, id: string) {
    id in w.marks && w.now < w.marks[id]
  }

  function Set(w: World, h: nat, to: Handler, events: seq<Event>): World {
    w.(handlers := w.handlers[h := to], history := w.history + events)
  }

  predicate Takes(w: World, grantFails: bool, put: Outcome) {
    !grantFails && w.leaseHasId && put != Fails
  }

  function Step(w: World, a: Action): World {
    match a
    case Tick(d) => w.(now := w.now + d)
    case Deliver(h, id, getFails) =>
      if !At(w, h).Idle? then w
      else if !getFails && IsMarked(w, id) then Set(w, h, Idle, [Delivered(id), Skipped(id, w.now)])
      else Set(w, h, Accepted(id), [Delivered(id)])
    case Process(h) =>
      if At(w, h).Accepted? then Set(w, h, Done(At(w, h).id), [Processed(At(w, h).id)]) else w
    case Mark(h, ttl, grantFails, put) =>
      if !At(w, h).Done? then w
      else if Takes(w, grantFails, put) then
        Set(w, h, Idle, [Marked(At(w, h).id, w.now, ttl)]).(marks := w.marks[At(w, h).id := w.now + ttl])
      else Set(w, h, Idle, [])
    case Clear(id, delete) =>
      if delete == Fails then w else w.(marks := w.marks - {id}, history := w.history + [Cleared(id)])
  }

  function Run(w: World, acts: seq<Action>): World
    decreases |acts|
  {
    if acts == [] then w else Step(Run(w, acts[..|acts| - 1]), acts[|acts| - 1])
  }

  predicate Initial(w: World) {
    w.marks == map[] && w.handlers == map[] && w.history == []
  }

  // ---------------------------------------------------------------- what a skip rests on

  /** The j-th event marked the id, and nothing has cleared it before position `end`. */
  ghost predicate Standing(h: seq<Event>, j: nat, end: nat, id: string, at: int, ttl: int) {
    j < end <= |h| && h[j] == Marked(id, at, ttl) && forall i :: j < i < end ==> h[i] != Cleared(id)
  }

  ghost predicate HasBefore(h: seq<Event>, end: nat, e: Event) {
    exists i :: 0 <= i < end <= |h| && h[i] == e
  }

  /** A skip rests on a mark within its TTL, not cleared since. */
  ghost predicate SkipJustified(w: World, k: nat)
    requires k < |w.history| && w.history[k].Skipped?
  {
    var s := w.history[k];
    exists j: nat, at, ttl :: Standing(w.history, j, k, s.id, at, ttl) && at <= s.at < at + ttl
  }

  ghost predicate HistoryInv(w: World) {
    && (forall k :: 0 <= k < |w.history| && w.history[k].Skipped? ==> SkipJustified(w, k))
    && (forall k :: 0 <= k < |w.history| && w.history[k].Marked? ==>
          w.leaseHasId && HasBefore(w.history, k, Processed(w.history[k].id)))
  }

  /** What is stored for the id is what an uncleared mark of it left there. */
  ghost predicate Recorded(w: World, id: string)
    requires id in w.marks
  {
    exists j: nat, at, ttl ::
      Standing(w.history, j, |w.history|, id, at, ttl) && at <= w.now && w.marks[id] == at + ttl
  }

  ghost predicate MarksInv(w: World) {
    forall id :: id in w.marks ==> Recorded(w, id)
  }

  ghost predicate HandlerInv(w: World) {
    forall h :: h in w.handlers && w.handlers[h].Done? ==>
      HasBefore(w.history, |w.history|, Processed(w.handlers[h].id))
  }

  ghost predicate Inv(w: World) {
    HistoryInv(w) && MarksInv(w) && HandlerInv(w)
  }

  /** What the new events need for the history to stay in order. */
  ghost predicate NewOk(w: World, from: nat) {
    && (forall k :: from <= k < |w.history| && w.history[k].Skipped? ==> SkipJustified(w, k))
    && (forall k :: from <= k < |w.history| && w.history[k].Marked? ==>
          w.leaseHasId && HasBefore(w.history, k, Processed(w.history[k].id)))
  }

  lemma HistoryGrows(w: World, w': World, more: seq<Event>)
    requires HistoryInv(w) && w'.leaseHasId == w.leaseHasId && w'.history == w.history + more
    requires NewOk(w', |w.history|)
    ensures HistoryInv(w')
  {
    var h, h' := w.history, w'.history;
    forall k | 0 <= k < |h| && h'[k].Skipped?
      ensures SkipJustified(w', k)
    {
      assert SkipJustified(w, k);
      var j: nat, at, ttl :| Standing(h, j, k, h[k].id, at, ttl) && at <= h[k].at < at + ttl;
      assert Standing(h', j, k, h[k].id, at, ttl);
    }
    forall k | 0 <= k < |h| && h'[k].Marked?
      ensures w'.leaseHasId && HasBefore(h', k, Processed(h'[k].id))
    {
      StillBefore(h, more, k, Processed(h[k].id));
    }
  }

  lemma StillBefore(h: seq<Event>, more: seq<Event>, end: nat, e: Event)
    requires HasBefore(h, end, e)
    ensures HasBefore(h + more, end, e) && HasBefore(h + more, |h + more|, e)
  {
    var i :| 0 <= i < end <= |h| && h[i] == e;
    assert (h + more)[i] == e;
  }

  lemma HandlersStay(w: World, w': World, more: seq<Event>, h: nat)
    requires HandlerInv(w) && w'.history == w.history + more
    requires forall g :: g in w'.handlers && g != h ==> g in w.handlers && w'.handlers[g] == w.handlers[g]
    requires h in w'.handlers && w'.handlers[h].Done? ==>
      HasBefore(w'.history, |w'.history|, Processed(w'.handlers[h].id))
    ensures HandlerInv(w')
  {
    forall g | g in w'.handlers && w'.handlers[g].Done? && g != h
      ensures HasBefore(w'.history, |w'.history|, Processed(w'.handlers[g].id))
    {
      StillBefore(w.history, more, |w.history|, Processed(w.handlers[g].id));
    }
  }

  /** Nothing but a clear makes a record go. */
  lemma StaysRecorded(w: World, w': World, more: seq<Event>, id: string)
    requires id in w.marks && Recorded(w, id) && w'.history == w.history + more && w'.now >= w.now
    requires id in w'.marks && w'.marks[id] == w.marks[id] && Cleared(id) !in more
    ensures Recorded(w', id)
  {
    var j: nat, at, ttl :|
      Standing(w.history, j, |w.history|, id, at, ttl) && at <= w.now && w.marks[id] == at + ttl;
    assert Standing(w'.history, j, |w'.history|, id, at, ttl);
  }

  lemma MarksStand(w: World, w': World, more: seq<Event>)
    requires MarksInv(w) && w'.history == w.history + more && w'.now >= w.now
    requires forall id :: id in w'.marks ==> id in w.marks && w'.marks[id] == w.marks[id] && Cleared(id) !in more
    ensures MarksInv(w')
  {
    forall id | id in w'.marks
      ensures Recorded(w', id)
    {
      StaysRecorded(w, w', more, id);
    }
  }

  /** A step that only adds harmless events and keeps the marks. */
  lemma PlainKeeps(w: World, w': World, more: seq<Event>, h: nat)
    requires Inv(w) && w'.history == w.history + more && w'.marks == w.marks
    requires w'.leaseHasId == w.leaseHasId && w'.now >= w.now
    requires forall e :: e in more ==> !e.Skipped? && !e.Marked? && !e.Cleared?
    requires forall g :: g in w'.handlers && g != h ==> g in w.handlers && w'.handlers[g] == w.handlers[g]
    requires h in w'.handlers && w'.handlers[h].Done? ==>
      HasBefore(w'.history, |w'.history|, Processed(w'.handlers[h].id))
    ensures Inv(w')
  {
    forall k | |w.history| <= k < |w'.history|
      ensures !w'.history[k].Skipped? && !w'.history[k].Marked?
    {
      assert w'.history[k] in more;
    }
    HistoryGrows(w, w', more);
    MarksStand(w, w', more);
    HandlersStay(w, w', more, h);
  }

  lemma SkipIsJustified(w: World, w': World, id: string)
    requires MarksInv(w) && IsMarked(w, id)
    requires w'.history == w.history + [Delivered(id), Skipped(id, w.now)]
    ensures NewOk(w', |w.history|)
  {
    var j: nat, at, ttl :|
      Standing(w.history, j, |w.history|, id, at, ttl) && at <= w.now && w.marks[id] == at + ttl;
    var k := |w.history| + 1;
    assert Standing(w'.history, j, k, id, at, ttl);
    assert w'.history[k] == Skipped(id, w.now) && w'.history[k - 1] == Delivered(id);
    assert SkipJustified(w', k);
  }

  lemma SkipKeeps(w: World, h: nat, id: string)
    requires Inv(w) && At(w, h).Idle? && IsMarked(w, id)
    ensures Inv(Step(w, Deliver(h, id, false)))
  {
    var w' := Step(w, Deliver(h, id, false));
    var more := [Delivered(id), Skipped(id, w.now)];
    SkipIsJustified(w, w', id);
    HistoryGrows(w, w', more);
    MarksStand(w, w', more);
    HandlersStay(w, w', more, h);
  }

  lemma MarkKeeps(w: World, h: nat, ttl: int, put: Outcome)
    requires Inv(w) && At(w, h).Done? && Takes(w, false, put)
    ensures Inv(Step(w, Mark(h, ttl, false, put)))
  {
    var w' := Step(w, Mark(h, ttl, false, put));
    var id := At(w, h).id;
    var more := [Marked(id, w.now, ttl)];
    assert HasBefore(w.history, |w.history|, Processed(id));
    StillBefore(w.history, more, |w.history|, Processed(id));
    HistoryGrows(w, w', more);
    HandlersStay(w, w', more, h);
    assert Standing(w'.history, |w.history|, |w'.history|, id, w.now, ttl);
    forall e | e in w'.marks
      ensures Recorded(w', e)
    {
      if e != id {
        StaysRecorded(w, w', more, e);
      }
    }
  }

  lemma ClearKeeps(w: World, id: string, delete: Outcome)
    requires Inv(w) && delete != Fails
    ensures Inv(Step(w, Clear(id, delete)))
  {
    var w' := Step(w, Clear(id, delete));
    var more := [Cleared(id)];
    HistoryGrows(w, w', more);
    MarksStand(w, w', more);
    HandlersStay(w, w', more, 0) by {
      forall e | HasBefore(w.history, |w.history|, e)
        ensures HasBefore(w'.history, |w'.history|, e)
      {
        StillBefore(w.history, more, |w.history|, e);
      }
    }
  }

  lemma StepKeeps(w: World, a: Action)
    requires Inv(w)
    ensures Inv(Step(w, a))
  {
    var w' := Step(w, a);
    assert w.history + [] == w.history;
    match a {
      case Tick(d) => PlainKeeps(w, w', [], 0);
      case Deliver(h, id, fails) =>
        if At(w, h).Idle? {
          if !fails && IsMarked(w, id) { SkipKeeps(w, h, id); } else { PlainKeeps(w, w', [Delivered(id)], h); }
        }
      case Process(h) =>
        if At(w, h).Accepted? {
          assert w'.history[|w.history|] == Processed(At(w, h).id);
          PlainKeeps(w, w', [Processed(At(w, h).id)], h);
        }
      case Mark(h, ttl, g, p) =>
        if At(w, h).Done? {
          if Takes(w, g, p) { MarkKeeps(w, h, ttl, p); } else { PlainKeeps(w, w', [], h); }
        }
      case Clear(id, delete) => if delete != Fails { ClearKeeps(w, id, delete); }
    }
  }

  lemma {:induction false} RunKeeps(w: World, acts: seq<Action>)
    requires Initial(w)
    ensures Inv(Run(w, acts))
    decreases |acts|
  {
    if acts != [] {
      RunKeeps(w, acts[..|acts| - 1]);
      StepKeeps(Run(w, acts[..|acts| - 1]), acts[|acts| - 1]);
    }
  }

  /** A mark rests on earlier processing. */
  lemma ProcessedBefore(w: World, id: string)
    requires Inv(w) && id in w.marks
    ensures w.leaseHasId && HasBefore(w.history, |w.history|, Processed(id))
  {
    assert Recorded(w, id);
    var j: nat, at, ttl :|
      Standing(w.history, j, |w.history|, id, at, ttl) && at <= w.now && w.marks[id] == at + ttl;
    assert w.history[j].Marked?;
    var i :| 0 <= i < j && w.history[i] == Processed(id);
  }

  /**
    In every run, under any errors, clears and delays and with any number of handlers, an
    event is skipped only if it was marked within the TTL and not cleared since, and was
    processed before that mark; and only if the client's leases have an `id` at all.
   */
  lemma SkipsAreSafe(w: World, acts: seq<Action>, k: nat)
    requires Initial(w) && k < |Run(w, acts).history| && Run(w, acts).history[k].Skipped?
    ensures
      var t := Run(w, acts);
      SkipJustified(t, k) && t.leaseHasId && HasBefore(t.history, k, Processed(t.history[k].id))
  {
    RunKeeps(w, acts);
    var t := Run(w, acts);
    assert SkipJustified(t, k);
    var s := t.history[k];
    var j: nat, at, ttl :| Standing(t.history, j, k, s.id, at, ttl) && at <= s.at < at + ttl;
    assert t.history[j].Marked?;
    var i :| 0 <= i < j && t.history[i] == Processed(s.id);
  }

  // ---------------------------------------------------------------- how often

  function Count(h: seq<Event>, e: Event): nat {
    if h == [] then 0 else Count(h[..|h| - 1], e) + if h[|h| - 1] == e then 1 else 0
  }

  function Skips(h: seq<Event>, id: string): nat {
    if h == [] then 0
    else Skips(h[..|h| - 1], id) + if h[|h| - 1].Skipped? && h[|h| - 1].id == id then 1 else 0
  }

  /** One more event, seen from the counts of one id. */
  lemma OneMore(h: seq<Event>, x: Event, id: string)
    ensures Count(h + [x], Delivered(id)) == Count(h, Delivered(id)) + if x == Delivered(id) then 1 else 0
    ensures Count(h + [x], Processed(id)) == Count(h, Processed(id)) + if x == Processed(id) then 1 else 0
    ensures Skips(h + [x], id) == Skips(h, id) + if x.Skipped? && x.id == id then 1 else 0
  {
    assert (h + [x])[..|h|] == h;
  }

  predicate Delivers(w: World, a: Action, id: string) {
    a.Deliver? && a.id == id && At(w, a.handler).Idle?
  }

  predicate SkipsIt(w: World, a: Action, id: string) {
    Delivers(w, a, id) && !a.getFails && IsMarked(w, id)
  }

  predicate Processes(w: World, a: Action, id: string) {
    a.Process? && At(w, a.handler) == Accepted(id)
  }

  /** What a step adds to each count. */
  ghost predicate Moved(w: World, a: Action, id: string) {
    var h, h' := w.history, Step(w, a).history;
    && Count(h', Delivered(id)) == Count(h, Delivered(id)) + (if Delivers(w, a, id) then 1 else 0)
    && Count(h', Processed(id)) == Count(h, Processed(id)) + (if Processes(w, a, id) then 1 else 0)
    && Skips(h', id) == Skips(h, id) + (if SkipsIt(w, a, id) then 1 else 0)
  }

  lemma {:induction false} Together(h: seq<Event>, more: seq<Event>, id: string)
    ensures Count(h + more, Delivered(id)) == Count(h, Delivered(id)) + Count(more, Delivered(id))
    ensures Count(h + more, Processed(id)) == Count(h, Processed(id)) + Count(more, Processed(id))
    ensures Skips(h + more, id) == Skips(h, id) + Skips(more, id)
  {
    if more == [] {
      assert h + more == h;
    } else {
      var init, x := more[..|more| - 1], more[|more| - 1];
      Together(h, init, id);
      OneMore(h + init, x, id);
      OneMore(init, x, id);
      assert h + more == (h + init) + [x] && more == init + [x];
    }
  }

  /** The events of a step. */
  function News(w: World, a: Action): seq<Event> {
    match a
    case Tick(_) => []
    case Deliver(h, id, _) =>
      if !At(w, h).Idle? then [] else if SkipsIt(w, a, id) then [Delivered(id), Skipped(id, w.now)] else [Delivered(id)]
    case Process(h) => if At(w, h).Accepted? then [Processed(At(w, h).id)] else []
    case Mark(h, ttl, g, p) =>
      if At(w, h).Done? && Takes(w, g, p) then [Marked(At(w, h).id, w.now, ttl)] else []
    case Clear(id, delete) => if delete == Fails then [] else [Cleared(id)]
  }

  lemma NewsAppended(w: World, a: Action)
    ensures Step(w, a).history == w.history + News(w, a)
  {
  }

  lemma OneCounted(x: Event, id: string)
    ensures Count([x], Delivered(id)) == if x == Delivered(id) then 1 else 0
    ensures Count([x], Processed(id)) == if x == Processed(id) then 1 else 0
    ensures Skips([x], id) == if x.Skipped? && x.id == id then 1 else 0
  {
    OneMore([], x, id);
    assert [] + [x] == [x];
  }

  lemma NewsCounted(w: World, a: Action, id: string)
    ensures Count(News(w, a), Delivered(id)) == if Delivers(w, a, id) then 1 else 0
    ensures Count(News(w, a), Processed(id)) == if Processes(w, a, id) then 1 else 0
    ensures Skips(News(w, a), id) == if SkipsIt(w, a, id) then 1 else 0
  {
    match a {
      case Tick(_) =>
      case Deliver(_, e, _) =>
        OneCounted(Delivered(e), id);
        OneMore([Delivered(e)], Skipped(e, w.now), id);
        assert [Delivered(e)] + [Skipped(e, w.now)] == [Delivered(e), Skipped(e, w.now)];
      case Process(h) => if At(w, h).Accepted? { OneCounted(Processed(At(w, h).id), id); }
      case Mark(h, ttl, _, _) => if At(w, h).Done? { OneCounted(Marked(At(w, h).id, w.now, ttl), id); }
      case Clear(e, _) => OneCounted(Cleared(e), id);
    }
  }

  lemma Moves(w: World, a: Action, id: string)
    ensures Moved(w, a, id)
  {
    NewsAppended(w, a);
    Together(w.history, News(w, a), id);
    NewsCounted(w, a, id);
  }

  /** Handlers that have accepted the event and not processed it yet. */
  function Pending(w: World, id: string): set<nat> {
    set h | h in w.handlers && w.handlers[h] == Accepted(id)
  }

  /** Every delivery is pending, or was processed, or was skipped. */
  ghost predicate CountInv(w: World, id: string) {
    && Count(w.history, Delivered(id)) == Count(w.history, Processed(id)) + Skips(w.history, id) + |Pending(w, id)|
    && (!w.leaseHasId ==> w.marks == map[] && Skips(w.history, id) == 0)
  }

  lemma PendingStays(w: World, a: Action, id: string)
    requires !Processes(w, a, id) && (Delivers(w, a, id) ==> SkipsIt(w, a, id))
    ensures Pending(Step(w, a), id) == Pending(w, id)
  {
  }

  lemma PendingMoves(w: World, a: Action, id: string)
    ensures |Pending(Step(w, a), id)| == |Pending(w, id)|
              + (if Delivers(w, a, id) && !SkipsIt(w, a, id) then 1 else 0) - (if Processes(w, a, id) then 1 else 0)
  {
    var before, after := Pending(w, id), Pending(Step(w, a), id);
    if Delivers(w, a, id) && !SkipsIt(w, a, id) {
      assert after == before + {a.handler} && a.handler !in before;
    } else if Processes(w, a, id) {
      assert after == before - {a.handler} && a.handler in before;
    } else {
      PendingStays(w, a, id);
    }
  }

  lemma CountStep(w: World, a: Action, id: string)
    requires CountInv(w, id)
    ensures CountInv(Step(w, a), id)
  {
    Moves(w, a, id);
    PendingMoves(w, a, id);
    assert w.marks == map[] ==> w.marks - {id} == map[];
  }

  /**
    No delivery is lost in any run: each was processed or skipped or is still in the hands
    of a handler.  With leases that have no `id`, as the control plane's client returns
    them, nothing is ever skipped: every delivery is processed separately.
   */
  lemma {:induction false} DeliveriesAccounted(w: World, acts: seq<Action>, id: string)
    requires Initial(w)
    ensures
      var t := Run(w, acts);
      && Count(t.history, Delivered(id)) == Count(t.history, Processed(id)) + Skips(t.history, id) + |Pending(t, id)|
      && t.leaseHasId == w.leaseHasId && (!t.leaseHasId ==> t.marks == map[] && Skips(t.history, id) == 0)
    decreases |acts|
  {
    if acts == [] {
      assert Pending(w, id) == {};
    } else {
      DeliveriesAccounted(w, acts[..|acts| - 1], id);
      CountStep(Run(w, acts[..|acts| - 1]), acts[|acts| - 1], id);
    }
  }

  lemma {:induction false} Counted(h: seq<Event>, k: nat)
    requires k < |h|
    ensures Count(h, h[k]) >= 1
  {
    if k < |h| - 1 {
      Counted(h[..|h| - 1], k);
    }
  }

  lemma {:induction false} SomeSkip(h: seq<Event>, id: string) returns (k: nat)
    requires Skips(h, id) > 0
    ensures k < |h| && h[k].Skipped? && h[k].id == id
  {
    k := |h| - 1;
    if !(h[k].Skipped? && h[k].id == id) {
      k := SomeSkip(h[..|h| - 1], id);
    }
  }

  /** A delivered event that no handler still has in hand has been processed at least once. */
  lemma AtLeastOnce(w: World, acts: seq<Action>, id: string)
    requires Initial(w)
    requires Count(Run(w, acts).history, Delivered(id)) > 0 && Pending(Run(w, acts), id) == {}
    ensures Count(Run(w, acts).history, Processed(id)) >= 1
  {
    var h := Run(w, acts).history;
    DeliveriesAccounted(w, acts, id);
    if Skips(h, id) > 0 {
      var k := SomeSkip(h, id);
      SkipsAreSafe(w, acts, k);
      var i :| 0 <= i < k && h[i] == Processed(id);
      Counted(h, i);
    }
  }

  // ---------------------------------------------------------------- exactly once

  /** Deliveries of the event that were not skipped. */
  function Taken(w: World, id: string): int {
    Count(w.history, Delivered(id)) - Skips(w.history, id)
  }

  ghost predicate InHand(w: World, id: string) {
    exists h :: h in w.handlers && !w.handlers[h].Idle? && w.handlers[h].id == id
  }

  /** No check of the event fails, its marks take effect, it is not cleared, and no two handlers have it in hand. */
  ghost predicate CalmStep(w: World, a: Action, id: string) {
    && (Delivers(w, a, id) ==> !a.getFails && !InHand(w, id))
    && (a.Mark? && At(w, a.handler) == Done(id) ==> !a.grantFails && a.put != Fails)
    && (a.Clear? && a.id == id ==> a.delete == Fails)
  }

  ghost predicate Calm(w: World, acts: seq<Action>, id: string) {
    forall k :: 0 <= k < |acts| ==> CalmStep(Run(w, acts[..k]), acts[k], id)
  }

  /** A delivery of the event when its mark has already run out. */
  predicate Late(w: World, a: Action, id: string) {
    Delivers(w, a, id) && id in w.marks && w.now >= w.marks[id]
  }

  ghost predicate WithinTtl(w: World, acts: seq<Action>, id: string) {
    forall k :: 0 <= k < |acts| ==> !Late(Run(w, acts[..k]), acts[k], id)
  }

  /** While nothing goes wrong, an event that was taken on is in hand or marked. */
  ghost predicate TakenInv(w: World, id: string, within: bool) {
    && w.leaseHasId
    && (Taken(w, id) >= 1 <==> id in w.marks || InHand(w, id))
    && Taken(w, id) >= 0
    && (within <==> Taken(w, id) <= 1)
  }

  lemma KnownMoves(w: World, a: Action, id: string)
    requires w.leaseHasId && CalmStep(w, a, id)
    ensures
      var w' := Step(w, a);
      id in w'.marks || InHand(w', id) <==> id in w.marks || InHand(w, id) || Delivers(w, a, id)
  {
    var w' := Step(w, a);
    if a.Tick? || a.Clear? {
      assert w'.handlers == w.handlers;
    } else {
      var h := a.handler;
      assert forall g :: g != h ==> (g in w'.handlers <==> g in w.handlers) && At(w', g) == At(w, g);
      if At(w, h) != Idle && At(w, h).id == id {
        assert h in w.handlers;
      }
      if At(w', h) != Idle && At(w', h).id == id {
        assert h in w'.handlers;
      }
    }
  }

  lemma TakenStep(w: World, a: Action, id: string, within: bool)
    requires TakenInv(w, id, within) && CalmStep(w, a, id)
    ensures TakenInv(Step(w, a), id, within && !Late(w, a, id))
  {
    Moves(w, a, id);
    KnownMoves(w, a, id);
  }

  lemma LastStep(w: World, acts: seq<Action>, id: string)
    requires acts != []
    ensures
      var init, last := acts[..|acts| - 1], acts[|acts| - 1];
      && (Calm(w, acts, id) ==> Calm(w, init, id) && CalmStep(Run(w, init), last, id))
      && (WithinTtl(w, acts, id) <==> WithinTtl(w, init, id) && !Late(Run(w, init), last, id))
  {
    var n := |acts| - 1;
    assert forall k :: 0 <= k < n ==> acts[..n][k] == acts[k] && acts[..n][..k] == acts[..k];
    if WithinTtl(w, acts, id) {
      assert !Late(Run(w, acts[..n]), acts[n], id);
    }
    if Calm(w, acts, id) {
      assert CalmStep(Run(w, acts[..n]), acts[n], id);
    }
  }

  lemma {:induction false} TakenRun(w: World, acts: seq<Action>, id: string)
    requires Initial(w) && w.leaseHasId && Calm(w, acts, id)
    ensures TakenInv(Run(w, acts), id, WithinTtl(w, acts, id))
    decreases |acts|
  {
    if acts != [] {
      var init := acts[..|acts| - 1];
      LastStep(w, acts, id);
      TakenRun(w, init, id);
      TakenStep(Run(w, init), acts[|acts| - 1], id, WithinTtl(w, init, id));
    }
  }

  /**
    In any run in which no check of the event fails, its marks take effect, nobody clears it
    and its deliveries do not overlap - other events and other handlers may do as they like - a delivered
    event that is out of hand was processed exactly once if and only if, with leases that
    have an `id`, every later delivery came within the TTL of the mark; without, if and
    only if there was no later delivery.
   */
  lemma ExactlyOnceIff(w: World, acts: seq<Action>, id: string)
    requires Initial(w) && Calm(w, acts, id)
    requires Count(Run(w, acts).history, Delivered(id)) > 0 && Pending(Run(w, acts), id) == {}
    ensures
      var h := Run(w, acts).history;
      && (Count(h, Processed(id)) == 1 <==>
            if w.leaseHasId then WithinTtl(w, acts, id) else Count(h, Delivered(id)) == 1)
      && (!w.leaseHasId ==> Count(h, Processed(id)) == Count(h, Delivered(id)))
  {
    DeliveriesAccounted(w, acts, id);
    AtLeastOnce(w, acts, id);
    if w.leaseHasId {
      TakenRun(w, acts, id);
    }
  }

  // ---------------------------------------------------------------- the service

  /** One delivery handled to its end. */
  function Handled(w: World, h: nat, id: string, getFails: bool, mark: Action): World {
    Step(Step(Step(w, Deliver(h, id, getFails)), Process(h)), mark)
  }

  lemma IdleDoesNothing(w: World, h: nat, ttl: int, grantFails: bool, put: Outcome)
    requires At(w, h).Idle?
    ensures Step(w, Process(h)) == w && Step(w, Mark(h, ttl, grantFails, put)) == w
  {
  }

  lemma HandledMarks(w: World, h: nat, id: string, getFails: bool, ttl: int, grantFails: bool, put: Outcome)
    requires At(w, h).Idle?
    ensures
      var w' := Handled(w, h, id, getFails, Mark(h, ttl, grantFails, put));
      && At(w', h).Idle?
      && ((getFails || !IsMarked(w, id)) && Takes(w, grantFails, put) ==>
            id in w'.marks && w'.marks[id] == w.now + ttl)
  {
  }

  /**
    A handled event has been processed by the end, now or earlier; it is processed now
    unless it was marked; and if the calls work and leases have an `id` it is then marked
    for its time to live.
   */
  lemma HandlingMeans(w: World, h: nat, id: string, getFails: bool, ttl: int, grantFails: bool, put: Outcome)
    requires Inv(w) && At(w, h).Idle?
    ensures
      var w' := Handled(w, h, id, getFails, Mark(h, ttl, grantFails, put));
      var skipped := !getFails && IsMarked(w, id);
      && Count(w'.history, Processed(id)) == Count(w.history, Processed(id)) + (if skipped then 0 else 1)
      && Count(w'.history, Processed(id)) >= 1
      && At(w', h).Idle?
      && (!skipped && Takes(w, grantFails, put) ==> id in w'.marks && w'.marks[id] == w.now + ttl)
  {
    var w1 := Step(w, Deliver(h, id, getFails));
    var w2 := Step(w1, Process(h));
    Moves(w, Deliver(h, id, getFails), id);
    Moves(w1, Process(h), id);
    Moves(w2, Mark(h, ttl, grantFails, put), id);
    HandledMarks(w, h, id, getFails, ttl, grantFails, put);
    if IsMarked(w, id) {
      ProcessedBefore(w, id);
      var i :| 0 <= i < |w.history| && w.history[i] == Processed(id);
      Counted(w.history, i);
    }
  }

  /** Without an `id` two deliveries, one handled after the other and all calls working, are both processed. */
  lemma ProcessedTwice(w: World, id: string, ttl: int)
    requires Initial(w) && !w.leaseHasId
    ensures
      var one := [Deliver(0, id, false), Process(0), Mark(0, ttl, false, Works)];
      Count(Run(w, one + one).history, Processed(id)) == 2
  {
    var one := [Deliver(0, id, false), Process(0), Mark(0, ttl, false, Works)];
    var w1 := Handled(w, 0, id, false, Mark(0, ttl, false, Works));
    RunOfThree(w, [], one);
    assert [] + one == one;
    RunOfThree(w, one, one);
    RunKeeps(w, []);
    HandlingMeans(w, 0, id, false, ttl, false, Works);
    RunKeeps(w, one);
    DeliveriesAccounted(w, one, id);
    HandlingMeans(w1, 0, id, false, ttl, false, Works);
  }

  /** Once its mark has run out, the next delivery of an event is taken on again. */
  lemma MarkRunsOut(w: World, h: nat, id: string, getFails: bool, seconds: nat)
    requires At(w, h).Idle? && (id in w.marks ==> w.marks[id] <= w.now + seconds)
    ensures At(Run(w, [Tick(seconds), Deliver(h, id, getFails)]), h) == Accepted(id)
  {
    var acts := [Tick(seconds), Deliver(h, id, getFails)];
    assert acts[..1] == [Tick(seconds)] && acts[..1][..0] == [];
    assert Run(w, acts[..1]) == Step(w, Tick(seconds));
  }

  lemma RunOfThree(w: World, before: seq<Action>, acts: seq<Action>)
    requires |acts| == 3
    ensures Run(w, before + acts) == Step(Step(Step(Run(w, before), acts[0]), acts[1]), acts[2])
  {
    var all, n := before + acts, |before|;
    assert all[..n + 2][..n + 1] == all[..n + 1] && all[..n + 1][..n] == all[..n] == before;
    assert Run(w, all[..n + 1]) == Step(Run(w, before), acts[0]);
    assert Run(w, all[..n + 2]) == Step(Run(w, all[..n + 1]), acts[1]);
  }

  /** The client with etcd behind it; etcd's clock decides when a lease is over. */
  class EtcdClient {
    const leaseHasId: bool
    var now: int
    var marks: map<string, int>
    ghost var handlers: map<nat, Handler>
    ghost var history: seq<Event>

    ghost function View(): World
      reads this
    {
      World(leaseHasId, now, marks, handlers, history)
    }

    constructor (leaseHasId: bool, now: int)
      ensures Initial(View()) && this.leaseHasId == leaseHasId && this.now == now
    {
      this.leaseHasId, this.now := leaseHasId, now;
      marks, handlers, history := map[], map[], [];
    }
  }

  /** Each call is a step of the protocol above, made by the handler h it is called from. */
  class EventDeduplicationService {
    const etcd: EtcdClient
    const defaultTtlHours: int

    constructor (etcd: EtcdClient, defaultTtlHours: int)
      ensures this.etcd == etcd && this.defaultTtlHours == defaultTtlHours
    {
      this.etcd, this.defaultTtlHours := etcd, defaultTtlHours;
    }

    function Ttl(hours: Option<int>): int {
      (if hours.Some? && hours.value != 0 then hours.value else defaultTtlHours) * 3600
    }

    /** A yes is a skipped delivery, and then the event was processed earlier on; a no, even by error, is not. */
    method IsProcessed(id: string, getFails: bool, ghost h: nat) returns (processed: bool)
      requires Inv(etcd.View()) && At(etcd.View(), h).Idle?
      modifies etcd
      ensures etcd.View() == Step(old(etcd.View()), Deliver(h, id, getFails)) && Inv(etcd.View())
      ensures At(etcd.View(), h) == if processed then Idle else Accepted(id)
      ensures processed ==> HasBefore(old(etcd.history), |old(etcd.history)|, Processed(id))
    {
      StepKeeps(etcd.View(), Deliver(h, id, getFails));
      if getFails {
        processed := false;
      } else {
        processed := id in etcd.marks && etcd.now < etcd.marks[id];
      }
      if processed {
        ProcessedBefore(etcd.View(), id);
      }
      etcd.handlers := etcd.handlers[h := if processed then Idle else Accepted(id)];
      etcd.history := etcd.history + if processed then [Delivered(id), Skipped(id, etcd.now)] else [Delivered(id)];
    }

    method MarkProcessed(id: string, ttlHours: Option<int>, grantFails: bool, put: Outcome, ghost h: nat)
      requires Inv(etcd.View()) && At(etcd.View(), h) == Done(id)
      modifies etcd
      ensures etcd.View() == Step(old(etcd.View()), Mark(h, Ttl(ttlHours), grantFails, put)) && Inv(etcd.View())
      ensures Takes(old(etcd.View()), grantFails, put) ==>
        var hours := if ttlHours == None || ttlHours == Some(0) then defaultTtlHours else ttlHours.value;
        id in etcd.marks && etcd.marks[id] == etcd.now + 60 * 60 * hours
      ensures IsMarked(etcd.View(), id) <==>
        if Takes(old(etcd.View()), grantFails, put) then Ttl(ttlHours) > 0
        else old(IsMarked(etcd.View(), id))
    {
      StepKeeps(etcd.View(), Mark(h, Ttl(ttlHours), grantFails, put));
      ghost var was := etcd.View();
      etcd.handlers := etcd.handlers[h := Idle];
      assert was.history + [] == was.history;
      var ttl := Ttl(ttlHours);
      if grantFails {
        return;
      }
      if !etcd.leaseHasId {
        return;  // reading the attribute raises, and that too is swallowed
      }
      if put == Fails {
        return;
      }
      etcd.marks := etcd.marks[id := etcd.now + ttl];
      etcd.history := etcd.history + [Marked(id, etcd.now, ttl)];
    }

    /** Unless etcd does not execute the call, the next delivery is taken on again. */
    method ClearProcessed(id: string, delete: Outcome)
      requires Inv(etcd.View())
      modifies etcd
      ensures etcd.View() == Step(old(etcd.View()), Clear(id, delete)) && Inv(etcd.View())
      ensures delete != Fails ==> !IsMarked(etcd.View(), id)
    {
      StepKeeps(etcd.View(), Clear(id, delete));
      if delete != Fails {
        etcd.marks := etcd.marks - {id};
        etcd.history := etcd.history + [Cleared(id)];
      }
    }

    /** The handler's own work on an event it has taken on. */
    ghost method Process(h: nat)
      requires Inv(etcd.View()) && At(etcd.View(), h).Accepted?
      modifies etcd
      ensures etcd.View() == Step(old(etcd.View()), Action.Process(h)) && Inv(etcd.View())
    {
      StepKeeps(etcd.View(), Action.Process(h));
      var id := At(etcd.View(), h).id;
      etcd.handlers := etcd.handlers[h := Done(id)];
      etcd.history := etcd.history + [Processed(id)];
    }

    /** How event handlers use the service: check, process, mark. */
    method HandleEvent(id: string, getFails: bool, grantFails: bool, put: Outcome, ghost h: nat)
      returns (skipped: bool)
      requires Inv(etcd.View()) && At(etcd.View(), h).Idle?
      modifies etcd
      ensures etcd.View() == Handled(old(etcd.View()), h, id, getFails, Mark(h, Ttl(None), grantFails, put))
      ensures Inv(etcd.View())
      ensures skipped <==> !getFails && old(IsMarked(etcd.View(), id))
    {
      skipped := IsProcessed(id, getFails, h);
      if skipped {
        IdleDoesNothing(etcd.View(), h, Ttl(None), grantFails, put);
        return;
      }
      Process(h);
      MarkProcessed(id, None, grantFails, put, h);
    }
  }
}
