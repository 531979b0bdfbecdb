/**
  Repairing duplicate lab records: group by (worker, lab), keep the most recently synced
  record of each group, delete the others one by one by their id.
 */
module DuplicateRepair {
  import opened Wrappers

  /** Timestamps are compared as instants; a missing one comes before all others. */
  datatype Record = Record(id: string, workerId: string, labId: string, syncedAt: Option<nat>, stateVersion: int)

  type Key = (string, string)

  function KeyOf(r: Record): Key {
    (r.workerId, r.labId)
  }

  function Rank(r: Record): int {
    if r.syncedAt.Some? then r.syncedAt.value else -1
  }

  /** The sort key (last_synced_at, state_version), compared as a pair. */
  predicate AtLeast(a: Record, b: Record) {
    Rank(a) > Rank(b) || (Rank(a) == Rank(b) && a.stateVersion >= b.stateVersion)
  }

  predicate DistinctIds(s: seq<Record>) {
    forall i, j :: 0 <= i < j < |s| ==> s[i].id != s[j].id
  }

  // ---------------------------------------------------------------- sorting, newest first

  predicate Descending(s: seq<Record>) {
    forall i, j :: 0 <= i < j < |s| ==> AtLeast(s[i], s[j])
  }

  /** Behind everything at least as new, as a stable sort puts it. */
  function Insert(r: Record, s: seq<Record>): seq<Record> {
    if s == [] || !AtLeast(s[0], r) then [r] + s else [s[0]] + Insert(r, s[1..])
  }

  function NewestFirst(s: seq<Record>): seq<Record> {
    if s == [] then [] else Insert(s[|s| - 1], NewestFirst(s[..|s| - 1]))
  }

  lemma {:induction false} InsertIs(r: Record, s: seq<Record>)
    requires Descending(s) && DistinctIds(s) && forall k :: 0 <= k < |s| ==> s[k].id != r.id
    ensures var t := Insert(r, s);
      |t| == |s| + 1 && Descending(t) && DistinctIds(t) && (forall x :: x in t <==> x == r || x in s)
  {
    if s != [] && AtLeast(s[0], r) {
      InsertIs(r, s[1..]);
      var rest := Insert(r, s[1..]);
      assert s == [s[0]] + s[1..];
      assert forall x :: x in rest ==> AtLeast(s[0], x) && x.id != s[0].id;
    } else if s != [] {
      assert forall k :: 0 <= k < |s| ==> AtLeast(s[0], s[k]);
    }
  }

  lemma {:induction false} NewestFirstIs(s: seq<Record>)
    requires DistinctIds(s)
    ensures var t := NewestFirst(s);
      |t| == |s| && Descending(t) && DistinctIds(t) && (forall x :: x in t <==> x in s)
  {
    if s != [] {
      var init, last := s[..|s| - 1], s[|s| - 1];
      NewestFirstIs(init);
      forall k | 0 <= k < |NewestFirst(init)|
        ensures NewestFirst(init)[k].id != last.id
      {
        assert NewestFirst(init)[k] in init;
      }
      InsertIs(last, NewestFirst(init));
      assert s == init + [last];
    }
  }

  // ---------------------------------------------------------------- groups and losers

  function GroupOf(docs: seq<Record>, k: Key): seq<Record> {
    if docs == [] then []
    else
      var init := GroupOf(docs[..|docs| - 1], k);
      if KeyOf(docs[|docs| - 1]) == k then init + [docs[|docs| - 1]] else init
  }

  lemma {:induction false} GroupIs(docs: seq<Record>, k: Key)
    requires DistinctIds(docs)
    ensures DistinctIds(GroupOf(docs, k))
    ensures forall r :: r in GroupOf(docs, k) <==> r in docs && KeyOf(r) == k
  {
    if docs != [] {
      var init := docs[..|docs| - 1];
      GroupIs(init, k);
      assert docs == init + [docs[|docs| - 1]];
      forall j | 0 <= j < |GroupOf(init, k)|
        ensures GroupOf(init, k)[j].id != docs[|docs| - 1].id
      {
        assert GroupOf(init, k)[j] in init;
      }
    }
  }

  function KeySet(docs: seq<Record>): set<Key> {
    set r | r in docs :: KeyOf(r)
  }

  /** The record of the group that survives. */
  ghost predicate Keeps(docs: seq<Record>, r: Record) {
    var sorted := NewestFirst(GroupOf(docs, KeyOf(r)));
    sorted != [] && sorted[0] == r
  }

  /** The ids to be deleted from the groups with these keys. */
  ghost function Losers(docs: seq<Record>, keys: set<Key>): set<string> {
    set r | r in docs && KeyOf(r) in keys && !Keeps(docs, r) :: r.id
  }

  function Without(docs: seq<Record>, ids: set<string>): seq<Record> {
    if docs == [] then []
    else
      var init := Without(docs[..|docs| - 1], ids);
      if docs[|docs| - 1].id in ids then init else init + [docs[|docs| - 1]]
  }

  lemma {:induction false} WithoutIs(docs: seq<Record>, ids: set<string>)
    requires DistinctIds(docs)
    ensures DistinctIds(Without(docs, ids))
    ensures forall r :: r in Without(docs, ids) <==> r in docs && r.id !in ids
  {
    if docs != [] {
      var init, last := docs[..|docs| - 1], docs[|docs| - 1];
      WithoutIs(init, ids);
      assert docs == init + [last];
      forall j | 0 <= j < |Without(init, ids)|
        ensures Without(init, ids)[j].id != last.id
      {
        assert Without(init, ids)[j] in init;
      }
    }
  }

  lemma {:induction false} WithoutNone(docs: seq<Record>)
    ensures Without(docs, {}) == docs
  {
    if docs != [] {
      WithoutNone(docs[..|docs| - 1]);
    }
  }

  lemma {:induction false} WithoutBoth(docs: seq<Record>, ids: set<string>, more: set<string>)
    ensures Without(Without(docs, ids), more) == Without(docs, ids + more)
  {
    if docs != [] {
      var last := docs[|docs| - 1];
      var kept := Without(docs[..|docs| - 1], ids);
      WithoutBoth(docs[..|docs| - 1], ids, more);
      assert (kept + [last])[..|kept|] == kept;
    }
  }

  /** Deleting one more id, of a record still there, shortens the collection by one. */
  lemma {:induction false} WithoutOneMore(docs: seq<Record>, ids: set<string>, id: string)
    requires DistinctIds(docs) && id !in ids && exists r :: r in docs && r.id == id
    ensures |Without(docs, ids + {id})| == |Without(docs, ids)| - 1
  {
    var init, last := docs[..|docs| - 1], docs[|docs| - 1];
    assert docs == init + [last];
    if last.id == id {
      forall r | r in init
        ensures r.id != id
      {
        var j :| 0 <= j < |init| && init[j] == r;
        assert docs[j].id != docs[|docs| - 1].id;
      }
      NothingToRemove(init, ids, id);
    } else {
      WithoutOneMore(init, ids, id);
    }
  }

  lemma {:induction false} NothingToRemove(docs: seq<Record>, ids: set<string>, id: string)
    requires forall r :: r in docs ==> r.id != id
    ensures Without(docs, ids + {id}) == Without(docs, ids)
  {
    if docs != [] {
      assert docs[|docs| - 1] in docs;
      assert forall r :: r in docs[..|docs| - 1] ==> r in docs;
      NothingToRemove(docs[..|docs| - 1], ids, id);
    }
  }

  // ---------------------------------------------------------------- the collection

  class Collection {
    var docs: seq<Record>

    constructor (docs: seq<Record>)
      ensures this.docs == docs
    {
      this.docs := docs;
    }

    /** Deletes the first document with the id; with distinct ids, the only one. */
    method DeleteOne(id: string) returns (deleted: nat)
      modifies this
      ensures DistinctIds(old(docs)) ==> docs == Without(old(docs), {id})
      ensures deleted == |old(docs)| - |docs|
      ensures (exists r :: r in old(docs) && r.id == id) ==> deleted == 1
    {
      var i := 0;
      while i < |docs| && docs[i].id != id
        invariant 0 <= i <= |docs|
        invariant forall j :: 0 <= j < i ==> docs[j].id != id
      {
        i := i + 1;
      }
      if DistinctIds(docs) {
        OneGone(docs, id, i);
      }
      if i < |docs| {
        docs := docs[..i] + docs[i + 1..];
        deleted := 1;
      } else {
        deleted := 0;
      }
    }
  }

  lemma {:induction false} NoneGone(docs: seq<Record>, id: string)
    requires forall j :: 0 <= j < |docs| ==> docs[j].id != id
    ensures Without(docs, {id}) == docs
  {
    if docs != [] {
      NoneGone(docs[..|docs| - 1], id);
    }
  }

  lemma {:induction false} OneGone(docs: seq<Record>, id: string, i: nat)
    requires DistinctIds(docs) && i <= |docs| && (i < |docs| ==> docs[i].id == id)
    requires forall j :: 0 <= j < i ==> docs[j].id != id
    ensures Without(docs, {id}) == if i < |docs| then docs[..i] + docs[i + 1..] else docs
  {
    if i >= |docs| - 1 {
      if i < |docs| {
        NoneGone(docs[..i], id);
        assert docs[..i] + docs[i + 1..] == docs[..i];
      } else {
        NoneGone(docs, id);
      }
    } else {
      var init, last := docs[..|docs| - 1], docs[|docs| - 1];
      OneGone(init, id, i);
      CutOne(docs, i);
    }
  }

  lemma CutOne(docs: seq<Record>, i: nat)
    requires i < |docs| - 1
    ensures var init := docs[..|docs| - 1];
      docs[..i] + docs[i + 1..] == (init[..i] + init[i + 1..]) + [docs[|docs| - 1]]
  {
  }

  // ---------------------------------------------------------------- the script

  method AnalyzeDuplicates(docs: seq<Record>) returns (duplicates: map<Key, seq<Record>>)
    ensures forall k :: k in duplicates <==> |GroupOf(docs, k)| > 1
    ensures forall k :: k in duplicates ==> duplicates[k] == GroupOf(docs, k)
  {
    var groups: map<Key, seq<Record>> := map[];
    for i := 0 to |docs|
      invariant forall k :: k in groups ==> groups[k] == GroupOf(docs[..i], k)
      invariant forall k :: k !in groups ==> GroupOf(docs[..i], k) == []
    {
      assert docs[..i + 1][..i] == docs[..i];
      var k := KeyOf(docs[i]);
      groups := groups[k := (if k in groups then groups[k] else []) + [docs[i]]];
    }
    assert docs[..|docs|] == docs;
    duplicates := map k | k in groups && |groups[k]| > 1 :: groups[k];
  }

  /**
    A dry run changes nothing and predicts what a fix removes: the number of records
    minus the number of distinct keys.  A fix deletes exactly the losers.
   */
  method RemoveDuplicates(collection: Collection, duplicates: map<Key, seq<Record>>, dryRun: bool)
      returns (removed: nat, predicted: nat)
    requires DistinctIds(collection.docs)
    requires forall k :: k in duplicates <==> |GroupOf(collection.docs, k)| > 1
    requires forall k :: k in duplicates ==> duplicates[k] == GroupOf(collection.docs, k)
    modifies collection
    ensures dryRun ==> collection.docs == old(collection.docs) && removed == 0
    ensures !dryRun ==>
      collection.docs == Without(old(collection.docs), AllLosers(old(collection.docs))) && removed == predicted
    ensures predicted == |old(collection.docs)| - |KeySet(old(collection.docs))|
  {
    ghost var docs := collection.docs;
    ghost var done: set<Key> := {};
    var todo := duplicates.Keys;
    removed, predicted := 0, 0;
    WithoutNone(docs);
    assert Losers(docs, {}) == {};
    while todo != {}
      invariant forall k :: k in duplicates <==> k in done || k in todo
      invariant forall k :: k in todo ==> k !in done
      invariant predicted == |docs| - |Without(docs, Losers(docs, done))|
      invariant UpTo(docs, collection.docs, Losers(docs, done), dryRun) && removed == if dryRun then 0 else predicted
      decreases todo
    {
      var k :| k in todo;
      var sorted := NewestFirst(duplicates[k]);
      GroupStep(docs, k, done);
      predicted := predicted + |sorted| - 1;
      var n := RemoveAllButFirst(collection, sorted, dryRun, Without(docs, Losers(docs, done)));
      removed := removed + n;
      todo := todo - {k};
      done := done + {k};
    }
    assert done == duplicates.Keys;
    OnlyDuplicatesLose(docs, duplicates.Keys);
    OnePerKey(docs);
  }

  /** The collection as it has to be once these ids have been dealt with. */
  ghost predicate UpTo(docs: seq<Record>, now: seq<Record>, ids: set<string>, dryRun: bool) {
    now == if dryRun then docs else Without(docs, ids)
  }

  method RemoveAllButFirst(collection: Collection, sorted: seq<Record>, dryRun: bool, ghost base: seq<Record>)
    returns (removed: nat)
    requires sorted != [] && DistinctIds(sorted) && DistinctIds(base)
    requires forall j :: 0 <= j < |sorted| ==> sorted[j] in base
    requires !dryRun ==> collection.docs == base
    modifies collection
    ensures dryRun ==> collection.docs == old(collection.docs) && removed == 0
    ensures !dryRun ==> collection.docs == Without(base, Ids(sorted, |sorted|)) && removed == |sorted| - 1
    ensures |Without(base, Ids(sorted, |sorted|))| == |base| - (|sorted| - 1)
  {
    removed := 0;
    WithoutNone(base);
    assert Ids(sorted, 1) == {};
    for j := 1 to |sorted|
      invariant dryRun ==> collection.docs == old(collection.docs) && removed == 0
      invariant !dryRun ==> collection.docs == Without(base, Ids(sorted, j)) && removed == j - 1
      invariant |Without(base, Ids(sorted, j))| == |base| - (j - 1)
    {
      IdsStep(sorted, j);
      StillThere(base, Ids(sorted, j), sorted[j]);
      if !dryRun {
        var deleted := collection.DeleteOne(sorted[j].id);
        if deleted > 0 {
          removed := removed + 1;
        }
      }
    }
  }

  /** A record not dealt with yet is still there, and deleting it removes one record. */
  lemma StillThere(docs: seq<Record>, ids: set<string>, r: Record)
    requires DistinctIds(docs) && r in docs && r.id !in ids
    ensures r in Without(docs, ids) && DistinctIds(Without(docs, ids))
    ensures Without(Without(docs, ids), {r.id}) == Without(docs, ids + {r.id})
    ensures |Without(docs, ids + {r.id})| == |Without(docs, ids)| - 1
  {
    WithoutIs(docs, ids);
    WithoutBoth(docs, ids, {r.id});
    WithoutOneMore(docs, ids, r.id);
  }

  /** The ids of all but the first of the first n records. */
  function Ids(s: seq<Record>, n: nat): set<string>
    requires n <= |s|
  {
    set j | 1 <= j < n :: s[j].id
  }

  ghost function AllLosers(docs: seq<Record>): set<string> {
    Losers(docs, KeySet(docs))
  }

  lemma IdsStep(s: seq<Record>, j: nat)
    requires DistinctIds(s) && 1 <= j < |s|
    ensures s[j].id !in Ids(s, j) && Ids(s, j + 1) == Ids(s, j) + {s[j].id}
  {
  }

  lemma NotAmong(docs: seq<Record>, done: set<Key>, q: Record)
    requires DistinctIds(docs) && q in docs && KeyOf(q) !in done
    ensures q.id !in Losers(docs, done)
  {
    if r :| r in docs && KeyOf(r) in done && !Keeps(docs, r) && r.id == q.id {
      SameId(docs, r, q);
    }
  }

  /** One group dealt with: what goes, in terms of the whole collection. */
  lemma GroupStep(docs: seq<Record>, k: Key, done: set<Key>)
    requires DistinctIds(docs) && k !in done && |GroupOf(docs, k)| > 1
    ensures
      var sorted := NewestFirst(GroupOf(docs, k));
      var base := Without(docs, Losers(docs, done));
      && |sorted| > 1 && DistinctIds(sorted) && DistinctIds(base)
      && (forall j :: 0 <= j < |sorted| ==> sorted[j] in base)
      && Without(base, Ids(sorted, |sorted|)) == Without(docs, Losers(docs, done + {k}))
  {
    var sorted := NewestFirst(GroupOf(docs, k));
    GroupIs(docs, k);
    NewestFirstIs(GroupOf(docs, k));
    WithoutIs(docs, Losers(docs, done));
    forall j | 0 <= j < |sorted|
      ensures sorted[j] in Without(docs, Losers(docs, done))
    {
      GroupStillThere(docs, k, done, j);
    }
    GroupLosers(docs, k, done);
    WithoutBoth(docs, Losers(docs, done), Ids(sorted, |sorted|));
  }

  lemma GroupStillThere(docs: seq<Record>, k: Key, done: set<Key>, j: nat)
    requires DistinctIds(docs) && k !in done && j < |NewestFirst(GroupOf(docs, k))|
    ensures NewestFirst(GroupOf(docs, k))[j] in Without(docs, Losers(docs, done))
  {
    GroupIs(docs, k);
    NewestFirstIs(GroupOf(docs, k));
    WithoutIs(docs, Losers(docs, done));
    var r := NewestFirst(GroupOf(docs, k))[j];
    assert r in NewestFirst(GroupOf(docs, k));
    NotAmong(docs, done, r);
  }

  lemma SameId(docs: seq<Record>, r: Record, q: Record)
    requires DistinctIds(docs) && r in docs && q in docs && r.id == q.id
    ensures r == q
  {
  }

  lemma GroupLosers(docs: seq<Record>, k: Key, done: set<Key>)
    requires DistinctIds(docs) && |GroupOf(docs, k)| > 1
    ensures var sorted := NewestFirst(GroupOf(docs, k));
      |sorted| > 1 && Losers(docs, done + {k}) == Losers(docs, done) + Ids(sorted, |sorted|)
  {
    GroupIs(docs, k);
    NewestFirstIs(GroupOf(docs, k));
    var sorted := NewestFirst(GroupOf(docs, k));
    forall id | id in Losers(docs, done + {k})
      ensures id in Losers(docs, done) + Ids(sorted, |sorted|)
    {
      var r :| r in docs && KeyOf(r) in done + {k} && !Keeps(docs, r) && r.id == id;
      if KeyOf(r) == k {
        assert r in sorted;
        var j :| 0 <= j < |sorted| && sorted[j] == r;
      }
    }
    forall id | id in Ids(sorted, |sorted|)
      ensures id in Losers(docs, done + {k})
    {
      var j :| 1 <= j < |sorted| && sorted[j].id == id;
      assert sorted[j] in sorted && sorted[0].id != sorted[j].id;
    }
  }

  lemma OnlyDuplicatesLose(docs: seq<Record>, dups: set<Key>)
    requires DistinctIds(docs) && forall k :: k in dups <==> |GroupOf(docs, k)| > 1
    ensures Losers(docs, dups) == AllLosers(docs)
  {
    forall r | r in docs && !Keeps(docs, r)
      ensures KeyOf(r) in dups
    {
      GroupIs(docs, KeyOf(r));
      NewestFirstIs(GroupOf(docs, KeyOf(r)));
      assert r in NewestFirst(GroupOf(docs, KeyOf(r)));
    }
    forall k | k in dups
      ensures k in KeySet(docs)
    {
      GroupIs(docs, k);
      assert GroupOf(docs, k)[0] in docs;
    }
  }

  // ---------------------------------------------------------------- what is left

  /** No other record has its key. */
  ghost predicate Alone(docs: seq<Record>, r: Record) {
    forall q :: q in docs && KeyOf(q) == KeyOf(r) ==> q == r
  }

  /** Synced as recently as the other one, and with as high a version if both were synced at once. */
  ghost predicate NotOlder(r: Record, q: Record) {
    && (q.syncedAt.Some? ==> r.syncedAt.Some? && r.syncedAt.value >= q.syncedAt.value)
    && (q.syncedAt == r.syncedAt ==> r.stateVersion >= q.stateVersion)
  }

  /** The i-th record is the first of the newest ones of its worker and lab. */
  ghost predicate FirstOfNewest(docs: seq<Record>, i: nat)
    requires i < |docs|
  {
    forall j :: 0 <= j < |docs| && docs[j].workerId == docs[i].workerId && docs[j].labId == docs[i].labId ==>
      if j < i then !NotOlder(docs[j], docs[i]) else NotOlder(docs[i], docs[j])
  }

  lemma NotOlderIff(r: Record, q: Record)
    ensures NotOlder(r, q) <==> AtLeast(r, q)
  {
  }

  lemma HeadAfterInsert(r: Record, s: seq<Record>)
    ensures Insert(r, s) != []
    ensures Insert(r, s)[0] == if s == [] || !AtLeast(s[0], r) then r else s[0]
  {
  }

  lemma SortedOneMore(group: seq<Record>, r: Record)
    ensures NewestFirst(group + [r]) == Insert(r, NewestFirst(group))
  {
    assert (group + [r])[..|group|] == group;
  }

  /** The head of a group to which a record is added last. */
  lemma NewHead(docs: seq<Record>, r: Record)
    requires DistinctIds(docs + [r])
    ensures
      var sorted := NewestFirst(GroupOf(docs + [r], KeyOf(r)));
      sorted != [] && (sorted[0] == r <==> forall q :: q in docs && KeyOf(q) == KeyOf(r) ==> !AtLeast(q, r))
  {
    var group := GroupOf(docs, KeyOf(r));
    var sorted := NewestFirst(group);
    assert (docs + [r])[..|docs|] == docs && DistinctIds(docs);
    SortedOneMore(group, r);
    HeadAfterInsert(r, sorted);
    GroupIs(docs, KeyOf(r));
    NewestFirstIs(group);
    if sorted != [] {
      assert sorted[0] in group;
      assert sorted[0] != r by {
        var k :| 0 <= k < |docs| && docs[k] == sorted[0];
        assert (docs + [r])[k].id != (docs + [r])[|docs|].id;
      }
      forall q | q in docs && KeyOf(q) == KeyOf(r)
        ensures AtLeast(sorted[0], q)
      {
        assert q in sorted;
      }
    }
  }

  lemma {:induction false} HeadIs(docs: seq<Record>, i: nat)
    requires DistinctIds(docs) && i < |docs|
    ensures
      var sorted := NewestFirst(GroupOf(docs, KeyOf(docs[i])));
      sorted != [] && (sorted[0] == docs[i] <==> FirstOfNewest(docs, i))
  {
    var init, last := docs[..|docs| - 1], docs[|docs| - 1];
    assert docs == init + [last];
    forall r, q
      ensures NotOlder(r, q) <==> AtLeast(r, q)
    {
      NotOlderIff(r, q);
    }
    if i == |init| {
      NewHead(init, last);
    } else {
      HeadIs(init, i);
      if KeyOf(last) == KeyOf(docs[i]) {
        SortedOneMore(GroupOf(init, KeyOf(docs[i])), last);
        HeadAfterInsert(last, NewestFirst(GroupOf(init, KeyOf(docs[i]))));
        assert last.id != docs[i].id;
      }
    }
  }

  /** Exactly the first of the newest records of each worker and lab survives. */
  lemma SurvivorsAre(docs: seq<Record>, i: nat)
    requires DistinctIds(docs) && i < |docs|
    ensures docs[i] in Without(docs, AllLosers(docs)) <==> FirstOfNewest(docs, i)
  {
    Survivors(docs, docs[i]);
    HeadIs(docs, i);
  }

  /** What survives is exactly the newest record of each group. */
  lemma Survivors(docs: seq<Record>, r: Record)
    requires DistinctIds(docs)
    ensures r in Without(docs, AllLosers(docs)) <==> r in docs && Keeps(docs, r)
    ensures r in docs && Keeps(docs, r) ==> forall q :: q in docs && KeyOf(q) == KeyOf(r) ==> AtLeast(r, q)
    ensures r in docs && Alone(docs, r) ==> r in Without(docs, AllLosers(docs))
  {
    WithoutIs(docs, AllLosers(docs));
    GroupIs(docs, KeyOf(r));
    NewestFirstIs(GroupOf(docs, KeyOf(r)));
    var sorted := NewestFirst(GroupOf(docs, KeyOf(r)));
    if r in docs && Keeps(docs, r) {
      if q :| q in docs && KeyOf(q) in KeySet(docs) && !Keeps(docs, q) && q.id == r.id {
        SameId(docs, q, r);
        assert false;
      }
      forall q | q in docs && KeyOf(q) == KeyOf(r)
        ensures AtLeast(r, q)
      {
        assert q in sorted;
      }
    }
    if r in docs && forall q :: q in docs && KeyOf(q) == KeyOf(r) ==> q == r {
      assert r in sorted && sorted[0] in sorted;
    }
  }

  /** Exactly one record is left per key, and the number removed follows. */
  lemma OnePerKey(docs: seq<Record>)
    requires DistinctIds(docs)
    ensures var left := Without(docs, AllLosers(docs));
      && KeySet(left) == KeySet(docs)
      && (forall i, j :: 0 <= i < j < |left| ==> KeyOf(left[i]) != KeyOf(left[j]))
      && |left| == |KeySet(docs)|
  {
    var left := Without(docs, AllLosers(docs));
    WithoutIs(docs, AllLosers(docs));
    forall i, j | 0 <= i < j < |left|
      ensures KeyOf(left[i]) != KeyOf(left[j])
    {
      Survivors(docs, left[i]);
      Survivors(docs, left[j]);
      assert left[i] in left && left[j] in left;
    }
    forall r | r in docs
      ensures KeyOf(r) in KeySet(left)
    {
      GroupIs(docs, KeyOf(r));
      NewestFirstIs(GroupOf(docs, KeyOf(r)));
      var best := NewestFirst(GroupOf(docs, KeyOf(r)));
      assert r in best && best[0] in best;
      Survivors(docs, best[0]);
    }
    KeyCount(left);
  }

  lemma {:induction false} KeyCount(s: seq<Record>)
    requires forall i, j :: 0 <= i < j < |s| ==> KeyOf(s[i]) != KeyOf(s[j])
    ensures |KeySet(s)| == |s|
  {
    if s == [] {
      assert KeySet(s) == {};
    } else {
      var init, last := s[..|s| - 1], s[|s| - 1];
      KeyCount(init);
      assert s == init + [last];
      assert KeySet(s) == KeySet(init) + {KeyOf(last)};
    }
  }

  /** What a fix leaves. */
  lemma FixMeans(docs: seq<Record>)
    requires DistinctIds(docs)
    ensures
      var left := Without(docs, AllLosers(docs));
      && |left| == |KeySet(docs)| && KeySet(left) == KeySet(docs)
      && (forall i :: 0 <= i < |docs| ==> (docs[i] in left <==> FirstOfNewest(docs, i)))
      && (forall r :: r in left ==> r in docs)
      && (forall r :: r in docs && Alone(docs, r) ==> r in left)
  {
    var left := Without(docs, AllLosers(docs));
    OnePerKey(docs);
    forall r
      ensures r in left ==> r in docs
      ensures r in docs && Alone(docs, r) ==> r in left
    {
      Survivors(docs, r);
    }
    forall i | 0 <= i < |docs|
      ensures docs[i] in left <==> FirstOfNewest(docs, i)
    {
      SurvivorsAre(docs, i);
    }
  }

  /**
    The whole script: a dry run changes nothing; a fix leaves for every key that was there
    exactly one record, the newest of its key, and touches no record that was unique.
   */
  method FixDuplicates(collection: Collection, dryRun: bool) returns (removed: nat)
    requires DistinctIds(collection.docs)
    modifies collection
    ensures dryRun ==> collection.docs == old(collection.docs) && removed == 0
    ensures !dryRun ==>
      && removed == |old(collection.docs)| - |collection.docs|
      && KeySet(collection.docs) == KeySet(old(collection.docs)) && |collection.docs| == |KeySet(collection.docs)|
      && (forall i :: 0 <= i < |old(collection.docs)| ==>
            (old(collection.docs)[i] in collection.docs <==> FirstOfNewest(old(collection.docs), i)))
      && (forall r :: r in collection.docs ==> r in old(collection.docs))
      && (forall r :: r in old(collection.docs) && Alone(old(collection.docs), r) ==> r in collection.docs)
  {
    ghost var docs := collection.docs;
    var duplicates := AnalyzeDuplicates(collection.docs);
    var predicted;
    removed, predicted := RemoveDuplicates(collection, duplicates, dryRun);
    FixMeans(docs);
  }
}
