/**
  Collecting the security requirements of a route: the walk over its dependency graph,
  which may share nodes and have cycles, and the de-duplication of what it collected.
 */
module DependencyWalk {
  import opened Wrappers

  datatype Requirement = Requirement(schemeName: Option<string>, modelName: Option<string>, scopes: seq<string>)

  datatype Dependant = Dependant(requirements: seq<Requirement>, dependencies: seq<nat>)

  /** Nodes under their object identity. */
  type Graph = map<nat, Dependant>

  ghost predicate Closed(g: Graph) {
    forall n, d :: n in g && d in g[n].dependencies ==> d in g
  }

  ghost predicate NoDuplicates<T>(s: seq<T>) {
    forall i, j :: 0 <= i < j < |s| ==> s[i] != s[j]
  }

  // ---------------------------------------------------------------- reachability

  ghost predicate Path(g: Graph, p: seq<nat>) {
    forall k :: 0 <= k < |p| - 1 ==> p[k] in g && p[k + 1] in g[p[k]].dependencies
  }

  ghost predicate PathTo(g: Graph, p: seq<nat>, from: nat, to: nat) {
    p != [] && p[0] == from && p[|p| - 1] == to && Path(g, p)
  }

  ghost predicate Reachable(g: Graph, from: nat, to: nat) {
    exists p :: PathTo(g, p, from, to)
  }

  lemma ReachesItself(g: Graph, n: nat)
    ensures Reachable(g, n, n)
  {
    assert PathTo(g, [n], n, n);
  }

  lemma ReachesFurther(g: Graph, from: nat, n: nat, d: nat)
    requires Reachable(g, from, n) && n in g && d in g[n].dependencies
    ensures Reachable(g, from, d)
  {
    var p :| PathTo(g, p, from, n);
    assert PathTo(g, p + [d], from, d);
  }

  /** A set closed under dependencies contains all that is reachable from inside it. */
  lemma {:induction false} ClosedContains(g: Graph, s: set<nat>, p: seq<nat>, from: nat, to: nat)
    requires PathTo(g, p, from, to) && from in s
    requires forall n, d :: n in s && n in g && d in g[n].dependencies ==> d in s
    ensures to in s
    decreases |p|
  {
    if |p| > 1 {
      ClosedContains(g, s, p[..|p| - 1], from, p[|p| - 2]);
    }
  }

  // ---------------------------------------------------------------- the plain recursive walk

  function Elements(s: seq<nat>): set<nat> {
    set n | n in s
  }

  /** Depth first, a node before its dependencies, the last dependency first. */
  function Visit(g: Graph, n: nat, visited: set<nat>): seq<nat>
    decreases |g.Keys - visited|, 0
  {
    if n in visited || n !in g then []
    else
      assert g.Keys - visited == g.Keys - (visited + {n}) + {n};
      [n] + VisitAll(g, g[n].dependencies, visited + {n})
  }

  function VisitAll(g: Graph, ns: seq<nat>, visited: set<nat>): seq<nat>
    decreases |g.Keys - visited|, |ns|
  {
    if ns == [] then []
    else
      var first := Visit(g, ns[|ns| - 1], visited);
      Fewer(g.Keys - (visited + Elements(first)), g.Keys - visited);
      first + VisitAll(g, ns[..|ns| - 1], visited + Elements(first))
  }

  lemma Fewer(a: set<nat>, b: set<nat>)
    requires a <= b
    ensures |a| <= |b|
  {
    assert b == a + (b - a);
  }

  lemma ConcatLast(s: seq<nat>, t: seq<nat>)
    requires t != []
    ensures (s + t)[|s + t| - 1] == t[|t| - 1] && (s + t)[..|s + t| - 1] == s + t[..|t| - 1]
  {
  }

  lemma {:induction false} VisitAllOfBoth(g: Graph, s: seq<nat>, t: seq<nat>, visited: set<nat>)
    ensures VisitAll(g, s + t, visited)
            == VisitAll(g, t, visited) + VisitAll(g, s, visited + Elements(VisitAll(g, t, visited)))
    decreases |t|
  {
    if t == [] {
      assert s + t == s && visited + Elements([]) == visited;
    } else {
      var n, init := t[|t| - 1], t[..|t| - 1];
      var first := Visit(g, n, visited);
      var v := visited + Elements(first);
      ConcatLast(s, t);
      VisitAllOfBoth(g, s, init, v);
      var rest := VisitAll(g, init, v);
      assert visited + Elements(first + rest) == v + Elements(rest);
      assert first + (rest + VisitAll(g, s, v + Elements(rest))) == (first + rest) + VisitAll(g, s, v + Elements(rest));
    }
  }

  // ---------------------------------------------------------------- the worklist walk

  function Gather(g: Graph, order: seq<nat>): seq<Requirement>
    requires forall n :: n in order ==> n in g
  {
    if order == [] then [] else Gather(g, order[..|order| - 1]) + g[order[|order| - 1]].requirements
  }

  /** Taken and waiting nodes are reachable; what a taken node depends on is taken or waits. */
  ghost predicate WalkInv(g: Graph, root: nat, stack: seq<nat>, order: seq<nat>) {
    && NoDuplicates(order)
    && (forall n :: n in stack ==> n in g && Reachable(g, root, n))
    && (forall n :: n in order ==> n in g && Reachable(g, root, n))
    && (root in order || root in stack)
    && (forall n, d :: n in order && d in g[n].dependencies ==> d in order || d in stack)
  }

  lemma SkipKeeps(g: Graph, root: nat, below: seq<nat>, n: nat, order: seq<nat>)
    requires WalkInv(g, root, below + [n], order) && n in order
    ensures WalkInv(g, root, below, order)
  {
    forall k | k in below
      ensures k in below + [n]
    {
    }
  }

  lemma TakeKeeps(g: Graph, root: nat, below: seq<nat>, n: nat, order: seq<nat>)
    requires Closed(g) && WalkInv(g, root, below + [n], order) && n !in order
    ensures n in g && WalkInv(g, root, below + g[n].dependencies, order + [n])
  {
    assert n in below + [n];
    var deps := g[n].dependencies;
    forall k | k in below + deps
      ensures k in g && Reachable(g, root, k)
    {
      if k in below {
        assert k in below + [n];
      } else {
        ReachesFurther(g, root, n, k);
      }
    }
    forall m, d | m in order + [n] && d in g[m].dependencies
      ensures d in order + [n] || d in below + deps
    {
      if m in order {
        assert d in order || d in below + [n];
      }
    }
  }

  /** What the recursive walk has left to do is what the stack still holds. */
  ghost predicate OrderInv(g: Graph, root: nat, stack: seq<nat>, order: seq<nat>) {
    order + VisitAll(g, stack, Elements(order)) == Visit(g, root, {})
  }

  lemma SkipKeepsOrder(g: Graph, root: nat, below: seq<nat>, n: nat, order: seq<nat>)
    requires OrderInv(g, root, below + [n], order) && n in order
    ensures OrderInv(g, root, below, order)
  {
    var visited := Elements(order);
    assert (below + [n])[..|below|] == below && (below + [n])[|below|] == n;
    assert Visit(g, n, visited) == [] && visited + Elements([]) == visited;
    assert VisitAll(g, below + [n], visited) == [] + VisitAll(g, below, visited);
  }

  lemma TakeKeepsOrder(g: Graph, root: nat, below: seq<nat>, n: nat, order: seq<nat>)
    requires OrderInv(g, root, below + [n], order) && n in g && n !in order
    ensures OrderInv(g, root, below + g[n].dependencies, order + [n])
  {
    var visited := Elements(order);
    StepOfWalk(g, below, n, visited);
    assert Elements(order + [n]) == visited + {n};
    var rest := VisitAll(g, below + g[n].dependencies, visited + {n});
    assert order + ([n] + rest) == (order + [n]) + rest;
  }

  lemma AllTaken(g: Graph, root: nat, order: seq<nat>)
    requires WalkInv(g, root, [], order) && OrderInv(g, root, [], order)
    ensures forall n :: n in order <==> Reachable(g, root, n)
    ensures order == Visit(g, root, {})
  {
    forall n | Reachable(g, root, n)
      ensures n in order
    {
      var p :| PathTo(g, p, root, n);
      ClosedContains(g, Elements(order), p, root, n);
    }
  }

  lemma TakingShrinks(g: Graph, order: seq<nat>, n: nat)
    requires n in g && n !in order
    ensures Elements(order + [n]) == Elements(order) + {n}
    ensures |g.Keys - Elements(order + [n])| < |g.Keys - Elements(order)|
  {
    assert Elements(order + [n]) == Elements(order) + {n};
    assert g.Keys - Elements(order) == g.Keys - Elements(order + [n]) + {n};
  }

  lemma WalkStarts(g: Graph, root: nat)
    requires root in g
    ensures WalkInv(g, root, [root], []) && OrderInv(g, root, [root], []) && Elements([]) == {}
  {
    ReachesItself(g, root);
    assert [root][..0] == [];
    var none: seq<nat> := [];
    assert Elements(none) == {};
    assert VisitAll(g, [root], {}) == Visit(g, root, {}) + [] == Visit(g, root, {});
    assert none + VisitAll(g, [root], {}) == VisitAll(g, [root], {});
  }

  lemma LastOff(s: seq<nat>)
    requires s != []
    ensures s == s[..|s| - 1] + [s[|s| - 1]]
  {
  }

  lemma GatherMore(g: Graph, order: seq<nat>, n: nat)
    requires (forall k :: k in order ==> k in g) && n in g
    ensures Gather(g, order + [n]) == Gather(g, order) + g[n].requirements
  {
    assert (order + [n])[..|order|] == order;
  }

  /**
    The walk ends on every finite graph.  It takes each node reachable from the root
    exactly once and no other, in the order of the recursive walk, and collects
    exactly the requirements of the nodes it takes.
   */
  method Collect(g: Graph, root: nat) returns (collected: seq<Requirement>)
    requires Closed(g) && root in g
    ensures var order := Visit(g, root, {});
      && NoDuplicates(order)
      && (forall n :: n in order <==> Reachable(g, root, n))
      && (forall n :: n in order ==> n in g)
      && collected == Gather(g, order)
  {
    var stack, visited := [root], {};
    ghost var order: seq<nat> := [];
    collected := [];
    WalkStarts(g, root);
    while stack != []
      invariant visited == Elements(order)
      invariant WalkInv(g, root, stack, order) && OrderInv(g, root, stack, order)
      invariant collected == Gather(g, order)
      decreases |g.Keys - Elements(order)|, |stack|
    {
      var current := stack[|stack| - 1];
      var below := stack[..|stack| - 1];
      LastOff(stack);
      stack := below;
      if current in visited {
        SkipKeeps(g, root, below, current, order);
        SkipKeepsOrder(g, root, below, current, order);
        continue;
      }
      TakeKeeps(g, root, below, current, order);
      TakeKeepsOrder(g, root, below, current, order);
      TakingShrinks(g, order, current);
      GatherMore(g, order, current);
      visited := visited + {current};
      collected := collected + g[current].requirements;
      stack := stack + g[current].dependencies;
      order := order + [current];
    }
    AllTaken(g, root, order);
  }

  lemma StepOfWalk(g: Graph, below: seq<nat>, n: nat, visited: set<nat>)
    requires n in g && n !in visited
    ensures VisitAll(g, below + [n], visited) == [n] + VisitAll(g, below + g[n].dependencies, visited + {n})
  {
    var deps, v := g[n].dependencies, visited + {n};
    var inner := VisitAll(g, deps, v);
    assert (below + [n])[..|below|] == below;
    assert visited + Elements([n] + inner) == v + Elements(inner);
    VisitAllOfBoth(g, below, deps, v);
    assert [n] + (inner + VisitAll(g, below, v + Elements(inner)))
        == ([n] + inner) + VisitAll(g, below, v + Elements(inner));
  }

  // ---------------------------------------------------------------- de-duplication

  type Key = (string, seq<string>)

  predicate Named(name: Option<string>) {
    name.Some? && name.value != ""
  }

  /** The scheme's own name, else its model's name, else none. */
  function SchemeName(r: Requirement): Option<string> {
    if Named(r.schemeName) then r.schemeName
    else if Named(r.modelName) then r.modelName
    else None
  }

  predicate HasKey(r: Requirement, k: Key) {
    SchemeName(r) == Some(k.0) && r.scopes == k.1
  }

  /** The keys of the named requirements, in order, repetitions included. */
  function Keys(reqs: seq<Requirement>): seq<Key> {
    if reqs == [] then []
    else
      var r := reqs[|reqs| - 1];
      Keys(reqs[..|reqs| - 1]) + if SchemeName(r).Some? then [(SchemeName(r).value, r.scopes)] else []
  }

  /** Each element where it first occurs. */
  function Firsts(ks: seq<Key>): seq<Key> {
    if ks == [] then []
    else
      var init := Firsts(ks[..|ks| - 1]);
      if ks[|ks| - 1] in init then init else init + [ks[|ks| - 1]]
  }

  lemma {:induction false} KeysAre(reqs: seq<Requirement>, k: Key)
    ensures k in Keys(reqs) <==> exists i :: 0 <= i < |reqs| && HasKey(reqs[i], k)
  {
    if reqs != [] {
      var init, last := reqs[..|reqs| - 1], reqs[|reqs| - 1];
      KeysAre(init, k);
      if k in Keys(reqs) && k !in Keys(init) {
        assert HasKey(reqs[|reqs| - 1], k);
      }
      if i :| 0 <= i < |init| && HasKey(init[i], k) {
        assert HasKey(reqs[i], k);
      }
    }
  }

  lemma {:induction false} FirstsAre(ks: seq<Key>, k: Key)
    ensures NoDuplicates(Firsts(ks))
    ensures k in Firsts(ks) <==> k in ks
  {
    if ks != [] {
      FirstsAre(ks[..|ks| - 1], k);
      FirstsAre(ks[..|ks| - 1], ks[|ks| - 1]);
    }
  }

  /**
    The name of a scheme, over its fields: its own name if that is given and not empty,
    else in the same way its model's.
   */
  ghost predicate Carries(r: Requirement, k: Key) {
    && k.0 != "" && r.scopes == k.1
    && (r.schemeName == Some(k.0)
        || ((r.schemeName == None || r.schemeName == Some("")) && r.modelName == Some(k.0)))
  }

  lemma CarriesKey(r: Requirement, k: Key)
    ensures HasKey(r, k) <==> Carries(r, k)
  {
  }

  /** An earlier kept pair occurs before any occurrence of a later one. */
  ghost predicate Precedes(reqs: seq<Requirement>, k: Key, later: Key) {
    exists i :: 0 <= i < |reqs| && Carries(reqs[i], k) && forall j :: 0 <= j <= i ==> !Carries(reqs[j], later)
  }

  lemma PrecedesStays(init: seq<Requirement>, r: Requirement, k: Key, later: Key)
    requires Precedes(init, k, later)
    ensures Precedes(init + [r], k, later)
  {
    var i :| 0 <= i < |init| && Carries(init[i], k) && forall j :: 0 <= j <= i ==> !Carries(init[j], later);
    assert Carries((init + [r])[i], k);
  }

  lemma CarriedIffKept(reqs: seq<Requirement>, k: Key)
    ensures k in Firsts(Keys(reqs)) <==> exists i :: 0 <= i < |reqs| && Carries(reqs[i], k)
  {
    FirstsAre(Keys(reqs), k);
    KeysAre(reqs, k);
    forall i | 0 <= i < |reqs|
      ensures HasKey(reqs[i], k) <==> Carries(reqs[i], k)
    {
      CarriesKey(reqs[i], k);
    }
  }

  lemma NewComesLast(init: seq<Requirement>, k: Key, later: Key)
    requires k in Firsts(Keys(init)) && later !in Firsts(Keys(init))
    ensures Precedes(init, k, later)
  {
    CarriedIffKept(init, k);
    CarriedIffKept(init, later);
  }

  lemma {:induction false} KeptInOrder(reqs: seq<Requirement>, a: nat, b: nat)
    requires a < b < |Firsts(Keys(reqs))|
    ensures Precedes(reqs, Firsts(Keys(reqs))[a], Firsts(Keys(reqs))[b])
  {
    var init, kept := reqs[..|reqs| - 1], Firsts(Keys(reqs));
    KeysOfOneMore(reqs);
    if b < |Firsts(Keys(init))| {
      KeptInOrder(init, a, b);
    } else {
      NewComesLast(init, kept[a], kept[b]);
    }
    PrecedesStays(init, reqs[|reqs| - 1], kept[a], kept[b]);
    assert init + [reqs[|reqs| - 1]] == reqs;
  }

  lemma KeysOfOneMore(reqs: seq<Requirement>)
    requires reqs != []
    ensures
      var before, r := Firsts(Keys(reqs[..|reqs| - 1])), reqs[|reqs| - 1];
      Firsts(Keys(reqs)) == before
      || (SchemeName(r).Some? && (SchemeName(r).value, r.scopes) !in before
          && Firsts(Keys(reqs)) == before + [(SchemeName(r).value, r.scopes)])
  {
    var init, r := Keys(reqs[..|reqs| - 1]), reqs[|reqs| - 1];
    if SchemeName(r).Some? {
      assert (init + [(SchemeName(r).value, r.scopes)])[..|init|] == init;
    } else {
      assert init + [] == init;
    }
  }

  /**
    Each named (scheme, scopes) pair is kept exactly once, where it first occurs; none is
    lost, and there is no other.
   */
  method Deduplicate(reqs: seq<Requirement>) returns (kept: seq<Key>)
    ensures kept == Firsts(Keys(reqs))
    ensures NoDuplicates(kept)
    ensures forall k :: k in kept <==> exists i :: 0 <= i < |reqs| && Carries(reqs[i], k)
    ensures forall a, b :: 0 <= a < b < |kept| ==> Precedes(reqs, kept[a], kept[b])
  {
    kept := [];
    assert reqs[..0] == [];
    for i := 0 to |reqs|
      invariant kept == Firsts(Keys(reqs[..i]))
    {
      assert reqs[..i + 1][..i] == reqs[..i];
      var name := SchemeName(reqs[i]);
      if name.Some? {
        var key := (name.value, reqs[i].scopes);
        assert (Keys(reqs[..i]) + [key])[..|Keys(reqs[..i])|] == Keys(reqs[..i]);
        if key !in kept {
          kept := kept + [key];
        }
      } else {
        assert Keys(reqs[..i]) + [] == Keys(reqs[..i]);
      }
    }
    assert reqs[..|reqs|] == reqs;
    KeptAre(reqs);
  }

  lemma KeptAre(reqs: seq<Requirement>)
    ensures
      var kept := Firsts(Keys(reqs));
      && NoDuplicates(kept)
      && (forall k :: k in kept <==> exists i :: 0 <= i < |reqs| && Carries(reqs[i], k))
      && (forall a, b :: 0 <= a < b < |kept| ==> Precedes(reqs, kept[a], kept[b]))
  {
    var kept := Firsts(Keys(reqs));
    FirstsAre(Keys(reqs), ("", []));
    forall k
      ensures k in kept <==> exists i :: 0 <= i < |reqs| && Carries(reqs[i], k)
    {
      CarriedIffKept(reqs, k);
    }
    forall a, b | 0 <= a < b < |kept|
      ensures Precedes(reqs, kept[a], kept[b])
    {
      KeptInOrder(reqs, a, b);
    }
  }

  lemma {:induction false} GatheredFrom(g: Graph, order: seq<nat>, r: Requirement)
    requires forall n :: n in order ==> n in g
    ensures r in Gather(g, order) <==> exists n :: n in order && r in g[n].requirements
  {
    if order != [] {
      GatheredFrom(g, order[..|order| - 1], r);
      assert forall n :: n in order <==> n in order[..|order| - 1] || n == order[|order| - 1];
    }
  }

  /** A route is annotated with exactly the named requirements of what it depends on. */
  method RouteSecurity(g: Graph, root: nat) returns (kept: seq<Key>)
    requires Closed(g) && root in g
    ensures
      var order := Visit(g, root, {});
      (forall n :: n in order ==> n in g) && kept == Firsts(Keys(Gather(g, order)))
    ensures NoDuplicates(kept)
    ensures forall k :: k in kept <==>
      exists n, r :: n in g && Reachable(g, root, n) && r in g[n].requirements && Carries(r, k)
    ensures forall n, r, s :: n in g && Reachable(g, root, n) && r in g[n].requirements && s != "" ==>
      && (r.schemeName == Some(s) ==> (s, r.scopes) in kept)
      && ((r.schemeName == None || r.schemeName == Some("")) && r.modelName == Some(s) ==> (s, r.scopes) in kept)
  {
    var reqs := Collect(g, root);
    kept := Deduplicate(reqs);
    forall k
      ensures k in kept <==> exists n, r :: n in g && Reachable(g, root, n) && r in g[n].requirements && Carries(r, k)
    {
      SecurityOf(g, root, Visit(g, root, {}), k);
    }
    forall n, r, s | n in g && Reachable(g, root, n) && r in g[n].requirements && s != ""
      ensures r.schemeName == Some(s) ==> (s, r.scopes) in kept
      ensures (r.schemeName == None || r.schemeName == Some("")) && r.modelName == Some(s) ==> (s, r.scopes) in kept
    {
      assert Carries(r, (s, r.scopes)) <==>
        (r.schemeName == Some(s) || ((r.schemeName == None || r.schemeName == Some("")) && r.modelName == Some(s)));
    }
  }

  lemma SecurityOf(g: Graph, root: nat, order: seq<nat>, k: Key)
    requires forall n :: n in order ==> n in g
    requires forall n :: n in order <==> Reachable(g, root, n)
    ensures (exists i :: 0 <= i < |Gather(g, order)| && Carries(Gather(g, order)[i], k))
            <==> exists n, r :: n in g && Reachable(g, root, n) && r in g[n].requirements && Carries(r, k)
  {
    var reqs := Gather(g, order);
    if i :| 0 <= i < |reqs| && Carries(reqs[i], k) {
      GatheredFrom(g, order, reqs[i]);
    }
    if n, r :| n in g && Reachable(g, root, n) && r in g[n].requirements && Carries(r, k) {
      GatheredFrom(g, order, r);
      var i :| 0 <= i < |reqs| && reqs[i] == r;
    }
  }
}
