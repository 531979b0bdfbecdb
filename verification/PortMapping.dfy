/**
  Resolving the port mapping of a run from three sources: the lab's external interfaces,
  the ports allocated to the session, and the worker's address.
 */
module PortMapping {
  import opened Wrappers

  /** `None` is a key the dictionary does not have; an absent label is the empty one. */
  datatype Interface = Interface(nodeLabel: string, protocol: Option<string>, port: Option<int>, host: Option<string>)

  /** A host may be there and still be nothing: `None` or the empty string. */
  type Host = Option<string>

  datatype Entry = Entry(protocol: string, externalPort: int, internalPort: int, host: Host)

  datatype PortInfo =
    | Fields(protocol: Option<string>, externalPort: Option<int>, internalPort: Option<int>, host: Option<Host>)
    | Number(port: int)
    | Other  // neither a dictionary nor an integer

  type Overlay = map<string, PortInfo>

  predicate Truthy(h: Host) {
    h.Some? && h.value != ""
  }

  function Or(h: Host, fallback: Host): Host {
    if Truthy(h) then h else fallback
  }

  // ---------------------------------------------------------------- what a label resolves to

  /** The last interface with the label counts; interfaces without a label do not. */
  function LastInterface(ifaces: seq<Interface>, node: string): Option<Interface> {
    if ifaces == [] || node == "" then None
    else if ifaces[|ifaces| - 1].nodeLabel == node then Some(ifaces[|ifaces| - 1])
    else LastInterface(ifaces[..|ifaces| - 1], node)
  }

  function Base(iface: Interface, ip: Host): Entry {
    Entry(GetOr(iface.protocol, "unknown"), GetOr(iface.port, 0), GetOr(iface.port, 0), Or(iface.host, ip))
  }

  /** An allocation overrides the port and host of a known node ... */
  function Override(e: Entry, info: PortInfo): Entry {
    match info
    case Fields(_, ext, _, host) => e.(externalPort := GetOr(ext, e.externalPort), host := GetOr(host, e.host))
    case Number(p) => e.(externalPort := p)
    case Other => e
  }

  /** ... and is all there is for an unknown one. */
  function Added(info: PortInfo, ip: Host): Option<Entry> {
    match info
    case Fields(protocol, ext, internal, host) =>
      Some(Entry(GetOr(protocol, "unknown"), GetOr(ext, 0), GetOr(internal, 0), Or(GetOr(host, None), ip)))
    case Number(p) => Some(Entry("unknown", p, p, ip))
    case Other => None
  }

  function Overlaid(e: Option<Entry>, node: string, overlay: Overlay, ip: Host): Option<Entry> {
    if node !in overlay then e
    else if e.Some? then Some(Override(e.value, overlay[node]))
    else Added(overlay[node], ip)
  }

  function WithHost(e: Entry, ip: Host): Entry {
    if !Truthy(e.host) && Truthy(ip) then e.(host := ip) else e
  }

  function BaseOf(ifaces: seq<Interface>, ip: Host, node: string): Option<Entry> {
    var last := LastInterface(ifaces, node);
    if last.Some? then Some(Base(last.value, ip)) else None
  }

  /** The specification, label by label. */
  function ResolvedFor(ifaces: seq<Interface>, ip: Host, overlay: Overlay, node: string): Option<Entry> {
    var e := Overlaid(BaseOf(ifaces, ip, node), node, overlay, ip);
    if e.Some? then Some(WithHost(e.value, ip)) else None
  }

  ghost predicate IsResolution(m: map<string, Entry>, ifaces: seq<Interface>, ip: Host, overlay: Overlay) {
    forall node :: Lookup(m, node) == ResolvedFor(ifaces, ip, overlay, node)
  }

  function Lookup<T>(m: map<string, T>, node: string): Option<T> {
    if node in m then Some(m[node]) else None
  }

  // ---------------------------------------------------------------- the three passes

  /** A dictionary as its items in iteration order. */
  ghost predicate DistinctKeys(items: seq<(string, PortInfo)>) {
    forall i, j :: 0 <= i < j < |items| ==> items[i].0 != items[j].0
  }

  function AsMap(items: seq<(string, PortInfo)>): Overlay {
    if items == [] then map[] else AsMap(items[..|items| - 1])[items[|items| - 1].0 := items[|items| - 1].1]
  }

  method BasePass(ifaces: seq<Interface>, ip: Host) returns (resolved: map<string, Entry>)
    ensures forall node :: Lookup(resolved, node) == BaseOf(ifaces, ip, node)
  {
    resolved := map[];
    for i := 0 to |ifaces|
      invariant forall node :: Lookup(resolved, node) == BaseOf(ifaces[..i], ip, node)
    {
      ghost var before := resolved;
      var iface := ifaces[i];
      if iface.nodeLabel != "" {
        resolved := resolved[iface.nodeLabel := Base(iface, ip)];
      }
      forall node
        ensures Lookup(resolved, node) == BaseOf(ifaces[..i + 1], ip, node)
      {
        assert Lookup(before, node) == BaseOf(ifaces[..i], ip, node);
        LastOfPrefix(ifaces, i, node);
      }
    }
    assert ifaces[..|ifaces|] == ifaces;
  }

  lemma LastOfPrefix(ifaces: seq<Interface>, i: nat, node: string)
    requires i < |ifaces|
    ensures LastInterface(ifaces[..i + 1], node)
            == if node != "" && ifaces[i].nodeLabel == node then Some(ifaces[i]) else LastInterface(ifaces[..i], node)
  {
    assert ifaces[..i + 1][..i] == ifaces[..i];
  }

  method OverlayPass(before: map<string, Entry>, items: seq<(string, PortInfo)>, ip: Host)
    returns (resolved: map<string, Entry>)
    requires DistinctKeys(items)
    ensures forall node :: Lookup(resolved, node) == Overlaid(Lookup(before, node), node, AsMap(items), ip)
  {
    resolved := before;
    for i := 0 to |items|
      invariant forall node :: Lookup(resolved, node) == Overlaid(Lookup(before, node), node, AsMap(items[..i]), ip)
    {
      assert items[..i + 1][..i] == items[..i];
      var (node, info) := items[i];
      NotYet(items, i);
      if node in resolved {
        resolved := resolved[node := Override(resolved[node], info)];
      } else if Added(info, ip).Some? {
        resolved := resolved[node := Added(info, ip).value];
      }
    }
    assert items[..|items|] == items;
  }

  lemma {:induction false} MapKeys(items: seq<(string, PortInfo)>, node: string)
    ensures node in AsMap(items) <==> exists k :: 0 <= k < |items| && items[k].0 == node
  {
    if items != [] {
      var init := items[..|items| - 1];
      MapKeys(init, node);
      if node in AsMap(items) && node !in AsMap(init) {
        assert items[|items| - 1].0 == node;
      }
      if k :| 0 <= k < |init| && init[k].0 == node {
        assert items[k].0 == node;
      }
    }
  }

  lemma NotYet(items: seq<(string, PortInfo)>, i: nat)
    requires i < |items| && DistinctKeys(items)
    ensures items[i].0 !in AsMap(items[..i])
  {
    MapKeys(items[..i], items[i].0);
  }

  method HostPass(before: map<string, Entry>, ip: Host) returns (resolved: map<string, Entry>)
    ensures resolved.Keys == before.Keys
    ensures forall node :: node in before ==> resolved[node] == WithHost(before[node], ip)
  {
    resolved := before;
    var rest := before.Keys;
    while rest != {}
      invariant rest <= before.Keys == resolved.Keys
      invariant forall node :: node in before ==>
        resolved[node] == if node in rest then before[node] else WithHost(before[node], ip)
      decreases rest
    {
      var node :| node in rest;
      if !Truthy(resolved[node].host) && Truthy(ip) {
        resolved := resolved[node := resolved[node].(host := ip)];
      }
      rest := rest - {node};
    }
  }

  /** `resolve` gives each label what the specification says, whatever the iteration order. */
  method Resolve(ifaces: seq<Interface>, ip: Host, items: seq<(string, PortInfo)>)
    returns (resolved: map<string, Entry>)
    requires DistinctKeys(items)
    ensures IsResolution(resolved, ifaces, ip, AsMap(items))
  {
    resolved := BasePass(ifaces, ip);
    resolved := OverlayPass(resolved, items, ip);
    resolved := HostPass(resolved, ip);
  }

  // ---------------------------------------------------------------- consequences

  /** There is one resolution only. */
  lemma ResolutionUnique(
    m: map<string, Entry>, m': map<string, Entry>, ifaces: seq<Interface>, ip: Host, overlay: Overlay)
    requires IsResolution(m, ifaces, ip, overlay) && IsResolution(m', ifaces, ip, overlay)
    ensures m == m'
  {
    assert forall node :: Lookup(m, node) == Lookup(m', node);
    assert m.Keys == m'.Keys by {
      assert forall node :: node in m <==> Lookup(m, node).Some?;
      assert forall node :: node in m' <==> Lookup(m', node).Some?;
    }
    forall node | node in m
      ensures m[node] == m'[node]
    {
      assert Lookup(m, node) == Lookup(m', node);
    }
  }

  lemma {:induction false} AsMapAt(items: seq<(string, PortInfo)>, k: nat)
    requires DistinctKeys(items) && k < |items|
    ensures items[k].0 in AsMap(items) && AsMap(items)[items[k].0] == items[k].1
  {
    if k < |items| - 1 {
      AsMapAt(items[..|items| - 1], k);
    }
  }

  /** Whatever order the allocated ports are iterated in, the same mapping is resolved. */
  lemma OrderIrrelevant(
    m: map<string, Entry>, m': map<string, Entry>, ifaces: seq<Interface>, ip: Host,
    items: seq<(string, PortInfo)>, other: seq<(string, PortInfo)>)
    requires DistinctKeys(items) && DistinctKeys(other)
    requires forall x :: x in items <==> x in other
    requires IsResolution(m, ifaces, ip, AsMap(items)) && IsResolution(m', ifaces, ip, AsMap(other))
    ensures m == m'
  {
    Agree(items, other);
    Agree(other, items);
    assert AsMap(items) == AsMap(other);
    ResolutionUnique(m, m', ifaces, ip, AsMap(items));
  }

  lemma Agree(items: seq<(string, PortInfo)>, other: seq<(string, PortInfo)>)
    requires DistinctKeys(items) && DistinctKeys(other)
    requires forall x :: x in items ==> x in other
    ensures forall node :: node in AsMap(items) ==> node in AsMap(other) && AsMap(other)[node] == AsMap(items)[node]
  {
    forall node | node in AsMap(items)
      ensures node in AsMap(other) && AsMap(other)[node] == AsMap(items)[node]
    {
      MapKeys(items, node);
      var k :| 0 <= k < |items| && items[k].0 == node;
      AsMapAt(items, k);
      assert items[k] in other;
      var j :| 0 <= j < |other| && other[j] == items[k];
      AsMapAt(other, j);
    }
  }

  /** An entry's host: the one given unless it is nothing or empty, else the worker's address if that is not. */
  ghost predicate HostFrom(host: Host, given: Host, ip: Host) {
    if given != None && given != Some("") then host == given
    else host == if ip != None && ip != Some("") then ip else given
  }

  /** A labelled interface that no later one repeats, with what the allocated ports say of it. */
  lemma InterfaceResolved(m: map<string, Entry>, ifaces: seq<Interface>, ip: Host, overlay: Overlay, i: nat)
    requires IsResolution(m, ifaces, ip, overlay) && i < |ifaces| && ifaces[i].nodeLabel != ""
    requires forall j :: i < j < |ifaces| ==> ifaces[j].nodeLabel != ifaces[i].nodeLabel
    ensures
      var f, node := ifaces[i], ifaces[i].nodeLabel;
      && node in m
      && m[node].protocol == (if f.protocol.Some? then f.protocol.value else "unknown")
      && m[node].internalPort == (if f.port.Some? then f.port.value else 0)
      && (node !in overlay || overlay[node] == Other ==> m[node].externalPort == m[node].internalPort)
      && (node in overlay && overlay[node].Number? ==> m[node].externalPort == overlay[node].port)
      && (node in overlay && overlay[node].Fields? ==>
            m[node].externalPort
            == if overlay[node].externalPort.Some? then overlay[node].externalPort.value else m[node].internalPort)
      && (if node in overlay && overlay[node].Fields? && overlay[node].host.Some?
          then HostFrom(m[node].host, overlay[node].host.value, ip)
          else m[node].host == if f.host != None && f.host != Some("") then f.host else ip)
  {
    var node := ifaces[i].nodeLabel;
    LastIs(ifaces, i);
    assert Lookup(m, node) == ResolvedFor(ifaces, ip, overlay, node);
  }

  lemma {:induction false} LastIs(ifaces: seq<Interface>, i: nat)
    requires i < |ifaces| && ifaces[i].nodeLabel != ""
    requires forall j :: i < j < |ifaces| ==> ifaces[j].nodeLabel != ifaces[i].nodeLabel
    ensures LastInterface(ifaces, ifaces[i].nodeLabel) == Some(ifaces[i])
  {
    if i < |ifaces| - 1 {
      LastIs(ifaces[..|ifaces| - 1], i);
    }
  }

  /** A node no interface has is there exactly if its ports were allocated in a form that can be read. */
  lemma AllocatedResolved(m: map<string, Entry>, ifaces: seq<Interface>, ip: Host, overlay: Overlay, node: string)
    requires IsResolution(m, ifaces, ip, overlay)
    requires node == "" || forall i :: 0 <= i < |ifaces| ==> ifaces[i].nodeLabel != node
    ensures node in m <==> node in overlay && overlay[node] != Other
    ensures node in overlay && overlay[node].Number? ==>
      m[node] == Entry("unknown", overlay[node].port, overlay[node].port, ip)
    ensures node in overlay && overlay[node].Fields? ==>
      var f := overlay[node];
      && m[node].protocol == (if f.protocol.Some? then f.protocol.value else "unknown")
      && m[node].externalPort == (if f.externalPort.Some? then f.externalPort.value else 0)
      && m[node].internalPort == (if f.internalPort.Some? then f.internalPort.value else 0)
      && m[node].host
         == if f.host.Some? && f.host.value != None && f.host.value != Some("") then f.host.value else ip
  {
    NoInterface(ifaces, node);
    assert Lookup(m, node) == ResolvedFor(ifaces, ip, overlay, node);
  }

  lemma {:induction false} NoInterface(ifaces: seq<Interface>, node: string)
    requires node == "" || forall i :: 0 <= i < |ifaces| ==> ifaces[i].nodeLabel != node
    ensures LastInterface(ifaces, node) == None
  {
    if ifaces != [] && node != "" {
      NoInterface(ifaces[..|ifaces| - 1], node);
    }
  }

  /** With a worker address every entry has a host. */
  lemma EveryEntryHasHost(m: map<string, Entry>, ifaces: seq<Interface>, ip: Host, overlay: Overlay, node: string)
    requires IsResolution(m, ifaces, ip, overlay) && ip != None && ip != Some("") && node in m
    ensures m[node].host != None && m[node].host != Some("")
  {
    assert Lookup(m, node) == ResolvedFor(ifaces, ip, overlay, node);
  }

  /** A resolution, frozen, as the allocated ports of a later one. */
  function Frozen(m: map<string, Entry>): Overlay {
    map node | node in m :: var e := m[node];
      Fields(Some(e.protocol), Some(e.externalPort), Some(e.internalPort), Some(e.host))
  }

  /** Resolving again with one's own output as the allocated ports changes nothing. */
  lemma ResolutionIsFixpoint(m: map<string, Entry>, ifaces: seq<Interface>, ip: Host, overlay: Overlay)
    requires IsResolution(m, ifaces, ip, overlay)
    ensures IsResolution(m, ifaces, ip, Frozen(m))
  {
    forall node
      ensures Lookup(m, node) == ResolvedFor(ifaces, ip, Frozen(m), node)
    {
      assert Lookup(m, node) == ResolvedFor(ifaces, ip, overlay, node);
    }
  }
}
