/**
 The endpoint table (endpoints.go): expanding an Endpoints object into address
 lists per port name, and taking the next address of a list.
 */
module Endpoints {
  import opened Rules

  datatype ServiceAddr = ServiceAddr(addr: string, port: int)

  datatype EndpointPort = EndpointPort(name: string, port: int)

  datatype Subset = Subset(addresses: seq<string>, ports: seq<EndpointPort>)

  datatype EndpointsObject = EndpointsObject(namespace: string, name: string, subsets: seq<Subset>)
  {
    function KeyFor(portName: string): ServiceKey {
      ServiceKey(namespace, name, portName)
    }
  }

  type AddrTable = map<ServiceKey, seq<ServiceAddr>>

  function AddrsOf(t: AddrTable, k: ServiceKey): seq<ServiceAddr> {
    if k in t then t[k] else []
  }

  /** Every address once, with the given port. */
  function WithPort(addresses: seq<string>, port: int): seq<ServiceAddr> {
    seq(|addresses|, i requires 0 <= i < |addresses| => ServiceAddr(addresses[i], port))
  }

  /** Every address once for each port of this name, port by port. */
  function PortCopies(addresses: seq<string>, ports: seq<EndpointPort>, portName: string): seq<ServiceAddr> {
    if ports == [] then []
    else
      var last := ports[|ports| - 1];
      PortCopies(addresses, ports[..|ports| - 1], portName) +
      (if last.name == portName then WithPort(addresses, last.port) else [])
  }

  function PortlessCopy(addresses: seq<string>, portName: string): seq<ServiceAddr> {
    if portName == "" then WithPort(addresses, 0) else []
  }

  /** The list for one port name, subset by subset; the portless name also lists every address once. */
  function Expand(subsets: seq<Subset>, portName: string): seq<ServiceAddr> {
    if subsets == [] then []
    else
      var last := subsets[|subsets| - 1];
      Expand(subsets[..|subsets| - 1], portName) +
      (PortlessCopy(last.addresses, portName) + PortCopies(last.addresses, last.ports, portName))
  }

  /** `t` has the non-empty ones among the lists `f` gives for the port names of `obj`, and no other key. */
  ghost predicate Lists(t: AddrTable, obj: EndpointsObject, f: string -> seq<ServiceAddr>) {
    && (forall k :: k in t ==> k == obj.KeyFor(k.portName) && t[k] != [])
    && (forall portName :: AddrsOf(t, obj.KeyFor(portName)) == f(portName))
  }

  // ---------- the loops of addItem ----------

  /** The innermost loops: append every address to the list of `key`. */
  method AddAll(t: AddrTable, key: ServiceKey, addresses: seq<string>, port: int) returns (t': AddrTable)
    ensures t' == if addresses == [] then t else t[key := AddrsOf(t, key) + WithPort(addresses, port)]
  {
    t' := t;
    for j := 0 to |addresses|
      invariant t' == if j == 0 then t else t[key := AddrsOf(t, key) + WithPort(addresses[..j], port)]
    {
      assert AddrsOf(t', key) == AddrsOf(t, key) + WithPort(addresses[..j], port);
      t' := t'[key := AddrsOf(t', key) + [ServiceAddr(addresses[j], port)]];
      assert WithPort(addresses[..j + 1], port) == WithPort(addresses[..j], port) + [ServiceAddr(addresses[j], port)];
      assert t'[key] == AddrsOf(t, key) + WithPort(addresses[..j + 1], port);
      assert t' == t[key := AddrsOf(t, key) + WithPort(addresses[..j + 1], port)];
    }
    assert addresses[..|addresses|] == addresses;
  }

  lemma AddAllLists(
      t: AddrTable, t': AddrTable, obj: EndpointsObject, portName: string, addresses: seq<string>, port: int,
      f: string -> seq<ServiceAddr>, f': string -> seq<ServiceAddr>)
    requires Lists(t, obj, f)
    requires t' == if addresses == [] then t
                   else t[obj.KeyFor(portName) := AddrsOf(t, obj.KeyFor(portName)) + WithPort(addresses, port)]
    requires forall n :: f'(n) == f(n) + (if n == portName then WithPort(addresses, port) else [])
    ensures Lists(t', obj, f')
  {
  }

  /** The lists when the loop over the ports of subset `i` has done `j` of them. */
  ghost function SoFar(obj: EndpointsObject, i: nat, j: nat): string -> seq<ServiceAddr>
    requires i < |obj.subsets| && j <= |obj.subsets[i].ports|
  {
    var s := obj.subsets[i];
    portName => Expand(obj.subsets[..i], portName) +
                (PortlessCopy(s.addresses, portName) + PortCopies(s.addresses, s.ports[..j], portName))
  }

  ghost function Done(obj: EndpointsObject, i: nat): string -> seq<ServiceAddr>
    requires i <= |obj.subsets|
  {
    portName => Expand(obj.subsets[..i], portName)
  }

  lemma PortlessDone(obj: EndpointsObject, i: nat, portName: string)
    requires i < |obj.subsets|
    ensures SoFar(obj, i, 0)(portName) == Done(obj, i)(portName) + PortlessCopy(obj.subsets[i].addresses, portName)
  {
  }

  lemma PortDone(obj: EndpointsObject, i: nat, j: nat, portName: string)
    requires i < |obj.subsets| && j < |obj.subsets[i].ports|
    ensures var s := obj.subsets[i];
            SoFar(obj, i, j + 1)(portName) ==
            SoFar(obj, i, j)(portName) +
            (if portName == s.ports[j].name then WithPort(s.addresses, s.ports[j].port) else [])
  {
    var ports := obj.subsets[i].ports;
    assert ports[..j + 1][..j] == ports[..j];
  }

  lemma SubsetDone(obj: EndpointsObject, i: nat, portName: string)
    requires i < |obj.subsets|
    ensures SoFar(obj, i, |obj.subsets[i].ports|)(portName) == Done(obj, i + 1)(portName)
  {
    assert obj.subsets[..i + 1][..i] == obj.subsets[..i];
    assert obj.subsets[i].ports[..|obj.subsets[i].ports|] == obj.subsets[i].ports;
  }

  /** The body of the loop over subsets. */
  method AddSubset(t: AddrTable, obj: EndpointsObject, i: nat) returns (t': AddrTable)
    requires i < |obj.subsets| && Lists(t, obj, Done(obj, i))
    ensures Lists(t', obj, Done(obj, i + 1))
  {
    var s := obj.subsets[i];
    t' := AddAll(t, obj.KeyFor(""), s.addresses, 0);
    forall n { PortlessDone(obj, i, n); }
    AddAllLists(t, t', obj, "", s.addresses, 0, Done(obj, i), SoFar(obj, i, 0));
    for j := 0 to |s.ports|
      invariant Lists(t', obj, SoFar(obj, i, j))
    {
      ghost var before := t';
      t' := AddAll(t', obj.KeyFor(s.ports[j].name), s.addresses, s.ports[j].port);
      forall n { PortDone(obj, i, j, n); }
      AddAllLists(before, t', obj, s.ports[j].name, s.addresses, s.ports[j].port,
                  SoFar(obj, i, j), SoFar(obj, i, j + 1));
    }
    forall n { SubsetDone(obj, i, n); }
  }

  method Collect(obj: EndpointsObject) returns (t: AddrTable)
    ensures Lists(t, obj, portName => Expand(obj.subsets, portName))
  {
    t := map[];
    for i := 0 to |obj.subsets|
      invariant Lists(t, obj, Done(obj, i))
    {
      t := AddSubset(t, obj, i);
    }
    assert obj.subsets[..|obj.subsets|] == obj.subsets;
  }

  // ---------- conservation of addresses ----------

  function PortsNamed(ports: seq<EndpointPort>, portName: string): nat {
    if ports == [] then 0
    else PortsNamed(ports[..|ports| - 1], portName) + if ports[|ports| - 1].name == portName then 1 else 0
  }

  function TotalLength(subsets: seq<Subset>, portName: string): nat {
    if subsets == [] then 0
    else
      var last := subsets[|subsets| - 1];
      TotalLength(subsets[..|subsets| - 1], portName) +
      |last.addresses| * (PortsNamed(last.ports, portName) + if portName == "" then 1 else 0)
  }

  lemma MultiplyOut(a: int, b: int, c: int)
    ensures a * (b + c) == a * b + a * c
  {
  }

  lemma {:induction false} PortCopiesLength(addresses: seq<string>, ports: seq<EndpointPort>, portName: string)
    ensures |PortCopies(addresses, ports, portName)| == |addresses| * PortsNamed(ports, portName)
  {
    if ports != [] {
      var front, last := ports[..|ports| - 1], ports[|ports| - 1];
      PortCopiesLength(addresses, front, portName);
      MultiplyOut(|addresses|, PortsNamed(front, portName), if last.name == portName then 1 else 0);
    }
  }

  /** The length is the sum over the subsets of addresses times matching ports, and once more without a port. */
  lemma {:induction false} ExpandLength(subsets: seq<Subset>, portName: string)
    ensures |Expand(subsets, portName)| == TotalLength(subsets, portName)
  {
    if subsets != [] {
      var last := subsets[|subsets| - 1];
      ExpandLength(subsets[..|subsets| - 1], portName);
      PortCopiesLength(last.addresses, last.ports, portName);
      MultiplyOut(|last.addresses|, PortsNamed(last.ports, portName), if portName == "" then 1 else 0);
    }
  }

  function Occurrences(sa: ServiceAddr, addresses: seq<string>, portName: string, ports: seq<EndpointPort>): nat {
    multiset(addresses)[sa.addr] * multiset(ports)[EndpointPort(portName, sa.port)]
  }

  /** How often `sa` must be listed: addresses times ports that agree with it. */
  function TotalOccurrences(sa: ServiceAddr, subsets: seq<Subset>, portName: string): nat {
    if subsets == [] then 0
    else
      var last := subsets[|subsets| - 1];
      TotalOccurrences(sa, subsets[..|subsets| - 1], portName) +
      Occurrences(sa, last.addresses, portName, last.ports) +
      if portName == "" && sa.port == 0 then multiset(last.addresses)[sa.addr] else 0
  }

  lemma {:induction false} WithPortCount(addresses: seq<string>, port: int, sa: ServiceAddr)
    ensures multiset(WithPort(addresses, port))[sa] == if sa.port == port then multiset(addresses)[sa.addr] else 0
  {
    if addresses != [] {
      var front, last := addresses[..|addresses| - 1], addresses[|addresses| - 1];
      WithPortCount(front, port, sa);
      assert addresses == front + [last];
      assert WithPort(addresses, port) == WithPort(front, port) + [ServiceAddr(last, port)];
    }
  }

  lemma CountWithLast(ports: seq<EndpointPort>, wanted: EndpointPort)
    requires ports != []
    ensures multiset(ports)[wanted] ==
            multiset(ports[..|ports| - 1])[wanted] + if ports[|ports| - 1] == wanted then 1 else 0
  {
    assert ports == ports[..|ports| - 1] + [ports[|ports| - 1]];
  }

  lemma {:induction false} PortCopiesCount(
      addresses: seq<string>, ports: seq<EndpointPort>, portName: string, sa: ServiceAddr)
    ensures multiset(PortCopies(addresses, ports, portName))[sa] == Occurrences(sa, addresses, portName, ports)
  {
    if ports != [] {
      var front, last := ports[..|ports| - 1], ports[|ports| - 1];
      var wanted := EndpointPort(portName, sa.port);
      PortCopiesCount(addresses, front, portName, sa);
      WithPortCount(addresses, last.port, sa);
      CountWithLast(ports, wanted);
      MultiplyOut(multiset(addresses)[sa.addr], multiset(front)[wanted], if last == wanted then 1 else 0);
    }
  }

  /** No address is lost, added or given another port. */
  lemma {:induction false} ExpandConservesAddresses(subsets: seq<Subset>, portName: string, sa: ServiceAddr)
    ensures multiset(Expand(subsets, portName))[sa] == TotalOccurrences(sa, subsets, portName)
  {
    if subsets != [] {
      var last := subsets[|subsets| - 1];
      ExpandConservesAddresses(subsets[..|subsets| - 1], portName, sa);
      PortCopiesCount(last.addresses, last.ports, portName, sa);
      WithPortCount(last.addresses, 0, sa);
    }
  }

  lemma {:induction false} ExpandGrows(subsets: seq<Subset>, portName: string, i: nat)
    requires i <= |subsets|
    ensures Expand(subsets[..i], portName) <= Expand(subsets, portName)
  {
    if i < |subsets| {
      ExpandGrows(subsets[..|subsets| - 1], portName, i);
      assert subsets[..|subsets| - 1][..i] == subsets[..i];
    } else {
      assert subsets[..i] == subsets;
    }
  }

  lemma {:induction false} PortCopiesGrow(addresses: seq<string>, ports: seq<EndpointPort>, portName: string, j: nat)
    requires j <= |ports|
    ensures PortCopies(addresses, ports[..j], portName) <= PortCopies(addresses, ports, portName)
  {
    if j < |ports| {
      PortCopiesGrow(addresses, ports[..|ports| - 1], portName, j);
      assert ports[..|ports| - 1][..j] == ports[..j];
    } else {
      assert ports[..j] == ports;
    }
  }

  lemma AtOffset<T>(whole: seq<T>, a: seq<T>, b: seq<T>, x: nat)
    requires a + b <= whole && x < |b|
    ensures |a| + x < |whole| && whole[|a| + x] == b[x]
  {
    assert (a + b)[|a| + x] == b[x];
  }

  /** What one subset adds to the list. */
  function Part(s: Subset, portName: string): seq<ServiceAddr> {
    PortlessCopy(s.addresses, portName) + PortCopies(s.addresses, s.ports, portName)
  }

  lemma OneMorePart(subsets: seq<Subset>, portName: string, i: nat)
    requires i < |subsets|
    ensures Expand(subsets[..i + 1], portName) == Expand(subsets[..i], portName) + Part(subsets[i], portName)
  {
    assert subsets[..i + 1][..i] == subsets[..i];
  }

  /** It begins where the parts of the earlier subsets end. */
  lemma PartAt(subsets: seq<Subset>, portName: string, i: nat, x: nat)
    requires i < |subsets| && x < |Part(subsets[i], portName)|
    ensures var at := TotalLength(subsets[..i], portName) + x;
            at < |Expand(subsets, portName)| && Expand(subsets, portName)[at] == Part(subsets[i], portName)[x]
  {
    ExpandGrows(subsets, portName, i + 1);
    OneMorePart(subsets, portName, i);
    ExpandLength(subsets[..i], portName);
    AtOffset(Expand(subsets, portName), Expand(subsets[..i], portName), Part(subsets[i], portName), x);
  }

  /** Where the copies of port `j` begin within the part of its subset. */
  function PortStart(s: Subset, j: nat, portName: string): nat
    requires j <= |s.ports|
  {
    |s.addresses| * (PortsNamed(s.ports[..j], portName) + if portName == "" then 1 else 0)
  }

  lemma PortAt(s: Subset, portName: string, j: nat, q: nat)
    requires j < |s.ports| && s.ports[j].name == portName && q < |s.addresses|
    ensures var at := PortStart(s, j, portName) + q;
            at < |Part(s, portName)| && Part(s, portName)[at] == ServiceAddr(s.addresses[q], s.ports[j].port)
  {
    var portless, earlier := PortlessCopy(s.addresses, portName), PortCopies(s.addresses, s.ports[..j], portName);
    var copies, own := PortCopies(s.addresses, s.ports, portName), WithPort(s.addresses, s.ports[j].port);
    PortCopiesGrow(s.addresses, s.ports, portName, j + 1);
    assert s.ports[..j + 1][..j] == s.ports[..j];
    AtOffset(copies, earlier, own, q);
    AtOffset(Part(s, portName), portless, copies, |earlier| + q);
    PortCopiesLength(s.addresses, s.ports[..j], portName);
    MultiplyOut(|s.addresses|, PortsNamed(s.ports[..j], portName), if portName == "" then 1 else 0);
  }

  /** Where address `q` of subset `i` stands in the list, for port `j`. */
  function PlaceOf(subsets: seq<Subset>, portName: string, i: nat, j: nat, q: nat): nat
    requires i < |subsets| && j <= |subsets[i].ports|
  {
    TotalLength(subsets[..i], portName) + (PortStart(subsets[i], j, portName) + q)
  }

  /** Addresses are listed subset by subset, first without a port if that is asked for, then port by port, in order. */
  lemma ExpandInOrder(subsets: seq<Subset>, portName: string, i: nat, q: nat)
    requires i < |subsets| && q < |subsets[i].addresses|
    ensures var list, s, start := Expand(subsets, portName), subsets[i], TotalLength(subsets[..i], portName);
            && (portName == "" ==> start + q < |list| && list[start + q] == ServiceAddr(s.addresses[q], 0))
            && forall j :: 0 <= j < |s.ports| && s.ports[j].name == portName ==>
                 var at := PlaceOf(subsets, portName, i, j, q);
                 at < |list| && list[at] == ServiceAddr(s.addresses[q], s.ports[j].port)
  {
    var s := subsets[i];
    if portName == "" {
      assert Part(s, portName)[q] == ServiceAddr(s.addresses[q], 0);
      PartAt(subsets, portName, i, q);
    }
    forall j | 0 <= j < |s.ports| && s.ports[j].name == portName
      ensures var at := PlaceOf(subsets, portName, i, j, q);
              at < |Expand(subsets, portName)| &&
              Expand(subsets, portName)[at] == ServiceAddr(s.addresses[q], s.ports[j].port)
    {
      PortAt(s, portName, j, q);
      PartAt(subsets, portName, i, PortStart(s, j, portName) + q);
    }
  }

  /** `sa` is an address that `obj` publishes for this port name. */
  ghost predicate Publishes(obj: EndpointsObject, portName: string, sa: ServiceAddr) {
    exists s :: s in obj.subsets && sa.addr in s.addresses &&
                (EndpointPort(portName, sa.port) in s.ports || (portName == "" && sa.port == 0))
  }

  lemma {:induction false} OccurrencesPublished(sa: ServiceAddr, subsets: seq<Subset>, portName: string)
    ensures TotalOccurrences(sa, subsets, portName) > 0 <==>
            exists s :: s in subsets && sa.addr in s.addresses &&
                        (EndpointPort(portName, sa.port) in s.ports || (portName == "" && sa.port == 0))
  {
    if subsets != [] {
      var front, last := subsets[..|subsets| - 1], subsets[|subsets| - 1];
      OccurrencesPublished(sa, front, portName);
      assert subsets == front + [last];
      var a, p := multiset(last.addresses)[sa.addr], multiset(last.ports)[EndpointPort(portName, sa.port)];
      assert a * p > 0 <==> a > 0 && p > 0;
    }
  }

  /** The list for a port name holds exactly what the object publishes for it. */
  lemma ExpandIsPublished(obj: EndpointsObject, portName: string, sa: ServiceAddr)
    ensures sa in Expand(obj.subsets, portName) <==> Publishes(obj, portName, sa)
  {
    ExpandConservesAddresses(obj.subsets, portName, sa);
    OccurrencesPublished(sa, obj.subsets, portName);
    assert sa in Expand(obj.subsets, portName) <==> multiset(Expand(obj.subsets, portName))[sa] > 0;
  }

  /** `obj` has addresses under exactly this key. */
  ghost predicate Supplies(obj: EndpointsObject, k: ServiceKey) {
    k == obj.KeyFor(k.portName) && Expand(obj.subsets, k.portName) != []
  }

  lemma CollectedKeys(t: AddrTable, obj: EndpointsObject)
    requires Lists(t, obj, portName => Expand(obj.subsets, portName))
    ensures forall k :: k in t <==> Supplies(obj, k)
    ensures forall k :: k in t ==> t[k] == Expand(obj.subsets, k.portName)
  {
  }
}
