/**
 The endpoint table (endpoints.go, `epsSet`): address lists by service key, each
 with its round-robin counter.  A list once published is never changed, only
 replaced, so callers may hold lists that are no longer in the table.
 */
module EndpointTable {
  import opened Rules
  import opened Endpoints
  import opened RoundRobin

  /** One published address list, with the addresses it has answered so far. */
  datatype AddrList = AddrList(key: ServiceKey, addrs: seq<ServiceAddr>, index: nat, answered: seq<ServiceAddr>)

  /** Every list ever published, and which one is current for a key. */
  datatype EpsState = EpsState(lists: seq<AddrList>, current: map<ServiceKey, nat>)

  const NO_ADDR := ServiceAddr("", 0)

  function NewList(obj: EndpointsObject, k: ServiceKey): AddrList {
    AddrList(k, Expand(obj.subsets, k.portName), 0, [])
  }

  /** `addItem` when it has published all the keys it supplies except `todo`. */
  ghost predicate PartlyPublished(s: EpsState, obj: EndpointsObject, s': EpsState, todo: set<ServiceKey>) {
    && s.lists <= s'.lists
    && (forall i :: |s.lists| <= i < |s'.lists| ==>
          Supplies(obj, s'.lists[i].key) && s'.lists[i] == NewList(obj, s'.lists[i].key))
    && (forall k :: k in s'.current <==> k in s.current || (Supplies(obj, k) && k !in todo))
    && (forall k :: k in s'.current ==>
          if Supplies(obj, k) && k !in todo
          then |s.lists| <= s'.current[k] < |s'.lists| && s'.lists[s'.current[k]].key == k
          else s'.current[k] == s.current[k])
  }

  /** What `addItem` does: a new list for every key the object supplies, every other key as before. */
  ghost predicate Published(s: EpsState, obj: EndpointsObject, s': EpsState) {
    PartlyPublished(s, obj, s', {})
  }

  /** One more list, current for its key. */
  function WithList(s: EpsState, l: AddrList): EpsState {
    EpsState(s.lists + [l], s.current[l.key := |s.lists|])
  }

  lemma PublishOne(s: EpsState, obj: EndpointsObject, s': EpsState, todo: set<ServiceKey>, k: ServiceKey)
    requires PartlyPublished(s, obj, s', todo) && k in todo && Supplies(obj, k)
    ensures PartlyPublished(s, obj, WithList(s', NewList(obj, k)), todo - {k})
  {
  }

  /** The address that the next ticket of the list leads to. */
  function NextOf(l: AddrList): ServiceAddr
    requires l.addrs != []
  {
    l.addrs[Bump(l.index) % |l.addrs|]
  }

  /** One `atomic.AddUint64` on the list's counter. */
  function Ticket(l: AddrList): AddrList
    requires l.addrs != []
  {
    l.(index := Bump(l.index), answered := l.answered + [NextOf(l)])
  }

  /** Every list has addresses, and every key's list is its own. */
  ghost predicate StateOk(s: EpsState) {
    && (forall i :: 0 <= i < |s.lists| ==> s.lists[i].addrs != [])
    && (forall k :: k in s.current ==> s.current[k] < |s.lists| && s.lists[s.current[k]].key == k)
  }

  /** The address the next ticket of `k` leads to; the empty address for an unknown key. */
  function NextAddr(s: EpsState, k: ServiceKey): ServiceAddr
    requires StateOk(s)
  {
    if k in s.current then NextOf(s.lists[s.current[k]]) else NO_ADDR
  }

  /** The table after that ticket. */
  function AfterTicket(s: EpsState, k: ServiceKey): EpsState
    requires StateOk(s)
  {
    if k in s.current then s.(lists := s.lists[s.current[k] := Ticket(s.lists[s.current[k]])]) else s
  }

  /** `serviceAddrSet`; its place among the published lists and what it has answered are ghost. */
  class AddrSet {
    const addrs: seq<ServiceAddr>
    var index: nat
    ghost const key: ServiceKey
    ghost const id: nat
    ghost var answered: seq<ServiceAddr>

    constructor (addrs: seq<ServiceAddr>, ghost key: ServiceKey, ghost id: nat)
      ensures this.id == id && Value() == AddrList(key, addrs, 0, [])
    {
      this.addrs, index := addrs, 0;
      this.key, this.id, answered := key, id, [];
    }

    ghost function Value(): AddrList
      reads this
    {
      AddrList(key, addrs, index, answered)
    }

    method Take() returns (addr: ServiceAddr)
      requires addrs != []
      modifies this
      ensures addr == addrs[((old(index) + 1) % 0x1_0000_0000_0000_0000) % |addrs|]
      ensures Value() == Ticket(old(Value())) && answered == old(answered) + [addr]
    {
      index := Bump(index);
      addr := addrs[index % |addrs|];
      answered := answered + [addr];
    }
  }

  ghost function ListValues(lists: seq<AddrSet>): seq<AddrList>
    reads lists
  {
    seq(|lists|, i requires 0 <= i < |lists| reads lists => lists[i].Value())
  }

  lemma ListValuesGrow(lists: seq<AddrSet>, v: AddrSet)
    ensures ListValues(lists + [v]) == ListValues(lists) + [v.Value()]
  {
  }

  class EpsSet {
    var sets: map<ServiceKey, AddrSet>
    ghost var lists: seq<AddrSet>

    ghost predicate Valid()
      reads this
    {
      && (forall i :: 0 <= i < |lists| ==> lists[i].id == i && lists[i].addrs != [])
      && (forall k :: k in sets ==> sets[k].id < |lists| && lists[sets[k].id] == sets[k] && sets[k].key == k)
    }

    ghost function State(): (s: EpsState)
      reads this, lists
      ensures Valid() ==> StateOk(s)
    {
      EpsState(ListValues(lists), map k | k in sets :: sets[k].id)
    }

    constructor ()
      ensures Valid() && State() == EpsState([], map[]) && lists == []
    {
      sets, lists := map[], [];
    }

    /** `eps.set[k] = v` with a new list. */
    method Put(k: ServiceKey, addrs: seq<ServiceAddr>)
      requires Valid() && addrs != []
      modifies this
      ensures Valid()
      ensures State() == WithList(old(State()), AddrList(k, addrs, 0, []))
    {
      var v := new AddrSet(addrs, k, |lists|);
      Link(k, v);
    }

    method Link(k: ServiceKey, v: AddrSet)
      requires Valid() && v.addrs != [] && v.key == k && v.id == |lists|
      modifies this
      ensures Valid()
      ensures State() == WithList(old(State()), v.Value())
    {
      ghost var before := State();
      ListValuesGrow(lists, v);
      sets := sets[k := v];
      lists := lists + [v];
      assert State().current == before.current[k := |before.lists|];
    }

    /** `addItem` */
    method AddItem(obj: EndpointsObject)
      requires Valid()
      modifies this
      ensures Valid() && Published(old(State()), obj, State())
    {
      var t := Collect(obj);
      CollectedKeys(t, obj);
      ghost var start := State();
      var todo := t.Keys;
      while todo != {}
        invariant todo <= t.Keys && Valid()
        invariant PartlyPublished(start, obj, State(), todo)
        decreases todo
      {
        var k :| k in todo;
        PublishOne(start, obj, State(), todo, k);
        Put(k, t[k]);
        todo := todo - {k};
      }
    }

    /** `getNextAddr`: the modulo is always defined, and no other list is touched. */
    method GetNextAddr(key: ServiceKey) returns (addr: ServiceAddr)
      requires Valid()
      modifies if key in sets then {sets[key]} else {}
      ensures Valid() && addr == NextAddr(old(State()), key)
      ensures State() == AfterTicket(old(State()), key)
    {
      if key !in sets {
        return NO_ADDR;
      }
      ghost var before := State();
      addr := sets[key].Take();
      assert ListValues(lists) == before.lists[sets[key].id := sets[key].Value()];
    }
  }
}
