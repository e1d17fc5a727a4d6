/**
 Serving requests (proxy.go, `getTarget`; endpoints.go, `getNextAddr`) while both
 tables change: a machine of interleaved steps of callers and updaters.  A caller
 keeps the route and the address list it has read, however old they become.
 */
module Serving {
  import opened Wrappers
  import opened Rules
  import opened RoutingTable
  import opened IngressCompiler
  import opened Endpoints
  import opened RoundRobin
  import opened EndpointTable
  import Reconcile
  import Runs

  /** How far a caller has come: routed, holding the list it looked up, answered. */
  datatype Call =
    | Routed(route: Route)
    | Holding(route: Route, list: Option<nat>)
    | Answered(route: Route, addr: ServiceAddr)

  datatype World = World(
    table: Table,
    eps: EpsState,
    published: set<EndpointsObject>,
    calls: map<nat, Call>)

  const START := World(map[], EpsState([], map[]), {}, map[])

  datatype Action =
    | IngressHandled(obj: Option<IngressObject>)
    | EndpointsHandled(eps: EndpointsObject)
    | Begin(caller: nat, r: Request)
    | LookUp(caller: nat)
    | TakeTicket(caller: nat)
    | End(caller: nat)

  /** A plain request for an ingress that wants https is redirected before any address is looked up. */
  predicate MustRedirect(route: Route, req: Request) {
    route.ing.httpRedir && !req.tls
  }

  ghost predicate Publish(w: World, obj: EndpointsObject, w': World) {
    w' == w.(eps := w'.eps, published := w.published + {obj}) && Published(w.eps, obj, w'.eps)
  }

  ghost predicate Next(c: Config, find: Matcher, w: World, a: Action, w': World) {
    match a
    case IngressHandled(obj) =>
      w' == w.(table := w'.table) && exists failed :: Reconcile.Handles(c, w.table, obj, w'.table, failed)
    case EndpointsHandled(obj) => Publish(w, obj, w')
    case Begin(n, r) =>
      && n !in w.calls && Lookup(w.table, r, find).Some? && !MustRedirect(Lookup(w.table, r, find).value, r)
      && w' == w.(calls := w.calls[n := Routed(Lookup(w.table, r, find).value)])
    case LookUp(n) =>
      && n in w.calls && w.calls[n].Routed?
      && var route := w.calls[n].route;
         var list := if route.rule.backend in w.eps.current then Some(w.eps.current[route.rule.backend]) else None;
         w' == w.(calls := w.calls[n := Holding(route, list)])
    case TakeTicket(n) =>
      && n in w.calls && w.calls[n].Holding?
      && var route := w.calls[n].route;
         (match w.calls[n].list
          case None => w' == w.(calls := w.calls[n := Answered(route, NO_ADDR)])
          case Some(i) =>
           && i < |w.eps.lists| && w.eps.lists[i].addrs != []
           && var l := w.eps.lists[i];
              w' == w.(eps := w.eps.(lists := w.eps.lists[i := Ticket(l)]),
                       calls := w.calls[n := Answered(route, NextOf(l))]))
    case End(n) => n in w.calls && w' == w.(calls := w.calls - {n})
  }

  /** The steps of the machine, as the relation its runs are made of. */
  ghost function Steps(c: Config, find: Matcher): (World, Action, World) -> bool {
    (w, a, w') => Next(c, find, w, a, w')
  }

  /** These actions, in this order, can lead from `w` to `w'`. */
  ghost predicate Leads(c: Config, find: Matcher, w: World, actions: seq<Action>, w': World) {
    Runs.Leads(Steps(c, find), w, actions, w')
  }

  ghost predicate Reachable(c: Config, find: Matcher, actions: seq<Action>, w: World) {
    Leads(c, find, START, actions, w)
  }

  // ---------- what every step keeps ----------

  /** Rules only name services of the namespace of their ingress. */
  ghost predicate TableConfined(t: Table) {
    forall h, e, i :: h in t && e in t[h] && 0 <= i < |e.rules| ==> e.rules[i].backend.namespace == e.namespace
  }

  /** Some processed Endpoints object of exactly this namespace and name publishes the address for this port name. */
  ghost predicate PublishedFor(published: set<EndpointsObject>, k: ServiceKey, sa: ServiceAddr) {
    exists obj :: obj in published && obj.namespace == k.namespace && obj.name == k.name &&
                  Publishes(obj, k.portName, sa)
  }

  /** A list holds published addresses, at least one, and its answers are those of the tickets its counter counts. */
  ghost predicate ListOk(published: set<EndpointsObject>, l: AddrList) {
    && l.addrs != []
    && (forall sa :: sa in l.addrs ==> PublishedFor(published, l.key, sa))
    && l.index == |l.answered| % WRAP
    && InTurn(l.addrs, l.answered)
  }

  ghost predicate CallOk(w: World, call: Call) {
    && call.route.rule.backend.namespace == call.route.ing.namespace
    && (call.Holding? && call.list.Some? ==>
          call.list.value < |w.eps.lists| && w.eps.lists[call.list.value].key == call.route.rule.backend)
    && (call.Answered? ==>
          call.addr == NO_ADDR || PublishedFor(w.published, call.route.rule.backend, call.addr))
  }

  ghost predicate WorldOk(w: World) {
    && TableConfined(w.table)
    && StateOk(w.eps) && (forall i :: 0 <= i < |w.eps.lists| ==> ListOk(w.published, w.eps.lists[i]))
    && (forall n :: n in w.calls ==> CallOk(w, w.calls[n]))
  }

  lemma StepKeepsTableConfined(c: Config, t: Table, obj: Option<IngressObject>, t': Table, failed: bool)
    requires TableConfined(t) && Reconcile.Handles(c, t, obj, t', failed)
    ensures TableConfined(t')
  {
    if obj.Some? && OurClass(c, obj.value) {
      var op := Op.Update(obj.value.Key(), Compile(c, obj.value));
      CompiledTable(c, obj.value);
      forall h, e, i | h in t' && e in t'[h] && 0 <= i < |e.rules|
        ensures e.rules[i].backend.namespace == e.namespace
      {
        StepMembers(t, op, t', h, e);
      }
    }
  }

  lemma ExpandedPublished(published: set<EndpointsObject>, obj: EndpointsObject, k: ServiceKey)
    requires obj in published && Supplies(obj, k)
    ensures ListOk(published, NewList(obj, k))
  {
    var addrs := Expand(obj.subsets, k.portName);
    forall sa | sa in addrs
      ensures PublishedFor(published, k, sa)
    {
      ExpandIsPublished(obj, k.portName, sa);
    }
  }

  lemma TicketKeepsListOk(published: set<EndpointsObject>, l: AddrList)
    requires ListOk(published, l)
    ensures ListOk(published, Ticket(l))
  {
    BumpCounts(|l.answered|);
  }

  lemma BumpCounts(n: nat)
    ensures Bump(n % WRAP) == (n + 1) % WRAP
  {
  }

  /** What a call needs survives when lists keep their keys and nothing published is forgotten. */
  lemma CallStaysOk(w: World, w': World, call: Call)
    requires CallOk(w, call) && w.published <= w'.published && |w.eps.lists| <= |w'.eps.lists|
    requires forall i :: 0 <= i < |w.eps.lists| ==> w'.eps.lists[i].key == w.eps.lists[i].key
    ensures CallOk(w', call)
  {
  }

  lemma PublishKeepsWorldOk(w: World, obj: EndpointsObject, w': World)
    requires WorldOk(w) && Publish(w, obj, w')
    ensures WorldOk(w')
  {
    forall i | 0 <= i < |w'.eps.lists|
      ensures ListOk(w'.published, w'.eps.lists[i])
    {
      if i < |w.eps.lists| {
        assert w'.eps.lists[i] == w.eps.lists[i];
      } else {
        ExpandedPublished(w'.published, obj, w'.eps.lists[i].key);
      }
    }
    forall n | n in w'.calls
      ensures CallOk(w', w'.calls[n])
    {
      CallStaysOk(w, w', w.calls[n]);
    }
  }

  lemma RouteConfined(t: Table, r: Request, find: Matcher)
    requires TableConfined(t) && Lookup(t, r, find).Some?
    ensures var route := Lookup(t, r, find).value; route.rule.backend.namespace == route.ing.namespace
  {
  }

  lemma CallChangeKeepsWorldOk(w: World, calls: map<nat, Call>)
    requires WorldOk(w) && forall n :: n in calls ==> (n in w.calls && calls[n] == w.calls[n]) || CallOk(w, calls[n])
    ensures WorldOk(w.(calls := calls))
  {
  }

  lemma LookUpOk(w: World, n: nat)
    requires WorldOk(w) && n in w.calls && w.calls[n].Routed?
    ensures var route := w.calls[n].route;
            var list := if route.rule.backend in w.eps.current then Some(w.eps.current[route.rule.backend]) else None;
            CallOk(w, Holding(route, list))
  {
  }

  lemma TableChangeKeepsWorldOk(c: Config, w: World, obj: Option<IngressObject>, t': Table, failed: bool)
    requires WorldOk(w) && Reconcile.Handles(c, w.table, obj, t', failed)
    ensures WorldOk(w.(table := t'))
  {
    StepKeepsTableConfined(c, w.table, obj, t', failed);
    forall n | n in w.calls
      ensures CallOk(w.(table := t'), w.calls[n])
    {
      CallStaysOk(w, w.(table := t'), w.calls[n]);
    }
  }

  /** Serving a ticket of list `i` to caller `n`. */
  lemma ServedKeepsWorldOk(w: World, n: nat, i: nat)
    requires WorldOk(w) && n in w.calls && w.calls[n].Holding? && w.calls[n].list == Some(i) && i < |w.eps.lists|
    ensures var l := Ticket(w.eps.lists[i]);
            WorldOk(w.(eps := w.eps.(lists := w.eps.lists[i := l]),
                       calls := w.calls[n := Answered(w.calls[n].route, NextOf(w.eps.lists[i]))]))
  {
    assert CallOk(w, w.calls[n]) && ListOk(w.published, w.eps.lists[i]);
    TicketKeepsListOk(w.published, w.eps.lists[i]);
    var l := Ticket(w.eps.lists[i]);
    var addr := NextOf(w.eps.lists[i]);
    assert addr in l.addrs;
    var w' := w.(eps := w.eps.(lists := w.eps.lists[i := l]),
                 calls := w.calls[n := Answered(w.calls[n].route, addr)]);
    forall m | m in w'.calls && m != n
      ensures CallOk(w', w'.calls[m])
    {
      CallStaysOk(w, w', w.calls[m]);
    }
  }

  lemma NextKeepsWorldOk(c: Config, find: Matcher, w: World, a: Action, w': World)
    requires WorldOk(w) && Next(c, find, w, a, w')
    ensures WorldOk(w')
  {
    match a {
      case IngressHandled(obj) =>
        var failed :| Reconcile.Handles(c, w.table, obj, w'.table, failed);
        TableChangeKeepsWorldOk(c, w, obj, w'.table, failed);
      case EndpointsHandled(obj) => PublishKeepsWorldOk(w, obj, w');
      case Begin(n, r) =>
        RouteConfined(w.table, r, find);
        CallChangeKeepsWorldOk(w, w'.calls);
      case LookUp(n) =>
        LookUpOk(w, n);
        CallChangeKeepsWorldOk(w, w'.calls);
      case TakeTicket(n) =>
        if w.calls[n].list.Some? {
          ServedKeepsWorldOk(w, n, w.calls[n].list.value);
        } else {
          assert CallOk(w, w.calls[n]);
          CallChangeKeepsWorldOk(w, w'.calls);
        }
      case End(n) => CallChangeKeepsWorldOk(w, w'.calls);
    }
  }

  lemma {:induction false} LeadsKeepsWorldOk(c: Config, find: Matcher, w: World, actions: seq<Action>, w': World)
    requires WorldOk(w) && Leads(c, find, w, actions, w')
    ensures WorldOk(w')
  {
    if actions != [] {
      var before, last := actions[..|actions| - 1], actions[|actions| - 1];
      var mid :| Leads(c, find, w, before, mid) && Next(c, find, mid, last, w');
      LeadsKeepsWorldOk(c, find, w, before, mid);
      NextKeepsWorldOk(c, find, mid, last, w');
    }
  }

  // ---------- end to end ----------

  /**
   Namespace confinement: in every interleaving, an address answered for an ingress was
   published by a processed Endpoints object of the ingress's own namespace whose name is
   the backend service of the selected rule.
   */
  lemma NamespaceConfinement(c: Config, find: Matcher, actions: seq<Action>, w: World, n: nat)
    requires Reachable(c, find, actions, w)
    requires n in w.calls && w.calls[n].Answered? && w.calls[n].addr.addr != ""
    ensures var route, addr := w.calls[n].route, w.calls[n].addr;
            exists obj :: obj in w.published && obj.namespace == route.ing.namespace &&
                          obj.name == route.rule.backend.name && Publishes(obj, route.rule.backend.portName, addr)
  {
    LeadsKeepsWorldOk(c, find, START, actions, w);
    assert CallOk(w, w.calls[n]);
  }

  /** The answers of a list are what its callers got: a ticket adds the caller's answer, nothing else adds any. */
  lemma AnswersAreCallers(c: Config, find: Matcher, w: World, a: Action, w': World, i: nat)
    requires Next(c, find, w, a, w') && i < |w.eps.lists|
    ensures i < |w'.eps.lists|
    ensures w'.eps.lists[i].answered == w.eps.lists[i].answered +
            if a.TakeTicket? && w.calls[a.caller].list == Some(i) then [w'.calls[a.caller].addr] else []
  {
  }

  /** In every interleaving the `n`-th answer of a list is the address at the `n`-th position in turn. */
  lemma EveryListAnswersInTurn(c: Config, find: Matcher, actions: seq<Action>, w: World, i: nat, n: nat)
    requires Reachable(c, find, actions, w)
    requires i < |w.eps.lists| && n < |w.eps.lists[i].answered|
    ensures var l := w.eps.lists[i];
            l.addrs != [] && l.answered[n] == l.addrs[((n + 1) % 0x1_0000_0000_0000_0000) % |l.addrs|]
  {
    LeadsKeepsWorldOk(c, find, START, actions, w);
  }

  /** And as long as its counter has not wrapped it answers its addresses evenly, each for every copy of it. */
  lemma EveryListServesFairly(c: Config, find: Matcher, actions: seq<Action>, w: World, i: nat, sa: ServiceAddr)
    requires Reachable(c, find, actions, w)
    requires i < |w.eps.lists| && |w.eps.lists[i].answered| < WRAP
    ensures var l := w.eps.lists[i];
            var n, m, copies := |l.answered|, |l.addrs|, multiset(l.addrs)[sa];
            m > 0 && copies * (n / m) <= multiset(l.answered)[sa] <= copies * ((n + m - 1) / m)
  {
    LeadsKeepsWorldOk(c, find, START, actions, w);
    AnswersFair(w.eps.lists[i].addrs, w.eps.lists[i].answered, sa);
  }

  // ---------- several steps at once ----------

  /** One caller's steps on its own. */
  lemma CallSteps(c: Config, find: Matcher, w: World, r: Request, route: Route, list: Option<nat>)
    requires StateOk(w.eps) && w.calls == map[]
    requires Lookup(w.table, r, find) == Some(route) && !MustRedirect(route, r)
    requires list == if route.rule.backend in w.eps.current then Some(w.eps.current[route.rule.backend]) else None
    ensures var begun, held := map[0 := Routed(route)], map[0 := Holding(route, list)];
            var k, answered := route.rule.backend, map[0 := Answered(route, NextAddr(w.eps, route.rule.backend))];
            && Next(c, find, w, Begin(0, r), w.(calls := begun))
            && Next(c, find, w.(calls := begun), LookUp(0), w.(calls := held))
            && Next(c, find, w.(calls := held), TakeTicket(0), w.(eps := AfterTicket(w.eps, k), calls := answered))
            && Next(c, find, w.(eps := AfterTicket(w.eps, k), calls := answered), End(0),
                    w.(eps := AfterTicket(w.eps, k)))
  {
  }

  /** What `getTarget` does when nothing comes between its steps. */
  lemma UninterruptedCall(c: Config, find: Matcher, w: World, r: Request, route: Route)
    requires StateOk(w.eps) && w.calls == map[]
    requires Lookup(w.table, r, find) == Some(route) && !MustRedirect(route, r)
    ensures Leads(c, find, w, CallOf(r), w.(eps := AfterTicket(w.eps, route.rule.backend)))
  {
    var k := route.rule.backend;
    var list := if k in w.eps.current then Some(w.eps.current[k]) else None;
    CallSteps(c, find, w, r, route, list);
    var answered := w.(eps := AfterTicket(w.eps, k), calls := map[0 := Answered(route, NextAddr(w.eps, k))]);
    Runs.FourSteps(Steps(c, find), w, Begin(0, r), w.(calls := map[0 := Routed(route)]),
                   LookUp(0), w.(calls := map[0 := Holding(route, list)]), TakeTicket(0), answered,
                   End(0), w.(eps := AfterTicket(w.eps, k)));
  }

  /** The steps of one caller from the routing to the answer. */
  function CallOf(r: Request): seq<Action> {
    [Begin(0, r), LookUp(0), TakeTicket(0), End(0)]
  }
}
