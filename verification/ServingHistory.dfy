/**
 What a history of the serving machine says about its state: which objects the
 routes come from, which Endpoints object each address list comes from, and why
 a caller got the address it got.
 */
module ServingHistory {
  import opened Wrappers
  import opened Rules
  import opened RoutingTable
  import opened IngressCompiler
  import opened Endpoints
  import opened EndpointTable
  import opened Serving
  import opened ReconcileHistory
  import opened EndToEnd
  import Reconcile
  import Runs

  // ---------- routes ----------

  /** The last object of our class handled for each ingress. */
  function Installed(c: Config, actions: seq<Action>): Objects {
    if actions == [] then map[]
    else
      var objs, last := Installed(c, actions[..|actions| - 1]), actions[|actions| - 1];
      if last.IngressHandled? then Install(c, objs, last.obj) else objs
  }

  lemma TableStepFollows(c: Config, t: Table, objs: Objects, obj: Option<IngressObject>, t': Table, failed: bool)
    requires Represents(c, t, objs) && Reconcile.TableOk(t) && Reconcile.Handles(c, t, obj, t', failed)
    ensures Represents(c, t', Install(c, objs, obj)) && Reconcile.TableOk(t')
  {
    HandledRepresents(c, t, objs, obj, t', failed);
    if obj.Some? && OurClass(c, obj.value) {
      Reconcile.StepKeepsTableOk(c, t, obj.value, t');
    }
  }

  /** In every state of every interleaving the table stands for the objects last installed. */
  lemma {:induction false} TableFollowsHistory(c: Config, find: Matcher, actions: seq<Action>, w: World)
    requires Reachable(c, find, actions, w)
    ensures Represents(c, w.table, Installed(c, actions)) && Reconcile.TableOk(w.table)
  {
    if actions != [] {
      var before, last := actions[..|actions| - 1], actions[|actions| - 1];
      var prev :| Reachable(c, find, before, prev) && Next(c, find, prev, last, w);
      TableFollowsHistory(c, find, before, prev);
      if last.IngressHandled? {
        var failed :| Reconcile.Handles(c, prev.table, last.obj, w.table, failed);
        TableStepFollows(c, prev.table, Installed(c, before), last.obj, w.table, failed);
      } else {
        assert w.table == prev.table;
      }
    }
  }

  // ---------- address lists ----------

  /** The object is the one this key names, and has an address for its port name. */
  ghost predicate Brings(obj: EndpointsObject, k: ServiceKey) {
    obj.namespace == k.namespace && obj.name == k.name && exists sa :: Publishes(obj, k.portName, sa)
  }

  lemma SuppliesBrings(obj: EndpointsObject, k: ServiceKey)
    ensures Supplies(obj, k) <==> Brings(obj, k)
  {
    var list := Expand(obj.subsets, k.portName);
    if list != [] {
      ExpandIsPublished(obj, k.portName, list[0]);
    }
    if sa :| Publishes(obj, k.portName, sa) {
      ExpandIsPublished(obj, k.portName, sa);
    }
  }

  /** The last Endpoints object handled that has addresses for the key. */
  ghost function LastSupplier(actions: seq<Action>, k: ServiceKey): Option<EndpointsObject> {
    if actions == [] then None
    else
      var last := actions[|actions| - 1];
      if last.EndpointsHandled? && Brings(last.eps, k) then Some(last.eps)
      else LastSupplier(actions[..|actions| - 1], k)
  }

  /** The addresses that object has for the key, in its order. */
  ghost function AddrsAt(actions: seq<Action>, k: ServiceKey): seq<ServiceAddr> {
    match LastSupplier(actions, k)
    case None => []
    case Some(obj) => Expand(obj.subsets, k.portName)
  }

  function ListOf(s: EpsState, k: ServiceKey): seq<ServiceAddr>
    requires StateOk(s)
  {
    if k in s.current then s.lists[s.current[k]].addrs else []
  }

  lemma PublishedList(s: EpsState, obj: EndpointsObject, s': EpsState, k: ServiceKey)
    requires StateOk(s) && Published(s, obj, s') && StateOk(s')
    ensures ListOf(s', k) == if Supplies(obj, k) then Expand(obj.subsets, k.portName) else ListOf(s, k)
    ensures k in s'.current <==> k in s.current || Supplies(obj, k)
  {
    if k in s'.current && !Supplies(obj, k) {
      assert s'.lists[s.current[k]] == s.lists[s.current[k]];
    }
  }

  lemma OtherStepsKeepLists(c: Config, find: Matcher, w: World, a: Action, w': World, k: ServiceKey)
    requires StateOk(w.eps) && StateOk(w'.eps) && Next(c, find, w, a, w') && !a.EndpointsHandled?
    ensures ListOf(w'.eps, k) == ListOf(w.eps, k) && w'.eps.current == w.eps.current
  {
  }

  /** In every state the current list of a key holds what the last object with addresses for it has. */
  lemma {:induction false} ListsFollowHistory(c: Config, find: Matcher, actions: seq<Action>, w: World, k: ServiceKey)
    requires Reachable(c, find, actions, w)
    ensures StateOk(w.eps) && ListOf(w.eps, k) == AddrsAt(actions, k)
    ensures k in w.eps.current <==> LastSupplier(actions, k).Some?
  {
    LeadsKeepsWorldOk(c, find, START, actions, w);
    if actions != [] {
      var before, last := actions[..|actions| - 1], actions[|actions| - 1];
      var prev :| Reachable(c, find, before, prev) && Next(c, find, prev, last, w);
      ListsFollowHistory(c, find, before, prev, k);
      if last.EndpointsHandled? {
        SuppliesBrings(last.eps, k);
        PublishedList(prev.eps, last.eps, w.eps, k);
      } else {
        OtherStepsKeepLists(c, find, prev, last, w, k);
      }
    }
  }

  // ---------- calls ----------

  /** Call `n` began with step `m`, has not ended since, and its route is what the objects then installed declare. */
  ghost predicate BegunAt(c: Config, find: Matcher, actions: seq<Action>, n: nat, m: nat, route: Route) {
    && m < |actions| && actions[m].Begin? && actions[m].caller == n
    && (forall j :: m < j < |actions| ==> actions[j] != End(n))
    && exists spec, i :: Answers(c, Installed(c, actions[..m]), route, spec, i, actions[m].r, find)
  }

  /** It looked its list up with step `l`, and these were the addresses then. */
  ghost predicate LookedUpAt(actions: seq<Action>, n: nat, l: nat, k: ServiceKey, addrs: seq<ServiceAddr>) {
    l < |actions| && actions[l] == LookUp(n) && addrs == AddrsAt(actions[..l], k)
  }

  ghost predicate LookedUpSince(actions: seq<Action>, n: nat, m: nat, k: ServiceKey, addrs: seq<ServiceAddr>) {
    exists l: nat :: LookedUpAt(actions, n, l, k, addrs) && m < l
  }

  /** It was answered one of the addresses it looked up, or the empty address if there were none. */
  ghost predicate AnsweredSince(actions: seq<Action>, n: nat, m: nat, k: ServiceKey, addr: ServiceAddr) {
    exists addrs: seq<ServiceAddr> :: LookedUpSince(actions, n, m, k, addrs) && AnswerFrom(addrs, addr)
  }

  predicate AnswerFrom(addrs: seq<ServiceAddr>, addr: ServiceAddr) {
    if addrs == [] then addr == NO_ADDR else addr in addrs
  }

  ghost predicate FollowsFrom(c: Config, find: Matcher, actions: seq<Action>, w: World, n: nat, call: Call, m: nat) {
    && BegunAt(c, find, actions, n, m, call.route)
    && (call.Holding? ==>
          (call.list.Some? ==> call.list.value < |w.eps.lists|) &&
          LookedUpSince(actions, n, m, call.route.rule.backend,
                        if call.list.Some? then w.eps.lists[call.list.value].addrs else []))
    && (call.Answered? ==> AnsweredSince(actions, n, m, call.route.rule.backend, call.addr))
  }

  /** How the call came to be what it is. */
  ghost predicate CallFollows(c: Config, find: Matcher, actions: seq<Action>, w: World, n: nat, call: Call) {
    exists m: nat :: FollowsFrom(c, find, actions, w, n, call, m)
  }

  lemma PrefixStays(actions: seq<Action>, a: Action, m: nat)
    requires m < |actions|
    ensures (actions + [a])[..m] == actions[..m] && (actions + [a])[m] == actions[m]
  {
  }

  lemma BegunStays(c: Config, find: Matcher, actions: seq<Action>, a: Action, n: nat, m: nat, route: Route)
    requires BegunAt(c, find, actions, n, m, route) && a != End(n)
    ensures BegunAt(c, find, actions + [a], n, m, route)
  {
    PrefixStays(actions, a, m);
  }

  lemma LookedUpStays(actions: seq<Action>, a: Action, n: nat, m: nat, k: ServiceKey, addrs: seq<ServiceAddr>)
    requires LookedUpSince(actions, n, m, k, addrs)
    ensures LookedUpSince(actions + [a], n, m, k, addrs)
  {
    var l: nat :| LookedUpAt(actions, n, l, k, addrs) && m < l;
    PrefixStays(actions, a, l);
    assert LookedUpAt(actions + [a], n, l, k, addrs);
  }

  /** A later step that does not end the call changes nothing about its past. */
  lemma CallStillFollows(
      c: Config, find: Matcher, actions: seq<Action>, w: World, a: Action, w': World, n: nat, call: Call)
    requires CallFollows(c, find, actions, w, n, call) && a != End(n)
    requires |w.eps.lists| <= |w'.eps.lists|
    requires forall i :: 0 <= i < |w.eps.lists| ==> w'.eps.lists[i].addrs == w.eps.lists[i].addrs
    ensures CallFollows(c, find, actions + [a], w', n, call)
  {
    var m: nat :| FollowsFrom(c, find, actions, w, n, call, m);
    var k := call.route.rule.backend;
    BegunStays(c, find, actions, a, n, m, call.route);
    if call.Holding? {
      LookedUpStays(actions, a, n, m, k, if call.list.Some? then w.eps.lists[call.list.value].addrs else []);
    }
    if call.Answered? {
      var addrs :| LookedUpSince(actions, n, m, k, addrs) && AnswerFrom(addrs, call.addr);
      LookedUpStays(actions, a, n, m, k, addrs);
    }
    assert FollowsFrom(c, find, actions + [a], w', n, call, m);
  }

  lemma BeginFollows(c: Config, find: Matcher, actions: seq<Action>, w: World, n: nat, r: Request, w': World)
    requires Reachable(c, find, actions, w) && Next(c, find, w, Begin(n, r), w') && Bounded(find)
    ensures CallFollows(c, find, actions + [Begin(n, r)], w', n, w'.calls[n])
  {
    TableFollowsHistory(c, find, actions, w);
    RepresentedRoutes(c, w.table, Installed(c, actions), r, find);
    var m, after := |actions|, actions + [Begin(n, r)];
    assert after[..m] == actions && after[m] == Begin(n, r);
    assert FollowsFrom(c, find, after, w', n, w'.calls[n], m);
  }

  lemma LookUpFollows(c: Config, find: Matcher, actions: seq<Action>, w: World, n: nat, w': World)
    requires Reachable(c, find, actions, w) && Next(c, find, w, LookUp(n), w')
    requires CallFollows(c, find, actions, w, n, w.calls[n])
    ensures CallFollows(c, find, actions + [LookUp(n)], w', n, w'.calls[n])
  {
    var m: nat :| FollowsFrom(c, find, actions, w, n, w.calls[n], m);
    var route := w.calls[n].route;
    BegunStays(c, find, actions, LookUp(n), n, m, route);
    ListsFollowHistory(c, find, actions, w, route.rule.backend);
    var l, after := |actions|, actions + [LookUp(n)];
    assert after[..l] == actions && after[l] == LookUp(n);
    assert LookedUpAt(after, n, l, route.rule.backend, ListOf(w.eps, route.rule.backend));
    assert FollowsFrom(c, find, after, w', n, w'.calls[n], m);
  }

  lemma TicketAnswersFrom(c: Config, find: Matcher, w: World, n: nat, w': World)
    requires Next(c, find, w, TakeTicket(n), w')
    ensures var call, call' := w.calls[n], w'.calls[n];
            && call'.Answered? && call'.route == call.route
            && AnswerFrom(if call.list.Some? then w.eps.lists[call.list.value].addrs else [], call'.addr)
  {
  }

  lemma TicketFollows(c: Config, find: Matcher, actions: seq<Action>, w: World, n: nat, w': World)
    requires Next(c, find, w, TakeTicket(n), w') && CallFollows(c, find, actions, w, n, w.calls[n])
    ensures CallFollows(c, find, actions + [TakeTicket(n)], w', n, w'.calls[n])
  {
    var m: nat :| FollowsFrom(c, find, actions, w, n, w.calls[n], m);
    var call := w.calls[n];
    var addrs := if call.list.Some? then w.eps.lists[call.list.value].addrs else [];
    BegunStays(c, find, actions, TakeTicket(n), n, m, call.route);
    LookedUpStays(actions, TakeTicket(n), n, m, call.route.rule.backend, addrs);
    TicketAnswersFrom(c, find, w, n, w');
    assert AnsweredSince(actions + [TakeTicket(n)], n, m, call.route.rule.backend, w'.calls[n].addr);
    assert FollowsFrom(c, find, actions + [TakeTicket(n)], w', n, w'.calls[n], m);
  }

  lemma StepKeepsAddrs(c: Config, find: Matcher, w: World, a: Action, w': World)
    requires Next(c, find, w, a, w')
    ensures |w.eps.lists| <= |w'.eps.lists|
    ensures forall i :: 0 <= i < |w.eps.lists| ==> w'.eps.lists[i].addrs == w.eps.lists[i].addrs
  {
  }

  lemma NextCallFollows(c: Config, find: Matcher, actions: seq<Action>, w: World, a: Action, w': World, n: nat)
    requires Reachable(c, find, actions, w) && Next(c, find, w, a, w') && Bounded(find) && n in w'.calls
    requires n in w.calls ==> CallFollows(c, find, actions, w, n, w.calls[n])
    ensures CallFollows(c, find, actions + [a], w', n, w'.calls[n])
  {
    if a.Begin? && a.caller == n {
      BeginFollows(c, find, actions, w, n, a.r, w');
    } else if a == LookUp(n) {
      LookUpFollows(c, find, actions, w, n, w');
    } else if a == TakeTicket(n) {
      TicketFollows(c, find, actions, w, n, w');
    } else {
      StepKeepsAddrs(c, find, w, a, w');
      CallStillFollows(c, find, actions, w, a, w', n, w.calls[n]);
      assert w'.calls[n] == w.calls[n];
    }
  }

  lemma LastStep(c: Config, find: Matcher, actions: seq<Action>, w: World) returns (prev: World)
    requires Reachable(c, find, actions, w) && actions != []
    ensures Reachable(c, find, actions[..|actions| - 1], prev)
    ensures Next(c, find, prev, actions[|actions| - 1], w)
  {
    var before, last := actions[..|actions| - 1], actions[|actions| - 1];
    prev :| Reachable(c, find, before, prev) && Next(c, find, prev, last, w);
  }

  /** Every call in flight is accounted for by the history, in every interleaving. */
  lemma {:induction false} CallsFollowHistory(c: Config, find: Matcher, actions: seq<Action>, w: World, n: nat)
    requires Reachable(c, find, actions, w) && Bounded(find) && n in w.calls
    ensures CallFollows(c, find, actions, w, n, w.calls[n])
  {
    if actions != [] {
      var before, last := actions[..|actions| - 1], actions[|actions| - 1];
      assert before + [last] == actions;
      var prev := LastStep(c, find, actions, w);
      if n in prev.calls {
        CallsFollowHistory(c, find, before, prev, n);
      }
      NextCallFollows(c, find, before, prev, last, w, n);
    }
  }

  // ---------- what is declared, and what is answered ----------

  /** The object is the service that the path declares, in this namespace, and has the address at the declared port. */
  ghost predicate Provides(obj: EndpointsObject, namespace: string, b: Backend, sa: ServiceAddr) {
    obj.namespace == namespace && obj.name == b.serviceName && HasAtPort(obj, b.servicePort, sa)
  }

  lemma AddrsProvided(actions: seq<Action>, namespace: string, b: Backend, key: ServiceKey, sa: ServiceAddr)
    requires DeclaredBackend(namespace, b, key) && sa in AddrsAt(actions, key)
    ensures LastSupplier(actions, key).Some? && Provides(LastSupplier(actions, key).value, namespace, b, sa)
  {
    SupplierBrings(actions, key);
    var obj := LastSupplier(actions, key).value;
    ExpandIsPublished(obj, key.portName, sa);
    BackendLeadsToPort(namespace, b, key, obj, sa);
  }

  lemma {:induction false} SupplierBrings(actions: seq<Action>, k: ServiceKey)
    requires LastSupplier(actions, k).Some?
    ensures Brings(LastSupplier(actions, k).value, k) && EndpointsHandled(LastSupplier(actions, k).value) in actions
  {
    var last := actions[|actions| - 1];
    if !(last.EndpointsHandled? && Brings(last.eps, k)) {
      SupplierBrings(actions[..|actions| - 1], k);
    }
  }

  /**
   Step `m` began the call and step `l` looked its list up: the objects installed at `m` declare
   path `i` of `spec` as the answer, and the last Endpoints object with addresses for its backend
   at `l` is that path's service, in the namespace of the ingress, with this address at that port.
   */
  ghost predicate Explains(
      c: Config, find: Matcher, actions: seq<Action>, n: nat, m: nat, l: nat, spec: RuleSpec, i: nat, call: Call)
    requires call.Answered?
  {
    && m < l < |actions| && actions[m].Begin? && actions[m].caller == n && actions[l] == LookUp(n)
    && (forall j :: m < j < |actions| ==> actions[j] != End(n))
    && Answers(c, Installed(c, actions[..m]), call.route, spec, i, actions[m].r, find)
    && LastSupplier(actions[..l], call.route.rule.backend).Some?
    && Provides(LastSupplier(actions[..l], call.route.rule.backend).value, call.route.ing.namespace,
                spec.paths[i].backend, call.addr)
  }

  /**
   From what is declared to the address: in every interleaving of callers and updaters, an
   address answered is one of the service that the best declared path names, at the port it
   names, of the last Endpoints object that had any when the caller looked.
   */
  lemma AnswersFollowDeclarations(c: Config, find: Matcher, actions: seq<Action>, w: World, n: nat)
      returns (m: nat, l: nat, spec: RuleSpec, i: nat)
    requires Reachable(c, find, actions, w) && Bounded(find)
    requires n in w.calls && w.calls[n].Answered? && w.calls[n].addr.addr != ""
    ensures Explains(c, find, actions, n, m, l, spec, i, w.calls[n])
  {
    CallsFollowHistory(c, find, actions, w, n);
    var call := w.calls[n];
    m :| FollowsFrom(c, find, actions, w, n, call, m);
    var k := call.route.rule.backend;
    var addrs :| LookedUpSince(actions, n, m, k, addrs) && AnswerFrom(addrs, call.addr);
    l :| LookedUpAt(actions, n, l, k, addrs) && m < l;
    spec, i :| Answers(c, Installed(c, actions[..m]), call.route, spec, i, actions[m].r, find);
    AddrsProvided(actions[..l], call.route.ing.namespace, spec.paths[i].backend, k, call.addr);
  }
}
