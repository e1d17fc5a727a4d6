/**
 `getTarget` (proxy.go): from a request to a backend address, with its panics as
 outcomes, over the two tables that the updaters maintain.  Every call is a run of
 the serving machine, so what holds of its reachable states holds here.
 */
module Proxy {
  import opened Wrappers
  import opened Rules
  import opened RoutingTable
  import opened IngressCompiler
  import opened Endpoints
  import opened EndpointTable
  import opened Serving
  import opened ServingHistory
  import opened EndToEnd
  import Reconcile
  import Runs

  datatype Outcome =
    | NotFound
    | Redirect(scheme: string, host: string, path: string)
    | NoEndpoints(backend: ServiceKey)
    | Target(addr: ServiceAddr, scheme: string)

  /** The address was published in the ingress's namespace, by the service the rule names. */
  ghost predicate ConfinedTarget(published: set<EndpointsObject>, route: Route, addr: ServiceAddr) {
    exists obj :: obj in published && obj.namespace == route.ing.namespace &&
                  obj.name == route.rule.backend.name && Publishes(obj, route.rule.backend.portName, addr)
  }

  lemma NextAddrConfined(w: World, r: Request, find: Matcher)
    requires WorldOk(w) && Lookup(w.table, r, find).Some?
    ensures var route := Lookup(w.table, r, find).value;
            var addr := NextAddr(w.eps, route.rule.backend);
            addr.addr != "" ==> ConfinedTarget(w.published, route, addr)
  {
    var route := Lookup(w.table, r, find).value;
    RouteConfined(w.table, r, find);
    var k := route.rule.backend;
    if NextAddr(w.eps, k).addr != "" {
      var l := w.eps.lists[w.eps.current[k]];
      assert ListOk(w.published, l) && NextOf(l) in l.addrs;
      assert PublishedFor(w.published, k, NextOf(l));
    }
  }

  /** The world after the request was served: unchanged by a redirect, else one ticket further. */
  ghost function AfterServing(w: World, route: Route, req: Request): World
    requires StateOk(w.eps)
  {
    if MustRedirect(route, req) then w else w.(eps := AfterTicket(w.eps, route.rule.backend))
  }

  /** Serving a selected route is the steps of one caller, unless there is a redirect. */
  lemma ServingIsCall(c: Config, find: Matcher, w: World, route: Route, req: Request)
    requires WorldOk(w) && w.calls == map[] && Lookup(w.table, req, find) == Some(route)
    ensures !MustRedirect(route, req) ==> Leads(c, find, w, CallOf(req), AfterServing(w, route, req))
  {
    if !MustRedirect(route, req) {
      UninterruptedCall(c, find, w, req, route);
    }
  }

  lemma ServingExtends(c: Config, find: Matcher, history: seq<Action>, w: World, route: Route, req: Request)
    requires Reachable(c, find, history, w) && StateOk(w.eps)
    requires w.calls == map[] && Lookup(w.table, req, find) == Some(route)
    ensures var more := if MustRedirect(route, req) then [] else CallOf(req);
            Reachable(c, find, history + more, AfterServing(w, route, req))
  {
    if MustRedirect(route, req) {
      assert history + [] == history;
    } else {
      LeadsKeepsWorldOk(c, find, START, history, w);
      ServingIsCall(c, find, w, route, req);
      Runs.Joined(Steps(c, find), START, history, w, CallOf(req), AfterServing(w, route, req));
    }
  }

  /** What a routed request comes to, if `next` is the next address of its backend. */
  function Expected(route: Route, req: Request, next: ServiceAddr, scheme: ServiceKey -> string): Outcome {
    if MustRedirect(route, req) then Redirect("https", req.host, req.path)
    else if next.addr == "" then NoEndpoints(route.rule.backend)
    else Target(next, scheme(route.rule.backend))
  }

  ghost function OutcomeOf(w: World, find: Matcher, req: Request, scheme: ServiceKey -> string): Outcome
    requires StateOk(w.eps)
  {
    match Lookup(w.table, req, find)
    case None => NotFound
    case Some(route) => Expected(route, req, NextAddr(w.eps, route.rule.backend), scheme)
  }

  /** Whether the outcome is right for a request that path `i` of `spec` answers. */
  ghost predicate RightFor(
      c: Config, history: seq<Action>, route: Route, spec: RuleSpec, i: nat, req: Request,
      scheme: ServiceKey -> string, out: Outcome)
    requires i < |spec.paths| && route.ing.Key() in Installed(c, history)
  {
    var supplier := LastSupplier(history, route.rule.backend);
    var redirect := WantsRedirect(c, Installed(c, history)[route.ing.Key()]) && !req.tls;
    match out
    case NotFound => false
    case Redirect(s, host, path) => redirect && s == "https" && host == req.host && path == req.path
    case NoEndpoints(k) =>
      && !redirect && DeclaredBackend(route.ing.namespace, spec.paths[i].backend, k)
      && (supplier.None? || exists sa: ServiceAddr ::
            sa.addr == "" && Provides(supplier.value, route.ing.namespace, spec.paths[i].backend, sa))
    case Target(addr, s) =>
      && !redirect && addr.addr != "" && s == scheme(route.rule.backend)
      && supplier.Some? && Provides(supplier.value, route.ing.namespace, spec.paths[i].backend, addr)
  }

  /**
   Whether the outcome is what the history of handled objects says: no target exactly if none
   of the ingresses declares a path for the request, else what is right for the best of them.
   */
  ghost predicate FollowsHistory(
      c: Config, find: Matcher, history: seq<Action>, req: Request, scheme: ServiceKey -> string, out: Outcome)
  {
    if !SomeServes(c, Installed(c, history), req, find) then out == NotFound
    else exists route, spec, i ::
      Answers(c, Installed(c, history), route, spec, i, req, find) &&
      RightFor(c, history, route, spec, i, req, scheme, out)
  }

  lemma OutcomeFollowsHistory(
      c: Config, find: Matcher, history: seq<Action>, w: World, req: Request, scheme: ServiceKey -> string)
    requires Reachable(c, find, history, w) && StateOk(w.eps) && Bounded(find)
    ensures FollowsHistory(c, find, history, req, scheme, OutcomeOf(w, find, req, scheme))
  {
    TableFollowsHistory(c, find, history, w);
    RepresentedRoutes(c, w.table, Installed(c, history), req, find);
    if Lookup(w.table, req, find).Some? {
      var route := Lookup(w.table, req, find).value;
      var spec, i :| Answers(c, Installed(c, history), route, spec, i, req, find);
      RightOutcome(c, find, history, w, route, spec, i, req, scheme);
    }
  }

  lemma RightOutcome(
      c: Config, find: Matcher, history: seq<Action>, w: World, route: Route, spec: RuleSpec, i: nat, req: Request,
      scheme: ServiceKey -> string)
    requires Reachable(c, find, history, w) && StateOk(w.eps)
    requires Answers(c, Installed(c, history), route, spec, i, req, find)
    ensures RightFor(c, history, route, spec, i, req, scheme,
                     Expected(route, req, NextAddr(w.eps, route.rule.backend), scheme))
  {
    var k := route.rule.backend;
    var next := NextAddr(w.eps, k);
    ListsFollowHistory(c, find, history, w, k);
    if k in w.eps.current {
      assert next in ListOf(w.eps, k);
      AddrsProvided(history, route.ing.namespace, spec.paths[i].backend, k, next);
    }
  }

  lemma HandledIsStep(c: Config, find: Matcher, w: World, obj: IngressObject, t': Table)
    requires Reconcile.Handles(c, w.table, Some(obj), t', false)
    ensures Steps(c, find)(w, IngressHandled(Some(obj)), w.(table := t'))
  {
  }

  lemma StepExtends(c: Config, find: Matcher, history: seq<Action>, w: World, a: Action, w': World)
    requires Reachable(c, find, history, w) && Steps(c, find)(w, a, w')
    ensures Reachable(c, find, history + [a], w')
  {
    Runs.OneMore(Steps(c, find), START, history, w, a, w');
  }

  class Controller {
    const config: Config
    const find: Matcher
    const ings: IngressSet
    const eps: EpsSet
    const portScheme: ServiceKey -> string
    ghost var published: set<EndpointsObject>
    ghost var history: seq<Action>

    /** Both tables, seen as a state of the serving machine with no call in flight. */
    ghost function Machine(): World
      reads this, ings, eps, eps.lists
    {
      World(ings.contents, eps.State(), published, map[])
    }

    ghost predicate Valid()
      reads this, ings, ings.Repr(), eps, eps.lists
    {
      Bounded(find) && ings.Valid() && eps.Valid() && Reachable(config, find, history, Machine())
    }

    constructor (config: Config, find: Matcher, portScheme: ServiceKey -> string)
      requires Bounded(find)
      ensures Valid() && Machine() == START && history == [] && this.config == config && this.find == find
    {
      this.config, this.find, this.portScheme := config, find, portScheme;
      ings := new IngressSet();
      eps := new EpsSet();
      published, history := {}, [];
    }

    /** The routing half of the ingress updater's `addItem`. */
    method AddIngress(obj: IngressObject)
      requires Valid()
      modifies ings, this`history
      ensures Valid() && Steps(config, find)(old(Machine()), IngressHandled(Some(obj)), Machine())
      ensures history == old(history) + [IngressHandled(Some(obj))]
    {
      ghost var before, earlier := Machine(), history;
      UpdateRoutes(obj, before);
      history := history + [IngressHandled(Some(obj))];
      assert ings.Valid() && eps.Valid();
      assert Machine() == before.(table := ings.contents);
      StepExtends(config, find, earlier, before, IngressHandled(Some(obj)), Machine());
    }

    method UpdateRoutes(obj: IngressObject, ghost before: World)
      requires ings.Valid() && before.table == ings.contents
      modifies ings
      ensures ings.Valid()
      ensures Steps(config, find)(before, IngressHandled(Some(obj)), before.(table := ings.contents))
    {
      if OurClass(config, obj) {
        var newset, _ := CompileObject(config, obj);
        ings.Update(obj.Key(), newset);
      }
      HandledIsStep(config, find, before, obj, ings.contents);
    }

    /** The endpoints updater's `addItem`. */
    method AddEndpoints(obj: EndpointsObject)
      requires Valid()
      modifies eps, this`published, this`history
      ensures Valid() && Steps(config, find)(old(Machine()), EndpointsHandled(obj), Machine())
      ensures history == old(history) + [EndpointsHandled(obj)]
    {
      ghost var before, earlier := Machine(), history;
      eps.AddItem(obj);
      published := published + {obj};
      history := history + [EndpointsHandled(obj)];
      assert Publish(before, obj, Machine());
      StepExtends(config, find, earlier, before, EndpointsHandled(obj), Machine());
    }

    /** The half of `getTarget` after the routing: a redirect takes no ticket. */
    method Serve(route: Route, req: Request) returns (out: Outcome)
      requires eps.Valid()
      modifies eps.sets.Values
      ensures eps.Valid()
      ensures out == Expected(route, req, NextAddr(old(eps.State()), route.rule.backend), portScheme)
      ensures eps.State() == if MustRedirect(route, req) then old(eps.State())
                             else AfterTicket(old(eps.State()), route.rule.backend)
    {
      if MustRedirect(route, req) {
        return Redirect("https", req.host, req.path);
      }
      var port := portScheme(route.rule.backend);
      var ep := eps.GetNextAddr(route.rule.backend);
      if ep.addr == "" {
        return NoEndpoints(route.rule.backend);
      }
      return Target(ep, port);
    }

    /** The same on the state of both tables. */
    method ServeSelected(route: Route, req: Request) returns (out: Outcome)
      requires Valid() && Lookup(ings.contents, req, find) == Some(route)
      modifies eps.sets.Values, this`history
      ensures Valid() && out == Expected(route, req, NextAddr(old(eps.State()), route.rule.backend), portScheme)
      ensures Machine() == AfterServing(old(Machine()), route, req)
      ensures history == old(history) + if MustRedirect(route, req) then [] else CallOf(req)
    {
      ghost var before, earlier := Machine(), history;
      out := Serve(route, req);
      history := history + if MustRedirect(route, req) then [] else CallOf(req);
      assert ings.Valid();
      assert Machine() == AfterServing(before, route, req);
      ServingExtends(config, find, earlier, before, route, req);
    }

    /**
     `getTarget`: the outcome for every request, as the objects handled so far say.  A call that
     reaches the endpoints is the machine's four steps of one caller, any other leaves it as it was.
     */
    method GetTarget(req: Request) returns (out: Outcome)
      requires Valid()
      modifies eps.sets.Values, this`history
      ensures Valid() && FollowsHistory(config, find, old(history), req, portScheme, out)
      ensures out == OutcomeOf(old(Machine()), find, req, portScheme)
      ensures match Lookup(ings.contents, req, find)
              case None => Machine() == old(Machine()) && history == old(history)
              case Some(route) =>
                && Machine() == AfterServing(old(Machine()), route, req)
                && history == old(history) + if MustRedirect(route, req) then [] else CallOf(req)
    {
      OutcomeFollowsHistory(config, find, history, Machine(), req, portScheme);
      var ref := ings.MatchRule(req, find);
      if ref.None? {
        return NotFound;
      }
      out := ServeSelected(ref.value.Deref(), req);
    }
  }
}
