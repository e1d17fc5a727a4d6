/**
 What the objects declare for a request: the selection loops, the index and the
 reconcile loop put together.
 */
module EndToEnd {
  import opened Wrappers
  import opened Rules
  import opened HostGroups
  import opened RoutingTable
  import opened IngressCompiler
  import opened Endpoints
  import opened Reconcile
  import opened ReconcileHistory

  /** Path `p` of rule `spec` of object `k` stands for the request. */
  ghost predicate Serves(c: Config, objs: Objects, k: Key, spec: RuleSpec, p: HttpPath, r: Request, find: Matcher) {
    && k in objs && spec in objs[k].rules && spec.host in {r.host, ""}
    && p in spec.paths && Accepted(c, p) && Declares(p, r.path, find)
  }

  // ---------- which path of a rule answers ----------

  /** How much of the request a declared path covers. */
  function Covers(c: Config, p: HttpPath, r: Request, find: Matcher): nat {
    if Accepted(c, p) && Declares(p, r.path, find) then Covered(p, r.path, find) else 0
  }

  /** Path `i` is the last exact one for the request, or else the first of those that cover most of it. */
  ghost predicate BestPath(c: Config, spec: RuleSpec, i: nat, r: Request, find: Matcher) {
    && i < |spec.paths|
    && if exists j :: 0 <= j < |spec.paths| && IsExact(spec.paths[j], r.path) then
         IsExact(spec.paths[i], r.path) && forall j :: i < j < |spec.paths| ==> !IsExact(spec.paths[j], r.path)
       else
         && (forall j :: 0 <= j < |spec.paths| ==>
               Covers(c, spec.paths[j], r, find) <= Covers(c, spec.paths[i], r, find))
         && (forall j :: 0 <= j < i ==> Covers(c, spec.paths[j], r, find) < Covers(c, spec.paths[i], r, find))
  }

  lemma PathMeans(c: Config, namespace: string, host: string, p: HttpPath, r: Request, find: Matcher)
    requires host in {r.host, ""}
    ensures var rule := CompileRule(c, namespace, host, p);
            && (IsExact(p, r.path) <==> rule.Some? && ExactHit(rule.value, r, find))
            && Covers(c, p, r, find) == if rule.Some? then Score(rule.value, r, find) else 0
  {
    AcceptedPathsCompile(c, namespace, host, p);
    if CompileRule(c, namespace, host, p).Some? {
      CompiledRuleScores(c, namespace, host, p, r, find);
    }
  }

  /** The rule chosen among the compiled ones comes from the best of the declared paths. */
  lemma ChosenRuleIsBestPath(c: Config, namespace: string, spec: RuleSpec, n: nat, r: Request, find: Matcher)
      returns (i: nat)
    requires Bounded(find) && spec.host in {r.host, ""}
    requires IsChoice(CompileRules(c, namespace, spec.host, spec.paths), r, find, n)
    ensures BestPath(c, spec, i, r, find)
    ensures var rules := CompileRules(c, namespace, spec.host, spec.paths);
            n < |rules| && CompileRule(c, namespace, spec.host, spec.paths[i]) == Some(rules[n])
  {
    var rules := CompileRules(c, namespace, spec.host, spec.paths);
    ChoiceMeans(rules, r, find, n);
    i := PathOfRule(c, namespace, spec.host, spec.paths, n);
    PathMeans(c, namespace, spec.host, spec.paths[i], r, find);
    forall j | 0 <= j < |spec.paths|
      ensures IsExact(spec.paths[j], r.path) ==> ExactHit(rules[n], r, find) && j <= i
      ensures !ExactHit(rules[n], r, find) ==>
                var covered := Covers(c, spec.paths[j], r, find);
                covered <= Score(rules[n], r, find) && (j < i ==> covered < Score(rules[n], r, find))
    {
      PathMeans(c, namespace, spec.host, spec.paths[j], r, find);
      if CompileRule(c, namespace, spec.host, spec.paths[j]).Some? {
        var m := RuleOfPath(c, namespace, spec.host, spec.paths, j);
        if j < i {
          RulesInOrder(c, namespace, spec.host, spec.paths, j, i);
        } else if i < j {
          RulesInOrder(c, namespace, spec.host, spec.paths, i, j);
        }
      }
    }
  }

  // ---------- which object answers ----------

  /** Some declared path stands for the request. */
  ghost predicate SomeServes(c: Config, objs: Objects, r: Request, find: Matcher) {
    exists k, spec, p :: Serves(c, objs, k, spec, p, r, find)
  }

  /** Some path declared for exactly this host does. */
  ghost predicate HostServes(c: Config, objs: Objects, h: string, r: Request, find: Matcher) {
    exists k, spec, p :: Serves(c, objs, k, spec, p, r, find) && spec.host == h
  }

  /**
   The answer in terms of what is declared: the request's own host goes before no host,
   then the ingress that is first by name and namespace, then the best path of its rule.
   The route carries that path's backend and the ingress's wish for redirects.
   */
  ghost predicate Answers(
      c: Config, objs: Objects, route: Route, spec: RuleSpec, i: nat, r: Request, find: Matcher)
  {
    var k := route.ing.Key();
    && k in objs && spec in objs[k].rules && route.ing == CompileEntry(c, objs[k], spec)
    && spec.host == (if HostServes(c, objs, r.host, r, find) then r.host else "")
    && (forall k', spec', p' :: Serves(c, objs, k', spec', p', r, find) && spec'.host == spec.host ==>
          k' == k || KeyPrecedes(k, k'))
    && BestPath(c, spec, i, r, find) && route.rule.host == spec.host
    && DeclaredBackend(k.namespace, spec.paths[i].backend, route.rule.backend)
    && (route.ing.httpRedir <==> WantsRedirect(c, objs[k]))
    && CompileRule(c, k.namespace, spec.host, spec.paths[i]) == Some(route.rule)
    && Serves(c, objs, k, spec, spec.paths[i], r, find)
  }

  lemma GroupRouteMatches(group: seq<Ingress>, r: Request, find: Matcher)
    requires Bounded(find)
    ensures GroupRoute(group, r, find).Some? <==> exists e :: e in group && Hits(e.rules, r, find)
    ensures GroupRoute(group, r, find).Some? ==>
              var route := GroupRoute(group, r, find).value;
              route.ing in group && route.rule in route.ing.rules && Matches(route.rule, r, find)
  {
    GroupChoiceCharacterised(group, r, find);
    if GroupChoice(group, r, find).Some? {
      var s := GroupChoice(group, r, find).value;
      ChoiceMeans(group[s.ing].rules, r, find, s.rule);
    }
    if e :| e in group && Hits(e.rules, r, find) {
      var i :| 0 <= i < |group| && group[i] == e;
      assert GroupChoice(group, r, find).Some?;
    }
  }

  /** A declared path that stands for the request makes its entry match, in the group of its host. */
  lemma DeclaredEntryHits(c: Config, t: Table, objs: Objects, k: Key, spec: RuleSpec, p: HttpPath, r: Request,
                          find: Matcher)
    requires Bounded(find) && Represents(c, t, objs) && Serves(c, objs, k, spec, p, r, find)
    ensures var e := CompileEntry(c, objs[k], spec); e in Get(t, spec.host) && Hits(e.rules, r, find)
  {
    var obj := objs[k];
    var e := CompileEntry(c, obj, spec);
    DeclaredEntryCompiled(c, obj, obj.rules, spec);
    var i :| 0 <= i < |obj.rules| && obj.rules[i] == spec;
    assert e.Key() == obj.Key() == k;
    RepresentedEntry(c, t, objs, spec.host, e);
    AcceptedPathsCompile(c, obj.namespace, spec.host, p);
    DeclaredRuleCompiled(c, obj.namespace, spec.host, spec.paths, p);
    CompiledRuleMeans(c, obj.namespace, spec.host, p, r, find);
  }

  /** A route found in a group comes from the best path of a declared rule. */
  lemma RouteIsDeclared(c: Config, t: Table, objs: Objects, h: string, r: Request, find: Matcher)
      returns (spec: RuleSpec, i: nat)
    requires Bounded(find) && Represents(c, t, objs) && h in {r.host, ""} && GroupRoute(Get(t, h), r, find).Some?
    ensures var route := GroupRoute(Get(t, h), r, find).value;
            var k := route.ing.Key();
            && k in objs && spec in objs[k].rules && spec.host == h && route.ing == CompileEntry(c, objs[k], spec)
            && BestPath(c, spec, i, r, find)
            && CompileRule(c, k.namespace, h, spec.paths[i]) == Some(route.rule)
            && Serves(c, objs, k, spec, spec.paths[i], r, find)
  {
    var group := Get(t, h);
    GroupRouteMatches(group, r, find);
    GroupChoiceCharacterised(group, r, find);
    var chosen := GroupChoice(group, r, find).value;
    var e := group[chosen.ing];
    RepresentedEntry(c, t, objs, h, e);
    var obj := objs[e.Key()];
    CompiledEntry(c, obj, obj.rules, h, e);
    spec :| spec in obj.rules && spec.host == h && e == CompileEntry(c, obj, spec);
    i := ChosenRuleIsBestPath(c, obj.namespace, spec, chosen.rule, r, find);
    AcceptedPathsCompile(c, obj.namespace, h, spec.paths[i]);
    CompiledRuleMeans(c, obj.namespace, h, spec.paths[i], r, find);
  }

  lemma RepresentedPriority(c: Config, t: Table, objs: Objects, h: string, e: Ingress)
    requires Represents(c, t, objs) && e in Get(t, h)
    ensures e.priority == None
  {
    RepresentedEntry(c, t, objs, h, e);
    CompiledEntry(c, objs[e.Key()], objs[e.Key()].rules, h, e);
  }

  lemma LessByKey(a: Ingress, b: Ingress)
    requires a.priority == b.priority == None && !Less(a, b)
    ensures a.Key() == b.Key() || KeyPrecedes(b.Key(), a.Key())
  {
    LessTotal(a, b);
    LessMeans(b, a);
  }

  /** The ingress selected in a sorted group is the first of those that declare a path for the request. */
  lemma SelectedIsFirst(c: Config, t: Table, objs: Objects, h: string, r: Request, find: Matcher,
                        k: Key, spec: RuleSpec, p: HttpPath)
    requires Bounded(find) && Represents(c, t, objs) && Sorted(Get(t, h)) && h in {r.host, ""}
    requires Serves(c, objs, k, spec, p, r, find) && spec.host == h
    ensures GroupRoute(Get(t, h), r, find).Some?
    ensures var best := GroupRoute(Get(t, h), r, find).value.ing.Key(); k == best || KeyPrecedes(best, k)
  {
    DeclaredEntryHits(c, t, objs, k, spec, p, r, find);
    var e := CompileEntry(c, objs[k], spec);
    SelectedIsMinimal(Get(t, h), r, find, e);
    var best := GroupRoute(Get(t, h), r, find).value.ing;
    RepresentedPriority(c, t, objs, h, best);
    LessByKey(e, best);
  }

  lemma RouteCarriesDeclared(c: Config, objs: Objects, route: Route, spec: RuleSpec, p: HttpPath)
    requires var k := route.ing.Key(); k in objs && route.ing == CompileEntry(c, objs[k], spec)
    requires CompileRule(c, route.ing.namespace, spec.host, p) == Some(route.rule)
    ensures route.rule.host == spec.host && DeclaredBackend(route.ing.namespace, p.backend, route.rule.backend)
    ensures route.ing.httpRedir <==> WantsRedirect(c, objs[route.ing.Key()])
  {
    EntryIsDeclared(c, objs[route.ing.Key()], spec);
    BackendKeyIsDeclared(route.ing.namespace, p.backend, route.rule.backend);
  }

  /** A table that stands for some objects routes as they declare. */
  lemma RepresentedRoutes(c: Config, t: Table, objs: Objects, r: Request, find: Matcher)
    requires Bounded(find) && Represents(c, t, objs) && TableOk(t)
    ensures Lookup(t, r, find).Some? <==> SomeServes(c, objs, r, find)
    ensures Lookup(t, r, find).Some? ==> exists spec, i :: Answers(c, objs, Lookup(t, r, find).value, spec, i, r, find)
  {
    WildcardTierIsIdle(t, r, find);
    forall k, spec, p | Serves(c, objs, k, spec, p, r, find)
      ensures GroupRoute(Get(t, spec.host), r, find).Some?
      ensures var best := GroupRoute(Get(t, spec.host), r, find).value.ing.Key(); k == best || KeyPrecedes(best, k)
    {
      SelectedIsFirst(c, t, objs, spec.host, r, find, k, spec, p);
    }
    if Lookup(t, r, find).Some? {
      var h := if GroupRoute(Get(t, r.host), r, find).Some? then r.host else "";
      var spec, i := RouteIsDeclared(c, t, objs, h, r, find);
      assert h == r.host ==> HostServes(c, objs, r.host, r, find);
      RouteCarriesDeclared(c, objs, Lookup(t, r, find).value, spec, spec.paths[i]);
      assert Answers(c, objs, Lookup(t, r, find).value, spec, i, r, find);
    }
  }

  // ---------- in every reachable state ----------

  /**
   In every reachable state, busy or not, a request is routed iff one of the objects last
   installed declares, for its host or for no host, a path that stands for the request's.
   */
  lemma RoutedIffDeclared(c: Config, retries: nat, actions: seq<Action>, s: State, r: Request, find: Matcher)
    requires Reachable(c, retries, actions, s) && Bounded(find)
    ensures Lookup(s.table, r, find).Some? <==> SomeServes(c, Record(c, actions).installed, r, find)
  {
    LogAccounts(c, retries, actions, s);
    ReachableTableOk(c, retries, actions, s);
    RepresentedRoutes(c, s.table, Record(c, actions).installed, r, find);
  }

  /** And the route is the one those objects declare for it. */
  lemma RouteAnswers(c: Config, retries: nat, actions: seq<Action>, s: State, r: Request, find: Matcher)
    requires Reachable(c, retries, actions, s) && Bounded(find) && Lookup(s.table, r, find).Some?
    ensures exists spec, i ::
              Answers(c, Record(c, actions).installed, Lookup(s.table, r, find).value, spec, i, r, find)
  {
    LogAccounts(c, retries, actions, s);
    ReachableTableOk(c, retries, actions, s);
    RepresentedRoutes(c, s.table, Record(c, actions).installed, r, find);
  }

  /** A rule installed for the request's host goes before every rule without a host. */
  lemma HostBeforeCatchAll(c: Config, retries: nat, actions: seq<Action>, s: State, r: Request, find: Matcher,
                           k: Key, spec: RuleSpec, p: HttpPath)
    requires Reachable(c, retries, actions, s) && Bounded(find)
    requires Serves(c, Record(c, actions).installed, k, spec, p, r, find) && spec.host == r.host
    ensures Lookup(s.table, r, find).Some? && Lookup(s.table, r, find).value.rule.host == r.host
  {
    RoutedIffDeclared(c, retries, actions, s, r, find);
    RouteAnswers(c, retries, actions, s, r, find);
    assert HostServes(c, Record(c, actions).installed, r.host, r, find);
  }

  /** At rest, if all that was installed is still there, the stored objects say what is routed and where. */
  lemma RestingRoutesFollowStore(c: Config, retries: nat, actions: seq<Action>, s: State, r: Request, find: Matcher)
    requires Reachable(c, retries, actions, s) && Quiet(s) && AllStillThere(c, Record(c, actions)) && Bounded(find)
    ensures var objs := Present(c, s.store);
            && (Lookup(s.table, r, find).Some? <==> SomeServes(c, objs, r, find))
            && (Lookup(s.table, r, find).Some? ==>
                  exists spec, i :: Answers(c, objs, Lookup(s.table, r, find).value, spec, i, r, find))
  {
    QuietTableIsStore(c, retries, actions, s);
    ReachableTableOk(c, retries, actions, s);
    RepresentedRoutes(c, s.table, Present(c, s.store), r, find);
  }

  // ---------- which addresses a backend leads to ----------

  /** The object has the address: for a numbered port without a port or at an unnamed one, else at the port so named. */
  ghost predicate HasAtPort(eps: EndpointsObject, port: ServicePort, sa: ServiceAddr) {
    exists s :: s in eps.subsets && sa.addr in s.addresses &&
      if port.intVal != 0 || (port.isString && port.strVal == "")
      then sa.port == 0 || EndpointPort("", sa.port) in s.ports
      else EndpointPort(if port.isString then port.strVal else "0", sa.port) in s.ports
  }

  /** A backend port that is a number leads to any address, without a port or at an unnamed one; a name to that port. */
  lemma BackendLeadsToPort(namespace: string, b: Backend, key: ServiceKey, eps: EndpointsObject, sa: ServiceAddr)
    requires DeclaredBackend(namespace, b, key)
    ensures Publishes(eps, key.portName, sa) <==> HasAtPort(eps, b.servicePort, sa)
  {
  }
}
