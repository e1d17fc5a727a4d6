/**
 The routing table (ingress.go, `ingressSet`): an index from host to the
 ingresses that name it, and what any history of updates leaves in it.
 */
module RoutingTable {
  import opened Wrappers
  import opened Runs
  import opened Text
  import opened Rules
  import opened HostGroups
  import opened Slices

  type Table = map<string, seq<Ingress>>

  function Get(t: Table, h: string): seq<Ingress> {
    if h in t then t[h] else []
  }

  /** The entries that do not belong to ingress `k`, in their order. */
  function Without(s: seq<Ingress>, k: IngressKey): seq<Ingress> {
    if s == [] then []
    else
      var rest := Without(s[..|s| - 1], k);
      if s[|s| - 1].Key() == k then rest else rest + [s[|s| - 1]]
  }

  datatype Op =
    | Update(key: IngressKey, newset: Table)
    | Clear(key: IngressKey)

  /** A group after the merge: sorted, with what was kept and what is new. */
  ghost predicate Merged(g: seq<Ingress>, kept: seq<Ingress>, extra: seq<Ingress>) {
    Sorted(g) && multiset(g) == multiset(kept + extra)
  }

  /** What one operation may do to the table; sorting leaves ties in any order. */
  ghost predicate Step(t: Table, op: Op, t': Table) {
    match op
    case Update(k, newset) =>
      && t'.Keys == t.Keys + newset.Keys
      && (forall h :: h in t' && h !in newset ==> t'[h] == Without(Get(t, h), k))
      && (forall h :: h in t' && h in newset ==> Merged(t'[h], Without(Get(t, h), k), newset[h]))
    case Clear(k) =>
      && t'.Keys == t.Keys
      && (forall h :: h in t' ==> t'[h] == Without(Get(t, h), k))
  }

  /** `t'` is a table that the operations can make of `t`. */
  ghost predicate Reaches(t: Table, ops: seq<Op>, t': Table) {
    Leads(Step, t, ops, t')
  }

  // ---------- what a history leaves in the table ----------

  /** `addItem` only installs entries of the ingress it was given. */
  ghost predicate OwnEntries(op: Op) {
    op.Update? ==> forall h, e :: h in op.newset && e in op.newset[h] ==> e.Key() == op.key
  }

  /** What the last operation on `k` installed. */
  function Last(ops: seq<Op>, k: IngressKey): Table {
    if ops == [] then map[]
    else
      var op := ops[|ops| - 1];
      if op.key != k then Last(ops[..|ops| - 1], k)
      else if op.Update? then op.newset
      else map[]
  }

  lemma {:induction false} WithoutCount(s: seq<Ingress>, k: IngressKey, e: Ingress)
    ensures multiset(Without(s, k))[e] == if e.Key() == k then 0 else multiset(s)[e]
  {
    if s != [] {
      WithoutCount(s[..|s| - 1], k, e);
      assert s == s[..|s| - 1] + [s[|s| - 1]];
    }
  }

  lemma {:induction false} WithoutSorted(s: seq<Ingress>, k: IngressKey)
    requires Sorted(s)
    ensures Sorted(Without(s, k))
    ensures forall e :: e in Without(s, k) ==> e in s
  {
    if s != [] {
      var front, last := s[..|s| - 1], s[|s| - 1];
      WithoutSorted(front, k);
      forall e | e in Without(front, k)
        ensures !Less(last, e)
      {
        assert e in front;
      }
    }
  }

  /** What is in a group after a step was there before or has just been installed. */
  lemma StepMembers(t: Table, op: Op, t': Table, h: string, e: Ingress)
    requires Step(t, op, t') && e in Get(t', h)
    ensures (e in Get(t, h) && e.Key() != op.key) || (op.Update? && e in Get(op.newset, h))
  {
    WithoutCount(Get(t, h), op.key, e);
    assert e in multiset(Get(t', h));
    if h in t' && op.Update? && h in op.newset {
      assert e in multiset(Without(Get(t, h), op.key) + op.newset[h]);
    } else {
      assert e in multiset(Without(Get(t, h), op.key));
    }
    assert e in Get(t, h) <==> e in multiset(Get(t, h));
  }

  lemma MergePossible(kept: seq<Ingress>, extra: seq<Ingress>)
    ensures Merged(InsertionSorted(kept + extra), kept, extra)
  {
    InsertionSortedSorts(kept + extra);
  }

  /** There is always a table to step to. */
  lemma UpdatePossible(t: Table, k: IngressKey, newset: Table) returns (t': Table)
    ensures Step(t, Op.Update(k, newset), t')
  {
    t' := map h | h in t.Keys + newset.Keys ::
      var kept := Without(Get(t, h), k);
      if h in newset then InsertionSorted(kept + newset[h]) else kept;
    forall h | h in newset
      ensures Merged(t'[h], Without(Get(t, h), k), newset[h])
    {
      MergePossible(Without(Get(t, h), k), newset[h]);
    }
  }

  lemma StepCount(t: Table, op: Op, t': Table, h: string, e: Ingress)
    requires Step(t, op, t') && OwnEntries(op)
    ensures multiset(Get(t', h))[e] ==
            if e.Key() != op.key then multiset(Get(t, h))[e]
            else if op.Update? then multiset(Get(op.newset, h))[e]
            else 0
  {
    WithoutCount(Get(t, h), op.key, e);
  }

  lemma {:induction false} RunSorted(ops: seq<Op>, t: Table, h: string)
    requires Reaches(map[], ops, t)
    ensures Sorted(Get(t, h))
  {
    if ops != [] {
      var before, last := ops[..|ops| - 1], ops[|ops| - 1];
      var mid :| Reaches(map[], before, mid) && Step(mid, last, t);
      RunSorted(before, mid, h);
      WithoutSorted(Get(mid, h), last.key);
    }
  }

  /**
   Index refinement: each group holds exactly the entries that the
   last operation on each ingress installed for this host, with nothing stale.
   */
  lemma {:induction false} RunRefinesHistory(ops: seq<Op>, t: Table, h: string, e: Ingress)
    requires Reaches(map[], ops, t) && forall op :: op in ops ==> OwnEntries(op)
    ensures multiset(Get(t, h))[e] == multiset(Get(Last(ops, e.Key()), h))[e]
  {
    if ops != [] {
      var before, last := ops[..|ops| - 1], ops[|ops| - 1];
      var mid :| Reaches(map[], before, mid) && Step(mid, last, t);
      RunRefinesHistory(before, mid, h, e);
      StepCount(mid, last, t, h, e);
    }
  }

  /** No ingress has two entries for one host. */
  ghost predicate OnePerHost(ops: seq<Op>) {
    forall k, h :: |Get(Last(ops, k), h)| <= 1
  }

  lemma RepeatedElement(s: seq<Ingress>, i: nat, j: nat)
    requires i < j < |s| && s[i] == s[j]
    ensures multiset(s)[s[i]] >= 2
  {
    assert s == s[..j] + [s[j]] + s[j + 1..];
    assert s[i] in s[..j];
  }

  lemma GroupKeysDistinct(ops: seq<Op>, t: Table, h: string)
    requires Reaches(map[], ops, t) && (forall op :: op in ops ==> OwnEntries(op)) && OnePerHost(ops)
    ensures DistinctKeys(Get(t, h))
  {
    var g := Get(t, h);
    forall i, j | 0 <= i < j < |g|
      ensures g[i].Key() != g[j].Key()
    {
      RunRefinesHistory(ops, t, h, g[i]);
      RunRefinesHistory(ops, t, h, g[j]);
      var installed := Get(Last(ops, g[i].Key()), h);
      assert |installed| <= 1;
      assert multiset(g)[g[i]] == multiset(installed)[g[i]] <= |installed|;
      if g[i] == g[j] {
        RepeatedElement(g, i, j);
      }
    }
  }

  // ---------- lookup ----------

  /** What a lookup yields: an ingress of the table and one of its rules. */
  datatype Route = Route(ing: Ingress, rule: Rule)

  ghost function GroupRoute(group: seq<Ingress>, r: Request, find: Matcher): Option<Route> {
    match GroupChoice(group, r, find)
    case None => None
    case Some(s) => Some(Route(group[s.ing], group[s.ing].rules[s.rule]))
  }

  /** The three tiers of `ingressSet.matchRule`: the host, its wildcard, no host. */
  ghost function Lookup(t: Table, r: Request, find: Matcher): Option<Route> {
    var wildcard := if r.host == "" then None else GroupRoute(Get(t, WildcardName(r.host)), r, find);
    OrElse(GroupRoute(Get(t, r.host), r, find), OrElse(wildcard, GroupRoute(Get(t, ""), r, find)))
  }

  /** It matches the request, and nothing less does. */
  ghost predicate Leading(g: seq<Ingress>, r: Request, find: Matcher, e: Ingress) {
    e in g && Hits(e.rules, r, find) && forall o :: o in g && Hits(o.rules, r, find) ==> !Less(o, e)
  }

  /** No two different ingresses of the group lead. */
  ghost predicate TiesAgree(g: seq<Ingress>, r: Request, find: Matcher) {
    forall a, b :: Leading(g, r, find, a) && Leading(g, r, find, b) ==> a == b
  }

  ghost predicate SameUpToTies(g: seq<Ingress>, g': seq<Ingress>) {
    Sorted(g) && Sorted(g') && multiset(g) == multiset(g')
  }

  lemma SameMembers(g: seq<Ingress>, g': seq<Ingress>, e: Ingress)
    requires multiset(g) == multiset(g')
    ensures e in g <==> e in g'
  {
    assert e in g <==> e in multiset(g);
    assert e in g' <==> e in multiset(g');
  }

  lemma SameMembersSameLeading(g: seq<Ingress>, g': seq<Ingress>, r: Request, find: Matcher, e: Ingress)
    requires multiset(g) == multiset(g')
    ensures Leading(g, r, find, e) <==> Leading(g', r, find, e)
  {
    SameMembers(g, g', e);
    forall o: Ingress {
      SameMembers(g, g', o);
    }
  }

  /** The ingress selected in a sorted group is not greater than any other that matches. */
  lemma SelectedIsMinimal(g: seq<Ingress>, r: Request, find: Matcher, e: Ingress)
    requires Bounded(find) && Sorted(g) && e in g && Hits(e.rules, r, find)
    ensures GroupRoute(g, r, find).Some?
    ensures var best := GroupRoute(g, r, find).value.ing; best in g && Hits(best.rules, r, find) && !Less(e, best)
  {
    GroupChoiceCharacterised(g, r, find);
    var i :| 0 <= i < |g| && g[i] == e;
    LessTotal(e, e);
  }

  lemma RouteOfIngress(g: seq<Ingress>, r: Request, find: Matcher)
    requires Bounded(find) && GroupRoute(g, r, find).Some?
    ensures var route := GroupRoute(g, r, find).value;
            && route.ing in g && Hits(route.ing.rules, r, find)
            && RuleChoice(route.ing.rules, r, find).Some?
            && route.rule == route.ing.rules[RuleChoice(route.ing.rules, r, find).value]
  {
    GroupChoiceCharacterised(g, r, find);
    var s := GroupChoice(g, r, find).value;
    ChoiceIs(g[s.ing].rules, r, find, s.rule);
  }

  lemma AgreedTiesFixRoute(g: seq<Ingress>, g': seq<Ingress>, r: Request, find: Matcher)
    requires Bounded(find) && SameUpToTies(g, g') && TiesAgree(g, r, find)
    ensures GroupRoute(g', r, find) == GroupRoute(g, r, find)
  {
    if GroupRoute(g', r, find).Some? {
      SelectedLeads(g', r, find);
      var e := GroupRoute(g', r, find).value.ing;
      SameMembersSameLeading(g, g', r, find, e);
      SelectedIsMinimal(g, r, find, e);
      RouteOfIngress(g', r, find);
    }
    if GroupRoute(g, r, find).Some? {
      SelectedLeads(g, r, find);
      var best := GroupRoute(g, r, find).value.ing;
      SameMembersSameLeading(g, g', r, find, best);
      SelectedIsMinimal(g', r, find, best);
      RouteOfIngress(g, r, find);
    }
  }

  lemma SelectedLeads(g: seq<Ingress>, r: Request, find: Matcher)
    requires Bounded(find) && Sorted(g) && GroupRoute(g, r, find).Some?
    ensures Leading(g, r, find, GroupRoute(g, r, find).value.ing)
  {
    RouteOfIngress(g, r, find);
    forall o | o in g && Hits(o.rules, r, find) {
      SelectedIsMinimal(g, r, find, o);
    }
  }

  lemma SwapTied(g: seq<Ingress>, i: nat, j: nat)
    requires i < |g| && j < |g| && Sorted(g) && g[i].Key() == g[j].Key() && g[i].priority == g[j].priority
    ensures SameUpToTies(g, g[i := g[j]][j := g[i]])
  {
  }

  lemma FirstHitIsSelected(g: seq<Ingress>, r: Request, find: Matcher, i: nat)
    requires Bounded(find) && i < |g| && Hits(g[i].rules, r, find)
    requires forall k :: 0 <= k < i ==> !Hits(g[k].rules, r, find)
    ensures GroupRoute(g, r, find).Some? && GroupRoute(g, r, find).value.ing == g[i]
  {
    GroupChoiceCharacterised(g, r, find);
  }

  /** The selected ingress and another one on a par with it. */
  lemma TwoLeading(g: seq<Ingress>, r: Request, find: Matcher) returns (i: nat, j: nat)
    requires Bounded(find) && Sorted(g) && !TiesAgree(g, r, find)
    ensures i < |g| && j < |g| && g[i] != g[j] && Hits(g[j].rules, r, find)
    ensures g[i].Key() == g[j].Key() && g[i].priority == g[j].priority
    ensures GroupRoute(g, r, find).Some? && GroupRoute(g, r, find).value.ing == g[i]
    ensures forall k :: 0 <= k < i ==> !Hits(g[k].rules, r, find)
  {
    var a, b :| Leading(g, r, find, a) && Leading(g, r, find, b) && a != b;
    GroupChoiceCharacterised(g, r, find);
    i := GroupChoice(g, r, find).value.ing;
    SelectedLeads(g, r, find);
    var e := if a == g[i] then b else a;
    LessTotal(g[i], e);
    j :| 0 <= j < |g| && g[j] == e;
  }

  lemma DisagreedTiesLeaveRouteOpen(g: seq<Ingress>, r: Request, find: Matcher) returns (g': seq<Ingress>)
    requires Bounded(find) && Sorted(g) && !TiesAgree(g, r, find)
    ensures SameUpToTies(g, g') && GroupRoute(g', r, find) != GroupRoute(g, r, find)
  {
    var i, j := TwoLeading(g, r, find);
    g' := g[i := g[j]][j := g[i]];
    SwapTied(g, i, j);
    FirstHitIsSelected(g', r, find, i);
  }

  /** Exactly when does the contract of the sort, which leaves ties open, fix the route? */
  lemma TiesDecideRoute(g: seq<Ingress>, r: Request, find: Matcher)
    requires Bounded(find) && Sorted(g)
    ensures (forall g' :: SameUpToTies(g, g') ==> GroupRoute(g', r, find) == GroupRoute(g, r, find)) <==>
            TiesAgree(g, r, find)
  {
    if TiesAgree(g, r, find) {
      forall g' | SameUpToTies(g, g') {
        AgreedTiesFixRoute(g, g', r, find);
      }
    } else {
      var g' := DisagreedTiesLeaveRouteOpen(g, r, find);
    }
  }

  /** Two histories that agree on the last operation of every ingress leave groups that differ in ties only. */
  lemma SameHistorySameUpToTies(ops: seq<Op>, ops': seq<Op>, t: Table, t': Table, h: string)
    requires Reaches(map[], ops, t) && Reaches(map[], ops', t')
    requires (forall op :: op in ops ==> OwnEntries(op)) && (forall op :: op in ops' ==> OwnEntries(op))
    requires forall k, n :: Get(Last(ops, k), n) == Get(Last(ops', k), n)
    ensures SameUpToTies(Get(t, h), Get(t', h))
  {
    var g, g' := Get(t, h), Get(t', h);
    forall e
      ensures multiset(g)[e] == multiset(g')[e]
    {
      RunRefinesHistory(ops, t, h, e);
      RunRefinesHistory(ops', t', h, e);
      assert Get(Last(ops, e.Key()), h) == Get(Last(ops', e.Key()), h);
    }
    assert multiset(g) == multiset(g');
    RunSorted(ops, t, h);
    RunSorted(ops', t', h);
  }

  /** Such histories route a request alike wherever matching ties agree. */
  lemma SameHistorySameRoute(ops: seq<Op>, ops': seq<Op>, t: Table, t': Table, r: Request, find: Matcher)
    requires Reaches(map[], ops, t) && Reaches(map[], ops', t') && Bounded(find)
    requires (forall op :: op in ops ==> OwnEntries(op)) && (forall op :: op in ops' ==> OwnEntries(op))
    requires forall k, n :: Get(Last(ops, k), n) == Get(Last(ops', k), n)
    requires forall h :: h in {r.host, WildcardName(r.host), ""} ==> TiesAgree(Get(t, h), r, find)
    ensures Lookup(t, r, find) == Lookup(t', r, find)
  {
    forall h | h in {r.host, WildcardName(r.host), ""}
      ensures GroupRoute(Get(t', h), r, find) == GroupRoute(Get(t, h), r, find)
    {
      SameHistorySameUpToTies(ops, ops', t, t', h);
      AgreedTiesFixRoute(Get(t, h), Get(t', h), r, find);
    }
  }

  /** Two histories that agree on the last operation of every ingress leave the same groups. */
  lemma SameHistorySameGroup(ops: seq<Op>, ops': seq<Op>, t: Table, t': Table, h: string)
    requires Reaches(map[], ops, t) && Reaches(map[], ops', t')
    requires (forall op :: op in ops ==> OwnEntries(op)) && (forall op :: op in ops' ==> OwnEntries(op))
    requires forall k, n :: Get(Last(ops, k), n) == Get(Last(ops', k), n)
    requires OnePerHost(ops)
    ensures Get(t, h) == Get(t', h)
  {
    SameHistorySameUpToTies(ops, ops', t, t', h);
    GroupKeysDistinct(ops, t, h);
    SortedUnique(Get(t, h), Get(t', h));
  }

  /** Routing does not depend on the order in which the events arrived. */
  lemma RoutingOrderIndependent(ops: seq<Op>, ops': seq<Op>, t: Table, t': Table, r: Request, find: Matcher)
    requires Reaches(map[], ops, t) && Reaches(map[], ops', t')
    requires (forall op :: op in ops ==> OwnEntries(op)) && (forall op :: op in ops' ==> OwnEntries(op))
    requires forall k, n :: Get(Last(ops, k), n) == Get(Last(ops', k), n)
    requires OnePerHost(ops)
    ensures Lookup(t, r, find) == Lookup(t', r, find)
  {
    forall h
      ensures Get(t, h) == Get(t', h)
    {
      SameHistorySameGroup(ops, ops', t, t', h);
    }
  }

  /** Every rule stored under a host names that host, as `addItem` makes them. */
  ghost predicate HostTagged(t: Table) {
    forall h, e, i :: h in t && e in t[h] && 0 <= i < |e.rules| ==> e.rules[i].host == h
  }

  lemma StepHostTagged(t: Table, op: Op, t': Table)
    requires Step(t, op, t') && HostTagged(t) && (op.Update? ==> HostTagged(op.newset))
    ensures HostTagged(t')
  {
    forall h, e, i | h in t' && e in t'[h] && 0 <= i < |e.rules|
      ensures e.rules[i].host == h
    {
      StepMembers(t, op, t', h, e);
    }
  }

  lemma ForeignGroupSelectsNothing(group: seq<Ingress>, h: string, r: Request, find: Matcher)
    requires Bounded(find) && h != "" && h != r.host
    requires forall e, i :: e in group && 0 <= i < |e.rules| ==> e.rules[i].host == h
    ensures GroupRoute(group, r, find) == None
  {
    GroupChoiceCharacterised(group, r, find);
    forall i | 0 <= i < |group|
      ensures !Hits(group[i].rules, r, find)
    {
      assert group[i] in group;
    }
  }

  /** On tables as `addItem` builds them the wildcard tier never selects anything of its own. */
  lemma WildcardTierIsIdle(t: Table, r: Request, find: Matcher)
    requires Bounded(find) && HostTagged(t)
    ensures Lookup(t, r, find) == OrElse(GroupRoute(Get(t, r.host), r, find), GroupRoute(Get(t, ""), r, find))
  {
    if r.host != "" && WildcardName(r.host) != r.host {
      WildcardReplacesFirstLabel(r.host);
      ForeignGroupSelectsNothing(Get(t, WildcardName(r.host)), WildcardName(r.host), r, find);
    }
  }

  // ---------- sorting ----------

  lemma NotLessTransitive(a: Ingress, b: Ingress, c: Ingress)
    requires !Less(b, a) && !Less(c, b)
    ensures !Less(c, a)
  {
    LessTotal(a, b);
    LessTotal(b, c);
    LessTotal(a, c);
    if Less(a, b) && Less(b, c) {
      LessTransitive(a, b, c);
    }
  }

  function Insert(x: Ingress, s: seq<Ingress>): seq<Ingress> {
    if s == [] then [x]
    else if Less(s[0], x) then [s[0]] + Insert(x, s[1..])
    else [x] + s
  }

  lemma {:induction false} InsertKeepsElements(x: Ingress, s: seq<Ingress>)
    ensures multiset(Insert(x, s)) == multiset(s) + multiset{x}
  {
    if s != [] {
      InsertKeepsElements(x, s[1..]);
      assert s == [s[0]] + s[1..];
    }
  }

  lemma {:induction false} InsertSorts(x: Ingress, s: seq<Ingress>)
    requires Sorted(s)
    ensures Sorted(Insert(x, s))
  {
    if s != [] {
      LessTotal(s[0], x);
      if Less(s[0], x) {
        var rest := Insert(x, s[1..]);
        InsertSorts(x, s[1..]);
        InsertKeepsElements(x, s[1..]);
        forall y | y in rest
          ensures !Less(y, s[0])
        {
          assert y in multiset(rest);
          assert y == x || y in s[1..];
        }
      } else {
        LessTotal(s[0], s[0]);
        forall y | y in s
          ensures !Less(y, x)
        {
          NotLessTransitive(x, s[0], y);
        }
      }
    }
  }

  function InsertionSorted(s: seq<Ingress>): seq<Ingress> {
    if s == [] then [] else Insert(s[0], InsertionSorted(s[1..]))
  }

  lemma {:induction false} InsertionSortedSorts(s: seq<Ingress>)
    ensures Sorted(InsertionSorted(s)) && multiset(InsertionSorted(s)) == multiset(s)
  {
    if s != [] {
      InsertionSortedSorts(s[1..]);
      InsertSorts(s[0], InsertionSorted(s[1..]));
      InsertKeepsElements(s[0], InsertionSorted(s[1..]));
      assert s == [s[0]] + s[1..];
    }
  }

  /** `sort.Sort` on a group, in place.  Callers may rely on the contract only: ties come in any order. */
  method Sort(g: Slice<Ingress>)
    requires g.Valid()
    modifies g.Footprint()
    ensures Sorted(g.Elems()) && multiset(g.Elems()) == multiset(old(g.Elems()))
  {
    var sorted := InsertionSorted(g.Elems());
    InsertionSortedSorts(g.Elems());
    assert |sorted| == |multiset(sorted)| == |multiset(g.Elems())| == g.Len();
    Overwrite(g, sorted);
  }

  method Overwrite(g: Slice<Ingress>, s: seq<Ingress>)
    requires g.Valid() && |s| == g.Len()
    modifies g.Footprint()
    ensures g.Elems() == s
  {
    for i := 0 to |s|
      invariant g.Window? ==> g.arr[..i] == s[..i]
    {
      g.arr[i] := s[i];
    }
    assert g.Elems() == s;
  }

  // ---------- the loops of update and clear, on tables ----------

  /** The filtering loop with the hosts `todo` still to do. */
  ghost predicate PartlyFiltered(t: Table, t': Table, k: IngressKey, todo: set<string>) {
    && todo <= t'.Keys == t.Keys
    && forall h :: h in t' ==> t'[h] == if h in todo then t[h] else Without(t[h], k)
  }

  lemma FilterOne(t: Table, t': Table, k: IngressKey, todo: set<string>, n: string)
    requires PartlyFiltered(t, t', k, todo) && n in todo
    ensures PartlyFiltered(t, t'[n := Without(t'[n], k)], k, todo - {n})
  {
  }

  /** The merging loop with the hosts `todo` still to do. */
  ghost predicate PartlyMerged(t: Table, t': Table, newset: Table, todo: set<string>) {
    && todo <= newset.Keys && t'.Keys == t.Keys + (newset.Keys - todo)
    && (forall h :: h in t' && h in newset - todo ==> Merged(t'[h], Get(t, h), newset[h]))
    && (forall h :: h in t' && h !in newset - todo ==> t'[h] == Get(t, h))
  }

  lemma MergeOne(t: Table, t': Table, newset: Table, todo: set<string>, n: string, g: seq<Ingress>)
    requires PartlyMerged(t, t', newset, todo) && n in todo && Merged(g, Get(t', n), newset[n])
    ensures PartlyMerged(t, t'[n := g], newset, todo - {n})
  {
  }

  lemma FilteredThenMerged(t: Table, mid: Table, t': Table, k: IngressKey, newset: Table)
    requires PartlyFiltered(t, mid, k, {}) && PartlyMerged(mid, t', newset, {})
    ensures Step(t, Op.Update(k, newset), t')
  {
  }

  // ---------- the table object ----------

  /** Where a lookup's pointers point: an element of a group array and one of its rules. */
  datatype RouteRef = RouteRef(group: array<Ingress>, ing: nat, rule: nat)
  {
    predicate InBounds()
      reads group
    {
      ing < group.Length && rule < |group[ing].rules|
    }

    function Deref(): Route
      requires InBounds()
      reads group
    {
      Route(group[ing], group[ing].rules[rule])
    }
  }

  class IngressSet {
    var groups: map<string, Slice<Ingress>>
    ghost var contents: Table

    ghost function Repr(): set<object>
      reads this
    {
      set h | h in groups && groups[h].Window? :: groups[h].arr
    }

    /** Every group but that of `n` is as `contents` says and has an array of its own. */
    ghost predicate ValidExcept(n: string)
      reads this, set h | h in groups && h != n && groups[h].Window? :: groups[h].arr
    {
      && groups.Keys == contents.Keys
      && (forall h :: h in groups && h != n ==> groups[h].Valid() && groups[h].Elems() == contents[h])
      && forall h, h' :: h in groups && h' in groups && h != h' && groups[h].Window? && groups[h'].Window? ==>
           groups[h].arr != groups[h'].arr
    }

    ghost predicate Valid()
      reads this, Repr()
    {
      && groups.Keys == contents.Keys
      && (forall h :: h in groups ==> groups[h].Valid() && groups[h].Elems() == contents[h])
      && forall h, h' :: h in groups && h' in groups && h != h' && groups[h].Window? && groups[h'].Window? ==>
           groups[h].arr != groups[h'].arr
    }

    constructor ()
      ensures Valid() && contents == map[]
    {
      groups, contents := map[], map[];
    }

    /** `is.set[n] = g` */
    method Put(n: string, g: Slice<Ingress>)
      requires ValidExcept(n) && g.Valid()
      requires forall h :: h in groups && h != n && groups[h].Window? && g.Window? ==> groups[h].arr != g.arr
      modifies this
      ensures Valid() && groups == old(groups)[n := g] && contents == old(contents)[n := g.Elems()]
    {
      groups := groups[n := g];
      contents := contents[n := g.Elems()];
    }

    method CopyWithout(g: Slice<Ingress>, key: IngressKey) returns (nings: Slice<Ingress>)
      requires g.Valid()
      ensures nings.Valid() && (nings.Window? ==> fresh(nings.arr))
      ensures nings.Elems() == Without(g.Elems(), key)
    {
      nings := Nil;
      for i := 0 to g.Len()
        invariant nings.Valid() && (nings.Window? ==> fresh(nings.arr))
        invariant nings.Elems() == Without(g.Elems()[..i], key)
      {
        assert g.Elems()[..i + 1][..i] == g.Elems()[..i];
        if g.arr[i].Key() != key {
          nings := Append(nings, g.arr[i]);
        }
      }
      assert g.Elems()[..g.Len()] == g.Elems();
    }

    /** One step of the filtering loop: the group moves to a new array. */
    method FilterGroup(n: string, key: IngressKey)
      requires Valid() && n in contents
      modifies this
      ensures Valid() && n in groups && groups == old(groups)[n := groups[n]]
      ensures groups[n].Window? ==> fresh(groups[n].arr)
      ensures contents == old(contents)[n := Without(old(contents)[n], key)]
    {
      var nings := CopyWithout(groups[n], key);
      Put(n, nings);
    }

    /** The filtering loop that `update` and `clear` share: every group is rebuilt in a new array. */
    method RemoveEntries(key: IngressKey)
      requires Valid()
      modifies this
      ensures Valid() && fresh(Repr())
      ensures PartlyFiltered(old(contents), contents, key, {})
    {
      var todo := groups.Keys;
      while todo != {}
        invariant PartlyFiltered(old(contents), contents, key, todo)
        invariant Valid() && forall h :: h in groups && h !in todo && groups[h].Window? ==> fresh(groups[h].arr)
        decreases todo
      {
        var n :| n in todo;
        FilterOne(old(contents), contents, key, todo, n);
        FilterGroup(n, key);
        todo := todo - {n};
      }
    }

    /** `append` of a whole group followed by the sort. */
    method Merge(g: Slice<Ingress>, extra: seq<Ingress>) returns (hg: Slice<Ingress>)
      requires g.Valid()
      modifies g.Footprint()
      ensures hg.Valid() && (hg.Window? ==> fresh(hg.arr) || (g.Window? && hg.arr == g.arr))
      ensures Merged(hg.Elems(), old(g.Elems()), extra)
    {
      hg := g;
      for i := 0 to |extra|
        invariant hg.Valid() && (hg.Window? ==> fresh(hg.arr) || (g.Window? && hg.arr == g.arr))
        invariant hg.Elems() == old(g.Elems()) + extra[..i]
      {
        hg := Append(hg, extra[i]);
      }
      assert extra[..|extra|] == extra;
      Sort(hg);
    }

    /** One step of the second loop of `update`: the group may keep its array or move to a new one. */
    method MergeGroup(n: string, extra: seq<Ingress>)
      requires Valid()
      modifies this, Repr()
      ensures Valid() && fresh(Repr() - old(Repr()))
      ensures n in contents && contents == old(contents)[n := contents[n]]
      ensures Merged(contents[n], Get(old(contents), n), extra)
    {
      var g := if n in groups then groups[n] else Nil;
      var hg := Merge(g, extra);
      Put(n, hg);
    }

    /** The second loop of `update`. */
    method MergeAll(newset: Table)
      requires Valid()
      modifies this, Repr()
      ensures Valid() && fresh(Repr() - old(Repr()))
      ensures PartlyMerged(old(contents), contents, newset, {})
    {
      var todo := newset.Keys;
      while todo != {}
        invariant Valid() && fresh(Repr() - old(Repr()))
        invariant PartlyMerged(old(contents), contents, newset, todo)
        decreases todo
      {
        var n :| n in todo;
        ghost var before := contents;
        MergeGroup(n, newset[n]);
        MergeOne(old(contents), before, newset, todo, n, contents[n]);
        todo := todo - {n};
      }
    }

    /** `update`.  Only `this` is modified: no array that an earlier state exposed is written. */
    method Update(key: IngressKey, newset: Table)
      requires Valid()
      modifies this
      ensures Valid() && fresh(Repr())
      ensures Step(old(contents), Op.Update(key, newset), contents)
    {
      RemoveEntries(key);
      ghost var filtered := contents;
      MergeAll(newset);
      FilteredThenMerged(old(contents), filtered, contents, key, newset);
    }

    method Clear(key: IngressKey)
      requires Valid()
      modifies this
      ensures Valid() && fresh(Repr())
      ensures Step(old(contents), Op.Clear(key), contents)
    {
      RemoveEntries(key);
    }

    /** One tier of `matchRule`; a missing host is the empty group. */
    method MatchHost(h: string, r: Request, find: Matcher) returns (ref: Option<RouteRef>)
      requires Valid() && Bounded(find)
      ensures ref.None? ==> GroupRoute(Get(contents, h), r, find) == None
      ensures ref.Some? ==> ref.value.group in Repr() && ref.value.InBounds()
      ensures ref.Some? ==> GroupRoute(Get(contents, h), r, find) == Some(ref.value.Deref())
    {
      var g := if h in groups then groups[h] else Nil;
      var sel := MatchGroup(g.Elems(), r, find);
      ref := if sel.None? then None else Some(RouteRef(g.arr, sel.value.ing, sel.value.rule));
    }

    /** `matchRule`: what it returns points into the table's arrays. */
    method MatchRule(r: Request, find: Matcher) returns (ref: Option<RouteRef>)
      requires Valid() && Bounded(find)
      ensures ref.None? ==> Lookup(contents, r, find) == None
      ensures ref.Some? ==> ref.value.group in Repr() && ref.value.InBounds()
      ensures ref.Some? ==> Lookup(contents, r, find) == Some(ref.value.Deref())
    {
      ref := MatchHost(r.host, r, find);
      if ref.Some? {
        return;
      }
      if |r.host| > 0 {
        var wildcard := WildcardName(r.host);
        ref := MatchHost(wildcard, r, find);
        if ref.Some? {
          return;
        }
      }
      ref := MatchHost("", r, find);
    }

    /** Any run of operations. */
    method Apply(ops: seq<Op>)
      requires Valid()
      modifies this
      ensures Valid() && Reaches(old(contents), ops, contents)
    {
      for i := 0 to |ops|
        invariant Valid() && Reaches(old(contents), ops[..i], contents)
        invariant fresh(Repr() - old(Repr()))
      {
        ghost var mid := contents;
        match ops[i] {
          case Update(key, newset) => Update(key, newset);
          case Clear(key) => Clear(key);
        }
        assert ops[..i + 1][..i] == ops[..i] && ops[..i + 1][i] == ops[i];
        assert Step(mid, ops[i], contents);
      }
      assert ops[..|ops|] == ops;
    }

    /**
     A request keeps using the route it was given, after the read lock is gone and
     through any number of table operations, and what it reads is what was selected.
     */
    method RouteAcrossUpdates(r: Request, find: Matcher, ops: seq<Op>) returns (route: Option<Route>)
      requires Valid() && Bounded(find)
      modifies this
      ensures route == Lookup(old(contents), r, find)
      ensures Valid() && Reaches(old(contents), ops, contents)
    {
      var ref := MatchRule(r, find);
      Apply(ops);
      route := if ref.None? then None else Some(ref.value.Deref());
    }
  }
}
