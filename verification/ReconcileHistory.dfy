/**
 What a history of the reconcile loop leaves in the routing table: the log of what
 was stored, fetched and installed, read off the actions alone, accounts for every
 entry of the table in every reachable state.
 */
module ReconcileHistory {
  import opened Wrappers
  import opened Rules
  import opened HostGroups
  import opened RoutingTable
  import opened IngressCompiler
  import opened Reconcile
  import opened RoundRobin
  import Runs

  type Objects = map<Key, IngressObject>

  // ---------- tables that stand for objects ----------

  /** The entries that the object of the entry's own ingress, if it is among these, declares for the host. */
  ghost function Declared(c: Config, objs: Objects, h: string, e: Ingress): nat {
    if e.Key() in objs then multiset(Get(Compile(c, objs[e.Key()]), h))[e] else 0
  }

  /** The table holds the entries that these objects declare, as often as they do, and no others. */
  ghost predicate Represents(c: Config, t: Table, objs: Objects) {
    && (forall k :: k in objs ==> objs[k].Key() == k)
    && forall h, e: Ingress :: multiset(Get(t, h))[e] == Declared(c, objs, h, e)
  }

  lemma RepresentedEntry(c: Config, t: Table, objs: Objects, h: string, e: Ingress)
    requires Represents(c, t, objs)
    ensures e in Get(t, h) <==> e.Key() in objs && e in Get(Compile(c, objs[e.Key()]), h)
  {
    assert e in Get(t, h) <==> multiset(Get(t, h))[e] > 0;
    assert multiset(Get(t, h))[e] == Declared(c, objs, h, e);
  }

  lemma RepresentedKeysDistinct(c: Config, t: Table, objs: Objects, h: string)
    requires Represents(c, t, objs) && forall k :: k in objs ==> HostsDistinct(objs[k].rules)
    ensures DistinctKeys(Get(t, h))
  {
    var g := Get(t, h);
    forall i, j | 0 <= i < j < |g|
      ensures g[i].Key() != g[j].Key()
    {
      RepresentedEntry(c, t, objs, h, g[i]);
      RepresentedEntry(c, t, objs, h, g[j]);
      var o := objs[g[i].Key()];
      CompiledOnePerHost(c, o, h);
      var declared := Get(Compile(c, o), h);
      assert multiset(g)[g[i]] == multiset(declared)[g[i]] <= |declared|;
      if g[i] == g[j] {
        RepeatedElement(g, i, j);
      }
    }
  }

  /** Tables that stand for the same objects route alike, if no object names a host twice. */
  lemma SameObjectsSameRoutes(c: Config, t: Table, t': Table, objs: Objects, r: Request, find: Matcher)
    requires Represents(c, t, objs) && TableOk(t) && Represents(c, t', objs) && TableOk(t')
    requires forall k :: k in objs ==> HostsDistinct(objs[k].rules)
    ensures Lookup(t, r, find) == Lookup(t', r, find)
  {
    forall h
      ensures Get(t, h) == Get(t', h)
    {
      assert multiset(Get(t, h)) == multiset(Get(t', h)) by {
        assert forall e: Ingress :: multiset(Get(t, h))[e] == Declared(c, objs, h, e) == multiset(Get(t', h))[e];
      }
      RepresentedKeysDistinct(c, t, objs, h);
      SortedUnique(Get(t, h), Get(t', h));
    }
  }

  /** Installing one more object. */
  lemma StepRepresents(c: Config, t: Table, objs: Objects, o: IngressObject, t': Table)
    requires Represents(c, t, objs) && Step(t, Op.Update(o.Key(), Compile(c, o)), t')
    ensures Represents(c, t', objs[o.Key() := o])
  {
    CompiledTable(c, o);
    forall h, e: Ingress
      ensures multiset(Get(t', h))[e] == Declared(c, objs[o.Key() := o], h, e)
    {
      StepCount(t, Op.Update(o.Key(), Compile(c, o)), t', h, e);
      assert multiset(Get(t, h))[e] == Declared(c, objs, h, e);
    }
  }

  // ---------- the log of a history ----------

  /** The store, what was last fetched for each key, and the last object of our class handled for each key. */
  datatype Log = Log(store: Objects, fetched: map<Key, Option<IngressObject>>, installed: Objects)

  function Stored(store: Objects, k: Key): Option<IngressObject> {
    if k in store then Some(store[k]) else None
  }

  function Install(c: Config, installed: Objects, obj: Option<IngressObject>): Objects {
    if obj.Some? && OurClass(c, obj.value) then installed[obj.value.Key() := obj.value] else installed
  }

  function Noted(c: Config, log: Log, a: Action): Log {
    match a
    case Put(o) => log.(store := log.store[o.Key() := o])
    case Remove(k) => log.(store := log.store - {k})
    case Fetch(k) => log.(fetched := log.fetched[k := Stored(log.store, k)])
    case Handle(k) => log.(installed := Install(c, log.installed, if k in log.fetched then log.fetched[k] else None))
    case _ => log
  }

  function Record(c: Config, actions: seq<Action>): Log {
    if actions == [] then Log(map[], map[], map[])
    else Noted(c, Record(c, actions[..|actions| - 1]), actions[|actions| - 1])
  }

  /** What the log knows of the state. */
  ghost predicate Accounts(c: Config, log: Log, s: State) {
    log.store == s.store && WorkLogged(log, s.processing) && Represents(c, s.table, log.installed)
  }

  /** Workers hold what was last fetched for their keys, and fail exactly if that was nothing. */
  ghost predicate WorkLogged(log: Log, processing: map<Key, Phase>) {
    forall k :: k in processing && !processing[k].Taken? ==>
      && k in log.fetched
      && (processing[k].Fetched? ==> log.fetched[k] == processing[k].obj)
      && (processing[k].Handled? ==> (log.fetched[k].None? <==> processing[k].failed))
  }

  lemma HandledRepresents(c: Config, t: Table, objs: Objects, obj: Option<IngressObject>, t': Table, failed: bool)
    requires Represents(c, t, objs) && Handles(c, t, obj, t', failed)
    ensures Represents(c, t', Install(c, objs, obj))
  {
    if obj.Some? && OurClass(c, obj.value) {
      StepRepresents(c, t, objs, obj.value, t');
    }
  }

  lemma HandleAccounts(c: Config, s: State, log: Log, k: Key, t': Table, failed: bool)
    requires Accounts(c, log, s) && k in s.processing && s.processing[k].Fetched?
    requires Handles(c, s.table, s.processing[k].obj, t', failed)
    ensures Accounts(c, Noted(c, log, Handle(k)), s.(table := t', processing := s.processing[k := Handled(failed)]))
  {
    HandledRepresents(c, s.table, log.installed, s.processing[k].obj, t', failed);
  }

  lemma StoreLogged(c: Config, retries: nat, s: State, log: Log, a: Action, s': State)
    requires log.store == s.store && Next(c, retries, s, a, s') && !a.Handle?
    ensures Noted(c, log, a).store == s'.store && s'.table == s.table && Noted(c, log, a).installed == log.installed
  {
  }

  lemma NoNewWork(c: Config, retries: nat, s: State, a: Action, s': State, k: Key)
    requires Next(c, retries, s, a, s') && !a.Handle? && a != Fetch(k)
    ensures k in s'.processing && !s'.processing[k].Taken? ==> k in s.processing && s'.processing[k] == s.processing[k]
  {
  }

  lemma NextWorkLogged(c: Config, retries: nat, s: State, log: Log, a: Action, s': State)
    requires log.store == s.store && WorkLogged(log, s.processing) && Next(c, retries, s, a, s') && !a.Handle?
    ensures WorkLogged(Noted(c, log, a), s'.processing)
  {
    forall k | k in s'.processing && !s'.processing[k].Taken? && a != Fetch(k) {
      NoNewWork(c, retries, s, a, s', k);
    }
  }

  lemma NextAccounts(c: Config, retries: nat, s: State, log: Log, a: Action, s': State)
    requires Accounts(c, log, s) && Next(c, retries, s, a, s')
    ensures Accounts(c, Noted(c, log, a), s')
  {
    if a.Handle? {
      var failed :| Handles(c, s.table, s.processing[a.key].obj, s'.table, failed) &&
                    s' == s.(table := s'.table, processing := s.processing[a.key := Handled(failed)]);
      HandleAccounts(c, s, log, a.key, s'.table, failed);
    } else {
      StoreLogged(c, retries, s, log, a, s');
      NextWorkLogged(c, retries, s, log, a, s');
    }
  }

  /**
   In every reachable state, busy or at rest, the table holds for each ingress exactly
   what the last object of our class that was handled for it declares.
   */
  lemma {:induction false} LogAccounts(c: Config, retries: nat, actions: seq<Action>, s: State)
    requires Reachable(c, retries, actions, s)
    ensures Accounts(c, Record(c, actions), s)
  {
    if actions != [] {
      var before, last := actions[..|actions| - 1], actions[|actions| - 1];
      var prev :| Reachable(c, retries, before, prev) && Next(c, retries, prev, last, s);
      LogAccounts(c, retries, before, prev);
      NextAccounts(c, retries, prev, Record(c, before), last, s);
    }
  }

  /** Two histories that installed the same objects route every request alike, at rest or not. */
  lemma SameInstalledSameRoutes(
      c: Config, retries: nat, actions: seq<Action>, s: State, actions': seq<Action>, s': State,
      r: Request, find: Matcher)
    requires Reachable(c, retries, actions, s) && Reachable(c, retries, actions', s')
    requires Record(c, actions).installed == Record(c, actions').installed
    requires var objs := Record(c, actions).installed; forall k :: k in objs ==> HostsDistinct(objs[k].rules)
    ensures Lookup(s.table, r, find) == Lookup(s'.table, r, find)
  {
    LogAccounts(c, retries, actions, s);
    LogAccounts(c, retries, actions', s');
    ReachableTableOk(c, retries, actions, s);
    ReachableTableOk(c, retries, actions', s');
    SameObjectsSameRoutes(c, s.table, s'.table, Record(c, actions).installed, r, find);
  }

  // ---------- stale entries, and the table at rest ----------

  /** The stored objects of our class. */
  function Present(c: Config, store: Objects): Objects {
    map k | k in store && OurClass(c, store[k]) :: store[k]
  }

  /** No table entry belongs to an ingress that is gone or has left our class. */
  ghost predicate NoStaleEntries(c: Config, s: State) {
    forall h, e: Ingress :: e in Get(s.table, h) ==> e.Key() in Present(c, s.store)
  }

  /** Every ingress that ever had rules installed is still stored and still ours. */
  predicate AllStillThere(c: Config, log: Log) {
    forall k :: k in log.installed && log.installed[k].rules != [] ==> k in Present(c, log.store)
  }

  lemma DeclaresSomething(c: Config, o: IngressObject) returns (h: string, e: Ingress)
    requires o.rules != []
    ensures e in Get(Compile(c, o), h) && e.Key() == o.Key()
  {
    h := o.rules[0].host;
    EntriesNonEmpty(c, o, o.rules, h);
    e := EntriesFor(c, o, o.rules, h)[0];
    CompiledTable(c, o);
    assert e in Compile(c, o)[h];
  }

  lemma NoRulesNoEntries(c: Config, o: IngressObject, h: string)
    requires o.rules == []
    ensures Get(Compile(c, o), h) == []
  {
  }

  /** Exactly which histories leave nothing stale: those that only installed what is still there. */
  lemma NothingStaleIffAllStillThere(c: Config, retries: nat, actions: seq<Action>, s: State)
    requires Reachable(c, retries, actions, s)
    ensures NoStaleEntries(c, s) <==> AllStillThere(c, Record(c, actions))
  {
    LogAccounts(c, retries, actions, s);
    var objs := Record(c, actions).installed;
    if NoStaleEntries(c, s) {
      forall k | k in objs && objs[k].rules != []
        ensures k in Present(c, s.store)
      {
        var h, e := DeclaresSomething(c, objs[k]);
        RepresentedEntry(c, s.table, objs, h, e);
      }
    }
    if AllStillThere(c, Record(c, actions)) {
      forall h, e: Ingress | e in Get(s.table, h)
        ensures e.Key() in Present(c, s.store)
      {
        RepresentedEntry(c, s.table, objs, h, e);
        if objs[e.Key()].rules == [] {
          NoRulesNoEntries(c, objs[e.Key()], h);
        }
      }
    }
  }

  /** The table is the compiled store. */
  ghost predicate TableIsStore(c: Config, s: State) {
    Represents(c, s.table, Present(c, s.store))
  }

  /** At rest, what the present objects declare is in the table, and whatever else is there is stale. */
  lemma QuietTableWithoutStale(c: Config, retries: nat, actions: seq<Action>, s: State)
    requires Reachable(c, retries, actions, s) && Quiet(s)
    ensures TableIsStore(c, s) <==> NoStaleEntries(c, s)
  {
    ReconcileInvariant(c, retries, actions, s);
    var objs := Present(c, s.store);
    if TableIsStore(c, s) {
      forall h, e: Ingress | e in Get(s.table, h)
        ensures e.Key() in objs
      {
        RepresentedEntry(c, s.table, objs, h, e);
      }
    }
    if NoStaleEntries(c, s) {
      forall h, e: Ingress
        ensures multiset(Get(s.table, h))[e] == Declared(c, objs, h, e)
      {
        if e.Key() in objs {
          QuietTableIsCurrent(c, retries, actions, s, e.Key());
        } else {
          assert e !in Get(s.table, h);
        }
      }
    }
  }

  /** At rest the table is the compiled store exactly when every ingress that had rules installed is still there. */
  lemma QuietTableIsStore(c: Config, retries: nat, actions: seq<Action>, s: State)
    requires Reachable(c, retries, actions, s) && Quiet(s)
    ensures TableIsStore(c, s) <==> AllStillThere(c, Record(c, actions))
  {
    QuietTableWithoutStale(c, retries, actions, s);
    NothingStaleIffAllStillThere(c, retries, actions, s);
  }

  /**
   Convergence: whatever was interleaved on the way, two states at rest with the same store
   route every request alike, if all that was installed is still there and no object names
   a host twice.
   */
  lemma SameStoreSameRoutes(
      c: Config, retries: nat, actions: seq<Action>, s: State, actions': seq<Action>, s': State,
      r: Request, find: Matcher)
    requires Reachable(c, retries, actions, s) && Quiet(s) && AllStillThere(c, Record(c, actions))
    requires Reachable(c, retries, actions', s') && Quiet(s') && AllStillThere(c, Record(c, actions'))
    requires s.store == s'.store
    requires forall k :: k in Present(c, s.store) ==> HostsDistinct(s.store[k].rules)
    ensures Lookup(s.table, r, find) == Lookup(s'.table, r, find)
  {
    QuietTableIsStore(c, retries, actions, s);
    QuietTableIsStore(c, retries, actions', s');
    ReachableTableOk(c, retries, actions, s);
    ReachableTableOk(c, retries, actions', s');
    SameObjectsSameRoutes(c, s.table, s'.table, Present(c, s.store), r, find);
  }

  // ---------- retries ----------

  /** How often handling the key has failed, by finding nothing stored, since it last succeeded. */
  function Failures(c: Config, actions: seq<Action>, k: Key): nat {
    if actions == [] then 0
    else
      var before, last := actions[..|actions| - 1], actions[|actions| - 1];
      if last != Finish(k) then Failures(c, before, k)
      else if k in Record(c, before).fetched && Record(c, before).fetched[k].Some? then 0
      else Failures(c, before, k) + 1
  }

  /** How many of these failures lead to another attempt, and how many such attempts have fallen due. */
  function Retried(c: Config, retries: nat, actions: seq<Action>, k: Key): nat {
    if actions == [] then 0
    else
      var before, last := actions[..|actions| - 1], actions[|actions| - 1];
      Retried(c, retries, before, k) +
      if last == Finish(k) && Failures(c, actions, k) % (retries + 1) != 0 then 1 else 0
  }

  function Fired(actions: seq<Action>, k: Key): nat {
    if actions == [] then 0
    else Fired(actions[..|actions| - 1], k) + if actions[|actions| - 1] == Fire(k) then 1 else 0
  }

  lemma OneMoreModulo(n: nat, m: nat)
    requires m > 0
    ensures (n + 1) % m == if n % m + 1 == m then 0 else n % m + 1
  {
    var q, r := n / m, n % m;
    assert n == q * m + r;
    if r + 1 == m {
      assert n + 1 == (q + 1) * m + 0;
      DivisionUnique(n + 1, q + 1, 0, m);
    } else {
      DivisionUnique(n + 1, q, r + 1, m);
    }
  }

  lemma OtherStepsKeepTries(c: Config, retries: nat, s: State, a: Action, s': State, k: Key)
    requires Next(c, retries, s, a, s') && a != Finish(k)
    ensures Tries(s', k) == Tries(s, k)
  {
    assert a.Finish? || s'.requeues == s.requeues;
  }

  lemma OtherStepsKeepDelayed(c: Config, retries: nat, s: State, a: Action, s': State, k: Key)
    requires Next(c, retries, s, a, s') && a != Finish(k)
    ensures s'.delayed[k] == s.delayed[k] - if a == Fire(k) then 1 else 0
  {
    assert a.Finish? || a.Fire? || s'.delayed == s.delayed;
  }

  lemma FinishCounts(s: State, k: Key, failed: bool, retries: nat)
    ensures var s' := Release(Settle(s, k, failed, retries), k);
            var again := failed && Tries(s, k) < retries;
            && Tries(s', k) == (if again then Tries(s, k) + 1 else 0)
            && s'.delayed[k] == s.delayed[k] + if again then 1 else 0
  {
  }

  lemma FailuresCount(c: Config, retries: nat, actions: seq<Action>, k: Key)
    requires actions != [] && actions[|actions| - 1] == Finish(k)
    requires k in Record(c, actions[..|actions| - 1]).fetched
    ensures var before := actions[..|actions| - 1];
            var tries := Failures(c, before, k) % (retries + 1);
            Failures(c, actions, k) % (retries + 1) ==
            if Record(c, before).fetched[k].None? && tries < retries then tries + 1 else 0
  {
    OneMoreModulo(Failures(c, actions[..|actions| - 1], k), retries + 1);
    DivisionUnique(0, 0, 0, retries + 1);
  }

  lemma FinishFollows(c: Config, retries: nat, actions: seq<Action>, prev: State, s: State, k: Key)
    requires actions != [] && actions[|actions| - 1] == Finish(k)
    requires Reachable(c, retries, actions[..|actions| - 1], prev) && Next(c, retries, prev, Finish(k), s)
    requires Tries(prev, k) == Failures(c, actions[..|actions| - 1], k) % (retries + 1)
    ensures Tries(s, k) == Failures(c, actions, k) % (retries + 1)
    ensures s.delayed[k] == prev.delayed[k] + if Failures(c, actions, k) % (retries + 1) != 0 then 1 else 0
  {
    LogAccounts(c, retries, actions[..|actions| - 1], prev);
    FailuresCount(c, retries, actions, k);
    FinishCounts(prev, k, prev.processing[k].failed, retries);
  }

  /**
   A key that is not found is attempted again as often as the limit allows, then forgotten, and
   then counted afresh; a success forgets it at once.
   */
  lemma {:induction false} RetriesFollowHistory(c: Config, retries: nat, actions: seq<Action>, s: State, k: Key)
    requires Reachable(c, retries, actions, s)
    ensures Tries(s, k) == Failures(c, actions, k) % (retries + 1)
    ensures s.delayed[k] == Retried(c, retries, actions, k) - Fired(actions, k)
  {
    if actions != [] {
      var before, last := actions[..|actions| - 1], actions[|actions| - 1];
      var prev :| Reachable(c, retries, before, prev) && Next(c, retries, prev, last, s);
      RetriesFollowHistory(c, retries, before, prev, k);
      if last == Finish(k) {
        FinishFollows(c, retries, actions, prev, s, k);
      } else {
        OtherStepsKeepTries(c, retries, prev, last, s, k);
        OtherStepsKeepDelayed(c, retries, prev, last, s, k);
      }
    }
  }

  // ---------- histories in which nothing of ours leaves ----------

  predicate PutsOurs(c: Config, a: Action, k: Key) {
    a.Put? && OurClass(c, a.obj) && a.obj.Key() == k
  }

  predicate WasOurs(c: Config, actions: seq<Action>, k: Key) {
    && actions != []
    && (WasOurs(c, actions[..|actions| - 1], k) || PutsOurs(c, actions[|actions| - 1], k))
  }

  /** The ingress is deleted, or handed to another controller. */
  predicate Leaves(c: Config, a: Action, k: Key) {
    || (a.Remove? && a.key == k)
    || (a.Put? && a.obj.Key() == k && !OurClass(c, a.obj))
  }

  /** No ingress leaves once it is ours; objects that never were ours may come and go. */
  ghost predicate OursForGood(c: Config, actions: seq<Action>) {
    forall n, k :: 0 <= n < |actions| && WasOurs(c, actions[..n], k) ==> !Leaves(c, actions[n], k)
  }

  /** What the log holds of ours is of these keys, and all of them are still stored. */
  ghost predicate OnlyOurs(c: Config, log: Log, ours: Key -> bool) {
    && (forall k :: ours(k) ==> k in Present(c, log.store))
    && (forall k :: k in log.store ==> log.store[k].Key() == k && (OurClass(c, log.store[k]) ==> ours(k)))
    && (forall k :: k in log.fetched && log.fetched[k].Some? ==>
          log.fetched[k].value.Key() == k && (OurClass(c, log.fetched[k].value) ==> ours(k)))
    && (forall k :: k in log.installed ==> ours(k))
  }

  lemma StoreChangeOnlyOurs(c: Config, log: Log, ours: Key -> bool, a: Action, ours': Key -> bool)
    requires OnlyOurs(c, log, ours) && (a.Put? || a.Remove?) && forall k :: ours(k) ==> !Leaves(c, a, k)
    requires forall k :: ours'(k) <==> ours(k) || PutsOurs(c, a, k)
    ensures OnlyOurs(c, Noted(c, log, a), ours')
  {
  }

  lemma WorkOnlyOurs(c: Config, log: Log, ours: Key -> bool, a: Action)
    requires OnlyOurs(c, log, ours) && !a.Put? && !a.Remove?
    ensures OnlyOurs(c, Noted(c, log, a), ours)
  {
  }

  lemma NextOnlyOurs(c: Config, log: Log, ours: Key -> bool, a: Action, ours': Key -> bool)
    requires OnlyOurs(c, log, ours) && forall k :: ours(k) ==> !Leaves(c, a, k)
    requires forall k :: ours'(k) <==> ours(k) || PutsOurs(c, a, k)
    ensures OnlyOurs(c, Noted(c, log, a), ours')
  {
    if a.Put? || a.Remove? {
      StoreChangeOnlyOurs(c, log, ours, a, ours');
    } else {
      assert forall k :: ours'(k) <==> ours(k);
      WorkOnlyOurs(c, log, ours, a);
    }
  }

  lemma {:induction false} OursForGoodOnlyOurs(c: Config, actions: seq<Action>)
    requires OursForGood(c, actions)
    ensures OnlyOurs(c, Record(c, actions), k => WasOurs(c, actions, k))
  {
    if actions != [] {
      var before, last := actions[..|actions| - 1], actions[|actions| - 1];
      assert forall n :: 0 <= n < |before| ==> before[..n] == actions[..n] && before[n] == actions[n];
      OursForGoodOnlyOurs(c, before);
      NextOnlyOurs(c, Record(c, before), k => WasOurs(c, before, k), last, k => WasOurs(c, actions, k));
    }
  }

  /** As long as nothing of ours leaves, no state of any interleaving has stale entries. */
  lemma OursForGoodLeavesNothingStale(c: Config, retries: nat, actions: seq<Action>, s: State)
    requires Reachable(c, retries, actions, s) && OursForGood(c, actions)
    ensures NoStaleEntries(c, s)
  {
    OursForGoodOnlyOurs(c, actions);
    NothingStaleIffAllStillThere(c, retries, actions, s);
  }

  // ---------- deletion ----------

  /** Nothing about `k` is left to be applied: it is gone, and no worker still holds its object. */
  ghost predicate Gone(s: State, k: Key) {
    && k !in s.store
    && (k in s.processing && s.processing[k].Fetched? ==> s.processing[k].obj.None?)
  }

  ghost predicate SameEntries(t: Table, t': Table, k: Key) {
    forall h, e: Ingress :: e.Key() == k ==> multiset(Get(t, h))[e] == multiset(Get(t', h))[e]
  }

  lemma OthersUntouched(c: Config, t: Table, o: IngressObject, t': Table, k: Key)
    requires Step(t, Op.Update(o.Key(), Compile(c, o)), t') && o.Key() != k
    ensures SameEntries(t, t', k)
  {
    CompiledTable(c, o);
    forall h, e: Ingress | e.Key() == k {
      StepCount(t, Op.Update(o.Key(), Compile(c, o)), t', h, e);
    }
  }

  lemma SameTableSameEntries(t: Table, k: Key)
    ensures SameEntries(t, t, k)
  {
  }

  lemma NextKeepsGone(c: Config, retries: nat, s: State, a: Action, s': State, k: Key)
    requires KeysOk(s) && Next(c, retries, s, a, s') && Gone(s, k) && !(a.Put? && a.obj.Key() == k)
    ensures Gone(s', k)
  {
  }

  lemma NextLeavesGoneAlone(c: Config, retries: nat, s: State, a: Action, s': State, k: Key)
    requires KeysOk(s) && Next(c, retries, s, a, s') && Gone(s, k)
    ensures SameEntries(s.table, s'.table, k)
  {
    if a.Handle? && s'.table != s.table {
      OthersUntouched(c, s.table, s.processing[a.key].obj.value, s'.table, k);
    } else {
      SameTableSameEntries(s.table, k);
    }
  }

  lemma SameEntriesTransitive(t: Table, mid: Table, t': Table, k: Key)
    requires SameEntries(t, mid, k) && SameEntries(mid, t', k)
    ensures SameEntries(t, t', k)
  {
  }

  /** As coded, the entries of a deleted ingress stay in the table for ever, until it is created again. */
  lemma {:induction false} DeletedIngressKeepsEntries(
      c: Config, retries: nat, s: State, actions: seq<Action>, s': State, k: Key)
    requires KeysOk(s) && Gone(s, k) && Leads(c, retries, s, actions, s')
    requires forall a :: a in actions ==> !(a.Put? && a.obj.Key() == k)
    ensures KeysOk(s') && Gone(s', k) && SameEntries(s.table, s'.table, k)
  {
    if actions == [] {
      SameTableSameEntries(s.table, k);
    } else {
      var before, last := actions[..|actions| - 1], actions[|actions| - 1];
      var mid :| Leads(c, retries, s, before, mid) && Next(c, retries, mid, last, s');
      DeletedIngressKeepsEntries(c, retries, s, before, mid, k);
      NextKeepsKeysOk(c, retries, mid, last, s');
      NextKeepsGone(c, retries, mid, last, s', k);
      NextLeavesGoneAlone(c, retries, mid, last, s', k);
      SameEntriesTransitive(s.table, mid.table, s'.table, k);
    }
  }

  // ---------- a history that leaves stale entries ----------

  /** The steps that handle one notification when nothing interferes. */
  function Round(k: Key): seq<Action> {
    [Deliver(k)] + WorkOn(k)
  }

  /** One call of the worker. */
  function WorkOn(k: Key): seq<Action> {
    [Take, Fetch(k), Handle(k), Finish(k)]
  }

  /** Nothing is under way but these notifications. */
  ghost predicate Idle(s: State, pending: multiset<Key>) {
    s.pending == pending && s.queue == [] && s.dirty == {} && s.processing == map[]
  }

  lemma DeliverStep(c: Config, retries: nat, s: State, k: Key)
    requires Idle(s, multiset{k})
    ensures Next(c, retries, s, Deliver(k), s.(pending := multiset{}, dirty := {k}, queue := [k]))
  {
    assert multiset{k} - multiset{k} == multiset{};
  }

  lemma TakeStep(c: Config, retries: nat, s: State, k: Key)
    requires s.queue == [k] && s.dirty == {k} && s.processing == map[]
    ensures Next(c, retries, s, Take, s.(queue := [], dirty := {}, processing := map[k := Taken]))
  {
    assert {k} - {k} == {};
  }

  lemma FetchStep(c: Config, retries: nat, s: State, k: Key)
    requires s.processing == map[k := Taken]
    ensures Next(c, retries, s, Fetch(k), s.(processing := map[k := Fetched(Stored(s.store, k))]))
  {
  }

  lemma HandleStep(c: Config, retries: nat, s: State, k: Key, obj: Option<IngressObject>, t': Table, failed: bool)
    requires k in s.processing && s.processing[k] == Fetched(obj) && Handles(c, s.table, obj, t', failed)
    ensures Next(c, retries, s, Handle(k), s.(table := t', processing := s.processing[k := Handled(failed)]))
  {
    var s' := s.(table := t', processing := s.processing[k := Handled(failed)]);
    assert Handles(c, s.table, s.processing[k].obj, s'.table, failed);
  }

  lemma FinishStep(c: Config, retries: nat, s: State, k: Key, failed: bool)
    requires s.dirty == {} && s.processing == map[k := Handled(failed)]
    ensures Next(c, retries, s, Finish(k), Settle(s.(processing := map[]), k, failed, retries))
  {
    assert map[k := Handled(failed)] - {k} == map[];
  }

  lemma WorkLeads(c: Config, retries: nat, s: State, k: Key, t': Table, failed: bool)
    requires s.queue == [k] && s.dirty == {k} && s.processing == map[]
    requires Handles(c, s.table, Stored(s.store, k), t', failed)
    ensures Leads(c, retries, s, WorkOn(k),
                  Settle(s.(queue := [], dirty := {}, table := t'), k, failed, retries))
  {
    var taken := s.(queue := [], dirty := {}, processing := map[k := Taken]);
    var fetched := taken.(processing := map[k := Fetched(Stored(s.store, k))]);
    var handled := taken.(processing := map[k := Handled(failed)], table := t');
    TakeStep(c, retries, s, k);
    FetchStep(c, retries, taken, k);
    HandleStep(c, retries, fetched, k, Stored(s.store, k), t', failed);
    assert fetched.processing[k := Handled(failed)] == handled.processing;
    FinishStep(c, retries, handled, k, failed);
    assert handled.(processing := map[]) == s.(queue := [], dirty := {}, table := t');
    Runs.FourSteps(Steps(c, retries), s, Take, taken, Fetch(k), fetched, Handle(k), handled,
                   Finish(k), Settle(handled.(processing := map[]), k, failed, retries));
  }

  lemma RoundLeads(c: Config, retries: nat, s: State, k: Key, t': Table, failed: bool)
    requires Idle(s, multiset{k}) && Handles(c, s.table, Stored(s.store, k), t', failed)
    ensures Leads(c, retries, s, Round(k), Settle(s.(pending := multiset{}, table := t'), k, failed, retries))
  {
    var delivered := s.(pending := multiset{}, dirty := {k}, queue := [k]);
    var done := Settle(s.(pending := multiset{}, table := t'), k, failed, retries);
    DeliverStep(c, retries, s, k);
    WorkLeads(c, retries, delivered, k, t', failed);
    assert delivered.(queue := [], dirty := {}, table := t') == s.(pending := multiset{}, table := t');
    Runs.OneStep(Steps(c, retries), s, Deliver(k), delivered);
    Runs.Joined(Steps(c, retries), s, [Deliver(k)], delivered, WorkOn(k), done);
  }

  /** One change of the store and the round that handles it. */
  lemma ChangeAndRound(c: Config, retries: nat, s: State, a: Action, changed: State, k: Key, t': Table, failed: bool)
    requires Next(c, retries, s, a, changed) && Idle(changed, multiset{k})
    requires Handles(c, changed.table, Stored(changed.store, k), t', failed)
    ensures Leads(c, retries, s, [a] + Round(k),
                  Settle(changed.(pending := multiset{}, table := t'), k, failed, retries))
  {
    RoundLeads(c, retries, changed, k, t', failed);
    Runs.OneStep(Steps(c, retries), s, a, changed);
    Runs.Joined(Steps(c, retries), s, [a], changed, Round(k),
                Settle(changed.(pending := multiset{}, table := t'), k, failed, retries));
  }

  /** An ingress of ours is created and handled. */
  lemma CreatedAndHandled(c: Config, retries: nat, o: IngressObject) returns (s: State)
    requires OurClass(c, o)
    ensures Reachable(c, retries, [Put(o)] + Round(o.Key()), s) && Idle(s, multiset{})
    ensures s.store == map[o.Key() := o] && Represents(c, s.table, map[o.Key() := o])
  {
    var k := o.Key();
    var t := UpdatePossible(map[], k, Compile(c, o));
    var put := INITIAL.(store := map[k := o], pending := multiset{k});
    ChangeAndRound(c, retries, INITIAL, Put(o), put, k, t, false);
    s := Settle(put.(pending := multiset{}, table := t), k, false, retries);
    StepRepresents(c, map[], map[], o, t);
    assert map[][k := o] == map[k := o];
  }

  /** It leaves, and that is handled. */
  lemma LeftAndHandled(c: Config, retries: nat, s: State, k: Key, leaving: Action) returns (s': State)
    requires Idle(s, multiset{}) && k in s.store && Leaves(c, leaving, k)
    ensures Leads(c, retries, s, [leaving] + Round(k), s') && Idle(s', multiset{})
    ensures s'.table == s.table && k !in Present(c, s'.store)
  {
    var store := if leaving.Put? then s.store[k := leaving.obj] else s.store - {k};
    var changed := s.(store := store, pending := multiset{k});
    ChangeAndRound(c, retries, s, leaving, changed, k, s.table, leaving.Remove?);
    s' := Settle(changed.(pending := multiset{}), k, leaving.Remove?, retries);
    assert changed.(pending := multiset{}, table := s.table) == changed.(pending := multiset{});
  }

  /**
   Any ingress of ours with rules, once it has been handled and then is deleted or handed to
   another controller, and that has been handled too, leaves its entries in the table at rest.
   */
  lemma LeavingIngressLeavesEntries(c: Config, retries: nat, o: IngressObject, leaving: Action)
      returns (actions: seq<Action>, s: State)
    requires OurClass(c, o) && o.rules != [] && Leaves(c, leaving, o.Key())
    ensures actions == [Put(o)] + Round(o.Key()) + ([leaving] + Round(o.Key()))
    ensures Reachable(c, retries, actions, s) && Quiet(s) && o.Key() !in Present(c, s.store)
    ensures Represents(c, s.table, map[o.Key() := o]) && !NoStaleEntries(c, s) && !TableIsStore(c, s)
  {
    var k := o.Key();
    var mid := CreatedAndHandled(c, retries, o);
    s := LeftAndHandled(c, retries, mid, k, leaving);
    actions := [Put(o)] + Round(k) + ([leaving] + Round(k));
    Runs.Joined(Steps(c, retries), INITIAL, [Put(o)] + Round(k), mid, [leaving] + Round(k), s);
    var h, e := DeclaresSomething(c, o);
    RepresentedEntry(c, s.table, map[k := o], h, e);
    QuietTableWithoutStale(c, retries, actions, s);
  }
}
