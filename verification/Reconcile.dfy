/**
 The reconcile loop of the ingress processor (processor.go) as a machine of
 interleaved steps: the informer's store changes, notifications arrive late,
 a queue coalesces keys, and any number of workers take them one at a time.
 */
module Reconcile {
  import opened Wrappers
  import opened Rules
  import opened HostGroups
  import opened RoutingTable
  import opened IngressCompiler
  import Runs

  type Key = IngressKey

  /** Where a worker is between `queue.Get` and `queue.Done`. */
  datatype Phase =
    | Taken
    | Fetched(obj: Option<IngressObject>)
    | Handled(failed: bool)

  datatype State = State(
    store: map<Key, IngressObject>,
    pending: multiset<Key>,
    delayed: multiset<Key>,
    queue: seq<Key>,
    dirty: set<Key>,
    processing: map<Key, Phase>,
    requeues: map<Key, nat>,
    table: Table)

  const INITIAL := State(map[], multiset{}, multiset{}, [], {}, map[], map[], map[])

  datatype Action =
    | Put(obj: IngressObject)      // an object is created or changed
    | Remove(key: Key)             // an object is deleted
    | Resync(key: Key)             // the informer repeats a notification
    | Deliver(key: Key)            // an event handler runs
    | Fire(key: Key)               // a rate-limited re-add falls due
    | Take                         // a worker gets the next key
    | Fetch(key: Key)              // GetByKey
    | Handle(key: Key)             // addItem or delItem
    | Finish(key: Key)             // error handling and Done

  /** `workqueue.Add` */
  function Add(s: State, k: Key): State {
    if k in s.dirty then s
    else s.(dirty := s.dirty + {k}, queue := if k in s.processing then s.queue else s.queue + [k])
  }

  /** `workqueue.Done` */
  function Release(s: State, k: Key): State {
    s.(processing := s.processing - {k}, queue := if k in s.dirty then s.queue + [k] else s.queue)
  }

  function Tries(s: State, k: Key): nat {
    if k in s.requeues then s.requeues[k] else 0
  }

  /** The three-way decision of `processNextItem` after the item was handled. */
  function Settle(s: State, k: Key, failed: bool, retries: nat): State {
    if !failed then s.(requeues := s.requeues - {k})
    else if Tries(s, k) < retries then
      s.(requeues := s.requeues[k := Tries(s, k) + 1], delayed := s.delayed + multiset{k})
    else s.(requeues := s.requeues - {k})
  }

  /** What `addItem` or `delItem` may do to the table; the object of a missing key is nil, and fails. */
  ghost predicate Handles(c: Config, t: Table, obj: Option<IngressObject>, t': Table, failed: bool) {
    match obj
    case None => t' == t && failed
    case Some(o) => !failed && if OurClass(c, o) then Step(t, Op.Update(o.Key(), Compile(c, o)), t') else t' == t
  }

  ghost predicate Next(c: Config, retries: nat, s: State, a: Action, s': State) {
    match a
    case Put(o) => s' == s.(store := s.store[o.Key() := o], pending := s.pending + multiset{o.Key()})
    case Remove(k) => k in s.store && s' == s.(store := s.store - {k}, pending := s.pending + multiset{k})
    case Resync(k) => k in s.store && s' == s.(pending := s.pending + multiset{k})
    case Deliver(k) => k in s.pending && s' == Add(s.(pending := s.pending - multiset{k}), k)
    case Fire(k) => k in s.delayed && s' == Add(s.(delayed := s.delayed - multiset{k}), k)
    case Take =>
      && s.queue != []
      && s' == s.(queue := s.queue[1..], dirty := s.dirty - {s.queue[0]},
                  processing := s.processing[s.queue[0] := Taken])
    case Fetch(k) =>
      && k in s.processing && s.processing[k] == Taken
      && s' == s.(processing := s.processing[k := Fetched(if k in s.store then Some(s.store[k]) else None)])
    case Handle(k) =>
      && k in s.processing && s.processing[k].Fetched?
      && exists failed :: Handles(c, s.table, s.processing[k].obj, s'.table, failed) &&
                          s' == s.(table := s'.table, processing := s.processing[k := Handled(failed)])
    case Finish(k) =>
      && k in s.processing && s.processing[k].Handled?
      && s' == Release(Settle(s, k, s.processing[k].failed, retries), k)
  }

  /** The steps of the machine, as the relation its runs are made of. */
  ghost function Steps(c: Config, retries: nat): (State, Action, State) -> bool {
    (s, a, s') => Next(c, retries, s, a, s')
  }

  /** These actions, in this order, can lead from `s` to `s'`. */
  ghost predicate Leads(c: Config, retries: nat, s: State, actions: seq<Action>, s': State) {
    Runs.Leads(Steps(c, retries), s, actions, s')
  }

  /** `s` can be reached from the initial state by these actions, in any interleaving. */
  ghost predicate Reachable(c: Config, retries: nat, actions: seq<Action>, s: State) {
    Leads(c, retries, INITIAL, actions, s)
  }

  // ---------- the work queue ----------

  ghost predicate NoDuplicates(q: seq<Key>) {
    forall i, j :: 0 <= i < j < |q| ==> q[i] != q[j]
  }

  /** The queue holds, once each, exactly the dirty keys that no worker has. */
  ghost predicate QueueOk(s: State) {
    && NoDuplicates(s.queue)
    && forall k :: k in s.queue <==> k in s.dirty && k !in s.processing
  }

  lemma AddKeepsQueueOk(s: State, k: Key)
    requires QueueOk(s)
    ensures QueueOk(Add(s, k))
  {
  }

  lemma ReleaseKeepsQueueOk(s: State, k: Key)
    requires QueueOk(s) && k in s.processing
    ensures QueueOk(Release(s, k))
  {
  }

  lemma TakeKeepsQueueOk(s: State)
    requires QueueOk(s) && s.queue != []
    ensures QueueOk(s.(queue := s.queue[1..], dirty := s.dirty - {s.queue[0]},
                       processing := s.processing[s.queue[0] := Taken]))
  {
  }

  lemma NextKeepsQueueOk(c: Config, retries: nat, s: State, a: Action, s': State)
    requires QueueOk(s) && Next(c, retries, s, a, s')
    ensures QueueOk(s')
  {
    match a {
      case Deliver(k) => AddKeepsQueueOk(s.(pending := s.pending - multiset{k}), k);
      case Fire(k) => AddKeepsQueueOk(s.(delayed := s.delayed - multiset{k}), k);
      case Take => TakeKeepsQueueOk(s);
      case Finish(k) => ReleaseKeepsQueueOk(Settle(s, k, s.processing[k].failed, retries), k);
      case _ =>
    }
  }

  // ---------- convergence ----------

  /** The table holds for `k` exactly the compilation of `obj`. */
  ghost predicate Current(c: Config, t: Table, k: Key, obj: IngressObject) {
    forall h, e: Ingress :: e.Key() == k ==> multiset(Get(t, h))[e] == multiset(Get(Compile(c, obj), h))[e]
  }

  ghost predicate OnItsWay(s: State, k: Key) {
    k in s.pending || k in s.dirty
  }

  /** A notification for `k` is on its way, or its worker will still see the stored object, or the table is current. */
  ghost predicate Tracked(c: Config, s: State, k: Key)
    requires k in s.store
  {
    || OnItsWay(s, k)
    || (if k in s.processing && s.processing[k].Taken? then true
        else if k in s.processing && s.processing[k].Fetched? then s.processing[k].obj == Some(s.store[k])
        else Current(c, s.table, k, s.store[k]))
  }

  ghost predicate KeysOk(s: State) {
    && (forall k :: k in s.store ==> s.store[k].Key() == k)
    && (forall k :: k in s.processing && s.processing[k].Fetched? && s.processing[k].obj.Some? ==>
          s.processing[k].obj.value.Key() == k)
  }

  ghost predicate AllTracked(c: Config, s: State) {
    forall k :: k in s.store && OurClass(c, s.store[k]) ==> Tracked(c, s, k)
  }

  lemma NextKeepsKeysOk(c: Config, retries: nat, s: State, a: Action, s': State)
    requires KeysOk(s) && Next(c, retries, s, a, s')
    ensures KeysOk(s')
  {
  }

  lemma HandledOtherStaysCurrent(
      c: Config, t: Table, obj: Option<IngressObject>, t': Table, failed: bool, k: Key, o: IngressObject)
    requires Handles(c, t, obj, t', failed) && Current(c, t, k, o)
    requires obj.Some? ==> obj.value.Key() != k
    ensures Current(c, t', k, o)
  {
    if obj.Some? && OurClass(c, obj.value) {
      CompiledTable(c, obj.value);
      forall h, e: Ingress | e.Key() == k {
        StepCount(t, Op.Update(obj.value.Key(), Compile(c, obj.value)), t', h, e);
      }
    }
  }

  lemma HandledBecomesCurrent(c: Config, t: Table, o: IngressObject, t': Table, failed: bool)
    requires Handles(c, t, Some(o), t', failed) && OurClass(c, o)
    ensures Current(c, t', o.Key(), o)
  {
    CompiledTable(c, o);
    forall h, e: Ingress | e.Key() == o.Key() {
      StepCount(t, Op.Update(o.Key(), Compile(c, o)), t', h, e);
    }
  }

  lemma HandleKeepsTracked(c: Config, retries: nat, s: State, a: Action, s': State, k: Key)
    requires KeysOk(s) && a.Handle? && Next(c, retries, s, a, s')
    requires k in s.store && OurClass(c, s.store[k]) && Tracked(c, s, k)
    ensures k in s'.store && Tracked(c, s', k)
  {
    if !OnItsWay(s, k) {
      var obj := s.processing[a.key].obj;
      var failed :| Handles(c, s.table, obj, s'.table, failed) &&
                    s' == s.(table := s'.table, processing := s.processing[a.key := Handled(failed)]);
      if a.key == k {
        HandledBecomesCurrent(c, s.table, s.store[k], s'.table, failed);
      } else if Current(c, s.table, k, s.store[k]) {
        HandledOtherStaysCurrent(c, s.table, obj, s'.table, failed, k, s.store[k]);
      }
    }
  }

  lemma EnvironmentKeepsTracked(c: Config, retries: nat, s: State, a: Action, s': State, k: Key)
    requires KeysOk(s) && (a.Put? || a.Remove? || a.Resync?) && Next(c, retries, s, a, s')
    requires k in s.store && OurClass(c, s.store[k]) ==> Tracked(c, s, k)
    requires k in s'.store && OurClass(c, s'.store[k])
    ensures Tracked(c, s', k)
  {
  }

  lemma TakeKeepsTracked(c: Config, retries: nat, s: State, s': State, k: Key)
    requires QueueOk(s) && Next(c, retries, s, Take, s') && k in s.store && Tracked(c, s, k)
    ensures Tracked(c, s', k)
  {
  }

  lemma DeliveryKeepsTracked(c: Config, s: State, k: Key, added: Key, pending: multiset<Key>, delayed: multiset<Key>)
    requires k in s.store && Tracked(c, s, k)
    requires pending == s.pending || pending == s.pending - multiset{added}
    ensures Tracked(c, Add(s.(pending := pending, delayed := delayed), added), k)
  {
  }

  lemma WorkerKeepsTracked(c: Config, retries: nat, s: State, a: Action, s': State, k: Key)
    requires KeysOk(s) && (a.Fetch? || a.Finish?) && Next(c, retries, s, a, s')
    requires k in s.store && OurClass(c, s.store[k]) ==> Tracked(c, s, k)
    requires k in s'.store && OurClass(c, s'.store[k])
    ensures Tracked(c, s', k)
  {
  }

  lemma NextKeepsTracked(c: Config, retries: nat, s: State, a: Action, s': State, k: Key)
    requires KeysOk(s) && QueueOk(s) && Next(c, retries, s, a, s')
    requires k in s.store && OurClass(c, s.store[k]) ==> Tracked(c, s, k)
    requires k in s'.store && OurClass(c, s'.store[k])
    ensures Tracked(c, s', k)
  {
    if a.Handle? {
      HandleKeepsTracked(c, retries, s, a, s', k);
    } else if a.Fetch? || a.Finish? {
      WorkerKeepsTracked(c, retries, s, a, s', k);
    } else if a.Deliver? {
      DeliveryKeepsTracked(c, s, k, a.key, s.pending - multiset{a.key}, s.delayed);
    } else if a.Fire? {
      DeliveryKeepsTracked(c, s, k, a.key, s.pending, s.delayed - multiset{a.key});
    } else if a.Take? {
      TakeKeepsTracked(c, retries, s, s', k);
    } else {
      EnvironmentKeepsTracked(c, retries, s, a, s', k);
    }
  }

  /** Every key is accounted for, at every moment of every interleaving. */
  lemma {:induction false} ReconcileInvariant(c: Config, retries: nat, actions: seq<Action>, s: State)
    requires Reachable(c, retries, actions, s)
    ensures QueueOk(s) && KeysOk(s) && AllTracked(c, s)
  {
    if actions != [] {
      var before, last := actions[..|actions| - 1], actions[|actions| - 1];
      var prev :| Reachable(c, retries, before, prev) && Next(c, retries, prev, last, s);
      ReconcileInvariant(c, retries, before, prev);
      NextKeepsQueueOk(c, retries, prev, last, s);
      NextKeepsKeysOk(c, retries, prev, last, s);
      forall k | k in s.store && OurClass(c, s.store[k]) {
        NextKeepsTracked(c, retries, prev, last, s, k);
      }
    }
  }

  /** No notification is on its way, nothing is queued, and no worker is busy. */
  ghost predicate Quiet(s: State) {
    s.pending == multiset{} && s.queue == [] && s.processing == map[]
  }

  /** At rest the table is current for every present ingress of our class. */
  lemma QuietTableIsCurrent(c: Config, retries: nat, actions: seq<Action>, s: State, k: Key)
    requires Reachable(c, retries, actions, s) && Quiet(s)
    requires k in s.store && OurClass(c, s.store[k])
    ensures Current(c, s.table, k, s.store[k])
  {
    ReconcileInvariant(c, retries, actions, s);
    assert k in s.dirty ==> k in s.queue;
  }

  // ---------- the table of a reachable state ----------

  ghost predicate TableOk(t: Table) {
    HostTagged(t) && forall h :: Sorted(Get(t, h))
  }

  lemma StepKeepsTableOk(c: Config, t: Table, o: IngressObject, t': Table)
    requires TableOk(t) && Step(t, Op.Update(o.Key(), Compile(c, o)), t')
    ensures TableOk(t')
  {
    CompiledTable(c, o);
    StepHostTagged(t, Op.Update(o.Key(), Compile(c, o)), t');
    forall h
      ensures Sorted(Get(t', h))
    {
      WithoutSorted(Get(t, h), o.Key());
    }
  }

  lemma NextKeepsTableOk(c: Config, retries: nat, s: State, a: Action, s': State)
    requires TableOk(s.table) && Next(c, retries, s, a, s')
    ensures TableOk(s'.table)
  {
    if a.Handle? && s'.table != s.table {
      StepKeepsTableOk(c, s.table, s.processing[a.key].obj.value, s'.table);
    }
  }

  lemma {:induction false} ReachableTableOk(c: Config, retries: nat, actions: seq<Action>, s: State)
    requires Reachable(c, retries, actions, s)
    ensures TableOk(s.table)
  {
    if actions != [] {
      var before, last := actions[..|actions| - 1], actions[|actions| - 1];
      var prev :| Leads(c, retries, INITIAL, before, prev) && Next(c, retries, prev, last, s);
      ReachableTableOk(c, retries, before, prev);
      NextKeepsTableOk(c, retries, prev, last, s);
    }
  }

  /** In every reachable state three-tier routing is the host's own group and then the group without host. */
  lemma ReachableRoutingHasTwoTiers(c: Config, retries: nat, actions: seq<Action>, s: State, r: Request, find: Matcher)
    requires Reachable(c, retries, actions, s) && Bounded(find)
    ensures Lookup(s.table, r, find) ==
            OrElse(GroupRoute(Get(s.table, r.host), r, find), GroupRoute(Get(s.table, ""), r, find))
  {
    ReachableTableOk(c, retries, actions, s);
    WildcardTierIsIdle(s.table, r, find);
  }

  // ---------- the machine comes to rest ----------

  predicate Internal(a: Action) {
    !a.Put? && !a.Remove? && !a.Resync?
  }

  function Unhandled(p: map<Key, Phase>): set<Key> {
    set k | k in p && !p[k].Handled?
  }

  function Unfetched(p: map<Key, Phase>): set<Key> {
    set k | k in p && p[k].Taken?
  }

  function Remaining(p: map<Key, Phase>): nat {
    |p| + |Unhandled(p)| + |Unfetched(p)|
  }

  /** Notifications, re-adds, dirty keys and busy workers. */
  function Units(s: State): nat {
    |s.pending| + |s.delayed| + |s.dirty| + |s.processing|
  }

  /** The keys these are about. */
  function Outstanding(s: State): set<Key> {
    (set k | k in s.pending) + (set k | k in s.delayed) + s.dirty + s.processing.Keys
  }

  /** The retries that outstanding keys have left. */
  function RetriesLeft(retries: nat, s: State): set<(Key, nat)> {
    set k, i: nat | k in Outstanding(s) && Tries(s, k) <= i < retries :: (k, i)
  }

  /** How far the units are from being done. */
  function Stages(s: State): nat {
    5 * |s.pending| + 5 * |s.delayed| + 4 * |s.dirty| + Remaining(s.processing)
  }

  /** Less is left to do: fewer units, or else fewer retries, or else fewer stages. */
  predicate Closer(retries: nat, s: State, s': State) {
    || Units(s') < Units(s)
    || (Units(s') == Units(s) && |RetriesLeft(retries, s')| < |RetriesLeft(retries, s)|)
    || (Units(s') == Units(s) && |RetriesLeft(retries, s')| == |RetriesLeft(retries, s)| && Stages(s') < Stages(s))
  }

  lemma {:induction false} SubsetSize<T>(a: set<T>, b: set<T>)
    requires a <= b
    ensures |a| <= |b|
  {
    if a != {} {
      var x :| x in a;
      SubsetSize(a - {x}, b - {x});
    }
  }

  /** A step that makes no key outstanding and forgets no tries leaves no more retries. */
  lemma NoMoreRetries(retries: nat, s: State, s': State)
    requires Outstanding(s') <= Outstanding(s) && s'.requeues == s.requeues
    ensures |RetriesLeft(retries, s')| <= |RetriesLeft(retries, s)|
  {
    SubsetSize(RetriesLeft(retries, s'), RetriesLeft(retries, s));
  }

  lemma OneMore(a: set<Key>, a': set<Key>, k: Key)
    requires k !in a && a' == a + {k}
    ensures |a'| == |a| + 1
  {
  }

  lemma TakenAdds(p: map<Key, Phase>, k: Key)
    requires k !in p
    ensures Remaining(p[k := Taken]) == Remaining(p) + 3
  {
    var p' := p[k := Taken];
    OneMore(p.Keys, p'.Keys, k);
    OneMore(Unhandled(p), Unhandled(p'), k);
    OneMore(Unfetched(p), Unfetched(p'), k);
    assert |p| == |p.Keys| && |p'| == |p'.Keys|;
  }

  lemma FetchedRemoves(p: map<Key, Phase>, k: Key, phase: Phase)
    requires k in p && p[k].Taken? && phase.Fetched?
    ensures Remaining(p[k := phase]) == Remaining(p) - 1
  {
    var p' := p[k := phase];
    assert p'.Keys == p.Keys;
    assert Unhandled(p') == Unhandled(p);
    assert Unfetched(p') == Unfetched(p) - {k};
  }

  lemma HandledRemoves(p: map<Key, Phase>, k: Key, phase: Phase)
    requires k in p && p[k].Fetched? && phase.Handled?
    ensures Remaining(p[k := phase]) == Remaining(p) - 1
  {
    var p' := p[k := phase];
    assert p'.Keys == p.Keys;
    assert Unhandled(p') == Unhandled(p) - {k};
    assert Unfetched(p') == Unfetched(p);
  }

  /** A notification or a re-add becomes a dirty key. */
  lemma AddCloser(retries: nat, s: State, k: Key, pending: multiset<Key>, delayed: multiset<Key>)
    requires pending <= s.pending && delayed <= s.delayed && |pending| + |delayed| + 1 == |s.pending| + |s.delayed|
    requires k in s.pending || k in s.delayed
    ensures Closer(retries, s, Add(s.(pending := pending, delayed := delayed), k))
  {
    var s' := Add(s.(pending := pending, delayed := delayed), k);
    assert Outstanding(s') <= Outstanding(s) && s'.processing == s.processing;
    NoMoreRetries(retries, s, s');
    assert |s'.dirty| == |s.dirty| + if k in s.dirty then 0 else 1;
    UnitsDecide(retries, s, s');
  }

  lemma UnitsDecide(retries: nat, s: State, s': State)
    requires |RetriesLeft(retries, s')| <= |RetriesLeft(retries, s)| && s'.processing == s.processing
    requires |s'.pending| + |s'.delayed| + 1 == |s.pending| + |s.delayed| && |s.dirty| <= |s'.dirty| <= |s.dirty| + 1
    ensures Closer(retries, s, s')
  {
  }

  lemma MoveOne(a: set<Key>, b: set<Key>, k: Key)
    requires k in a && k !in b
    ensures (a - {k}) + (b + {k}) == a + b && |a - {k}| == |a| - 1 && |b + {k}| == |b| + 1
  {
  }

  lemma TakeMovesUnit(dirty: set<Key>, p: map<Key, Phase>, k: Key)
    requires k in dirty && k !in p
    ensures |dirty - {k}| == |dirty| - 1 && |p[k := Taken]| == |p| + 1
    ensures (dirty - {k}) + p[k := Taken].Keys == dirty + p.Keys
  {
    var p' := p[k := Taken];
    assert p'.Keys == p.Keys + {k} && |p| == |p.Keys| && |p'| == |p'.Keys|;
    MoveOne(dirty, p.Keys, k);
  }

  /** A dirty key goes to a worker. */
  lemma TakeCloser(retries: nat, s: State, k: Key, queue: seq<Key>)
    requires k in s.dirty && k !in s.processing
    ensures Closer(retries, s, s.(queue := queue, dirty := s.dirty - {k}, processing := s.processing[k := Taken]))
  {
    var s' := s.(queue := queue, dirty := s.dirty - {k}, processing := s.processing[k := Taken]);
    TakeMovesUnit(s.dirty, s.processing, k);
    TakenAdds(s.processing, k);
    assert Outstanding(s') == Outstanding(s);
    NoMoreRetries(retries, s, s');
  }

  lemma WorkerCloser(c: Config, retries: nat, s: State, a: Action, s': State)
    requires Next(c, retries, s, a, s') && (a.Fetch? || a.Handle?)
    ensures Closer(retries, s, s')
  {
    assert s'.processing.Keys == s.processing.Keys;
    assert |s.processing| == |s.processing.Keys| && |s'.processing| == |s'.processing.Keys|;
    NoMoreRetries(retries, s, s');
    if a.Fetch? {
      FetchedRemoves(s.processing, a.key, s'.processing[a.key]);
    } else {
      HandledRemoves(s.processing, a.key, s'.processing[a.key]);
    }
  }

  lemma RetryUsed(retries: nat, s: State, k: Key, s': State)
    requires k in Outstanding(s) && Tries(s, k) < retries
    requires Outstanding(s') <= Outstanding(s) && s'.requeues == s.requeues[k := Tries(s, k) + 1]
    ensures |RetriesLeft(retries, s')| < |RetriesLeft(retries, s)|
  {
    var used := (k, Tries(s, k));
    assert used in RetriesLeft(retries, s);
    SubsetSize(RetriesLeft(retries, s'), RetriesLeft(retries, s) - {used});
  }

  lemma ReleaseFreesUnit(s: State, k: Key)
    requires k in s.processing
    ensures Units(Release(s, k)) == Units(s) - 1 && Outstanding(Release(s, k)) <= Outstanding(s)
  {
    var s' := Release(s, k);
    assert s'.processing.Keys == s.processing.Keys - {k};
    assert |s.processing| == |s.processing.Keys| && |s'.processing| == |s'.processing.Keys|;
  }

  lemma SettleUnits(s: State, k: Key, failed: bool, retries: nat)
    requires k in s.processing
    ensures var s' := Settle(s, k, failed, retries);
            && s'.processing == s.processing && Outstanding(s') == Outstanding(s)
            && Units(s') == Units(s) + if failed && Tries(s, k) < retries then 1 else 0
  {
    assert forall j :: j in s.delayed + multiset{k} <==> j in s.delayed || j == k;
  }

  lemma FinishCloser(retries: nat, s: State, k: Key, failed: bool)
    requires k in s.processing
    ensures Closer(retries, s, Release(Settle(s, k, failed, retries), k))
  {
    var settled := Settle(s, k, failed, retries);
    SettleUnits(s, k, failed, retries);
    ReleaseFreesUnit(settled, k);
    if failed && Tries(s, k) < retries {
      RetryUsed(retries, s, k, Release(settled, k));
    }
  }

  /** Every step of the machine's own brings it closer to rest, whatever the retry limit. */
  lemma InternalStepsDescend(c: Config, retries: nat, s: State, a: Action, s': State)
    requires QueueOk(s) && Next(c, retries, s, a, s') && Internal(a)
    ensures Closer(retries, s, s')
  {
    match a {
      case Fetch(_) => WorkerCloser(c, retries, s, a, s');
      case Handle(_) => WorkerCloser(c, retries, s, a, s');
      case Finish(k) => FinishCloser(retries, s, k, s.processing[k].failed);
      case Deliver(k) => AddCloser(retries, s, k, s.pending - multiset{k}, s.delayed);
      case Fire(k) => AddCloser(retries, s, k, s.pending, s.delayed - multiset{k});
      case Take =>
        assert s.queue[0] in s.queue;
        TakeCloser(retries, s, s.queue[0], s.queue[1..]);
    }
  }

  /** Nothing waits to be added again either. */
  ghost predicate AtRest(s: State) {
    Quiet(s) && s.delayed == multiset{}
  }

  lemma InternalStepsKeepStore(c: Config, retries: nat, s: State, a: Action, s': State)
    requires Next(c, retries, s, a, s') && Internal(a)
    ensures s'.store == s.store
  {
  }

  lemma HandlePossible(c: Config, retries: nat, s: State, k: Key) returns (s': State)
    requires k in s.processing && s.processing[k].Fetched?
    ensures Next(c, retries, s, Handle(k), s')
  {
    var obj := s.processing[k].obj;
    var t' := s.table;
    if obj.Some? && OurClass(c, obj.value) {
      t' := UpdatePossible(s.table, obj.value.Key(), Compile(c, obj.value));
    }
    s' := s.(table := t', processing := s.processing[k := Handled(obj.None?)]);
    assert Handles(c, s.table, s.processing[k].obj, s'.table, obj.None?);
  }

  lemma WorkerNeverStuck(c: Config, retries: nat, s: State, k: Key) returns (a: Action, s': State)
    requires k in s.processing
    ensures Internal(a) && Next(c, retries, s, a, s')
  {
    match s.processing[k] {
      case Taken =>
        a := Fetch(k);
        s' := s.(processing := s.processing[k := Fetched(if k in s.store then Some(s.store[k]) else None)]);
      case Fetched(_) =>
        a := Handle(k);
        s' := HandlePossible(c, retries, s, k);
      case Handled(failed) =>
        a, s' := Finish(k), Release(Settle(s, k, failed, retries), k);
    }
  }

  /** Whenever the machine is not at rest, some step of its own is possible. */
  lemma NeverStuck(c: Config, retries: nat, s: State) returns (a: Action, s': State)
    requires !AtRest(s)
    ensures Internal(a) && Next(c, retries, s, a, s')
  {
    if s.pending != multiset{} {
      var k :| k in s.pending;
      a, s' := Deliver(k), Add(s.(pending := s.pending - multiset{k}), k);
    } else if s.delayed != multiset{} {
      var k :| k in s.delayed;
      a, s' := Fire(k), Add(s.(delayed := s.delayed - multiset{k}), k);
    } else if s.queue != [] {
      a, s' := Take, s.(queue := s.queue[1..], dirty := s.dirty - {s.queue[0]},
                        processing := s.processing[s.queue[0] := Taken]);
    } else {
      var k :| k in s.processing;
      a, s' := WorkerNeverStuck(c, retries, s, k);
    }
  }

  /** Once the store stops changing the machine can always run to rest. */
  lemma {:induction false} ComesToRest(c: Config, retries: nat, s: State) returns (actions: seq<Action>, s': State)
    requires QueueOk(s)
    ensures Leads(c, retries, s, actions, s') && AtRest(s') && s'.store == s.store
    ensures forall a :: a in actions ==> Internal(a)
    decreases Units(s), |RetriesLeft(retries, s)|, Stages(s)
  {
    if AtRest(s) {
      return [], s;
    }
    var a, mid := NeverStuck(c, retries, s);
    InternalStepsDescend(c, retries, s, a, mid);
    InternalStepsKeepStore(c, retries, s, a, mid);
    NextKeepsQueueOk(c, retries, s, a, mid);
    var rest;
    rest, s' := ComesToRest(c, retries, mid);
    actions := [a] + rest;
    Runs.OneStep(Steps(c, retries), s, a, mid);
    Runs.Joined(Steps(c, retries), s, [a], mid, rest, s');
  }
}
