/**
 The ingress processor as an object (processor.go): its queue, its store and one
 call of the worker loop, which performs four steps of the machine in a row.
 */
module Processors {
  import opened Wrappers
  import opened IngressCompiler
  import opened IngressUpdater
  import opened Reconcile
  import Runs

  class Processor {
    const retries: nat
    const updater: Updater
    var store: map<Key, IngressObject>
    var queue: seq<Key>
    var dirty: set<Key>
    var processing: set<Key>
    var requeues: map<Key, nat>
    var delayed: multiset<Key>
    var pending: multiset<Key>
    ghost var phases: map<Key, Phase>

    ghost predicate Valid()
      reads this, updater.ings, updater.ings.Repr(), updater.certs, updater.certs.Arrays()
    {
      updater.Valid() && phases.Keys == processing
    }

    ghost function Machine(): State
      reads this, updater.ings
    {
      State(store, pending, delayed, queue, dirty, phases, requeues, updater.ings.contents)
    }

    constructor (updater: Updater, retries: nat)
      requires updater.Valid() && updater.ings.contents == map[]
      ensures Valid() && Machine() == INITIAL && this.updater == updater && this.retries == retries
    {
      this.updater, this.retries := updater, retries;
      store, queue, dirty, processing, requeues := map[], [], {}, {}, map[];
      delayed, pending, phases := multiset{}, multiset{}, map[];
    }

    /** `queue.Add` */
    method Enqueue(k: Key)
      requires Valid()
      modifies this`queue, this`dirty
      ensures Valid() && Machine() == Add(old(Machine()), k)
    {
      if k !in dirty {
        dirty := dirty + {k};
        if k !in processing {
          queue := queue + [k];
        }
      }
    }

    /** All three event handlers add the key of the object to the queue. */
    method OnEvent(k: Key)
      requires Valid() && k in pending
      modifies this`queue, this`dirty, this`pending
      ensures Valid() && Next(updater.config, retries, old(Machine()), Deliver(k), Machine())
    {
      pending := pending - multiset{k};
      Enqueue(k);
    }

    /** `processItem`: a missing key goes to `delItem` with a nil object, which fails. */
    method ProcessItem(k: Key) returns (failed: bool)
      requires Valid()
      modifies updater.ings, updater.certs, updater.certs.entries, updater.certs.Arrays()
      ensures Valid()
      ensures Handles(updater.config, old(updater.ings.contents), if k in store then Some(store[k]) else None,
                      updater.ings.contents, failed)
    {
      if k !in store {
        return true;
      }
      failed := updater.AddItem(store[k]);
    }

    /** `queue.Done` */
    method Done(k: Key)
      requires Valid() && k in processing
      modifies this`queue, this`processing, this`phases
      ensures Valid() && Machine() == Release(old(Machine()), k)
    {
      processing := processing - {k};
      phases := phases - {k};
      if k in dirty {
        queue := queue + [k];
      }
    }

    /** `queue.Get`, when the queue has a key to give. */
    method Get() returns (k: Key)
      requires Valid() && queue != []
      modifies this`queue, this`dirty, this`processing, this`phases
      ensures Valid() && k == old(queue[0])
      ensures Next(updater.config, retries, old(Machine()), Take, Machine())
    {
      k := queue[0];
      queue, dirty, processing := queue[1..], dirty - {k}, processing + {k};
      phases := phases[k := Taken];
    }

    /** The decision between forgetting the key and adding it again later. */
    method SettleKey(k: Key, failed: bool)
      requires Valid()
      modifies this`requeues, this`delayed
      ensures Valid() && Machine() == Settle(old(Machine()), k, failed, retries)
    {
      var tries := if k in requeues then requeues[k] else 0;
      if !failed {
        requeues := requeues - {k};
      } else if tries < retries {
        requeues := requeues[k := tries + 1];
        delayed := delayed + multiset{k};
      } else {
        requeues := requeues - {k};
      }
    }

    /** Everything after `processItem`. */
    method FinishKey(k: Key, failed: bool)
      requires Valid() && k in phases && phases[k] == Handled(failed)
      modifies this`requeues, this`delayed, this`queue, this`processing, this`phases
      ensures Valid() && Next(updater.config, retries, old(Machine()), Finish(k), Machine())
    {
      SettleKey(k, failed);
      Done(k);
    }

    /** `processItem` as two steps of the machine: look the key up, handle what was found. */
    method LookUpAndProcess(k: Key, ghost fetched: State) returns (failed: bool)
      requires Valid() && k in phases && phases[k] == Taken
      requires fetched == Machine().(processing := phases[k := Fetched(if k in store then Some(store[k]) else None)])
      modifies this`phases, updater.ings, updater.certs, updater.certs.entries, updater.certs.Arrays()
      ensures Valid() && k in phases && phases[k] == Handled(failed)
      ensures Next(updater.config, retries, old(Machine()), Fetch(k), fetched)
      ensures Next(updater.config, retries, fetched, Handle(k), Machine())
    {
      failed := ProcessItem(k);
      phases := phases[k := Handled(failed)];
      assert Machine() == fetched.(table := Machine().table, processing := fetched.processing[k := Handled(failed)]);
    }

    /** `processNextItem` */
    method ProcessNextItem() returns (more: bool)
      requires Valid() && queue != []
      modifies this, updater.ings, updater.certs, updater.certs.entries, updater.certs.Arrays()
      ensures Valid() && more
      ensures var k := old(queue[0]);
              Leads(updater.config, retries, old(Machine()), [Take, Fetch(k), Handle(k), Finish(k)], Machine())
    {
      ghost var start := Machine();
      var k := Get();
      ghost var taken := Machine();
      ghost var fetched := taken.(processing := phases[k := Fetched(if k in store then Some(store[k]) else None)]);
      var failed := LookUpAndProcess(k, fetched);
      ghost var handled := Machine();
      FinishKey(k, failed);
      Runs.FourSteps(Steps(updater.config, retries), start, Take, taken, Fetch(k), fetched, Handle(k), handled,
                     Finish(k), Machine());
      more := true;
    }
  }
}
