# Minke, verified

Minke is a Kubernetes ingress controller.  It watches Ingress, Secret and Endpoints objects, keeps
indexes of them up to date as events arrive, and answers every request from those indexes.  This
project models that core in Dafny and proves that the incrementally kept indexes agree with a plain
reading of the objects, and that the selection loops over them choose what they are meant to choose.

How it is laid out:

- `Text.dfy`, `Rules.dfy`, `HostGroups.dfy`: strings, the score of one rule, the order of ingresses
  and the selection loop over one host's group.
- `Slices.dfy`, `RoutingTable.dfy`: Go slices with their backing arrays; the routing table as an
  object, and what any history of updates leaves in it.
- `IngressCompiler.dfy`, `IngressUpdater.dfy`: from an Ingress object to table entries, and the
  whole of `addItem`, TLS blocks included.
- `Certificates.dfy`, `CertCache.dfy`: the certificate cache as values with its run theorems, and as
  the object that overwrites shared entries and compacts slices in place.
- `Endpoints.dfy`, `RoundRobin.dfy`, `EndpointTable.dfy`: expanding Endpoints objects, the round-robin
  counter, and the table object whose published lists are replaced and never changed.
- `Runs.dfy`, `Reconcile.dfy`, `Processor.dfy`: the event-driven loop as a machine of interleaved steps,
  and the worker of one processor as an object whose calls are steps of that machine.
- `ReconcileHistory.dfy`: what a history of that machine leaves in the routing table, entry by entry.
- `Serving.dfy`, `ServingHistory.dfy`, `Proxy.dfy`: requests in flight while the tables change, why a
  caller got its answer, and `getTarget` on the table objects, each of whose calls is a run of that
  machine.
- `EndToEnd.dfy`: what the installed objects mean for a request, in every reachable state.

Code that changes state is a class or a loop proved against a function of the old state; the theorems
about runs are lemmas about those functions and relations.

Conventions.  A Go string is a sequence of bytes and one `char` stands for one byte.  The
regular-expression engine, certificate parsing, `SupportsCertificate`, the clock and the service
scheme are parameters; the only thing assumed of them is that a match is no longer than the text.  A
rule's compiled expression is determined by its source text, so it is not a field.  `sort.Sort` is
known by its contract only, so entries that compare equal may end in any order; `Step` is a relation
for that reason.  `certMap` and `secUpdater` point at each other in the program and are one object
here.  The six nearly equal loops of `GetCertificate` share one method, except the last, which has a
fallback.  Objects that the API server always provides with an `HTTP` part are modelled with it.

Where the code and its design notes part, the model follows the code:

- `Less` puts an ingress without priority first; DESIGN.md:37-38 says last.  `addItem` never sets a
  priority.
- A request that no rule matches gets status 404; DESIGN.md:61 says 502, and the default backend of
  DESIGN.md:57-58 is stored but never read.
- Addresses are taken in turn, not at random as DESIGN.md:64 has it.
- `delItem` is called with a nil object and fails, so the routes of a deleted ingress stay, as do
  those of one handed to another controller: `ReconcileHistory.LeavingIngressLeavesEntries` gives the
  history.  The table at rest is the compiled store exactly when every ingress that had rules
  installed is still there (`ReconcileHistory.QuietTableIsStore`).
- Only the last TLS block of an ingress counts, one that lists hosts covers none, and an ingress whose
  blocks are all taken away keeps what it had (`IngressUpdater.LastTlsObjectDecides`); DESIGN.md:41-43
  describes more, and `IngressUpdater.ListedTlsHostIsNotRegistered` gives an ingress that misses it.
- The wildcard tier of routing never selects anything of its own (`RoutingTable.WildcardTierIsIdle`).
- A deeper prefix does not always score higher: `Rules.DeeperScoresHigher` gives the exact exception
  and `IngressCompiler.ShallowerPrefixCanWin` two declared prefixes that meet it.

## Model

| member | source | states |
|---|---|---|
| Text.BeforeIsLexical | ingress.go:148-158 | a string comes before another iff it is smaller at the first byte where they differ, or ends there |
| Text.BeforeTotal | ingress.go:148-158 | that order compares any two different strings |
| Text.BeforeTransitive | ingress.go:148-158 | the string order is transitive |
| Text.ElementPrefix | ingress.go:201-209 | the split of `p` is a list prefix of the split of `s` iff `s` is `p` or continues it after a separator |
| Text.JoinSplit | secrets.go:189-191 | joining what was split gives the string back |
| Text.WildcardReplacesFirstLabel | secrets.go:189-192 | split, overwrite and join replace exactly the left-most label |
| Text.WildcardCoversOneLabel | secrets.go:189-192 | the wildcard key of a host is `*.d` iff the host is one dot-free label followed by `.d` |
| Text.SharedWildcard | ingress.go:255-257 | two hosts share a wildcard key iff they agree after the first label |
| Rules.ScoreAtMostPath | ingress.go:163-213 | no score exceeds the request path; exact iff the host is accepted and an exact rule's path is the request path, and then the score is the whole path |
| Rules.PrefixIsElementwise | ingress.go:201-209 | a prefix rule other than the root matches iff its elements are the first elements of the request path |
| Rules.RootMatchesAbsolute | ingress.go:201-205 | the root prefix matches exactly the absolute paths |
| Rules.GlobStarIsPrefix | ingress.go:170-183 | a glob ending in slash and star scores as the prefix rule without that ending, on every request |
| Rules.PlainGlobIgnoresOneSlash | ingress.go:184-191 | any other glob matches its path with or without one more slash, and then scores the whole request path |
| Rules.RegexpScoresItsMatch | ingress.go:192-196 | an expression scores the length of its match and is never exact |
| Rules.DeeperScoresHigher | ingress.go:201-209 | of two matching prefix rules the one with more elements scores strictly higher, except exactly when it is the other path plus a slash and equals the request path |
| HostGroups.LessMeans | ingress.go:127-161 | an ingress without priority goes first, then the lower priority; of equal ones the name decides byte by byte, then the namespace |
| HostGroups.LessTransitive | ingress.go:127-161 | the order of ingresses is transitive |
| HostGroups.LessTotal | ingress.go:127-161 | it is asymmetric, and leaves two ingresses unordered iff they agree on priority, name and namespace |
| HostGroups.SortedUnique | ingress.go:119-161 | a sorted group with distinct keys is determined by its multiset |
| HostGroups.MatchRules | ingress.go:219-231 | the loop over one ingress's rules finds the rule to use |
| HostGroups.MatchGroup | ingress.go:215-237 | the selection loop returns the first ingress with a rule to use, and that rule |
| HostGroups.ChoiceMeans | ingress.go:219-231 | the rule used matches; it is the last exact match if there is one, else the first of highest score |
| HostGroups.ChoiceIffHit | ingress.go:219-235 | some rule is used iff some rule matches |
| HostGroups.GroupChoiceCharacterised | ingress.go:215-237 | the selected ingress matches and none before it does; nothing is selected iff none matches |
| HostGroups.SelectsLeastIngress | ingress.go:215-237 | in a sorted group with distinct keys the selected ingress precedes every other that matches, by priority, name and namespace |
| HostGroups.DeepestPrefixChosen | ingress.go:219-231 | a prefix rule that is chosen, among rules of any kind, has at least as many elements as every other matching prefix rule that is the root or does not end in a slash |
| Slices.Append | ingress.go:284-292 | append yields the old elements and the new one, and either writes past the end of the same array or moves to a new array and leaves the old one untouched |
| RoutingTable.Sort | ingress.go:291 | the in-place sort leaves a sorted permutation |
| RoutingTable.IngressSet.RemoveEntries | ingress.go:277-287 | every group loses exactly the entries of one ingress, in new arrays |
| RoutingTable.IngressSet.MergeAll | ingress.go:289-293 | every host of the new set gets a sorted group of what it had and what is new; other hosts keep theirs |
| RoutingTable.IngressSet.Update | ingress.go:269-294 | the new table is the old one without the ingress, merged with the new set; only the map is modified and every array of the new table is fresh |
| RoutingTable.IngressSet.Clear | ingress.go:296-311 | the new table is the old one without the ingress, again in fresh arrays |
| RoutingTable.IngressSet.MatchRule | ingress.go:239-267 | the pointers returned lead to what the three tiers select |
| RoutingTable.IngressSet.Apply | ingress.go:269-311 | any run of operations leads to a table that those operations can make, and writes no array that existed before |
| RoutingTable.IngressSet.RouteAcrossUpdates | proxy.go:60-73 | a route read under the lock and dereferenced after any run of table operations is still the route that was selected |
| RoutingTable.RunSorted | ingress.go:269-311 | after any run every group is sorted |
| RoutingTable.RunRefinesHistory | ingress.go:269-311 | after any run a group holds each entry exactly as often as the last operation on its ingress installed it for that host; nothing stale stays |
| RoutingTable.TiesDecideRoute | ingress.go:215-237 | the contract of the sort fixes the route of a group iff no two different ingresses match with nothing less matching |
| RoutingTable.SameHistorySameRoute | ingress.go:239-294 | histories with the same last operation for every ingress route a request alike wherever matching ties agree |
| RoutingTable.SameHistorySameGroup | ingress.go:269-311 | with one entry per ingress and host such histories leave identical groups |
| RoutingTable.RoutingOrderIndependent | ingress.go:239-311 | and then every request is routed identically, whatever the order of events |
| RoutingTable.WildcardTierIsIdle | ingress.go:239-267 | on tables whose rules name the host they are stored under, three-tier routing is the host's group and then the group without host |
| IngressCompiler.OurClass | ingress.go:317-336 | an object is ours iff the field names our class, or without it the annotation does, or neither is there and ours is empty |
| IngressCompiler.BackendKeyIsDeclared | endpoints.go:77-89 | the key of a backend has the object's namespace, the declared service name, and no port name for a number, else the declared one |
| IngressCompiler.EntryIsDeclared | ingress.go:356-377 | an entry carries its object's name and namespace, no priority, its default backend, and wants redirects iff the annotation says so or, without it, the default does |
| IngressCompiler.AcceptedPathsCompile | ingress.go:384-433 | a path is compiled iff its type is absent, empty, `Prefix` or `Exact`, or stands for an expression that compiles once anchored |
| IngressCompiler.NamedHostsMeans | ingress.go:446-448 | a host is listed for certificates iff it is not empty and some rule names it |
| IngressCompiler.CompilePaths | ingress.go:379-443 | the loop over the paths compiles them in order, dropping the ones to be ignored |
| IngressCompiler.CompileObject | ingress.go:367-449 | the loop over the rules builds, per host, the entries in rule order, and the list of named hosts |
| IngressCompiler.CompiledTable | ingress.go:369-445 | every entry belongs to the object and every rule names its host, has a path and a backend in the object's namespace |
| IngressCompiler.OneEntryPerHost | ingress.go:444-445 | there is at most one entry per host iff the object names no host twice |
| IngressCompiler.TrailingSlashIgnored | ingress.go:386-394 | a slash added to a declared prefix changes nothing, unless the prefix already ended in one |
| IngressCompiler.CompiledRuleMeans | ingress.go:384-441 | a compiled rule matches exactly the requests that its declared path and path type stand for |
| IngressCompiler.CompiledRuleScores | ingress.go:163-213 | it scores exactly how much of the request its declared path covers, and is exact iff that path is and equals the request |
| IngressCompiler.ShallowerPrefixCanWin | ingress.go:201-231 | of the declared prefixes `/a` and `/a//`, in this order, the shallower one is chosen for `/a/`, with equal scores |
| IngressUpdater.Updater.RegisterCerts | ingress.go:451-461 | the loop over the TLS blocks registers them one after the other |
| IngressUpdater.Updater.AddItem | ingress.go:338-467 | an object of ours replaces its table entries and registers its TLS blocks; another object changes nothing; it never fails |
| IngressUpdater.LastTlsBlockCounts | ingress.go:451-461 | after an object with TLS blocks the ingress is registered under a host iff the last block lists no hosts and a rule names that host, with that block's secret |
| IngressUpdater.LastTlsObjectDecides | ingress.go:338-461 | over any run the last object of an ingress that was ours and had TLS blocks decides what is registered for it; one without blocks changes nothing |
| IngressUpdater.ListedTlsHostIsNotRegistered | ingress.go:451-461 | an ingress whose rule and only TLS block name the same host gets no certificate for it |
| CertCaches.Compact | secrets.go:109-116 | in-place compaction keeps the other ingresses' entries in order, on the same backing array |
| CertCaches.CertCache.UpdateSecret | secrets.go:124-149 | every listed entry of the secret, shared or not, gets the certificate, and nothing else changes |
| CertCaches.CertCache.AddItem | secrets.go:280-305 | a secret with both fields is stored and refreshes its entries; any other changes nothing; the recursion terminates |
| CertCaches.CertCache.GetSecret | secrets.go:321-337 | the stored secret, else the informer's, which is stored on the way; terminates by whether the key is already stored |
| CertCaches.CertCache.GetCert | secrets.go:339-364 | the certificate is the parse of what `getSecret` finds; terminates for every store |
| CertCaches.CertCache.UpdateCert | secrets.go:275-278 | entries of the key get the certificate of what is stored |
| CertCaches.CertCache.FilterIngress | secrets.go:108-117 | compacting one host after the other leaves every host's list filtered: no host disturbs another |
| CertCaches.CertCache.AppendEntry | secrets.go:119-121 | each named host gets the one shared entry at its end; backing arrays stay separate |
| CertCaches.CertCache.UpdateIngress | secrets.go:89-122 | the whole operation on the heap is the value-level one |
| CertCaches.CertCache.SetDefaults | secrets.go:151-165 | the defaults become entries for the keys in order |
| CertCaches.CertCache.GetCertificate | secrets.go:169-266 | the loops return the choice of the seven levels |
| CertCaches.CertCache.Replay | secrets.go:89-165 | any run of operations on a new cache, with a changing informer, refines the run on values |
| Certificates.SecretsFollowHistory | secrets.go:280-337 | after any run what is stored for a secret is what the last event with both fields brought, renewals included, or what the informer had when it was first needed |
| Certificates.EntriesFollowHistory | secrets.go:89-165 | after any run every entry, of a host or a default, holds the parse of `tls.crt` and `tls.key` in that data |
| Certificates.DefaultsFollowHistory | secrets.go:151-165 | after any run the defaults are one entry for each key last set, in that order |
| Certificates.RunCoherent | secrets.go:89-165 | after any run every entry holds exactly the parse of the secret stored under its key, or nothing |
| Certificates.FetchCoherent | secrets.go:321-345 | a lookup keeps coherence and answers the parse of what it leaves stored |
| Certificates.UpdateIngressCoherent | secrets.go:89-122 | so does listing an ingress |
| Certificates.DeletingLeavesCertificates | secrets.go:307-319 | deleting a secret would leave the cache coherent iff the secret has no certificate or nothing lists it |
| Certificates.HostIndexFollowsHistory | secrets.go:97-121 | after any run the entry of an ingress is under a host iff its last host list named the host, once, with that secret, and entries stand in the order of those listings |
| Certificates.FirstCertFinds | secrets.go:174-187 | each loop finds the first acceptable certificate, or there is none |
| Certificates.ChooseFollowsLevels | secrets.go:169-266 | the certificate returned is the first of the first level that has any, in the order own, wildcard, default in date, then the same at any date, then any default |
| Certificates.ChooseIsBest | secrets.go:167-266 | never an expired certificate while a valid supported one is a candidate, never an unsupported one while a supported one is, nothing only if nothing is supported and no default has a certificate |
| Certificates.CandidatesFollowHistory | secrets.go:97-121 | after any run the candidates for a name are exactly the certificates of secrets that an ingress was last listed with for the name or its wildcard, or that are defaults |
| Certificates.ServedFollowsHistory | secrets.go:89-266 | so the certificate served is one that the history offers, of the last version of its secret, in date if a supported one in date is offered, supported if one is |
| Endpoints.AddAll | endpoints.go:148-156 | the innermost loop appends every address with the port to one list and touches no other |
| Endpoints.Collect | endpoints.go:125-158 | the nested loops build, per port name, the subset-ordered list, and keep only non-empty ones |
| Endpoints.ExpandLength | endpoints.go:127-158 | a list's length is the sum over subsets of addresses times ports of that name, and once more without a port name |
| Endpoints.ExpandConservesAddresses | endpoints.go:127-158 | each address and port occurs exactly as often as addresses and ports that agree with it |
| Endpoints.ExpandInOrder | endpoints.go:127-158 | and stands where the subset order, then the ports with the portless copy first, then the order of addresses puts it |
| Endpoints.ExpandIsPublished | endpoints.go:127-158 | a list holds exactly what the object publishes for the port name |
| EndpointTable.EpsSet.AddItem | endpoints.go:114-171 | keys the object supplies get new lists and fresh counters, every other key is untouched, no list is ever empty |
| EndpointTable.AddrSet.Take | endpoints.go:102-104 | one ticket bumps the counter and answers the address at the count modulo 2^64 modulo the length |
| EndpointTable.EpsSet.GetNextAddr | endpoints.go:95-105 | the list that is current for the key gives its next address, or the empty address for an unknown key; no other list is touched and the modulo is always defined |
| RoundRobin.EachPositionFairlyServed | endpoints.go:102-103 | of any number of tickets before the counter wraps each position gets the floor or the ceiling of its share |
| RoundRobin.AnswersFair | endpoints.go:102-104 | so of the answers every copy of an address gets the floor or the ceiling of its share |
| RoundRobin.WindowHitsEachOnce | endpoints.go:102-103 | as many consecutive tickets as addresses hit each position once iff they do not straddle the 64-bit wrap or the length divides it |
| Reconcile.NextKeepsQueueOk | processor.go:50-71 | at every step the queue holds, once each, exactly the dirty keys no worker has |
| Reconcile.HandledBecomesCurrent | ingress.go:338-467 | handling an object of ours makes the table current for it |
| Reconcile.HandledOtherStaysCurrent | ingress.go:338-467 | and leaves it current for every other key |
| Reconcile.ReconcileInvariant | processor.go:50-119 | in every interleaving each present ingress of ours is announced, queued, with a worker that will see the stored object, or current in the table |
| Reconcile.QuietTableIsCurrent | processor.go:89-119 | at rest the table is current for every present ingress of ours |
| ReconcileHistory.LogAccounts | processor.go:89-119 | in every reachable state, busy or not, the table holds for each ingress exactly what the last object of our class handled for it declares, read off the history alone |
| ReconcileHistory.SameInstalledSameRoutes | processor.go:50-119 | two histories that installed the same objects route every request alike, at rest or not, if no object names a host twice |
| ReconcileHistory.NothingStaleIffAllStillThere | processor.go:110-119 | a history leaves no stale entry iff every ingress that had rules installed is still stored and ours |
| ReconcileHistory.QuietTableIsStore | processor.go:110-119 | so at rest the table is the compiled store iff every ingress that had rules installed is still there |
| ReconcileHistory.SameStoreSameRoutes | processor.go:50-119 | two such states with the same store route every request alike, whatever was interleaved, if no object names a host twice |
| ReconcileHistory.OursForGoodLeavesNothingStale | processor.go:110-119 | as long as no ingress of ours is deleted or handed away nothing is stale in any interleaving, whatever objects of others come and go |
| ReconcileHistory.DeletedIngressKeepsEntries | processor.go:115-117 | once an ingress is gone and no worker holds it, its entries stay as they are until it is created again |
| ReconcileHistory.LeavingIngressLeavesEntries | processor.go:89-119 | any ingress of ours with rules that is created, handled, deleted or handed away, and handled again, leads to a state at rest that still has exactly its entries |
| Reconcile.ReachableTableOk | ingress.go:239-311 | in every reachable state groups are sorted and rules name the host they are stored under |
| Reconcile.ReachableRoutingHasTwoTiers | ingress.go:239-267 | so routing in every reachable state has two tiers |
| Reconcile.InternalStepsDescend | processor.go:89-108 | every step of the machine itself leaves less to do, for any retry limit: fewer units of work, or fewer retries left, or fewer stages |
| Reconcile.NeverStuck | processor.go:84-108 | unless the machine is at rest, with nothing waiting for a retry either, one of its own steps is possible |
| Reconcile.ComesToRest | processor.go:84-119 | once the store stops changing the machine can always run to rest |
| ReconcileHistory.RetriesFollowHistory | processor.go:98-105 | the tries counted for a key are its failures since it last succeeded modulo the limit plus one, and the attempts waiting are those due to it less those that fell due |
| Processors.Processor.OnEvent | processor.go:50-71 | an event handler is the delivery step: it adds the key to the queue |
| Processors.Processor.ProcessItem | processor.go:110-119 | a present key is handled, a missing one fails and changes nothing |
| Processors.Processor.SettleKey | processor.go:98-105 | forget on success, re-add below the retry limit, else forget |
| Processors.Processor.ProcessNextItem | processor.go:89-108 | one call of the worker performs exactly the take, fetch, handle and finish steps of the machine |
| Serving.NextKeepsWorldOk | proxy.go:59-80 | every step of callers and updaters keeps rules in their namespace, lists non-empty and published, and calls consistent |
| Serving.LeadsKeepsWorldOk | proxy.go:59-80 | so does every run, in every interleaving |
| Serving.NamespaceConfinement | proxy.go:59-80 | in every interleaving an address answered was published by a processed Endpoints object in the ingress's namespace, named as the rule's backend service, for its port name |
| Serving.AnswersAreCallers | endpoints.go:95-105 | the answers recorded for a list are those its callers got, one for each ticket and none else |
| Serving.EveryListAnswersInTurn | endpoints.go:95-105 | in every interleaving the n-th answer of a list is its address at position n modulo 2^64 modulo the length |
| Serving.EveryListServesFairly | endpoints.go:95-105 | in every interleaving of callers each list answers its addresses evenly, each for every copy of it, until its counter wraps |
| Serving.UninterruptedCall | proxy.go:59-80 | a call that nothing interrupts is the four steps of one caller and comes to one ticket on the list of the selected backend |
| ServingHistory.TableFollowsHistory | ingress.go:338-467 | in every interleaving the routing table stands for the objects last handled |
| ServingHistory.ListsFollowHistory | endpoints.go:114-171 | in every interleaving the current list of a key is what the last object with addresses for it has, and a key without such an object has no list |
| ServingHistory.CallsFollowHistory | proxy.go:59-80 | every call in flight has the route that the objects installed when it began declare, and the list that was current when it looked |
| ServingHistory.AnswersFollowDeclarations | proxy.go:59-80 | in every interleaving an address answered was that of the declared service of the best declared path, at the declared port, in the ingress's namespace, in the last Endpoints object with addresses for it when the caller looked |
| Proxy.NextAddrConfined | proxy.go:73-76 | in such a state the next address of the selected backend comes from the ingress's own namespace and the named service |
| Proxy.Controller.AddIngress | ingress.go:338-449 | the routing half of the ingress updater is a step of the serving machine, added to its history |
| Proxy.Controller.AddEndpoints | endpoints.go:114-171 | the endpoints updater is a step of the serving machine, added to its history |
| Proxy.Controller.Serve | proxy.go:65-79 | redirect before anything else and without a ticket; else the next address with its scheme, or no endpoints |
| Proxy.OutcomeFollowsHistory | proxy.go:59-80 | after any history: not found iff no installed object declares a path for the request; a redirect to https at the same host and path iff its ingress wants one and the request is plain; else an address the declared service has at the declared port, or no endpoints if it has none or an empty one |
| Proxy.Controller.GetTarget | proxy.go:59-80 | returns that outcome, panics included, for every request and history; a call that reaches the endpoints is a run of the serving machine, any other changes nothing |
| EndToEnd.ChosenRuleIsBestPath | ingress.go:219-231 | the rule chosen comes from the last exact declared path for the request, or else from the first of those that cover most of it, in terms of the declared paths |
| EndToEnd.RoutedIffDeclared | ingress.go:239-467 | in every reachable state a request is routed iff some installed object declares, for its host or for none, a path that stands for the request's |
| EndToEnd.RouteAnswers | ingress.go:239-467 | and then the answer is the request's own host before no host, the first ingress by name and namespace among those that declare such a path, and the best path of its rule, with that path's declared backend |
| EndToEnd.HostBeforeCatchAll | ingress.go:247-266 | in every reachable state a rule installed for the request's host goes before every rule without a host |
| EndToEnd.RestingRoutesFollowStore | ingress.go:239-467 | at rest, if all that was installed is still there, the stored objects say in the same way what is routed and where |
| EndToEnd.BackendLeadsToPort | endpoints.go:77-89 | a backend port that is a number, or an empty name, leads to any address without a port or at an unnamed port; any other name, and the number 0 taken as one, leads to the port of that name |

## Left out

- The Kubernetes client, list and watch, and the event recorder: the informer is a store, pending notifications and repeats of them.
- The rate limiter's delays: a re-added key falls due at some later step.
- Shutting down: `queue.Get` is modelled for a queue that has a key.
- The order in which the work queue hands out keys, which is that of its library: keys leave the model's queue in the order they came.
- ReconcileHistory.SameStoreSameRoutes: asks that no object names a host twice, because ties are left open by the sort; the exact condition for one group is `RoutingTable.TiesDecideRoute`.
- Interleaving of the ingress and secret workers inside `updateIngress`, which reads the certificate before it takes the lock: cache operations are atomic here.
- The `err` and `raw` fields of a certificate entry: `updateSecret` never writes them.
- `epsUpdater.delItem`, which swaps namespace and name, and keys that a later Endpoints object no longer supplies: the first is never reached with an object, the second stay as they were.
- Services and their schemes beyond an opaque string, metrics, tracing, transports, JSON status output, option setters and the reverse proxy itself.
- Rules without an HTTP part, which the program does not survive.
