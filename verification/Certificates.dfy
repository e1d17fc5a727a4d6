/**
 The certificate cache as values (secrets.go): the stored secrets, the entries
 that ingresses and defaults hold, and what each operation makes of them.
 */
module Certificates {
  import opened Wrappers
  import opened Text
  import opened HostGroups

  datatype SecretKey = SecretKey(namespace: string, name: string)

  datatype Cert = Cert(raw: string, notBefore: int, notAfter: int)

  type Data = map<string, string>

  datatype Secret = Secret(key: SecretKey, data: Option<Data>)

  /** Parsing a certificate and a key into a pair with its leaf, if they fit. */
  type Parser = (string, string) -> Option<Cert>

  /** The informer's view of the cluster, by key. */
  type Lister = map<SecretKey, Secret>

  /** An indexer files every object under the object's own key. */
  ghost predicate Indexed(lister: Lister) {
    forall k :: k in lister ==> lister[k].key == k
  }

  datatype Entry = Entry(sec: SecretKey, ing: IngressKey, cert: Option<Cert>)

  datatype CertState = CertState(secrets: map<SecretKey, Data>, hosts: map<string, seq<Entry>>, defaults: seq<Entry>)

  const NO_INGRESS := IngressKey("", "")
  const CERT_FIELD := "tls.crt"
  const KEY_FIELD := "tls.key"

  function EntriesOf(hosts: map<string, seq<Entry>>, h: string): seq<Entry> {
    if h in hosts then hosts[h] else []
  }

  function Field(data: Option<Data>, name: string): string {
    if data.Some? && name in data.value then data.value[name] else ""
  }

  /** The second half of `getCert`. */
  function CertOf(data: Option<Data>, parse: Parser): Option<Cert> {
    if |Field(data, CERT_FIELD)| == 0 then None
    else if |Field(data, KEY_FIELD)| == 0 then None
    else parse(Field(data, CERT_FIELD), Field(data, KEY_FIELD))
  }

  predicate Storable(secret: Secret) {
    secret.data.Some? && CERT_FIELD in secret.data.value && KEY_FIELD in secret.data.value
  }

  function RefreshEntry(e: Entry, k: SecretKey, cert: Option<Cert>): Entry {
    if e.sec == k then e.(cert := cert) else e
  }

  function RefreshList(es: seq<Entry>, k: SecretKey, cert: Option<Cert>): seq<Entry> {
    seq(|es|, i requires 0 <= i < |es| => RefreshEntry(es[i], k, cert))
  }

  /** `updateSecret` */
  function Refresh(s: CertState, k: SecretKey, cert: Option<Cert>): CertState {
    CertState(s.secrets, map h | h in s.hosts :: RefreshList(s.hosts[h], k, cert), RefreshList(s.defaults, k, cert))
  }

  /** `secUpdater.addItem` */
  function AddSecret(s: CertState, secret: Secret, parse: Parser): CertState {
    if !Storable(secret) then s
    else Refresh(s.(secrets := s.secrets[secret.key := secret.data.value]), secret.key, CertOf(secret.data, parse))
  }

  /** The state after `getSecret` or `getCert`. */
  function Fetch(s: CertState, lister: Lister, k: SecretKey, parse: Parser): CertState {
    if k in s.secrets || k !in lister then s else AddSecret(s, lister[k], parse)
  }

  /** What `getSecret` returns. */
  function Fetched(s: CertState, lister: Lister, k: SecretKey): Option<Data> {
    if k in s.secrets then Some(s.secrets[k])
    else if k in lister then lister[k].data
    else None
  }

  function DropIngress(es: seq<Entry>, k: IngressKey): seq<Entry> {
    if es == [] then []
    else
      var rest := DropIngress(es[..|es| - 1], k);
      if es[|es| - 1].ing == k then rest else rest + [es[|es| - 1]]
  }

  function Filtered(hosts: map<string, seq<Entry>>, k: IngressKey): map<string, seq<Entry>> {
    map h | h in hosts :: DropIngress(hosts[h], k)
  }

  /** The filtering loop with the hosts `todo` still to do. */
  ghost predicate PartlyFiltered(
      hosts: map<string, seq<Entry>>, hosts': map<string, seq<Entry>>, k: IngressKey, todo: set<string>)
  {
    && todo <= hosts'.Keys == hosts.Keys
    && forall h :: h in hosts' ==> hosts'[h] == if h in todo then hosts[h] else DropIngress(hosts[h], k)
  }

  lemma FilterOne(
      hosts: map<string, seq<Entry>>, hosts': map<string, seq<Entry>>, k: IngressKey, todo: set<string>, n: string)
    requires PartlyFiltered(hosts, hosts', k, todo) && n in todo
    ensures PartlyFiltered(hosts, hosts'[n := DropIngress(hosts'[n], k)], k, todo - {n})
  {
  }

  lemma AllFiltered(hosts: map<string, seq<Entry>>, hosts': map<string, seq<Entry>>, k: IngressKey)
    requires PartlyFiltered(hosts, hosts', k, {})
    ensures hosts' == Filtered(hosts, k)
  {
  }

  function Appended(hosts: map<string, seq<Entry>>, names: set<string>, e: Entry): map<string, seq<Entry>> {
    map h | h in hosts.Keys + names :: EntriesOf(hosts, h) + if h in names then [e] else []
  }

  /** The appending loop with the hosts `todo` still to do. */
  ghost predicate PartlyAppended(
      hosts: map<string, seq<Entry>>, hosts': map<string, seq<Entry>>, e: Entry, names: set<string>, todo: set<string>)
  {
    && todo <= names && hosts'.Keys == hosts.Keys + (names - todo)
    && forall h :: h in hosts' ==> hosts'[h] == EntriesOf(hosts, h) + if h in names - todo then [e] else []
  }

  lemma AppendOne(
      hosts: map<string, seq<Entry>>, hosts': map<string, seq<Entry>>, e: Entry, names: set<string>,
      todo: set<string>, n: string)
    requires PartlyAppended(hosts, hosts', e, names, todo) && n in todo
    ensures PartlyAppended(hosts, hosts'[n := EntriesOf(hosts', n) + [e]], e, names, todo - {n})
  {
    assert EntriesOf(hosts', n) == EntriesOf(hosts, n);
    assert names - (todo - {n}) == (names - todo) + {n};
  }

  lemma AllAppended(hosts: map<string, seq<Entry>>, hosts': map<string, seq<Entry>>, e: Entry, names: set<string>)
    requires PartlyAppended(hosts, hosts', e, names, {})
    ensures hosts' == Appended(hosts, names, e)
  {
    assert names - {} == names;
  }

  function NameSet(names: seq<string>): set<string> {
    set i | 0 <= i < |names| :: names[i]
  }

  /** `updateIngress` */
  function UpdateIngress(
      s: CertState, lister: Lister, k: IngressKey, sec: SecretKey, hosts: seq<string>, parse: Parser): CertState
  {
    var fetched := Fetch(s, lister, sec, parse);
    var entry := Entry(sec, k, CertOf(Fetched(s, lister, sec), parse));
    fetched.(hosts := Appended(Filtered(fetched.hosts, k), NameSet(hosts), entry))
  }

  /** The entries `setDefaults` collects and the state its lookups leave. */
  function CollectDefaults(s: CertState, lister: Lister, keys: seq<SecretKey>, parse: Parser): (CertState, seq<Entry>) {
    if keys == [] then (s, [])
    else
      var (before, certs) := CollectDefaults(s, lister, keys[..|keys| - 1], parse);
      var k := keys[|keys| - 1];
      (Fetch(before, lister, k, parse), certs + [Entry(k, NO_INGRESS, CertOf(Fetched(before, lister, k), parse))])
  }

  function SetDefaults(s: CertState, lister: Lister, keys: seq<SecretKey>, parse: Parser): CertState {
    var (after, certs) := CollectDefaults(s, lister, keys, parse);
    after.(defaults := certs)
  }

  // ---------- coherence ----------

  function CachedCert(secrets: map<SecretKey, Data>, k: SecretKey, parse: Parser): Option<Cert> {
    if k in secrets then CertOf(Some(secrets[k]), parse) else None
  }

  ghost predicate ListCoherent(es: seq<Entry>, secrets: map<SecretKey, Data>, parse: Parser) {
    forall i :: 0 <= i < |es| ==> es[i].cert == CachedCert(secrets, es[i].sec, parse)
  }

  /** Every entry holds exactly the parse of the secret stored under its key, or nothing. */
  ghost predicate Coherent(s: CertState, parse: Parser) {
    && (forall h :: h in s.hosts ==> ListCoherent(s.hosts[h], s.secrets, parse))
    && ListCoherent(s.defaults, s.secrets, parse)
  }

  const EMPTY := CertState(map[], map[], [])

  /** The operations, each with the informer's view at the time. */
  datatype CertOp =
    | SecretSeen(secret: Secret)
    | IngressSeen(key: IngressKey, sec: SecretKey, hosts: seq<string>)
    | DefaultsSet(keys: seq<SecretKey>)
    | LookedUp(sec: SecretKey)

  datatype Event = Event(op: CertOp, lister: Lister)

  function ApplyEvent(s: CertState, e: Event, parse: Parser): CertState {
    match e.op
    case SecretSeen(secret) => AddSecret(s, secret, parse)
    case IngressSeen(k, sec, hosts) => UpdateIngress(s, e.lister, k, sec, hosts, parse)
    case DefaultsSet(keys) => SetDefaults(s, e.lister, keys, parse)
    case LookedUp(k) => Fetch(s, e.lister, k, parse)
  }

  function Run(events: seq<Event>, parse: Parser): CertState {
    if events == [] then EMPTY
    else ApplyEvent(Run(events[..|events| - 1], parse), events[|events| - 1], parse)
  }

  lemma AddSecretCoherent(s: CertState, secret: Secret, parse: Parser)
    requires Coherent(s, parse)
    ensures Coherent(AddSecret(s, secret, parse), parse)
  {
  }

  /** With an indexed informer a lookup answers from the secret it leaves stored, or with nothing. */
  lemma FetchCoherent(s: CertState, lister: Lister, k: SecretKey, parse: Parser)
    requires Coherent(s, parse) && Indexed(lister)
    ensures Coherent(Fetch(s, lister, k, parse), parse)
    ensures CertOf(Fetched(s, lister, k), parse) == CachedCert(Fetch(s, lister, k, parse).secrets, k, parse)
  {
  }

  lemma {:induction false} DropIngressKeeps(es: seq<Entry>, k: IngressKey, e: Entry)
    ensures e in DropIngress(es, k) <==> e in es && e.ing != k
  {
    if es != [] {
      DropIngressKeeps(es[..|es| - 1], k, e);
      assert es == es[..|es| - 1] + [es[|es| - 1]];
    }
  }

  lemma UpdateIngressCoherent(
      s: CertState, lister: Lister, k: IngressKey, sec: SecretKey, hosts: seq<string>, parse: Parser)
    requires Coherent(s, parse) && Indexed(lister)
    ensures Coherent(UpdateIngress(s, lister, k, sec, hosts, parse), parse)
  {
    FetchCoherent(s, lister, sec, parse);
    var fetched, s' := Fetch(s, lister, sec, parse), UpdateIngress(s, lister, k, sec, hosts, parse);
    forall h, i | h in s'.hosts && 0 <= i < |s'.hosts[h]|
      ensures s'.hosts[h][i].cert == CachedCert(s'.secrets, s'.hosts[h][i].sec, parse)
    {
      DropIngressKeeps(EntriesOf(fetched.hosts, h), k, s'.hosts[h][i]);
    }
  }

  lemma {:induction false} FetchKeepsCached(s: CertState, lister: Lister, k: SecretKey, parse: Parser, j: SecretKey)
    requires Indexed(lister)
    requires j in s.secrets || j !in lister || !Storable(lister[j])
    ensures var s' := Fetch(s, lister, k, parse);
            CachedCert(s'.secrets, j, parse) == CachedCert(s.secrets, j, parse)
            && (j in s'.secrets || j !in lister || !Storable(lister[j]))
  {
  }

  lemma {:induction false} CollectDefaultsCoherent(s: CertState, lister: Lister, keys: seq<SecretKey>, parse: Parser)
    requires Coherent(s, parse) && Indexed(lister)
    ensures var (after, certs) := CollectDefaults(s, lister, keys, parse);
            && Coherent(after, parse) && ListCoherent(certs, after.secrets, parse)
            && forall i :: 0 <= i < |certs| ==>
                 certs[i].sec in after.secrets || certs[i].sec !in lister || !Storable(lister[certs[i].sec])
  {
    if keys != [] {
      CollectDefaultsCoherent(s, lister, keys[..|keys| - 1], parse);
      var (before, certs) := CollectDefaults(s, lister, keys[..|keys| - 1], parse);
      FetchCoherent(before, lister, keys[|keys| - 1], parse);
      forall i | 0 <= i < |certs| {
        FetchKeepsCached(before, lister, keys[|keys| - 1], parse, certs[i].sec);
      }
    }
  }

  /** Cache coherence over every run, whatever the informer knew at each step. */
  lemma {:induction false} RunCoherent(events: seq<Event>, parse: Parser)
    requires forall e :: e in events ==> Indexed(e.lister)
    ensures Coherent(Run(events, parse), parse)
  {
    if events != [] {
      var before, e := events[..|events| - 1], events[|events| - 1];
      var s := Run(before, parse);
      RunCoherent(before, parse);
      match e.op {
        case SecretSeen(secret) => AddSecretCoherent(s, secret, parse);
        case IngressSeen(k, sec, hosts) => UpdateIngressCoherent(s, e.lister, k, sec, hosts, parse);
        case DefaultsSet(keys) => CollectDefaultsCoherent(s, e.lister, keys, parse);
        case LookedUp(k) => FetchCoherent(s, e.lister, k, parse);
      }
    }
  }

  /** Some entry, of a host or a default, is for the secret. */
  ghost predicate Listed(s: CertState, k: SecretKey) {
    || (exists h, i :: h in s.hosts && 0 <= i < |s.hosts[h]| && s.hosts[h][i].sec == k)
    || (exists i :: 0 <= i < |s.defaults| && s.defaults[i].sec == k)
  }

  /** Were a secret deleted, its entries would keep the old certificate, if it had one and they exist. */
  lemma DeletingLeavesCertificates(s: CertState, k: SecretKey, parse: Parser)
    requires Coherent(s, parse)
    ensures Coherent(s.(secrets := s.secrets - {k}), parse) <==>
            CachedCert(s.secrets, k, parse).None? || !Listed(s, k)
  {
    var secrets := s.secrets - {k};
    forall j
      ensures CachedCert(secrets, j, parse) == if j == k then None else CachedCert(s.secrets, j, parse)
    {
    }
    if CachedCert(s.secrets, k, parse).Some? && Listed(s, k) {
      if h, i :| h in s.hosts && 0 <= i < |s.hosts[h]| && s.hosts[h][i].sec == k {
        assert !ListCoherent(s.hosts[h], secrets, parse);
      } else {
        assert !ListCoherent(s.defaults, secrets, parse);
      }
    }
  }

  // ---------- the host index follows the history ----------

  /** The last event that listed hosts for ingress `k`, or -1. */
  function LastSeen(events: seq<Event>, k: IngressKey): (n: int)
    ensures -1 <= n < |events|
    ensures n >= 0 ==> events[n].op.IngressSeen? && events[n].op.key == k
  {
    if events == [] then -1
    else
      var op := events[|events| - 1].op;
      if op.IngressSeen? && op.key == k then |events| - 1
      else LastSeen(events[..|events| - 1], k)
  }

  ghost predicate Increasing(es: seq<Entry>, time: IngressKey -> int) {
    forall i, j :: 0 <= i < j < |es| ==> time(es[i].ing) < time(es[j].ing)
  }

  ghost predicate Owns(es: seq<Entry>, k: IngressKey) {
    exists i :: 0 <= i < |es| && es[i].ing == k
  }

  /** Every entry of `es` comes from the last listing of its ingress, and that listing named `h`. */
  ghost predicate FromHistory(es: seq<Entry>, events: seq<Event>, h: string) {
    forall i :: 0 <= i < |es| ==>
      var n := LastSeen(events, es[i].ing);
      n >= 0 && h in events[n].op.hosts && es[i].sec == events[n].op.sec
  }

  /** `es` has one entry for each ingress whose last host list names `h`, oldest listing first. */
  ghost predicate FollowsHistory(es: seq<Entry>, events: seq<Event>, h: string) {
    && Increasing(es, k => LastSeen(events, k))
    && FromHistory(es, events, h)
    && (forall k :: LastSeen(events, k) >= 0 && h in events[LastSeen(events, k)].op.hosts ==> Owns(es, k))
  }

  lemma {:induction false} DropIngressIncreasing(es: seq<Entry>, k: IngressKey, time: IngressKey -> int)
    requires Increasing(es, time)
    ensures Increasing(DropIngress(es, k), time)
  {
    if es != [] {
      var front, last := es[..|es| - 1], es[|es| - 1];
      DropIngressIncreasing(front, k, time);
      var rest := DropIngress(front, k);
      forall i | 0 <= i < |rest|
        ensures time(rest[i].ing) < time(last.ing)
      {
        DropIngressKeeps(front, k, rest[i]);
        assert rest[i] in rest;
      }
    }
  }

  /** Refreshing certificates moves no entry. */
  ghost predicate SameOwners(es: seq<Entry>, es': seq<Entry>) {
    |es| == |es'| && forall i :: 0 <= i < |es| ==> es[i].ing == es'[i].ing && es[i].sec == es'[i].sec
  }

  lemma FetchMovesNothing(s: CertState, lister: Lister, k: SecretKey, parse: Parser, h: string)
    ensures SameOwners(EntriesOf(s.hosts, h), EntriesOf(Fetch(s, lister, k, parse).hosts, h))
  {
  }

  lemma {:induction false} CollectMovesNothing(
      s: CertState, lister: Lister, keys: seq<SecretKey>, parse: Parser, h: string)
    ensures SameOwners(EntriesOf(s.hosts, h), EntriesOf(CollectDefaults(s, lister, keys, parse).0.hosts, h))
  {
    if keys != [] {
      CollectMovesNothing(s, lister, keys[..|keys| - 1], parse, h);
      FetchMovesNothing(CollectDefaults(s, lister, keys[..|keys| - 1], parse).0, lister, keys[|keys| - 1], parse, h);
    }
  }

  lemma SameOwnersFollow(es: seq<Entry>, es': seq<Entry>, events: seq<Event>, h: string)
    requires events != [] && !events[|events| - 1].op.IngressSeen?
    requires SameOwners(es, es') && FollowsHistory(es, events[..|events| - 1], h)
    ensures FollowsHistory(es', events, h)
  {
  }

  lemma KeptFromHistory(es: seq<Entry>, events: seq<Event>, h: string)
    requires events != [] && events[|events| - 1].op.IngressSeen?
    requires Increasing(es, k => LastSeen(events[..|events| - 1], k)) && FromHistory(es, events[..|events| - 1], h)
    ensures var kept := DropIngress(es, events[|events| - 1].op.key);
            && Increasing(kept, k => LastSeen(events, k)) && FromHistory(kept, events, h)
            && forall i :: 0 <= i < |kept| ==> LastSeen(events, kept[i].ing) < |events| - 1
  {
    var before, k := events[..|events| - 1], events[|events| - 1].op.key;
    var kept := DropIngress(es, k);
    DropIngressIncreasing(es, k, j => LastSeen(before, j));
    forall i | 0 <= i < |kept|
      ensures kept[i] in es && LastSeen(events, kept[i].ing) == LastSeen(before, kept[i].ing)
    {
      DropIngressKeeps(es, k, kept[i]);
      assert kept[i] in kept;
    }
  }

  lemma ListedOwns(es: seq<Entry>, kept: seq<Entry>, events: seq<Event>, h: string, entry: Entry, k: IngressKey)
    requires events != [] && events[|events| - 1].op.IngressSeen?
    requires var op := events[|events| - 1].op; entry.ing == op.key && kept == DropIngress(es, op.key)
    requires LastSeen(events, k) >= 0 && h in events[LastSeen(events, k)].op.hosts
    requires k != entry.ing ==> Owns(es, k)
    ensures Owns(kept + if h in events[|events| - 1].op.hosts then [entry] else [], k)
  {
  }

  lemma SameOwnersOwn(es: seq<Entry>, es': seq<Entry>, k: IngressKey)
    requires SameOwners(es, es') && Owns(es, k)
    ensures Owns(es', k)
  {
  }

  lemma ListingFollows(es: seq<Entry>, es': seq<Entry>, events: seq<Event>, h: string, entry: Entry)
    requires events != [] && events[|events| - 1].op.IngressSeen?
    requires FollowsHistory(es, events[..|events| - 1], h) && SameOwners(es, es')
    requires var op := events[|events| - 1].op; entry.ing == op.key && entry.sec == op.sec
    ensures var op := events[|events| - 1].op;
            FollowsHistory(DropIngress(es', op.key) + if h in op.hosts then [entry] else [], events, h)
  {
    var before, op := events[..|events| - 1], events[|events| - 1].op;
    var kept := DropIngress(es', op.key);
    assert FromHistory(es', before, h);
    KeptFromHistory(es', events, h);
    forall k | LastSeen(events, k) >= 0 && h in events[LastSeen(events, k)].op.hosts
      ensures Owns(kept + if h in op.hosts then [entry] else [], k)
    {
      if k != op.key {
        SameOwnersOwn(es, es', k);
      }
      ListedOwns(es', kept, events, h, entry, k);
    }
  }

  lemma ListingStep(s: CertState, events: seq<Event>, parse: Parser, h: string)
    requires events != [] && events[|events| - 1].op.IngressSeen?
    requires FollowsHistory(EntriesOf(s.hosts, h), events[..|events| - 1], h)
    ensures FollowsHistory(EntriesOf(ApplyEvent(s, events[|events| - 1], parse).hosts, h), events, h)
  {
    var e := events[|events| - 1];
    var IngressSeen(k, sec, hosts) := e.op;
    FetchMovesNothing(s, e.lister, sec, parse, h);
    var es' := EntriesOf(Fetch(s, e.lister, sec, parse).hosts, h);
    var entry := Entry(sec, k, CertOf(Fetched(s, e.lister, sec), parse));
    ListingFollows(EntriesOf(s.hosts, h), es', events, h, entry);
    var after := EntriesOf(ApplyEvent(s, e, parse).hosts, h);
    assert after == DropIngress(es', k) + if h in hosts then [entry] else [];
  }

  /**
   The entry of ingress `k` is under host `h` iff its last host list named `h`, once
   per host, with that listing's secret; entries stand in the order of those listings.
   */
  lemma {:induction false} HostIndexFollowsHistory(events: seq<Event>, parse: Parser, h: string)
    ensures FollowsHistory(EntriesOf(Run(events, parse).hosts, h), events, h)
  {
    if events != [] {
      var before, e := events[..|events| - 1], events[|events| - 1];
      HostIndexFollowsHistory(before, parse, h);
      var s := Run(before, parse);
      var es := EntriesOf(s.hosts, h);
      match e.op {
        case SecretSeen(secret) =>
          SameOwnersFollow(es, EntriesOf(AddSecret(s, secret, parse).hosts, h), events, h);
        case LookedUp(k) =>
          FetchMovesNothing(s, e.lister, k, parse, h);
          SameOwnersFollow(es, EntriesOf(Fetch(s, e.lister, k, parse).hosts, h), events, h);
        case DefaultsSet(keys) =>
          CollectMovesNothing(s, e.lister, keys, parse, h);
          SameOwnersFollow(es, EntriesOf(SetDefaults(s, e.lister, keys, parse).hosts, h), events, h);
        case IngressSeen(k, sec, hosts) =>
          ListingStep(s, events, parse, h);
      }
    }
  }

  // ---------- what is stored follows the history ----------

  ghost predicate HasPair(data: Option<Data>) {
    data.Some? && "tls.crt" in data.value && "tls.key" in data.value
  }

  /** The operation needs the certificate of the secret. */
  predicate Needs(op: CertOp, k: SecretKey) {
    match op
    case SecretSeen(_) => false
    case IngressSeen(_, sec, _) => sec == k
    case DefaultsSet(keys) => k in keys
    case LookedUp(sec) => sec == k
  }

  /**
   The data last stored for the secret: that of the last event that brought it with both
   fields, or, where it was needed before any had, what the informer had then.
   */
  ghost function LastStored(events: seq<Event>, k: SecretKey): Option<Data> {
    if events == [] then None
    else
      var e, before := events[|events| - 1], LastStored(events[..|events| - 1], k);
      if e.op.SecretSeen? && e.op.secret.key == k && HasPair(e.op.secret.data) then e.op.secret.data
      else if before.None? && Needs(e.op, k) && k in e.lister && HasPair(e.lister[k].data) then e.lister[k].data
      else before
  }

  function StoredData(s: CertState, k: SecretKey): Option<Data> {
    if k in s.secrets then Some(s.secrets[k]) else None
  }

  lemma FetchStores(s: CertState, lister: Lister, sec: SecretKey, parse: Parser, k: SecretKey)
    requires Indexed(lister)
    ensures StoredData(Fetch(s, lister, sec, parse), k) ==
            if StoredData(s, k).None? && sec == k && k in lister && HasPair(lister[k].data) then lister[k].data
            else StoredData(s, k)
  {
  }

  lemma {:induction false} CollectStores(
      s: CertState, lister: Lister, keys: seq<SecretKey>, parse: Parser, k: SecretKey)
    requires Indexed(lister)
    ensures StoredData(CollectDefaults(s, lister, keys, parse).0, k) ==
            if StoredData(s, k).None? && k in keys && k in lister && HasPair(lister[k].data) then lister[k].data
            else StoredData(s, k)
  {
    if keys != [] {
      var front, last := keys[..|keys| - 1], keys[|keys| - 1];
      CollectStores(s, lister, front, parse, k);
      FetchStores(CollectDefaults(s, lister, front, parse).0, lister, last, parse, k);
      assert keys == front + [last];
    }
  }

  /** Over every run the secrets are what the events say, renewals included. */
  lemma {:induction false} SecretsFollowHistory(events: seq<Event>, parse: Parser, k: SecretKey)
    requires forall e :: e in events ==> Indexed(e.lister)
    ensures StoredData(Run(events, parse), k) == LastStored(events, k)
  {
    if events != [] {
      var before, e := events[..|events| - 1], events[|events| - 1];
      var s := Run(before, parse);
      SecretsFollowHistory(before, parse, k);
      match e.op {
        case SecretSeen(secret) =>
        case IngressSeen(_, sec, _) => FetchStores(s, e.lister, sec, parse, k);
        case DefaultsSet(keys) => CollectStores(s, e.lister, keys, parse, k);
        case LookedUp(sec) => FetchStores(s, e.lister, sec, parse, k);
      }
    }
  }

  /** The certificate of a secret, by the history: the parse of what was last stored, if both fields have text. */
  ghost function HistoryCert(events: seq<Event>, parse: Parser, k: SecretKey): Option<Cert> {
    match LastStored(events, k)
    case None => None
    case Some(data) =>
      if "tls.crt" in data && "tls.key" in data && data["tls.crt"] != "" && data["tls.key"] != ""
      then parse(data["tls.crt"], data["tls.key"])
      else None
  }

  /** Over every run each entry, of a host or a default, holds the certificate that the history gives its secret. */
  lemma EntriesFollowHistory(events: seq<Event>, parse: Parser, h: string)
    requires forall e :: e in events ==> Indexed(e.lister)
    ensures forall e :: e in EntriesOf(Run(events, parse).hosts, h) ==> e.cert == HistoryCert(events, parse, e.sec)
    ensures forall e :: e in Run(events, parse).defaults ==> e.cert == HistoryCert(events, parse, e.sec)
  {
    RunCoherent(events, parse);
    var s := Run(events, parse);
    forall k
      ensures CachedCert(s.secrets, k, parse) == HistoryCert(events, parse, k)
    {
      SecretsFollowHistory(events, parse, k);
    }
  }

  /** The keys of the last event that set the defaults. */
  function LastDefaults(events: seq<Event>): seq<SecretKey> {
    if events == [] then []
    else if events[|events| - 1].op.DefaultsSet? then events[|events| - 1].op.keys
    else LastDefaults(events[..|events| - 1])
  }

  ghost predicate DefaultsFor(es: seq<Entry>, keys: seq<SecretKey>) {
    |es| == |keys| && forall i :: 0 <= i < |es| ==> es[i].sec == keys[i] && es[i].ing == IngressKey("", "")
  }

  lemma {:induction false} CollectedInOrder(s: CertState, lister: Lister, keys: seq<SecretKey>, parse: Parser)
    ensures DefaultsFor(CollectDefaults(s, lister, keys, parse).1, keys)
  {
    if keys != [] {
      CollectedInOrder(s, lister, keys[..|keys| - 1], parse);
    }
  }

  /** Over every run the defaults are one entry for each key last set, in that order. */
  lemma {:induction false} DefaultsFollowHistory(events: seq<Event>, parse: Parser)
    ensures DefaultsFor(Run(events, parse).defaults, LastDefaults(events))
  {
    if events != [] {
      var before, e := events[..|events| - 1], events[|events| - 1];
      DefaultsFollowHistory(before, parse);
      if e.op.DefaultsSet? {
        CollectedInOrder(Run(before, parse), e.lister, e.op.keys, parse);
      }
    }
  }

  // ---------- choosing a certificate ----------

  /** The first entry, from the front, that has an acceptable certificate. */
  function FirstCert(es: seq<Entry>, ok: Cert -> bool): Option<Cert> {
    if es == [] then None
    else if es[0].cert.Some? && ok(es[0].cert.value) then es[0].cert
    else FirstCert(es[1..], ok)
  }

  predicate InDate(c: Cert, now: int) {
    c.notBefore < now < c.notAfter
  }

  function Usable(now: int, supports: Cert -> bool): Cert -> bool {
    c => InDate(c, now) && supports(c)
  }

  function Anything(): Cert -> bool {
    c => true
  }

  /** The entries of the name itself, then those of its wildcard, then the defaults. */
  function Tiers(s: CertState, name: string, ok: Cert -> bool): Option<Cert> {
    OrElse(FirstCert(EntriesOf(s.hosts, name), ok),
    OrElse(FirstCert(EntriesOf(s.hosts, WildcardName(name)), ok),
           FirstCert(s.defaults, ok)))
  }

  /** The seven levels of `GetCertificate`. */
  function Choose(s: CertState, name: string, now: int, supports: Cert -> bool): Option<Cert> {
    OrElse(Tiers(s, name, Usable(now, supports)),
    OrElse(Tiers(s, name, supports),
           FirstCert(s.defaults, Anything())))
  }

  ghost predicate Holds(es: seq<Entry>, c: Cert) {
    exists i :: 0 <= i < |es| && es[i].cert == Some(c)
  }

  /** The certificates that may be offered for a name: its own, its wildcard's and the defaults. */
  ghost predicate Candidate(s: CertState, name: string, c: Cert) {
    Holds(EntriesOf(s.hosts, name), c) || Holds(EntriesOf(s.hosts, WildcardName(name)), c) || Holds(s.defaults, c)
  }

  lemma {:induction false} FirstCertFinds(es: seq<Entry>, ok: Cert -> bool)
    ensures match FirstCert(es, ok)
            case Some(c) =>
              exists i :: 0 <= i < |es| && es[i].cert == Some(c) && ok(c) &&
                          forall j :: 0 <= j < i && es[j].cert.Some? ==> !ok(es[j].cert.value)
            case None => forall c :: Holds(es, c) ==> !ok(c)
  {
    if es != [] {
      FirstCertFinds(es[1..], ok);
      match FirstCert(es, ok) {
        case Some(c) =>
          if es[0].cert == Some(c) && ok(c) {
          } else {
            var i :| 0 <= i < |es[1..]| && es[1..][i].cert == Some(c) && ok(c) &&
                     forall j :: 0 <= j < i && es[1..][j].cert.Some? ==> !ok(es[1..][j].cert.value);
            assert es[i + 1].cert == Some(c);
            forall j | 0 <= j < i + 1 && es[j].cert.Some?
              ensures !ok(es[j].cert.value)
            {
              assert j > 0 ==> es[j] == es[1..][j - 1];
            }
          }
        case None =>
          forall c | Holds(es, c)
            ensures !ok(c)
          {
            var i :| 0 <= i < |es| && es[i].cert == Some(c);
            assert i > 0 ==> es[1..][i - 1].cert == Some(c);
            assert i > 0 ==> Holds(es[1..], c);
          }
      }
    }
  }

  lemma FirstCertHeld(es: seq<Entry>, ok: Cert -> bool)
    ensures FirstCert(es, ok).Some? ==> Holds(es, FirstCert(es, ok).value) && ok(FirstCert(es, ok).value)
    ensures FirstCert(es, ok).None? ==> forall c :: Holds(es, c) ==> !ok(c)
  {
    FirstCertFinds(es, ok);
  }

  lemma TiersHeld(s: CertState, name: string, ok: Cert -> bool)
    ensures Tiers(s, name, ok).Some? ==> Candidate(s, name, Tiers(s, name, ok).value) && ok(Tiers(s, name, ok).value)
    ensures Tiers(s, name, ok).None? ==> forall c :: Candidate(s, name, c) ==> !ok(c)
  {
    FirstCertHeld(EntriesOf(s.hosts, name), ok);
    FirstCertHeld(EntriesOf(s.hosts, WildcardName(name)), ok);
    FirstCertHeld(s.defaults, ok);
  }

  /**
   Never an expired certificate while a valid supported one is a candidate, never an
   unsupported one while a supported one is, and nothing only if there is nothing to offer.
   */
  lemma ChooseIsBest(s: CertState, name: string, now: int, supports: Cert -> bool)
    ensures match Choose(s, name, now, supports)
            case Some(c) =>
              && Candidate(s, name, c)
              && ((exists d :: Candidate(s, name, d) && d.notBefore < now < d.notAfter && supports(d)) ==>
                    c.notBefore < now < c.notAfter && supports(c))
              && ((exists d :: Candidate(s, name, d) && supports(d)) ==> supports(c))
              && (!supports(c) ==> Holds(s.defaults, c))
            case None =>
              && (forall d :: Candidate(s, name, d) ==> !supports(d))
              && (forall d :: !Holds(s.defaults, d))
  {
    TiersHeld(s, name, Usable(now, supports));
    TiersHeld(s, name, supports);
    FirstCertHeld(s.defaults, Anything());
  }

  /** The order of preference, level by level: whose entries, and which certificates will do. */
  function Levels(s: CertState, name: string, now: int, supports: Cert -> bool): seq<(seq<Entry>, Cert -> bool)> {
    var own, wild := EntriesOf(s.hosts, name), EntriesOf(s.hosts, WildcardName(name));
    [(own, Usable(now, supports)), (wild, Usable(now, supports)), (s.defaults, Usable(now, supports)),
     (own, supports), (wild, supports), (s.defaults, supports), (s.defaults, Anything())]
  }

  ghost predicate FirstAt(es: seq<Entry>, ok: Cert -> bool, c: Cert) {
    exists i :: 0 <= i < |es| && es[i].cert == Some(c) && ok(c) &&
                forall j :: 0 <= j < i && es[j].cert.Some? ==> !ok(es[j].cert.value)
  }

  ghost predicate NothingAt(es: seq<Entry>, ok: Cert -> bool) {
    forall c :: Holds(es, c) ==> !ok(c)
  }

  /** The first certificate of the first level that has any. */
  function FirstOver(levels: seq<(seq<Entry>, Cert -> bool)>): Option<Cert> {
    if levels == [] then None
    else OrElse(FirstCert(levels[0].0, levels[0].1), FirstOver(levels[1..]))
  }

  lemma {:induction false} FirstOverLevels(levels: seq<(seq<Entry>, Cert -> bool)>) returns (n: nat)
    ensures n <= |levels| && forall m :: 0 <= m < n ==> NothingAt(levels[m].0, levels[m].1)
    ensures FirstOver(levels).None? <==> n == |levels|
    ensures n < |levels| ==> FirstAt(levels[n].0, levels[n].1, FirstOver(levels).value)
  {
    if levels == [] {
      return 0;
    }
    FirstCertFinds(levels[0].0, levels[0].1);
    if FirstCert(levels[0].0, levels[0].1).Some? {
      return 0;
    }
    n := FirstOverLevels(levels[1..]);
    n := n + 1;
    forall m | 0 <= m < n
      ensures NothingAt(levels[m].0, levels[m].1)
    {
      assert m > 0 ==> levels[m] == levels[1..][m - 1];
    }
  }

  lemma FirstOverStep(levels: seq<(seq<Entry>, Cert -> bool)>, n: nat)
    requires n < |levels|
    ensures FirstOver(levels[n..]) == OrElse(FirstCert(levels[n].0, levels[n].1), FirstOver(levels[n + 1..]))
  {
  }

  /** Three levels in a row that ask for the same thing are the three tiers. */
  lemma FirstOverTiers(s: CertState, name: string, ok: Cert -> bool, levels: seq<(seq<Entry>, Cert -> bool)>, n: nat)
    requires n + 3 <= |levels|
    requires levels[n] == (EntriesOf(s.hosts, name), ok)
    requires levels[n + 1] == (EntriesOf(s.hosts, WildcardName(name)), ok)
    requires levels[n + 2] == (s.defaults, ok)
    ensures FirstOver(levels[n..]) == OrElse(Tiers(s, name, ok), FirstOver(levels[n + 3..]))
  {
    FirstOverStep(levels, n);
    FirstOverStep(levels, n + 1);
    FirstOverStep(levels, n + 2);
  }

  lemma ChooseOver(s: CertState, name: string, now: int, supports: Cert -> bool)
    ensures Choose(s, name, now, supports) == FirstOver(Levels(s, name, now, supports))
  {
    var l := Levels(s, name, now, supports);
    FirstOverTiers(s, name, Usable(now, supports), l, 0);
    FirstOverTiers(s, name, supports, l, 3);
    FirstOverStep(l, 6);
    assert l[0..] == l && |l[7..]| == 0;
  }

  /** Whose entries level `n` looks at: own, wildcard, defaults, the same again, and the defaults once more. */
  function LevelEntries(s: CertState, name: string, n: nat): seq<Entry> {
    if n in {0, 3} then EntriesOf(s.hosts, name)
    else if n in {1, 4} then EntriesOf(s.hosts, WildcardName(name))
    else s.defaults
  }

  /** What it asks for: the first three levels a valid date, all but the last that the client supports it. */
  predicate LevelAccepts(now: int, supports: Cert -> bool, n: nat, c: Cert) {
    (n < 3 ==> c.notBefore < now < c.notAfter) && (n < 6 ==> supports(c))
  }

  lemma LevelsMean(s: CertState, name: string, now: int, supports: Cert -> bool, n: nat)
    requires n < 7
    ensures var l := Levels(s, name, now, supports)[n];
            l.0 == LevelEntries(s, name, n) && forall c :: l.1(c) <==> LevelAccepts(now, supports, n, c)
  {
    var l := Levels(s, name, now, supports)[n];
    assert l.1 == if n < 3 then Usable(now, supports) else if n < 6 then supports else Anything();
    forall c
      ensures l.1(c) <==> LevelAccepts(now, supports, n, c)
    {
      assert Usable(now, supports)(c) <==> InDate(c, now) && supports(c);
    }
  }

  ghost predicate FirstOfLevel(s: CertState, name: string, now: int, supports: Cert -> bool, n: nat, c: Cert) {
    var es := LevelEntries(s, name, n);
    exists i :: 0 <= i < |es| && es[i].cert == Some(c) && LevelAccepts(now, supports, n, c) &&
                forall j :: 0 <= j < i && es[j].cert.Some? ==> !LevelAccepts(now, supports, n, es[j].cert.value)
  }

  ghost predicate NothingOfLevel(s: CertState, name: string, now: int, supports: Cert -> bool, n: nat) {
    forall c :: Holds(LevelEntries(s, name, n), c) ==> !LevelAccepts(now, supports, n, c)
  }

  /** The certificate chosen is the first one of the first of the seven levels that has any. */
  lemma ChooseFollowsLevels(s: CertState, name: string, now: int, supports: Cert -> bool) returns (n: nat)
    ensures n <= 7 && forall m :: 0 <= m < n ==> NothingOfLevel(s, name, now, supports, m)
    ensures Choose(s, name, now, supports).None? <==> n == 7
    ensures n < 7 ==> FirstOfLevel(s, name, now, supports, n, Choose(s, name, now, supports).value)
  {
    ChooseOver(s, name, now, supports);
    n := FirstOverLevels(Levels(s, name, now, supports));
    forall m: nat | m < 7 {
      LevelsMean(s, name, now, supports, m);
    }
  }

  // ---------- what is served follows the history ----------

  /** The ingress was last listed with this secret for a host list that names the host. */
  ghost predicate ListedLast(events: seq<Event>, k: IngressKey, h: string, sec: SecretKey) {
    var n := LastSeen(events, k);
    n >= 0 && h in events[n].op.hosts && events[n].op.sec == sec
  }

  ghost predicate OfferedUnder(events: seq<Event>, parse: Parser, h: string, c: Cert) {
    exists k, sec :: ListedLast(events, k, h, sec) && HistoryCert(events, parse, sec) == Some(c)
  }

  ghost predicate OfferedByDefault(events: seq<Event>, parse: Parser, c: Cert) {
    exists sec :: sec in LastDefaults(events) && HistoryCert(events, parse, sec) == Some(c)
  }

  /** By the history, the certificate is one for the name, for its wildcard, or a default. */
  ghost predicate Offered(events: seq<Event>, parse: Parser, name: string, c: Cert) {
    || OfferedUnder(events, parse, name, c)
    || OfferedUnder(events, parse, WildcardName(name), c)
    || OfferedByDefault(events, parse, c)
  }

  lemma HeldIsListed(events: seq<Event>, parse: Parser, h: string, c: Cert)
    requires forall e :: e in events ==> Indexed(e.lister)
    ensures Holds(EntriesOf(Run(events, parse).hosts, h), c) <==> OfferedUnder(events, parse, h, c)
  {
    HostIndexFollowsHistory(events, parse, h);
    EntriesFollowHistory(events, parse, h);
    var es := EntriesOf(Run(events, parse).hosts, h);
    if Holds(es, c) {
      var i :| 0 <= i < |es| && es[i].cert == Some(c);
      assert es[i] in es;
      assert ListedLast(events, es[i].ing, h, es[i].sec);
    }
    if k, sec :| ListedLast(events, k, h, sec) && HistoryCert(events, parse, sec) == Some(c) {
      var i :| 0 <= i < |es| && es[i].ing == k;
      assert es[i] in es;
    }
  }

  lemma DefaultHeldIsSet(events: seq<Event>, parse: Parser, c: Cert)
    requires forall e :: e in events ==> Indexed(e.lister)
    ensures Holds(Run(events, parse).defaults, c) <==> OfferedByDefault(events, parse, c)
  {
    DefaultsFollowHistory(events, parse);
    EntriesFollowHistory(events, parse, "");
    var es, keys := Run(events, parse).defaults, LastDefaults(events);
    if Holds(es, c) {
      var i :| 0 <= i < |es| && es[i].cert == Some(c);
      assert es[i] in es && keys[i] in keys;
    }
    if sec :| sec in keys && HistoryCert(events, parse, sec) == Some(c) {
      var i :| 0 <= i < |keys| && keys[i] == sec;
      assert es[i] in es;
    }
  }

  /** After any run the candidates for a name are exactly what the history offers for it. */
  lemma CandidatesFollowHistory(events: seq<Event>, parse: Parser, name: string, c: Cert)
    requires forall e :: e in events ==> Indexed(e.lister)
    ensures Candidate(Run(events, parse), name, c) <==> Offered(events, parse, name, c)
  {
    HeldIsListed(events, parse, name, c);
    HeldIsListed(events, parse, WildcardName(name), c);
    DefaultHeldIsSet(events, parse, c);
  }

  /**
   After any run a certificate is served if the history offers a supported one; what is served
   is offered, by the last version of its secret, is in date if a supported one in date is
   offered, and supported if any offered one is.
   */
  lemma ServedFollowsHistory(events: seq<Event>, parse: Parser, name: string, now: int, supports: Cert -> bool)
    requires forall e :: e in events ==> Indexed(e.lister)
    ensures match Choose(Run(events, parse), name, now, supports)
            case Some(c) =>
              && Offered(events, parse, name, c)
              && ((exists d :: Offered(events, parse, name, d) && d.notBefore < now < d.notAfter && supports(d)) ==>
                    c.notBefore < now < c.notAfter && supports(c))
              && ((exists d :: Offered(events, parse, name, d) && supports(d)) ==> supports(c))
            case None => forall d :: Offered(events, parse, name, d) ==> !supports(d)
  {
    ChooseIsBest(Run(events, parse), name, now, supports);
    forall c {
      CandidatesFollowHistory(events, parse, name, c);
    }
  }
}
