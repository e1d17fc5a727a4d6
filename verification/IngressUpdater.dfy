/**
 `ingUpdater.addItem` as a whole (ingress.go): one object goes into the
 certificate cache, block by block, and into the routing table.
 */
module IngressUpdater {
  import opened Wrappers
  import opened HostGroups
  import opened RoutingTable
  import opened IngressCompiler
  import opened Certificates
  import opened CertCaches
  import Reconcile

  /** The hosts one TLS block is registered for: a block with hosts of its own is registered for none. */
  function CertHosts(t: TlsSpec, named: seq<string>): seq<string> {
    if |t.hosts| == 0 then named else []
  }

  /** The certificate cache after the loop over the TLS blocks. */
  function RegisterTls(
      s: CertState, lister: Lister, obj: IngressObject, blocks: seq<TlsSpec>, parse: Parser): CertState
  {
    if blocks == [] then s
    else
      var t := blocks[|blocks| - 1];
      Certificates.UpdateIngress(
        RegisterTls(s, lister, obj, blocks[..|blocks| - 1], parse), lister, obj.Key(),
        SecretKey(obj.namespace, t.secretName), CertHosts(t, NamedHosts(obj.rules)), parse)
  }

  lemma UpdateIngressOwnEntries(
      s: CertState, lister: Lister, k: IngressKey, sec: SecretKey, hosts: seq<string>, parse: Parser,
      h: string, e: Entry)
    requires e.ing == k
    ensures e in EntriesOf(Certificates.UpdateIngress(s, lister, k, sec, hosts, parse).hosts, h) <==>
            h in hosts && e == Entry(sec, k, CertOf(Fetched(s, lister, sec), parse))
  {
    DropIngressKeeps(EntriesOf(Fetch(s, lister, sec, parse).hosts, h), k, e);
    assert h in NameSet(hosts) <==> h in hosts;
  }

  /** Ingress `k` has an entry under the host iff a secret is given, and only entries with that secret. */
  ghost predicate RegisteredFor(s: CertState, k: IngressKey, h: string, sec: Option<SecretKey>) {
    && ((exists e :: e in EntriesOf(s.hosts, h) && e.ing == k) <==> sec.Some?)
    && (forall e :: e in EntriesOf(s.hosts, h) && e.ing == k ==> Some(e.sec) == sec)
  }

  /** The secret of the last TLS block, for the hosts the rules name, unless the block lists hosts itself. */
  ghost function TlsSecret(obj: IngressObject, h: string): Option<SecretKey>
    requires obj.tls != []
  {
    var last := obj.tls[|obj.tls| - 1];
    if last.hosts == [] && NamesHost(obj.rules, h) then Some(SecretKey(obj.namespace, last.secretName)) else None
  }

  /**
   As coded, only the last TLS block of an ingress counts: its secret is registered for
   all hosts of the rules if the block names no hosts, and for no host otherwise.
   */
  lemma LastTlsBlockCounts(s: CertState, lister: Lister, obj: IngressObject, parse: Parser, h: string)
    requires obj.tls != []
    ensures RegisteredFor(RegisterTls(s, lister, obj, obj.tls, parse), obj.Key(), h, TlsSecret(obj, h))
  {
    NamedHostsMeans(obj.rules, h);
    var last := obj.tls[|obj.tls| - 1];
    var before := RegisterTls(s, lister, obj, obj.tls[..|obj.tls| - 1], parse);
    var sec := SecretKey(obj.namespace, last.secretName);
    var hosts := CertHosts(last, NamedHosts(obj.rules));
    forall e: Entry | e.ing == obj.Key() {
      UpdateIngressOwnEntries(before, lister, obj.Key(), sec, hosts, parse, h, e);
    }
    var entry := Entry(sec, obj.Key(), CertOf(Fetched(before, lister, sec), parse));
    assert h in hosts ==> entry in EntriesOf(RegisterTls(s, lister, obj, obj.tls, parse).hosts, h);
  }

  /** An ingress for one host, with one TLS block that lists this very host. */
  const ONE_HOST := IngressObject(
    "default", "shop", map[], None, None, [RuleSpec("shop.example", [DeclaredPrefix("/", "shop")])],
    [TlsSpec(["shop.example"], "shop-cert")])

  /** Nothing is registered for a host that a rule and the only TLS block both name. */
  lemma ListedTlsHostIsNotRegistered(s: CertState, lister: Lister, parse: Parser)
    ensures NamesHost(ONE_HOST.rules, "shop.example")
    ensures forall e :: e in EntriesOf(RegisterTls(s, lister, ONE_HOST, ONE_HOST.tls, parse).hosts, "shop.example") ==>
              e.ing != ONE_HOST.Key()
  {
    LastTlsBlockCounts(s, lister, ONE_HOST, parse, "shop.example");
    assert ONE_HOST.rules[0].host == "shop.example";
  }

  // ---------- registrations over a run ----------

  /** What happens to the cache: the ingress updater's `addItem`, and everything that is not its doing. */
  datatype UpdaterEvent =
    | ObjectSeen(obj: IngressObject, lister: Lister)
    | CacheSeen(event: Event)

  ghost predicate OnlyUpdaterLists(us: seq<UpdaterEvent>) {
    forall u :: u in us && u.CacheSeen? ==> !u.event.op.IngressSeen?
  }

  function CertsAfter(c: Config, us: seq<UpdaterEvent>, parse: Parser): CertState {
    if us == [] then EMPTY
    else
      var s := CertsAfter(c, us[..|us| - 1], parse);
      match us[|us| - 1]
      case ObjectSeen(obj, lister) => if OurClass(c, obj) then RegisterTls(s, lister, obj, obj.tls, parse) else s
      case CacheSeen(event) => ApplyEvent(s, event, parse)
  }

  /** What the last object of the ingress that was ours and had TLS blocks registers for the host. */
  ghost function LastTlsSecret(c: Config, us: seq<UpdaterEvent>, k: IngressKey, h: string): Option<SecretKey> {
    if us == [] then None
    else
      var u := us[|us| - 1];
      if u.ObjectSeen? && OurClass(c, u.obj) && u.obj.Key() == k && u.obj.tls != [] then TlsSecret(u.obj, h)
      else LastTlsSecret(c, us[..|us| - 1], k, h)
  }

  lemma SameOwnersRegistered(s: CertState, s': CertState, k: IngressKey, h: string, sec: Option<SecretKey>)
    requires RegisteredFor(s, k, h, sec) && SameOwners(EntriesOf(s.hosts, h), EntriesOf(s'.hosts, h))
    ensures RegisteredFor(s', k, h, sec)
  {
    var es, es' := EntriesOf(s.hosts, h), EntriesOf(s'.hosts, h);
    forall e | e in es' && e.ing == k
      ensures Some(e.sec) == sec
    {
      var i :| 0 <= i < |es'| && es'[i] == e;
      assert es[i] in es;
    }
    if e :| e in es && e.ing == k {
      var i :| 0 <= i < |es| && es[i] == e;
      assert es'[i] in es';
    }
  }

  lemma OtherListingRegistered(
      s: CertState, lister: Lister, other: IngressKey, sec: SecretKey, hosts: seq<string>, parse: Parser,
      k: IngressKey, h: string, registered: Option<SecretKey>)
    requires RegisteredFor(s, k, h, registered) && other != k
    ensures RegisteredFor(Certificates.UpdateIngress(s, lister, other, sec, hosts, parse), k, h, registered)
  {
    var fetched := Fetch(s, lister, sec, parse);
    FetchMovesNothing(s, lister, sec, parse, h);
    SameOwnersRegistered(s, fetched, k, h, registered);
    var s' := Certificates.UpdateIngress(s, lister, other, sec, hosts, parse);
    forall e: Entry | e.ing == k
      ensures e in EntriesOf(s'.hosts, h) <==> e in EntriesOf(fetched.hosts, h)
    {
      DropIngressKeeps(EntriesOf(fetched.hosts, h), other, e);
    }
  }

  lemma {:induction false} OtherTlsRegistered(
      s: CertState, lister: Lister, obj: IngressObject, blocks: seq<TlsSpec>, parse: Parser,
      k: IngressKey, h: string, registered: Option<SecretKey>)
    requires RegisteredFor(s, k, h, registered) && obj.Key() != k
    ensures RegisteredFor(RegisterTls(s, lister, obj, blocks, parse), k, h, registered)
  {
    if blocks != [] {
      var front, t := blocks[..|blocks| - 1], blocks[|blocks| - 1];
      OtherTlsRegistered(s, lister, obj, front, parse, k, h, registered);
      OtherListingRegistered(RegisterTls(s, lister, obj, front, parse), lister, obj.Key(),
                             SecretKey(obj.namespace, t.secretName), CertHosts(t, NamedHosts(obj.rules)), parse,
                             k, h, registered);
    }
  }

  lemma CacheEventRegistered(
      s: CertState, event: Event, parse: Parser, k: IngressKey, h: string, registered: Option<SecretKey>)
    requires RegisteredFor(s, k, h, registered) && !event.op.IngressSeen?
    ensures RegisteredFor(ApplyEvent(s, event, parse), k, h, registered)
  {
    match event.op {
      case SecretSeen(secret) =>
      case LookedUp(j) => FetchMovesNothing(s, event.lister, j, parse, h);
      case DefaultsSet(keys) => CollectMovesNothing(s, event.lister, keys, parse, h);
    }
    SameOwnersRegistered(s, ApplyEvent(s, event, parse), k, h, registered);
  }

  /**
   Over any run, the last object of an ingress that had TLS blocks decides what is registered
   for it: one without blocks leaves the earlier registrations as they are.
   */
  lemma {:induction false} LastTlsObjectDecides(
      c: Config, us: seq<UpdaterEvent>, parse: Parser, k: IngressKey, h: string)
    requires OnlyUpdaterLists(us)
    ensures RegisteredFor(CertsAfter(c, us, parse), k, h, LastTlsSecret(c, us, k, h))
  {
    if us != [] {
      var before, u := us[..|us| - 1], us[|us| - 1];
      LastTlsObjectDecides(c, before, parse, k, h);
      var s, registered := CertsAfter(c, before, parse), LastTlsSecret(c, before, k, h);
      match u {
        case CacheSeen(event) => CacheEventRegistered(s, event, parse, k, h, registered);
        case ObjectSeen(obj, lister) =>
          if OurClass(c, obj) && obj.Key() != k {
            OtherTlsRegistered(s, lister, obj, obj.tls, parse, k, h, registered);
          } else if OurClass(c, obj) && obj.tls != [] {
            LastTlsBlockCounts(s, lister, obj, parse, h);
          }
      }
    }
  }

  class Updater {
    const config: Config
    const ings: IngressSet
    const certs: CertCache

    constructor (config: Config, ings: IngressSet, certs: CertCache)
      ensures this.config == config && this.ings == ings && this.certs == certs
    {
      this.config, this.ings, this.certs := config, ings, certs;
    }

    ghost predicate Valid()
      reads ings, ings.Repr(), certs, certs.Arrays()
    {
      ings.Valid() && certs.Valid() && ings.Repr() !! certs.Arrays()
    }

    method RegisterCerts(obj: IngressObject, hosts: seq<string>)
      requires certs.Valid() && hosts == NamedHosts(obj.rules)
      modifies certs, certs.entries, certs.Arrays()
      ensures certs.Valid() && certs.secList == old(certs.secList)
      ensures fresh(certs.entries - old(certs.entries)) && fresh(certs.Arrays() - old(certs.Arrays()))
      ensures certs.View() == RegisterTls(old(certs.View()), certs.secList, obj, obj.tls, certs.parse)
    {
      ghost var start, lister := certs.View(), certs.secList;
      for i := 0 to |obj.tls|
        invariant certs.Valid() && certs.secList == lister
        invariant fresh(certs.entries - old(certs.entries)) && fresh(certs.Arrays() - old(certs.Arrays()))
        invariant certs.View() == RegisterTls(start, lister, obj, obj.tls[..i], certs.parse)
      {
        assert obj.tls[..i + 1][..i] == obj.tls[..i];
        var t := obj.tls[i];
        var certHosts := CertHosts(t, hosts);
        certs.UpdateIngress(obj.Key(), SecretKey(obj.namespace, t.secretName), certHosts);
      }
      assert obj.tls[..|obj.tls|] == obj.tls;
    }

    /** `addItem` never fails on an ingress; an object of another class changes nothing. */
    method AddItem(obj: IngressObject) returns (failed: bool)
      requires Valid()
      modifies ings, certs, certs.entries, certs.Arrays()
      ensures Valid() && !failed
      ensures Reconcile.Handles(config, old(ings.contents), Some(obj), ings.contents, failed)
      ensures var before, lister := old(certs.View()), old(certs.secList);
              certs.View() ==
              if OurClass(config, obj) then RegisterTls(before, lister, obj, obj.tls, certs.parse) else before
    {
      if OurClass(config, obj) {
        Install(obj);
      }
      return false;
    }

    /** The part of `addItem` for an object of our class: certificates first, then the routes. */
    method Install(obj: IngressObject)
      requires Valid()
      modifies ings, certs, certs.entries, certs.Arrays()
      ensures Valid() && Step(old(ings.contents), Op.Update(obj.Key(), Compile(config, obj)), ings.contents)
      ensures certs.View() == RegisterTls(old(certs.View()), old(certs.secList), obj, obj.tls, certs.parse)
    {
      var newset, hosts := CompileObject(config, obj);
      RegisterCerts(obj, hosts);
      ings.Update(obj.Key(), newset);
    }
  }
}
