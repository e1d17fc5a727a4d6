/**
 The certificate cache as the program keeps it (secrets.go, `certMap` and
 `secUpdater`): entries shared between hosts and overwritten in place, and one
 slice of entries per host that is compacted in place.  The two objects of the
 program refer to each other and are one object here.
 */
module CertCaches {
  import opened Wrappers
  import opened Text
  import opened HostGroups
  import opened Slices
  import opened Certificates

  class CertMapEntry {
    const sec: SecretKey
    const ing: IngressKey
    var cert: Option<Cert>

    constructor (sec: SecretKey, ing: IngressKey, cert: Option<Cert>)
      ensures this.sec == sec && this.ing == ing && this.cert == cert
    {
      this.sec, this.ing, this.cert := sec, ing, cert;
    }

    function Value(): Entry
      reads this
    {
      Entry(sec, ing, cert)
    }
  }

  function Values(es: seq<CertMapEntry>): seq<Entry>
    reads es
  {
    seq(|es|, i requires 0 <= i < |es| reads es => es[i].Value())
  }

  /** The entries that the filtering loop keeps. */
  function Keep(es: seq<CertMapEntry>, k: IngressKey): seq<CertMapEntry> {
    if es == [] then []
    else
      var rest := Keep(es[..|es| - 1], k);
      if es[|es| - 1].ing != k then rest + [es[|es| - 1]] else rest
  }

  lemma {:induction false} KeepIsShorter(es: seq<CertMapEntry>, k: IngressKey)
    ensures |Keep(es, k)| <= |es|
    ensures forall e :: e in Keep(es, k) ==> e in es
  {
    if es != [] {
      KeepIsShorter(es[..|es| - 1], k);
    }
  }

  lemma {:induction false} ValuesOfKept(es: seq<CertMapEntry>, k: IngressKey)
    ensures Values(Keep(es, k)) == DropIngress(Values(es), k)
  {
    if es != [] {
      ValuesOfKept(es[..|es| - 1], k);
      assert Values(es)[..|es| - 1] == Values(es[..|es| - 1]);
    }
  }

  ghost predicate Within(rs: map<string, seq<CertMapEntry>>, all: set<CertMapEntry>) {
    forall h, e :: h in rs && e in rs[h] ==> e in all
  }

  /** The entries of every host, as values. */
  ghost function HostValues(rs: map<string, seq<CertMapEntry>>, all: set<CertMapEntry>): map<string, seq<Entry>>
    requires Within(rs, all)
    reads all
  {
    map h | h in rs :: Values(rs[h])
  }

  function RefsAt(rs: map<string, seq<CertMapEntry>>, h: string): seq<CertMapEntry> {
    if h in rs then rs[h] else []
  }

  lemma ValuesOfOneKept(rs: map<string, seq<CertMapEntry>>, all: set<CertMapEntry>, n: string, k: IngressKey)
    requires Within(rs, all) && n in rs && Within(rs[n := Keep(rs[n], k)], all)
    ensures HostValues(rs[n := Keep(rs[n], k)], all) == HostValues(rs, all)[n := DropIngress(HostValues(rs, all)[n], k)]
  {
    ValuesOfKept(rs[n], k);
  }

  lemma ValuesOfOneAppended(rs: map<string, seq<CertMapEntry>>, all: set<CertMapEntry>, n: string, e: CertMapEntry)
    requires Within(rs, all) && e in all && Within(rs[n := RefsAt(rs, n) + [e]], all)
    ensures HostValues(rs[n := RefsAt(rs, n) + [e]], all) ==
            HostValues(rs, all)[n := EntriesOf(HostValues(rs, all), n) + [e.Value()]]
  {
    assert Values(RefsAt(rs, n) + [e]) == EntriesOf(HostValues(rs, all), n) + [e.Value()];
  }

  /** The in-place compaction of one host's slice; the slice keeps its backing array. */
  method Compact(s: Slice<CertMapEntry>, k: IngressKey) returns (s': Slice<CertMapEntry>)
    requires s.Valid()
    modifies s.Footprint()
    ensures s'.Valid() && s'.Elems() == Keep(old(s.Elems()), k)
    ensures s.Nil? ==> s'.Nil?
    ensures s.Window? ==> s'.Window? && s'.arr == s.arr
  {
    if s.Nil? {
      return Nil;
    }
    ghost var es := s.Elems();
    var n := 0;
    for i := 0 to s.len
      invariant 0 <= n <= i
      invariant s.arr[..n] == Keep(es[..i], k)
      invariant s.arr[i..s.len] == es[i..]
    {
      var cme := s.arr[i];
      assert cme == es[i] && es[..i + 1][..i] == es[..i];
      assert s.arr[i + 1..s.len] == es[i + 1..];
      if cme.ing != k {
        s.arr[n] := cme;
        n := n + 1;
      }
    }
    assert es[..s.len] == es;
    s' := Window(s.arr, n);
  }

  lemma Refreshed(es: seq<CertMapEntry>, before: seq<Entry>, key: SecretKey, cert: Option<Cert>)
    requires |es| == |before| && forall i :: 0 <= i < |es| ==> es[i].Value() == RefreshEntry(before[i], key, cert)
    ensures Values(es) == RefreshList(before, key, cert)
  {
  }

  lemma RefreshedHosts(
      rs: map<string, seq<CertMapEntry>>, all: set<CertMapEntry>, before: map<string, seq<Entry>>,
      key: SecretKey, cert: Option<Cert>)
    requires Within(rs, all) && rs.Keys == before.Keys
    requires forall h :: h in rs ==> |rs[h]| == |before[h]|
    requires forall h, i :: h in rs && 0 <= i < |rs[h]| ==> rs[h][i].Value() == RefreshEntry(before[h][i], key, cert)
    ensures HostValues(rs, all) == map h | h in before :: RefreshList(before[h], key, cert)
  {
    forall h | h in rs {
      Refreshed(rs[h], before[h], key, cert);
    }
  }

  class CertCache {
    const parse: Parser
    var secList: Lister
    var secrets: map<SecretKey, Data>
    var hosts: map<string, Slice<CertMapEntry>>
    var defaults: seq<CertMapEntry>
    ghost var refs: map<string, seq<CertMapEntry>>
    ghost var entries: set<CertMapEntry>

    ghost function Arrays(): set<object>
      reads this
    {
      set h | h in hosts && hosts[h].Window? :: hosts[h].arr
    }

    /** Every listed entry is one of `entries`. */
    ghost predicate Listed()
      reads this
    {
      && Within(refs, entries)
      && (forall e :: e in defaults ==> e in entries)
    }

    /** Each host's slice holds what `refs` says and has a backing array of its own. */
    ghost predicate Valid()
      reads this, Arrays()
    {
      && Listed()
      && hosts.Keys == refs.Keys
      && (forall h :: h in hosts ==> hosts[h].Valid() && hosts[h].Elems() == refs[h])
      && forall h, h' :: h in hosts && h' in hosts && h != h' && hosts[h].Window? && hosts[h'].Window? ==>
           hosts[h].arr != hosts[h'].arr
    }

    ghost function View(): CertState
      requires Listed()
      reads this, entries
    {
      CertState(secrets, HostValues(refs, entries), Values(defaults))
    }

    constructor (parse: Parser)
      ensures Valid() && View() == EMPTY && this.parse == parse && secList == map[]
      ensures entries == {} && Arrays() == {}
    {
      this.parse := parse;
      secList, secrets, hosts, defaults, refs, entries := map[], map[], map[], [], map[], {};
    }

    // ---------- secrets ----------

    /** One of the loops of `updateSecret`. */
    method SetCerts(es: seq<CertMapEntry>, key: SecretKey, cert: Option<Cert>)
      modifies es
      ensures forall e :: e in es ==> e.cert == if e.sec == key then cert else old(e.cert)
    {
      for i := 0 to |es|
        invariant forall e :: e in es[..i] ==> e.cert == if e.sec == key then cert else old(e.cert)
        invariant forall e :: e in es ==> e.cert == old(e.cert) || (e.sec == key && e.cert == cert)
      {
        if es[i].sec == key {
          es[i].cert := cert;
        }
      }
    }

    /** The loops of `updateSecret` over the hosts. */
    method SetHostCerts(key: SecretKey, cert: Option<Cert>)
      requires Valid()
      modifies entries
      ensures Valid()
      ensures forall e :: e in entries ==> e.cert == old(e.cert) || (e.sec == key && e.cert == cert)
      ensures forall h, e :: h in refs && e in refs[h] && e.sec == key ==> e.cert == cert
    {
      var todo := hosts.Keys;
      while todo != {}
        invariant todo <= hosts.Keys && Valid()
        invariant forall e :: e in entries ==> e.cert == old(e.cert) || (e.sec == key && e.cert == cert)
        invariant forall h, e :: h in refs && h !in todo && e in refs[h] && e.sec == key ==> e.cert == cert
        decreases todo
      {
        var h :| h in todo;
        SetCerts(hosts[h].Elems(), key, cert);
        todo := todo - {h};
      }
    }

    /** Both loops of `updateSecret`. */
    method SetAllCerts(key: SecretKey, cert: Option<Cert>)
      requires Valid()
      modifies entries
      ensures Valid()
      ensures forall h, i :: h in refs && 0 <= i < |refs[h]| ==>
        refs[h][i].Value() == RefreshEntry(old(refs[h][i].Value()), key, cert)
      ensures forall i :: 0 <= i < |defaults| ==>
        defaults[i].Value() == RefreshEntry(old(defaults[i].Value()), key, cert)
    {
      SetHostCerts(key, cert);
      SetDefaultCerts(key, cert);
    }

    method SetDefaultCerts(key: SecretKey, cert: Option<Cert>)
      requires Valid()
      modifies defaults
      ensures Valid()
      ensures forall e :: e in defaults ==> e.cert == if e.sec == key then cert else old(e.cert)
    {
      SetCerts(defaults, key, cert);
    }

    /** `updateSecret`: every entry of this secret, wherever it is listed, gets the certificate. */
    method UpdateSecret(key: SecretKey, cert: Option<Cert>)
      requires Valid()
      modifies entries
      ensures Valid() && View() == Refresh(old(View()), key, cert)
    {
      ghost var before := View();
      SetAllCerts(key, cert);
      Refreshed(defaults, before.defaults, key, cert);
      RefreshedHosts(refs, entries, before.hosts, key, cert);
    }

    /** `updateCert`, called once the secret is stored. */
    method UpdateCert(key: SecretKey)
      requires Valid()
      modifies this`secrets, entries
      ensures Valid()
      ensures var s := old(View());
              View() == Refresh(Fetch(s, secList, key, parse), key, CertOf(Fetched(s, secList, key), parse))
      decreases if key in secrets then 0 else 1, 4
    {
      var cert := GetCert(key);
      UpdateSecret(key, cert);
    }

    /** `secUpdater.addItem`: it stores the secret before it recurses, or does not recurse. */
    method AddItem(secret: Secret)
      requires Valid()
      modifies this`secrets, entries
      ensures Valid() && View() == AddSecret(old(View()), secret, parse)
      decreases 1, 1
    {
      if secret.data.None? {
        return;
      }
      if CERT_FIELD !in secret.data.value || KEY_FIELD !in secret.data.value {
        return;
      }
      secrets := secrets[secret.key := secret.data.value];
      ghost var stored := View();
      assert stored == old(View()).(secrets := secrets);
      assert Fetch(stored, secList, secret.key, parse) == stored;
      assert Fetched(stored, secList, secret.key) == secret.data;
      UpdateCert(secret.key);
    }

    method GetSecret(key: SecretKey) returns (data: Option<Data>)
      requires Valid()
      modifies this`secrets, entries
      ensures Valid() && View() == Fetch(old(View()), secList, key, parse)
      ensures data == Fetched(old(View()), secList, key)
      decreases if key in secrets then 0 else 1, 2
    {
      if key in secrets {
        return Some(secrets[key]);
      }
      if key !in secList {
        return None;
      }
      AddItem(secList[key]);
      return secList[key].data;
    }

    method GetCert(key: SecretKey) returns (cert: Option<Cert>)
      requires Valid()
      modifies this`secrets, entries
      ensures Valid() && View() == Fetch(old(View()), secList, key, parse)
      ensures cert == CertOf(Fetched(old(View()), secList, key), parse)
      decreases if key in secrets then 0 else 1, 3
    {
      var sec := GetSecret(key);
      var certBytes, keyBytes := Field(sec, CERT_FIELD), Field(sec, KEY_FIELD);
      if |certBytes| == 0 {
        return None;
      }
      if |keyBytes| == 0 {
        return None;
      }
      return parse(certBytes, keyBytes);
    }

    // ---------- the host index ----------

    ghost predicate ValidExcept(n: string)
      reads this, set h | h in hosts && h != n && hosts[h].Window? :: hosts[h].arr
    {
      && Listed()
      && hosts.Keys == refs.Keys
      && (forall h :: h in hosts && h != n ==> hosts[h].Valid() && hosts[h].Elems() == refs[h])
      && forall h, h' :: h in hosts && h' in hosts && h != h' && hosts[h].Window? && hosts[h'].Window? ==>
           hosts[h].arr != hosts[h'].arr
    }

    /** `cm.set[n] = s` */
    method Put(n: string, s: Slice<CertMapEntry>)
      requires ValidExcept(n) && s.Valid() && forall e :: e in s.Elems() ==> e in entries
      requires forall h :: h in hosts && h != n && hosts[h].Window? && s.Window? ==> hosts[h].arr != s.arr
      modifies this`hosts, this`refs
      ensures Valid() && hosts == old(hosts)[n := s] && refs == old(refs)[n := s.Elems()]
    {
      hosts := hosts[n := s];
      refs := refs[n := s.Elems()];
    }

    /** One host of the filtering loop: only this host's array is written. */
    method FilterHost(n: string, k: IngressKey)
      requires Valid() && n in hosts
      modifies this`hosts, this`refs, hosts[n].Footprint()
      ensures Valid() && Arrays() <= old(Arrays())
      ensures refs == old(refs)[n := Keep(old(refs)[n], k)]
    {
      var s := Compact(hosts[n], k);
      KeepIsShorter(refs[n], k);
      Put(n, s);
    }

    method FilterHostValues(n: string, k: IngressKey)
      requires Valid() && n in hosts
      modifies this`hosts, this`refs, hosts[n].Footprint()
      ensures Valid() && Arrays() <= old(Arrays()) && refs.Keys == old(refs.Keys)
      ensures HostValues(refs, entries) ==
              old(HostValues(refs, entries))[n := DropIngress(old(HostValues(refs, entries))[n], k)]
    {
      ghost var before := refs;
      FilterHost(n, k);
      ValuesOfOneKept(before, entries, n, k);
    }

    method FilterHosts(k: IngressKey, ghost start: map<string, seq<Entry>>)
      requires Valid() && start == HostValues(refs, entries)
      modifies this`hosts, this`refs, Arrays()
      ensures Valid() && Arrays() <= old(Arrays())
      ensures PartlyFiltered(start, HostValues(refs, entries), k, {})
    {
      var todo := hosts.Keys;
      while todo != {}
        invariant Valid() && Arrays() <= old(Arrays())
        invariant PartlyFiltered(start, HostValues(refs, entries), k, todo)
        decreases todo
      {
        var h :| h in todo;
        FilterOne(start, HostValues(refs, entries), k, todo, h);
        FilterHostValues(h, k);
        todo := todo - {h};
      }
    }

    /** The filtering half of the locked part of `updateIngress`. */
    method FilterIngress(k: IngressKey)
      requires Valid()
      modifies this`hosts, this`refs, Arrays()
      ensures Valid() && Arrays() <= old(Arrays())
      ensures HostValues(refs, entries) == Filtered(old(HostValues(refs, entries)), k)
    {
      ghost var start := HostValues(refs, entries);
      FilterHosts(k, start);
      AllFiltered(start, HostValues(refs, entries), k);
    }

    /** One host of the appending loop: in place when the array has room, else in a new array. */
    method AppendHost(n: string, e: CertMapEntry)
      requires Valid() && e in entries
      modifies this`hosts, this`refs, if n in hosts then hosts[n].Footprint() else {}
      ensures Valid() && fresh(Arrays() - old(Arrays()))
      ensures refs == old(refs)[n := RefsAt(old(refs), n) + [e]]
    {
      var s := Append(if n in hosts then hosts[n] else Nil, e);
      Put(n, s);
    }

    method AppendHostValues(n: string, e: CertMapEntry)
      requires Valid() && e in entries
      modifies this`hosts, this`refs, if n in hosts then hosts[n].Footprint() else {}
      ensures Valid() && fresh(Arrays() - old(Arrays()))
      ensures var before := old(HostValues(refs, entries));
              HostValues(refs, entries) == before[n := EntriesOf(before, n) + [e.Value()]]
    {
      ghost var before := refs;
      AppendHost(n, e);
      ValuesOfOneAppended(before, entries, n, e);
    }

    method AppendHosts(names: set<string>, e: CertMapEntry, ghost start: map<string, seq<Entry>>)
      requires Valid() && e in entries && start == HostValues(refs, entries)
      modifies this`hosts, this`refs, Arrays()
      ensures Valid() && fresh(Arrays() - old(Arrays()))
      ensures PartlyAppended(start, HostValues(refs, entries), e.Value(), names, {})
    {
      var todo := names;
      while todo != {}
        invariant Valid() && fresh(Arrays() - old(Arrays()))
        invariant PartlyAppended(start, HostValues(refs, entries), e.Value(), names, todo)
        decreases todo
      {
        var h :| h in todo;
        AppendOne(start, HostValues(refs, entries), e.Value(), names, todo, h);
        AppendHostValues(h, e);
        todo := todo - {h};
      }
    }

    /** The appending half. */
    method AppendEntry(names: set<string>, e: CertMapEntry)
      requires Valid() && e in entries
      modifies this`hosts, this`refs, Arrays()
      ensures Valid() && fresh(Arrays() - old(Arrays()))
      ensures HostValues(refs, entries) == Appended(old(HostValues(refs, entries)), names, e.Value())
    {
      ghost var start := HostValues(refs, entries);
      AppendHosts(names, e, start);
      AllAppended(start, HostValues(refs, entries), e.Value(), names);
    }

    /** The locked part of `updateIngress`. */
    method ListEntry(key: IngressKey, names: set<string>, e: CertMapEntry)
      requires Valid() && e in entries
      modifies this`hosts, this`refs, Arrays()
      ensures Valid() && fresh(Arrays() - old(Arrays()))
      ensures HostValues(refs, entries) == Appended(Filtered(old(HostValues(refs, entries)), key), names, e.Value())
      ensures Values(defaults) == old(Values(defaults))
    {
      FilterIngress(key);
      AppendEntry(names, e);
    }

    /** The new entry of `updateIngress`, which reads the certificate first. */
    method NewEntry(key: IngressKey, sec: SecretKey) returns (e: CertMapEntry)
      requires Valid()
      modifies this`secrets, this`entries, entries
      ensures Valid() && fresh(e) && entries == old(entries) + {e}
      ensures e.Value() == Entry(sec, key, CertOf(Fetched(old(View()), secList, sec), parse))
      ensures View() == Fetch(old(View()), secList, sec, parse)
    {
      var cert := GetCert(sec);
      e := new CertMapEntry(sec, key, cert);
      Enlist(e);
    }

    ghost method Enlist(e: CertMapEntry)
      requires Valid()
      modifies this`entries
      ensures Valid() && entries == old(entries) + {e} && View() == old(View())
    {
      ghost var before := View();
      entries := entries + {e};
      assert HostValues(refs, entries) == before.hosts;
    }

    /** `updateIngress` */
    method UpdateIngress(key: IngressKey, sec: SecretKey, names: seq<string>)
      requires Valid()
      modifies this`secrets, this`hosts, this`refs, this`entries, entries, Arrays()
      ensures Valid() && fresh(Arrays() - old(Arrays())) && fresh(entries - old(entries))
      ensures View() == Certificates.UpdateIngress(old(View()), secList, key, sec, names, parse)
    {
      var cmapEntry := NewEntry(key, sec);
      ListEntry(key, NameSet(names), cmapEntry);
    }

    // ---------- defaults ----------

    /** `setDefaults`: the new entries are not listed until all are made. */
    method SetDefaults(keys: seq<SecretKey>)
      requires Valid()
      modifies this`secrets, this`defaults, this`entries, entries
      ensures Valid() && fresh(entries - old(entries))
      ensures View() == Certificates.SetDefaults(old(View()), secList, keys, parse)
    {
      var certs: seq<CertMapEntry> := [];
      ghost var start := View();
      for i := 0 to |keys|
        invariant Valid() && entries == old(entries) && forall e :: e in certs ==> fresh(e) && e !in entries
        invariant View() == CollectDefaults(start, secList, keys[..i], parse).0
        invariant Values(certs) == CollectDefaults(start, secList, keys[..i], parse).1
      {
        assert keys[..i + 1][..i] == keys[..i];
        var cert := GetCert(keys[i]);
        var e := new CertMapEntry(keys[i], NO_INGRESS, cert);
        certs := certs + [e];
      }
      assert keys[..|keys|] == keys;
      InstallDefaults(certs);
    }

    method InstallDefaults(certs: seq<CertMapEntry>)
      requires Valid()
      modifies this`defaults, this`entries
      ensures Valid() && entries == old(entries) + (set e | e in certs)
      ensures View() == old(View()).(defaults := Values(certs))
    {
      ghost var before := View();
      defaults := certs;
      entries := entries + (set e | e in certs);
      assert HostValues(refs, entries) == before.hosts;
    }

    // ---------- choosing ----------

    /** One of the six loops of `GetCertificate`. */
    method FirstAcceptable(es: seq<CertMapEntry>, ok: Cert -> bool) returns (cert: Option<Cert>)
      ensures cert == FirstCert(Values(es), ok)
    {
      for i := 0 to |es|
        invariant FirstCert(Values(es), ok) == FirstCert(Values(es)[i..], ok)
      {
        if es[i].cert.Some? && ok(es[i].cert.value) {
          return es[i].cert;
        }
        assert Values(es)[i..][1..] == Values(es)[i + 1..];
      }
      return None;
    }

    method FirstAt(h: string, ok: Cert -> bool) returns (cert: Option<Cert>)
      requires Valid()
      ensures cert == FirstCert(EntriesOf(View().hosts, h), ok)
    {
      var es := if h in hosts then hosts[h].Elems() else [];
      cert := FirstAcceptable(es, ok);
    }

    /** The last loop of `GetCertificate`, with its fallback. */
    method LastResort(supports: Cert -> bool) returns (cert: Option<Cert>)
      requires Valid()
      ensures cert == OrElse(FirstCert(View().defaults, supports), FirstCert(View().defaults, Anything()))
    {
      var lastOption: Option<Cert> := None;
      ghost var es := Values(defaults);
      for i := 0 to |defaults|
        invariant FirstCert(es, supports) == FirstCert(es[i..], supports)
        invariant FirstCert(es, Anything()) == if lastOption.Some? then lastOption else FirstCert(es[i..], Anything())
      {
        var c := defaults[i].cert;
        assert es[i..][0] == defaults[i].Value() && es[i..][1..] == es[i + 1..];
        if c.Some? {
          if lastOption.None? {
            lastOption := c;
          }
          if supports(c.value) {
            return c;
          }
        }
      }
      return lastOption;
    }

    /** The first three loops of `GetCertificate`. */
    method FirstOfTiers(name: string, ok: Cert -> bool) returns (cert: Option<Cert>)
      requires Valid()
      ensures cert == Tiers(View(), name, ok)
    {
      cert := FirstAt(name, ok);
      if cert.None? {
        cert := FirstAt(WildcardName(name), ok);
      }
      if cert.None? {
        cert := FirstAcceptable(defaults, ok);
      }
    }

    /** The loops that do not look at dates. */
    method FirstSupported(name: string, supports: Cert -> bool) returns (cert: Option<Cert>)
      requires Valid()
      ensures cert == OrElse(Tiers(View(), name, supports), FirstCert(View().defaults, Anything()))
    {
      cert := FirstAt(name, supports);
      if cert.None? {
        cert := FirstAt(WildcardName(name), supports);
      }
      if cert.None? {
        cert := LastResort(supports);
      }
    }

    /** `GetCertificate`, for one reading of the clock. */
    method GetCertificate(name: string, now: int, supports: Cert -> bool) returns (cert: Option<Cert>)
      requires Valid()
      ensures cert == Choose(View(), name, now, supports)
    {
      cert := FirstOfTiers(name, Usable(now, supports));
      if cert.None? {
        cert := FirstSupported(name, supports);
      }
    }

    // ---------- runs ----------

    /** Any run of operations on a new cache, with the informer changing in between. */
    static method Replay(events: seq<Event>, parse: Parser) returns (cache: CertCache)
      ensures fresh(cache) && cache.parse == parse
      ensures cache.Valid() && cache.View() == Run(events, parse)
    {
      cache := new CertCache(parse);
      for i := 0 to |events|
        invariant cache.Valid() && cache.View() == Run(events[..i], parse)
        invariant fresh(cache.entries) && fresh(cache.Arrays())
      {
        assert events[..i + 1][..i] == events[..i] && events[..i + 1][i] == events[i];
        cache.Perform(events[i]);
      }
      assert events[..|events|] == events;
    }

    method Perform(event: Event)
      requires Valid()
      modifies this, entries, Arrays()
      ensures Valid() && fresh(entries - old(entries)) && fresh(Arrays() - old(Arrays()))
      ensures View() == ApplyEvent(old(View()), event, parse)
    {
      secList := event.lister;
      assert View() == old(View());
      match event.op {
        case SecretSeen(secret) => AddItem(secret);
        case IngressSeen(k, sec, names) => UpdateIngress(k, sec, names);
        case DefaultsSet(keys) => SetDefaults(keys);
        case LookedUp(k) => var _ := GetCert(k);
      }
    }
  }
}
