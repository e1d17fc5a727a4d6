/**
 From an Ingress object to table entries (ingress.go, `ourClass` and the rule
 loops of `ingUpdater.addItem`; endpoints.go, `backendToServiceKey`).
 */
module IngressCompiler {
  import opened Wrappers
  import opened Text
  import opened Rules
  import opened HostGroups
  import opened RoutingTable

  /** `intstr.IntOrString`: both fields exist, `isString` says which one is meant. */
  datatype ServicePort = ServicePort(isString: bool, intVal: int, strVal: string)

  datatype Backend = Backend(serviceName: string, servicePort: ServicePort)

  datatype HttpPath = HttpPath(path: string, pathType: Option<string>, backend: Backend)

  datatype RuleSpec = RuleSpec(host: string, paths: seq<HttpPath>)

  datatype TlsSpec = TlsSpec(hosts: seq<string>, secretName: string)

  datatype IngressObject = IngressObject(
    namespace: string,
    name: string,
    annotations: map<string, string>,
    className: Option<string>,
    backend: Option<Backend>,
    rules: seq<RuleSpec>,
    tls: seq<TlsSpec>)
  {
    function Key(): IngressKey {
      IngressKey(namespace, name)
    }
  }

  /** What the compilation depends on besides the object. */
  datatype Config = Config(ourClass: string, defaultHttpRedir: bool, compiles: string -> bool)

  const CLASS_ANNOTATION := "kubernetes.io/ingress.class"
  const REDIRECT_ANNOTATION := "ingress.kubernetes.io/ssl-redirect"

  /** The object asks for this class: in the field or, without the field, in the annotation or by not having it. */
  predicate AsksFor(obj: IngressObject, class_: string) {
    || obj.className == Some(class_)
    || (obj.className.None? && "kubernetes.io/ingress.class" in obj.annotations &&
        obj.annotations["kubernetes.io/ingress.class"] == class_)
    || (obj.className.None? && "kubernetes.io/ingress.class" !in obj.annotations && class_ == "")
  }

  predicate OurClass(c: Config, obj: IngressObject)
    ensures OurClass(c, obj) <==> AsksFor(obj, c.ourClass)
  {
    var annotated := if CLASS_ANNOTATION in obj.annotations then obj.annotations[CLASS_ANNOTATION] else "";
    var declared := if obj.className.Some? then obj.className.value else annotated;
    if c.ourClass != "" && declared != c.ourClass then false
    else if c.ourClass == "" && declared != "" then false
    else true
  }

  /** `strconv.ParseBool`, with `false` for text it rejects. */
  predicate ParseBool(v: string) {
    v in {"1", "t", "T", "TRUE", "true", "True"}
  }

  function DoRedirect(c: Config, obj: IngressObject): bool {
    if REDIRECT_ANNOTATION in obj.annotations then ParseBool(obj.annotations[REDIRECT_ANNOTATION])
    else c.defaultHttpRedir
  }

  /** The object wants plain requests redirected: its annotation says so, or it has none and that is the default. */
  predicate WantsRedirect(c: Config, obj: IngressObject) {
    || ("ingress.kubernetes.io/ssl-redirect" in obj.annotations &&
        obj.annotations["ingress.kubernetes.io/ssl-redirect"] in ["1", "t", "T", "true", "TRUE", "True"])
    || ("ingress.kubernetes.io/ssl-redirect" !in obj.annotations && c.defaultHttpRedir)
  }

  /** A numbered port selects the service as a whole, a named one only that port. */
  function BackendKey(namespace: string, b: Backend): ServiceKey {
    if b.servicePort.intVal != 0 then
      ServiceKey(namespace, b.serviceName, "")
    else
      ServiceKey(namespace, b.serviceName, if b.servicePort.isString then b.servicePort.strVal else "0")
  }

  /** The key for a declared backend: its service in this namespace, and the port if that has a name. */
  predicate DeclaredBackend(namespace: string, b: Backend, key: ServiceKey) {
    && key.namespace == namespace && key.name == b.serviceName
    && (b.servicePort.intVal != 0 ==> key.portName == "")
    && (b.servicePort.intVal == 0 && b.servicePort.isString ==> key.portName == b.servicePort.strVal)
    && (b.servicePort.intVal == 0 && !b.servicePort.isString ==> key.portName == "0")
  }

  lemma BackendKeyIsDeclared(namespace: string, b: Backend, key: ServiceKey)
    ensures key == BackendKey(namespace, b) <==> DeclaredBackend(namespace, b, key)
  {
  }

  function PathOr(path: string, default: string): string {
    if path == "" then default else path
  }

  /** The path type and normalised path of one declared path, unless it is to be ignored. */
  function CompilePath(c: Config, p: HttpPath): Option<(PathType, string)> {
    match p.pathType
    case Some("Prefix") =>
      var path := PathOr(p.path, "/");
      Some((Prefix, if |path| > 1 && path[|path| - 1] == '/' then path[..|path| - 1] else path))
    case Some("Exact") =>
      Some((Exact, PathOr(p.path, "/")))
    case Some("ImplementationSpecific") => CompileRegexp(c, p.path)
    case Some("re") => CompileRegexp(c, p.path)
    case Some("") =>
      Some((Glob, PathOr(p.path, "/*")))
    case Some(_) => None
    case None =>
      if p.path == "" then Some((Prefix, "/")) else Some((Glob, p.path))
  }

  function CompileRegexp(c: Config, declared: string): Option<(PathType, string)> {
    var path := PathOr(declared, "/");
    var anchored := if HasPrefix(path, "^") then path else "^" + path;
    if c.compiles(anchored) then Some((Re2, anchored)) else None
  }

  function CompileRule(c: Config, namespace: string, host: string, p: HttpPath): Option<Rule> {
    match CompilePath(c, p)
    case None => None
    case Some((pathType, path)) => Some(Rule(host, pathType, path, BackendKey(namespace, p.backend)))
  }

  function CompileRules(c: Config, namespace: string, host: string, paths: seq<HttpPath>): seq<Rule> {
    if paths == [] then []
    else
      var rest := CompileRules(c, namespace, host, paths[..|paths| - 1]);
      match CompileRule(c, namespace, host, paths[|paths| - 1])
      case None => rest
      case Some(rule) => rest + [rule]
  }

  function CompileEntry(c: Config, obj: IngressObject, spec: RuleSpec): Ingress {
    Ingress(
      obj.name,
      obj.namespace,
      None,
      if obj.backend.Some? then Some(BackendKey(obj.namespace, obj.backend.value)) else None,
      CompileRules(c, obj.namespace, spec.host, spec.paths),
      DoRedirect(c, obj))
  }

  /** The entries one object declares for host `h`, in the order of its rules. */
  function EntriesFor(c: Config, obj: IngressObject, specs: seq<RuleSpec>, h: string): seq<Ingress> {
    if specs == [] then []
    else
      var rest := EntriesFor(c, obj, specs[..|specs| - 1], h);
      var spec := specs[|specs| - 1];
      if spec.host == h then rest + [CompileEntry(c, obj, spec)] else rest
  }

  function HostsOf(specs: seq<RuleSpec>): set<string> {
    set i | 0 <= i < |specs| :: specs[i].host
  }

  function Compile(c: Config, obj: IngressObject): Table {
    map h | h in HostsOf(obj.rules) :: EntriesFor(c, obj, obj.rules, h)
  }

  /** The hosts a TLS block without hosts of its own is taken to cover. */
  function NamedHosts(specs: seq<RuleSpec>): seq<string> {
    if specs == [] then []
    else
      var rest := NamedHosts(specs[..|specs| - 1]);
      var host := specs[|specs| - 1].host;
      if host != "" then rest + [host] else rest
  }

  /** A rule names this host. */
  ghost predicate NamesHost(specs: seq<RuleSpec>, h: string) {
    h != "" && exists spec :: spec in specs && spec.host == h
  }

  lemma {:induction false} NamedHostsMeans(specs: seq<RuleSpec>, h: string)
    ensures h in NamedHosts(specs) <==> NamesHost(specs, h)
  {
    if specs != [] {
      var front, last := specs[..|specs| - 1], specs[|specs| - 1];
      NamedHostsMeans(front, h);
      assert specs == front + [last];
    }
  }

  // ---------- the loops of addItem ----------

  method CompilePaths(c: Config, namespace: string, host: string, paths: seq<HttpPath>) returns (rules: seq<Rule>)
    ensures rules == CompileRules(c, namespace, host, paths)
  {
    rules := [];
    for j := 0 to |paths|
      invariant rules == CompileRules(c, namespace, host, paths[..j])
    {
      assert paths[..j + 1][..j] == paths[..j];
      var rule := CompileRule(c, namespace, host, paths[j]);
      if rule.Some? {
        rules := rules + [rule.value];
      }
    }
    assert paths[..|paths|] == paths;
  }

  ghost predicate Built(c: Config, obj: IngressObject, specs: seq<RuleSpec>, t: Table) {
    && t.Keys == HostsOf(specs)
    && forall h :: h in t ==> t[h] == EntriesFor(c, obj, specs, h)
  }

  lemma BuiltStep(c: Config, obj: IngressObject, i: nat, t: Table)
    requires i < |obj.rules| && Built(c, obj, obj.rules[..i], t)
    ensures var spec := obj.rules[i];
            Built(c, obj, obj.rules[..i + 1], t[spec.host := Get(t, spec.host) + [CompileEntry(c, obj, spec)]])
  {
    HostsOfGrows(obj.rules, i);
    assert obj.rules[..i + 1][..i] == obj.rules[..i];
    EntriesNonEmpty(c, obj, obj.rules[..i], obj.rules[i].host);
  }

  method CompileObject(c: Config, obj: IngressObject) returns (newset: Table, hosts: seq<string>)
    ensures newset == Compile(c, obj) && hosts == NamedHosts(obj.rules)
  {
    newset, hosts := map[], [];
    for i := 0 to |obj.rules|
      invariant Built(c, obj, obj.rules[..i], newset)
      invariant hosts == NamedHosts(obj.rules[..i])
    {
      assert obj.rules[..i + 1][..i] == obj.rules[..i];
      var spec := obj.rules[i];
      var rules := CompilePaths(c, obj.namespace, spec.host, spec.paths);
      var ning := CompileEntry(c, obj, spec).(rules := rules);
      var installed := Get(newset, spec.host);
      BuiltStep(c, obj, i, newset);
      newset := newset[spec.host := installed + [ning]];
      if spec.host != "" {
        hosts := hosts + [spec.host];
      }
    }
    assert obj.rules[..|obj.rules|] == obj.rules;
  }

  lemma HostsOfGrows(specs: seq<RuleSpec>, i: nat)
    requires i < |specs|
    ensures HostsOf(specs[..i + 1]) == HostsOf(specs[..i]) + {specs[i].host}
  {
  }

  // ---------- what compiled entries are like ----------

  lemma {:induction false} CompiledRule(c: Config, namespace: string, host: string, paths: seq<HttpPath>, i: nat)
    requires i < |CompileRules(c, namespace, host, paths)|
    ensures var rule := CompileRules(c, namespace, host, paths)[i];
            rule.host == host && rule.path != "" && rule.backend.namespace == namespace
    ensures var rule := CompileRules(c, namespace, host, paths)[i];
            exists p :: p in paths && CompileRule(c, namespace, host, p) == Some(rule)
  {
    var front, last := paths[..|paths| - 1], paths[|paths| - 1];
    var rest := CompileRules(c, namespace, host, front);
    if i < |rest| {
      CompiledRule(c, namespace, host, front, i);
    } else {
      assert CompileRule(c, namespace, host, last).Some?;
    }
  }

  lemma {:induction false} CompiledEntry(c: Config, obj: IngressObject, specs: seq<RuleSpec>, h: string, e: Ingress)
    requires e in EntriesFor(c, obj, specs, h)
    ensures exists spec :: spec in specs && spec.host == h && e == CompileEntry(c, obj, spec)
  {
    var front, last := specs[..|specs| - 1], specs[|specs| - 1];
    if e in EntriesFor(c, obj, front, h) {
      CompiledEntry(c, obj, front, h, e);
    }
  }

  /** What a table entry carries of its object; `addItem` never sets a priority. */
  lemma EntryIsDeclared(c: Config, obj: IngressObject, spec: RuleSpec)
    ensures var e := CompileEntry(c, obj, spec);
            && e.name == obj.name && e.namespace == obj.namespace && e.priority == None
            && (e.httpRedir <==> WantsRedirect(c, obj))
            && (e.defaultBackend.Some? <==> obj.backend.Some?)
            && (obj.backend.Some? ==> DeclaredBackend(obj.namespace, obj.backend.value, e.defaultBackend.value))
  {
  }

  /** Compiled entries belong to their object and are stored under the host they name. */
  lemma CompiledTable(c: Config, obj: IngressObject)
    ensures OwnEntries(Op.Update(obj.Key(), Compile(c, obj)))
    ensures HostTagged(Compile(c, obj))
    ensures forall h, e, i :: h in Compile(c, obj) && e in Compile(c, obj)[h] && 0 <= i < |e.rules| ==>
              e.rules[i].path != "" && e.rules[i].backend.namespace == e.namespace
  {
    var t := Compile(c, obj);
    forall h, e: Ingress | h in t && e in t[h]
      ensures e.Key() == obj.Key()
      ensures forall i :: 0 <= i < |e.rules| ==>
        e.rules[i].host == h && e.rules[i].path != "" && e.rules[i].backend.namespace == e.namespace
    {
      CompiledEntry(c, obj, obj.rules, h, e);
      var spec :| spec in obj.rules && spec.host == h && e == CompileEntry(c, obj, spec);
      forall i | 0 <= i < |e.rules|
        ensures e.rules[i].host == h && e.rules[i].path != "" && e.rules[i].backend.namespace == e.namespace
      {
        CompiledRule(c, obj.namespace, h, spec.paths, i);
      }
    }
  }

  /** The object declares no host twice. */
  ghost predicate HostsDistinct(specs: seq<RuleSpec>) {
    forall i, j :: 0 <= i < j < |specs| ==> specs[i].host != specs[j].host
  }

  lemma {:induction false} EntriesNonEmpty(c: Config, obj: IngressObject, specs: seq<RuleSpec>, h: string)
    ensures EntriesFor(c, obj, specs, h) != [] <==> exists i :: 0 <= i < |specs| && specs[i].host == h
  {
    if specs != [] {
      var front := specs[..|specs| - 1];
      EntriesNonEmpty(c, obj, front, h);
      if i :| 0 <= i < |specs| && specs[i].host == h {
        assert i < |front| ==> front[i].host == h;
      }
      if i :| 0 <= i < |front| && front[i].host == h {
        assert specs[i].host == h;
      }
    }
  }

  /** There is at most one entry per host exactly when the object names no host twice. */
  lemma {:induction false} OneEntryPerHost(c: Config, obj: IngressObject, specs: seq<RuleSpec>)
    ensures (forall h :: |EntriesFor(c, obj, specs, h)| <= 1) <==> HostsDistinct(specs)
  {
    if specs != [] {
      var front, last := specs[..|specs| - 1], specs[|specs| - 1];
      OneEntryPerHost(c, obj, front);
      EntriesNonEmpty(c, obj, front, last.host);
      assert |EntriesFor(c, obj, specs, last.host)| == |EntriesFor(c, obj, front, last.host)| + 1;
      if HostsDistinct(specs) {
        assert HostsDistinct(front);
        assert forall i :: 0 <= i < |front| ==> front[i] == specs[i];
        assert EntriesFor(c, obj, front, last.host) == [];
        forall h
          ensures |EntriesFor(c, obj, specs, h)| <= 1
        {
          assert |EntriesFor(c, obj, front, h)| <= 1;
        }
      } else if HostsDistinct(front) {
        assert forall a, b :: 0 <= a < b < |front| ==>
          front[a].host != front[b].host && front[a] == specs[a] && front[b] == specs[b];
        var i, j :| 0 <= i < j < |specs| && specs[i].host == specs[j].host;
        assert front[i].host == last.host;
      } else {
        var h :| |EntriesFor(c, obj, front, h)| > 1;
        assert |EntriesFor(c, obj, specs, h)| > 1;
      }
    }
  }

  lemma CompiledOnePerHost(c: Config, obj: IngressObject, h: string)
    requires HostsDistinct(obj.rules)
    ensures |Get(Compile(c, obj), h)| <= 1
  {
    OneEntryPerHost(c, obj, obj.rules);
    assert |EntriesFor(c, obj, obj.rules, h)| <= 1;
  }

  /** A declared prefix and the same with a slash added compile alike, unless it already ended in one. */
  lemma TrailingSlashIgnored(c: Config, p: HttpPath)
    requires p.pathType == Some("Prefix")
    ensures CompilePath(c, p.(path := p.path + "/")) == CompilePath(c, p) <==>
            !(|p.path| > 1 && p.path[|p.path| - 1] == '/')
  {
    var q := p.path + "/";
    assert q[|q| - 1] == '/' && q[..|q| - 1] == p.path;
  }

  /** The text of the expression that a declared path is compiled as, anchored at the start. */
  function Anchored(declared: string): string {
    if declared == "" then "^/" else if declared[0] == '^' then declared else "^" + declared
  }

  /** The declared path is not ignored: its type is known, and if it is an expression it compiles. */
  predicate Accepted(c: Config, p: HttpPath) {
    || p.pathType.None? || p.pathType.value in ["", "Prefix", "Exact"]
    || (p.pathType.value in ["ImplementationSpecific", "re"] && c.compiles(Anchored(p.path)))
  }

  lemma AnchoredIsCompiled(c: Config, declared: string)
    ensures CompileRegexp(c, declared) ==
            if c.compiles(Anchored(declared)) then Some((Re2, Anchored(declared))) else None
  {
    var path := PathOr(declared, "/");
    assert HasPrefix(path, "^") <==> path[0] == '^';
    assert "^" + "/" == "^/";
  }

  lemma AcceptedPathsCompile(c: Config, namespace: string, host: string, p: HttpPath)
    ensures CompilePath(c, p).Some? <==> Accepted(c, p)
    ensures CompileRule(c, namespace, host, p).Some? <==> Accepted(c, p)
  {
    AnchoredIsCompiled(c, p.path);
  }

  lemma RootPrefixes(c: Config, p: HttpPath)
    requires p.pathType == Some("Prefix")
    ensures CompilePath(c, p).Some? && CompilePath(c, p).value.1 != ""
    ensures CompilePath(c, p).value.1 == "/" <==> p.path in {"", "/", "//"}
  {
    if |p.path| > 1 && p.path[|p.path| - 1] == '/' {
      assert p.path == p.path[..|p.path| - 1] + "/";
      assert p.path == "//" ==> p.path[..|p.path| - 1] == "/";
      assert p.path[..|p.path| - 1] == "/" ==> p.path == "//";
    }
  }

  function DeclaredPrefix(path: string, service: string): HttpPath {
    HttpPath(path, Some("Prefix"), Backend(service, ServicePort(false, 80, "")))
  }

  /** Declared prefixes "/a" and then "/a//": for the path "/a/" both score 3, and the shallower one is chosen. */
  lemma ShallowerPrefixCanWin(c: Config, namespace: string, host: string, find: Matcher)
    ensures var rules := CompileRules(c, namespace, host, [DeclaredPrefix("/a", "one"), DeclaredPrefix("/a//", "two")]);
            var r := Request(host, "/a/", false);
            && |rules| == 2 && Depth(rules[0].path) < Depth(rules[1].path)
            && Score(rules[0], r, find) == Score(rules[1], r, find) == 3
            && IsChoice(rules, r, find, 0)
  {
    var paths := [DeclaredPrefix("/a", "one"), DeclaredPrefix("/a//", "two")];
    var first, second := CompileRule(c, namespace, host, paths[0]), CompileRule(c, namespace, host, paths[1]);
    assert paths[..1][..0] == [];
    assert CompileRules(c, namespace, host, paths[..1]) == [first.value];
    assert "/a//"[..3] == "/a/";
    assert CompileRules(c, namespace, host, paths) == [first.value, second.value];
    var r := Request(host, "/a/", false);
    assert Marks([first.value, second.value], r, find) == [(3, false), (3, false)];
    assert Depth("/a") == 2 && Depth("/a/") == 3;
  }

  predicate Absolute(path: string) {
    path != "" && path[0] == '/'
  }

  /** The paths that begin with these elements; the root begins every absolute path. */
  predicate Begins(base: string, path: string) {
    if base in {"", "/"} then Absolute(path) else Split(base, '/') <= Split(path, '/')
  }

  /** What a declared path stands for, path type by path type. */
  predicate Declares(p: HttpPath, path: string, find: Matcher) {
    match p.pathType
    case Some("Prefix") =>
      if p.path == "//" then Absolute(path)
      else if |p.path| > 1 && p.path[|p.path| - 1] == '/' then Begins(p.path[..|p.path| - 1], path)
      else Begins(p.path, path)
    case Some("Exact") => IsExact(p, path)
    case Some("ImplementationSpecific") => DeclaresRegexp(p.path, path, find)
    case Some("re") => DeclaresRegexp(p.path, path, find)
    case _ =>
      if p.path == "" then Absolute(path)
      else if EndsInStar(p.path) then Begins(p.path[..|p.path| - 2], path)
      else path in {p.path, p.path + "/"}
  }

  predicate IsExact(p: HttpPath, path: string) {
    p.pathType == Some("Exact") && path == if p.path == "" then "/" else p.path
  }

  predicate EndsInStar(path: string) {
    |path| >= 2 && path[|path| - 2] == '/' && path[|path| - 1] == '*'
  }

  predicate DeclaresRegexp(declared: string, path: string, find: Matcher) {
    match find(Anchored(declared), path)
    case Some(n) => n > 0
    case None => false
  }

  /** How much of a path that begins with these elements they cover, a separator that follows included. */
  function CoveredBy(base: string, path: string): nat {
    if base in {"", "/"} then 1 else if path == base then |base| else |base| + 1
  }

  /** How much of the path a declared path covers that stands for it. */
  function Covered(p: HttpPath, path: string, find: Matcher): nat
    requires Declares(p, path, find)
  {
    match p.pathType
    case Some("Prefix") =>
      if |p.path| > 1 && p.path[|p.path| - 1] == '/' then CoveredBy(p.path[..|p.path| - 1], path)
      else CoveredBy(p.path, path)
    case Some("Exact") => |path|
    case Some("ImplementationSpecific") => find(Anchored(p.path), path).value
    case Some("re") => find(Anchored(p.path), path).value
    case _ =>
      if p.path == "" then 1
      else if EndsInStar(p.path) then CoveredBy(p.path[..|p.path| - 2], path)
      else |path|
  }

  predicate Matches(rule: Rule, r: Request, find: Matcher) {
    Score(rule, r, find) > 0 || ExactHit(rule, r, find)
  }

  lemma PrefixRuleBegins(rule: Rule, r: Request, find: Matcher)
    requires rule.pathType == Prefix && rule.path != "" && HostAccepts(rule, r)
    ensures Score(rule, r, find) > 0 <==> Begins(rule.path, r.path)
  {
    if rule.path == "/" {
      RootMatchesAbsolute(rule, r, find);
    } else {
      PrefixIsElementwise(rule, r, find);
    }
  }

  lemma GlobRuleMeans(rule: Rule, r: Request, find: Matcher)
    requires rule.pathType == Glob && rule.path != "" && HostAccepts(rule, r)
    ensures Score(rule, r, find) > 0 <==>
            if HasSuffix(rule.path, "/*") then Begins(rule.path[..|rule.path| - 2], r.path)
            else r.path in {rule.path, rule.path + "/"}
  {
    if HasSuffix(rule.path, "/*") {
      var base := rule.path[..|rule.path| - 2];
      assert rule.path == base + "/*";
      GlobStarIsPrefix(rule, base, r, find);
      PrefixRuleBegins(Rule(rule.host, Prefix, if base == "" then "/" else base, rule.backend), r, find);
    } else {
      PlainGlobIgnoresOneSlash(rule, r, find);
    }
  }

  lemma StarIsSuffix(path: string)
    ensures EndsInStar(path) <==> HasSuffix(path, "/*")
  {
  }

  lemma PrefixRuleCovers(rule: Rule, r: Request, find: Matcher)
    requires rule.pathType == Prefix && rule.path != "" && HostAccepts(rule, r) && Score(rule, r, find) > 0
    ensures Score(rule, r, find) == CoveredBy(rule.path, r.path) && !ExactHit(rule, r, find)
  {
  }

  /** A compiled rule scores what its declared path covers of the requests it stands for, and nothing of others. */
  lemma CompiledRuleScores(c: Config, namespace: string, host: string, p: HttpPath, r: Request, find: Matcher)
    requires (host == "" || host == r.host) && CompileRule(c, namespace, host, p).Some?
    ensures var rule := CompileRule(c, namespace, host, p).value;
            && Score(rule, r, find) == (if Declares(p, r.path, find) then Covered(p, r.path, find) else 0)
            && (ExactHit(rule, r, find) <==> IsExact(p, r.path))
  {
    var rule := CompileRule(c, namespace, host, p).value;
    CompiledRuleMeans(c, namespace, host, p, r, find);
    match rule.pathType {
      case Prefix => PrefixRuleScores(c, p, rule, r, find);
      case Glob => GlobRuleScores(c, p, rule, r, find);
      case Exact => ScoreOfExact(rule, r, find);
      case Re2 =>
        AnchoredIsCompiled(c, p.path);
        RegexpScoresItsMatch(rule, r, find);
    }
  }

  lemma ScoreOfExact(rule: Rule, r: Request, find: Matcher)
    requires rule.pathType == Exact && HostAccepts(rule, r)
    ensures ExactHit(rule, r, find) <==> r.path == rule.path
    ensures Score(rule, r, find) == if r.path == rule.path then |r.path| else 0
  {
  }

  lemma PrefixRuleScores(c: Config, p: HttpPath, rule: Rule, r: Request, find: Matcher)
    requires CompilePath(c, p) == Some((Prefix, rule.path)) && rule.pathType == Prefix && HostAccepts(rule, r)
    requires Matches(rule, r, find) <==> Declares(p, r.path, find)
    ensures Score(rule, r, find) == (if Declares(p, r.path, find) then Covered(p, r.path, find) else 0)
    ensures !ExactHit(rule, r, find) && !IsExact(p, r.path)
  {
    if p.pathType == Some("Prefix") {
      RootPrefixes(c, p);
      assert p.path == "//" ==> p.path[..1] == "/";
    }
    if Score(rule, r, find) > 0 {
      PrefixRuleCovers(rule, r, find);
    }
  }

  lemma GlobRuleScores(c: Config, p: HttpPath, rule: Rule, r: Request, find: Matcher)
    requires CompilePath(c, p) == Some((Glob, rule.path)) && rule.pathType == Glob && HostAccepts(rule, r)
    requires Matches(rule, r, find) <==> Declares(p, r.path, find)
    ensures Score(rule, r, find) == (if Declares(p, r.path, find) then Covered(p, r.path, find) else 0)
    ensures !ExactHit(rule, r, find) && !IsExact(p, r.path)
  {
    StarIsSuffix(rule.path);
    GlobScore(rule, r, find);
    assert "/*"[..0] == "";
  }

  lemma GlobScore(rule: Rule, r: Request, find: Matcher)
    requires rule.pathType == Glob && rule.path != "" && HostAccepts(rule, r)
    ensures !ExactHit(rule, r, find)
    ensures Score(rule, r, find) > 0 ==>
              Score(rule, r, find) ==
              if EndsInStar(rule.path) then CoveredBy(rule.path[..|rule.path| - 2], r.path) else |r.path|
  {
    StarIsSuffix(rule.path);
    if EndsInStar(rule.path) {
      StarScore(rule, rule.path[..|rule.path| - 2], r, find);
    } else {
      PlainGlobIgnoresOneSlash(rule, r, find);
    }
  }

  lemma StarScore(rule: Rule, base: string, r: Request, find: Matcher)
    requires rule.pathType == Glob && rule.path == base + "/*" && HostAccepts(rule, r)
    ensures !ExactHit(rule, r, find)
    ensures Score(rule, r, find) > 0 ==> Score(rule, r, find) == CoveredBy(base, r.path)
  {
    var pre := Rule(rule.host, Prefix, if base == "" then "/" else base, rule.backend);
    GlobStarIsPrefix(rule, base, r, find);
    if Score(pre, r, find) > 0 {
      PrefixRuleCovers(pre, r, find);
    }
  }

  /** A compiled rule matches exactly the requests its declared path stands for. */
  lemma CompiledRuleMeans(c: Config, namespace: string, host: string, p: HttpPath, r: Request, find: Matcher)
    requires (host == "" || host == r.host) && CompileRule(c, namespace, host, p).Some?
    ensures Matches(CompileRule(c, namespace, host, p).value, r, find) <==> Declares(p, r.path, find)
  {
    var rule := CompileRule(c, namespace, host, p).value;
    match rule.pathType {
      case Prefix => PrefixRuleMeans(c, p, rule, r, find);
      case Glob =>
        GlobRuleMeans(rule, r, find);
        StarIsSuffix(rule.path);
        assert "/*"[..0] == "";
      case Exact => ExactRuleMeans(rule, r, find);
      case Re2 => AnchoredIsCompiled(c, p.path);
    }
  }

  lemma ExactRuleMeans(rule: Rule, r: Request, find: Matcher)
    requires rule.pathType == Exact && HostAccepts(rule, r)
    ensures Matches(rule, r, find) <==> r.path == rule.path
  {
  }

  lemma PrefixRuleMeans(c: Config, p: HttpPath, rule: Rule, r: Request, find: Matcher)
    requires CompilePath(c, p) == Some((Prefix, rule.path)) && rule.pathType == Prefix && HostAccepts(rule, r)
    ensures Matches(rule, r, find) <==> Declares(p, r.path, find)
  {
    if p.pathType == Some("Prefix") {
      RootPrefixes(c, p);
    }
    PrefixRuleBegins(rule, r, find);
  }

  lemma {:induction false} DeclaredRuleCompiled(
      c: Config, namespace: string, host: string, paths: seq<HttpPath>, p: HttpPath)
    requires p in paths && CompileRule(c, namespace, host, p).Some?
    ensures CompileRule(c, namespace, host, p).value in CompileRules(c, namespace, host, paths)
  {
    var front, last := paths[..|paths| - 1], paths[|paths| - 1];
    if p != last {
      assert p in front;
      DeclaredRuleCompiled(c, namespace, host, front, p);
    }
  }

  lemma {:induction false} RulesGrow(c: Config, namespace: string, host: string, paths: seq<HttpPath>, i: nat, j: nat)
    requires i <= j <= |paths|
    ensures CompileRules(c, namespace, host, paths[..i]) <= CompileRules(c, namespace, host, paths[..j])
  {
    if i < j {
      RulesGrow(c, namespace, host, paths, i, j - 1);
      assert paths[..j][..j - 1] == paths[..j - 1];
    }
  }

  /** Where the rule of a declared path stands among the compiled rules. */
  lemma RuleOfPath(c: Config, namespace: string, host: string, paths: seq<HttpPath>, i: nat) returns (n: nat)
    requires i < |paths| && CompileRule(c, namespace, host, paths[i]).Some?
    ensures var rules := CompileRules(c, namespace, host, paths);
            n == |CompileRules(c, namespace, host, paths[..i])| < |rules| &&
            CompileRule(c, namespace, host, paths[i]) == Some(rules[n])
  {
    n := |CompileRules(c, namespace, host, paths[..i])|;
    assert paths[..i + 1][..i] == paths[..i] && paths[..|paths|] == paths;
    RulesGrow(c, namespace, host, paths, i + 1, |paths|);
  }

  /** Which declared path a compiled rule comes from. */
  lemma {:induction false} PathOfRule(c: Config, namespace: string, host: string, paths: seq<HttpPath>, n: nat)
      returns (i: nat)
    requires n < |CompileRules(c, namespace, host, paths)|
    ensures i < |paths| && n == |CompileRules(c, namespace, host, paths[..i])|
    ensures CompileRule(c, namespace, host, paths[i]) == Some(CompileRules(c, namespace, host, paths)[n])
  {
    var front := paths[..|paths| - 1];
    if n < |CompileRules(c, namespace, host, front)| {
      i := PathOfRule(c, namespace, host, front, n);
      assert front[..i] == paths[..i];
    } else {
      i := |paths| - 1;
    }
  }

  /** Rules stand in the order of the paths they come from. */
  lemma RulesInOrder(c: Config, namespace: string, host: string, paths: seq<HttpPath>, i: nat, j: nat)
    requires i < j <= |paths| && CompileRule(c, namespace, host, paths[i]).Some?
    ensures |CompileRules(c, namespace, host, paths[..i])| < |CompileRules(c, namespace, host, paths[..j])|
  {
    assert paths[..i + 1][..i] == paths[..i];
    RulesGrow(c, namespace, host, paths, i + 1, j);
  }

  lemma {:induction false} DeclaredEntryCompiled(c: Config, obj: IngressObject, specs: seq<RuleSpec>, spec: RuleSpec)
    requires spec in specs
    ensures CompileEntry(c, obj, spec) in EntriesFor(c, obj, specs, spec.host)
  {
    var front, last := specs[..|specs| - 1], specs[|specs| - 1];
    if spec != last {
      assert spec in front;
      DeclaredEntryCompiled(c, obj, front, spec);
    }
  }
}
