/**
 Rules, ingresses and requests, and the score one rule gives one request
 (ingress.go, `ingressRule.matchRule`).
 */
module Rules {
  import opened Wrappers
  import opened Text

  datatype ServiceKey = ServiceKey(namespace: string, name: string, portName: string)

  datatype PathType = Glob | Prefix | Exact | Re2

  /** `re` is not a field: a compiled expression is determined by its source text, `path`. */
  datatype Rule = Rule(host: string, pathType: PathType, path: string, backend: ServiceKey)

  datatype Request = Request(host: string, path: string, tls: bool)

  /** The regular-expression engine: pattern and path to the length of the match, if any. */
  type Matcher = (string, string) -> Option<nat>

  /** A match is a part of the text it was found in. */
  ghost predicate Bounded(find: Matcher) {
    forall pattern: string, path: string ::
      find(pattern, path).Some? ==> find(pattern, path).value <= |path|
  }

  predicate HostAccepts(ir: Rule, r: Request) {
    ir.host == "" || ir.host == r.host
  }

  /** The length matched and whether the match is exact; a length of 0 is no match. */
  function MatchRule(ir: Rule, r: Request, find: Matcher): (nat, bool) {
    if !HostAccepts(ir, r) then (0, false)
    else
      match ir.pathType
      case Glob =>
        if HasSuffix(ir.path, "/*") then
          var cut := ir.path[..|ir.path| - 2];
          var subPath := if cut == "" then "/" else cut;
          if HasPrefix(r.path, subPath) then
            if subPath == "/" || |r.path| == |subPath| then (|subPath|, false)
            else if r.path[|subPath|] == '/' then (|subPath| + 1, false)
            else (0, false)
          else (0, false)
        else if r.path == ir.path then (|ir.path|, false)
        else if r.path == ir.path + "/" then (|ir.path| + 1, false)
        else (0, false)
      case Re2 =>
        (match find(ir.path, r.path) case Some(n) => (n, false) case None => (0, false))
      case Exact =>
        if r.path == ir.path then (|ir.path|, true) else (0, false)
      case Prefix =>
        if HasPrefix(r.path, ir.path) then
          if ir.path == "/" || |r.path| == |ir.path| then (|ir.path|, false)
          else if r.path[|ir.path|] == '/' then (|ir.path| + 1, false)
          else (0, false)
        else (0, false)
  }

  function Score(ir: Rule, r: Request, find: Matcher): nat {
    MatchRule(ir, r, find).0
  }

  predicate ExactHit(ir: Rule, r: Request, find: Matcher) {
    MatchRule(ir, r, find).1
  }

  /** No score exceeds the request path, and an exact match always reaches it. */
  lemma ScoreAtMostPath(ir: Rule, r: Request, find: Matcher)
    requires Bounded(find)
    ensures Score(ir, r, find) <= |r.path|
    ensures ExactHit(ir, r, find) <==> HostAccepts(ir, r) && ir.pathType == Exact && ir.path == r.path
    ensures ExactHit(ir, r, find) ==> Score(ir, r, find) == |r.path|
  {
  }

  /** A prefix rule matches element by element, never inside an element. */
  lemma PrefixIsElementwise(ir: Rule, r: Request, find: Matcher)
    requires ir.pathType == Prefix && ir.path != "" && ir.path != "/" && HostAccepts(ir, r)
    ensures Score(ir, r, find) > 0 <==> Split(ir.path, '/') <= Split(r.path, '/')
  {
    ElementPrefix(ir.path, r.path, '/');
    var p, s := ir.path, r.path;
    if p <= s && |p| < |s| {
      assert p + ['/'] <= s <==> s[|p|] == '/';
    }
  }

  /** The root prefix matches exactly the absolute request paths. */
  lemma RootMatchesAbsolute(ir: Rule, r: Request, find: Matcher)
    requires ir.pathType == Prefix && ir.path == "/" && HostAccepts(ir, r)
    ensures Score(ir, r, find) > 0 <==> r.path != "" && r.path[0] == '/'
  {
  }

  /** A glob that ends in slash and star scores exactly as the prefix rule without that ending. */
  lemma GlobStarIsPrefix(glob: Rule, base: string, r: Request, find: Matcher)
    requires glob.pathType == Glob && glob.path == base + "/*"
    ensures var pre := Rule(glob.host, Prefix, if base == "" then "/" else base, glob.backend);
            MatchRule(glob, r, find) == MatchRule(pre, r, find)
  {
  }

  /** A glob without the ending matches its path, with or without one more slash. */
  lemma PlainGlobIgnoresOneSlash(ir: Rule, r: Request, find: Matcher)
    requires ir.pathType == Glob && !HasSuffix(ir.path, "/*") && ir.path != "" && HostAccepts(ir, r)
    ensures Score(ir, r, find) > 0 <==> r.path in {ir.path, ir.path + "/"}
    ensures Score(ir, r, find) in {0, |r.path|}
  {
  }

  /** A regular expression scores the length of its match, and is never exact. */
  lemma RegexpScoresItsMatch(ir: Rule, r: Request, find: Matcher)
    requires ir.pathType == Re2 && HostAccepts(ir, r)
    ensures !ExactHit(ir, r, find)
    ensures match find(ir.path, r.path)
            case Some(n) => Score(ir, r, find) == n
            case None => Score(ir, r, find) == 0
  {
  }

  /** Path elements; the root is the leading empty element alone. */
  function Depth(path: string): nat {
    if path == "/" then 1 else |Split(path, '/')|
  }

  lemma PrefixScore(ir: Rule, r: Request, find: Matcher)
    requires ir.pathType == Prefix && Score(ir, r, find) > 0
    ensures ir.path <= r.path
    ensures Score(ir, r, find) == if ir.path == "/" || r.path == ir.path then |ir.path| else |ir.path| + 1
  {
  }

  lemma DeeperContinues(p: string, q: string, s: string)
    requires Split(p, '/') <= Split(s, '/') && Split(q, '/') <= Split(s, '/')
    requires |Split(p, '/')| < |Split(q, '/')|
    ensures p + "/" <= q
  {
    assert Split(p, '/') <= Split(q, '/');
    ListPrefixIsContinuation(p, q, '/');
    assert p + ['/'] == p + "/";
  }

  /**
   Of two matching prefix rules the one with more path elements scores strictly
   higher, unless it is the other path plus a slash and is the whole request path.
   */
  lemma DeeperScoresHigher(a: Rule, b: Rule, r: Request, find: Matcher)
    requires a.pathType == Prefix && b.pathType == Prefix && a.path != "" && b.path != ""
    requires Score(a, r, find) > 0 && Score(b, r, find) > 0
    requires Depth(a.path) < Depth(b.path)
    ensures Score(a, r, find) < Score(b, r, find) <==> !(a.path != "/" && b.path == a.path + "/" && r.path == b.path)
  {
    PrefixScore(a, r, find);
    PrefixScore(b, r, find);
    assert b.path != "/" by {
      assert Depth(a.path) >= 1;
    }
    PrefixIsElementwise(b, r, find);
    if a.path == "/" {
      assert r.path[0] == '/';
      assert b.path[0] == '/';
      assert |b.path| >= 2;
    } else {
      PrefixIsElementwise(a, r, find);
      DeeperContinues(a.path, b.path, r.path);
      if |b.path| == |a.path| + 1 {
        assert b.path == a.path + "/";
      }
    }
  }
}
