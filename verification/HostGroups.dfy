/**
 The ingresses of one host: their order and the rule selected among them
 (ingress.go, `ingressGroupByPriority.Less` and `ingressHostGroup.matchRule`).
 */
module HostGroups {
  import opened Wrappers
  import opened Text
  import opened Rules

  datatype IngressKey = IngressKey(namespace: string, name: string)

  datatype Ingress = Ingress(
    name: string,
    namespace: string,
    priority: Option<int>,
    defaultBackend: Option<ServiceKey>,
    rules: seq<Rule>,
    httpRedir: bool)
  {
    function Key(): IngressKey {
      IngressKey(namespace, name)
    }
  }

  // ---------- order ----------

  predicate Less(a: Ingress, b: Ingress) {
    if a.priority.None? && b.priority.Some? then true
    else if a.priority.Some? && b.priority.None? then false
    else if a.priority.Some? && b.priority.Some? && a.priority.value < b.priority.value then true
    else if a.priority.Some? && b.priority.Some? && a.priority.value > b.priority.value then false
    else if Before(a.name, b.name) then true
    else if Before(b.name, a.name) then false
    else Before(a.namespace, b.namespace)
  }

  /** No priority first, then the lower priority; of equal ones the name decides, then the namespace. */
  ghost predicate Precedes(a: Ingress, b: Ingress) {
    || (a.priority.None? && b.priority.Some?)
    || (a.priority.Some? && b.priority.Some? && a.priority.value < b.priority.value)
    || (a.priority == b.priority && KeyPrecedes(a.Key(), b.Key()))
  }

  ghost predicate KeyPrecedes(a: IngressKey, b: IngressKey) {
    Lexically(a.name, b.name) || (a.name == b.name && Lexically(a.namespace, b.namespace))
  }

  /** What the order of ingresses is. */
  lemma LessMeans(a: Ingress, b: Ingress)
    ensures Less(a, b) <==> Precedes(a, b)
  {
    BeforeIsLexical(a.name, b.name);
    BeforeIsLexical(b.name, a.name);
    BeforeIsLexical(a.namespace, b.namespace);
    BeforeTotal(a.name, b.name);
    LessTotal(a, b);
    BeforeIrreflexive(a.name);
    if Before(a.name, b.name) && Before(b.name, a.name) {
      BeforeTransitive(a.name, b.name, a.name);
    }
  }

  lemma LessTransitive(a: Ingress, b: Ingress, c: Ingress)
    requires Less(a, b) && Less(b, c)
    ensures Less(a, c)
  {
    BeforeTotal(a.name, b.name);
    BeforeTotal(b.name, c.name);
    BeforeIrreflexive(a.name);
    if Before(a.name, b.name) && Before(b.name, c.name) {
      BeforeTransitive(a.name, b.name, c.name);
      if Before(c.name, a.name) {
        BeforeTransitive(a.name, c.name, a.name);
      }
    } else if a.name == b.name == c.name && Before(a.namespace, b.namespace) && Before(b.namespace, c.namespace) {
      BeforeTransitive(a.namespace, b.namespace, c.namespace);
    }
  }

  /** `Less` is a strict total order on (priority, name, namespace). */
  lemma LessTotal(a: Ingress, b: Ingress)
    ensures !(Less(a, b) && Less(b, a))
    ensures !Less(a, b) && !Less(b, a) <==> a.priority == b.priority && a.Key() == b.Key()
  {
    BeforeTotal(a.name, b.name);
    BeforeTotal(a.namespace, b.namespace);
    BeforeIrreflexive(a.name);
    BeforeIrreflexive(a.namespace);
    if Before(a.name, b.name) && Before(b.name, a.name) {
      BeforeTransitive(a.name, b.name, a.name);
    }
    if Before(a.namespace, b.namespace) && Before(b.namespace, a.namespace) {
      BeforeTransitive(a.namespace, b.namespace, a.namespace);
    }
  }

  /** The guarantee of `sort.Sort`: no later element is less than an earlier one. */
  ghost predicate Sorted(s: seq<Ingress>) {
    forall i, j :: 0 <= i < j < |s| ==> !Less(s[j], s[i])
  }

  ghost predicate DistinctKeys(s: seq<Ingress>) {
    forall i, j :: 0 <= i < j < |s| ==> s[i].Key() != s[j].Key()
  }

  lemma SortedSameFirst(a: seq<Ingress>, b: seq<Ingress>)
    requires Sorted(a) && Sorted(b) && multiset(a) == multiset(b)
    requires DistinctKeys(a) && |a| > 0 && |b| > 0
    ensures a[0] == b[0]
  {
    assert a[0] in multiset(b) && b[0] in multiset(a);
    var i :| 0 <= i < |b| && b[i] == a[0];
    var j :| 0 <= j < |a| && a[j] == b[0];
    assert i > 0 ==> !Less(b[i], b[0]);
    assert j > 0 ==> !Less(a[j], a[0]) && a[0].Key() != a[j].Key();
    LessTotal(a[0], b[0]);
  }

  lemma SameTail(a: seq<Ingress>, b: seq<Ingress>)
    requires |a| > 0 && |b| > 0 && a[0] == b[0] && multiset(a) == multiset(b)
    ensures multiset(a[1..]) == multiset(b[1..])
  {
    assert a == [a[0]] + a[1..] && b == [b[0]] + b[1..];
    assert multiset(a[1..]) == multiset(a) - multiset{a[0]};
    assert multiset(b[1..]) == multiset(b) - multiset{b[0]};
  }

  /** A sorted group with distinct keys is determined by what it holds. */
  lemma {:induction false} SortedUnique(a: seq<Ingress>, b: seq<Ingress>)
    requires Sorted(a) && Sorted(b) && multiset(a) == multiset(b) && DistinctKeys(a)
    ensures a == b
  {
    assert |a| == |multiset(a)| == |multiset(b)| == |b|;
    if |a| > 0 {
      SortedSameFirst(a, b);
      SameTail(a, b);
      SortedUnique(a[1..], b[1..]);
      assert a == [a[0]] + a[1..] && b == [b[0]] + b[1..];
    }
  }

  // ---------- selection ----------

  /** What `matchRule` says of each rule: the length matched, and whether exactly. */
  function Marks(rules: seq<Rule>, r: Request, find: Matcher): seq<(nat, bool)> {
    seq(|rules|, i requires 0 <= i < |rules| => MatchRule(rules[i], r, find))
  }

  /** No mark exceeds `len`, and an exact match always reaches it. */
  ghost predicate AtMost(marks: seq<(nat, bool)>, len: nat) {
    forall k :: 0 <= k < |marks| ==> marks[k].0 <= len && (marks[k].1 ==> marks[k].0 == len)
  }

  /** `j` is the one to use among the first `n`: the last exact match, or else the first of highest score. */
  ghost predicate IsBest(marks: seq<(nat, bool)>, n: nat, j: nat)
    requires n <= |marks|
  {
    && j < n
    && if exists k :: 0 <= k < n && marks[k].1 then
         marks[j].1 && forall k :: j < k < n ==> !marks[k].1
       else
         && marks[j].0 > 0
         && (forall k :: 0 <= k < n ==> marks[k].0 <= marks[j].0)
         && (forall k :: 0 <= k < j ==> marks[k].0 < marks[j].0)
  }

  ghost predicate NoMark(marks: seq<(nat, bool)>, n: nat)
    requires n <= |marks|
  {
    forall k :: 0 <= k < n ==> !marks[k].1 && marks[k].0 == 0
  }

  /** Rule `j` is the one to use for the request. */
  ghost predicate IsChoice(rules: seq<Rule>, r: Request, find: Matcher, j: nat) {
    IsBest(Marks(rules, r, find), |rules|, j)
  }

  /** Some rule matches the request. */
  ghost predicate Hits(rules: seq<Rule>, r: Request, find: Matcher) {
    exists k :: 0 <= k < |rules| && (ExactHit(rules[k], r, find) || Score(rules[k], r, find) > 0)
  }

  ghost function RuleChoice(rules: seq<Rule>, r: Request, find: Matcher): Option<nat> {
    if exists j: nat :: IsChoice(rules, r, find, j) then
      var j: nat :| IsChoice(rules, r, find, j);
      Some(j)
    else
      None
  }

  lemma ChoiceIs(rules: seq<Rule>, r: Request, find: Matcher, j: nat)
    requires IsChoice(rules, r, find, j)
    ensures RuleChoice(rules, r, find) == Some(j)
  {
  }

  /** A choice, seen as positions of the ingress in its group and of the rule in the ingress. */
  datatype Selection = Selection(ing: nat, rule: nat)

  /** The first ingress of the group with a rule to use decides. */
  ghost function GroupChoice(group: seq<Ingress>, r: Request, find: Matcher): (res: Option<Selection>)
    ensures res.Some? ==> res.value.ing < |group| && res.value.rule < |group[res.value.ing].rules|
  {
    if group == [] then None
    else
      match RuleChoice(group[0].rules, r, find)
      case Some(j) => Some(Selection(0, j))
      case None =>
        match GroupChoice(group[1..], r, find)
        case Some(s) => Some(Selection(s.ing + 1, s.rule))
        case None => None
  }

  lemma {:induction false} GroupChoiceFirst(group: seq<Ingress>, r: Request, find: Matcher, i: nat)
    requires i <= |group|
    requires forall k :: 0 <= k < i ==> RuleChoice(group[k].rules, r, find).None?
    ensures i == |group| ==> GroupChoice(group, r, find).None?
    ensures i < |group| && RuleChoice(group[i].rules, r, find).Some? ==>
              GroupChoice(group, r, find) == Some(Selection(i, RuleChoice(group[i].rules, r, find).value))
  {
    if i > 0 {
      GroupChoiceFirst(group[1..], r, find, i - 1);
    }
  }

  lemma MarksAtMost(rules: seq<Rule>, r: Request, find: Matcher)
    requires Bounded(find)
    ensures AtMost(Marks(rules, r, find), |r.path|)
  {
  }

  /** The best so far and its length, as the inner loop keeps them. */
  ghost predicate BestSoFar(marks: seq<(nat, bool)>, n: nat, best: Option<nat>, len: nat)
    requires n <= |marks|
  {
    match best
    case None => NoMark(marks, n) && len == 0
    case Some(c) => IsBest(marks, n, c) && len == marks[c].0
  }

  lemma BetterTaken(marks: seq<(nat, bool)>, n: nat, best: Option<nat>, len: nat, bound: nat)
    requires n < |marks| && AtMost(marks, bound) && BestSoFar(marks, n, best, len)
    requires marks[n].0 > len || (marks[n].0 == len && marks[n].1)
    ensures IsBest(marks, n + 1, n)
  {
  }

  lemma WorseLeft(marks: seq<(nat, bool)>, n: nat, best: Option<nat>, len: nat, bound: nat)
    requires n < |marks| && AtMost(marks, bound) && BestSoFar(marks, n, best, len)
    requires !(marks[n].0 > len || (marks[n].0 == len && marks[n].1))
    ensures BestSoFar(marks, n + 1, best, len)
  {
  }

  /** The loop over the rules of one ingress. */
  method MatchRules(rules: seq<Rule>, r: Request, find: Matcher) returns (matched: Option<nat>)
    requires Bounded(find)
    ensures matched == RuleChoice(rules, r, find)
  {
    ghost var marks := Marks(rules, r, find);
    MarksAtMost(rules, r, find);
    matched := None;
    var matchLen := 0;
    for j := 0 to |rules|
      invariant BestSoFar(marks, j, matched, matchLen)
    {
      var (l, exact) := MatchRule(rules[j], r, find);
      if l > matchLen || (l == matchLen && exact) {
        BetterTaken(marks, j, matched, matchLen, |r.path|);
      } else {
        WorseLeft(marks, j, matched, matchLen, |r.path|);
      }
      if l > matchLen {
        matched := Some(j);
        matchLen := l;
      }
      if l == matchLen && exact {
        matched := Some(j);
      }
    }
    ChoiceFound(rules, r, find, matched, matchLen);
  }

  lemma ChoiceFound(rules: seq<Rule>, r: Request, find: Matcher, best: Option<nat>, len: nat)
    requires BestSoFar(Marks(rules, r, find), |rules|, best, len)
    ensures best == RuleChoice(rules, r, find)
  {
    if best.Some? {
      ChoiceIs(rules, r, find, best.value);
    }
  }

  /** The selection loop: positions stand for the pointers into the group. */
  method MatchGroup(group: seq<Ingress>, r: Request, find: Matcher) returns (res: Option<Selection>)
    requires Bounded(find)
    ensures res == GroupChoice(group, r, find)
  {
    for i := 0 to |group|
      invariant forall k :: 0 <= k < i ==> RuleChoice(group[k].rules, r, find).None?
    {
      var matched := MatchRules(group[i].rules, r, find);
      if matched.Some? {
        GroupChoiceFirst(group, r, find, i);
        return Some(Selection(i, matched.value));
      }
    }
    GroupChoiceFirst(group, r, find, |group|);
    return None;
  }

  // ---------- what is selected ----------

  lemma {:induction false} BestExists(marks: seq<(nat, bool)>, n: nat, bound: nat) returns (best: Option<nat>, len: nat)
    requires AtMost(marks, bound) && n <= |marks|
    ensures BestSoFar(marks, n, best, len)
  {
    if n == 0 {
      return None, 0;
    }
    best, len := BestExists(marks, n - 1, bound);
    if marks[n - 1].0 > len || (marks[n - 1].0 == len && marks[n - 1].1) {
      BetterTaken(marks, n - 1, best, len, bound);
      best, len := Some(n - 1), marks[n - 1].0;
    } else {
      WorseLeft(marks, n - 1, best, len, bound);
    }
  }

  lemma NoMarkIffNoHit(rules: seq<Rule>, r: Request, find: Matcher)
    ensures NoMark(Marks(rules, r, find), |rules|) <==> !Hits(rules, r, find)
  {
    var marks := Marks(rules, r, find);
    assert forall k :: 0 <= k < |rules| ==>
      marks[k].0 == Score(rules[k], r, find) && marks[k].1 == ExactHit(rules[k], r, find);
  }

  lemma BestIsMarked(marks: seq<(nat, bool)>, n: nat, j: nat)
    requires n <= |marks| && IsBest(marks, n, j)
    ensures !NoMark(marks, n) && (marks[j].1 || marks[j].0 > 0)
  {
  }

  /** A rule is chosen exactly when some rule matches. */
  lemma ChoiceIffHit(rules: seq<Rule>, r: Request, find: Matcher)
    requires Bounded(find)
    ensures RuleChoice(rules, r, find).Some? <==> Hits(rules, r, find)
  {
    var marks := Marks(rules, r, find);
    MarksAtMost(rules, r, find);
    NoMarkIffNoHit(rules, r, find);
    var best, len := BestExists(marks, |rules|, |r.path|);
    ChoiceFound(rules, r, find, best, len);
    if best.Some? {
      BestIsMarked(marks, |rules|, best.value);
    }
  }

  /** The chosen rule matches; it is the last exact match, or else scores highest, first of equals. */
  lemma ChoiceMeans(rules: seq<Rule>, r: Request, find: Matcher, j: nat)
    requires IsChoice(rules, r, find, j)
    ensures j < |rules| && (ExactHit(rules[j], r, find) || Score(rules[j], r, find) > 0)
    ensures (exists k :: 0 <= k < |rules| && ExactHit(rules[k], r, find)) ==>
              ExactHit(rules[j], r, find) && forall k :: j < k < |rules| ==> !ExactHit(rules[k], r, find)
    ensures (forall k :: 0 <= k < |rules| ==> !ExactHit(rules[k], r, find)) ==>
              && (forall k :: 0 <= k < |rules| ==> Score(rules[k], r, find) <= Score(rules[j], r, find))
              && (forall k :: 0 <= k < j ==> Score(rules[k], r, find) < Score(rules[j], r, find))
  {
    var marks := Marks(rules, r, find);
    assert forall k :: 0 <= k < |rules| ==>
      marks[k].0 == Score(rules[k], r, find) && marks[k].1 == ExactHit(rules[k], r, find);
    BestIsMarked(marks, |rules|, j);
  }

  /** The group's selection comes from its first ingress that matches at all. */
  lemma {:induction false} GroupChoiceCharacterised(group: seq<Ingress>, r: Request, find: Matcher)
    requires Bounded(find)
    ensures match GroupChoice(group, r, find)
            case None => forall i :: 0 <= i < |group| ==> !Hits(group[i].rules, r, find)
            case Some(s) =>
              && Hits(group[s.ing].rules, r, find)
              && IsChoice(group[s.ing].rules, r, find, s.rule)
              && forall i :: 0 <= i < s.ing ==> !Hits(group[i].rules, r, find)
  {
    if group != [] {
      ChoiceIffHit(group[0].rules, r, find);
      GroupChoiceCharacterised(group[1..], r, find);
    }
  }

  /** In a sorted group with distinct keys the selected ingress is the least one that matches. */
  lemma SelectsLeastIngress(group: seq<Ingress>, r: Request, find: Matcher)
    requires Bounded(find) && Sorted(group) && DistinctKeys(group)
    ensures GroupChoice(group, r, find).Some? <==> exists i :: 0 <= i < |group| && Hits(group[i].rules, r, find)
    ensures GroupChoice(group, r, find).Some? ==>
              var best := group[GroupChoice(group, r, find).value.ing];
              && Hits(best.rules, r, find)
              && forall i :: 0 <= i < |group| && group[i] != best && Hits(group[i].rules, r, find) ==>
                   Precedes(best, group[i])
  {
    GroupChoiceCharacterised(group, r, find);
    if GroupChoice(group, r, find).Some? {
      var b := GroupChoice(group, r, find).value.ing;
      forall i | 0 <= i < |group| && group[i] != group[b] && Hits(group[i].rules, r, find)
        ensures Precedes(group[b], group[i])
      {
        LessTotal(group[b], group[i]);
        LessMeans(group[b], group[i]);
      }
    }
  }

  /**
   If a prefix rule is chosen, whatever the other rules are, its path has at least as many
   elements as that of any other matching prefix rule, the root or one not ending in a slash.
   */
  lemma DeepestPrefixChosen(rules: seq<Rule>, r: Request, find: Matcher, j: nat, k: nat)
    requires Bounded(find) && IsChoice(rules, r, find, j) && j < |rules| && k < |rules|
    requires rules[j].pathType == Prefix && rules[j].path != ""
    requires rules[k].pathType == Prefix && rules[k].path != "" && Score(rules[k], r, find) > 0
    requires rules[k].path == "/" || rules[k].path[|rules[k].path| - 1] != '/'
    ensures Depth(rules[k].path) <= Depth(rules[j].path)
  {
    ChoiceMeans(rules, r, find, j);
    ScoreAtMostPath(rules[j], r, find);
    var p := rules[j].path + "/";
    assert p[|p| - 1] == '/';
    if Depth(rules[j].path) < Depth(rules[k].path) {
      DeeperScoresHigher(rules[j], rules[k], r, find);
    }
  }
}
