/** Runs of a machine whose steps are a relation: what a sequence of actions can lead to. */
module Runs {
  /** These actions, in this order, can lead from `s` to `s'`. */
  ghost predicate Leads<S(!new), A>(next: (S, A, S) -> bool, s: S, actions: seq<A>, s': S) {
    if actions == [] then s' == s
    else
      var before, last := actions[..|actions| - 1], actions[|actions| - 1];
      exists mid :: Leads(next, s, before, mid) && next(mid, last, s')
  }

  lemma OneStep<S(!new), A>(next: (S, A, S) -> bool, s: S, a: A, s': S)
    requires next(s, a, s')
    ensures Leads(next, s, [a], s')
  {
    assert Leads(next, s, [], s);
    assert [a][..0] == [];
  }

  lemma OneMore<S(!new), A>(next: (S, A, S) -> bool, s: S, actions: seq<A>, mid: S, a: A, s': S)
    requires Leads(next, s, actions, mid) && next(mid, a, s')
    ensures Leads(next, s, actions + [a], s')
  {
    var all := actions + [a];
    assert all[..|all| - 1] == actions && all[|all| - 1] == a;
  }

  lemma FourSteps<S(!new), A>(next: (S, A, S) -> bool, s: S, a: A, s1: S, b: A, s2: S, d: A, s3: S, e: A, s4: S)
    requires next(s, a, s1) && next(s1, b, s2) && next(s2, d, s3) && next(s3, e, s4)
    ensures Leads(next, s, [a, b, d, e], s4)
  {
    OneStep(next, s, a, s1);
    OneMore(next, s, [a], s1, b, s2);
    OneMore(next, s, [a] + [b], s2, d, s3);
    OneMore(next, s, [a] + [b] + [d], s3, e, s4);
    assert [a] + [b] + [d] + [e] == [a, b, d, e];
  }

  /** One run after the other. */
  lemma {:induction false} Joined<S(!new), A>(next: (S, A, S) -> bool, s: S, first: seq<A>, mid: S, more: seq<A>, s': S)
    requires Leads(next, s, first, mid) && Leads(next, mid, more, s')
    ensures Leads(next, s, first + more, s')
  {
    if more == [] {
      assert first + more == first;
    } else {
      var before, last := more[..|more| - 1], more[|more| - 1];
      var prev :| Leads(next, mid, before, prev) && next(prev, last, s');
      Joined(next, s, first, mid, before, prev);
      OneMore(next, s, first + before, prev, last, s');
      assert first + before + [last] == first + more;
    }
  }
}
