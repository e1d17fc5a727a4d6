/**
 The round-robin counter (endpoints.go, `getNextAddr`): a 64-bit counter is
 bumped atomically and reduced modulo the number of addresses.
 */
module RoundRobin {
  /** `atomic.AddUint64` wraps here. */
  const WRAP := 0x1_0000_0000_0000_0000

  function Bump(index: nat): (count: nat)
    ensures count < WRAP
  {
    (index + 1) % WRAP
  }

  /** The positions that `n` successive tickets on a list of length `m` get, from counter value `index`. */
  function Positions(index: nat, n: nat, m: nat): seq<nat>
    requires m > 0
  {
    seq(n, k requires 0 <= k < n => ((index + k + 1) % WRAP) % m)
  }

  function Count(s: seq<nat>, p: nat): nat {
    if s == [] then 0 else Count(s[..|s| - 1], p) + if s[|s| - 1] == p then 1 else 0
  }

  lemma MultipleOf(d: int, m: int)
    requires m > 0
    ensures d > 0 ==> d * m >= m
    ensures d < 0 ==> d * m <= -m
  {
  }

  lemma DivisionUnique(x: int, q: int, r: int, m: int)
    requires m > 0 && x == q * m + r && 0 <= r < m
    ensures x / m == q && x % m == r
  {
    var d := x / m - q;
    assert d * m == r - x % m by {
      assert x == (x / m) * m + x % m;
      assert (x / m) * m - q * m == d * m;
    }
    MultipleOf(d, m);
  }

  lemma DivisionOfSum(x: nat, n: nat, m: nat)
    requires m > 0
    ensures var carry := if x % m + n % m < m then 0 else 1;
            (x + n) / m == x / m + n / m + carry && (x + n) % m == x % m + n % m - carry * m
  {
    var carry := if x % m + n % m < m then 0 else 1;
    var q := x / m + n / m + carry;
    assert x + n == q * m + (x % m + n % m - carry * m) by {
      assert x == (x / m) * m + x % m && n == (n / m) * m + n % m;
      assert q * m == (x / m) * m + (n / m) * m + carry * m;
    }
    DivisionUnique(x + n, q, x % m + n % m - carry * m, m);
  }

  lemma DivisionRoundedUp(n: nat, m: nat)
    requires m > 0
    ensures (n + m - 1) / m == n / m + if n % m == 0 then 0 else 1
  {
    var up := if n % m == 0 then 0 else 1;
    var q := n / m + up;
    assert n + m - 1 == q * m + (n % m + m - 1 - up * m) by {
      assert n == (n / m) * m + n % m;
      assert q * m == (n / m) * m + up * m;
    }
    DivisionUnique(n + m - 1, q, n % m + m - 1 - up * m, m);
  }

  /** How many numbers below `n` are congruent to `p`. */
  function Below(n: nat, m: nat, p: nat): nat
    requires m > 0
  {
    n / m + if n % m > p then 1 else 0
  }

  lemma BelowStep(n: nat, m: nat, p: nat)
    requires m > 0 && p < m
    ensures Below(n + 1, m, p) == Below(n, m, p) + if n % m == p then 1 else 0
  {
    var q, r := n / m, n % m;
    assert n == q * m + r;
    if r + 1 < m {
      DivisionUnique(n + 1, q, r + 1, m);
    } else {
      assert (q + 1) * m == q * m + m;
      DivisionUnique(n + 1, q + 1, 0, m);
    }
  }

  /** Before the counter wraps, ticket `k` is for position `index + k + 1` modulo the length. */
  lemma PositionsGrow(index: nat, n: nat, m: nat)
    requires m > 0 && index + n + 1 < WRAP
    ensures Positions(index, n + 1, m) == Positions(index, n, m) + [(index + n + 1) % m]
  {
  }

  lemma CountGrows(s: seq<nat>, x: nat, p: nat)
    ensures Count(s + [x], p) == Count(s, p) + if x == p then 1 else 0
  {
  }

  lemma {:induction false} CountPositions(index: nat, n: nat, m: nat, p: nat)
    requires m > 0 && p < m && index + n < WRAP
    ensures Count(Positions(index, n, m), p) == Below(index + n + 1, m, p) - Below(index + 1, m, p)
  {
    if n > 0 {
      CountPositions(index, n - 1, m, p);
      PositionsGrow(index, n - 1, m);
      CountGrows(Positions(index, n - 1, m), (index + n) % m, p);
      BelowStep(index + n, m, p);
    }
  }

  lemma BelowSpread(x: nat, n: nat, m: nat, p: nat)
    requires m > 0 && p < m
    ensures n / m <= Below(x + n, m, p) - Below(x, m, p) <= (n + m - 1) / m
  {
    DivisionOfSum(x, n, m);
    DivisionRoundedUp(n, m);
  }

  /** Fairness: of `n` tickets without wrap-around each position gets the floor or the ceiling of `n/m`. */
  lemma EachPositionFairlyServed(index: nat, n: nat, m: nat, p: nat)
    requires m > 0 && p < m && index + n < WRAP
    ensures n / m <= Count(Positions(index, n, m), p) <= (n + m - 1) / m
  {
    CountPositions(index, n, m, p);
    BelowSpread(index + 1, n, m, p);
  }

  // ---------- fairness of the answers ----------

  /** The answers are those of successive tickets from counter value 0. */
  ghost predicate InTurn<T>(addrs: seq<T>, answers: seq<T>) {
    addrs != [] && forall n :: 0 <= n < |answers| ==> answers[n] == addrs[((n + 1) % WRAP) % |addrs|]
  }

  /** How many of these positions are among the first `q` and hold `x`. */
  function HitsOf<T(==)>(addrs: seq<T>, positions: seq<nat>, x: T, q: nat): nat
    requires q <= |addrs|
  {
    if q == 0 then 0
    else HitsOf(addrs, positions, x, q - 1) + if addrs[q - 1] == x then Count(positions, q - 1) else 0
  }

  lemma {:induction false} HitsGrow<T>(addrs: seq<T>, positions: seq<nat>, p: nat, x: T, q: nat)
    requires q <= |addrs| && p < |addrs|
    ensures HitsOf(addrs, positions + [p], x, q) ==
            HitsOf(addrs, positions, x, q) + if p < q && addrs[p] == x then 1 else 0
  {
    if q > 0 {
      HitsGrow(addrs, positions, p, x, q - 1);
      CountGrows(positions, p, q - 1);
    }
  }

  lemma {:induction false} NoHits<T>(addrs: seq<T>, x: T, q: nat)
    requires q <= |addrs|
    ensures HitsOf(addrs, [], x, q) == 0
  {
    if q > 0 {
      NoHits(addrs, x, q - 1);
    }
  }

  /** An address is answered as often as its positions are served. */
  lemma {:induction false} AnswersAreHits<T>(addrs: seq<T>, answers: seq<T>, x: T)
    requires InTurn(addrs, answers)
    ensures multiset(answers)[x] == HitsOf(addrs, Positions(0, |answers|, |addrs|), x, |addrs|)
  {
    var n, m := |answers|, |addrs|;
    if n == 0 {
      assert Positions(0, 0, m) == [];
      NoHits(addrs, x, m);
    } else {
      var front, p := answers[..n - 1], (n % WRAP) % m;
      AnswersAreHits(addrs, front, x);
      assert answers == front + [addrs[p]];
      assert Positions(0, n, m) == Positions(0, n - 1, m) + [p];
      HitsGrow(addrs, Positions(0, n - 1, m), p, x, m);
    }
  }

  lemma {:induction false} HitsFair<T>(addrs: seq<T>, n: nat, x: T, q: nat)
    requires addrs != [] && q <= |addrs| && n < WRAP
    ensures var hits := HitsOf(addrs, Positions(0, n, |addrs|), x, q);
            var copies := multiset(addrs[..q])[x];
            copies * (n / |addrs|) <= hits <= copies * ((n + |addrs| - 1) / |addrs|)
  {
    if q > 0 {
      HitsFair(addrs, n, x, q - 1);
      EachPositionFairlyServed(0, n, |addrs|, q - 1);
      assert addrs[..q] == addrs[..q - 1] + [addrs[q - 1]];
      OneMoreTimes(multiset(addrs[..q - 1])[x], n / |addrs|);
      OneMoreTimes(multiset(addrs[..q - 1])[x], (n + |addrs| - 1) / |addrs|);
    }
  }

  lemma OneMoreTimes(a: int, b: int)
    ensures (a + 1) * b == a * b + b
  {
  }

  /** Of the answers before the counter wraps each copy of an address gets the floor or the ceiling of its share. */
  lemma AnswersFair<T>(addrs: seq<T>, answers: seq<T>, x: T)
    requires InTurn(addrs, answers) && |answers| < WRAP
    ensures var n, m, copies := |answers|, |addrs|, multiset(addrs)[x];
            copies * (n / m) <= multiset(answers)[x] <= copies * ((n + m - 1) / m)
  {
    AnswersAreHits(addrs, answers, x);
    HitsFair(addrs, |answers|, x, |addrs|);
    assert addrs[..|addrs|] == addrs;
  }

  ghost predicate Distinct(s: seq<nat>) {
    forall i, j :: 0 <= i < j < |s| ==> s[i] != s[j]
  }

  lemma CloseNumbersDiffer(x: int, y: int, m: int)
    requires m > 0 && x < y < x + m
    ensures x % m != y % m
  {
    var d := y / m - x / m;
    assert y - x == d * m + (y % m - x % m) by {
      assert x == (x / m) * m + x % m && y == (y / m) * m + y % m;
      assert d * m == (y / m) * m - (x / m) * m;
    }
    MultipleOf(d, m);
  }

  lemma ModuloOfMultiple(x: int, a: int, m: int)
    requires m > 0 && a % m == 0
    ensures (x - a) % m == x % m
  {
    var k := a / m;
    assert a == k * m;
    assert x - a == (x / m - k) * m + x % m by {
      assert x == (x / m) * m + x % m;
      assert (x / m - k) * m == (x / m) * m - k * m;
    }
    DivisionUnique(x - a, x / m - k, x % m, m);
  }

  /** A window of `m` tickets crosses the point where the counter wraps in its middle. */
  predicate Straddles(index: nat, m: nat) {
    index + 1 < WRAP <= index + m
  }

  lemma WrappedOnce(x: nat)
    requires WRAP <= x < 2 * WRAP
    ensures x % WRAP == x - WRAP
  {
  }

  lemma TicketsDiffer(x: nat, y: nat, m: nat)
    requires 0 < m <= WRAP && x < y < x + m && y < 2 * WRAP
    requires x >= WRAP || y < WRAP || WRAP % m == 0
    ensures (x % WRAP) % m != (y % WRAP) % m
  {
    if x >= WRAP {
      WrappedOnce(x);
      WrappedOnce(y);
      CloseNumbersDiffer(x - WRAP, y - WRAP, m);
    } else {
      CloseNumbersDiffer(x, y, m);
      if y >= WRAP {
        WrappedOnce(y);
        ModuloOfMultiple(y, WRAP, m);
      }
    }
  }

  lemma UnbrokenWindow(index: nat, m: nat)
    requires 0 < m <= WRAP && index < WRAP
    requires !Straddles(index, m) || WRAP % m == 0
    ensures Distinct(Positions(index, m, m))
  {
    var s := Positions(index, m, m);
    forall i, j | 0 <= i < j < |s|
      ensures s[i] != s[j]
    {
      TicketsDiffer(index + i + 1, index + j + 1, m);
    }
  }

  /** The counter value `d` before the wrap is congruent to `WRAP % m - d`. */
  lemma BeforeWrap(d: nat, m: nat)
    requires 0 < m <= WRAP && d <= WRAP % m
    ensures (WRAP - d) % m == WRAP % m - d
  {
    assert WRAP - d == (WRAP / m) * m + (WRAP % m - d);
    DivisionUnique(WRAP - d, WRAP / m, WRAP % m - d, m);
  }

  /** Two tickets of the window, one before and one after the wrap, for the same position. */
  lemma TicketsMeet(index: nat, m: nat, back: nat, p: nat)
    requires 0 < m <= WRAP && index < WRAP && Straddles(index, m)
    requires 0 < back <= WRAP % m && back < WRAP - index && p == WRAP % m - back <= index + m - WRAP
    ensures !Distinct(Positions(index, m, m))
  {
    var s := Positions(index, m, m);
    var i, j := WRAP - back - index - 1, WRAP + p - index - 1;
    BeforeWrap(back, m);
    WrappedOnce(WRAP + p);
    DivisionUnique(p, 0, p, m);
    assert s[i] == ((index + i + 1) % WRAP) % m == p;
    assert s[j] == ((index + j + 1) % WRAP) % m == p;
  }

  /** A broken window serves one position twice. */
  lemma BrokenWindow(index: nat, m: nat)
    requires 0 < m <= WRAP && index < WRAP
    requires Straddles(index, m) && WRAP % m != 0
    ensures !Distinct(Positions(index, m, m))
  {
    var c, after := WRAP % m, index + m - WRAP;
    var back := if c - 1 <= after then 1 else c - after;
    TicketsMeet(index, m, back, c - back);
  }

  /** `m` consecutive tickets hit each position once, unless they straddle the wrap and `m` does not divide it. */
  lemma WindowHitsEachOnce(index: nat, m: nat)
    requires 0 < m <= WRAP && index < WRAP
    ensures Distinct(Positions(index, m, m)) <==> !Straddles(index, m) || WRAP % m == 0
  {
    if !Straddles(index, m) || WRAP % m == 0 {
      UnbrokenWindow(index, m);
    } else {
      BrokenWindow(index, m);
    }
  }
}
