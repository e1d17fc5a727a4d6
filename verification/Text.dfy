/**
 The string operations the controller relies on.  A Go string is a sequence of
 bytes; here one `char` stands for one byte, so `|s|` is Go's `len(s)`.
 */
module Text {
  import opened Wrappers

  /** Go's `a < b` on strings. */
  predicate Before(a: string, b: string) {
    |b| > 0 && (|a| == 0 || a[0] < b[0] || (a[0] == b[0] && Before(a[1..], b[1..])))
  }

  lemma {:induction false} BeforeIrreflexive(a: string)
    ensures !Before(a, a)
  {
    if a != [] {
      BeforeIrreflexive(a[1..]);
    }
  }

  lemma {:induction false} BeforeTransitive(a: string, b: string, c: string)
    requires Before(a, b) && Before(b, c)
    ensures Before(a, c)
  {
    if a != [] && a[0] == b[0] == c[0] {
      BeforeTransitive(a[1..], b[1..], c[1..]);
    }
  }

  lemma {:induction false} BeforeTotal(a: string, b: string)
    ensures a == b || Before(a, b) || Before(b, a)
  {
    if a != [] && b != [] && a[0] == b[0] {
      BeforeTotal(a[1..], b[1..]);
      assert a == [a[0]] + a[1..] && b == [b[0]] + b[1..];
    }
  }

  /** The first byte in which the strings differ decides; a string comes before its continuations. */
  ghost predicate Lexically(a: string, b: string) {
    exists n: nat :: DiffersAt(a, b, n)
  }

  ghost predicate DiffersAt(a: string, b: string, n: nat) {
    n <= |a| && n < |b| && a[..n] == b[..n] && (n == |a| || a[n] < b[n])
  }

  lemma {:induction false} BeforeDiffers(a: string, b: string) returns (n: nat)
    requires Before(a, b)
    ensures DiffersAt(a, b, n)
  {
    if a != [] && a[0] == b[0] {
      var m := BeforeDiffers(a[1..], b[1..]);
      n := m + 1;
      assert a[..n] == [a[0]] + a[1..][..m] && b[..n] == [b[0]] + b[1..][..m];
    } else {
      n := 0;
    }
  }

  lemma {:induction false} DiffersBefore(a: string, b: string, n: nat)
    requires DiffersAt(a, b, n)
    ensures Before(a, b)
  {
    if n > 0 {
      assert a[0] == a[..n][0] == b[..n][0] == b[0];
      assert a[1..][..n - 1] == a[..n][1..] == b[..n][1..] == b[1..][..n - 1];
      DiffersBefore(a[1..], b[1..], n - 1);
    }
  }

  lemma BeforeIsLexical(a: string, b: string)
    ensures Before(a, b) <==> Lexically(a, b)
  {
    if Before(a, b) {
      var n := BeforeDiffers(a, b);
    }
    if n: nat :| DiffersAt(a, b, n) {
      DiffersBefore(a, b, n);
    }
  }

  /** `strings.HasPrefix`. */
  predicate HasPrefix(s: string, p: string) {
    p <= s
  }

  /** `strings.HasSuffix`. */
  predicate HasSuffix(s: string, p: string) {
    |p| <= |s| && s[|s| - |p|..] == p
  }

  /** `strings.Split` for a one-byte separator. */
  function Split(s: string, sep: char): (parts: seq<string>)
    ensures |parts| > 0
  {
    if s == [] then [[]]
    else
      var rest := Split(s[1..], sep);
      if s[0] == sep then [[]] + rest else [[s[0]] + rest[0]] + rest[1..]
  }

  /** `strings.Join` for a one-byte separator. */
  function Join(parts: seq<string>, sep: char): string {
    if |parts| == 0 then []
    else if |parts| == 1 then parts[0]
    else parts[0] + [sep] + Join(parts[1..], sep)
  }

  lemma {:induction false} JoinSplit(s: string, sep: char)
    ensures Join(Split(s, sep), sep) == s
  {
    if s != [] {
      var rest := Split(s[1..], sep);
      JoinSplit(s[1..], sep);
      if s[0] == sep {
        assert ([[]] + rest)[1..] == rest;
      } else {
        var parts := [[s[0]] + rest[0]] + rest[1..];
        assert parts[1..] == rest[1..];
        assert Join(parts, sep) == [s[0]] + Join(rest, sep);
      }
    }
  }

  lemma {:induction false} SplitConcat(a: string, b: string, sep: char)
    ensures Split(a + [sep] + b, sep) == Split(a, sep) + Split(b, sep)
  {
    var s := a + [sep] + b;
    if a == [] {
      assert s[1..] == b;
    } else {
      assert s[1..] == a[1..] + [sep] + b;
      SplitConcat(a[1..], b, sep);
    }
  }

  lemma {:induction false} JoinConcat(a: seq<string>, b: seq<string>, sep: char)
    requires |a| > 0 && |b| > 0
    ensures Join(a + b, sep) == Join(a, sep) + [sep] + Join(b, sep)
  {
    if |a| == 1 {
      assert (a + b)[1..] == b;
    } else {
      assert (a + b)[1..] == a[1..] + b;
      JoinConcat(a[1..], b, sep);
    }
  }

  lemma ListPrefixIsContinuation(p: string, s: string, sep: char)
    requires Split(p, sep) <= Split(s, sep)
    ensures s == p || p + [sep] <= s
  {
    var ps, ss := Split(p, sep), Split(s, sep);
    var rest := ss[|ps|..];
    assert ss == ps + rest;
    JoinSplit(p, sep);
    JoinSplit(s, sep);
    if rest == [] {
      assert ss == ps;
    } else {
      JoinConcat(ps, rest, sep);
    }
  }

  /** Splitting turns "is `p`, or continues `p` after a separator" into "is a list prefix". */
  lemma ElementPrefix(p: string, s: string, sep: char)
    ensures Split(p, sep) <= Split(s, sep) <==> (s == p || p + [sep] <= s)
  {
    if Split(p, sep) <= Split(s, sep) {
      ListPrefixIsContinuation(p, s, sep);
    }
    if p + [sep] <= s {
      var rest := s[|p| + 1..];
      assert s == p + [sep] + rest;
      SplitConcat(p, rest, sep);
    }
  }

  lemma {:induction false} SplitWithoutSeparator(s: string, sep: char)
    requires sep !in s
    ensures Split(s, sep) == [s]
  {
    if s != [] {
      SplitWithoutSeparator(s[1..], sep);
      assert s == [s[0]] + s[1..];
    }
  }

  /** What follows the first separator, if there is one. */
  function AfterFirst(s: string, sep: char): Option<string> {
    if s == [] then None
    else if s[0] == sep then Some(s[1..])
    else AfterFirst(s[1..], sep)
  }

  lemma {:induction false} AfterFirstCuts(s: string, sep: char) returns (lead: string)
    ensures sep !in lead
    ensures match AfterFirst(s, sep)
            case None => s == lead
            case Some(d) => s == lead + [sep] + d
  {
    if s == [] {
      lead := [];
    } else if s[0] == sep {
      lead := [];
      assert s == [] + [sep] + s[1..];
    } else {
      var rest := AfterFirstCuts(s[1..], sep);
      lead := [s[0]] + rest;
      assert s == [s[0]] + s[1..];
    }
  }

  lemma {:induction false} AfterFirstUnique(lead: string, d: string, sep: char)
    requires sep !in lead
    ensures AfterFirst(lead + [sep] + d, sep) == Some(d)
  {
    var s := lead + [sep] + d;
    if lead == [] {
      assert s[1..] == d;
    } else {
      assert s[1..] == lead[1..] + [sep] + d;
      AfterFirstUnique(lead[1..], d, sep);
    }
  }

  /** The wildcard name both lookups build: split at ".", put "*" first, join again. */
  function WildcardName(host: string): string {
    Join(Split(host, '.')[0 := "*"], '.')
  }

  /** The split/join round trip replaces exactly the left-most label. */
  lemma WildcardReplacesFirstLabel(host: string)
    ensures WildcardName(host) == match AfterFirst(host, '.') { case None => "*" case Some(d) => "*." + d }
  {
    var lead := AfterFirstCuts(host, '.');
    SplitWithoutSeparator(lead, '.');
    match AfterFirst(host, '.') {
      case None =>
      case Some(d) =>
        SplitConcat(lead, d, '.');
        assert Split(host, '.') == [lead] + Split(d, '.');
        assert Split(host, '.')[0 := "*"] == ["*"] + Split(d, '.');
        JoinConcat(["*"], Split(d, '.'), '.');
        JoinSplit(d, '.');
        assert "*" + ['.'] + d == "*." + d;
    }
  }

  /** A wildcard stands for exactly one dot-free label (section 6.4.3 of RFC 6125). */
  lemma WildcardCoversOneLabel(host: string, d: string)
    ensures WildcardName(host) == "*." + d <==> exists lead :: '.' !in lead && host == lead + "." + d
  {
    WildcardReplacesFirstLabel(host);
    var first := AfterFirstCuts(host, '.');
    if WildcardName(host) == "*." + d {
      assert |"*." + d| > |"*"|;
      var rest := AfterFirst(host, '.').value;
      assert rest == ("*." + rest)[2..] == ("*." + d)[2..] == d;
      assert host == first + "." + d;
    }
    if lead :| '.' !in lead && host == lead + "." + d {
      AfterFirstUnique(lead, d, '.');
    }
  }

  /** Two hosts share a wildcard key iff they agree after the first label. */
  lemma SharedWildcard(a: string, b: string)
    ensures WildcardName(a) == WildcardName(b) <==> AfterFirst(a, '.') == AfterFirst(b, '.')
  {
    WildcardReplacesFirstLabel(a);
    WildcardReplacesFirstLabel(b);
    match (AfterFirst(a, '.'), AfterFirst(b, '.')) {
      case (Some(x), Some(y)) =>
        assert x == ("*." + x)[2..] && y == ("*." + y)[2..];
      case (Some(x), None) =>
        assert |"*." + x| > |"*"|;
      case (None, Some(y)) =>
        assert |"*." + y| > |"*"|;
      case (None, None) =>
    }
  }
}
