// Vocabulary shared by every module: optional values, the errors the program
// raises, the textual identifier classes it checks with regular expressions,
// and a stable sort standing for Python's `sorted`.

module Foundations {

  datatype Option<+T> = None | Some(value: T) {
    function GetOr(default: T): T {
      match this
      case Some(v) => v
      case None => default
    }
  }

  // The exceptions that cross the module boundaries of the program.
  // `AdapterError` carries a code; the others do not.
  datatype Error =
    | AdapterError(code: string)
    | OperationCancelled
    | OsError
    | ValueError

  datatype Outcome<+T> = Ok(value: T) | Raised(error: Error)

  // `getattr(error, "code", fallback)`
  function CodeOf(error: Error, fallback: string): string {
    match error
    case AdapterError(code) => code
    case _ => fallback
  }

  // `str.strip` removes these.
  predicate IsSpace(c: char) {
    || '\t' <= c <= '\r' || '\U{1c}' <= c <= ' ' || c == '\U{85}' || c == '\U{a0}' || c == '\U{1680}'
    || '\U{2000}' <= c <= '\U{200a}' || c == '\U{2028}' || c == '\U{2029}' || c == '\U{202f}' || c == '\U{205f}'
    || c == '\U{3000}'
  }

  predicate Blank(s: string) {
    forall i | 0 <= i < |s| :: IsSpace(s[i])
  }

  // Time is counted in microseconds, the resolution of Python's datetime.
  const MINUTES: int := 60_000_000
  const DAYS: int := 24 * 60 * MINUTES

  predicate IsLowerHex(c: char) {
    '0' <= c <= '9' || 'a' <= c <= 'f'
  }

  predicate IsAlphanumeric(c: char) {
    'A' <= c <= 'Z' || 'a' <= c <= 'z' || '0' <= c <= '9'
  }

  // [0-9a-f]{64}
  predicate IsDigest(s: string) {
    |s| == 64 && forall i | 0 <= i < |s| :: IsLowerHex(s[i])
  }

  // [A-Za-z0-9][A-Za-z0-9._:-]{0,127}
  predicate IsIdentifier(s: string) {
    && 1 <= |s| <= 128
    && IsAlphanumeric(s[0])
    && forall i | 0 <= i < |s| :: IsAlphanumeric(s[i]) || s[i] in "._:-"
  }

  // SHA256:[A-Za-z0-9+/]{43}
  predicate IsFingerprint(s: string) {
    && |s| == 50
    && s[..7] == "SHA256:"
    && forall i | 7 <= i < 50 :: IsAlphanumeric(s[i]) || s[i] in "+/"
  }

  const ZERO_DIGEST: string := seq(64, _ => '0')

  // What hashlib.sha256(...).hexdigest() returns.
  type Digest = s: string | IsDigest(s) witness ZERO_DIGEST

  ghost predicate Distinct<T>(xs: seq<T>) {
    forall i, j | 0 <= i < j < |xs| :: xs[i] != xs[j]
  }

  function Elements<T>(xs: seq<T>): set<T> {
    set x | x in xs
  }

  function Min(a: int, b: int): int {
    if a <= b then a else b
  }

  lemma SubsetCardinality<T>(a: set<T>, b: set<T>)
    requires a <= b
    ensures |a| <= |b|
  {
    if a != {} {
      var x :| x in a;
      SubsetCardinality(a - {x}, b - {x});
    }
  }

  // Every finite set can be listed.
  lemma Arrange<T>(members: set<T>) returns (xs: seq<T>)
    ensures Distinct(xs) && Elements(xs) == members
  {
    var pending := members;
    xs := [];
    while pending != {}
      invariant Distinct(xs) && Elements(xs) !! pending && Elements(xs) + pending == members
    {
      var x :| x in pending;
      pending := pending - {x};
      assert x !in Elements(xs) && Elements(xs + [x]) == Elements(xs) + {x};
      xs := xs + [x];
    }
  }

  // `len(set(values)) == len(values)`
  lemma DistinctCardinality<T>(xs: seq<T>)
    ensures |Elements(xs)| <= |xs|
    ensures |Elements(xs)| == |xs| <==> Distinct(xs)
  {
    if xs != [] {
      var init, last := xs[..|xs| - 1], xs[|xs| - 1];
      DistinctCardinality(init);
      assert Elements(xs) == Elements(init) + {last};
      if last in init {
        assert Elements(xs) == Elements(init);
        var i :| 0 <= i < |init| && init[i] == last;
        assert xs[i] == xs[|xs| - 1];
      } else {
        assert Distinct(xs) <==> Distinct(init) by {
          if Distinct(init) {
            forall i, j | 0 <= i < j < |xs| ensures xs[i] != xs[j] {
              if j < |init| { assert init[i] != init[j]; } else { assert init[i] in init; }
            }
          }
          if Distinct(xs) {
            forall i, j | 0 <= i < j < |init| ensures init[i] != init[j] {
              assert xs[i] != xs[j];
            }
          }
        }
      }
    }
  }
}

// Python's `sorted(values, key=..., reverse=True)`: a stable sort.
module Sorting {
  import opened Foundations

  // `before` is a strict weak order: whoever is not before is not before
  // transitively, and nothing is before itself or before its predecessor.
  ghost predicate WeakOrder<T(!new)>(before: (T, T) -> bool) {
    && (forall a, b | before(a, b) :: !before(b, a))
    && (forall a, b, c | !before(a, b) && !before(b, c) :: !before(a, c))
  }

  ghost predicate Ordered<T>(xs: seq<T>, before: (T, T) -> bool) {
    forall i, j | 0 <= i < j < |xs| :: !before(xs[j], xs[i])
  }

  // Place `x` after every element it is not strictly before.
  function Insert<T>(x: T, xs: seq<T>, before: (T, T) -> bool): (r: seq<T>)
    ensures multiset(r) == multiset(xs) + multiset{x}
  {
    if xs == [] || !before(x, xs[|xs| - 1]) then xs + [x]
    else
      assert xs == xs[..|xs| - 1] + [xs[|xs| - 1]];
      Insert(x, xs[..|xs| - 1], before) + [xs[|xs| - 1]]
  }

  function Sort<T>(xs: seq<T>, before: (T, T) -> bool): (r: seq<T>)
    ensures multiset(r) == multiset(xs)
  {
    if xs == [] then []
    else
      assert xs == xs[..|xs| - 1] + [xs[|xs| - 1]];
      Insert(xs[|xs| - 1], Sort(xs[..|xs| - 1], before), before)
  }

  lemma {:induction false} InsertOrdered<T(!new)>(x: T, xs: seq<T>, before: (T, T) -> bool)
    requires WeakOrder(before) && Ordered(xs, before)
    ensures Ordered(Insert(x, xs, before), before)
  {
    if xs == [] || !before(x, xs[|xs| - 1]) {
      forall i | 0 <= i < |xs| ensures !before(x, xs[i]) {
        if i < |xs| - 1 { assert !before(xs[|xs| - 1], xs[i]); }
      }
    } else {
      var init, last := xs[..|xs| - 1], xs[|xs| - 1];
      InsertOrdered(x, init, before);
      var r := Insert(x, init, before);
      forall i | 0 <= i < |r| ensures !before(last, r[i]) {
        assert r[i] in multiset(r);
        assert r[i] == x || r[i] in init;
      }
    }
  }

  lemma {:induction false} SortOrdered<T(!new)>(xs: seq<T>, before: (T, T) -> bool)
    requires WeakOrder(before)
    ensures Ordered(Sort(xs, before), before)
  {
    if xs != [] {
      SortOrdered(xs[..|xs| - 1], before);
      InsertOrdered(xs[|xs| - 1], Sort(xs[..|xs| - 1], before), before);
    }
  }

  // Equal bags have the same members and the same length.
  lemma SameBag<T>(a: seq<T>, b: seq<T>)
    requires multiset(a) == multiset(b)
    ensures |a| == |b|
    ensures forall x :: x in a <==> x in b
  {
    assert |multiset(a)| == |a| && |multiset(b)| == |b|;
    forall x ensures x in a <==> x in b {
      assert x in a <==> x in multiset(a);
      assert x in b <==> x in multiset(b);
    }
  }

  // A sequence is duplicate-free exactly when its bag holds each element once.
  lemma DistinctBag<T>(a: seq<T>)
    ensures Distinct(a) <==> forall x | x in a :: multiset(a)[x] == 1
  {
    if a != [] {
      var init, last := a[..|a| - 1], a[|a| - 1];
      assert a == init + [last];
      DistinctBag(init);
      if last in init {
        assert multiset(a)[last] >= 2;
        var i :| 0 <= i < |init| && init[i] == last;
        assert a[i] == a[|a| - 1];
      } else {
        assert multiset(init)[last] == 0;
        forall x | x in init ensures multiset(a)[x] == multiset(init)[x] {}
        assert forall x | x in a :: x == last || x in init;
        if forall x | x in init :: multiset(init)[x] == 1 {
          forall i, j | 0 <= i < j < |a| ensures a[i] != a[j] {
            assert init[i] in init;
          }
        }
        if forall i, j | 0 <= i < j < |a| :: a[i] != a[j] {
          assert forall i, j | 0 <= i < j < |init| :: init[i] == a[i] && init[j] == a[j];
        }
      }
    }
  }

  // Sorting keeps a duplicate-free sequence duplicate-free.
  lemma SortDistinct<T>(xs: seq<T>, before: (T, T) -> bool)
    requires Distinct(xs)
    ensures Distinct(Sort(xs, before))
  {
    DistinctBag(xs);
    DistinctBag(Sort(xs, before));
    SameBag(xs, Sort(xs, before));
  }

  lemma HasMember<T>(xs: seq<T>)
    ensures xs == [] || xs[0] in xs
  {
  }

  ghost predicate Strict<T>(xs: seq<T>, before: (T, T) -> bool) {
    forall i, j | 0 <= i < j < |xs| :: before(xs[i], xs[j])
  }

  lemma HeadIsFirst<T>(xs: seq<T>, before: (T, T) -> bool, i: nat)
    requires Strict(xs, before) && i < |xs|
    ensures i == 0 || before(xs[0], xs[i])
  {
  }

  lemma TailMembers<T(!new)>(xs: seq<T>, before: (T, T) -> bool)
    requires Strict(xs, before) && xs != []
    requires forall x, y | before(x, y) :: !before(y, x)
    ensures Strict(xs[1..], before)
    ensures forall x :: x in xs[1..] <==> x in xs && x != xs[0]
  {
    assert xs == [xs[0]] + xs[1..];
    forall i | 0 <= i < |xs[1..]| ensures xs[1..][i] != xs[0] {
      assert before(xs[0], xs[i + 1]);
    }
  }

  // Two sequences with the same members, both strictly ordered by an asymmetric
  // relation, are the same sequence.
  lemma {:induction false} StrictListingUnique<T(!new)>(a: seq<T>, b: seq<T>, before: (T, T) -> bool)
    requires forall x, y | before(x, y) :: !before(y, x)
    requires Strict(a, before) && Strict(b, before)
    requires forall x :: x in a <==> x in b
    ensures a == b
  {
    HasMember(a);
    HasMember(b);
    if a != [] && b != [] {
      var i :| 0 <= i < |b| && b[i] == a[0];
      var j :| 0 <= j < |a| && a[j] == b[0];
      HeadIsFirst(b, before, i);
      HeadIsFirst(a, before, j);
      assert i == 0;
      TailMembers(a, before);
      TailMembers(b, before);
      StrictListingUnique(a[1..], b[1..], before);
      assert a == [a[0]] + a[1..] && b == [b[0]] + b[1..];
    }
  }

  // Code-point order on strings, Python's `<` on str.
  predicate LexLess(a: string, b: string) {
    if b == [] then false
    else if a == [] then true
    else a[0] < b[0] || (a[0] == b[0] && LexLess(a[1..], b[1..]))
  }

  lemma {:induction false} LexOrder(a: string, b: string)
    ensures !(LexLess(a, b) && LexLess(b, a))
    ensures !LexLess(a, b) && !LexLess(b, a) <==> a == b
  {
    if a != [] && b != [] && a[0] == b[0] {
      LexOrder(a[1..], b[1..]);
      assert a == [a[0]] + a[1..] && b == [b[0]] + b[1..];
    }
  }

  lemma {:induction false} LexNegativelyTransitive(a: string, b: string, c: string)
    requires !LexLess(a, b) && !LexLess(b, c)
    ensures !LexLess(a, c)
  {
    if a != [] && b != [] && c != [] && a[0] == b[0] == c[0] {
      LexNegativelyTransitive(a[1..], b[1..], c[1..]);
    }
  }

  lemma LexAsymmetric()
    ensures forall x, y | LexLess(x, y) :: !LexLess(y, x)
  {
    forall x, y | LexLess(x, y) ensures !LexLess(y, x) {
      LexOrder(x, y);
    }
  }

  lemma LexIsWeakOrder()
    ensures WeakOrder(LexLess)
  {
    LexAsymmetric();
    forall a, b, c | !LexLess(a, b) && !LexLess(b, c) ensures !LexLess(a, c) {
      LexNegativelyTransitive(a, b, c);
    }
  }
}

// Runs of a state machine, and the one induction every safety result needs.
module Machines {

  ghost predicate Run<S(!new)>(states: seq<S>, moves: (S, S) -> bool) {
    && states != []
    && forall i | 0 <= i < |states| - 1 :: moves(states[i], states[i + 1])
  }

  // What holds at the start and is kept by every move holds all along a run.
  lemma {:induction false} HoldsAlongRun<S(!new)>(states: seq<S>, moves: (S, S) -> bool, holds: S -> bool)
    requires Run(states, moves)
    requires holds(states[0])
    requires forall a, b | holds(a) && moves(a, b) :: holds(b)
    ensures forall i | 0 <= i < |states| :: holds(states[i])
  {
    var n := 1;
    while n < |states|
      invariant 1 <= n <= |states|
      invariant forall i | 0 <= i < n :: holds(states[i])
    {
      assert moves(states[n - 1], states[n - 1 + 1]);
      n := n + 1;
    }
  }
}
