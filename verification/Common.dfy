/**
 Shared vocabulary: optional values, 64-bit unsigned arithmetic with its wrap-around written out,
 the byte order on strings, the sort used by every `sort.Slice` call, and sums over maps.
 */
module Common {
  import opened Arithmetic

  datatype Option<+T> = None | Some(value: T)

  // ---------------------------------------------------------------- uint64

  const U64: nat := 0x1_0000_0000_0000_0000

  /** The uint64 that a machine `+` or `*` with mathematical result `n` leaves behind. */
  function Wrap(n: nat): (r: nat)
    ensures r < U64 && r <= n
    ensures n < U64 ==> r == n
  {
    n % U64
  }

  lemma WrapAdd(a: nat, b: nat)
    ensures Wrap(Wrap(a) + b) == Wrap(a + b)
  {
    assert a + b == Wrap(a) + b + U64 * (a / U64);
  }

  lemma WrapMul(a: nat, b: nat)
    ensures Wrap(Wrap(a) * b) == Wrap(a * b)
  {
    var q, w := a / U64, Wrap(a);
    assert a == U64 * q + w;
    Distributes(U64 * q, w, b);
    assert U64 * q * b == U64 * (q * b);
    WrapShift(w * b, q * b);
  }

  lemma WrapShift(n: nat, k: nat)
    ensures Wrap(n + U64 * k) == Wrap(n)
  {
    assert n == U64 * (n / U64) + Wrap(n);
    assert n + U64 * k == U64 * (n / U64 + k) + Wrap(n);
  }

  /** Dividing a wrapped number gives the exact quotient exactly when nothing wrapped. */
  lemma FloorOfWrap(n: nat, d: nat)
    requires 0 < d < U64
    ensures Floor(Wrap(n), d) == Floor(n, d) <==> n < U64
  {
    if n >= U64 {
      assert Wrap(n) <= n - U64;
      var q := Floor(Wrap(n), d);
      FloorIsMost(Wrap(n), d, q);
      FloorIsMost(n, d, q + 1);
      Distributes(q, 1, d);
    }
  }

  /** `safeAdd`: None exactly when the uint64 sum would overflow. */
  function SafeAdd(a: nat, b: nat): Option<nat>
  {
    if a + b >= U64 then None else Some(a + b)
  }

  function Min(a: int, b: int): int { if a < b then a else b }

  function Max(a: int, b: int): int { if a < b then b else a }

  // ---------------------------------------------------------------- strings

  /** Lexicographic order on strings, as Go's and JavaScript's `<` have it. */
  predicate StrLess(a: string, b: string)
  {
    b != "" && (a == "" || a[0] < b[0] || (a[0] == b[0] && StrLess(a[1..], b[1..])))
  }

  /** ASCII lower-casing; the strings it is applied to are hexadecimal. */
  function Lower(s: string): string
  {
    seq(|s|, i requires 0 <= i < |s| => if 'A' <= s[i] <= 'Z' then s[i] - 'A' + 'a' else s[i])
  }

  lemma {:induction false} StrIrreflexive(a: string)
    ensures !StrLess(a, a)
  {
    if a != "" { StrIrreflexive(a[1..]); }
  }

  lemma {:induction false} StrTransitive(a: string, b: string, c: string)
    requires StrLess(a, b) && StrLess(b, c)
    ensures StrLess(a, c)
  {
    if a != "" && a[0] == b[0] && b[0] == c[0] {
      StrTransitive(a[1..], b[1..], c[1..]);
    }
  }

  lemma {:induction false} StrTotal(a: string, b: string)
    ensures a == b || StrLess(a, b) || StrLess(b, a)
  {
    if a != "" && b != "" && a[0] == b[0] {
      StrTotal(a[1..], b[1..]);
      assert a == [a[0]] + a[1..] && b == [b[0]] + b[1..];
    }
  }

  // ---------------------------------------------------------------- sorting

  /** `less` is a strict total order on the elements of `dom`. */
  ghost predicate StrictTotal<T>(less: (T, T) -> bool, dom: set<T>)
  {
    && (forall x <- dom :: !less(x, x))
    && (forall x <- dom, y <- dom :: x == y || less(x, y) || less(y, x))
    && (forall x <- dom, y <- dom, z <- dom :: less(x, y) && less(y, z) ==> less(x, z))
  }

  ghost predicate Sorted<T>(less: (T, T) -> bool, s: seq<T>)
  {
    forall i, j :: 0 <= i < j < |s| ==> !less(s[j], s[i])
  }

  ghost predicate Within<T>(s: seq<T>, dom: set<T>)
  {
    forall i :: 0 <= i < |s| ==> s[i] in dom
  }

  function Insert<T>(less: (T, T) -> bool, x: T, s: seq<T>): seq<T>
  {
    if s == [] || !less(s[0], x) then [x] + s else [s[0]] + Insert(less, x, s[1..])
  }

  /** The sequence `sort.Slice` leaves behind when its comparison is a strict total order. */
  function SortBy<T>(less: (T, T) -> bool, s: seq<T>): seq<T>
  {
    if s == [] then [] else Insert(less, s[0], SortBy(less, s[1..]))
  }

  lemma {:induction false} InsertPermutes<T>(less: (T, T) -> bool, x: T, s: seq<T>)
    ensures multiset(Insert(less, x, s)) == multiset{x} + multiset(s)
  {
    if s != [] && less(s[0], x) {
      InsertPermutes(less, x, s[1..]);
      assert s == [s[0]] + s[1..];
    }
  }

  lemma {:induction false} SortPermutes<T>(less: (T, T) -> bool, s: seq<T>)
    ensures multiset(SortBy(less, s)) == multiset(s)
    ensures |SortBy(less, s)| == |s|
  {
    if s != [] {
      SortPermutes(less, s[1..]);
      InsertPermutes(less, s[0], SortBy(less, s[1..]));
      assert s == [s[0]] + s[1..];
    }
    assert |multiset(SortBy(less, s))| == |multiset(s)|;
  }

  lemma WithinPermutes<T>(a: seq<T>, b: seq<T>, dom: set<T>)
    requires multiset(a) == multiset(b) && Within(a, dom)
    ensures Within(b, dom)
  {
    forall i | 0 <= i < |b| ensures b[i] in dom {
      assert b[i] in multiset(b);
      assert b[i] in a;
    }
  }

  lemma {:induction false} InsertSorted<T>(less: (T, T) -> bool, x: T, s: seq<T>, dom: set<T>)
    requires StrictTotal(less, dom) && x in dom && Within(s, dom) && Sorted(less, s)
    ensures Sorted(less, Insert(less, x, s)) && Within(Insert(less, x, s), dom)
    // every element of the result is x or at least the first element of s
    ensures forall y :: y in dom && !less(x, y) && (forall i :: 0 <= i < |s| ==> !less(s[i], y))
              ==> forall j :: 0 <= j < |Insert(less, x, s)| ==> !less(Insert(less, x, s)[j], y)
  {
    if s == [] || !less(s[0], x) {
      var r := [x] + s;
      forall i, j | 0 <= i < j < |r| ensures !less(r[j], r[i]) {
        if i == 0 && j > 1 {
          assert !less(s[j - 1], s[0]);
        }
      }
    } else {
      InsertSorted(less, x, s[1..], dom);
      assert forall i :: 0 <= i < |s[1..]| ==> !less(s[1..][i], s[0]);
    }
  }

  lemma {:induction false} SortSorts<T>(less: (T, T) -> bool, s: seq<T>, dom: set<T>)
    requires StrictTotal(less, dom) && Within(s, dom)
    ensures Sorted(less, SortBy(less, s)) && Within(SortBy(less, s), dom)
  {
    if s != [] {
      SortSorts(less, s[1..], dom);
      InsertSorted(less, s[0], SortBy(less, s[1..]), dom);
    }
  }

  lemma SortedHeads<T>(less: (T, T) -> bool, a: seq<T>, b: seq<T>, dom: set<T>)
    requires StrictTotal(less, dom) && Within(a, dom) && Within(b, dom)
    requires a != [] && b != [] && a[0] in b && b[0] in a
    requires Sorted(less, a) && Sorted(less, b)
    ensures a[0] == b[0]
  {
    var i :| 0 <= i < |b| && b[i] == a[0];
    var j :| 0 <= j < |a| && a[j] == b[0];
    assert a[0] in dom && b[0] in dom;
  }

  /** A strict total order leaves one sorted arrangement of a multiset. */
  lemma {:induction false} SortedUnique<T>(less: (T, T) -> bool, a: seq<T>, b: seq<T>, dom: set<T>)
    requires multiset(a) == multiset(b)
    requires StrictTotal(less, dom) && Within(a, dom) && Within(b, dom)
    requires Sorted(less, a) && Sorted(less, b)
    ensures a == b
  {
    assert |multiset(a)| == |multiset(b)|;
    if a != [] {
      assert a[0] in multiset(b) && b[0] in multiset(a);
      SortedHeads(less, a, b, dom);
      SameTails(a, b);
      SortedUnique(less, a[1..], b[1..], dom);
    }
  }

  lemma SameTails<T>(a: seq<T>, b: seq<T>)
    requires a != [] && b != [] && a[0] == b[0] && multiset(a) == multiset(b)
    ensures multiset(a[1..]) == multiset(b[1..]) && (a[1..] == b[1..] ==> a == b)
  {
    assert a == [a[0]] + a[1..] && b == [b[0]] + b[1..];
    assert multiset(a[1..]) == multiset(a) - multiset{a[0]};
    assert multiset(b[1..]) == multiset(b) - multiset{b[0]};
  }

  /** So sorting forgets the order its input came in. */
  lemma SortIsOrderIndependent<T>(less: (T, T) -> bool, a: seq<T>, b: seq<T>, dom: set<T>)
    requires multiset(a) == multiset(b) && StrictTotal(less, dom) && Within(a, dom)
    ensures SortBy(less, a) == SortBy(less, b)
  {
    WithinPermutes(a, b, dom);
    SortPermutes(less, a);
    SortPermutes(less, b);
    SortSorts(less, a, dom);
    SortSorts(less, b, dom);
    SortedUnique(less, SortBy(less, a), SortBy(less, b), dom);
  }

  // A Go map is walked in an unspecified order; what is listed from it is a permutation of a set.

  /** Some listing of `s`. */
  ghost function ListOf<T>(s: set<T>): seq<T>
  {
    if s == {} then [] else
    var x :| x in s;
    [x] + ListOf(s - {x})
  }

  lemma {:induction false} ListOfLists<T>(s: set<T>)
    ensures multiset(ListOf(s)) == multiset(s) && Within(ListOf(s), s)
  {
    if s != {} {
      var x :| x in s && ListOf(s) == [x] + ListOf(s - {x});
      ListOfLists(s - {x});
      assert multiset(s) == multiset{x} + multiset(s - {x});
    }
  }

  /** Whatever order a set was listed in, sorting the listing gives one result. */
  lemma SortedListingUnique<T>(less: (T, T) -> bool, xs: seq<T>, s: set<T>)
    requires multiset(xs) == multiset(s) && StrictTotal(less, s)
    ensures SortBy(less, xs) == SortBy(less, ListOf(s))
    ensures multiset(SortBy(less, xs)) == multiset(s)
  {
    ListOfLists(s);
    WithinPermutes(ListOf(s), xs, s);
    SortIsOrderIndependent(less, xs, ListOf(s), s);
    SortPermutes(less, xs);
  }

  /** List a set in an arbitrary order and sort the listing. */
  method SortedListing<T(==)>(less: (T, T) -> bool, s: set<T>) returns (sorted: seq<T>)
    requires StrictTotal(less, s)
    ensures sorted == SortBy(less, ListOf(s)) && multiset(sorted) == multiset(s)
  {
    var xs, rest := [], s;
    while rest != {}
      invariant rest <= s && multiset(xs) + multiset(rest) == multiset(s)
      decreases rest
    {
      var x :| x in rest;
      assert multiset(rest) == multiset{x} + multiset(rest - {x});
      xs, rest := xs + [x], rest - {x};
    }
    SortedListingUnique(less, xs, s);
    sorted := SortBy(less, xs);
  }

  lemma StrLessStrictTotal(dom: set<string>)
    ensures StrictTotal(StrLess, dom)
  {
    forall a: string ensures !StrLess(a, a) { StrIrreflexive(a); }
    forall a: string, b: string ensures a == b || StrLess(a, b) || StrLess(b, a) { StrTotal(a, b); }
    forall a: string, b: string, c: string | StrLess(a, b) && StrLess(b, c) ensures StrLess(a, c) {
      StrTransitive(a, b, c);
    }
  }

  // ---------------------------------------------------------------- partial folds

  /** Run `step` over `xs` in order, `k` counting positions, until it first refuses. */
  ghost function Fold<S, T>(step: (S, T, nat) -> Option<S>, s: S, xs: seq<T>, k: nat): Option<S>
    decreases |xs|
  {
    if xs == [] then Some(s) else
    match step(s, xs[0], k)
    case None => None
    case Some(next) => Fold(step, next, xs[1..], k + 1)
  }

  lemma {:induction false} FoldAppend<S, T>(step: (S, T, nat) -> Option<S>, s: S, a: seq<T>, b: seq<T>, k: nat)
    ensures Fold(step, s, a + b, k) ==
            match Fold(step, s, a, k)
            case None => None
            case Some(next) => Fold(step, next, b, k + |a|)
    decreases |a|
  {
    if a == [] {
      assert a + b == b;
    } else {
      assert (a + b)[1..] == a[1..] + b;
      var next := step(s, a[0], k);
      if next.Some? { FoldAppend(step, next.value, a[1..], b, k + 1); }
    }
  }

  /** What every step keeps, the fold keeps. */
  lemma {:induction false} FoldKeeps<S, T>(step: (S, T, nat) -> Option<S>, inv: (S, nat) -> bool, s: S, xs: seq<T>,
                                           k: nat)
    requires inv(s, k) && Fold(step, s, xs, k).Some?
    requires forall s: S, x: T, k: nat :: inv(s, k) && step(s, x, k).Some? ==> inv(step(s, x, k).value, k + 1)
    ensures inv(Fold(step, s, xs, k).value, k + |xs|)
    decreases |xs|
  {
    if xs != [] { FoldKeeps(step, inv, step(s, xs[0], k).value, xs[1..], k + 1); }
  }

  /** One more element at the end. */
  lemma FoldSnoc<S, T>(step: (S, T, nat) -> Option<S>, s: S, xs: seq<T>, i: nat, k: nat)
    requires i < |xs|
    ensures Fold(step, s, xs[..i + 1], k) ==
            match Fold(step, s, xs[..i], k)
            case None => None
            case Some(next) => step(next, xs[i], k + i)
  {
    assert xs[..i + 1] == xs[..i] + [xs[i]];
    FoldAppend(step, s, xs[..i], [xs[i]], k);
    var at := Fold(step, s, xs[..i], k);
    if at.Some? { assert [xs[i]][1..] == []; }
  }

  lemma FoldRefused<S, T>(step: (S, T, nat) -> Option<S>, s: S, xs: seq<T>, i: nat, k: nat)
    requires i <= |xs| && Fold(step, s, xs[..i], k).None?
    ensures Fold(step, s, xs, k).None?
  {
    assert xs == xs[..i] + xs[i..];
    FoldAppend(step, s, xs[..i], xs[i..], k);
  }

  // ---------------------------------------------------------------- maps

  /** The value held for `k`, zero when there is none: how Go reads a missing map entry. */
  function At<K>(m: map<K, nat>, k: K): nat
  {
    if k in m then m[k] else 0
  }

  ghost function MapSum<K>(m: map<K, nat>): nat
  {
    if m == map[] then 0 else
    var k :| k in m;
    m[k] + MapSum(m - {k})
  }

  lemma {:induction false} MapSumRemove<K>(m: map<K, nat>, k: K)
    requires k in m
    ensures MapSum(m) == m[k] + MapSum(m - {k})
    decreases |m|
  {
    var p :| p in m && MapSum(m) == m[p] + MapSum(m - {p});
    if p != k {
      MapSumRemove(m - {p}, k);
      MapSumRemove(m - {k}, p);
      assert m - {p} - {k} == m - {k} - {p};
    }
  }

  lemma MapSumUpdate<K>(m: map<K, nat>, k: K, v: nat)
    ensures MapSum(m[k := v]) + At(m, k) == MapSum(m) + v
  {
    MapSumRemove(m[k := v], k);
    assert m[k := v] - {k} == m - {k};
    if k in m {
      MapSumRemove(m, k);
    } else {
      assert m - {k} == m;
    }
  }

  lemma MapSumBounds<K>(m: map<K, nat>, k: K)
    ensures At(m, k) <= MapSum(m)
  {
    if k in m { MapSumRemove(m, k); }
  }
}
