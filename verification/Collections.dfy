/** Distinct sequences, finite sets and counting below a bound. */
module Collections {

  predicate Distinct<T(==)>(s: seq<T>) { forall i, j :: 0 <= i < j < |s| ==> s[i] != s[j] }

  function SetOf<T>(s: seq<T>): set<T> { set x | x in s }

  lemma {:induction false} DistinctSize<T>(s: seq<T>)
    requires Distinct(s)
    ensures |SetOf(s)| == |s|
  {
    if s != [] {
      var front := s[..|s| - 1];
      DistinctSize(front);
      assert s == front + [s[|s| - 1]] && s[|s| - 1] !in front;
      AddOne(SetOf(front), s[|s| - 1]);
      assert SetOf(s) == SetOf(front) + {s[|s| - 1]};
    }
  }

  lemma {:induction false} DistinctMultiset<T>(s: seq<T>)
    ensures Distinct(s) <==> forall x :: multiset(s)[x] <= 1
  {
    if s != [] {
      var front, last := s[..|s| - 1], s[|s| - 1];
      DistinctMultiset(front);
      assert s == front + [last];
      if Distinct(front) && last in front {
        var i :| 0 <= i < |front| && front[i] == last;
        assert s[i] == s[|s| - 1];
        assert multiset(s)[last] == multiset(front)[last] + 1;
      }
      forall x ensures multiset(s)[x] == multiset(front)[x] + if x == last then 1 else 0 {}
    }
  }

  /** Permuting keeps elements distinct. */
  lemma PermutedDistinct<T>(a: seq<T>, b: seq<T>)
    requires Distinct(a) && multiset(a) == multiset(b)
    ensures Distinct(b) && |a| == |b| && SetOf(a) == SetOf(b)
  {
    DistinctMultiset(a);
    DistinctMultiset(b);
    assert |a| == |multiset(a)| && |b| == |multiset(b)|;
    forall x ensures x in a <==> x in b { assert x in multiset(a) <==> x in multiset(b); }
  }

  lemma AddOne<T>(s: set<T>, x: T)
    ensures |s + {x}| == if x in s then |s| else |s| + 1
  {
    if x in s { assert s + {x} == s; } else { assert s * {x} == {}; }
  }

  lemma {:induction false} SubsetSize<T>(a: set<T>, b: set<T>)
    requires a <= b
    ensures |a| <= |b|
  {
    if a != {} {
      var x :| x in a;
      SubsetSize(a - {x}, b - {x});
    }
  }

  /** 0, 1, ..., n - 1. */
  lemma EqualSize<T>(a: set<T>, b: set<T>)
    requires a <= b
    ensures |a| == |b| <==> a == b
  {
    assert b == a + (b - a);
  }

  function Range(n: nat): (r: seq<nat>)
    ensures |r| == n && forall i :: 0 <= i < n ==> r[i] == i
  {
    seq(n, i requires 0 <= i => i)
  }

  // ----- filtering

  function Keep<T>(s: seq<T>, p: T -> bool): seq<T> {
    if s == [] then []
    else Keep(s[..|s| - 1], p) + if p(s[|s| - 1]) then [s[|s| - 1]] else []
  }

  lemma KeepMore<T>(s: seq<T>, x: T, p: T -> bool)
    ensures Keep(s + [x], p) == Keep(s, p) + if p(x) then [x] else []
  {
    assert (s + [x])[..|s|] == s;
  }

  lemma {:induction false} KeepMember<T>(s: seq<T>, p: T -> bool, x: T)
    ensures x in Keep(s, p) <==> x in s && p(x)
  {
    if s != [] {
      KeepMember(s[..|s| - 1], p, x);
      assert s == s[..|s| - 1] + [s[|s| - 1]];
    }
  }

  lemma {:induction false} KeepDistinct<T>(s: seq<T>, p: T -> bool)
    requires Distinct(s)
    ensures Distinct(Keep(s, p))
  {
    if s != [] {
      var front, last := s[..|s| - 1], s[|s| - 1];
      KeepDistinct(front, p);
      KeepMember(front, p, last);
      assert last !in front;
    }
  }

  lemma {:induction false} KeepAll<T>(s: seq<T>, p: T -> bool)
    requires forall x :: x in s ==> p(x)
    ensures Keep(s, p) == s
  {
    if s != [] {
      KeepAll(s[..|s| - 1], p);
      assert s[|s| - 1] in s;
    }
  }

  lemma {:induction false} KeepNone<T>(s: seq<T>, p: T -> bool)
    requires forall x :: x in s ==> !p(x)
    ensures Keep(s, p) == []
  {
    if s != [] {
      KeepNone(s[..|s| - 1], p);
      assert s[|s| - 1] in s;
    }
  }

  lemma {:induction false} KeepConcat<T>(a: seq<T>, b: seq<T>, p: T -> bool)
    ensures Keep(a + b, p) == Keep(a, p) + Keep(b, p)
  {
    if b == [] {
      assert a + b == a;
    } else {
      KeepConcat(a, b[..|b| - 1], p);
      assert (a + b)[..|a + b| - 1] == a + b[..|b| - 1];
    }
  }

  /** A choice of distinct elements keeps no more than a larger one. */
  lemma KeepSubset<T>(a: seq<T>, b: seq<T>, p: T -> bool)
    requires Distinct(a) && Distinct(b) && forall x :: x in a ==> x in b
    ensures |Keep(a, p)| <= |Keep(b, p)|
  {
    KeepDistinct(a, p);
    KeepDistinct(b, p);
    DistinctSize(Keep(a, p));
    DistinctSize(Keep(b, p));
    forall x | x in SetOf(Keep(a, p)) ensures x in SetOf(Keep(b, p)) {
      KeepMember(a, p, x);
      KeepMember(b, p, x);
    }
    SubsetSize(SetOf(Keep(a, p)), SetOf(Keep(b, p)));
  }

  lemma {:induction false} KeepAtMost<T>(s: seq<T>, p: T -> bool)
    ensures |Keep(s, p)| <= |s|
  {
    if s != [] { KeepAtMost(s[..|s| - 1], p); }
  }

  lemma {:induction false} KeepSame<T>(s: seq<T>, p: T -> bool, q: T -> bool)
    requires forall x :: x in s ==> (p(x) <==> q(x))
    ensures Keep(s, p) == Keep(s, q)
  {
    if s != [] {
      assert s == s[..|s| - 1] + [s[|s| - 1]];
      KeepSame(s[..|s| - 1], p, q);
    }
  }

  lemma {:induction false} KeepEvery<T>(s: seq<T>, p: T -> bool)
    ensures |Keep(s, p)| == |s| <==> forall x :: x in s ==> p(x)
  {
    if s != [] {
      var front, last := s[..|s| - 1], s[|s| - 1];
      KeepEvery(front, p);
      KeepAtMost(front, p);
      assert s == front + [last];
    }
  }

  lemma KeepCount<T>(s: seq<T>, p: T -> bool)
    ensures |Keep(s, p)| <= |s|
    ensures |Keep(s, p)| == 0 <==> forall x :: x in s ==> !p(x)
    ensures |Keep(s, p)| == |s| <==> forall x :: x in s ==> p(x)
  {
    KeepAtMost(s, p);
    KeepEvery(s, p);
    forall x | x in s && p(x) ensures Keep(s, p) != [] { KeepMember(s, p, x); }
    if Keep(s, p) != [] { KeepMember(s, p, Keep(s, p)[0]); }
  }

  // ----- counting

  function Count(n: nat, p: nat -> bool): (c: nat)
    ensures c <= n
    decreases n, p
  {
    if n == 0 then 0 else Count(n - 1, p) + if p(n - 1) then 1 else 0
  }

  function Total(n: nat, f: nat -> nat): nat
    decreases n, f
  {
    if n == 0 then 0 else Total(n - 1, f) + f(n - 1)
  }

  lemma {:induction false} CountSame(n: nat, p: nat -> bool, q: nat -> bool)
    requires forall i: nat :: i < n ==> p(i) == q(i)
    ensures Count(n, p) == Count(n, q)
  {
    if n > 0 { CountSame(n - 1, p, q); }
  }

  lemma {:induction false} CountLess(n: nat, p: nat -> bool, q: nat -> bool)
    requires forall i: nat :: i < n && p(i) ==> q(i)
    ensures Count(n, p) <= Count(n, q)
  {
    if n > 0 { CountLess(n - 1, p, q); }
  }

  lemma {:induction false} CountNone(n: nat, p: nat -> bool)
    ensures Count(n, p) == 0 <==> forall i: nat :: i < n ==> !p(i)
  {
    if n > 0 { CountNone(n - 1, p); }
  }

  lemma {:induction false} CountAll(n: nat, p: nat -> bool)
    ensures Count(n, p) == n <==> forall i: nat :: i < n ==> p(i)
  {
    if n > 0 { CountAll(n - 1, p); }
  }

  lemma {:induction false} CountNot(n: nat, p: nat -> bool, q: nat -> bool)
    requires forall i: nat :: i < n ==> (p(i) <==> !q(i))
    ensures Count(n, p) + Count(n, q) == n
  {
    if n > 0 { CountNot(n - 1, p, q); }
  }

  lemma {:induction false} CountSplit(n: nat, p: nat -> bool, q: nat -> bool, r: nat -> bool)
    requires forall i: nat :: i < n ==> (p(i) <==> q(i) || r(i)) && !(q(i) && r(i))
    ensures Count(n, p) == Count(n, q) + Count(n, r)
  {
    if n > 0 { CountSplit(n - 1, p, q, r); }
  }

  /** At most one index satisfies the predicate. */
  lemma {:induction false} CountAtMostOne(n: nat, p: nat -> bool)
    requires forall i: nat, j: nat :: i < j < n && p(i) ==> !p(j)
    ensures Count(n, p) <= 1
  {
    if n > 0 {
      CountAtMostOne(n - 1, p);
      if p(n - 1) { CountNone(n - 1, p); }
    }
  }

  lemma {:induction false} CountOne(n: nat, p: nat -> bool, t: nat)
    requires t < n && forall i: nat :: i < n ==> (p(i) <==> i == t)
    ensures Count(n, p) == 1
  {
    if t < n - 1 { CountOne(n - 1, p, t); } else { CountNone(n - 1, p); }
  }

  /** Counting the members of a set of small naturals gives its size. */
  lemma {:induction false} CountMembers(n: nat, s: set<nat>)
    requires forall x :: x in s ==> x < n
    ensures Count(n, x => x in s) == |s|
    decreases n
  {
    if n == 0 {
      assert s == {};
    } else if n - 1 in s {
      CountMembers(n - 1, s - {n - 1});
      CountSame(n - 1, x => x in s, x => x in s - {n - 1});
    } else {
      CountMembers(n - 1, s);
    }
  }

  /** An injection into a finite set bounds the count of its domain. */
  lemma {:induction false} CountInjective(n: nat, p: nat -> bool, f: nat -> nat, s: set<nat>)
    requires forall i: nat :: i < n && p(i) ==> f(i) in s
    requires forall i: nat, j: nat :: i < j < n && p(i) && p(j) ==> f(i) != f(j)
    ensures Count(n, p) <= |s|
    decreases n
  {
    if n > 0 {
      if p(n - 1) { CountInjective(n - 1, p, f, s - {f(n - 1)}); }
      else { CountInjective(n - 1, p, f, s); }
    }
  }

  /** The values an index below n that satisfies p is sent to. */
  function Image<T>(n: nat, p: nat -> bool, f: nat -> T): set<T>
    decreases n, p
  {
    if n == 0 then {} else Image(n - 1, p, f) + if p(n - 1) then {f(n - 1)} else {}
  }

  lemma {:induction false} ImageMember<T>(n: nat, p: nat -> bool, f: nat -> T, x: T)
    ensures x in Image(n, p, f) <==> exists i: nat :: i < n && p(i) && f(i) == x
    decreases n
  {
    if n > 0 { ImageMember(n - 1, p, f, x); }
  }

  lemma {:induction false} CountOfImage<T>(n: nat, p: nat -> bool, f: nat -> T)
    requires forall i: nat, j: nat :: i < j < n && p(i) && p(j) ==> f(i) != f(j)
    ensures Count(n, p) == |Image(n, p, f)|
    decreases n
  {
    if n > 0 {
      CountOfImage(n - 1, p, f);
      if p(n - 1) {
        ImageMember(n - 1, p, f, f(n - 1));
        AddOne(Image(n - 1, p, f), f(n - 1));
      } else {
        assert Image(n, p, f) == Image(n - 1, p, f);
      }
    }
  }

  /** Counting the arguments of an injection counts its image. */
  lemma CountImage<T>(n: nat, p: nat -> bool, f: nat -> T, s: set<T>)
    requires forall i: nat, j: nat :: i < j < n && p(i) && p(j) ==> f(i) != f(j)
    requires forall i: nat :: i < n && p(i) ==> f(i) in s
    requires forall x :: x in s ==> exists i: nat :: i < n && p(i) && f(i) == x
    ensures Count(n, p) == |s|
  {
    CountOfImage(n, p, f);
    forall x | x in s ensures x in Image(n, p, f) { ImageMember(n, p, f, x); }
    forall x | x in Image(n, p, f) ensures x in s { ImageMember(n, p, f, x); }
    assert Image(n, p, f) == s;
  }

  lemma {:induction false} TotalAtMost(n: nat, f: nat -> nat, bound: nat)
    requires forall i: nat :: i < n ==> f(i) <= bound
    ensures Total(n, f) <= n * bound
  {
    if n > 0 { TotalAtMost(n - 1, f, bound); }
  }

  /** Where the predicate holds the summand is at least c. */
  lemma {:induction false} TotalAtLeast(n: nat, f: nat -> nat, p: nat -> bool, c: nat)
    requires forall i: nat :: i < n && p(i) ==> f(i) >= c
    ensures Total(n, f) >= c * Count(n, p)
  {
    if n > 0 {
      TotalAtLeast(n - 1, f, p, c);
      assert c * (Count(n - 1, p) + 1) == c * Count(n - 1, p) + c;
    }
  }

  /** Two totals that differ in one summand. */
  lemma {:induction false} TotalBump(n: nat, f: nat -> nat, g: nat -> nat, k: nat, extra: nat)
    requires forall i: nat :: i < n ==> g(i) == f(i) + if i == k then extra else 0
    ensures Total(n, g) == Total(n, f) + if k < n then extra else 0
  {
    if n > 0 { TotalBump(n - 1, f, g, k, extra); }
  }

  function RowOf(p: (nat, nat) -> bool, i: nat): nat -> bool { (j: nat) => p(i, j) }

  function RowCount(m: nat, p: (nat, nat) -> bool): nat -> nat { (i: nat) => Count(m, RowOf(p, i)) }

  function ColumnCount(n: nat, p: (nat, nat) -> bool): nat -> nat { (j: nat) => Count(n, (i: nat) => p(i, j)) }

  /** Counting pairs by rows or by columns. */
  lemma {:induction false} DoubleCount(n: nat, m: nat, p: (nat, nat) -> bool)
    ensures Total(n, RowCount(m, p)) == Total(m, ColumnCount(n, p))
    decreases n
  {
    if n == 0 {
      TotalZero(m, ColumnCount(0, p));
    } else {
      DoubleCount(n - 1, m, p);
      LastRow(n - 1, m, p);
    }
  }

  lemma {:induction false} TotalZero(n: nat, f: nat -> nat)
    requires forall i: nat :: i < n ==> f(i) == 0
    ensures Total(n, f) == 0
  {
    if n > 0 { TotalZero(n - 1, f); }
  }

  lemma {:induction false} TotalOnes(n: nat, f: nat -> nat)
    requires forall i: nat :: i < n ==> f(i) == 1
    ensures Total(n, f) == n
  {
    if n > 0 { TotalOnes(n - 1, f); }
  }

  lemma {:induction false} TotalSame(n: nat, f: nat -> nat, g: nat -> nat)
    requires forall i: nat :: i < n ==> f(i) == g(i)
    ensures Total(n, f) == Total(n, g)
  {
    if n > 0 { TotalSame(n - 1, f, g); }
  }

  lemma {:induction false} LastRow(n: nat, m: nat, p: (nat, nat) -> bool)
    ensures Total(m, ColumnCount(n + 1, p)) == Total(m, ColumnCount(n, p)) + Count(m, RowOf(p, n))
    decreases m
  {
    if m > 0 {
      LastRow(n, m - 1, p);
    }
  }
}
