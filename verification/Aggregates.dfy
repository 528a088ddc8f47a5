/** Sums, products, minima and maxima over a sequence; none depends on the order of its elements. */
module Aggregates {

  function SumBy<T>(s: seq<T>, f: T -> real): real {
    if s == [] then 0.0 else SumBy(s[..|s| - 1], f) + f(s[|s| - 1])
  }

  /** Multiplication under a name, so that a proof can hide it from the solver. */
  function Times(a: real, b: real): real {
    a * b
  }

  function ProductBy<T>(s: seq<T>, f: T -> real): real {
    if s == [] then 1.0 else Times(ProductBy(s[..|s| - 1], f), f(s[|s| - 1]))
  }

  function CountBy<T>(s: seq<T>, p: T -> bool): nat {
    if s == [] then 0 else CountBy(s[..|s| - 1], p) + if p(s[|s| - 1]) then 1 else 0
  }

  function MinBy<T>(s: seq<T>, f: T -> int): int
    requires s != []
  {
    var last := f(s[|s| - 1]);
    if |s| == 1 then last
    else
      var rest := MinBy(s[..|s| - 1], f);
      if last < rest then last else rest
  }

  function MaxBy<T>(s: seq<T>, f: T -> int): int
    requires s != []
  {
    var last := f(s[|s| - 1]);
    if |s| == 1 then last
    else
      var rest := MaxBy(s[..|s| - 1], f);
      if rest < last then last else rest
  }

  lemma {:induction false} MinByMeaning<T>(s: seq<T>, f: T -> int) returns (low: T)
    requires s != []
    ensures low in s && f(low) == MinBy(s, f)
    ensures forall x :: x in s ==> MinBy(s, f) <= f(x)
  {
    low := s[|s| - 1];
    if |s| > 1 {
      assert s == s[..|s| - 1] + [s[|s| - 1]];
      var rest := MinByMeaning(s[..|s| - 1], f);
      if f(rest) <= f(low) { low := rest; }
    }
  }

  lemma {:induction false} MaxByMeaning<T>(s: seq<T>, f: T -> int) returns (high: T)
    requires s != []
    ensures high in s && f(high) == MaxBy(s, f)
    ensures forall x :: x in s ==> f(x) <= MaxBy(s, f)
  {
    high := s[|s| - 1];
    if |s| > 1 {
      assert s == s[..|s| - 1] + [s[|s| - 1]];
      var rest := MaxByMeaning(s[..|s| - 1], f);
      if f(rest) >= f(high) { high := rest; }
    }
  }

  /** A bound on the largest difference is a bound on every difference. */
  lemma SpreadBy<T>(s: seq<T>, f: T -> int, g: T -> int, d: int)
    requires s != []
    ensures MaxBy(s, f) - MinBy(s, g) <= d <==> forall x, y :: x in s && y in s ==> f(x) - g(y) <= d
  {
    var high := MaxByMeaning(s, f);
    var low := MinByMeaning(s, g);
    if forall x, y :: x in s && y in s ==> f(x) - g(y) <= d {
      assert f(high) - g(low) <= d;
    }
  }

  function Without<T>(s: seq<T>, i: nat): (r: seq<T>)
    requires i < |s|
    ensures multiset(r) == multiset(s) - multiset{s[i]}
  {
    assert s == s[..i] + ([s[i]] + s[i + 1..]);
    s[..i] + s[i + 1..]
  }

  lemma LastOut<T>(s: seq<T>, i: nat)
    requires i < |s| - 1
    ensures Without(s, i)[..|s| - 2] == Without(s[..|s| - 1], i)
    ensures Without(s, i)[|s| - 2] == s[|s| - 1]
  {
  }

  lemma {:induction false} SumWithout<T>(s: seq<T>, i: nat, f: T -> real)
    requires i < |s|
    ensures SumBy(s, f) == SumBy(Without(s, i), f) + f(s[i])
  {
    if i == |s| - 1 {
      assert Without(s, i) == s[..i];
    } else {
      LastOut(s, i);
      SumWithout(s[..|s| - 1], i, f);
    }
  }

  lemma {:induction false} CountWithout<T>(s: seq<T>, i: nat, p: T -> bool)
    requires i < |s|
    ensures CountBy(s, p) == CountBy(Without(s, i), p) + if p(s[i]) then 1 else 0
  {
    if i == |s| - 1 {
      assert Without(s, i) == s[..i];
    } else {
      LastOut(s, i);
      CountWithout(s[..|s| - 1], i, p);
    }
  }

  lemma TimesSwap(a: real, b: real, c: real)
    ensures Times(Times(a, b), c) == Times(Times(a, c), b)
  {
  }

  lemma {:induction false} ProductWithout<T>(s: seq<T>, i: nat, f: T -> real)
    requires i < |s|
    ensures ProductBy(s, f) == Times(ProductBy(Without(s, i), f), f(s[i]))
  {
    hide Times;
    if i == |s| - 1 {
      assert Without(s, i) == s[..i];
    } else {
      LastOut(s, i);
      ProductWithout(s[..|s| - 1], i, f);
      TimesSwap(ProductBy(Without(s[..|s| - 1], i), f), f(s[i]), f(s[|s| - 1]));
    }
  }

  lemma FindLast<T>(a: seq<T>, b: seq<T>) returns (i: nat)
    requires multiset(a) == multiset(b) && a != []
    ensures i < |b| && b[i] == a[|a| - 1]
    ensures multiset(a[..|a| - 1]) == multiset(Without(b, i))
  {
    assert a == a[..|a| - 1] + [a[|a| - 1]];
    assert a[|a| - 1] in multiset(b);
    i :| 0 <= i < |b| && b[i] == a[|a| - 1];
  }

  lemma {:induction false} SumPermutation<T>(a: seq<T>, b: seq<T>, f: T -> real)
    requires multiset(a) == multiset(b)
    ensures SumBy(a, f) == SumBy(b, f)
  {
    if a == [] {
      assert |multiset(b)| == 0;
    } else {
      var i := FindLast(a, b);
      SumPermutation(a[..|a| - 1], Without(b, i), f);
      SumWithout(b, i, f);
    }
  }

  lemma {:induction false} CountPermutation<T>(a: seq<T>, b: seq<T>, p: T -> bool)
    requires multiset(a) == multiset(b)
    ensures CountBy(a, p) == CountBy(b, p)
  {
    if a == [] {
      assert |multiset(b)| == 0;
    } else {
      var i := FindLast(a, b);
      CountPermutation(a[..|a| - 1], Without(b, i), p);
      CountWithout(b, i, p);
    }
  }

  lemma {:induction false} CountAppend<T>(a: seq<T>, b: seq<T>, p: T -> bool)
    ensures CountBy(a + b, p) == CountBy(a, p) + CountBy(b, p)
  {
    if b == [] {
      assert a + b == a;
    } else {
      var front := b[..|b| - 1];
      assert (a + b)[..|a + b| - 1] == a + front;
      CountAppend(a, front, p);
    }
  }

  lemma {:induction false} CountNone<T>(s: seq<T>, p: T -> bool)
    ensures CountBy(s, p) == 0 <==> forall x <- s :: !p(x)
  {
    if s != [] {
      assert s == s[..|s| - 1] + [s[|s| - 1]];
      CountNone(s[..|s| - 1], p);
    }
  }

  lemma {:induction false} CountAll<T>(s: seq<T>, p: T -> bool)
    requires forall x <- s :: p(x)
    ensures CountBy(s, p) == |s|
  {
    if s != [] {
      assert s == s[..|s| - 1] + [s[|s| - 1]];
      CountAll(s[..|s| - 1], p);
    }
  }

  /** At most one element counts if and only if no two positions hold counting elements. */
  lemma {:induction false} CountAtMostOne<T>(s: seq<T>, p: T -> bool)
    ensures CountBy(s, p) <= 1 <==> forall i, j :: 0 <= i < j < |s| ==> !(p(s[i]) && p(s[j]))
  {
    if s != [] {
      var n := |s| - 1;
      var front := s[..n];
      CountAtMostOne(front, p);
      CountNone(front, p);
      if CountBy(s, p) <= 1 {
        forall i, j | 0 <= i < j < |s| ensures !(p(s[i]) && p(s[j])) {
          if j < n {
            assert !(p(front[i]) && p(front[j]));
          } else {
            assert front[i] in front;
          }
        }
      }
      if forall i, j :: 0 <= i < j < |s| ==> !(p(s[i]) && p(s[j])) {
        forall i, j | 0 <= i < j < n ensures !(p(front[i]) && p(front[j])) {
          assert !(p(s[i]) && p(s[j]));
        }
        if p(s[n]) {
          forall x <- front ensures !p(x) {
            var i :| 0 <= i < n && front[i] == x;
            assert s[i] == x;
          }
        }
      }
    }
  }

  lemma {:induction false} ProductPermutation<T>(a: seq<T>, b: seq<T>, f: T -> real)
    requires multiset(a) == multiset(b)
    ensures ProductBy(a, f) == ProductBy(b, f)
  {
    hide Times;
    if a == [] {
      assert |multiset(b)| == 0;
    } else {
      var i := FindLast(a, b);
      ProductPermutation(a[..|a| - 1], Without(b, i), f);
      ProductWithout(b, i, f);
    }
  }

  lemma TimesGrows(a: real, b: real)
    requires a >= 1.0 && b >= 1.0
    ensures Times(a, b) >= a
  {
    assert a * b - a == a * (b - 1.0);
  }

  lemma TimesSign(a: real, b: real)
    requires a >= 0.0 && b >= 0.0
    ensures Times(a, b) >= 0.0
  {
  }

  lemma TimesUnit(a: real, b: real)
    requires 0.0 <= a <= 1.0 && 0.0 <= b <= 1.0
    ensures 0.0 <= Times(a, b) <= 1.0
  {
    TimesSign(a, b);
    TimesSign(a, 1.0 - b);
    assert a - Times(a, b) == Times(a, 1.0 - b);
  }

  /** A product of factors of at least one only grows as factors are added. */
  lemma {:induction false} PrefixProduct<T>(s: seq<T>, n: nat, f: T -> real)
    requires n <= |s| && forall x :: x in s ==> f(x) >= 1.0
    ensures 1.0 <= ProductBy(s[..n], f) <= ProductBy(s, f)
    decreases |s|, |s| - n
  {
    hide Times;
    if s == [] {
      assert s[..n] == s;
    } else {
      var front := s[..|s| - 1];
      assert s[|s| - 1] in s;
      PrefixProduct(front, if n < |s| then n else |s| - 1, f);
      assert n < |s| ==> front[..n] == s[..n];
      assert n == |s| ==> s[..n] == s;
      assert front[..|s| - 1] == front;
      TimesGrows(ProductBy(front, f), f(s[|s| - 1]));
    }
  }

  lemma {:induction false} ProductOfProbabilities<T>(s: seq<T>, f: T -> real)
    requires forall x :: x in s ==> 0.0 <= f(x) <= 1.0
    ensures 0.0 <= ProductBy(s, f) <= 1.0
  {
    hide Times;
    if s != [] {
      assert s[|s| - 1] in s;
      ProductOfProbabilities(s[..|s| - 1], f);
      TimesUnit(ProductBy(s[..|s| - 1], f), f(s[|s| - 1]));
    }
  }

  lemma TakeStep<T>(s: seq<T>, i: nat)
    requires i < |s|
    ensures s[..i + 1][..|s[..i + 1]| - 1] == s[..i] && s[..i + 1][|s[..i + 1]| - 1] == s[i]
  {
  }
}
