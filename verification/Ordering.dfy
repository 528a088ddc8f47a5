/** Python's order on strings, and stable sorting by a key order. */
module Ordering {

  /** Code-point order; a proper prefix comes first. */
  predicate StrLe(a: string, b: string) {
    |a| == 0 || (|b| > 0 && (a[0] < b[0] || (a[0] == b[0] && StrLe(a[1..], b[1..]))))
  }

  lemma {:induction false} StrLeTotal(a: string, b: string)
    ensures StrLe(a, b) || StrLe(b, a)
  {
    if a != [] && b != [] && a[0] == b[0] {
      StrLeTotal(a[1..], b[1..]);
    }
  }

  lemma {:induction false} StrLeAntisymmetric(a: string, b: string)
    requires StrLe(a, b) && StrLe(b, a)
    ensures a == b
  {
    if a != [] && b != [] {
      StrLeAntisymmetric(a[1..], b[1..]);
      assert a == [a[0]] + a[1..] && b == [b[0]] + b[1..];
    }
  }

  /** A string comes no later if it is a prefix, or has the smaller character where the two first differ. */
  lemma {:induction false} StrLeExactly(a: string, b: string)
    ensures StrLe(a, b) <==> a <= b || exists i :: 0 <= i < |a| && i < |b| && a[..i] == b[..i] && a[i] < b[i]
  {
    if a != [] && b != [] && a[0] == b[0] {
      var s, t := a[1..], b[1..];
      StrLeExactly(s, t);
      assert a == [a[0]] + s && b == [a[0]] + t;
      assert a <= b <==> s <= t;
      if i :| 0 <= i < |s| && i < |t| && s[..i] == t[..i] && s[i] < t[i] {
        assert a[..i + 1] == [a[0]] + s[..i] && b[..i + 1] == [a[0]] + t[..i];
        assert a[i + 1] < b[i + 1];
      }
      if i :| 0 <= i < |a| && i < |b| && a[..i] == b[..i] && a[i] < b[i] {
        assert i > 0;
        assert s[..i - 1] == a[..i][1..] && t[..i - 1] == b[..i][1..];
        assert s[i - 1] < t[i - 1];
      }
    } else if a != [] && b != [] {
      assert a[..0] == b[..0];
      if i :| 0 <= i < |a| && i < |b| && a[..i] == b[..i] && a[i] < b[i] {
        assert i > 0 ==> a[..i][0] == b[..i][0];
      }
    }
  }

  lemma {:induction false} StrLeTransitive(a: string, b: string, c: string)
    requires StrLe(a, b) && StrLe(b, c)
    ensures StrLe(a, c)
  {
    if a != [] && a[0] == b[0] && b[0] == c[0] {
      StrLeTransitive(a[1..], b[1..], c[1..]);
    }
  }

  lemma StrLeReflexive(a: string)
    ensures StrLe(a, a)
  {
    StrLeTotal(a, a);
  }

  /** Total and transitive: what a key comparison gives, ties allowed. */
  ghost predicate TotalPreorder<T(!new)>(le: (T, T) -> bool) {
    && (forall x, y :: le(x, y) || le(y, x))
    && (forall x, y, z :: le(x, y) && le(y, z) ==> le(x, z))
  }

  lemma StrLeChain(a: string, b: string, c: string)
    ensures StrLe(a, b) && StrLe(b, c) ==> StrLe(a, c) && (a == c ==> a == b)
  {
    if StrLe(a, b) && StrLe(b, c) {
      StrLeTransitive(a, b, c);
      if a == c {
        StrLeAntisymmetric(a, b);
      }
    }
  }

  lemma StrLeIsTotalPreorder()
    ensures TotalPreorder(StrLe)
  {
    forall x: string, y: string ensures StrLe(x, y) || StrLe(y, x) { StrLeTotal(x, y); }
    forall x: string, y: string, z: string | StrLe(x, y) && StrLe(y, z) ensures StrLe(x, z) {
      StrLeTransitive(x, y, z);
    }
  }

  /** No two different elements of s tie under le. */
  ghost predicate NoTies<T>(s: seq<T>, le: (T, T) -> bool) {
    forall i, j :: 0 <= i < |s| && 0 <= j < |s| && le(s[i], s[j]) && le(s[j], s[i]) ==> s[i] == s[j]
  }

  ghost predicate Sorted<T>(s: seq<T>, le: (T, T) -> bool) {
    forall i, j :: 0 <= i < j < |s| ==> le(s[i], s[j])
  }

  function InsertInto<T>(x: T, s: seq<T>, le: (T, T) -> bool): (r: seq<T>)
    ensures |r| == |s| + 1
    ensures multiset(r) == multiset{x} + multiset(s)
  {
    if s == [] || le(x, s[0]) then [x] + s
    else
      assert s == [s[0]] + s[1..];
      [s[0]] + InsertInto(x, s[1..], le)
  }

  /** sorted(s, key): stable, so equal keys keep their order. */
  function SortBy<T>(s: seq<T>, le: (T, T) -> bool): (r: seq<T>)
    ensures |r| == |s|
    ensures multiset(r) == multiset(s)
  {
    if s == [] then []
    else
      assert s == [s[0]] + s[1..];
      InsertInto(s[0], SortBy(s[1..], le), le)
  }

  lemma {:induction false} InsertIntoSorted<T(!new)>(x: T, s: seq<T>, le: (T, T) -> bool)
    requires TotalPreorder(le) && Sorted(s, le)
    ensures Sorted(InsertInto(x, s, le), le)
  {
    if s == [] || le(x, s[0]) {
      forall i, j | 0 <= i < j < |s| + 1 ensures le(([x] + s)[i], ([x] + s)[j]) {
        if i == 0 && j > 1 { assert le(s[0], s[j - 1]); }
      }
    } else {
      var t := InsertInto(x, s[1..], le);
      InsertIntoSorted(x, s[1..], le);
      forall j | 0 <= j < |t| ensures le(s[0], t[j]) {
        assert t[j] in multiset(t);
        assert t[j] == x || t[j] in s[1..];
      }
    }
  }

  lemma {:induction false} SortBySorted<T(!new)>(s: seq<T>, le: (T, T) -> bool)
    requires TotalPreorder(le)
    ensures Sorted(SortBy(s, le), le)
  {
    if s != [] {
      SortBySorted(s[1..], le);
      InsertIntoSorted(s[0], SortBy(s[1..], le), le);
    }
  }

  lemma SameElements<T>(a: seq<T>, b: seq<T>)
    requires multiset(a) == multiset(b)
    ensures |a| == |b|
    ensures forall x :: x in a <==> x in b
  {
    assert |multiset(a)| == |a| && |multiset(b)| == |b|;
    forall x ensures x in a <==> x in b {
      assert x in a <==> x in multiset(a);
      assert x in b <==> x in multiset(b);
    }
  }

  lemma SameHead<T(!new)>(a: seq<T>, b: seq<T>, le: (T, T) -> bool)
    requires TotalPreorder(le) && Sorted(a, le) && Sorted(b, le)
    requires a != [] && multiset(a) == multiset(b) && NoTies(a, le)
    ensures b != [] && a[0] == b[0]
  {
    SameElements(a, b);
    assert a[0] in a && b[0] in b;
    var i :| 0 <= i < |b| && b[i] == a[0];
    var j :| 0 <= j < |a| && a[j] == b[0];
    assert le(a[0], a[j]) by { assert le(a[0], a[0]); }
    assert le(b[0], b[i]) by { assert le(b[0], b[0]); }
    assert a[0] == a[j];
  }

  lemma TailsMatch<T>(a: seq<T>, b: seq<T>)
    requires a != [] && b != [] && a[0] == b[0] && multiset(a) == multiset(b)
    ensures multiset(a[1..]) == multiset(b[1..])
  {
    assert a == [a[0]] + a[1..] && b == [b[0]] + b[1..];
    assert multiset(a[1..]) == multiset(a) - multiset{a[0]};
    assert multiset(b[1..]) == multiset(b) - multiset{b[0]};
  }

  /** A sorted arrangement is unique when no two different elements tie. */
  lemma {:induction false} SortedUnique<T(!new)>(a: seq<T>, b: seq<T>, le: (T, T) -> bool)
    requires TotalPreorder(le) && Sorted(a, le) && Sorted(b, le)
    requires multiset(a) == multiset(b) && NoTies(a, le)
    ensures a == b
  {
    SameElements(a, b);
    if a != [] {
      assert a[0] == b[0] by { SameHead(a, b, le); }
      TailsMatch(a, b);
      assert NoTies(a[1..], le) by {
        forall i, j | 0 <= i < |a| - 1 && 0 <= j < |a| - 1 && le(a[1..][i], a[1..][j]) && le(a[1..][j], a[1..][i])
          ensures a[1..][i] == a[1..][j]
        {
          assert a[1..][i] == a[i + 1] && a[1..][j] == a[j + 1];
        }
      }
      SortedUnique(a[1..], b[1..], le);
      assert a == [a[0]] + a[1..] && b == [b[0]] + b[1..];
    }
  }

  /** Sorting forgets the order its input came in. */
  lemma SortByPermutationInvariant<T(!new)>(a: seq<T>, b: seq<T>, le: (T, T) -> bool)
    requires TotalPreorder(le) && multiset(a) == multiset(b) && NoTies(a, le)
    ensures SortBy(a, le) == SortBy(b, le)
  {
    SortBySorted(a, le);
    SortBySorted(b, le);
    SameElements(a, SortBy(a, le));
    var s := SortBy(a, le);
    forall i, j | 0 <= i < |s| && 0 <= j < |s| && le(s[i], s[j]) && le(s[j], s[i]) ensures s[i] == s[j] {
      assert s[i] in a && s[j] in a;
    }
    SortedUnique(s, SortBy(b, le), le);
  }

  /** Sorting changes nothing in a sequence that is already sorted. */
  lemma {:induction false} SortBySortedIdentity<T>(s: seq<T>, le: (T, T) -> bool)
    requires Sorted(s, le)
    ensures SortBy(s, le) == s
  {
    if s != [] {
      SortBySortedIdentity(s[1..], le);
      assert |s| > 1 ==> le(s[0], s[1]);
    }
  }

  ghost predicate NoDuplicates<T>(s: seq<T>) {
    forall i, j :: 0 <= i < j < |s| ==> s[i] != s[j]
  }

  lemma AppendDistinct<T>(a: seq<T>, b: seq<T>)
    requires NoDuplicates(a) && NoDuplicates(b)
    requires forall x, y :: x in a && y in b ==> x != y
    ensures NoDuplicates(a + b)
  {
    var all := a + b;
    forall i, j | 0 <= i < j < |all| ensures all[i] != all[j] {
      if i < |a| <= j {
        assert all[i] in a && all[j] in b;
      }
    }
  }

  /** len(set(s)) == len(s) says that s has no duplicates. */
  lemma {:induction false} SetSize<T>(s: seq<T>)
    ensures |set x | x in s| <= |s|
    ensures |set x | x in s| == |s| <==> NoDuplicates(s)
  {
    if s != [] {
      var t := s[1..];
      SetSize(t);
      assert (set x | x in s) == (set x | x in t) + {s[0]};
      if s[0] in t {
        var j :| 0 <= j < |t| && t[j] == s[0];
        assert s[j + 1] == s[0];
        assert (set x | x in s) == (set x | x in t);
      } else {
        assert NoDuplicates(t) <==> NoDuplicates(s) by {
          forall i, j | NoDuplicates(t) && 0 <= i < j < |s| ensures s[i] != s[j] {
            if i == 0 { assert s[j] == t[j - 1]; } else { assert s[i] == t[i - 1] && s[j] == t[j - 1]; }
          }
          forall i, j | NoDuplicates(s) && 0 <= i < j < |t| ensures t[i] != t[j] {
            assert t[i] == s[i + 1] && t[j] == s[j + 1];
          }
        }
      }
    }
  }

  lemma {:induction false} DistinctMultiset<T>(a: seq<T>)
    requires NoDuplicates(a)
    ensures multiset(a) == multiset(set x | x in a)
  {
    if a != [] {
      var n := |a| - 1;
      var front := a[..n];
      DistinctMultiset(front);
      assert a == front + [a[n]];
      assert (set x | x in a) == (set x | x in front) + {a[n]};
      assert a[n] !in front;
    }
  }
}
