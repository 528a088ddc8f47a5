/** Groups of a sequence by a key; over all the keys their sizes and sums add up to the whole. */
module Partitions {
  import opened Aggregates
  import Ordering

  /** The elements with the key, in their order. */
  function Members<T, K(==)>(s: seq<T>, f: T -> K, k: K): (r: seq<T>)
    ensures forall x <- r :: x in s && f(x) == k
    ensures forall x <- s :: f(x) == k ==> x in r
  {
    if s == [] then []
    else
      var front, last := s[..|s| - 1], s[|s| - 1];
      assert s == front + [last];
      Members(front, f, k) + if f(last) == k then [last] else []
  }

  function SizeOver<T, K(==)>(s: seq<T>, f: T -> K, keys: seq<K>): nat {
    if keys == [] then 0 else |Members(s, f, keys[0])| + SizeOver(s, f, keys[1..])
  }

  function SumOver<T, K(==)>(s: seq<T>, f: T -> K, g: T -> real, keys: seq<K>): real {
    if keys == [] then 0.0 else SumBy(Members(s, f, keys[0]), g) + SumOver(s, f, g, keys[1..])
  }

  lemma MembersStep<T, K>(s: seq<T>, x: T, f: T -> K, k: K)
    ensures Members(s + [x], f, k) == Members(s, f, k) + if f(x) == k then [x] else []
  {
    assert (s + [x])[..|s|] == s;
  }

  lemma NothingListed<T, K>(f: T -> K, k: K)
    ensures Members([], f, k) == []
  {
  }

  lemma {:induction false} MembersAppend<T, K>(a: seq<T>, b: seq<T>, f: T -> K, k: K)
    ensures Members(a + b, f, k) == Members(a, f, k) + Members(b, f, k)
  {
    hide Members;
    if b == [] {
      assert a + b == a;
      NothingListed(f, k);
      assert Members(a, f, k) + [] == Members(a, f, k);
    } else {
      var front, last := b[..|b| - 1], b[|b| - 1];
      MembersAppend(a, front, f, k);
      assert a + b == (a + front) + [last] && b == front + [last];
      MembersStep(a + front, last, f, k);
      MembersStep(front, last, f, k);
      var more: seq<T> := if f(last) == k then [last] else [];
      assert (Members(a, f, k) + Members(front, f, k)) + more == Members(a, f, k) + (Members(front, f, k) + more);
    }
  }

  lemma {:induction false} AllMembers<T, K>(s: seq<T>, f: T -> K, k: K)
    requires forall x <- s :: f(x) == k
    ensures Members(s, f, k) == s
  {
    if s != [] {
      assert s == s[..|s| - 1] + [s[|s| - 1]];
      AllMembers(s[..|s| - 1], f, k);
    }
  }

  lemma {:induction false} NoMembers<T, K>(s: seq<T>, f: T -> K, k: K)
    requires forall x <- s :: f(x) != k
    ensures Members(s, f, k) == []
  {
    if s != [] {
      assert s == s[..|s| - 1] + [s[|s| - 1]];
      NoMembers(s[..|s| - 1], f, k);
    }
  }

  /** Whether an element has the key. */
  function HasKey<T, K(==)>(f: T -> K, k: K): T -> bool {
    x => f(x) == k
  }

  lemma {:induction false} MembersCounted<T, K>(s: seq<T>, f: T -> K, k: K)
    ensures |Members(s, f, k)| == CountBy(s, HasKey(f, k))
  {
    if s != [] {
      MembersCounted(s[..|s| - 1], f, k);
    }
  }

  /** Rearranging a sequence keeps the size of every group. */
  lemma GroupSizePermutation<T, K>(a: seq<T>, b: seq<T>, f: T -> K, k: K)
    requires multiset(a) == multiset(b)
    ensures |Members(a, f, k)| == |Members(b, f, k)|
  {
    MembersCounted(a, f, k);
    MembersCounted(b, f, k);
    CountPermutation(a, b, HasKey(f, k));
  }

  lemma SumStep<T>(s: seq<T>, x: T, g: T -> real)
    ensures SumBy(s + [x], g) == SumBy(s, g) + g(x)
  {
    assert (s + [x])[..|s|] == s;
  }

  /** The value of the elements with the key; the others count nothing. */
  function Within<T, K(==)>(f: T -> K, k: K, g: T -> real): T -> real {
    x => if f(x) == k then g(x) else 0.0
  }

  lemma {:induction false} MembersSum<T, K>(s: seq<T>, f: T -> K, k: K, g: T -> real)
    ensures SumBy(Members(s, f, k), g) == SumBy(s, Within(f, k, g))
  {
    hide Members, SumBy;
    if s == [] {
      NothingListed(f, k);
      SumNothing(g);
      SumNothing(Within(f, k, g));
    } else {
      var front, last := s[..|s| - 1], s[|s| - 1];
      assert s == front + [last];
      MembersSum(front, f, k, g);
      MembersStep(front, last, f, k);
      SumStep(front, last, Within(f, k, g));
      SumStep(Members(front, f, k), last, g);
      assert Members(front, f, k) + [] == Members(front, f, k);
    }
  }

  /** Whether an element has the key and matches as well. */
  function Matching<T, K(==)>(f: T -> K, k: K, p: T -> bool): T -> bool {
    x => f(x) == k && p(x)
  }

  lemma CountStep<T>(s: seq<T>, x: T, p: T -> bool)
    ensures CountBy(s + [x], p) == CountBy(s, p) + if p(x) then 1 else 0
  {
    assert (s + [x])[..|s|] == s;
  }

  lemma CountNothing<T>(p: T -> bool)
    ensures CountBy([], p) == 0
  {
  }

  lemma {:induction false} MembersMatching<T, K>(s: seq<T>, f: T -> K, k: K, p: T -> bool)
    ensures CountBy(Members(s, f, k), p) == CountBy(s, Matching(f, k, p))
  {
    hide Members, CountBy;
    if s == [] {
      NothingListed(f, k);
      CountNothing(p);
      CountNothing(Matching(f, k, p));
    } else {
      var front, last := s[..|s| - 1], s[|s| - 1];
      assert s == front + [last];
      MembersMatching(front, f, k, p);
      MembersStep(front, last, f, k);
      CountStep(front, last, Matching(f, k, p));
      CountStep(Members(front, f, k), last, p);
      assert Members(front, f, k) + [] == Members(front, f, k);
    }
  }

  /** Rearranging a sequence keeps the sum over every group. */
  lemma GroupSumPermutation<T, K>(a: seq<T>, b: seq<T>, f: T -> K, k: K, g: T -> real)
    requires multiset(a) == multiset(b)
    ensures SumBy(Members(a, f, k), g) == SumBy(Members(b, f, k), g)
  {
    MembersSum(a, f, k, g);
    MembersSum(b, f, k, g);
    SumPermutation(a, b, Within(f, k, g));
  }

  lemma {:induction false} SizeStep<T, K>(s: seq<T>, x: T, f: T -> K, keys: seq<K>)
    requires Ordering.NoDuplicates(keys)
    ensures SizeOver(s + [x], f, keys) == SizeOver(s, f, keys) + if f(x) in keys then 1 else 0
  {
    hide Members;
    if keys != [] {
      SizeStep(s, x, f, keys[1..]);
      MembersStep(s, x, f, keys[0]);
    }
  }

  lemma {:induction false} GroupSumStep<T, K>(s: seq<T>, x: T, f: T -> K, g: T -> real, keys: seq<K>)
    requires Ordering.NoDuplicates(keys)
    ensures SumOver(s + [x], f, g, keys) == SumOver(s, f, g, keys) + if f(x) in keys then g(x) else 0.0
  {
    hide Members, SumBy;
    if keys != [] {
      GroupSumStep(s, x, f, g, keys[1..]);
      MembersStep(s, x, f, keys[0]);
      SumStep(Members(s, f, keys[0]), x, g);
      assert Members(s, f, keys[0]) + [] == Members(s, f, keys[0]);
    }
  }

  lemma {:induction false} OverNothing<T, K>(f: T -> K, g: T -> real, keys: seq<K>)
    ensures SizeOver([], f, keys) == 0 && SumOver([], f, g, keys) == 0.0
  {
    if keys != [] {
      OverNothing(f, g, keys[1..]);
    }
  }

  /** With every key listed once, the groups contain each element exactly once. */
  lemma {:induction false} GroupsAddUp<T, K>(s: seq<T>, f: T -> K, g: T -> real, keys: seq<K>)
    requires Ordering.NoDuplicates(keys) && forall x <- s :: f(x) in keys
    ensures SizeOver(s, f, keys) == |s|
    ensures SumOver(s, f, g, keys) == SumBy(s, g)
  {
    hide Members, SumBy, SizeOver, SumOver;
    if s == [] {
      OverNothing(f, g, keys);
      SumNothing(g);
    } else {
      var front, last := s[..|s| - 1], s[|s| - 1];
      assert s == front + [last];
      GroupsAddUp(front, f, g, keys);
      SizeStep(front, last, f, keys);
      GroupSumStep(front, last, f, g, keys);
      SumStep(front, last, g);
    }
  }

  lemma SumNothing<T>(g: T -> real)
    ensures SumBy([], g) == 0.0
  {
  }

  /** The keys in the order of their first appearance. */
  function FirstKeys<T, K(==)>(s: seq<T>, f: T -> K): (r: seq<K>)
    ensures forall x <- s :: f(x) in r
    ensures forall k <- r :: exists x <- s :: f(x) == k
  {
    if s == [] then []
    else
      var front, last := s[..|s| - 1], s[|s| - 1];
      assert s == front + [last];
      var keys := FirstKeys(front, f);
      if f(last) in keys then keys else keys + [f(last)]
  }

  lemma {:induction false} FirstKeysDistinct<T, K>(s: seq<T>, f: T -> K)
    ensures Ordering.NoDuplicates(FirstKeys(s, f))
  {
    if s != [] {
      FirstKeysDistinct(s[..|s| - 1], f);
    }
  }

  /** The keys in sorted order, each once: sorted(set(...)), and the order of a sorted dictionary of groups. */
  function SortedKeys<T, K(==)>(s: seq<T>, f: T -> K, le: (K, K) -> bool): seq<K> {
    Ordering.SortBy(FirstKeys(s, f), le)
  }

  lemma SortedKeysAre<T, K(!new)>(s: seq<T>, f: T -> K, le: (K, K) -> bool)
    requires Ordering.TotalPreorder(le)
    ensures Ordering.NoDuplicates(SortedKeys(s, f, le)) && Ordering.Sorted(SortedKeys(s, f, le), le)
    ensures forall k :: k in SortedKeys(s, f, le) <==> exists x <- s :: f(x) == k
  {
    hide FirstKeys, Ordering.SortBy;
    var keys := FirstKeys(s, f);
    var sorted := Ordering.SortBy(keys, le);
    Ordering.SortBySorted(keys, le);
    Ordering.SameElements(sorted, keys);
    FirstKeysDistinct(s, f);
    Ordering.SetSize(keys);
    Ordering.SetSize(sorted);
    assert (set k | k in sorted) == (set k | k in keys);
  }

  /** Rearranging a sequence does not change its sorted keys. */
  lemma SortedKeysPermutation<T, K(!new)>(a: seq<T>, b: seq<T>, f: T -> K, le: (K, K) -> bool)
    requires multiset(a) == multiset(b) && Ordering.TotalPreorder(le)
    requires forall j, k :: le(j, k) && le(k, j) ==> j == k
    ensures SortedKeys(a, f, le) == SortedKeys(b, f, le)
  {
    hide SortedKeys, Ordering.NoDuplicates, Ordering.Sorted;
    var x, y := SortedKeys(a, f, le), SortedKeys(b, f, le);
    SortedKeysAre(a, f, le);
    SortedKeysAre(b, f, le);
    Ordering.SameElements(a, b);
    Ordering.DistinctMultiset(x);
    Ordering.DistinctMultiset(y);
    assert (set k | k in x) == (set k | k in y);
    Ordering.SortedUnique(x, y, le);
  }

  lemma FirstKeysStep<T, K>(s: seq<T>, i: nat, f: T -> K)
    requires i < |s|
    ensures var keys := FirstKeys(s[..i], f); FirstKeys(s[..i + 1], f) == if f(s[i]) in keys then keys
                                                                          else keys + [f(s[i])]
  {
    TakeStep(s, i);
  }

  /** groups.get(k, []) */
  function Listed<T, K(==)>(groups: map<K, seq<T>>, k: K): seq<T> {
    if k in groups then groups[k] else []
  }

  /** The dictionary of lists that the sequence fills, and its keys in insertion order. */
  ghost predicate Grouped<T, K(!new)>(groups: map<K, seq<T>>, keys: seq<K>, s: seq<T>, f: T -> K) {
    keys == FirstKeys(s, f) && (forall k :: k in keys <==> k in groups) &&
    forall k :: Listed(groups, k) == Members(s, f, k)
  }

  method GroupBy<T, K(==, !new)>(s: seq<T>, f: T -> K) returns (groups: map<K, seq<T>>, keys: seq<K>)
    ensures Grouped(groups, keys, s, f)
  {
    hide Grouped;
    groups, keys := map[], [];
    NothingGrouped(s, f);
    for i := 0 to |s|
      invariant Grouped(groups, keys, s[..i], f)
    {
      var k := f(s[i]);
      GroupStep(s, i, f, groups, keys);
      if k !in groups {
        keys := keys + [k];
      }
      groups := groups[k := Listed(groups, k) + [s[i]]];
    }
    assert s[..|s|] == s;
  }

  lemma NothingGrouped<T, K(!new)>(s: seq<T>, f: T -> K)
    ensures Grouped(map[], [], s[..0], f)
  {
  }

  lemma GroupStep<T, K(!new)>(s: seq<T>, i: nat, f: T -> K, groups: map<K, seq<T>>, keys: seq<K>)
    requires i < |s| && Grouped(groups, keys, s[..i], f)
    ensures var k := f(s[i]);
            Grouped(groups[k := Listed(groups, k) + [s[i]]], if k in groups then keys else keys + [k], s[..i + 1], f)
  {
    hide Members, FirstKeys;
    FirstKeysStep(s, i, f);
    assert s[..i + 1] == s[..i] + [s[i]];
    var after := groups[f(s[i]) := Listed(groups, f(s[i])) + [s[i]]];
    forall k ensures Listed(after, k) == Members(s[..i + 1], f, k) {
      MembersStep(s[..i], s[i], f, k);
      assert Listed(groups, k) + [] == Listed(groups, k);
    }
  }

  lemma GroupedKeys<T, K(!new)>(groups: map<K, seq<T>>, keys: seq<K>, s: seq<T>, f: T -> K)
    requires Grouped(groups, keys, s, f)
    ensures keys == FirstKeys(s, f)
  {
  }

  lemma GroupAt<T, K(!new)>(groups: map<K, seq<T>>, keys: seq<K>, s: seq<T>, f: T -> K, i: nat)
    requires Grouped(groups, keys, s, f) && i < |keys|
    ensures keys[i] in groups && groups[keys[i]] == Members(s, f, keys[i]) && groups[keys[i]] != []
  {
    assert keys[i] in keys;
    var x :| x in s && f(x) == keys[i];
    assert x in Members(s, f, keys[i]);
  }
}
