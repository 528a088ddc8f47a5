/** itertools.combinations: the k-element subsequences of a sequence, in the order they are produced. */
module Subsets {
  import Ordering

  function PrependAll<T>(x: T, ts: seq<seq<T>>): (r: seq<seq<T>>)
    ensures |r| == |ts| && forall i :: 0 <= i < |ts| ==> r[i] == [x] + ts[i]
  {
    seq(|ts|, i requires 0 <= i < |ts| => [x] + ts[i])
  }

  function Combos<T>(s: seq<T>, k: nat): seq<seq<T>> {
    if k == 0 then [[]]
    else if s == [] then []
    else PrependAll(s[0], Combos(s[1..], k - 1)) + Combos(s[1..], k)
  }

  /** The subsets of lo, lo + 1, .., hi elements. */
  function AllCombos<T>(s: seq<T>, lo: nat, hi: int): seq<seq<T>>
    decreases hi - lo
  {
    if lo > hi then [] else Combos(s, lo) + AllCombos(s, lo + 1, hi)
  }

  function Choose(n: nat, k: nat): nat {
    if k == 0 then 1 else if n == 0 then 0 else Choose(n - 1, k - 1) + Choose(n - 1, k)
  }

  function ChooseSum(n: nat, lo: nat, hi: int): nat
    decreases hi - lo
  {
    if lo > hi then 0 else Choose(n, lo) + ChooseSum(n, lo + 1, hi)
  }

  ghost predicate IsSubsequence<T>(t: seq<T>, s: seq<T>)
    decreases s
  {
    if t == [] then true
    else s != [] && ((t[0] == s[0] && IsSubsequence(t[1..], s[1..])) || IsSubsequence(t, s[1..]))
  }

  /** There are C(n, k) of them. */
  lemma {:induction false} CombosCount<T>(s: seq<T>, k: nat)
    ensures |Combos(s, k)| == Choose(|s|, k)
  {
    if k > 0 && s != [] {
      CombosCount(s[1..], k - 1);
      CombosCount(s[1..], k);
    }
  }

  lemma {:induction false} AllCombosCount<T>(s: seq<T>, lo: nat, hi: int)
    ensures |AllCombos(s, lo, hi)| == ChooseSum(|s|, lo, hi)
    decreases hi - lo
  {
    if lo <= hi {
      CombosCount(s, lo);
      AllCombosCount(s, lo + 1, hi);
    }
  }

  lemma InPrepended<T>(x: T, ts: seq<seq<T>>, t: seq<T>)
    ensures t in PrependAll(x, ts) <==> t != [] && t[0] == x && t[1..] in ts
  {
    var all := PrependAll(x, ts);
    if t in all {
      var i :| 0 <= i < |all| && all[i] == t;
      assert t[1..] == ts[i];
    }
    if t != [] && t[0] == x && t[1..] in ts {
      var i :| 0 <= i < |ts| && ts[i] == t[1..];
      assert all[i] == t;
    }
  }

  /** They are exactly the k-element subsequences. */
  lemma {:induction false} CombosComplete<T>(s: seq<T>, k: nat, t: seq<T>)
    ensures t in Combos(s, k) <==> |t| == k && IsSubsequence(t, s)
    decreases s, k
  {
    hide PrependAll;
    if k > 0 && s != [] {
      var first, second := PrependAll(s[0], Combos(s[1..], k - 1)), Combos(s[1..], k);
      InPrepended(s[0], Combos(s[1..], k - 1), t);
      CombosComplete(s[1..], k, t);
      assert t in Combos(s, k) <==> t in first || t in second;
      if t != [] {
        CombosComplete(s[1..], k - 1, t[1..]);
        assert IsSubsequence(t, s) <==> (t[0] == s[0] && IsSubsequence(t[1..], s[1..])) || IsSubsequence(t, s[1..]);
      }
    } else if k > 0 {
      assert Combos(s, k) == [];
    }
  }

  lemma {:induction false} ShorterSubsequence<T>(t: seq<T>, s: seq<T>)
    ensures IsSubsequence(t, s) ==> |t| <= |s|
    ensures IsSubsequence(t, s) ==> forall x :: x in t ==> x in s
    decreases s
  {
    if t != [] && s != [] {
      ShorterSubsequence(t[1..], s[1..]);
      ShorterSubsequence(t, s[1..]);
      assert t == [t[0]] + t[1..] && s == [s[0]] + s[1..];
    }
  }

  /** Over a sequence without duplicates no subset is produced twice. */
  lemma {:induction false} CombosDistinct<T>(s: seq<T>, k: nat)
    requires Ordering.NoDuplicates(s)
    ensures Ordering.NoDuplicates(Combos(s, k))
    decreases s, k
  {
    if k > 0 && s != [] {
      var rest := s[1..];
      assert Ordering.NoDuplicates(rest) by {
        forall i, j | 0 <= i < j < |rest| ensures rest[i] != rest[j] { assert s[i + 1] != s[j + 1]; }
      }
      CombosDistinct(rest, k - 1);
      CombosDistinct(rest, k);
      var inner := Combos(rest, k - 1);
      var first, second := PrependAll(s[0], inner), Combos(rest, k);
      assert Combos(s, k) == first + second;
      forall i, j | 0 <= i < j < |first + second| ensures (first + second)[i] != (first + second)[j] {
        if j < |first| {
          assert inner[i] != inner[j];
          assert first[i][1..] == inner[i] && first[j][1..] == inner[j];
        } else if i < |first| {
          var u := second[j - |first|];
          assert u in second;
          CombosComplete(rest, k, u);
          ShorterSubsequence(u, rest);
          assert first[i][0] == s[0] && s[0] !in rest;
          assert u[0] in rest;
        } else {
          assert second[i - |first|] != second[j - |first|];
        }
      }
    }
  }

  /** Two subsequences of a sequence without duplicates that have the same elements are equal. */
  lemma {:induction false} SubsequenceByElements<T>(t: seq<T>, u: seq<T>, s: seq<T>)
    requires Ordering.NoDuplicates(s) && IsSubsequence(t, s) && IsSubsequence(u, s)
    requires forall x :: x in t <==> x in u
    ensures t == u
    decreases s
  {
    ShorterSubsequence(t, s);
    ShorterSubsequence(u, s);
    assert (t != [] ==> t[0] in t) && (u != [] ==> u[0] in u);
    if t != [] {
      var rest := s[1..];
      assert s == [s[0]] + rest;
      assert Ordering.NoDuplicates(rest) by {
        forall i, j | 0 <= i < j < |rest| ensures rest[i] != rest[j] { assert s[i + 1] != s[j + 1]; }
      }
      assert s[0] !in rest;
      ShorterSubsequence(t, rest);
      ShorterSubsequence(u, rest);
      ShorterSubsequence(t[1..], rest);
      ShorterSubsequence(u[1..], rest);
      assert t == [t[0]] + t[1..] && u == [u[0]] + u[1..];
      if s[0] in t {
        assert t[0] == s[0] && u[0] == s[0];
        assert forall x :: x in t[1..] <==> x in t && x != s[0];
        assert forall x :: x in u[1..] <==> x in u && x != s[0];
        SubsequenceByElements(t[1..], u[1..], rest);
      } else {
        assert IsSubsequence(t, rest) && IsSubsequence(u, rest);
        SubsequenceByElements(t, u, rest);
      }
    }
  }

  lemma {:induction false} AllCombosComplete<T>(s: seq<T>, lo: nat, hi: int, t: seq<T>)
    ensures t in AllCombos(s, lo, hi) <==> lo <= |t| <= hi && IsSubsequence(t, s)
    decreases hi - lo
  {
    if lo <= hi {
      CombosComplete(s, lo, t);
      AllCombosComplete(s, lo + 1, hi, t);
    }
  }

  lemma ShorterOnesDiffer<T>(s: seq<T>, lo: nat, hi: int, x: seq<T>, y: seq<T>)
    requires x in Combos(s, lo) && y in AllCombos(s, lo + 1, hi)
    ensures x != y
  {
    hide Combos, AllCombos, IsSubsequence;
    CombosComplete(s, lo, x);
    AllCombosComplete(s, lo + 1, hi, y);
  }

  /** A whole enumeration visits each subset at most once. */
  lemma {:induction false} AllCombosDistinct<T>(s: seq<T>, lo: nat, hi: int)
    requires Ordering.NoDuplicates(s)
    ensures Ordering.NoDuplicates(AllCombos(s, lo, hi))
    decreases hi - lo
  {
    hide Combos, Ordering.NoDuplicates;
    if lo <= hi {
      var a, b := Combos(s, lo), AllCombos(s, lo + 1, hi);
      CombosDistinct(s, lo);
      AllCombosDistinct(s, lo + 1, hi);
      forall x, y | x in a && y in b ensures x != y {
        ShorterOnesDiffer(s, lo, hi, x, y);
      }
      Ordering.AppendDistinct(a, b);
    } else {
      assert Ordering.NoDuplicates(AllCombos(s, lo, hi)) by { NothingDistinct<seq<T>>(); }
    }
  }

  lemma NothingDistinct<T>()
    ensures Ordering.NoDuplicates<T>([])
  {
  }

  /** Two visited positions never hold the same set of elements. */
  lemma EachSubsetOnce<T>(s: seq<T>, lo: nat, hi: int, i: nat, j: nat)
    requires Ordering.NoDuplicates(s) && i < j < |AllCombos(s, lo, hi)|
    ensures exists x :: x in AllCombos(s, lo, hi)[i] <==> x !in AllCombos(s, lo, hi)[j]
  {
    var all := AllCombos(s, lo, hi);
    AllCombosDistinct(s, lo, hi);
    assert all[i] in all && all[j] in all;
    AllCombosComplete(s, lo, hi, all[i]);
    AllCombosComplete(s, lo, hi, all[j]);
    if forall x :: x in all[i] <==> x in all[j] {
      SubsequenceByElements(all[i], all[j], s);
    }
  }

  /* ---------- The order in which they are produced ---------- */

  /** t chooses the earlier candidate at p, where the two tuples first choose differently. */
  ghost predicate ChoosesEarlier<T(!new)>(s: seq<T>, t: seq<T>, u: seq<T>) {
    exists p, a, b :: FirstDifference(s, t, u, p, a, b)
  }

  predicate FirstDifference<T(==)>(s: seq<T>, t: seq<T>, u: seq<T>, p: int, a: int, b: int) {
    0 <= p < |t| && p < |u| && t[..p] == u[..p] && 0 <= a < b < |s| && t[p] == s[a] && u[p] == s[b]
  }

  lemma BothTake<T(!new)>(x: T, rest: seq<T>, t: seq<T>, u: seq<T>)
    requires ChoosesEarlier(rest, t, u)
    ensures ChoosesEarlier([x] + rest, [x] + t, [x] + u)
  {
    var p, a, b :| FirstDifference(rest, t, u, p, a, b);
    assert ([x] + t)[..p + 1] == [x] + t[..p] && ([x] + u)[..p + 1] == [x] + u[..p];
    assert FirstDifference([x] + rest, [x] + t, [x] + u, p + 1, a + 1, b + 1);
  }

  lemma NeitherTakes<T(!new)>(x: T, rest: seq<T>, t: seq<T>, u: seq<T>)
    requires ChoosesEarlier(rest, t, u)
    ensures ChoosesEarlier([x] + rest, t, u)
  {
    var p, a, b :| FirstDifference(rest, t, u, p, a, b);
    assert FirstDifference([x] + rest, t, u, p, a + 1, b + 1);
  }

  lemma FirstTakes<T(!new)>(x: T, rest: seq<T>, t: seq<T>, u: seq<T>)
    requires u != [] && IsSubsequence(u, rest)
    ensures ChoosesEarlier([x] + rest, [x] + t, u)
  {
    ShorterSubsequence(u, rest);
    assert u[0] in rest;
    var n :| 0 <= n < |rest| && rest[n] == u[0];
    assert FirstDifference([x] + rest, [x] + t, u, 0, 0, n + 1);
  }

  /** Of two tuples of one size the earlier one has the earlier candidate where they first differ. */
  lemma {:induction false} CombosInOrder<T(!new)>(s: seq<T>, k: nat, i: nat, j: nat)
    requires i < j < |Combos(s, k)|
    ensures ChoosesEarlier(s, Combos(s, k)[i], Combos(s, k)[j])
  {
    hide ChoosesEarlier;
    var rest := s[1..];
    var first, second := Combos(rest, k - 1), Combos(rest, k);
    var t, u := Combos(s, k)[i], Combos(s, k)[j];
    assert s == [s[0]] + rest;
    if j < |first| {
      CombosInOrder(rest, k - 1, i, j);
      BothTake(s[0], rest, first[i], first[j]);
    } else {
      assert u == second[j - |first|] && u in second;
      if i < |first| {
        CombosComplete(rest, k, u);
        FirstTakes(s[0], rest, first[i], u);
      } else {
        CombosInOrder(rest, k, i - |first|, j - |first|);
        NeitherTakes(s[0], rest, t, u);
      }
    }
  }

  /** Smaller subsets come before larger ones. */
  lemma {:induction false} SmallerFirst<T>(s: seq<T>, lo: nat, hi: int, i: nat, j: nat)
    requires i < j < |AllCombos(s, lo, hi)|
    ensures |AllCombos(s, lo, hi)[i]| <= |AllCombos(s, lo, hi)[j]|
    decreases hi - lo
  {
    var these, later := Combos(s, lo), AllCombos(s, lo + 1, hi);
    if i >= |these| {
      SmallerFirst(s, lo + 1, hi, i - |these|, j - |these|);
    } else {
      assert these[i] in these;
      CombosComplete(s, lo, these[i]);
      var u := AllCombos(s, lo, hi)[j];
      assert u in AllCombos(s, lo, hi);
      AllCombosComplete(s, lo, hi, u);
    }
  }

  /** Subsets of one size come in the order of the candidates they first choose differently. */
  lemma {:induction false} SameSizeInOrder<T(!new)>(s: seq<T>, lo: nat, hi: int, i: nat, j: nat)
    requires i < j < |AllCombos(s, lo, hi)| && |AllCombos(s, lo, hi)[i]| == |AllCombos(s, lo, hi)[j]|
    ensures ChoosesEarlier(s, AllCombos(s, lo, hi)[i], AllCombos(s, lo, hi)[j])
    decreases hi - lo
  {
    hide Combos, ChoosesEarlier;
    var these, later := Combos(s, lo), AllCombos(s, lo + 1, hi);
    if j < |these| {
      CombosInOrder(s, lo, i, j);
    } else if i >= |these| {
      SameSizeInOrder(s, lo + 1, hi, i - |these|, j - |these|);
    } else {
      assert these[i] in these && later[j - |these|] in later;
      CombosComplete(s, lo, these[i]);
      AllCombosComplete(s, lo + 1, hi, later[j - |these|]);
      assert false;
    }
  }
}
