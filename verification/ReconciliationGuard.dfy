/** The guard against incompatible cross-provider event matches (bookmakers/reconciliation.py). */
module ReconciliationGuard {
  import opened Wrappers
  import Ordering
  import opened Partitions

  const SECOND: int := 1_000_000

  datatype Candidate = Candidate(
    source: string, eventId: string, eventKey: string, sport: string, competition: string, season: string,
    occurrence: Option<string>,
    date: int, start: Option<int>, home: Option<string>, away: Option<string>, observedAt: int)

  type Identity = (string, string)

  datatype MatchKey = Unmatched | MatchKey(sport: string, home: string, away: string, occurrence: string)

  function IdentityOf(c: Candidate): Identity { (c.source, c.eventId) }

  /** A candidate without both participants or without an occurrence takes part in no match. */
  function KeyOf(c: Candidate): MatchKey {
    if c.home.None? || c.away.None? || c.occurrence.None? then Unmatched
    else MatchKey(c.sport, c.home.value, c.away.value, c.occurrence.value)
  }

  function Distance(a: int, b: int): int {
    if a <= b then b - a else a - b
  }

  /** Two providers disagree on the competition, or lack a start, or start too far apart. */
  predicate Incompatible(l: Candidate, r: Candidate, tolerance: int) {
    l.source != r.source &&
    (l.competition != r.competition || l.start.None? || r.start.None? ||
     Distance(l.start.value, r.start.value) > tolerance * SECOND)
  }

  /** An incompatible pair that the exact reconciliation would match. */
  predicate Clash(l: Candidate, r: Candidate, tolerance: int) {
    KeyOf(l).MatchKey? && KeyOf(l) == KeyOf(r) && Incompatible(l, r, tolerance)
  }

  predicate Clashes(c: Candidate, candidates: seq<Candidate>, tolerance: int) {
    exists d <- candidates :: Clash(c, d, tolerance)
  }

  /** The identities of the candidates that clash with another one. */
  function BlockedIds(candidates: seq<Candidate>, tolerance: int): set<Identity> {
    set c | c in candidates && Clashes(c, candidates, tolerance) :: IdentityOf(c)
  }

  function Cleared(c: Candidate): Candidate {
    c.(occurrence := None)
  }

  function Rewritten(candidates: seq<Candidate>, blocked: set<Identity>): (r: seq<Candidate>)
    ensures |r| == |candidates|
    ensures forall i :: 0 <= i < |r| ==>
              r[i] == if IdentityOf(candidates[i]) in blocked then Cleared(candidates[i]) else candidates[i]
  {
    seq(|candidates|,
        i requires 0 <= i < |candidates| => if IdentityOf(candidates[i]) in blocked then Cleared(candidates[i])
                                            else candidates[i])
  }

  predicate IdentityLe(a: Candidate, b: Candidate) {
    if a.source == b.source then Ordering.StrLe(a.eventId, b.eventId) else Ordering.StrLe(a.source, b.source)
  }

  /** What the guard returns. */
  function Guarded(candidates: seq<Candidate>, tolerance: int): seq<Candidate> {
    var blocked := BlockedIds(candidates, tolerance);
    if blocked == {} then candidates else Ordering.SortBy(Rewritten(candidates, blocked), IdentityLe)
  }

  /* ---------- The loops ---------- */

  /** The pair of positions a and b, in either order, comes before the pair i, j in the nested loops. */
  predicate Before(a: int, b: int, i: int, j: int) {
    var low, high := if a < b then a else b, if a < b then b else a;
    low < high && (low < i || (low == i && high < j))
  }

  ghost predicate FoundIn(group: seq<Candidate>, tolerance: int, i: int, j: int, id: Identity) {
    exists a, b :: 0 <= a < |group| && 0 <= b < |group| && Before(a, b, i, j)
                   && Incompatible(group[a], group[b], tolerance)
                   && id == IdentityOf(group[a])
  }

  lemma FoundNext(group: seq<Candidate>, tolerance: int, i: int, j: int, id: Identity)
    requires 0 <= i < j < |group|
    ensures FoundIn(group, tolerance, i, j + 1, id) <==>
            FoundIn(group, tolerance, i, j, id)
            || (Incompatible(group[i], group[j], tolerance) &&
                (id == IdentityOf(group[i]) || id == IdentityOf(group[j])))
  {
    hide Incompatible, IdentityOf;
    SymmetricPair(group[i], group[j], tolerance);
    if FoundIn(group, tolerance, i, j, id) {
      var a, b :| 0 <= a < |group| && 0 <= b < |group| && Before(a, b, i, j)
                  && Incompatible(group[a], group[b], tolerance)
                  && id == IdentityOf(group[a]);
      assert Before(a, b, i, j + 1);
    }
    assert Before(i, j, i, j + 1) && Before(j, i, i, j + 1);
    if FoundIn(group, tolerance, i, j + 1, id) {
      var a, b :| 0 <= a < |group| && 0 <= b < |group| && Before(a, b, i, j + 1)
                  && Incompatible(group[a], group[b], tolerance)
                  && id == IdentityOf(group[a]);
      assert Before(a, b, i, j) || (a == i && b == j) || (a == j && b == i);
    }
  }

  lemma SymmetricPair(l: Candidate, r: Candidate, tolerance: int)
    ensures Incompatible(l, r, tolerance) == Incompatible(r, l, tolerance)
  {
  }

  /** What the pair of positions i and j adds to the blocked identities. */
  lemma BlockNext(group: seq<Candidate>, tolerance: int, i: int, j: int, blocked: set<Identity>)
    requires 0 <= i < j < |group| && forall id :: id in blocked <==> FoundIn(group, tolerance, i, j, id)
    ensures var clash := Incompatible(group[i], group[j], tolerance);
            var after := if clash then blocked + {IdentityOf(group[i]), IdentityOf(group[j])} else blocked;
            forall id :: id in after <==> FoundIn(group, tolerance, i, j + 1, id)
  {
    hide FoundIn, Incompatible, IdentityOf;
    var clash := Incompatible(group[i], group[j], tolerance);
    var after := if clash then blocked + {IdentityOf(group[i]), IdentityOf(group[j])} else blocked;
    forall id: Identity ensures id in after <==> FoundIn(group, tolerance, i, j + 1, id) {
      FoundNext(group, tolerance, i, j, id);
    }
  }

  lemma NextRow(group: seq<Candidate>, tolerance: int, i: int, id: Identity)
    requires 0 <= i < |group|
    ensures FoundIn(group, tolerance, i, |group|, id) <==> FoundIn(group, tolerance, i + 1, i + 2, id)
  {
    hide Incompatible, IdentityOf;
    assert forall a, b :: 0 <= a < |group| && 0 <= b < |group| ==>
             (Before(a, b, i, |group|) <==> Before(a, b, i + 1, i + 2));
  }

  /** The pairs of one group. */
  method BlockGroup(group: seq<Candidate>, tolerance: int) returns (blocked: set<Identity>)
    ensures forall id :: id in blocked <==> FoundIn(group, tolerance, |group|, |group| + 1, id)
  {
    hide FoundIn;
    blocked := {};
    NothingFound(group, tolerance);
    for i := 0 to |group|
      invariant forall id :: id in blocked <==> FoundIn(group, tolerance, i, i + 1, id)
    {
      var left := group[i];
      for j := i + 1 to |group|
        invariant forall id :: id in blocked <==> FoundIn(group, tolerance, i, j, id)
      {
        var right := group[j];
        ghost var before := blocked;
        if left.source != right.source {
          if left.competition != right.competition {
            blocked := blocked + {IdentityOf(left), IdentityOf(right)};
          } else if left.start.None? || right.start.None? {
            blocked := blocked + {IdentityOf(left), IdentityOf(right)};
          } else if Distance(left.start.value, right.start.value) > tolerance * SECOND {
            blocked := blocked + {IdentityOf(left), IdentityOf(right)};
          }
        }
        BlockNext(group, tolerance, i, j, before);
      }
      forall id: Identity
        ensures FoundIn(group, tolerance, i, |group|, id) <==> FoundIn(group, tolerance, i + 1, i + 2, id)
      {
        NextRow(group, tolerance, i, id);
      }
    }
  }

  lemma NothingFound(group: seq<Candidate>, tolerance: int)
    ensures forall id :: !FoundIn(group, tolerance, 0, 1, id)
  {
  }

  /** In a group of one match key the pairs found are the clashes. */
  lemma FoundAreClashes(candidates: seq<Candidate>, key: MatchKey, tolerance: int, id: Identity)
    requires key.MatchKey?
    ensures var group := Members(candidates, KeyOf, key);
            FoundIn(group, tolerance, |group|, |group| + 1, id) <==>
            exists c <- candidates :: KeyOf(c) == key && IdentityOf(c) == id && Clashes(c, candidates, tolerance)
  {
    hide Incompatible, IdentityOf, KeyOf, Members;
    var group := Members(candidates, KeyOf, key);
    if FoundIn(group, tolerance, |group|, |group| + 1, id) {
      var a, b :| 0 <= a < |group| && 0 <= b < |group| && Before(a, b, |group|, |group| + 1)
                  && Incompatible(group[a], group[b], tolerance)
                  && id == IdentityOf(group[a]);
      assert group[a] in group && group[b] in group;
      assert Clash(group[a], group[b], tolerance);
    }
    if c :| c in candidates && KeyOf(c) == key && IdentityOf(c) == id && Clashes(c, candidates, tolerance) {
      var d :| d in candidates && Clash(c, d, tolerance);
      assert c in group && d in group;
      var a :| 0 <= a < |group| && group[a] == c;
      var b :| 0 <= b < |group| && group[b] == d;
      NotAlone(c, d, tolerance);
      assert Before(a, b, |group|, |group| + 1);
    }
  }

  lemma NotAlone(c: Candidate, d: Candidate, tolerance: int)
    requires Incompatible(c, d, tolerance)
    ensures c != d
  {
  }

  predicate IsMatched(c: Candidate) { KeyOf(c).MatchKey? }

  function Matched(candidates: seq<Candidate>): (r: seq<Candidate>)
    ensures forall c <- r :: c in candidates && IsMatched(c)
    ensures forall c <- candidates :: IsMatched(c) ==> c in r
  {
    if candidates == [] then []
    else
      var front, last := candidates[..|candidates| - 1], candidates[|candidates| - 1];
      assert candidates == front + [last];
      Matched(front) + if IsMatched(last) then [last] else []
  }

  lemma {:induction false} MatchedMembers(candidates: seq<Candidate>, key: MatchKey)
    requires key.MatchKey?
    ensures Members(Matched(candidates), KeyOf, key) == Members(candidates, KeyOf, key)
  {
    hide KeyOf;
    if candidates != [] {
      var front, last := candidates[..|candidates| - 1], candidates[|candidates| - 1];
      MatchedMembers(front, key);
      assert candidates == front + [last];
      MembersStep(front, last, KeyOf, key);
      if IsMatched(last) {
        MembersStep(Matched(front), last, KeyOf, key);
      } else {
        assert Matched(front) + [] == Matched(front);
      }
    }
  }

  /** The identities blocked by the groups of the first n keys. */
  ghost predicate BlockedSoFar(candidates: seq<Candidate>, keys: seq<MatchKey>, n: nat, tolerance: int, id: Identity)
    requires n <= |keys|
  {
    exists c <- candidates :: KeyOf(c) in keys[..n] && IdentityOf(c) == id && Clashes(c, candidates, tolerance)
  }

  lemma BlockedNext(candidates: seq<Candidate>, keys: seq<MatchKey>, n: nat, tolerance: int, id: Identity)
    requires n < |keys| && keys[n].MatchKey?
    ensures var group := Members(candidates, KeyOf, keys[n]);
            BlockedSoFar(candidates, keys, n + 1, tolerance, id) <==>
            BlockedSoFar(candidates, keys, n, tolerance, id) || FoundIn(group, tolerance, |group|, |group| + 1, id)
  {
    hide KeyOf, IdentityOf, Clashes, Members, FoundIn;
    FoundAreClashes(candidates, keys[n], tolerance, id);
    assert keys[..n + 1] == keys[..n] + [keys[n]];
  }

  lemma SmallGroup(group: seq<Candidate>, tolerance: int, id: Identity)
    requires |group| < 2
    ensures !FoundIn(group, tolerance, |group|, |group| + 1, id)
  {
  }

  lemma AllKeys(candidates: seq<Candidate>, keys: seq<MatchKey>, tolerance: int, id: Identity)
    requires keys == FirstKeys(Matched(candidates), KeyOf)
    ensures BlockedSoFar(candidates, keys, |keys|, tolerance, id) <==> id in BlockedIds(candidates, tolerance)
    ensures forall k <- keys :: k.MatchKey?
    ensures !BlockedSoFar(candidates, keys, 0, tolerance, id)
  {
    hide FirstKeys, KeyOf;
    assert keys[..|keys|] == keys;
    forall c <- candidates ensures Clashes(c, candidates, tolerance) ==> KeyOf(c) in keys {
      if Clashes(c, candidates, tolerance) {
        assert IsMatched(c);
      }
    }
  }

  /** The grouping and the pair loops together. */
  method BlockIncompatible(candidates: seq<Candidate>, tolerance: int) returns (blocked: set<Identity>)
    ensures blocked == BlockedIds(candidates, tolerance)
  {
    hide BlockedIds, FoundIn, BlockedSoFar, Members, FirstKeys, Matched, Grouped;
    var matched := Matched(candidates);
    var groups, keys := GroupBy(matched, KeyOf);
    GroupedKeys(groups, keys, matched, KeyOf);
    blocked := {};
    forall id: Identity
      ensures BlockedSoFar(candidates, keys, |keys|, tolerance, id) <==> id in BlockedIds(candidates, tolerance)
      ensures (forall k <- keys :: k.MatchKey?) && !BlockedSoFar(candidates, keys, 0, tolerance, id)
    {
      AllKeys(candidates, keys, tolerance, id);
    }
    KeysMatched(candidates, keys, tolerance);
    for n := 0 to |keys|
      invariant forall id :: id in blocked <==> BlockedSoFar(candidates, keys, n, tolerance, id)
    {
      GroupAt(groups, keys, matched, KeyOf, n);
      var group := groups[keys[n]];
      assert keys[n] in keys;
      MatchedMembers(candidates, keys[n]);
      ghost var before := blocked;
      if |group| >= 2 {
        var found := BlockGroup(group, tolerance);
        blocked := blocked + found;
      }
      BlockedGroup(candidates, keys, n, tolerance, before, blocked, group);
    }
  }

  lemma KeysMatched(candidates: seq<Candidate>, keys: seq<MatchKey>, tolerance: int)
    requires keys == FirstKeys(Matched(candidates), KeyOf)
    ensures forall k <- keys :: k.MatchKey?
  {
    AllKeys(candidates, keys, tolerance, ("", ""));
  }

  lemma BlockedGroup(candidates: seq<Candidate>, keys: seq<MatchKey>, n: nat, tolerance: int, before: set<Identity>,
                     after: set<Identity>,
                     group: seq<Candidate>)
    requires n < |keys| && keys[n].MatchKey? && group == Members(candidates, KeyOf, keys[n])
    requires forall id :: id in before <==> BlockedSoFar(candidates, keys, n, tolerance, id)
    requires if |group| < 2 then after == before
             else forall id :: id in after <==> id in before || FoundIn(group, tolerance, |group|, |group| + 1, id)
    ensures forall id :: id in after <==> BlockedSoFar(candidates, keys, n + 1, tolerance, id)
  {
    hide FoundIn, BlockedSoFar, Members;
    forall id: Identity ensures id in after <==> BlockedSoFar(candidates, keys, n + 1, tolerance, id) {
      BlockedNext(candidates, keys, n, tolerance, id);
      if |group| < 2 {
        SmallGroup(group, tolerance, id);
      }
    }
  }

  /** _reject_incompatible_cross_provider_pairs */
  method RejectIncompatiblePairs(candidates: seq<Candidate>, tolerance: int) returns (r: seq<Candidate>)
    ensures r == Guarded(candidates, tolerance)
  {
    hide BlockedIds, Ordering.SortBy;
    var blocked := BlockIncompatible(candidates, tolerance);
    if blocked == {} {
      return candidates;
    }
    var rewritten: seq<Candidate> := [];
    for i := 0 to |candidates|
      invariant rewritten == Rewritten(candidates, blocked)[..i]
    {
      var c := candidates[i];
      if IdentityOf(c) !in blocked {
        rewritten := rewritten + [c];
      } else {
        rewritten := rewritten + [Cleared(c)];
      }
    }
    assert Rewritten(candidates, blocked)[..|candidates|] == Rewritten(candidates, blocked);
    r := Ordering.SortBy(rewritten, IdentityLe);
  }

  /* ---------- What the guard achieves ---------- */

  lemma GuardedElements(candidates: seq<Candidate>, tolerance: int)
    ensures forall c :: c in Guarded(candidates, tolerance) <==>
            c in Rewritten(candidates, BlockedIds(candidates, tolerance))
  {
    hide IdentityOf;
    var blocked := BlockedIds(candidates, tolerance);
    if blocked == {} {
      assert Rewritten(candidates, blocked) == candidates;
    } else {
      Ordering.SameElements(Guarded(candidates, tolerance), Rewritten(candidates, blocked));
    }
  }

  /** A candidate that still takes part in matches was left alone. */
  lemma MatchedWasKept(candidates: seq<Candidate>, tolerance: int, c: Candidate)
    requires c in Guarded(candidates, tolerance) && IsMatched(c)
    ensures c in candidates && forall d <- candidates :: !Clash(c, d, tolerance)
  {
    hide Clash, Ordering.SortBy;
    GuardedElements(candidates, tolerance);
    var blocked := BlockedIds(candidates, tolerance);
    var i :| 0 <= i < |candidates| && Rewritten(candidates, blocked)[i] == c;
    assert candidates[i] == c && IdentityOf(c) !in blocked;
    assert !Clashes(c, candidates, tolerance);
  }

  /** Afterwards no two candidates clash, so the exact reconciliation matches no incompatible pair. */
  lemma NoClashRemains(candidates: seq<Candidate>, tolerance: int, l: Candidate, r: Candidate)
    requires l in Guarded(candidates, tolerance) && r in Guarded(candidates, tolerance)
    ensures !Clash(l, r, tolerance)
  {
    hide Incompatible, Guarded;
    if IsMatched(l) && IsMatched(r) {
      MatchedWasKept(candidates, tolerance, l);
      MatchedWasKept(candidates, tolerance, r);
    }
  }

  /**
   * No candidate is lost or invented: the result rearranges the input, and only occurrences of blocked identities are
   * cleared.
   */
  lemma OnlyOccurrencesChange(candidates: seq<Candidate>, tolerance: int)
    ensures multiset(Guarded(candidates, tolerance)) ==
            multiset(Rewritten(candidates, BlockedIds(candidates, tolerance)))
    ensures forall i :: 0 <= i < |candidates| ==>
              var c := candidates[i]; var d := Rewritten(candidates, BlockedIds(candidates, tolerance))[i];
              d == c.(occurrence := d.occurrence)
    ensures forall i :: 0 <= i < |candidates| ==>
              var c := candidates[i]; var d := Rewritten(candidates, BlockedIds(candidates, tolerance))[i];
              (d == c <==> c.occurrence.None? || IdentityOf(c) !in BlockedIds(candidates, tolerance))
  {
    var blocked := BlockedIds(candidates, tolerance);
    if blocked == {} {
      assert Rewritten(candidates, blocked) == candidates;
    }
  }

  lemma NothingBlockedTwice(candidates: seq<Candidate>, tolerance: int)
    ensures BlockedIds(Guarded(candidates, tolerance), tolerance) == {}
  {
    hide Clash, Ordering.SortBy;
    var guarded := Guarded(candidates, tolerance);
    forall c <- guarded ensures !Clashes(c, guarded, tolerance) {
      forall d <- guarded ensures !Clash(c, d, tolerance) {
        NoClashRemains(candidates, tolerance, c, d);
      }
    }
  }

  /** Applying the guard twice is applying it once. */
  lemma GuardIsIdempotent(candidates: seq<Candidate>, tolerance: int)
    ensures Guarded(Guarded(candidates, tolerance), tolerance) == Guarded(candidates, tolerance)
  {
    hide BlockedIds, Ordering.SortBy;
    NothingBlockedTwice(candidates, tolerance);
  }

  /**
   * An identity is blocked exactly when one of its candidates clashes; with unique identities that is the candidate
   * itself.
   */
  lemma BlockedExactly(candidates: seq<Candidate>, tolerance: int, c: Candidate)
    requires c in candidates && forall d <- candidates :: IdentityOf(d) == IdentityOf(c) ==> d == c
    ensures IdentityOf(c) in BlockedIds(candidates, tolerance) <==>
            exists d <- candidates :: KeyOf(c).MatchKey? && KeyOf(c) == KeyOf(d) && Incompatible(c, d, tolerance)
  {
    hide Incompatible, KeyOf;
    if IdentityOf(c) in BlockedIds(candidates, tolerance) {
      var e :| e in candidates && Clashes(e, candidates, tolerance) && IdentityOf(e) == IdentityOf(c);
      var d :| d in candidates && Clash(e, d, tolerance);
    }
    if d :| d in candidates && KeyOf(c).MatchKey? && KeyOf(c) == KeyOf(d) && Incompatible(c, d, tolerance) {
      assert Clash(c, d, tolerance);
      assert Clashes(c, candidates, tolerance);
    }
  }

  /* ---------- The same, on the fields ---------- */

  lemma IncompatibleOnFields(l: Candidate, r: Candidate, tolerance: int)
    ensures Clash(l, r, tolerance) <==>
            && l.home.Some? && l.away.Some? && l.occurrence.Some? && l.home == r.home && l.away == r.away
            && l.occurrence == r.occurrence && l.sport == r.sport && l.source != r.source
            && (l.competition != r.competition || l.start.None? || r.start.None? ||
                l.start.value - r.start.value > tolerance * 1_000_000 ||
                r.start.value - l.start.value > tolerance * 1_000_000)
  {
  }

  /**
   * A candidate with a unique provider and event identifier leaves the guard without its occurrence exactly when
   * another provider's candidate of the same sport, participants and occurrence has another competition, when either
   * start is missing, or when they lie more than the tolerance apart; otherwise it leaves as it came.
   */
  lemma GuardOnFields(candidates: seq<Candidate>, tolerance: int, c: Candidate)
    requires c in candidates
    requires forall d <- candidates :: d.source == c.source && d.eventId == c.eventId ==> d == c
    ensures |Guarded(candidates, tolerance)| == |candidates|
    ensures c.(occurrence :=
                 if exists d <- candidates ::
                      && c.home.Some? && c.away.Some? && c.occurrence.Some? && c.home == d.home && c.away == d.away
                      && c.occurrence == d.occurrence && c.sport == d.sport && c.source != d.source
                      && (c.competition != d.competition || c.start.None? || d.start.None? ||
                          c.start.value - d.start.value > tolerance * 1_000_000 ||
                          d.start.value - c.start.value > tolerance * 1_000_000)
                 then None else c.occurrence) in Guarded(candidates, tolerance)
  {
    hide Clash, Guarded, BlockedIds;
    GuardedLength(candidates, tolerance);
    GuardedElements(candidates, tolerance);
    forall d { IncompatibleOnFields(c, d, tolerance); }
    var blocked := BlockedIds(candidates, tolerance);
    assert IdentityOf(c) in blocked <==> exists d <- candidates :: Clash(c, d, tolerance) by {
      UniqueBlocked(candidates, tolerance, c);
    }
    var i :| 0 <= i < |candidates| && candidates[i] == c;
    assert Rewritten(candidates, blocked)[i] in Rewritten(candidates, blocked);
  }

  lemma GuardedLength(candidates: seq<Candidate>, tolerance: int)
    ensures |Guarded(candidates, tolerance)| == |candidates|
  {
    hide BlockedIds, Ordering.SortBy;
  }

  lemma UniqueBlocked(candidates: seq<Candidate>, tolerance: int, c: Candidate)
    requires c in candidates && forall d <- candidates :: IdentityOf(d) == IdentityOf(c) ==> d == c
    ensures IdentityOf(c) in BlockedIds(candidates, tolerance) <==> exists d <- candidates :: Clash(c, d, tolerance)
  {
    hide Incompatible, KeyOf;
    BlockedExactly(candidates, tolerance, c);
    if d :| d in candidates && KeyOf(c).MatchKey? && KeyOf(c) == KeyOf(d) && Incompatible(c, d, tolerance) {
      assert Clash(c, d, tolerance);
    }
    if d :| d in candidates && Clash(c, d, tolerance) {
      assert KeyOf(c).MatchKey? && KeyOf(c) == KeyOf(d) && Incompatible(c, d, tolerance);
    }
  }

  /** Once anything is blocked the result is ordered by provider and then by event identifier; otherwise it is kept. */
  lemma GuardedInOrder(candidates: seq<Candidate>, tolerance: int, i: nat, j: nat)
    requires i < j < |candidates| == |Guarded(candidates, tolerance)|
    ensures var (a, b) := (Guarded(candidates, tolerance)[i], Guarded(candidates, tolerance)[j]);
            || Guarded(candidates, tolerance) == candidates
            || (a.source == b.source && Ordering.StrLe(a.eventId, b.eventId))
            || (a.source != b.source && Ordering.StrLe(a.source, b.source))
  {
    hide BlockedIds, Ordering.SortBy;
    var blocked := BlockedIds(candidates, tolerance);
    if blocked != {} {
      IdentityLeIsTotalPreorder();
      Ordering.SortBySorted(Rewritten(candidates, blocked), IdentityLe);
      assert IdentityLe(Guarded(candidates, tolerance)[i], Guarded(candidates, tolerance)[j]);
    }
  }

  lemma IdentityLeIsTotalPreorder()
    ensures Ordering.TotalPreorder(IdentityLe)
  {
    forall x: Candidate, y: Candidate ensures IdentityLe(x, y) || IdentityLe(y, x) {
      Ordering.StrLeTotal(x.source, y.source);
      Ordering.StrLeTotal(x.eventId, y.eventId);
    }
    forall x: Candidate, y: Candidate, z: Candidate | IdentityLe(x, y) && IdentityLe(y, z) ensures IdentityLe(x, z) {
      Ordering.StrLeChain(x.source, y.source, z.source);
      Ordering.StrLeChain(x.eventId, y.eventId, z.eventId);
    }
  }
}
