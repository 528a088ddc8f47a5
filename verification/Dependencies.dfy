/** Pairwise dependency classification of combination legs (combinations/contracts.py). */
module Dependencies {
  import opened Wrappers
  import Ordering
  import opened Opportunities

  datatype DependencyClass = CONFLICT | UNKNOWN | STRUCTURALLY_SEPARATE

  datatype DependencyReason =
    | DuplicateSelection
    | OutcomesOfOneMarket
    | OneEventDifferentMarkets
    | IncompleteMetadata
    | ContradictoryClaims
    | SharedDependencyKeys
    | SharedParticipants
    | DistinctKeysAndParticipants

  datatype LegDependency = LegDependency(leftId: string, rightId: string, classification: DependencyClass,
                                         reason: DependencyReason)

  const CLAIM_PREFIX: string := "exclusive:"

  datatype Claim = Claim(scope: string, value: string)

  /** Index of the first occurrence of c in s, or |s|. */
  function IndexOf(s: string, c: char): (i: nat)
    ensures i <= |s| && c !in s[..i] && (i < |s| ==> s[i] == c)
  {
    if s == [] || s[0] == c then 0
    else
      var i := 1 + IndexOf(s[1..], c);
      assert s[..i] == [s[0]] + s[1..][..i - 1];
      i
  }

  /** An `exclusive:<scope>=<value>` key with both parts present; every other key claims nothing. */
  function ParseClaim(key: string): Option<Claim> {
    if !(CLAIM_PREFIX <= key) || '=' !in key then None
    else
      var rest := key[|CLAIM_PREFIX|..];
      var split := IndexOf(rest, '=');
      if split == 0 || split + 1 >= |rest| then None
      else Some(Claim(rest[..split], rest[split + 1..]))
  }

  /** The claims dictionary after iterating over `keys`: a later key overwrites an earlier one. */
  function ClaimsOf(keys: seq<string>): map<string, string> {
    if keys == [] then map[]
    else
      var before := ClaimsOf(keys[..|keys| - 1]);
      match ParseClaim(keys[|keys| - 1])
      case None => before
      case Some(claim) => before[claim.scope := claim.value]
  }

  method Claims(keys: seq<string>) returns (parsed: map<string, string>)
    ensures parsed == ClaimsOf(keys)
  {
    parsed := map[];
    for i := 0 to |keys|
      invariant parsed == ClaimsOf(keys[..i])
    {
      assert keys[..i + 1][..i] == keys[..i];
      var claim := ParseClaim(keys[i]);
      if claim.Some? {
        parsed := parsed[claim.value.scope := claim.value.value];
      }
    }
    assert keys[..|keys|] == keys;
  }

  predicate Contradictory(left: seq<string>, right: seq<string>) {
    var l, r := ClaimsOf(left), ClaimsOf(right);
    exists scope :: scope in l && scope in r && r[scope] != l[scope]
  }

  predicate Share(left: seq<string>, right: seq<string>) {
    exists key :: key in left && key in right
  }

  /** The facts about one leg that classification looks at. */
  datatype LegFacts = LegFacts(id: string, eventId: string, selection: Selection, keys: seq<string>,
                               participants: set<string>, complete: bool)

  function FactsOf(o: Opportunity): LegFacts {
    LegFacts(o.id, o.eventId, o.selection, o.dependencyKeys, (set p | p in o.participantIds), o.metadataComplete)
  }

  function Classify(l: LegFacts, r: LegFacts): (DependencyClass, DependencyReason) {
    if l.id == r.id || (l.eventId == r.eventId && l.selection == r.selection) then
      (CONFLICT, DuplicateSelection)
    else if l.eventId == r.eventId then
      if l.selection.market == r.selection.market then (CONFLICT, OutcomesOfOneMarket)
      else (UNKNOWN, OneEventDifferentMarkets)
    else if !l.complete || !r.complete then (UNKNOWN, IncompleteMetadata)
    else if Contradictory(l.keys, r.keys) then (CONFLICT, ContradictoryClaims)
    else if Share(l.keys, r.keys) then (UNKNOWN, SharedDependencyKeys)
    else if l.participants * r.participants != {} then (UNKNOWN, SharedParticipants)
    else (STRUCTURALLY_SEPARATE, DistinctKeysAndParticipants)
  }

  /** _classify_dependency_pair: the identifiers are reported in sorted order. */
  function ClassifyPair(l: LegFacts, r: LegFacts): LegDependency {
    var (classification, reason) := Classify(l, r);
    if Ordering.StrLe(l.id, r.id) then LegDependency(l.id, r.id, classification, reason)
    else LegDependency(r.id, l.id, classification, reason)
  }

  /** A leg pair is classified the same whichever leg is named first. */
  lemma ClassifyPairSymmetric(l: LegFacts, r: LegFacts)
    ensures ClassifyPair(l, r) == ClassifyPair(r, l)
  {
    Ordering.StrLeTotal(l.id, r.id);
    if Ordering.StrLe(l.id, r.id) && Ordering.StrLe(r.id, l.id) {
      Ordering.StrLeAntisymmetric(l.id, r.id);
    }
    assert l.participants * r.participants == r.participants * l.participants;
  }

  /** No two keys claim different values for one scope. */
  ghost predicate Unambiguous(keys: seq<string>) {
    forall i, j :: 0 <= i < |keys| && 0 <= j < |keys| && ParseClaim(keys[i]).Some? && ParseClaim(keys[j]).Some?
      && ParseClaim(keys[i]).value.scope == ParseClaim(keys[j]).value.scope
      ==> ParseClaim(keys[i]).value.value == ParseClaim(keys[j]).value.value
  }

  ghost predicate SameKeys(a: seq<string>, b: seq<string>) {
    && Ordering.NoDuplicates(a) && Ordering.NoDuplicates(b)
    && forall k :: k in a <==> k in b
  }

  lemma {:induction false} ClaimsSound(keys: seq<string>, scope: string)
    ensures scope in ClaimsOf(keys) <==>
            exists i :: 0 <= i < |keys| && ParseClaim(keys[i]).Some? && ParseClaim(keys[i]).value.scope == scope
    ensures scope in ClaimsOf(keys) ==>
            exists i :: 0 <= i < |keys| && ParseClaim(keys[i]) == Some(Claim(scope, ClaimsOf(keys)[scope]))
  {
    if keys != [] {
      var n := |keys| - 1;
      var before := keys[..n];
      ClaimsSound(before, scope);
      if scope in ClaimsOf(before) {
        var i :| 0 <= i < n && ParseClaim(before[i]) == Some(Claim(scope, ClaimsOf(before)[scope]));
        assert keys[i] == before[i];
      }
      if i :| 0 <= i < |keys| && ParseClaim(keys[i]).Some? && ParseClaim(keys[i]).value.scope == scope {
        assert i < n ==> before[i] == keys[i];
        assert scope in ClaimsOf(keys);
      }
      if ParseClaim(keys[n]).Some? && ParseClaim(keys[n]).value.scope == scope {
        assert ParseClaim(keys[n]) == Some(Claim(scope, ClaimsOf(keys)[scope]));
      }
    }
  }

  /** Unambiguous key sets claim the same in every iteration order. */
  lemma ClaimsIgnoreOrder(a: seq<string>, b: seq<string>)
    requires SameKeys(a, b) && Unambiguous(a)
    ensures ClaimsOf(a) == ClaimsOf(b)
  {
    forall scope ensures scope in ClaimsOf(a) <==> scope in ClaimsOf(b) {
      ClaimsSound(a, scope);
      ClaimsSound(b, scope);
      if i :| 0 <= i < |a| && ParseClaim(a[i]).Some? && ParseClaim(a[i]).value.scope == scope {
        assert a[i] in b;
      }
      if i :| 0 <= i < |b| && ParseClaim(b[i]).Some? && ParseClaim(b[i]).value.scope == scope {
        assert b[i] in a;
      }
    }
    forall scope | scope in ClaimsOf(a) ensures ClaimsOf(a)[scope] == ClaimsOf(b)[scope] {
      ClaimsSound(a, scope);
      ClaimsSound(b, scope);
      var i :| 0 <= i < |a| && ParseClaim(a[i]) == Some(Claim(scope, ClaimsOf(a)[scope]));
      var j :| 0 <= j < |b| && ParseClaim(b[j]) == Some(Claim(scope, ClaimsOf(b)[scope]));
      assert b[j] in a;
      var k :| 0 <= k < |a| && a[k] == b[j];
    }
  }

  /** A key of one leg and a key of the other claim different values for one scope. */
  predicate Contradict(j: string, k: string) {
    ParseClaim(j).Some? && ParseClaim(k).Some?
    && ParseClaim(j).value.scope == ParseClaim(k).value.scope && ParseClaim(j).value.value != ParseClaim(k).value.value
  }

  lemma ContradictoryExactly(left: seq<string>, right: seq<string>)
    requires Unambiguous(left) && Unambiguous(right)
    ensures Contradictory(left, right) <==> exists j <- left, k <- right :: Contradict(j, k)
  {
    hide ParseClaim, ClaimsOf;
    if scope :| scope in ClaimsOf(left) && scope in ClaimsOf(right) && ClaimsOf(right)[scope] != ClaimsOf(left)[scope] {
      ClaimsSound(left, scope);
      ClaimsSound(right, scope);
      var i :| 0 <= i < |left| && ParseClaim(left[i]) == Some(Claim(scope, ClaimsOf(left)[scope]));
      var n :| 0 <= n < |right| && ParseClaim(right[n]) == Some(Claim(scope, ClaimsOf(right)[scope]));
      assert left[i] in left && right[n] in right && Contradict(left[i], right[n]);
    }
    if j, k :| j in left && k in right && Contradict(j, k) {
      var scope := ParseClaim(j).value.scope;
      ClaimIs(left, j);
      ClaimIs(right, k);
      assert scope in ClaimsOf(left) && scope in ClaimsOf(right);
    }
  }

  /** In an unambiguous key set every claiming key decides its scope. */
  lemma ClaimIs(keys: seq<string>, key: string)
    requires Unambiguous(keys) && key in keys && ParseClaim(key).Some?
    ensures ParseClaim(key).value.scope in ClaimsOf(keys)
    ensures ClaimsOf(keys)[ParseClaim(key).value.scope] == ParseClaim(key).value.value
  {
    hide ParseClaim, ClaimsOf;
    var scope := ParseClaim(key).value.scope;
    var i :| 0 <= i < |keys| && keys[i] == key;
    ClaimsSound(keys, scope);
    var n :| 0 <= n < |keys| && ParseClaim(keys[n]) == Some(Claim(scope, ClaimsOf(keys)[scope]));
    assert ParseClaim(keys[i]).value.scope == ParseClaim(keys[n]).value.scope;
  }

  /**
   * Two legs are structurally separate exactly when they are of different events with complete metadata, share no key
   * and no participant, and no two of their keys contradict each other.
   */
  lemma SeparateExactly(l: LegFacts, r: LegFacts)
    requires Unambiguous(l.keys) && Unambiguous(r.keys)
    ensures Classify(l, r).0 == STRUCTURALLY_SEPARATE <==>
            && l.id != r.id && l.eventId != r.eventId && l.complete && r.complete
            && (forall k <- l.keys :: k !in r.keys) && l.participants * r.participants == {}
            && !exists j <- l.keys, k <- r.keys :: Contradict(j, k)
  {
    hide Contradictory, Contradict, Unambiguous;
    ContradictoryExactly(l.keys, r.keys);
  }

  /** Moving one key to the end keeps the key set. */
  lemma MoveToEnd(keys: seq<string>, i: nat) returns (moved: seq<string>)
    requires Ordering.NoDuplicates(keys) && i < |keys|
    ensures SameKeys(keys, moved) && moved != [] && moved[|moved| - 1] == keys[i]
  {
    moved := keys[..i] + keys[i + 1..] + [keys[i]];
    forall k ensures k in keys <==> k in moved {
      if k in keys {
        var j :| 0 <= j < |keys| && keys[j] == k;
        assert moved[if j < i then j else if j == i then |keys| - 1 else j - 1] == k;
      }
    }
    assert Ordering.NoDuplicates(moved) by {
      forall p, q | 0 <= p < q < |moved| ensures moved[p] != moved[q] {
        var p' := if p < i then p else p + 1;
        var q' := if q == |keys| - 1 then i else if q < i then q else q + 1;
        assert moved[p] == keys[p'] && moved[q] == keys[q'] && p' != q';
      }
    }
  }

  /** The claims of a key set are independent of its iteration order exactly when it is unambiguous. */
  lemma ClaimsOrderIndependent(keys: seq<string>)
    requires Ordering.NoDuplicates(keys)
    ensures Unambiguous(keys) <==> forall other :: SameKeys(keys, other) ==> ClaimsOf(other) == ClaimsOf(keys)
  {
    if Unambiguous(keys) {
      forall other | SameKeys(keys, other) ensures ClaimsOf(other) == ClaimsOf(keys) {
        ClaimsIgnoreOrder(keys, other);
      }
    } else {
      var i, j :| 0 <= i < |keys| && 0 <= j < |keys| && ParseClaim(keys[i]).Some? && ParseClaim(keys[j]).Some?
        && ParseClaim(keys[i]).value.scope == ParseClaim(keys[j]).value.scope
        && ParseClaim(keys[i]).value.value != ParseClaim(keys[j]).value.value;
      var scope := ParseClaim(keys[i]).value.scope;
      var a := MoveToEnd(keys, i);
      var b := MoveToEnd(keys, j);
      assert ClaimsOf(a)[scope] == ParseClaim(keys[i]).value.value;
      assert ClaimsOf(b)[scope] == ParseClaim(keys[j]).value.value;
      assert ClaimsOf(a) != ClaimsOf(b);
    }
  }

  lemma ClaimOfOne(key: string)
    requires ParseClaim(key).Some?
    ensures ClaimsOf([key]) == map[ParseClaim(key).value.scope := ParseClaim(key).value.value]
  {
    assert [key][..0] == [];
  }

  /**
   * So does every verdict on contradictory claims: it ignores the iteration order if and only if no scope has two
   * claims.
   */
  lemma VerdictOrderIndependent(keys: seq<string>)
    requires Ordering.NoDuplicates(keys)
    ensures Unambiguous(keys) <==>
            forall other, right :: SameKeys(keys, other) ==> Contradictory(other, right) == Contradictory(keys, right)
  {
    if Unambiguous(keys) {
      forall other, right | SameKeys(keys, other) ensures Contradictory(other, right) == Contradictory(keys, right) {
        ClaimsIgnoreOrder(keys, other);
      }
    } else {
      var i, j :| 0 <= i < |keys| && 0 <= j < |keys| && ParseClaim(keys[i]).Some? && ParseClaim(keys[j]).Some?
        && ParseClaim(keys[i]).value.scope == ParseClaim(keys[j]).value.scope
        && ParseClaim(keys[i]).value.value != ParseClaim(keys[j]).value.value;
      var a := MoveToEnd(keys, i);
      var b := MoveToEnd(keys, j);
      VerdictFlips(keys[i], keys[j], a, b);
      assert Contradictory(a, [keys[i]]) != Contradictory(b, [keys[i]]);
    }
  }

  /** Two orders that end in different claims for one scope disagree about the first of the two claims. */
  lemma VerdictFlips(j: string, k: string, endsInJ: seq<string>, endsInK: seq<string>)
    requires ParseClaim(j).Some? && ParseClaim(k).Some? && ParseClaim(j).value.scope == ParseClaim(k).value.scope
    requires ParseClaim(j).value.value != ParseClaim(k).value.value
    requires endsInJ != [] && endsInJ[|endsInJ| - 1] == j && endsInK != [] && endsInK[|endsInK| - 1] == k
    ensures !Contradictory(endsInJ, [j]) && Contradictory(endsInK, [j])
  {
    hide ParseClaim;
    ClaimOfOne(j);
    var scope := ParseClaim(j).value.scope;
    assert scope in ClaimsOf(endsInK) && scope in ClaimsOf([j]);
  }

  /** Legs that agree on everything but the listing order of unambiguous keys classify alike. */
  lemma ClassifyIgnoresOrder(l: LegFacts, r: LegFacts, l': LegFacts, r': LegFacts)
    requires l' == l.(keys := l'.keys) && r' == r.(keys := r'.keys)
    requires SameKeys(l.keys, l'.keys) && SameKeys(r.keys, r'.keys)
    requires Unambiguous(l.keys) && Unambiguous(r.keys)
    ensures ClassifyPair(l', r') == ClassifyPair(l, r)
  {
    ClaimsIgnoreOrder(l.keys, l'.keys);
    ClaimsIgnoreOrder(r.keys, r'.keys);
    assert Share(l.keys, r.keys) <==> Share(l'.keys, r'.keys);
  }

  /** Two claims for one scope make the verdict on a leg pair depend on iteration order. */
  lemma AmbiguousClaimsChangeTheVerdict()
    ensures var one, two := ["exclusive:a=1", "exclusive:a=2"], ["exclusive:a=2", "exclusive:a=1"];
            SameKeys(one, two) && !Contradictory(one, ["exclusive:a=2"]) && Contradictory(two, ["exclusive:a=2"])
  {
    var k1, k2 := "exclusive:a=1", "exclusive:a=2";
    ParsedExample(k1, '1');
    ParsedExample(k2, '2');
    assert k1[12] != k2[12] && "1"[0] != "2"[0];
    assert [k1, k2][0] == k1 && [k1, k2][1] == k2 && [k2, k1][0] == k2 && [k2, k1][1] == k1;
    VerdictFlips(k2, k1, [k1, k2], [k2, k1]);
  }

  lemma ParsedExample(key: string, v: char)
    requires key == "exclusive:a=" + [v]
    ensures ParseClaim(key) == Some(Claim("a", [v]))
  {
    assert CLAIM_PREFIX <= key;
    assert key[11] == '=';
    var rest := key[|CLAIM_PREFIX|..];
    assert rest == "a=" + [v];
    assert IndexOf(rest, '=') == 1 by {
      assert rest[0] == 'a' && rest[1..][0] == '=';
    }
    assert rest[..1] == "a" && rest[2..] == [v];
  }
}
