/** The preferred provider, its fallbacks and the cache (bookmakers/fallback.py). */
module Fallback {
  import opened Wrappers

  const BETANO := "betano-pt"
  const BETCLIC := "betclic-pt"

  datatype FailureClass = NoFailure | RetryableFailure | PermanentFailure | BlockedFailure

  datatype Outcome = Outcome(provider: string, success: bool, failure: FailureClass) {
    /** A success carries no failure class and a failure always does. */
    predicate Valid() {
      success <==> failure == NoFailure
    }
  }

  /** A published snapshot that is not current; the age is in whole seconds. */
  datatype Cached = Cached(provider: string, snapshot: nat, observedAt: int, ageSeconds: nat)

  datatype Reason = PreferredOnly | BothRetained | ComparisonFallback | CachedStalePreserved | ProviderUnavailable

  datatype Currency = Current | Stale | NoData

  datatype Decision = Decision(
    attempted: seq<string>,
    classifications: seq<(string, FailureClass)>,
    selected: Option<string>,
    cached: Option<Cached>,
    reason: Reason,
    currency: Currency)

  /** The persisted row of a decision. */
  datatype DecisionRow = DecisionRow(decision: Decision, createdAt: int)

  datatype FallbackError = WrongPreferred | WrongComparison | NotEnabled(provider: string)

  /** The attempts in the order they are considered. */
  function Chain(preferred: Outcome, comparison: Option<Outcome>, additional: seq<Outcome>): seq<Outcome> {
    [preferred] + (if comparison.Some? then [comparison.value] else []) + additional
  }

  /** The index of the first success, or the length of the chain. */
  function FirstSuccess(chain: seq<Outcome>): (k: nat)
    ensures k <= |chain|
    ensures k < |chain| ==> chain[k].success
    ensures forall i :: 0 <= i < k ==> !chain[i].success
  {
    if chain == [] || chain[0].success then 0 else 1 + FirstSuccess(chain[1..])
  }

  predicate NoneBefore(chain: seq<Outcome>, k: nat)
    requires k <= |chain|
  {
    forall i :: 0 <= i < k ==> !chain[i].success
  }

  lemma {:induction false} FirstSuccessIs(chain: seq<Outcome>, k: nat)
    requires k <= |chain| && (k < |chain| ==> chain[k].success) && NoneBefore(chain, k)
    ensures FirstSuccess(chain) == k
  {
    if k > 0 {
      FirstSuccessIs(chain[1..], k - 1);
    }
  }

  function Classified(attempts: seq<Outcome>): seq<(string, FailureClass)> {
    seq(|attempts|, i requires 0 <= i < |attempts| => (attempts[i].provider, attempts[i].failure))
  }

  function Names(attempts: seq<Outcome>): seq<string> {
    seq(|attempts|, i requires 0 <= i < |attempts| => attempts[i].provider)
  }

  /**
   * What the resolution amounts to: the first success of the chain is selected and current; without one the cache
   * is reported as stale, or nothing is. The record lists the chain up to the selected attempt, and the comparison
   * attempt even when the preferred one succeeded.
   */
  function Resolution(preferred: Outcome, comparison: Option<Outcome>, additional: seq<Outcome>, cached: Option<Cached>)
      : Decision
  {
    var chain := Chain(preferred, comparison, additional);
    var k := FirstSuccess(chain);
    if k == |chain| then
      Decision(Names(chain), Classified(chain), None, cached,
               if cached.Some? then CachedStalePreserved
               else ProviderUnavailable, if cached.Some? then Stale else NoData)
    else
      var shown := if k == 0 && comparison.Some? then chain[..2] else chain[..k + 1];
      var reason := if k > 0 then ComparisonFallback
                    else if comparison.Some? && comparison.value.success then BothRetained else PreferredOnly;
      Decision(Names(shown), Classified(shown), Some(chain[k].provider), None, reason, Current)
  }

  /** The refusals that come before anything is resolved. */
  function Refusal(preferred: Outcome, comparison: Option<Outcome>, additional: seq<Outcome>, enabled: seq<string>)
      : Option<FallbackError>
  {
    if preferred.provider != BETANO then Some(WrongPreferred)
    else if comparison.Some? && comparison.value.provider != BETCLIC then Some(WrongComparison)
    else FirstDisabled(additional, enabled)
  }

  function FirstDisabled(additional: seq<Outcome>, enabled: seq<string>): (r: Option<FallbackError>)
    ensures r.None? <==> forall a <- additional :: a.provider in enabled
  {
    if additional == [] then None
    else if additional[0].provider !in enabled then Some(NotEnabled(additional[0].provider))
    else FirstDisabled(additional[1..], enabled)
  }

  /** The checks at the head of resolve_provider_fallback. */
  method CheckProviders(preferred: Outcome, comparison: Option<Outcome>, additional: seq<Outcome>, enabled: seq<string>)
    returns (r: Option<FallbackError>)
    ensures r == Refusal(preferred, comparison, additional, enabled)
    ensures r.None? <==>
            && preferred.provider == BETANO && (comparison.Some? ==> comparison.value.provider == BETCLIC)
            && forall a <- additional :: a.provider in enabled
    ensures r == Some(WrongPreferred) <==> preferred.provider != BETANO
    ensures r == Some(WrongComparison) <==>
            preferred.provider == BETANO && comparison.Some? && comparison.value.provider != BETCLIC
    ensures r.Some? && r.value.NotEnabled? ==>
              exists i :: 0 <= i < |additional| && additional[i].provider == r.value.provider
                          && r.value.provider !in enabled
                          && forall j :: 0 <= j < i ==> additional[j].provider in enabled
  {
    if preferred.provider != BETANO {
      return Some(WrongPreferred);
    }
    if comparison.Some? && comparison.value.provider != BETCLIC {
      return Some(WrongComparison);
    }
    for i := 0 to |additional|
      invariant FirstDisabled(additional, enabled) == FirstDisabled(additional[i..], enabled)
      invariant forall j :: 0 <= j < i ==> additional[j].provider in enabled
    {
      if additional[i].provider !in enabled {
        return Some(NotEnabled(additional[i].provider));
      }
    }
    r := None;
  }

  /** resolve_provider_fallback */
  method ResolveProviderFallback(preferred: Outcome, comparison: Option<Outcome>, additional: seq<Outcome>,
                                 enabled: seq<string>,
                                 cached: Option<Cached>) returns (r: Result<Decision, FallbackError>)
    ensures r == match Refusal(preferred, comparison, additional, enabled)
                 case Some(e) => Err(e)
                 case None => Ok(Resolution(preferred, comparison, additional, cached))
  {
    hide Refusal, Names, Classified, FirstSuccess, Chain, Resolution;
    var refusal := CheckProviders(preferred, comparison, additional, enabled);
    if refusal.Some? {
      return Err(refusal.value);
    }
    var attempted, classifications := [preferred.provider], [(preferred.provider, preferred.failure)];
    if preferred.success {
      var both := false;
      if comparison.Some? {
        attempted := attempted + [comparison.value.provider];
        classifications := classifications + [(comparison.value.provider, comparison.value.failure)];
        both := comparison.value.success;
      }
      PreferredSucceeds(preferred, comparison, additional, cached);
      assert attempted == [preferred.provider] + if comparison.Some? then [comparison.value.provider] else [];
      assert classifications ==
             [(preferred.provider, preferred.failure)] +
             if comparison.Some? then [(comparison.value.provider, comparison.value.failure)] else [];
      return Ok(Decision(attempted, classifications, Some(preferred.provider), None,
                         if both then BothRetained else PreferredOnly, Current));
    }
    ghost var chain := Chain(preferred, comparison, additional);
    if comparison.Some? {
      attempted := attempted + [comparison.value.provider];
      classifications := classifications + [(comparison.value.provider, comparison.value.failure)];
    }
    ChainStarts(preferred, comparison, additional);
    if comparison.Some? && comparison.value.success {
      FallbackAt(preferred, comparison, additional, cached, 1);
      return Ok(Decision(attempted, classifications, Some(comparison.value.provider), None, ComparisonFallback,
                         Current));
    }
    ghost var base := |attempted|;
    for i := 0 to |additional|
      invariant attempted == Names(chain[..base + i]) && classifications == Classified(chain[..base + i])
      invariant NoneBefore(chain, base + i)
    {
      RecordGrows(chain[..base + i], additional[i]);
      assert chain[..base + i + 1] == chain[..base + i] + [additional[i]];
      attempted := attempted + [additional[i].provider];
      classifications := classifications + [(additional[i].provider, additional[i].failure)];
      if additional[i].success {
        FallbackAt(preferred, comparison, additional, cached, base + i);
        return Ok(Decision(attempted, classifications, Some(additional[i].provider), None, ComparisonFallback,
                           Current));
      }
    }
    NothingSucceeds(preferred, comparison, additional, cached);
    assert chain[..|chain|] == chain;
    if cached.Some? {
      return Ok(Decision(attempted, classifications, None, cached, CachedStalePreserved, Stale));
    }
    return Ok(Decision(attempted, classifications, None, None, ProviderUnavailable, NoData));
  }

  lemma PreferredSucceeds(preferred: Outcome, comparison: Option<Outcome>, additional: seq<Outcome>,
                          cached: Option<Cached>)
    requires preferred.success
    ensures Resolution(preferred, comparison, additional, cached) ==
            Decision([preferred.provider] + (if comparison.Some? then [comparison.value.provider] else []),
                     [(preferred.provider, preferred.failure)]
                     + (if comparison.Some? then [(comparison.value.provider, comparison.value.failure)] else []),
                     Some(preferred.provider), None,
                     if comparison.Some? && comparison.value.success then BothRetained else PreferredOnly, Current)
  {
    var chain := Chain(preferred, comparison, additional);
    FirstSuccessIs(chain, 0);
    assert chain[..1] == [preferred];
    assert comparison.Some? ==> chain[..2] == [preferred] + [comparison.value];
  }

  lemma ChainStarts(preferred: Outcome, comparison: Option<Outcome>, additional: seq<Outcome>)
    ensures var chain := Chain(preferred, comparison, additional); var base := if comparison.Some? then 2 else 1;
            && |chain| == base + |additional| && chain[base..] == additional && chain[0] == preferred
            && (comparison.Some? ==> chain[1] == comparison.value)
            && Names(chain[..base]) == [preferred.provider] + (if comparison.Some? then [comparison.value.provider]
                                                               else [])
            && Classified(chain[..base]) == [(preferred.provider, preferred.failure)]
               + (if comparison.Some? then [(comparison.value.provider, comparison.value.failure)] else [])
  {
  }

  lemma FallbackAt(preferred: Outcome, comparison: Option<Outcome>, additional: seq<Outcome>, cached: Option<Cached>,
                   k: nat)
    requires var chain := Chain(preferred, comparison, additional);
             0 < k < |chain| && chain[k].success && NoneBefore(chain, k)
    ensures var chain := Chain(preferred, comparison, additional);
            Resolution(preferred, comparison, additional, cached) ==
            Decision(Names(chain[..k + 1]), Classified(chain[..k + 1]), Some(chain[k].provider), None,
                     ComparisonFallback, Current)
  {
    hide Names, Classified;
    FirstSuccessIs(Chain(preferred, comparison, additional), k);
  }

  lemma NothingSucceeds(preferred: Outcome, comparison: Option<Outcome>, additional: seq<Outcome>,
                        cached: Option<Cached>)
    requires var chain := Chain(preferred, comparison, additional); NoneBefore(chain, |chain|)
    ensures var chain := Chain(preferred, comparison, additional);
            Resolution(preferred, comparison, additional, cached) ==
            Decision(Names(chain), Classified(chain), None, cached,
                     if cached.Some? then CachedStalePreserved
                     else ProviderUnavailable, if cached.Some? then Stale else NoData)
  {
    hide Names, Classified;
    FirstSuccessIs(Chain(preferred, comparison, additional), |Chain(preferred, comparison, additional)|);
  }

  lemma RecordGrows(shown: seq<Outcome>, a: Outcome)
    ensures Names(shown + [a]) == Names(shown) + [a.provider]
    ensures Classified(shown + [a]) == Classified(shown) + [(a.provider, a.failure)]
  {
  }

  /**
   * Something is current exactly when an attempt succeeded; the cache is used only when none did and is never current.
   */
  lemma CacheIsNeverCurrent(preferred: Outcome, comparison: Option<Outcome>, additional: seq<Outcome>,
                            cached: Option<Cached>)
    ensures var d := Resolution(preferred, comparison, additional, cached);
            && (d.currency == Current <==> exists a <- Chain(preferred, comparison, additional) :: a.success)
            && (d.currency == Current <==> d.selected.Some?)
            && (d.cached.Some? ==> d.currency == Stale) && (d.cached.Some? <==> d.selected.None? && cached.Some?)
            && (preferred.success <==>
                d.selected == Some(preferred.provider) && |d.attempted| > 0 &&
                FirstSuccess(Chain(preferred, comparison, additional)) == 0)
  {
    var chain := Chain(preferred, comparison, additional);
    assert chain[0] == preferred;
    if FirstSuccess(chain) < |chain| {
      assert chain[FirstSuccess(chain)] in chain;
    }
  }

  lemma ShownPrefix(preferred: Outcome, comparison: Option<Outcome>, additional: seq<Outcome>, cached: Option<Cached>)
    returns (n: nat)
    ensures var chain := Chain(preferred, comparison, additional);
            var d := Resolution(preferred, comparison, additional, cached);
            n <= |chain| && d.attempted == Names(chain[..n]) && d.classifications == Classified(chain[..n])
    ensures var chain := Chain(preferred, comparison, additional);
            FirstSuccess(chain) < |chain| ==> FirstSuccess(chain) < n
  {
    var chain := Chain(preferred, comparison, additional);
    var k := FirstSuccess(chain);
    n := if k == |chain| then |chain| else if k == 0 && comparison.Some? then 2 else k + 1;
    assert chain[..|chain|] == chain;
  }

  /**
   * The record of valid attempts shows whether anything succeeded: the data are current if and only if some entry has
   * no failure.
   */
  lemma RecordShowsSuccess(preferred: Outcome, comparison: Option<Outcome>, additional: seq<Outcome>,
                           cached: Option<Cached>)
    requires forall a <- Chain(preferred, comparison, additional) :: a.Valid()
    ensures var d := Resolution(preferred, comparison, additional, cached);
            d.currency == Current <==> exists c <- d.classifications :: c.1 == NoFailure
  {
    hide Resolution, Chain, Names;
    var chain, d := Chain(preferred, comparison, additional), Resolution(preferred, comparison, additional, cached);
    CacheIsNeverCurrent(preferred, comparison, additional, cached);
    var n := ShownPrefix(preferred, comparison, additional, cached);
    if d.currency == Current {
      var k := FirstSuccess(chain);
      var a :| a in chain && a.success;
      assert k < |chain|;
      assert chain[k] in chain;
      assert d.classifications[k].1 == NoFailure;
    }
    if c :| c in d.classifications && c.1 == NoFailure {
      var i :| 0 <= i < n && d.classifications[i] == c;
      assert chain[i] in chain && chain[i].success;
    }
  }
}
