/**
 The live pass of scripts/rent-sweeper.ts against an arbitrary network: what can become of each
 asset, and what the whole pass amounts to.
 */
module SweeperModel {
  import opened Options

  const DAY_IN_LEDGERS := 17280
  const WARNING_THRESHOLD_LEDGERS := 7 * DAY_IN_LEDGERS
  const MAX_RENT_BUDGET_XLM := 10.0
  const ESTIMATED_RENT_XLM := 0.1
  const FALLBACK_LEDGER := 100000
  const MAX_TRIES := 3

  /** The number of extensions that the budget pays for. */
  const BUDGETED := 100

  datatype Asset = Asset(poolId: nat, contractId: Option<nat>)

  /** One try to extend: it fails before anything is sent, is sent and turned down, or is sent and taken. */
  datatype Attempt = NotSent | TurnedDown | Taken

  /** The answer to the look-up of a contract; a live-until ledger may be missing. */
  datatype Lookup = Fails | NoEntries | Entry(liveUntilLedger: Option<int>)

  /** Everything the network does while one asset is processed; `latestLedger` is None if that call fails. */
  datatype Network = Network(lookup: Lookup, latestLedger: Option<int>, attempts: seq<Attempt>)
  {
    function AttemptAt(retry: nat): Attempt
      requires retry >= 1
    {
      if retry <= |attempts| then attempts[retry - 1] else NotSent
    }

    function Ttl(): int
      requires lookup.Entry?
    {
      lookup.liveUntilLedger.GetOr(0) - latestLedger.GetOr(FALLBACK_LEDGER)
    }

    /** The first try among `retry`..3 that is taken, or 0. */
    function FirstTaken(retry: nat): (r: nat)
      requires 1 <= retry
      ensures r == 0 || (retry <= r <= MAX_TRIES && AttemptAt(r).Taken?)
      ensures forall k :: retry <= k <= MAX_TRIES && (r == 0 || k < r) ==> !AttemptAt(k).Taken?
      decreases MAX_TRIES - retry
    {
      if retry > MAX_TRIES then 0 else if AttemptAt(retry).Taken? then retry else FirstTaken(retry + 1)
    }

    /** How many of the first `tries` tries sent a transaction. */
    function Sent(tries: nat): (n: nat)
      ensures n <= tries
    {
      if tries == 0 then 0 else Sent(tries - 1) + if AttemptAt(tries).NotSent? then 0 else 1
    }
  }

  /** What becomes of an asset. */
  datatype Outcome =
    | NoContract
    | Broken
    | NotFound
    | Healthy(ttl: int)
    | OverBudget(ttl: int)
    | DryRun(ttl: int)
    | Extended(ttl: int, tries: nat)
    | Exhausted(ttl: int)

  /** The contract is known, found, and about to expire. */
  predicate Low(asset: Asset, network: Network) {
    asset.contractId.Some? && network.lookup.Entry? && network.Ttl() < WARNING_THRESHOLD_LEDGERS
  }

  /** The contract is about to expire and the network would take an extension within three tries. */
  predicate Extendable(asset: Asset, network: Network) {
    Low(asset, network) && network.FirstTaken(1) > 0
  }

  /** The outcome of an asset when `extended` contracts have been extended before it. */
  function OutcomeOf(asset: Asset, network: Network, extended: nat, hasSecret: bool): Outcome {
    if asset.contractId.None? then NoContract
    else match network.lookup
         case Fails => Broken
         case NoEntries => NotFound
         case Entry(_) =>
           var ttl := network.Ttl();
           if ttl >= WARNING_THRESHOLD_LEDGERS then Healthy(ttl)
           else if extended >= BUDGETED then OverBudget(ttl)
           else if !hasSecret then DryRun(ttl)
           else if network.FirstTaken(1) > 0 then Extended(ttl, network.FirstTaken(1))
           else Exhausted(ttl)
  }

  function ExtendedIn(outcomes: seq<Outcome>): nat {
    if outcomes == [] then 0
    else ExtendedIn(outcomes[..|outcomes| - 1]) + if outcomes[|outcomes| - 1].Extended? then 1 else 0
  }

  /** How many contracts a pass has extended after its first `n` assets. */
  function ExtendedBefore(assets: seq<Asset>, networks: seq<Network>, hasSecret: bool, n: nat): nat
    requires n <= |assets| == |networks|
  {
    if n == 0 then 0
    else
      var extended := ExtendedBefore(assets, networks, hasSecret, n - 1);
      extended + if OutcomeOf(assets[n - 1], networks[n - 1], extended, hasSecret).Extended? then 1 else 0
  }

  /** The outcome of the `i`th asset of a pass. */
  function OutcomeAt(assets: seq<Asset>, networks: seq<Network>, hasSecret: bool, i: nat): Outcome
    requires i < |assets| == |networks|
  {
    OutcomeOf(assets[i], networks[i], ExtendedBefore(assets, networks, hasSecret, i), hasSecret)
  }

  /** The outcomes of the first `n` assets of a pass. */
  function OutcomesTo(assets: seq<Asset>, networks: seq<Network>, hasSecret: bool, n: nat): seq<Outcome>
    requires n <= |assets| == |networks|
  {
    seq(n, i requires 0 <= i < n => OutcomeAt(assets, networks, hasSecret, i))
  }

  /** The outcomes of a pass. */
  function Outcomes(assets: seq<Asset>, networks: seq<Network>, hasSecret: bool): (os: seq<Outcome>)
    requires |networks| == |assets|
    ensures |os| == |assets|
  {
    OutcomesTo(assets, networks, hasSecret, |assets|)
  }

  function DryRunsIn(outcomes: seq<Outcome>): nat {
    if outcomes == [] then 0
    else DryRunsIn(outcomes[..|outcomes| - 1]) + if outcomes[|outcomes| - 1].DryRun? then 1 else 0
  }

  predicate Failure(outcome: Outcome) {
    outcome.Broken? || outcome.OverBudget? || outcome.Exhausted?
  }

  function FailuresIn(outcomes: seq<Outcome>): nat {
    if outcomes == [] then 0
    else FailuresIn(outcomes[..|outcomes| - 1]) + if Failure(outcomes[|outcomes| - 1]) then 1 else 0
  }

  function TtlOf(outcome: Outcome): Option<int> {
    if outcome.NoContract? || outcome.Broken? || outcome.NotFound? then None else Some(outcome.ttl)
  }

  datatype Alert = Alert(contractId: nat, ttl: int)

  /** An alert for every contract whose three tries all failed, in the order of the assets. */
  function AlertsFor(assets: seq<Asset>, outcomes: seq<Outcome>): seq<Alert>
    requires |outcomes| <= |assets|
  {
    if outcomes == [] then []
    else
      var n := |outcomes| - 1;
      AlertsFor(assets, outcomes[..n])
      + if outcomes[n].Exhausted? && assets[n].contractId.Some?
        then [Alert(assets[n].contractId.value, outcomes[n].ttl)] else []
  }

  /** How many transactions were sent for an asset. */
  function Submissions(network: Network, outcome: Outcome): (n: nat)
    ensures n <= if outcome.Extended? then outcome.tries else MAX_TRIES
  {
    match outcome
    case Extended(_, tries) => network.Sent(tries)
    case Exhausted(_) => network.Sent(MAX_TRIES)
    case _ => 0
  }

  /** `horizon` is the least TTL seen, or None (for Infinity) if none was. */
  ghost predicate IsHorizon(outcomes: seq<Outcome>, horizon: Option<int>) {
    match horizon
    case None => forall i :: 0 <= i < |outcomes| ==> TtlOf(outcomes[i]).None?
    case Some(least) =>
      && (exists i :: 0 <= i < |outcomes| && TtlOf(outcomes[i]) == Some(least))
      && (forall i :: 0 <= i < |outcomes| && TtlOf(outcomes[i]).Some? ==> least <= TtlOf(outcomes[i]).value)
  }

  lemma CountsNext(os: seq<Outcome>, o: Outcome)
    ensures FailuresIn(os + [o]) == FailuresIn(os) + if Failure(o) then 1 else 0
    ensures ExtendedIn(os + [o]) == ExtendedIn(os) + if o.Extended? then 1 else 0
    ensures DryRunsIn(os + [o]) == DryRunsIn(os) + if o.DryRun? then 1 else 0
  {
    assert (os + [o])[..|os|] == os;
  }

  lemma OutcomesNext(assets: seq<Asset>, networks: seq<Network>, hasSecret: bool, n: nat)
    requires n < |assets| == |networks|
    ensures OutcomesTo(assets, networks, hasSecret, n + 1)
         == OutcomesTo(assets, networks, hasSecret, n) + [OutcomeAt(assets, networks, hasSecret, n)]
  {
  }

  /** The outcomes of a pass hold as many extensions as the pass counted. */
  lemma {:induction false} ExtendedCounts(assets: seq<Asset>, networks: seq<Network>, hasSecret: bool, n: nat)
    requires n <= |assets| == |networks|
    ensures ExtendedIn(OutcomesTo(assets, networks, hasSecret, n)) == ExtendedBefore(assets, networks, hasSecret, n)
  {
    if n > 0 {
      ExtendedCounts(assets, networks, hasSecret, n - 1);
      OutcomesNext(assets, networks, hasSecret, n - 1);
      CountsNext(OutcomesTo(assets, networks, hasSecret, n - 1), OutcomeAt(assets, networks, hasSecret, n - 1));
    }
  }

  // ---------------------------------------------------------------- closed forms

  /** How many of the first `n` contracts the network would have let the pass extend. */
  function ExtendableTo(assets: seq<Asset>, networks: seq<Network>, n: nat): nat
    requires n <= |assets| == |networks|
  {
    if n == 0 then 0
    else ExtendableTo(assets, networks, n - 1) + if Extendable(assets[n - 1], networks[n - 1]) then 1 else 0
  }

  /** How many of the first `n` contracts are low. */
  function LowTo(assets: seq<Asset>, networks: seq<Network>, n: nat): nat
    requires n <= |assets| == |networks|
  {
    if n == 0 then 0
    else LowTo(assets, networks, n - 1) + if Low(assets[n - 1], networks[n - 1]) then 1 else 0
  }

  lemma {:induction false} BudgetCaps(assets: seq<Asset>, networks: seq<Network>, n: nat)
    requires n <= |assets| == |networks|
    ensures var possible := ExtendableTo(assets, networks, n);
            ExtendedBefore(assets, networks, true, n) == if possible < BUDGETED then possible else BUDGETED
  {
    if n > 0 {
      BudgetCaps(assets, networks, n - 1);
    }
  }

  /**
   Main result: the pass extends the extendable contracts in order until the budget is used up,
   whatever fails in between.
   */
  lemma ExtendedIsCapped(assets: seq<Asset>, networks: seq<Network>, n: nat)
    requires n <= |assets| == |networks|
    ensures var possible := ExtendableTo(assets, networks, n);
            ExtendedIn(OutcomesTo(assets, networks, true, n)) == if possible < BUDGETED then possible else BUDGETED
  {
    BudgetCaps(assets, networks, n);
    ExtendedCounts(assets, networks, true, n);
  }

  lemma {:induction false} ExtendableGrows(assets: seq<Asset>, networks: seq<Network>, i: nat, j: nat)
    requires i <= j <= |assets| == |networks|
    ensures ExtendableTo(assets, networks, i) <= ExtendableTo(assets, networks, j)
  {
    if i < j {
      ExtendableGrows(assets, networks, i, j - 1);
    }
  }

  /** A low contract is skipped for budget exactly when a hundred before it could be extended. */
  lemma OverBudgetIff(assets: seq<Asset>, networks: seq<Network>, i: nat)
    requires i < |assets| == |networks|
    ensures Outcomes(assets, networks, true)[i].OverBudget? <==>
            Low(assets[i], networks[i]) && ExtendableTo(assets, networks, i) >= BUDGETED
  {
    BudgetCaps(assets, networks, i);
  }

  /** Main result: once a low contract is skipped for budget, so is every low one after it. */
  lemma SkippedStaySkipped(assets: seq<Asset>, networks: seq<Network>, i: nat, j: nat)
    requires i <= j < |assets| == |networks|
    requires Outcomes(assets, networks, true)[i].OverBudget? && Low(assets[j], networks[j])
    ensures Outcomes(assets, networks, true)[j].OverBudget?
  {
    OverBudgetIff(assets, networks, i);
    OverBudgetIff(assets, networks, j);
    ExtendableGrows(assets, networks, i, j);
  }

  lemma {:induction false} NothingExtended(assets: seq<Asset>, networks: seq<Network>, n: nat)
    requires n <= |assets| == |networks|
    ensures ExtendedBefore(assets, networks, false, n) == 0
  {
    if n > 0 {
      NothingExtended(assets, networks, n - 1);
    }
  }

  /** Without the secret an asset is a dry run exactly when its contract is low; none is skipped or exhausted. */
  lemma DryRunIff(assets: seq<Asset>, networks: seq<Network>, i: nat)
    requires i < |assets| == |networks|
    ensures var o := Outcomes(assets, networks, false)[i];
            && (o.DryRun? <==> Low(assets[i], networks[i]))
            && !o.OverBudget? && !o.Extended? && !o.Exhausted?
  {
    NothingExtended(assets, networks, i);
  }

  /** Without the operator's secret nothing is extended and there are as many dry runs as low contracts. */
  lemma {:induction false} DryRunsIgnoreBudget(assets: seq<Asset>, networks: seq<Network>, n: nat)
    requires n <= |assets| == |networks|
    ensures var os := OutcomesTo(assets, networks, false, n);
            && ExtendedIn(os) == 0
            && DryRunsIn(os) == LowTo(assets, networks, n)
  {
    if n > 0 {
      DryRunsIgnoreBudget(assets, networks, n - 1);
      OutcomesNext(assets, networks, false, n - 1);
      CountsNext(OutcomesTo(assets, networks, false, n - 1), OutcomeAt(assets, networks, false, n - 1));
      DryRunIff(assets, networks, n - 1);
    }
  }

  lemma {:induction false} NoDryRunsWithSecret(assets: seq<Asset>, networks: seq<Network>, n: nat)
    requires n <= |assets| == |networks|
    ensures DryRunsIn(OutcomesTo(assets, networks, true, n)) == 0
  {
    if n > 0 {
      NoDryRunsWithSecret(assets, networks, n - 1);
      OutcomesNext(assets, networks, true, n - 1);
      CountsNext(OutcomesTo(assets, networks, true, n - 1), OutcomeAt(assets, networks, true, n - 1));
    }
  }

  lemma SpentWithinBudget(assets: seq<Asset>, networks: seq<Network>, hasSecret: bool)
    requires |networks| == |assets|
    ensures ESTIMATED_RENT_XLM * ExtendedIn(Outcomes(assets, networks, hasSecret)) as real <= MAX_RENT_BUDGET_XLM
  {
    if hasSecret {
      ExtendedIsCapped(assets, networks, |assets|);
    } else {
      DryRunsIgnoreBudget(assets, networks, |assets|);
    }
  }

  /** At most three transactions are sent for an asset. */
  lemma SubmissionsAreBounded(assets: seq<Asset>, networks: seq<Network>, hasSecret: bool, i: nat)
    requires i < |assets| == |networks|
    ensures Submissions(networks[i], Outcomes(assets, networks, hasSecret)[i]) <= MAX_TRIES
  {
  }

  /** The rent the metrics project for a pass. */
  function ProjectedRent(outcomes: seq<Outcome>): real {
    ESTIMATED_RENT_XLM * (ExtendedIn(outcomes) + DryRunsIn(outcomes)) as real
  }

  /**
   The projected rent stays within the budget in every real pass; in a dry run it does so exactly
   when at most a hundred contracts are low.
   */
  lemma ProjectionWithinBudgetIff(assets: seq<Asset>, networks: seq<Network>, hasSecret: bool)
    requires |networks| == |assets|
    ensures ProjectedRent(Outcomes(assets, networks, hasSecret)) <= MAX_RENT_BUDGET_XLM <==>
            hasSecret || LowTo(assets, networks, |assets|) <= BUDGETED
  {
    if hasSecret {
      ExtendedIsCapped(assets, networks, |assets|);
      NoDryRunsWithSecret(assets, networks, |assets|);
    } else {
      DryRunsIgnoreBudget(assets, networks, |assets|);
    }
  }

  lemma {:induction false} AllLow(assets: seq<Asset>, networks: seq<Network>, n: nat)
    requires n <= |assets| == |networks|
    requires forall i :: 0 <= i < n ==> Low(assets[i], networks[i])
    ensures LowTo(assets, networks, n) == n
  {
    if n > 0 {
      AllLow(assets, networks, n - 1);
    }
  }

  /** A dry run over a hundred and one expired contracts, which projects more rent than the budget. */
  lemma DryRunCanOverrun() returns (assets: seq<Asset>, networks: seq<Network>)
    ensures |assets| == |networks| == BUDGETED + 1
    ensures ProjectedRent(Outcomes(assets, networks, false)) > MAX_RENT_BUDGET_XLM
  {
    assets := seq(BUDGETED + 1, i requires 0 <= i => Asset(i, Some(i)));
    networks := seq(BUDGETED + 1, i => Network(Entry(Some(0)), Some(0), []));
    AllLow(assets, networks, BUDGETED + 1);
    ProjectionWithinBudgetIff(assets, networks, false);
  }
}
