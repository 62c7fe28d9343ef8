/** The batch loop of the rent sweeper, with its nested retries, proved against SweeperModel. */
module Sweeper {
  import opened Options
  import opened SweeperModel

  /** The loop's running totals: the metrics, the rent spent, the alerts raised and the transactions sent per asset. */
  datatype Totals = Totals(expiryHorizonLedgers: Option<int>, extensionFailureCount: nat,
                           projectedRentXlm30Days: real, rentSpent: real, alerts: seq<Alert>, submissions: seq<nat>)

  const NOTHING := Totals(None, 0, 0.0, 0.0, [], [])

  /** What a pass leaves behind. */
  datatype Report = Report(totals: Totals, lastPoolIdProcessed: nat)

  // ---------------------------------------------------------------- specification

  function Nearer(horizon: Option<int>, ttl: Option<int>): Option<int> {
    if ttl.None? then horizon
    else if horizon.None? || ttl.value < horizon.value then ttl
    else horizon
  }

  /** The totals after one more asset with the given outcome. */
  function Add(t: Totals, asset: Asset, network: Network, o: Outcome): Totals {
    Totals(Nearer(t.expiryHorizonLedgers, TtlOf(o)),
           t.extensionFailureCount + (if Failure(o) then 1 else 0),
           t.projectedRentXlm30Days + (if o.Extended? || o.DryRun? then ESTIMATED_RENT_XLM else 0.0),
           t.rentSpent + (if o.Extended? then ESTIMATED_RENT_XLM else 0.0),
           t.alerts + (if o.Exhausted? && asset.contractId.Some? then [Alert(asset.contractId.value, o.ttl)] else []),
           t.submissions + [Submissions(network, o)])
  }

  /** The totals agree with the outcomes of the first assets. */
  ghost predicate Accounts(assets: seq<Asset>, networks: seq<Network>, os: seq<Outcome>, t: Totals)
    requires |os| <= |assets| == |networks|
  {
    && IsHorizon(os, t.expiryHorizonLedgers)
    && t.extensionFailureCount == FailuresIn(os)
    && t.projectedRentXlm30Days == ProjectedRent(os)
    && t.rentSpent == ESTIMATED_RENT_XLM * ExtendedIn(os) as real
    && t.alerts == AlertsFor(assets, os)
    && |t.submissions| == |os|
    && forall i :: 0 <= i < |os| ==> t.submissions[i] == Submissions(networks[i], os[i])
  }

  lemma HorizonNext(os: seq<Outcome>, horizon: Option<int>, o: Outcome)
    requires IsHorizon(os, horizon)
    ensures IsHorizon(os + [o], Nearer(horizon, TtlOf(o)))
  {
    var next := os + [o];
    assert next[|os|] == o;
    if horizon.Some? {
      var i :| 0 <= i < |os| && TtlOf(os[i]) == horizon;
      assert next[i] == os[i];
    }
  }

  lemma AlertsNext(assets: seq<Asset>, os: seq<Outcome>, o: Outcome)
    requires |os| < |assets|
    ensures var asset := assets[|os|];
            AlertsFor(assets, os + [o]) == AlertsFor(assets, os) +
              if o.Exhausted? && asset.contractId.Some? then [Alert(asset.contractId.value, o.ttl)] else []
  {
    assert (os + [o])[..|os|] == os;
  }

  lemma AppendAccounts(assets: seq<Asset>, networks: seq<Network>, os: seq<Outcome>, t: Totals, o: Outcome)
    requires |os| < |assets| == |networks| && Accounts(assets, networks, os, t)
    ensures Accounts(assets, networks, os + [o], Add(t, assets[|os|], networks[|os|], o))
  {
    HorizonNext(os, t.expiryHorizonLedgers, o);
    CountsNext(os, o);
    AlertsNext(assets, os, o);
  }

  /** The totals keep agreeing when one more asset is processed. */
  lemma AccountsNext(assets: seq<Asset>, networks: seq<Network>, hasSecret: bool, i: nat, t: Totals)
    requires i < |assets| == |networks|
    requires Accounts(assets, networks, OutcomesTo(assets, networks, hasSecret, i), t)
    ensures Accounts(assets, networks, OutcomesTo(assets, networks, hasSecret, i + 1),
                     Add(t, assets[i], networks[i], OutcomeAt(assets, networks, hasSecret, i)))
  {
    OutcomesNext(assets, networks, hasSecret, i);
    AppendAccounts(assets, networks, OutcomesTo(assets, networks, hasSecret, i), t,
                   OutcomeAt(assets, networks, hasSecret, i));
  }

  /** A complete pass accounts for every asset, keeps to the budget, and sends at most three transactions each. */
  ghost predicate PassAccounts(assets: seq<Asset>, networks: seq<Network>, hasSecret: bool, t: Totals)
    requires |networks| == |assets|
  {
    && Accounts(assets, networks, Outcomes(assets, networks, hasSecret), t)
    && t.rentSpent <= MAX_RENT_BUDGET_XLM
    && forall i :: 0 <= i < |t.submissions| ==> t.submissions[i] <= MAX_TRIES
  }

  lemma PassEnds(assets: seq<Asset>, networks: seq<Network>, hasSecret: bool, t: Totals)
    requires |networks| == |assets| && Accounts(assets, networks, Outcomes(assets, networks, hasSecret), t)
    ensures PassAccounts(assets, networks, hasSecret, t)
  {
    SpentWithinBudget(assets, networks, hasSecret);
    forall i | 0 <= i < |assets|
      ensures t.submissions[i] <= MAX_TRIES
    {
      SubmissionsAreBounded(assets, networks, hasSecret, i);
    }
  }

  // ---------------------------------------------------------------- the loops

  /** The retry loop for one contract; `sends` counts the transactions sent. */
  method TryExtend(network: Network) returns (success: bool, ghost tries: nat, sends: nat)
    ensures success <==> network.FirstTaken(1) > 0
    ensures tries == if success then network.FirstTaken(1) else MAX_TRIES
    ensures sends == network.Sent(tries)
  {
    success, tries, sends := false, 0, 0;
    var retry := 1;
    while retry <= MAX_TRIES
      invariant 1 <= retry <= MAX_TRIES + 1
      invariant tries == retry - 1 && sends == network.Sent(tries)
      invariant network.FirstTaken(1) == network.FirstTaken(retry)
    {
      var attempt := network.AttemptAt(retry);
      tries := retry;
      sends := sends + if attempt.NotSent? then 0 else 1;
      if attempt.Taken? {
        success := true;
        break;
      }
      retry := retry + 1;
    }
  }

  /** One round of the asset loop; `extended` is the number of contracts extended before it. */
  method Process(asset: Asset, network: Network, hasSecret: bool, totals: Totals, ghost extended: nat)
    returns (next: Totals)
    requires totals.rentSpent == ESTIMATED_RENT_XLM * extended as real
    ensures next == Add(totals, asset, network, OutcomeOf(asset, network, extended, hasSecret))
  {
    next := totals.(submissions := totals.submissions + [0]);
    if asset.contractId.None? {
      return;
    }
    if network.lookup.Fails? {
      next := next.(extensionFailureCount := next.extensionFailureCount + 1);
      return;
    }
    if network.lookup.Entry? {
      var currentTtl := network.Ttl();
      if next.expiryHorizonLedgers.None? || currentTtl < next.expiryHorizonLedgers.value {
        next := next.(expiryHorizonLedgers := Some(currentTtl));
      }
      if currentTtl < WARNING_THRESHOLD_LEDGERS {
        if next.rentSpent + ESTIMATED_RENT_XLM > MAX_RENT_BUDGET_XLM {
          next := next.(extensionFailureCount := next.extensionFailureCount + 1);
          return;
        }
        if !hasSecret {
          next := next.(projectedRentXlm30Days := next.projectedRentXlm30Days + ESTIMATED_RENT_XLM);
          return;
        }
        var success, tries, sends := TryExtend(network);
        next := next.(submissions := totals.submissions + [sends]);
        if success {
          next := next.(rentSpent := next.rentSpent + ESTIMATED_RENT_XLM,
                        projectedRentXlm30Days := next.projectedRentXlm30Days + ESTIMATED_RENT_XLM);
        } else {
          next := next.(extensionFailureCount := next.extensionFailureCount + 1,
                        alerts := next.alerts + [Alert(asset.contractId.value, currentTtl)]);
        }
      }
    }
  }

  /**
   `found` is None when the database fails; `clientReady` is false when the client, the network or the
   operator's key is configured wrongly. A pass over no assets writes nothing, nor does one that cannot
   start; any other pass accounts for every asset by its outcome, within the budget and at three
   transactions for each asset.
   */
  method RunSweeper(found: Option<seq<Asset>>, clientReady: bool, networks: seq<Network>, hasSecret: bool)
    returns (report: Option<Report>)
    requires found.Some? ==> |networks| == |found.value|
    ensures report.None? <==> found.None? || found.value == [] || !clientReady
    ensures report.Some? ==>
              && PassAccounts(found.value, networks, hasSecret, report.value.totals)
              && report.value.lastPoolIdProcessed == found.value[|found.value| - 1].poolId
  {
    if found.None? || |found.value| == 0 {
      return None;
    }
    if !clientReady {
      return None;
    }
    var assets := found.value;
    var totals := NOTHING;
    for i := 0 to |assets|
      invariant Accounts(assets, networks, OutcomesTo(assets, networks, hasSecret, i), totals)
    {
      AccountsNext(assets, networks, hasSecret, i, totals);
      ExtendedCounts(assets, networks, hasSecret, i);
      ghost var extended := ExtendedBefore(assets, networks, hasSecret, i);
      totals := Process(assets[i], networks[i], hasSecret, totals, extended);
    }
    PassEnds(assets, networks, hasSecret, totals);
    report := Some(Report(totals, assets[|assets| - 1].poolId));
  }
}
