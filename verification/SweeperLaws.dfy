/**
 What a pass of the sweeper comes to in terms of the assets and the answers of the network alone:
 which outcome each asset has, and what the totals of the report count.
 */
module SweeperLaws {
  import opened Options
  import opened SweeperModel
  import opened Sweeper

  // ---------------------------------------------------------------- one asset

  /** The asset has a contract, and its look-up returns an entry. */
  predicate Found(asset: Asset, network: Network) {
    asset.contractId != None && network.lookup.Entry?
  }

  /** The ledger until which the entry lives: none given counts as ledger 0. */
  function LiveUntil(network: Network): int
    requires network.lookup.Entry?
  {
    match network.lookup.liveUntilLedger
    case None => 0
    case Some(ledger) => ledger
  }

  /** The ledger that the network is at: none given counts as ledger 100000. */
  function Latest(network: Network): int {
    match network.latestLedger
    case None => 100000
    case Some(ledger) => ledger
  }

  /** The asset's contract has an entry that lives for less than seven days, at 17280 ledgers a day. */
  predicate Expiring(asset: Asset, network: Network) {
    Found(asset, network) && LiveUntil(network) < Latest(network) + 120960
  }

  /** One of the first three tries is taken. */
  predicate TakenInTime(network: Network) {
    exists k :: 0 <= k < |network.attempts| && k < 3 && network.attempts[k] == Taken
  }

  lemma TakenIsFirst(network: Network)
    ensures network.FirstTaken(1) > 0 <==> TakenInTime(network)
    ensures var first := network.FirstTaken(1);
            first > 0 ==>
              && first <= |network.attempts| && first <= 3 && network.attempts[first - 1] == Taken
              && forall k :: 0 <= k < first - 1 ==> network.attempts[k] != Taken
  {
    if TakenInTime(network) {
      var k :| 0 <= k < |network.attempts| && k < 3 && network.attempts[k] == Taken;
      assert network.AttemptAt(k + 1).Taken?;
    }
    var first := network.FirstTaken(1);
    if first > 0 {
      assert network.AttemptAt(first).Taken?;
      forall k | 0 <= k < first - 1
        ensures network.attempts[k] != Taken
      {
        assert !network.AttemptAt(k + 1).Taken?;
      }
    }
  }

  /** How many of the first `n` assets were expiring and would have been extended within three tries. */
  function ReadyTo(assets: seq<Asset>, networks: seq<Network>, n: nat): nat
    requires n <= |assets| == |networks|
  {
    if n == 0 then 0
    else ReadyTo(assets, networks, n - 1)
         + if Expiring(assets[n - 1], networks[n - 1]) && TakenInTime(networks[n - 1]) then 1 else 0
  }

  lemma {:induction false} ReadyIsExtendable(assets: seq<Asset>, networks: seq<Network>, n: nat)
    requires n <= |assets| == |networks|
    ensures ReadyTo(assets, networks, n) == ExtendableTo(assets, networks, n)
  {
    if n > 0 {
      ReadyIsExtendable(assets, networks, n - 1);
      TakenIsFirst(networks[n - 1]);
    }
  }

  /** What an outcome says of the asset, of its network, and of the contracts ready for extension before it. */
  ghost predicate Tells(o: Outcome, asset: Asset, network: Network, ready: nat, hasSecret: bool) {
    match o
    case NoContract => asset.contractId == None
    case Broken => asset.contractId != None && network.lookup == Fails
    case NotFound => asset.contractId != None && network.lookup == NoEntries
    case Healthy(ttl) =>
      Found(asset, network) && !Expiring(asset, network) && ttl == LiveUntil(network) - Latest(network)
    case OverBudget(ttl) =>
      Expiring(asset, network) && ttl == LiveUntil(network) - Latest(network) && hasSecret && ready >= 100
    case DryRun(ttl) => Expiring(asset, network) && ttl == LiveUntil(network) - Latest(network) && !hasSecret
    case Extended(ttl, tries) =>
      && Expiring(asset, network) && ttl == LiveUntil(network) - Latest(network) && hasSecret && ready < 100
      && 1 <= tries <= 3 && tries <= |network.attempts| && network.attempts[tries - 1] == Taken
      && forall k :: 0 <= k < tries - 1 ==> network.attempts[k] != Taken
    case Exhausted(ttl) =>
      && Expiring(asset, network) && ttl == LiveUntil(network) - Latest(network) && hasSecret && ready < 100
      && !TakenInTime(network)
  }

  /** Main result: the outcome of every asset of a pass tells exactly what the network answered. */
  lemma OutcomesTell(assets: seq<Asset>, networks: seq<Network>, hasSecret: bool, i: nat)
    requires i < |assets| == |networks|
    ensures Tells(Outcomes(assets, networks, hasSecret)[i], assets[i], networks[i],
                  ReadyTo(assets, networks, i), hasSecret)
  {
    TakenIsFirst(networks[i]);
    ReadyIsExtendable(assets, networks, i);
    if hasSecret {
      BudgetCaps(assets, networks, i);
    } else {
      NothingExtended(assets, networks, i);
    }
  }

  /** Hence a contract is treated as low exactly when it expires within seven days. */
  lemma LowIff(assets: seq<Asset>, networks: seq<Network>, hasSecret: bool, i: nat)
    requires i < |assets| == |networks|
    ensures var o := Outcomes(assets, networks, hasSecret)[i];
            (o.OverBudget? || o.DryRun? || o.Extended? || o.Exhausted?) <==> Expiring(assets[i], networks[i])
  {
    OutcomesTell(assets, networks, hasSecret, i);
  }

  /** A contract that lives longer is no worse off, and one that has expired is never healthy. */
  lemma LivingLongerIsHealthier(assets: seq<Asset>, networks: seq<Network>, hasSecret: bool, i: nat, later: int)
    requires i < |assets| == |networks| && networks[i].lookup.Entry? && LiveUntil(networks[i]) <= later
    ensures var longer := networks[i := networks[i].(lookup := Entry(Some(later)))];
            Outcomes(assets, networks, hasSecret)[i].Healthy? ==> Outcomes(assets, longer, hasSecret)[i].Healthy?
    ensures LiveUntil(networks[i]) <= Latest(networks[i]) ==> !Outcomes(assets, networks, hasSecret)[i].Healthy?
  {
    var longer := networks[i := networks[i].(lookup := Entry(Some(later)))];
    OutcomesTell(assets, networks, hasSecret, i);
    OutcomesTell(assets, longer, hasSecret, i);
  }

  // ---------------------------------------------------------------- the totals

  /** The positions of the outcomes that satisfy `p`. */
  ghost function Those(os: seq<Outcome>, p: Outcome -> bool): set<int> {
    set i | 0 <= i < |os| && p(os[i])
  }

  lemma ThoseNext(os: seq<Outcome>, p: Outcome -> bool)
    requires os != []
    ensures |Those(os, p)| == |Those(os[..|os| - 1], p)| + if p(os[|os| - 1]) then 1 else 0
  {
    var n := |os| - 1;
    if p(os[n]) {
      assert Those(os, p) == Those(os[..n], p) + {n};
    } else {
      assert Those(os, p) == Those(os[..n], p);
    }
  }

  lemma {:induction false} CountsAre(os: seq<Outcome>)
    ensures ExtendedIn(os) == |Those(os, (o: Outcome) => o.Extended?)|
    ensures DryRunsIn(os) == |Those(os, (o: Outcome) => o.DryRun?)|
    ensures FailuresIn(os) == |Those(os, (o: Outcome) => o.Broken? || o.OverBudget? || o.Exhausted?)|
  {
    if os == [] {
      assert Those(os, (o: Outcome) => o.Extended?) == {};
      assert Those(os, (o: Outcome) => o.DryRun?) == {};
      assert Those(os, (o: Outcome) => o.Broken? || o.OverBudget? || o.Exhausted?) == {};
    } else {
      CountsAre(os[..|os| - 1]);
      ThoseNext(os, (o: Outcome) => o.Extended?);
      ThoseNext(os, (o: Outcome) => o.DryRun?);
      ThoseNext(os, (o: Outcome) => o.Broken? || o.OverBudget? || o.Exhausted?);
    }
  }

  /** An alert is raised for each contract given up on, and for no other. */
  lemma {:induction false} AlertsAre(assets: seq<Asset>, os: seq<Outcome>, alert: Alert)
    requires |os| <= |assets|
    ensures alert in AlertsFor(assets, os) <==>
            exists i :: 0 <= i < |os| && os[i] == Exhausted(alert.ttl) && assets[i].contractId == Some(alert.contractId)
  {
    if os != [] {
      var n := |os| - 1;
      AlertsAre(assets, os[..n], alert);
      if i :| 0 <= i < n && os[..n][i] == Exhausted(alert.ttl) && assets[i].contractId == Some(alert.contractId) {
        assert os[i] == Exhausted(alert.ttl);
      }
    }
  }

  /** Whether the `k`th try, counted from 0, got as far as sending a transaction. */
  function SentAt(network: Network, k: nat): nat {
    if k < |network.attempts| && network.attempts[k] != NotSent then 1 else 0
  }

  lemma SentIs(network: Network, tries: nat)
    requires tries <= 3
    ensures network.Sent(tries) == (if tries > 0 then SentAt(network, 0) else 0)
                                 + (if tries > 1 then SentAt(network, 1) else 0)
                                 + (if tries > 2 then SentAt(network, 2) else 0)
  {
    assert network.Sent(0) == 0;
    assert tries > 0 ==> network.Sent(1) == SentAt(network, 0);
    assert tries > 1 ==> network.Sent(2) == SentAt(network, 0) + SentAt(network, 1);
  }

  /** The least number of ledgers that any of the entries found lives on; None if none was found. */
  ghost predicate IsLeastTtl(assets: seq<Asset>, networks: seq<Network>, horizon: Option<int>)
    requires |assets| == |networks|
  {
    match horizon
    case None => forall i :: 0 <= i < |assets| ==> !Found(assets[i], networks[i])
    case Some(least) =>
      && (exists i :: 0 <= i < |assets| && Found(assets[i], networks[i])
                      && LiveUntil(networks[i]) - Latest(networks[i]) == least)
      && (forall i :: 0 <= i < |assets| && Found(assets[i], networks[i]) ==>
            least <= LiveUntil(networks[i]) - Latest(networks[i]))
  }

  lemma HorizonIsLeast(assets: seq<Asset>, networks: seq<Network>, hasSecret: bool, horizon: Option<int>)
    requires |assets| == |networks| && IsHorizon(Outcomes(assets, networks, hasSecret), horizon)
    ensures IsLeastTtl(assets, networks, horizon)
  {
    var os := Outcomes(assets, networks, hasSecret);
    forall i | 0 <= i < |assets|
      ensures TtlOf(os[i]) == if Found(assets[i], networks[i])
                              then Some(LiveUntil(networks[i]) - Latest(networks[i])) else None
    {
      OutcomesTell(assets, networks, hasSecret, i);
    }
    if horizon.Some? {
      var i :| 0 <= i < |os| && TtlOf(os[i]) == horizon;
      assert Found(assets[i], networks[i]);
    }
  }

  /**
   Main result: what the report of a pass says. Failures are broken look-ups, budget skips and contracts
   given up on; the rent is a tenth for each extension, at most 10 in all; the projection adds a tenth
   for each dry run; the horizon is the least remaining life of the entries found.
   */
  lemma ReportTells(assets: seq<Asset>, networks: seq<Network>, hasSecret: bool, t: Totals)
    requires |assets| == |networks| && PassAccounts(assets, networks, hasSecret, t)
    ensures var os := Outcomes(assets, networks, hasSecret);
            var extended, dry := |Those(os, (o: Outcome) => o.Extended?)|, |Those(os, (o: Outcome) => o.DryRun?)|;
            && t.extensionFailureCount == |Those(os, (o: Outcome) => o.Broken? || o.OverBudget? || o.Exhausted?)|
            && t.rentSpent == 0.1 * extended as real && t.rentSpent <= 10.0
            && t.projectedRentXlm30Days == 0.1 * (extended + dry) as real
            && IsLeastTtl(assets, networks, t.expiryHorizonLedgers)
  {
    CountsAre(Outcomes(assets, networks, hasSecret));
    HorizonIsLeast(assets, networks, hasSecret, t.expiryHorizonLedgers);
  }

  /** The transactions sent for an asset are those of its tries that got to sending, at most three. */
  lemma SubmissionsTell(assets: seq<Asset>, networks: seq<Network>, hasSecret: bool, t: Totals, i: nat)
    requires i < |assets| == |networks| && PassAccounts(assets, networks, hasSecret, t)
    ensures |t.submissions| == |assets| && t.submissions[i] <= 3
    ensures var o := Outcomes(assets, networks, hasSecret)[i];
            var tries := if o.Extended? then o.tries else if o.Exhausted? then 3 else 0;
            t.submissions[i] == (if tries > 0 then SentAt(networks[i], 0) else 0)
                              + (if tries > 1 then SentAt(networks[i], 1) else 0)
                              + (if tries > 2 then SentAt(networks[i], 2) else 0)
  {
    OutcomesTell(assets, networks, hasSecret, i);
    var o := Outcomes(assets, networks, hasSecret)[i];
    SentIs(networks[i], if o.Extended? then o.tries else if o.Exhausted? then 3 else 0);
  }
}
