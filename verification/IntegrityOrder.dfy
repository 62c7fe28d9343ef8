/**
 Exactly what a repair run keeps, and why its phases stand in the order they do.
 */
module IntegrityOrder {
  import opened Options
  import opened IntegrityStore
  import opened IntegrityRepair

  // ---------------------------------------------------------------- what is kept

  predicate OnlyDemoted(before: Loan, after: Loan) {
    after == before || (before.status.Active? && after == before.(status := Approved))
  }

  /** A vehicle either keeps status and funding, losing at most its driver, or becomes Available without one. */
  predicate OnlyReleased(before: Vehicle, after: Vehicle) {
    || after == before
    || (before.status.Retired? && after == before.(driverId := None))
    || (&& (before.status.Financed? || before.status.Reserved?)
        && after.status.Available? && after.driverId.None?
        && (after.fundingStatus == before.fundingStatus || (before.status.Financed? && after.fundingStatus.Open?)))
  }

  predicate OnlyDeactivated(before: Investment, after: Investment) {
    || after == before
    || (&& before.status.Active?
        && (after == before.(status := Funding) || after == before.(status := InvestmentStatus.Completed)))
  }

  lemma VehicleIsOnlyReleased(s: Store, v: Id)
    requires v in s.vehicles
    ensures OnlyReleased(s.vehicles[v], FinalVehicle(s, v))
  {
  }

  lemma InvestmentIsOnlyDeactivated(s: Store, i: Id)
    requires i in s.investments
    ensures OnlyDeactivated(s.investments[i], FinalInvestment(s, i))
  {
  }

  /** The whole effect of a repair run, document by document; no document is created or deleted. */
  ghost predicate Keeps(s: Store, r: Store) {
    && r.loans.Keys == s.loans.Keys
    && r.vehicles.Keys == s.vehicles.Keys
    && r.investments.Keys == s.investments.Keys
    && (forall l :: l in s.loans ==> OnlyDemoted(s.loans[l], r.loans[l]))
    && (forall v :: v in s.vehicles ==> OnlyReleased(s.vehicles[v], r.vehicles[v]))
    && (forall i :: i in s.investments ==> OnlyDeactivated(s.investments[i], r.investments[i]))
  }

  lemma RepairedKeeps(s: Store)
    ensures Keeps(s, Repaired(s))
  {
    forall v | v in s.vehicles
      ensures OnlyReleased(s.vehicles[v], Repaired(s).vehicles[v])
    {
      VehicleIsOnlyReleased(s, v);
    }
    forall i | i in s.investments
      ensures OnlyDeactivated(s.investments[i], Repaired(s).investments[i])
    {
      InvestmentIsOnlyDeactivated(s, i);
    }
  }

  lemma RepairKeeps(s: Store)
    ensures Keeps(s, RepairPass(s))
  {
    RepairedKeeps(s);
    PassIsRepaired(s);
  }

  /**
   An Active loan survives exactly when its down payment was made and it is not funded below its
   request; it then stays as it was, and is Approved with all else kept otherwise.
   */
  lemma ActiveSurvivesIff(s: Store, l: Id)
    requires l in s.loans && s.loans[l].status.Active?
    ensures l in RepairPass(s).loans
    ensures var loan, after := s.loans[l], RepairPass(s).loans[l];
            && (after.status.Active? <==>
                loan.downPaymentMade == Some(true)
                && (loan.requestedAmount.None? || loan.totalFunded >= loan.requestedAmount.value))
            && (after.status.Active? ==> after == loan)
            && (!after.status.Active? ==> after == loan.(status := LoanStatus.Approved))
  {
    PassIsRepaired(s);
  }

  /**
   A Financed vehicle with a healthy Active loan is not safe: it keeps its status exactly when,
   besides, no Completed loan points at it.
   */
  lemma FinancedSurvivesIff(s: Store, v: Id)
    requires v in s.vehicles && s.vehicles[v].status.Financed?
    ensures v in RepairPass(s).vehicles
    ensures RepairPass(s).vehicles[v].status.Financed? <==> HealthyOn(s, v) && !CompletedOn(s, v)
  {
    PassIsRepaired(s);
  }

  /** The same for a Reserved vehicle; a loan demoted in this run counts as awaited. */
  lemma ReservedSurvivesIff(s: Store, v: Id)
    requires v in s.vehicles && s.vehicles[v].status.Reserved?
    ensures v in RepairPass(s).vehicles
    ensures RepairPass(s).vehicles[v].status.Reserved? <==>
            !DeclinedOn(s, v) && (AwaitedOn(s, v) || DefectiveOn(s, v))
  {
    PassIsRepaired(s);
  }

  /** A store in which the repair takes the vehicle away from a paid and fully funded Active loan. */
  lemma HealthyLoanCanLoseItsVehicle() returns (s: Store, v: Id)
    ensures v in s.vehicles && s.vehicles[v].status.Financed? && HealthyOn(s, v)
    ensures v in Repaired(s).vehicles && Repaired(s).vehicles[v].status.Available?
  {
    var running := Loan(7, LoanStatus.Active, Some(10.0), 10.0, Some(true));
    var finished := Loan(7, LoanStatus.Completed, Some(10.0), 10.0, Some(true));
    s, v := Store(map[1 := running, 2 := finished], map[7 := Vehicle(Financed, Funded, Some(3))], map[]), 7;
    assert s.loans[1] == running && s.loans[2] == finished;
  }

  // ---------------------------------------------------------------- loans before vehicles

  function VehiclesFirst(s: Store): Store {
    RepairLoans(RepairVehicles(s))
  }

  /** Checking loans first leaves no Financed vehicle without an Active loan. */
  lemma LoansFirstLeavesNoOrphan(s: Store)
    ensures Orphans(RepairVehicles(RepairLoans(s)), Financed, Current) == {}
  {
    VehiclesAreFinal(s);
    RepairConverges(s);
    var a := RepairVehicles(RepairLoans(s));
    assert a.vehicles == Repaired(s).vehicles && a.loans == Repaired(s).loans;
  }

  lemma VehiclesFirstLoans(s: Store)
    ensures VehiclesFirst(s).loans == Repaired(s).loans
  {
    var a := RepairVehicles(s);
    DemotionsAreFinal(a);
    assert DemoteLoans(a).loans == Repaired(s).loans;
  }

  lemma VehiclesFirstFinanced(s: Store, v: Id)
    ensures v in VehiclesFirst(s).vehicles && VehiclesFirst(s).vehicles[v].status.Financed? <==>
            && v in s.vehicles && s.vehicles[v].status.Financed?
            && LoanOn(s.loans, v, Current) && !LoanOn(Repaired(s).loans, v, Finished)
  {
    VehiclesFirstLoans(s);
  }

  /**
   Checking vehicles first would leave `v` Financed without an Active loan exactly when all its
   Active loans are defective and no Completed loan frees it.
   */
  lemma VehiclesFirstStrandsIff(s: Store, v: Id)
    ensures v in Orphans(VehiclesFirst(s), Financed, Current) <==>
            && v in s.vehicles && s.vehicles[v].status.Financed?
            && DefectiveOn(s, v) && !HealthyOn(s, v) && !CompletedOn(s, v)
  {
    VehiclesFirstLoans(s);
    VehiclesFirstFinanced(s, v);
    ClassesAfterDemotion(s, v);
    ClassesOn(s, v);
  }

  /** A store that checking vehicles first would leave with a Financed vehicle and no Active loan. */
  lemma VehiclesFirstCanStrand() returns (s: Store, v: Id)
    ensures v in Orphans(VehiclesFirst(s), Financed, Current)
  {
    var unpaid := Loan(7, LoanStatus.Active, Some(10.0), 10.0, None);
    s, v := Store(map[1 := unpaid], map[7 := Vehicle(Financed, Funded, Some(3))], map[]), 7;
    assert s.loans[1] == unpaid && DefectiveOn(s, v);
    VehiclesFirstStrandsIff(s, v);
  }

  // ---------------------------------------------------------------- settlement before reopening

  function ReturnFirst(s: Store): Store {
    SettleInvestments(ReturnToFunding(s))
  }

  /** An Active investment of a Completed loan ends Completed, even if the run reopened its vehicle. */
  lemma CompletedLoanSettles(s: Store, i: Id)
    requires i in s.investments && s.investments[i].status.Active?
    requires LoanStatusOf(s, s.investments[i]) == Some(LoanStatus.Completed)
    ensures i in RepairPass(s).investments
    ensures RepairPass(s).investments[i] == s.investments[i].(status := InvestmentStatus.Completed)
  {
    PassIsRepaired(s);
  }

  /** With the two investment checks swapped, it would end in Funding if its vehicle is open for funding by then. */
  lemma ReturnFirstLosesCompletion(s: Store, i: Id)
    requires i in s.investments && s.investments[i].status.Active?
    requires LoanStatusOf(s, s.investments[i]) == Some(LoanStatus.Completed)
    requires OpensFunding(s, s.investments[i].vehicleId)
    ensures i in ReturnFirst(RepairVehicles(RepairLoans(s))).investments
    ensures ReturnFirst(RepairVehicles(RepairLoans(s))).investments[i].status.Funding?
  {
    VehiclesAreFinal(s);
    OpenAfterRepair(s, s.investments[i].vehicleId);
    SettledOverSameLoans(s, i);
    var a := BeforeInvestments(s);
    var b := ReturnToFunding(a);
    assert i in OnOpenVehicle(a);
    assert b.investments[i].status.Funding?;
    assert i !in OverClosedLoan(b);
  }

  /** A store in which the swapped checks reopen an investment that the run completes. */
  lemma ReturnFirstCanReopen() returns (s: Store, i: Id)
    ensures i in s.investments && i in RepairPass(s).investments
    ensures RepairPass(s).investments[i].status.Completed?
    ensures i in ReturnFirst(RepairVehicles(RepairLoans(s))).investments
    ensures ReturnFirst(RepairVehicles(RepairLoans(s))).investments[i].status.Funding?
  {
    var finished := Loan(7, LoanStatus.Completed, Some(10.0), 10.0, Some(true));
    var held := Investment(Some(1), 7, InvestmentStatus.Active, 10.0);
    s, i := Store(map[1 := finished], map[7 := Vehicle(Financed, Funded, Some(3))], map[5 := held]), 5;
    assert s.loans[1] == finished && s.investments[5] == held;
    CompletedLoanSettles(s, i);
    ReturnFirstLosesCompletion(s, i);
  }

  /** An Active investment of a Completed loan on a vehicle that is open for funding. */
  predicate SettlesOnOpen(s: Store, i: Id)
    requires i in s.investments
  {
    && s.investments[i].status.Active?
    && LoanStatusOf(s, s.investments[i]) == Some(LoanStatus.Completed)
    && s.investments[i].vehicleId in s.vehicles
    && s.vehicles[s.investments[i].vehicleId].fundingStatus.Open?
  }

  /** The order matters exactly for Active investments of Completed loans on vehicles open for funding. */
  lemma InvestmentOrderMattersIff(s: Store)
    ensures ReturnFirst(s) == RepairInvestments(s) <==>
            (forall i :: i in s.investments ==> !SettlesOnOpen(s, i))
  {
    var p, q := ReturnFirst(s), RepairInvestments(s);
    forall i | i in s.investments
      ensures p.investments[i] == q.investments[i] <==>
              !SettlesOnOpen(s, i)
    {
      InvestmentOrderAt(s, i);
    }
    assert p.investments.Keys == s.investments.Keys == q.investments.Keys;
    if forall i :: i in s.investments ==> p.investments[i] == q.investments[i] {
      assert p.investments == q.investments;
    }
  }

  lemma InvestmentOrderAt(s: Store, i: Id)
    requires i in s.investments
    ensures ReturnFirst(s).investments[i] == RepairInvestments(s).investments[i] <==>
            !SettlesOnOpen(s, i)
  {
    var a, b := ReturnToFunding(s), SettleInvestments(s);
    assert i in OverClosedLoan(s) <==> ActiveOver(s, i, Finished) || ActiveOver(s, i, Closed);
    assert i in OnOpenVehicle(s) <==>
           s.investments[i].status.Active? && OpenForFunding(s.vehicles, s.investments[i].vehicleId);
    assert a.investments[i].status.Active? <==> s.investments[i].status.Active? && i !in OnOpenVehicle(s);
    assert b.investments[i].status.Active? <==> s.investments[i].status.Active? && i !in OverClosedLoan(s);
    assert i in OverClosedLoan(a) <==> i in OverClosedLoan(s) && i !in OnOpenVehicle(s);
  }

  // ---------------------------------------------------------------- findings per phase

  ghost predicate Shared(s: Store, c: Class, held: VehicleStatus) {
    exists l, m ::
      l != m && Holds(s, l, c, held) && Holds(s, m, c, held) && s.loans[l].vehicleId == s.loans[m].vehicleId
  }

  /** The vehicles that the loans `ls` point at. */
  function VehiclesOf(s: Store, ls: set<Id>): set<Id>
    requires ls <= s.loans.Keys
  {
    set l | l in ls :: s.loans[l].vehicleId
  }

  lemma {:induction false} FewerVehiclesThanLoans(s: Store, ls: set<Id>)
    requires ls <= s.loans.Keys
    ensures |VehiclesOf(s, ls)| <= |ls|
    ensures |VehiclesOf(s, ls)| == |ls| <==>
            forall l, m :: l in ls && m in ls && s.loans[l].vehicleId == s.loans[m].vehicleId ==> l == m
    decreases |ls|
  {
    if ls != {} {
      var l :| l in ls;
      var rest := ls - {l};
      FewerVehiclesThanLoans(s, rest);
      var v := s.loans[l].vehicleId;
      assert VehiclesOf(s, ls) == VehiclesOf(s, rest) + {v};
      if v in VehiclesOf(s, rest) {
        var m :| m in rest && s.loans[m].vehicleId == v;
        assert |VehiclesOf(s, ls)| < |ls|;
      }
    }
  }

  lemma HeldByHolders(s: Store, c: Class, held: VehicleStatus)
    ensures HeldBy(s, c, held) == VehiclesOf(s, Holders(s, c, held))
  {
    var holders := Holders(s, c, held);
    forall v | v in HeldBy(s, c, held)
      ensures v in VehiclesOf(s, holders)
    {
      var l :| l in s.loans && s.loans[l].vehicleId == v && ClassOf(s.loans[l].status) == c;
      assert l in holders;
    }
  }

  /** There are as many holders as held vehicles exactly when no two holders share a vehicle, and never fewer. */
  lemma HeldAtMostHolders(s: Store, c: Class, held: VehicleStatus)
    ensures |HeldBy(s, c, held)| <= |Holders(s, c, held)|
    ensures |HeldBy(s, c, held)| == |Holders(s, c, held)| <==> !Shared(s, c, held)
  {
    HeldByHolders(s, c, held);
    FewerVehiclesThanLoans(s, Holders(s, c, held));
  }

  /** The demotions leave the vehicles of finished and closed loans as they were. */
  lemma DemotionsKeepHeld(s: Store, c: Class, held: VehicleStatus)
    requires c == Finished || c == Closed
    ensures HeldBy(DemoteLoans(s), c, held) == HeldBy(s, c, held)
  {
    DemotionsAreFinal(s);
    forall v | v in s.vehicles
      ensures LoanOn(DemoteLoans(s).loans, v, c) == LoanOn(s.loans, v, c)
    {
      ClassesAfterDemotion(s, v);
    }
  }

  /** Releasing Financed vehicles leaves the Reserved ones as they were. */
  lemma ReleasesKeepReserved(s: Store)
    ensures HeldBy(FreeHeld(s, Finished, Financed, true), Closed, Reserved) == HeldBy(s, Closed, Reserved)
  {
  }

  /** Some Active loan is unpaid and underfunded. */
  predicate DoublyDefective(s: Store) {
    exists l :: l in s.loans && s.loans[l].status.Active? && s.loans[l].downPaymentMade != Some(true)
      && s.loans[l].requestedAmount.Some? && s.loans[l].totalFunded < s.loans[l].requestedAmount.value
  }

  /** Such a loan is demoted, and reported, for the first reason only. */
  lemma DemotedOnce(s: Store)
    ensures |UnderfundedLoans(DemoteUnpaid(s))| <= |UnderfundedLoans(s)|
    ensures |UnderfundedLoans(DemoteUnpaid(s))| == |UnderfundedLoans(s)| <==> !DoublyDefective(s)
  {
    var both := UnderfundedLoans(s) * UnpaidLoans(s);
    assert UnderfundedLoans(DemoteUnpaid(s)) == UnderfundedLoans(s) - both;
    CardinalityOfRest(UnderfundedLoans(s), both);
    if DoublyDefective(s) {
      var l :| l in s.loans && Unpaid(s.loans[l]) && Underfunded(s.loans[l]);
      assert l in UnpaidLoans(s) && l in both;
    } else {
      assert both == {};
    }
  }
}
