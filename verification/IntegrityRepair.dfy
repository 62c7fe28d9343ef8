/**
 What a repair run means. `Repaired` states every document's final fields by conditions on the
 starting collections alone; the chain of ten phases computes exactly that, leaves nothing
 for a second run to do, and reports as many findings as it removes defects.
 */
module IntegrityRepair {
  import opened Options
  import opened IntegrityStore

  // ---------------------------------------------------------------- the closed form, in the documents' own fields

  /** The down payment was made and, if the request is a number, at least as much was funded. */
  predicate InOrder(l: Loan) {
    l.downPaymentMade == Some(true) && (l.requestedAmount.Some? ==> l.totalFunded >= l.requestedAmount.value)
  }

  /** Some Active loan that is in order points at `v`. */
  predicate HealthyOn(s: Store, v: Id) {
    exists l :: l in s.loans && s.loans[l].vehicleId == v && s.loans[l].status.Active? && InOrder(s.loans[l])
  }

  /** Some Active loan that is not in order points at `v`. */
  predicate DefectiveOn(s: Store, v: Id) {
    exists l :: l in s.loans && s.loans[l].vehicleId == v && s.loans[l].status.Active? && !InOrder(s.loans[l])
  }

  predicate CompletedOn(s: Store, v: Id) {
    exists l :: l in s.loans && s.loans[l].vehicleId == v && s.loans[l].status.Completed?
  }

  /** Some Rejected or Cancelled loan points at `v`. */
  predicate DeclinedOn(s: Store, v: Id) {
    exists l :: l in s.loans && s.loans[l].vehicleId == v &&
      (s.loans[l].status.Rejected? || s.loans[l].status.Cancelled?)
  }

  /** Some loan that is Pending, Under Review or Approved points at `v`. */
  predicate AwaitedOn(s: Store, v: Id) {
    exists l :: l in s.loans && s.loans[l].vehicleId == v &&
      (s.loans[l].status.Pending? || s.loans[l].status.UnderReview? || s.loans[l].status.Approved?)
  }

  /** An Active loan that is not in order is demoted. */
  function FinalLoan(l: Loan): Loan {
    if l.status.Active? && !InOrder(l) then l.(status := Approved) else l
  }

  /**
   A Financed vehicle is freed, for new funding, if it was bought out, and freed if no Active loan in
   order justifies it; a Reserved one is freed if an application for it was declined or none is left.
   */
  function FinalVehicle(s: Store, v: Id): Vehicle
    requires v in s.vehicles
  {
    var vehicle := s.vehicles[v];
    match vehicle.status
    case Financed =>
      if CompletedOn(s, v) then Vehicle(Available, FundingStatus.Open, None)
      else if HealthyOn(s, v) then vehicle
      else Vehicle(Available, vehicle.fundingStatus, None)
    case Reserved =>
      if !DeclinedOn(s, v) && (AwaitedOn(s, v) || DefectiveOn(s, v)) then vehicle
      else Vehicle(Available, vehicle.fundingStatus, None)
    case Retired => vehicle.(driverId := None)
    case _ => vehicle
  }

  /** The status of the loan that an investment points at, if there is one. */
  function LoanStatusOf(s: Store, investment: Investment): Option<LoanStatus> {
    if investment.loanId.Some? && investment.loanId.value in s.loans
    then Some(s.loans[investment.loanId.value].status)
    else None
  }

  /** The vehicle was open for funding, or is so once the run has freed it. */
  predicate OpensFunding(s: Store, v: Id) {
    v in s.vehicles && (s.vehicles[v].fundingStatus.Open? || (s.vehicles[v].status.Financed? && CompletedOn(s, v)))
  }

  function FinalInvestment(s: Store, i: Id): Investment
    requires i in s.investments
  {
    var investment := s.investments[i];
    if !investment.status.Active? then investment
    else match LoanStatusOf(s, investment)
         case Some(Completed) => investment.(status := InvestmentStatus.Completed)
         case Some(Rejected) | Some(Cancelled) => investment.(status := Funding)
         case _ => if OpensFunding(s, investment.vehicleId) then investment.(status := Funding) else investment
  }

  function Repaired(s: Store): Store {
    Store(map l | l in s.loans :: FinalLoan(s.loans[l]),
          map v | v in s.vehicles :: FinalVehicle(s, v),
          map i | i in s.investments :: FinalInvestment(s, i))
  }

  // ---------------------------------------------------------------- the defects in those terms

  lemma DefectsOfLoans(s: Store, l: Id)
    requires l in s.loans
    ensures l in UnpaidLoans(s) || l in UnderfundedLoans(s) <==> s.loans[l].status.Active? && !InOrder(s.loans[l])
  {
  }

  lemma ClassesOn(s: Store, v: Id)
    ensures LoanOn(s.loans, v, Finished) == CompletedOn(s, v)
    ensures LoanOn(s.loans, v, Closed) == DeclinedOn(s, v)
    ensures LoanOn(s.loans, v, InProgress) == AwaitedOn(s, v)
    ensures LoanOn(s.loans, v, Current) == (HealthyOn(s, v) || DefectiveOn(s, v))
  {
  }

  lemma ActiveOverLoan(s: Store, i: Id)
    requires i in s.investments && s.investments[i].status.Active?
    ensures ActiveOver(s, i, Finished) <==> LoanStatusOf(s, s.investments[i]) == Some(LoanStatus.Completed)
    ensures ActiveOver(s, i, Closed) <==>
            LoanStatusOf(s, s.investments[i]) in {Some(LoanStatus.Rejected), Some(LoanStatus.Cancelled)}
  {
  }

  // ---------------------------------------------------------------- the chain computes it

  lemma DemotionsAreFinal(s: Store)
    ensures DemoteLoans(s) == s.(loans := Repaired(s).loans)
  {
    assert DemoteLoans(s).loans == Repaired(s).loans;
  }

  /** Demotion changes who holds a vehicle only from Active to in progress. */
  lemma ClassesAfterDemotion(s: Store, v: Id)
    ensures var loans := Repaired(s).loans;
            && LoanOn(loans, v, Finished) == CompletedOn(s, v)
            && LoanOn(loans, v, Closed) == DeclinedOn(s, v)
            && LoanOn(loans, v, Current) == HealthyOn(s, v)
            && LoanOn(loans, v, InProgress) == (AwaitedOn(s, v) || DefectiveOn(s, v))
  {
    var r := Repaired(s);
    ClassesOn(r, v);
    assert forall l :: l in r.loans <==> l in s.loans;
    ActiveAfterDemotion(s, r, v);
    AwaitedAfterDemotion(s, r, v);
    KeptClasses(s, r, v);
  }

  lemma ActiveAfterDemotion(s: Store, r: Store, v: Id)
    requires r == Repaired(s)
    ensures HealthyOn(r, v) == HealthyOn(s, v)
    ensures !DefectiveOn(r, v)
  {
    if l :| l in s.loans && s.loans[l].vehicleId == v && s.loans[l].status.Active? && InOrder(s.loans[l]) {
      assert l in r.loans;
    }
  }

  lemma AwaitedAfterDemotion(s: Store, r: Store, v: Id)
    requires r == Repaired(s)
    ensures AwaitedOn(r, v) == (AwaitedOn(s, v) || DefectiveOn(s, v))
  {
    assert forall l :: l in r.loans <==> l in s.loans;
    if DefectiveOn(s, v) {
      var l :| l in s.loans && s.loans[l].vehicleId == v && s.loans[l].status.Active? && !InOrder(s.loans[l]);
      assert r.loans[l].status.Approved?;
    } else if AwaitedOn(s, v) {
      var l :| l in s.loans && s.loans[l].vehicleId == v && ClassOf(s.loans[l].status) == InProgress;
      assert l in r.loans;
    }
  }

  lemma KeptClasses(s: Store, r: Store, v: Id)
    requires r == Repaired(s)
    ensures CompletedOn(r, v) == CompletedOn(s, v)
    ensures DeclinedOn(r, v) == DeclinedOn(s, v)
  {
    assert forall l :: l in r.loans <==> l in s.loans;
    if CompletedOn(s, v) {
      var l :| l in s.loans && s.loans[l].vehicleId == v && s.loans[l].status.Completed?;
      assert l in r.loans;
    }
    if DeclinedOn(s, v) {
      var l :| l in s.loans && s.loans[l].vehicleId == v && ClassOf(s.loans[l].status) == Closed;
      assert l in r.loans;
    }
  }

  lemma HeldIsFreed(s: Store, c: Class, held: VehicleStatus, reopen: bool, v: Id)
    requires v in s.vehicles
    ensures FreeHeld(s, c, held, reopen).loans == s.loans && v in FreeHeld(s, c, held, reopen).vehicles
    ensures FreeHeld(s, c, held, reopen).vehicles[v] ==
            if s.vehicles[v].status == held && LoanOn(s.loans, v, c) then Freed(s.vehicles[v], reopen)
            else s.vehicles[v]
  {
  }

  lemma OrphanIsFreed(s: Store, held: VehicleStatus, needed: Class, v: Id)
    requires v in s.vehicles
    ensures FreeOrphans(s, held, needed).loans == s.loans && v in FreeOrphans(s, held, needed).vehicles
    ensures FreeOrphans(s, held, needed).vehicles[v] ==
            if s.vehicles[v].status == held && !LoanOn(s.loans, v, needed) then Freed(s.vehicles[v], false)
            else s.vehicles[v]
  {
  }

  lemma RetiredIsCleared(s: Store, v: Id)
    requires v in s.vehicles
    ensures v in ClearRetired(s).vehicles
    ensures ClearRetired(s).vehicles[v] ==
            if s.vehicles[v].status.Retired? then s.vehicles[v].(driverId := None) else s.vehicles[v]
  {
  }

  /** What the releases of the loan checks and the vehicle checks make of one vehicle. */
  function AfterReleases(loans: map<Id, Loan>, vehicle: Vehicle, v: Id): Vehicle {
    match vehicle.status
    case Financed => if LoanOn(loans, v, Finished) then Freed(vehicle, true) else vehicle
    case Reserved => if LoanOn(loans, v, Closed) then Freed(vehicle, false) else vehicle
    case _ => vehicle
  }

  function AfterVehicleChecks(loans: map<Id, Loan>, vehicle: Vehicle, v: Id): Vehicle {
    match vehicle.status
    case Financed => if !LoanOn(loans, v, Current) then Freed(vehicle, false) else vehicle
    case Reserved => if !LoanOn(loans, v, InProgress) then Freed(vehicle, false) else vehicle
    case Retired => vehicle.(driverId := None)
    case _ => vehicle
  }

  lemma ReleasesAt(s: Store, v: Id)
    requires v in s.vehicles
    ensures FreeVehicles(s).loans == s.loans && v in FreeVehicles(s).vehicles
    ensures FreeVehicles(s).vehicles[v] == AfterReleases(s.loans, s.vehicles[v], v)
  {
    HeldIsFreed(s, Finished, Financed, true, v);
    HeldIsFreed(FreeHeld(s, Finished, Financed, true), Closed, Reserved, false, v);
  }

  lemma VehicleChecksAt(s: Store, v: Id)
    requires v in s.vehicles
    ensures v in RepairVehicles(s).vehicles
    ensures RepairVehicles(s).vehicles[v] == AfterVehicleChecks(s.loans, s.vehicles[v], v)
  {
    var a := FreeOrphans(s, Financed, Current);
    OrphanIsFreed(s, Financed, Current, v);
    OrphanIsFreed(a, Reserved, InProgress, v);
    RetiredIsCleared(FreeOrphans(a, Reserved, InProgress), v);
  }

  lemma ChecksAreFinal(s: Store, v: Id)
    requires v in s.vehicles
    ensures var loans := Repaired(s).loans;
            AfterVehicleChecks(loans, AfterReleases(loans, s.vehicles[v], v), v) == FinalVehicle(s, v)
  {
    ClassesAfterDemotion(s, v);
  }

  lemma VehicleIsFinal(s: Store, v: Id)
    requires v in s.vehicles
    ensures v in RepairVehicles(RepairLoans(s)).vehicles
    ensures RepairVehicles(RepairLoans(s)).vehicles[v] == FinalVehicle(s, v)
  {
    DemotionsAreFinal(s);
    ReleasesAt(DemoteLoans(s), v);
    VehicleChecksAt(RepairLoans(s), v);
    ChecksAreFinal(s, v);
  }

  lemma VehicleChecksKeepRest(s: Store)
    ensures var r := RepairVehicles(RepairLoans(s));
            r.loans == Repaired(s).loans && r.vehicles.Keys == s.vehicles.Keys && r.investments == s.investments
  {
    DemotionsAreFinal(s);
  }

  lemma VehiclesAreFinal(s: Store)
    ensures RepairVehicles(RepairLoans(s)) == Store(Repaired(s).loans, Repaired(s).vehicles, s.investments)
  {
    VehicleChecksKeepRest(s);
    var vehicles := RepairVehicles(RepairLoans(s)).vehicles;
    forall v | v in s.vehicles
      ensures vehicles[v] == FinalVehicle(s, v)
    {
      VehicleIsFinal(s, v);
    }
    assert vehicles == Repaired(s).vehicles;
  }

  /** The store the investment checks start from. */
  function BeforeInvestments(s: Store): Store {
    Store(Repaired(s).loans, Repaired(s).vehicles, s.investments)
  }

  lemma SettledOverSameLoans(s: Store, i: Id)
    ensures ActiveOver(BeforeInvestments(s), i, Finished) == ActiveOver(s, i, Finished)
    ensures ActiveOver(BeforeInvestments(s), i, Closed) == ActiveOver(s, i, Closed)
  {
  }

  /** Only a bought-out vehicle has its funding reopened. */
  lemma OpenAfterRepair(s: Store, v: Id)
    ensures OpenForFunding(Repaired(s).vehicles, v) == OpensFunding(s, v)
  {
  }

  lemma InvestmentChecksAt(s: Store, i: Id)
    requires i in s.investments
    ensures i in RepairInvestments(s).investments
    ensures var investment := s.investments[i];
            RepairInvestments(s).investments[i] ==
              if ActiveOver(s, i, Finished) then investment.(status := InvestmentStatus.Completed)
              else if ActiveOver(s, i, Closed) then investment.(status := Funding)
              else if investment.status.Active? && OpenForFunding(s.vehicles, investment.vehicleId)
              then investment.(status := Funding)
              else investment
  {
  }

  lemma InvestmentIsFinal(s: Store, i: Id)
    requires i in s.investments
    ensures i in RepairInvestments(BeforeInvestments(s)).investments
    ensures RepairInvestments(BeforeInvestments(s)).investments[i] == FinalInvestment(s, i)
  {
    InvestmentChecksAt(BeforeInvestments(s), i);
    SettledOverSameLoans(s, i);
    OpenAfterRepair(s, s.investments[i].vehicleId);
    if s.investments[i].status.Active? {
      ActiveOverLoan(s, i);
    }
  }

  /** Main result: the ten phases compute the closed form. */
  lemma PassIsRepaired(s: Store)
    ensures RepairPass(s) == Repaired(s)
  {
    VehiclesAreFinal(s);
    var a := BeforeInvestments(s);
    assert RepairPass(s) == RepairInvestments(a);
    forall i | i in s.investments
      ensures RepairInvestments(a).investments[i] == Repaired(s).investments[i]
    {
      InvestmentIsFinal(s, i);
    }
    assert RepairInvestments(a).investments.Keys == s.investments.Keys;
    assert RepairInvestments(a).investments == Repaired(s).investments;
  }

  // ---------------------------------------------------------------- convergence

  /** Every Active loan is in order. */
  ghost predicate LoansCoherent(s: Store) {
    forall l :: l in s.loans && s.loans[l].status.Active? ==> InOrder(s.loans[l])
  }

  /** Vehicles in use are justified and not overdue for release; no Retired one has a driver. */
  ghost predicate VehiclesCoherent(s: Store) {
    forall v :: v in s.vehicles ==>
      match s.vehicles[v].status
      case Financed => !CompletedOn(s, v) && (HealthyOn(s, v) || DefectiveOn(s, v))
      case Reserved => !DeclinedOn(s, v) && AwaitedOn(s, v)
      case Retired => s.vehicles[v].driverId.None?
      case _ => true
  }

  /** No Active investment has a loan that is over, nor a vehicle that is open for funding. */
  ghost predicate InvestmentsCoherent(s: Store) {
    forall i :: i in s.investments && s.investments[i].status.Active? ==>
      var investment := s.investments[i];
      && LoanStatusOf(s, investment) != Some(LoanStatus.Completed)
      && LoanStatusOf(s, investment) != Some(LoanStatus.Rejected)
      && LoanStatusOf(s, investment) != Some(LoanStatus.Cancelled)
      && !(investment.vehicleId in s.vehicles && s.vehicles[investment.vehicleId].fundingStatus.Open?)
  }

  /** Nothing is left that a repair would change. */
  ghost predicate Coherent(s: Store) {
    LoansCoherent(s) && VehiclesCoherent(s) && InvestmentsCoherent(s)
  }

  /** All ten cross-collection conditions hold. */
  ghost predicate Consistent(s: Store) {
    Coherent(s) && forall l :: l in s.loans ==>
      s.loans[l].status in {LoanStatus.Pending, UnderReview, LoanStatus.Approved, LoanStatus.Rejected,
                            LoanStatus.Active, LoanStatus.Completed, LoanStatus.Cancelled}
  }

  /** The five kinds of defect that concern vehicles are all absent. */
  predicate VehiclesClean(s: Store) {
    && Holders(s, Finished, Financed) == {} && Holders(s, Closed, Reserved) == {}
    && Orphans(s, Financed, Current) == {} && Orphans(s, Reserved, InProgress) == {}
    && DrivenRetired(s) == {}
  }

  /** The nine kinds of repairable defect are all absent. */
  predicate Clean(s: Store) {
    && UnpaidLoans(s) == {} && UnderfundedLoans(s) == {}
    && VehiclesClean(s)
    && OverClosedLoan(s) == {} && OnOpenVehicle(s) == {}
  }

  lemma LoansCleanIff(s: Store)
    ensures LoansCoherent(s) <==> UnpaidLoans(s) == {} && UnderfundedLoans(s) == {}
  {
    if UnpaidLoans(s) == {} && UnderfundedLoans(s) == {} {
      forall l | l in s.loans && s.loans[l].status.Active?
        ensures InOrder(s.loans[l])
      {
        DefectsOfLoans(s, l);
        assert l !in UnpaidLoans(s) && l !in UnderfundedLoans(s);
      }
    } else if l :| l in UnpaidLoans(s) + UnderfundedLoans(s) {
      DefectsOfLoans(s, l);
    }
  }

  /** A loan that holds on to a vehicle is a loan of its class on a vehicle of that status. */
  lemma HoldersIff(s: Store, c: Class, held: VehicleStatus)
    ensures Holders(s, c, held) == {} <==>
            forall v :: v in s.vehicles && s.vehicles[v].status == held ==> !LoanOn(s.loans, v, c)
  {
    if l :| l in Holders(s, c, held) {
      assert LoanOn(s.loans, s.loans[l].vehicleId, c);
    }
    if v :| v in s.vehicles && s.vehicles[v].status == held && LoanOn(s.loans, v, c) {
      var l :| l in s.loans && s.loans[l].vehicleId == v && ClassOf(s.loans[l].status) == c;
      assert l in Holders(s, c, held);
    }
  }

  lemma OrphansIff(s: Store, held: VehicleStatus, needed: Class)
    ensures Orphans(s, held, needed) == {} <==>
            forall v :: v in s.vehicles && s.vehicles[v].status == held ==> LoanOn(s.loans, v, needed)
  {
    if v :| v in s.vehicles && s.vehicles[v].status == held && !LoanOn(s.loans, v, needed) {
      assert v in Orphans(s, held, needed);
    }
  }

  lemma RetiredIff(s: Store)
    ensures DrivenRetired(s) == {} <==>
            forall v :: v in s.vehicles && s.vehicles[v].status.Retired? ==> s.vehicles[v].driverId.None?
  {
    if v :| v in s.vehicles && s.vehicles[v].status.Retired? && s.vehicles[v].driverId.Some? {
      assert v in DrivenRetired(s);
    }
  }

  lemma VehiclesCleanIff(s: Store)
    ensures VehiclesCoherent(s) <==> VehiclesClean(s)
  {
    HoldersIff(s, Finished, Financed);
    HoldersIff(s, Closed, Reserved);
    OrphansIff(s, Financed, Current);
    OrphansIff(s, Reserved, InProgress);
    RetiredIff(s);
    forall v
      ensures LoanOn(s.loans, v, Finished) == CompletedOn(s, v)
      ensures LoanOn(s.loans, v, Closed) == DeclinedOn(s, v)
      ensures LoanOn(s.loans, v, InProgress) == AwaitedOn(s, v)
      ensures LoanOn(s.loans, v, Current) == (HealthyOn(s, v) || DefectiveOn(s, v))
    {
      ClassesOn(s, v);
    }
  }

  lemma InvestmentsCleanIff(s: Store)
    ensures InvestmentsCoherent(s) <==> OverClosedLoan(s) == {} && OnOpenVehicle(s) == {}
  {
    forall i | i in s.investments && s.investments[i].status.Active?
      ensures ActiveOver(s, i, Finished) <==> LoanStatusOf(s, s.investments[i]) == Some(LoanStatus.Completed)
      ensures ActiveOver(s, i, Closed) <==>
              LoanStatusOf(s, s.investments[i]) in {Some(LoanStatus.Rejected), Some(LoanStatus.Cancelled)}
      ensures OverClosedLoan(s) == {} ==> !ActiveOver(s, i, Finished) && !ActiveOver(s, i, Closed)
      ensures OnOpenVehicle(s) == {} ==> !OpenForFunding(s.vehicles, s.investments[i].vehicleId)
    {
      ActiveOverLoan(s, i);
      assert OverClosedLoan(s) == {} ==> i !in OverClosedLoan(s);
      assert OnOpenVehicle(s) == {} ==> i !in OnOpenVehicle(s);
    }
  }

  lemma CoherentIffClean(s: Store)
    ensures Coherent(s) <==> Clean(s)
  {
    LoansCleanIff(s);
    VehiclesCleanIff(s);
    InvestmentsCleanIff(s);
  }

  lemma CoherentIsFixed(s: Store)
    requires Coherent(s)
    ensures Repaired(s) == s
  {
    assert Repaired(s).loans == s.loans;
    forall v | v in s.vehicles
      ensures FinalVehicle(s, v) == s.vehicles[v]
    {
      assert !DefectiveOn(s, v);
    }
    assert Repaired(s).vehicles == s.vehicles;
    forall i | i in s.investments
      ensures FinalInvestment(s, i) == s.investments[i]
    {
    }
    assert Repaired(s).investments == s.investments;
  }

  lemma RepairedVehicles(s: Store)
    ensures VehiclesCoherent(Repaired(s))
  {
    var r := Repaired(s);
    forall v | v in r.vehicles
      ensures r.vehicles[v].status.Financed? ==> !CompletedOn(r, v) && HealthyOn(r, v)
      ensures r.vehicles[v].status.Reserved? ==> !DeclinedOn(r, v) && AwaitedOn(r, v)
      ensures r.vehicles[v].status.Retired? ==> r.vehicles[v].driverId.None?
    {
      ActiveAfterDemotion(s, r, v);
      AwaitedAfterDemotion(s, r, v);
      KeptClasses(s, r, v);
    }
  }

  lemma RepairedInvestments(s: Store)
    ensures InvestmentsCoherent(Repaired(s))
  {
    var r := Repaired(s);
    forall i | i in r.investments && r.investments[i].status.Active?
      ensures r.investments[i] == s.investments[i] && !OpensFunding(s, s.investments[i].vehicleId)
      ensures LoanStatusOf(r, s.investments[i]) == LoanStatusOf(s, s.investments[i])
           || LoanStatusOf(r, s.investments[i]) == Some(LoanStatus.Approved)
    {
      OpenAfterRepair(s, s.investments[i].vehicleId);
    }
  }

  /** Main result: one pass establishes every repairable condition, whatever the store. */
  lemma RepairConverges(s: Store)
    ensures Coherent(Repaired(s))
  {
    RepairedVehicles(s);
    RepairedInvestments(s);
  }

  /** The stores a repair leaves alone are exactly the coherent ones; hence a second repair is idle. */
  lemma FixedIffCoherent(s: Store)
    ensures Repaired(s) == s <==> Coherent(s)
    ensures Repaired(Repaired(s)) == Repaired(s)
    ensures UnknownLoans(Repaired(s)) == UnknownLoans(s)
  {
    RepairConverges(s);
    CoherentIsFixed(Repaired(s));
    if Coherent(s) {
      CoherentIsFixed(s);
    }
  }

  // ---------------------------------------------------------------- accounting

  function ActiveLoans(s: Store): set<Id> {
    set l | l in s.loans && s.loans[l].status.Active?
  }

  function VehiclesInUse(s: Store): set<Id> {
    set v | v in s.vehicles && (s.vehicles[v].status.Financed? || s.vehicles[v].status.Reserved?)
  }

  function ActiveInvestments(s: Store): set<Id> {
    set i | i in s.investments && s.investments[i].status.Active?
  }

  /** What every repair lowers by one. */
  function Potential(s: Store): nat {
    |ActiveLoans(s)| + |VehiclesInUse(s)| + |DrivenRetired(s)| + |ActiveInvestments(s)|
  }

  function LoanRepairs(s: Store): nat {
    var a := DemoteUnpaid(s);
    var b := DemoteUnderfunded(a);
    var c := FreeHeld(b, Finished, Financed, true);
    |UnpaidLoans(s)| + |UnderfundedLoans(a)| + |HeldBy(b, Finished, Financed)| + |HeldBy(c, Closed, Reserved)|
  }

  function VehicleRepairs(s: Store): nat {
    var a := FreeOrphans(s, Financed, Current);
    var b := FreeOrphans(a, Reserved, InProgress);
    |Orphans(s, Financed, Current)| + |Orphans(a, Reserved, InProgress)| + |DrivenRetired(b)|
  }

  function InvestmentRepairs(s: Store): nat {
    |OverClosedLoan(s)| + |OnOpenVehicle(SettleInvestments(s))|
  }

  /** The number of documents a repair run writes, counted phase by phase. */
  function RepairCount(s: Store): nat {
    LoanRepairs(s) + VehicleRepairs(RepairLoans(s)) + InvestmentRepairs(RepairVehicles(RepairLoans(s)))
  }

  lemma CardinalityOfRest(all: set<Id>, part: set<Id>)
    requires part <= all
    ensures |all - part| == |all| - |part|
  {
    assert all == (all - part) + part;
  }

  lemma DemotionLowers(s: Store, ls: set<Id>)
    requires ls <= ActiveLoans(s)
    ensures Potential(s.(loans := Demote(s.loans, ls))) == Potential(s) - |ls|
  {
    var t := s.(loans := Demote(s.loans, ls));
    assert ActiveLoans(t) == ActiveLoans(s) - ls;
    CardinalityOfRest(ActiveLoans(s), ls);
    assert VehiclesInUse(t) == VehiclesInUse(s) && DrivenRetired(t) == DrivenRetired(s);
    assert ActiveInvestments(t) == ActiveInvestments(s);
  }

  lemma FreeingFreesUse(s: Store, vs: set<Id>, reopen: bool)
    ensures VehiclesInUse(s.(vehicles := Free(s.vehicles, vs, reopen))) == VehiclesInUse(s) - vs
  {
  }

  lemma FreeingKeepsRest(s: Store, vs: set<Id>, reopen: bool)
    requires vs <= VehiclesInUse(s)
    ensures var t := s.(vehicles := Free(s.vehicles, vs, reopen));
            && DrivenRetired(t) == DrivenRetired(s)
            && ActiveLoans(t) == ActiveLoans(s) && ActiveInvestments(t) == ActiveInvestments(s)
  {
  }

  lemma FreeingLowers(s: Store, vs: set<Id>, reopen: bool)
    requires vs <= VehiclesInUse(s)
    ensures Potential(s.(vehicles := Free(s.vehicles, vs, reopen))) == Potential(s) - |vs|
  {
    FreeingFreesUse(s, vs, reopen);
    CardinalityOfRest(VehiclesInUse(s), vs);
    FreeingKeepsRest(s, vs, reopen);
  }

  lemma ClearingLowers(s: Store)
    ensures Potential(ClearRetired(s)) == Potential(s) - |DrivenRetired(s)|
  {
    var t := ClearRetired(s);
    assert DrivenRetired(t) == {};
    assert VehiclesInUse(t) == VehiclesInUse(s);
    assert ActiveLoans(t) == ActiveLoans(s) && ActiveInvestments(t) == ActiveInvestments(s);
  }

  lemma InvestmentWritesLower(s: Store, t: Store, chosen: set<Id>)
    requires t == s.(investments := t.investments)
    requires t.investments.Keys == s.investments.Keys
    requires chosen <= ActiveInvestments(s)
    requires forall i :: i in s.investments ==>
      (t.investments[i].status.Active? <==> s.investments[i].status.Active? && i !in chosen)
    ensures Potential(t) == Potential(s) - |chosen|
  {
    assert ActiveInvestments(t) == ActiveInvestments(s) - chosen;
    CardinalityOfRest(ActiveInvestments(s), chosen);
    assert VehiclesInUse(t) == VehiclesInUse(s) && DrivenRetired(t) == DrivenRetired(s);
    assert ActiveLoans(t) == ActiveLoans(s);
  }

  lemma SettlingLowers(s: Store)
    ensures Potential(SettleInvestments(s)) == Potential(s) - |OverClosedLoan(s)|
  {
    InvestmentWritesLower(s, SettleInvestments(s), OverClosedLoan(s));
  }

  lemma ReturningLowers(s: Store)
    ensures Potential(ReturnToFunding(s)) == Potential(s) - |OnOpenVehicle(s)|
  {
    InvestmentWritesLower(s, ReturnToFunding(s), OnOpenVehicle(s));
  }

  lemma LoanPhasesLower(s: Store)
    ensures Potential(RepairLoans(s)) == Potential(s) - LoanRepairs(s)
  {
    var a := DemoteUnpaid(s);
    var b := DemoteUnderfunded(a);
    var c := FreeHeld(b, Finished, Financed, true);
    DemotionLowers(s, UnpaidLoans(s));
    DemotionLowers(a, UnderfundedLoans(a));
    FreeingLowers(b, HeldBy(b, Finished, Financed), true);
    FreeingLowers(c, HeldBy(c, Closed, Reserved), false);
  }

  lemma VehiclePhasesLower(s: Store)
    ensures Potential(RepairVehicles(s)) == Potential(s) - VehicleRepairs(s)
  {
    var a := FreeOrphans(s, Financed, Current);
    FreeingLowers(s, Orphans(s, Financed, Current), false);
    FreeingLowers(a, Orphans(a, Reserved, InProgress), false);
    ClearingLowers(FreeOrphans(a, Reserved, InProgress));
  }

  lemma IdleWrites(s: Store)
    ensures Demote(s.loans, {}) == s.loans
    ensures Free(s.vehicles, {}, true) == s.vehicles == Free(s.vehicles, {}, false)
    ensures Undrive(s.vehicles, {}) == s.vehicles
    ensures Settle(s, {}) == s.investments == ToFunding(s.investments, {})
  {
  }

  lemma NoRepairsNoChange(s: Store)
    requires RepairCount(s) == 0
    ensures RepairPass(s) == s
  {
    IdleWrites(s);
    assert DemoteUnpaid(s) == s;
    assert DemoteUnderfunded(s) == s;
    assert FreeHeld(s, Finished, Financed, true) == s;
    assert RepairLoans(s) == s;
    assert FreeOrphans(s, Financed, Current) == s;
    assert RepairVehicles(s) == s;
    assert SettleInvestments(s) == s;
  }

  /** Main result: a repair run writes exactly as often as it lowers the potential. */
  lemma RepairsAreAccounted(s: Store)
    ensures RepairCount(s) == Potential(s) - Potential(Repaired(s))
    ensures RepairCount(s) == 0 <==> Coherent(s)
  {
    LoanPhasesLower(s);
    VehiclePhasesLower(RepairLoans(s));
    SettlingLowers(RepairVehicles(RepairLoans(s)));
    ReturningLowers(SettleInvestments(RepairVehicles(RepairLoans(s))));
    PassIsRepaired(s);
    if RepairCount(s) == 0 {
      NoRepairsNoChange(s);
    }
    FixedIffCoherent(s);
  }
}
