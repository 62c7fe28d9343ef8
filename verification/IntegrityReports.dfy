/**
 What the findings of a run say, in the fields of the documents at its start: which documents each of
 the ten checks names in report mode, and which in repair mode, where earlier repairs come between.
 */
module IntegrityReports {
  import opened Options
  import opened Sequences
  import opened IntegrityStore
  import opened IntegrityRepair
  import opened IntegrityChecker

  // ---------------------------------------------------------------- what a finding says

  ghost predicate SaysUnpaid(s: Store, f: Finding) {
    && f.entityId in s.loans
    && s.loans[f.entityId].status.Active?
    && s.loans[f.entityId].downPaymentMade != Some(true)
    && f == Finding(LoanEntity, f.entityId, ActiveWithoutDownPayment(s.loans[f.entityId].downPaymentMade))
  }

  ghost predicate SaysUnderfunded(s: Store, f: Finding) {
    && f.entityId in s.loans
    && s.loans[f.entityId].status.Active?
    && s.loans[f.entityId].requestedAmount.Some?
    && s.loans[f.entityId].totalFunded < s.loans[f.entityId].requestedAmount.value
    && f == Finding(LoanEntity, f.entityId,
                    ActiveUnderfunded(s.loans[f.entityId].totalFunded, s.loans[f.entityId].requestedAmount))
  }

  /** A loan of one of the statuses points at a vehicle that is still `held`. */
  ghost predicate SaysNotReleased(s: Store, f: Finding, statuses: set<LoanStatus>, held: VehicleStatus) {
    && f.entityId in s.loans
    && s.loans[f.entityId].status in statuses
    && s.loans[f.entityId].vehicleId in s.vehicles
    && s.vehicles[s.loans[f.entityId].vehicleId].status == held
    && f == Finding(LoanEntity, f.entityId,
                    VehicleNotReleased(s.loans[f.entityId].status, s.loans[f.entityId].vehicleId, held))
  }

  ghost predicate SaysUnknown(s: Store, f: Finding) {
    && f.entityId in s.loans
    && s.loans[f.entityId].status !in {LoanStatus.Pending, UnderReview, LoanStatus.Approved, LoanStatus.Rejected,
                                       LoanStatus.Active, LoanStatus.Completed, LoanStatus.Cancelled}
    && f == Finding(LoanEntity, f.entityId, UnknownStatusValue(s.loans[f.entityId].status))
  }

  ghost predicate SaysVehicle(s: Store, f: Finding, held: VehicleStatus) {
    && f.entityId in s.vehicles
    && s.vehicles[f.entityId].status == held
    && f == Finding(VehicleEntity, f.entityId, NoLoanFor(held))
  }

  ghost predicate SaysRetired(s: Store, f: Finding) {
    && f.entityId in s.vehicles
    && s.vehicles[f.entityId].status.Retired? && s.vehicles[f.entityId].driverId.Some?
    && f == Finding(VehicleEntity, f.entityId, DriverOnRetired)
  }

  ghost predicate SaysLoanOver(s: Store, f: Finding) {
    && f.entityId in s.investments
    && s.investments[f.entityId].status.Active?
    && s.investments[f.entityId].loanId.Some?
    && s.investments[f.entityId].loanId.value in s.loans
    && var loan := s.investments[f.entityId].loanId.value;
       && s.loans[loan].status in {LoanStatus.Completed, LoanStatus.Rejected, LoanStatus.Cancelled}
       && f == Finding(InvestmentEntity, f.entityId, ActiveButLoanIs(loan, s.loans[loan].status))
  }

  ghost predicate SaysActive(s: Store, f: Finding) {
    && f.entityId in s.investments
    && s.investments[f.entityId].status.Active?
    && f == Finding(InvestmentEntity, f.entityId, ActiveButVehicleOpen(s.investments[f.entityId].vehicleId))
  }

  predicate IsOpen(s: Store, v: Id) {
    v in s.vehicles && s.vehicles[v].fundingStatus.Open?
  }

  // ---------------------------------------------------------------- report mode

  /** A log that lists the defects of a kind holds exactly their findings, each once. */
  lemma ListsIff(s: Store, check: Check, added: seq<Finding>)
    requires Lists(s, check, added)
    ensures forall f :: f in added <==> f.entityId in Defects(s, check) && f == FindingFor(s, check, f.entityId)
    ensures Distinct(added)
  {
    var ids := set f | f in added :: f.entityId;
    forall id | id in Defects(s, check)
      ensures id in ids
    {
      assert FindingFor(s, check, id) in added;
    }
    assert ids == Defects(s, check);
    FewerIdsIfRepeated(added, ids);
  }

  lemma DistinctNext(added: seq<Finding>, ids: set<Id>)
    requires added != [] && Distinct(added[..|added| - 1])
    requires forall f :: f in added[..|added| - 1] ==> f.entityId in ids
    requires added[|added| - 1].entityId !in ids
    ensures Distinct(added)
  {
    var n := |added| - 1;
    forall j | 0 <= j < n
      ensures added[j] != added[n]
    {
      assert added[..n][j] in added[..n];
    }
    assert forall j, k :: 0 <= j < k < n ==> added[..n][j] != added[..n][k];
  }

  lemma {:induction false} FewerIdsIfRepeated(added: seq<Finding>, ids: set<Id>)
    requires ids == set f | f in added :: f.entityId
    ensures |ids| <= |added|
    ensures |ids| == |added| ==> Distinct(added)
  {
    if added == [] {
      assert ids == {};
    } else {
      var n := |added| - 1;
      var rest := set f | f in added[..n] :: f.entityId;
      FewerIdsIfRepeated(added[..n], rest);
      assert added == added[..n] + [added[n]];
      assert ids == rest + {added[n].entityId};
      if |ids| == |added| {
        DistinctNext(added, rest);
      }
    }
  }

  lemma UnpaidSay(s: Store, added: seq<Finding>)
    requires Lists(s, UnpaidActive, added)
    ensures Distinct(added) && forall f :: f in added <==> SaysUnpaid(s, f)
  {
    ListsIff(s, UnpaidActive, added);
  }

  lemma UnderfundedSay(s: Store, added: seq<Finding>)
    requires Lists(s, UnderfundedActive, added)
    ensures Distinct(added) && forall f :: f in added <==> SaysUnderfunded(s, f)
  {
    ListsIff(s, UnderfundedActive, added);
  }

  lemma HoldersSay(s: Store, c: Class, statuses: set<LoanStatus>, held: VehicleStatus, added: seq<Finding>)
    requires Lists(s, StillHeld(c, held), added)
    requires forall status :: ClassOf(status) == c <==> status in statuses
    ensures Distinct(added) && forall f :: f in added <==> SaysNotReleased(s, f, statuses, held)
  {
    ListsIff(s, StillHeld(c, held), added);
  }

  lemma UnknownSay(s: Store, added: seq<Finding>)
    requires Lists(s, UnknownStatus, added)
    ensures Distinct(added) && forall f :: f in added <==> SaysUnknown(s, f)
  {
    ListsIff(s, UnknownStatus, added);
  }

  /** The loan part of a report: exactly the findings that are true of the store, each once. */
  lemma LoansReportSays(s: Store, log: LoanLog)
    requires LoansReported(s, log)
    ensures forall f :: f in log.unpaid <==> SaysUnpaid(s, f)
    ensures forall f :: f in log.underfunded <==> SaysUnderfunded(s, f)
    ensures forall f :: f in log.financed <==> SaysNotReleased(s, f, {LoanStatus.Completed}, Financed)
    ensures forall f :: f in log.reserved <==>
              SaysNotReleased(s, f, {LoanStatus.Rejected, LoanStatus.Cancelled}, Reserved)
    ensures forall f :: f in log.unknown <==> SaysUnknown(s, f)
    ensures Distinct(log.unpaid) && Distinct(log.underfunded) && Distinct(log.financed)
         && Distinct(log.reserved) && Distinct(log.unknown)
  {
    UnpaidSay(s, log.unpaid);
    UnderfundedSay(s, log.underfunded);
    HoldersSay(s, Finished, {LoanStatus.Completed}, Financed, log.financed);
    HoldersSay(s, Closed, {LoanStatus.Rejected, LoanStatus.Cancelled}, Reserved, log.reserved);
    UnknownSay(s, log.unknown);
  }

  /** The vehicle part: vehicles in use without an Active loan or an application, and drivers of Retired ones. */
  lemma VehiclesReportSays(s: Store, log: VehicleLog)
    requires VehiclesReported(s, log)
    ensures forall f :: f in log.noActive <==>
              SaysVehicle(s, f, Financed) && !HealthyOn(s, f.entityId) && !DefectiveOn(s, f.entityId)
    ensures forall f :: f in log.noApplication <==> SaysVehicle(s, f, Reserved) && !AwaitedOn(s, f.entityId)
    ensures forall f :: f in log.retired <==> SaysRetired(s, f)
    ensures Distinct(log.noActive) && Distinct(log.noApplication) && Distinct(log.retired)
  {
    ListsIff(s, NO_ACTIVE_LOAN, log.noActive);
    ListsIff(s, NO_APPLICATION, log.noApplication);
    ListsIff(s, RetiredWithDriver, log.retired);
    forall f: Finding
      ensures LoanOn(s.loans, f.entityId, Current) == (HealthyOn(s, f.entityId) || DefectiveOn(s, f.entityId))
      ensures LoanOn(s.loans, f.entityId, InProgress) == AwaitedOn(s, f.entityId)
    {
      ClassesOn(s, f.entityId);
    }
  }

  /** The investment part: Active investments of loans that are over, or on vehicles open for funding. */
  lemma InvestmentsReportSays(s: Store, log: InvestmentLog)
    requires InvestmentsReported(s, log)
    ensures forall f :: f in log.loanOver <==> SaysLoanOver(s, f)
    ensures forall f :: f in log.vehicleOpen <==> SaysActive(s, f) && IsOpen(s, s.investments[f.entityId].vehicleId)
    ensures Distinct(log.loanOver) && Distinct(log.vehicleOpen)
  {
    ListsIff(s, LoanOver, log.loanOver);
    ListsIff(s, VehicleOpen, log.vehicleOpen);
  }

  // ---------------------------------------------------------------- repair mode

  /** Unpaid loans are demoted first, so only the paid ones are named as underfunded; no repair touches the unknown. */
  lemma LoansRepairSays(s: Store, log: LoanLog)
    requires LoansRepaired(s, log)
    ensures forall f :: f in log.unpaid <==> SaysUnpaid(s, f)
    ensures forall f :: f in log.underfunded <==>
              SaysUnderfunded(s, f) && s.loans[f.entityId].downPaymentMade == Some(true)
    ensures forall f :: f in log.unknown <==> SaysUnknown(s, f)
    ensures Distinct(log.unpaid) && Distinct(log.underfunded) && Distinct(log.unknown)
  {
    UnpaidSay(s, log.unpaid);
    ListsIff(DemoteUnpaid(s), UnderfundedActive, log.underfunded);
    LoanFindings(s, log);
    UnknownSay(s, log.unknown);
  }

  /** The vehicles that some of the findings quote. */
  ghost predicate Quoted(added: seq<Finding>, v: Id) {
    exists f :: f in added && f.issue.VehicleNotReleased? && f.issue.vehicle == v
  }

  /** `added` names loans of these statuses that hold on to a vehicle, one for each of the vehicles `vs`. */
  ghost predicate NamesOneEach(s: Store, added: seq<Finding>, statuses: set<LoanStatus>, held: VehicleStatus,
                               vs: set<Id>)
  {
    && (forall f :: f in added ==> SaysNotReleased(s, f, statuses, held))
    && |added| == |vs| && (forall v :: v in vs ==> Quoted(added, v))
  }

  lemma VehiclesSay(s: Store, c: Class, statuses: set<LoanStatus>, held: VehicleStatus, added: seq<Finding>)
    requires ListsVehicles(s, StillHeld(c, held), added)
    requires forall status :: ClassOf(status) == c <==> status in statuses
    ensures NamesOneEach(s, added, statuses, held, HeldBy(s, c, held))
  {
  }

  lemma HeldInFields(s: Store)
    ensures HeldBy(s, Finished, Financed)
         == set v | v in s.vehicles && s.vehicles[v].status.Financed? && CompletedOn(s, v)
    ensures HeldBy(s, Closed, Reserved)
         == set v | v in s.vehicles && s.vehicles[v].status.Reserved? && DeclinedOn(s, v)
  {
    forall v
      ensures LoanOn(s.loans, v, Finished) == CompletedOn(s, v)
      ensures LoanOn(s.loans, v, Closed) == DeclinedOn(s, v)
    {
      ClassesOn(s, v);
    }
  }

  lemma FinishedStay(s: Store, f: Finding)
    requires SaysNotReleased(DemoteLoans(s), f, {LoanStatus.Completed}, Financed)
    ensures SaysNotReleased(s, f, {LoanStatus.Completed}, Financed)
  {
    DemotionsAreFinal(s);
  }

  lemma DeclinedStay(s: Store, f: Finding)
    requires SaysNotReleased(FreeHeld(DemoteLoans(s), Finished, Financed, true), f,
                             {LoanStatus.Rejected, LoanStatus.Cancelled}, Reserved)
    ensures SaysNotReleased(s, f, {LoanStatus.Rejected, LoanStatus.Cancelled}, Reserved)
  {
    DemotionsAreFinal(s);
  }

  /** Exactly the vehicles that were bought out are named, each by one Completed loan. */
  lemma BoughtOutSay(s: Store, log: LoanLog)
    requires LoansRepaired(s, log)
    ensures NamesOneEach(s, log.financed, {LoanStatus.Completed}, Financed,
                         set v | v in s.vehicles && s.vehicles[v].status.Financed? && CompletedOn(s, v))
  {
    VehiclesSay(DemoteLoans(s), Finished, {LoanStatus.Completed}, Financed, log.financed);
    forall f | f in log.financed
      ensures SaysNotReleased(s, f, {LoanStatus.Completed}, Financed)
    {
      FinishedStay(s, f);
    }
    SameHeld(s);
    HeldInFields(s);
  }

  /** Exactly the Reserved vehicles with a declined application are named, each by one Rejected or Cancelled loan. */
  lemma DeclinedSay(s: Store, log: LoanLog)
    requires LoansRepaired(s, log)
    ensures NamesOneEach(s, log.reserved, {LoanStatus.Rejected, LoanStatus.Cancelled}, Reserved,
                         set v | v in s.vehicles && s.vehicles[v].status.Reserved? && DeclinedOn(s, v))
  {
    VehiclesSay(FreeHeld(DemoteLoans(s), Finished, Financed, true), Closed,
                {LoanStatus.Rejected, LoanStatus.Cancelled}, Reserved, log.reserved);
    forall f | f in log.reserved
      ensures SaysNotReleased(s, f, {LoanStatus.Rejected, LoanStatus.Cancelled}, Reserved)
    {
      DeclinedStay(s, f);
    }
    SameHeld(s);
    HeldInFields(s);
  }

  /**
   After the loans, a Financed vehicle is named if it was not bought out and had no Active loan in
   order, a Reserved one if no application was declined and none was or became awaited.
   */
  lemma VehiclesRepairSays(s: Store, log: VehicleLog)
    requires VehiclesRepaired(RepairLoans(s), log)
    ensures forall f :: f in log.noActive <==>
              SaysVehicle(s, f, Financed) && !CompletedOn(s, f.entityId) && !HealthyOn(s, f.entityId)
    ensures forall f :: f in log.noApplication <==>
              && SaysVehicle(s, f, Reserved) && !DeclinedOn(s, f.entityId)
              && !AwaitedOn(s, f.entityId) && !DefectiveOn(s, f.entityId)
    ensures forall f :: f in log.retired <==> SaysRetired(s, f)
    ensures Distinct(log.noActive) && Distinct(log.noApplication) && Distinct(log.retired)
  {
    var a := RepairLoans(s);
    var b := FreeOrphans(a, Financed, Current);
    ListsIff(a, NO_ACTIVE_LOAN, log.noActive);
    ListsIff(b, NO_APPLICATION, log.noApplication);
    ListsIff(FreeOrphans(b, Reserved, InProgress), RetiredWithDriver, log.retired);
    FinancedOrphans(s);
    ReservedOrphans(s);
    RetiredStay(s);
  }

  lemma FinancedOrphans(s: Store)
    ensures Orphans(RepairLoans(s), Financed, Current) ==
            (set v | v in s.vehicles && s.vehicles[v].status.Financed? && !CompletedOn(s, v) && !HealthyOn(s, v))
  {
    forall v
      ensures v in RepairLoans(s).vehicles <==> v in s.vehicles
      ensures v in s.vehicles ==>
                (v in Orphans(RepairLoans(s), Financed, Current) <==>
                 s.vehicles[v].status.Financed? && !CompletedOn(s, v) && !HealthyOn(s, v))
    {
      SameVehicles(s, v);
      if v in s.vehicles {
        VehicleDefectsAt(s, v);
      }
    }
  }

  lemma ReservedOrphans(s: Store)
    ensures Orphans(FreeOrphans(RepairLoans(s), Financed, Current), Reserved, InProgress) ==
            (set v | v in s.vehicles && s.vehicles[v].status.Reserved? && !DeclinedOn(s, v)
                     && !AwaitedOn(s, v) && !DefectiveOn(s, v))
  {
    var b := FreeOrphans(RepairLoans(s), Financed, Current);
    forall v
      ensures v in b.vehicles <==> v in s.vehicles
      ensures v in s.vehicles ==>
                (v in Orphans(b, Reserved, InProgress) <==>
                 s.vehicles[v].status.Reserved? && !DeclinedOn(s, v) && !AwaitedOn(s, v) && !DefectiveOn(s, v))
    {
      SameVehicles(s, v);
      if v in s.vehicles {
        VehicleDefectsAt(s, v);
      }
    }
  }

  lemma RetiredStay(s: Store)
    ensures DrivenRetired(FreeOrphans(FreeOrphans(RepairLoans(s), Financed, Current), Reserved, InProgress))
         == DrivenRetired(s)
  {
    var c := FreeOrphans(FreeOrphans(RepairLoans(s), Financed, Current), Reserved, InProgress);
    forall v
      ensures v in c.vehicles <==> v in s.vehicles
      ensures v in s.vehicles ==> (v in DrivenRetired(c) <==> v in DrivenRetired(s))
    {
      SameVehicles(s, v);
      if v in s.vehicles {
        VehicleDefectsAt(s, v);
      }
    }
  }

  lemma SameVehicles(s: Store, v: Id)
    ensures v in RepairLoans(s).vehicles <==> v in s.vehicles
  {
  }

  lemma VehicleDefectsAt(s: Store, v: Id)
    requires v in s.vehicles
    ensures var a := RepairLoans(s);
            var b := FreeOrphans(a, Financed, Current);
            && (v in Orphans(a, Financed, Current) <==>
                s.vehicles[v].status.Financed? && !CompletedOn(s, v) && !HealthyOn(s, v))
            && (v in Orphans(b, Reserved, InProgress) <==>
                s.vehicles[v].status.Reserved? && !DeclinedOn(s, v) && !AwaitedOn(s, v) && !DefectiveOn(s, v))
            && (v in DrivenRetired(FreeOrphans(b, Reserved, InProgress)) <==>
                s.vehicles[v].status.Retired? && s.vehicles[v].driverId.Some?)
  {
    var a := RepairLoans(s);
    var b := FreeOrphans(a, Financed, Current);
    DemotionsAreFinal(s);
    ClassesAfterDemotion(s, v);
    ReleasesAt(DemoteLoans(s), v);
    OrphanIsFreed(a, Financed, Current, v);
    OrphanIsFreed(b, Reserved, InProgress, v);
  }

  /** Its loan is Completed, Rejected or Cancelled. */
  predicate LoanIsOver(s: Store, investment: Investment) {
    || LoanStatusOf(s, investment) == Some(LoanStatus.Completed)
    || LoanStatusOf(s, investment) == Some(LoanStatus.Rejected)
    || LoanStatusOf(s, investment) == Some(LoanStatus.Cancelled)
  }

  lemma InvestmentDefectsAt(s: Store, i: Id)
    requires i in s.investments
    ensures var a := BeforeInvestments(s);
            && (i in OverClosedLoan(a) <==> i in OverClosedLoan(s))
            && (i in OnOpenVehicle(SettleInvestments(a)) <==>
                && s.investments[i].status.Active? && !LoanIsOver(s, s.investments[i])
                && OpensFunding(s, s.investments[i].vehicleId))
  {
    SettledOverSameLoans(s, i);
    OpenAfterRepair(s, s.investments[i].vehicleId);
    if s.investments[i].status.Active? {
      ActiveOverLoan(s, i);
    }
  }

  lemma OverSay(s: Store, added: seq<Finding>)
    requires Lists(BeforeInvestments(s), LoanOver, added)
    ensures Distinct(added) && forall f :: f in added <==> SaysLoanOver(s, f)
  {
    var a := BeforeInvestments(s);
    ListsIff(a, LoanOver, added);
    forall i | i in s.investments
      ensures i in OverClosedLoan(a) <==> i in OverClosedLoan(s)
    {
      InvestmentDefectsAt(s, i);
    }
  }

  lemma OpenSay(s: Store, added: seq<Finding>)
    requires Lists(SettleInvestments(BeforeInvestments(s)), VehicleOpen, added)
    ensures Distinct(added)
    ensures forall f :: f in added <==>
              && SaysActive(s, f) && !LoanIsOver(s, s.investments[f.entityId])
              && OpensFunding(s, s.investments[f.entityId].vehicleId)
  {
    var b := SettleInvestments(BeforeInvestments(s));
    ListsIff(b, VehicleOpen, added);
    forall i | i in s.investments
      ensures i in OnOpenVehicle(b) <==>
              && s.investments[i].status.Active? && !LoanIsOver(s, s.investments[i])
              && OpensFunding(s, s.investments[i].vehicleId)
    {
      InvestmentDefectsAt(s, i);
    }
  }

  /** An investment is named once: for its loan, or else for a vehicle that was open or has been bought out. */
  lemma InvestmentsRepairSays(s: Store, log: InvestmentLog)
    requires InvestmentsRepaired(RepairVehicles(RepairLoans(s)), log)
    ensures forall f :: f in log.loanOver <==> SaysLoanOver(s, f)
    ensures forall f :: f in log.vehicleOpen <==>
              && SaysActive(s, f) && !LoanIsOver(s, s.investments[f.entityId])
              && OpensFunding(s, s.investments[f.entityId].vehicleId)
    ensures Distinct(log.loanOver) && Distinct(log.vehicleOpen)
  {
    VehiclesAreFinal(s);
    OverSay(s, log.loanOver);
    OpenSay(s, log.vehicleOpen);
  }
}
