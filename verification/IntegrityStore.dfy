/**
 The three linked collections that scripts/check-state-machine-integrity.ts scans, the ten
 defects it looks for, and what each of its repairs does to the collections.
 */
module IntegrityStore {
  import opened Options

  /** An ObjectId. */
  type Id = nat

  datatype LoanStatus =
    | Pending | UnderReview | Approved | Rejected | Active | Completed | Cancelled
    | Unknown(text: string)

  datatype VehicleStatus = Available | Financed | Reserved | Maintenance | Retired | Other(text: string)

  datatype FundingStatus = Open | Funded | Active

  datatype InvestmentStatus = Funding | Active | Completed | Other(text: string)

  /** `requestedAmount` is None where the number is missing, so that it compares like NaN. */
  datatype Loan = Loan(vehicleId: Id, status: LoanStatus, requestedAmount: Option<real>,
                       totalFunded: real, downPaymentMade: Option<bool>)

  datatype Vehicle = Vehicle(status: VehicleStatus, fundingStatus: FundingStatus, driverId: Option<Id>)

  datatype Investment = Investment(loanId: Option<Id>, vehicleId: Id, status: InvestmentStatus, amount: real)

  datatype Store = Store(loans: map<Id, Loan>, vehicles: map<Id, Vehicle>, investments: map<Id, Investment>)

  /** The groups of loan statuses that the queries of the script ask for. */
  datatype Class = InProgress | Current | Finished | Closed | Unrecognised

  function ClassOf(status: LoanStatus): Class {
    match status
    case Pending | UnderReview | Approved => InProgress
    case Active => Current
    case Completed => Finished
    case Rejected | Cancelled => Closed
    case Unknown(_) => Unrecognised
  }

  /** Some loan of class `c` points at vehicle `v`. */
  predicate LoanOn(loans: map<Id, Loan>, v: Id, c: Class) {
    exists l :: l in loans && loans[l].vehicleId == v && ClassOf(loans[l].status) == c
  }

  // ---------------------------------------------------------------- defects

  predicate Unpaid(l: Loan) {
    l.status.Active? && l.downPaymentMade != Some(true)
  }

  predicate Underfunded(l: Loan) {
    l.status.Active? && l.requestedAmount.Some? && l.totalFunded < l.requestedAmount.value
  }

  function UnpaidLoans(s: Store): set<Id> {
    set l | l in s.loans && Unpaid(s.loans[l])
  }

  function UnderfundedLoans(s: Store): set<Id> {
    set l | l in s.loans && Underfunded(s.loans[l])
  }

  /** Loan `l` is of class `c` and its vehicle has status `held`. */
  predicate Holds(s: Store, l: Id, c: Class, held: VehicleStatus) {
    && l in s.loans
    && ClassOf(s.loans[l].status) == c
    && s.loans[l].vehicleId in s.vehicles
    && s.vehicles[s.loans[l].vehicleId].status == held
  }

  /** The loans of class `c` whose vehicle has status `held`. */
  function Holders(s: Store, c: Class, held: VehicleStatus): set<Id> {
    set l | l in s.loans && Holds(s, l, c, held)
  }

  /** The vehicles of status `held` at which a loan of class `c` points. */
  function HeldBy(s: Store, c: Class, held: VehicleStatus): set<Id> {
    set v | v in s.vehicles && s.vehicles[v].status == held && LoanOn(s.loans, v, c)
  }

  /** The vehicles of status `held` at which no loan of class `needed` points. */
  function Orphans(s: Store, held: VehicleStatus, needed: Class): set<Id> {
    set v | v in s.vehicles && s.vehicles[v].status == held && !LoanOn(s.loans, v, needed)
  }

  function UnknownLoans(s: Store): set<Id> {
    set l | l in s.loans && s.loans[l].status.Unknown?
  }

  function DrivenRetired(s: Store): set<Id> {
    set v | v in s.vehicles && s.vehicles[v].status.Retired? && s.vehicles[v].driverId.Some?
  }

  /** Investment `i` is Active although its loan exists and has class `c`. */
  predicate ActiveOver(s: Store, i: Id, c: Class) {
    && i in s.investments
    && s.investments[i].status.Active?
    && s.investments[i].loanId.Some?
    && s.investments[i].loanId.value in s.loans
    && ClassOf(s.loans[s.investments[i].loanId.value].status) == c
  }

  function OverClosedLoan(s: Store): set<Id> {
    set i | i in s.investments && (ActiveOver(s, i, Finished) || ActiveOver(s, i, Closed))
  }

  predicate OpenForFunding(vehicles: map<Id, Vehicle>, v: Id) {
    v in vehicles && vehicles[v].fundingStatus.Open?
  }

  function OnOpenVehicle(s: Store): set<Id> {
    set i |
      i in s.investments && s.investments[i].status.Active? && OpenForFunding(s.vehicles, s.investments[i].vehicleId)
  }

  // ---------------------------------------------------------------- writes

  function Demote(loans: map<Id, Loan>, ls: set<Id>): map<Id, Loan> {
    map l | l in loans :: if l in ls then loans[l].(status := Approved) else loans[l]
  }

  function Freed(v: Vehicle, reopen: bool): Vehicle {
    Vehicle(Available, if reopen then Open else v.fundingStatus, None)
  }

  function Free(vehicles: map<Id, Vehicle>, vs: set<Id>, reopen: bool): map<Id, Vehicle> {
    map v | v in vehicles :: if v in vs then Freed(vehicles[v], reopen) else vehicles[v]
  }

  function Undrive(vehicles: map<Id, Vehicle>, vs: set<Id>): map<Id, Vehicle> {
    map v | v in vehicles :: if v in vs then vehicles[v].(driverId := None) else vehicles[v]
  }

  /** The status an Active investment gets when its loan is over. */
  function Settlement(s: Store, i: Id): InvestmentStatus {
    if ActiveOver(s, i, Finished) then InvestmentStatus.Completed else Funding
  }

  function Settle(s: Store, chosen: set<Id>): map<Id, Investment> {
    map i | i in s.investments ::
      if i in chosen then s.investments[i].(status := Settlement(s, i)) else s.investments[i]
  }

  function ToFunding(investments: map<Id, Investment>, chosen: set<Id>): map<Id, Investment> {
    map i | i in investments :: if i in chosen then investments[i].(status := Funding) else investments[i]
  }

  // ---------------------------------------------------------------- phases of a repair run

  function DemoteUnpaid(s: Store): Store {
    s.(loans := Demote(s.loans, UnpaidLoans(s)))
  }

  function DemoteUnderfunded(s: Store): Store {
    s.(loans := Demote(s.loans, UnderfundedLoans(s)))
  }

  function FreeHeld(s: Store, c: Class, held: VehicleStatus, reopen: bool): Store {
    s.(vehicles := Free(s.vehicles, HeldBy(s, c, held), reopen))
  }

  function FreeOrphans(s: Store, held: VehicleStatus, needed: Class): Store {
    s.(vehicles := Free(s.vehicles, Orphans(s, held, needed), false))
  }

  function ClearRetired(s: Store): Store {
    s.(vehicles := Undrive(s.vehicles, DrivenRetired(s)))
  }

  function SettleInvestments(s: Store): Store {
    s.(investments := Settle(s, OverClosedLoan(s)))
  }

  function ReturnToFunding(s: Store): Store {
    s.(investments := ToFunding(s.investments, OnOpenVehicle(s)))
  }

  /** The first four phases, two and two; the fifth only reports. */
  function DemoteLoans(s: Store): Store {
    DemoteUnderfunded(DemoteUnpaid(s))
  }

  function FreeVehicles(s: Store): Store {
    FreeHeld(FreeHeld(s, Finished, Financed, true), Closed, Reserved, false)
  }

  function RepairLoans(s: Store): Store {
    FreeVehicles(DemoteLoans(s))
  }

  function RepairVehicles(s: Store): Store {
    ClearRetired(FreeOrphans(FreeOrphans(s, Financed, Current), Reserved, InProgress))
  }

  function RepairInvestments(s: Store): Store {
    ReturnToFunding(SettleInvestments(s))
  }

  /** One run with --repair: the phases, each reading what the ones before it wrote. */
  function RepairPass(s: Store): Store {
    RepairInvestments(RepairVehicles(RepairLoans(s)))
  }
}
