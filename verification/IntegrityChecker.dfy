/**
 The script itself: ten loops that query the collections, report what they find and, in repair
 mode, write to the very collections that later loops query. Each loop is proved against the
 phase it implements in IntegrityStore, for every order in which a query may return documents.
 */
module IntegrityChecker {
  import opened Options
  import opened IntegrityStore
  import opened IntegrityRepair
  import opened IntegrityOrder
  import opened Sequences

  // ---------------------------------------------------------------- findings

  /** One of the ten checks. The checks that differ only in the statuses they name are one constructor. */
  datatype Check =
    | UnpaidActive
    | UnderfundedActive
    | StillHeld(loanClass: Class, held: VehicleStatus)
    | UnknownStatus
    | Orphaned(held: VehicleStatus, needed: Class)
    | RetiredWithDriver
    | LoanOver
    | VehicleOpen

  /** What a check says about one document, with the values its message quotes. */
  datatype Issue =
    | ActiveWithoutDownPayment(downPaymentMade: Option<bool>)
    | ActiveUnderfunded(totalFunded: real, requestedAmount: Option<real>)
    | VehicleNotReleased(status: LoanStatus, vehicle: Id, held: VehicleStatus)
    | UnknownStatusValue(status: LoanStatus)
    | NoLoanFor(held: VehicleStatus)
    | DriverOnRetired
    | ActiveButLoanIs(loan: Id, status: LoanStatus)
    | ActiveButVehicleOpen(vehicle: Id)

  datatype EntityType = LoanEntity | VehicleEntity | InvestmentEntity

  datatype Finding = Finding(entityType: EntityType, entityId: Id, issue: Issue)

  /** The documents at fault, as far as a run in report mode sees them. */
  function Defects(s: Store, check: Check): set<Id> {
    match check
    case UnpaidActive => UnpaidLoans(s)
    case UnderfundedActive => UnderfundedLoans(s)
    case StillHeld(c, held) => Holders(s, c, held)
    case UnknownStatus => UnknownLoans(s)
    case Orphaned(held, needed) => Orphans(s, held, needed)
    case RetiredWithDriver => DrivenRetired(s)
    case LoanOver => OverClosedLoan(s)
    case VehicleOpen => OnOpenVehicle(s)
  }

  function FindingFor(s: Store, check: Check, id: Id): (f: Finding)
    requires id in Defects(s, check)
    ensures f.entityId == id
  {
    match check
    case UnpaidActive => Finding(LoanEntity, id, ActiveWithoutDownPayment(s.loans[id].downPaymentMade))
    case UnderfundedActive =>
      Finding(LoanEntity, id, ActiveUnderfunded(s.loans[id].totalFunded, s.loans[id].requestedAmount))
    case StillHeld(c, held) =>
      Finding(LoanEntity, id, VehicleNotReleased(s.loans[id].status, s.loans[id].vehicleId, held))
    case UnknownStatus => Finding(LoanEntity, id, UnknownStatusValue(s.loans[id].status))
    case Orphaned(held, _) => Finding(VehicleEntity, id, NoLoanFor(held))
    case RetiredWithDriver => Finding(VehicleEntity, id, DriverOnRetired)
    case LoanOver =>
      var loan := s.investments[id].loanId.value;
      Finding(InvestmentEntity, id, ActiveButLoanIs(loan, s.loans[loan].status))
    case VehicleOpen => Finding(InvestmentEntity, id, ActiveButVehicleOpen(s.investments[id].vehicleId))
  }

  /** `added` holds the finding of check `check` for the documents `picked`, in that order. */
  ghost predicate Matches(s: Store, check: Check, picked: seq<Id>, added: seq<Finding>) {
    && |added| == |picked|
    && (forall j :: 0 <= j < |picked| ==> picked[j] in Defects(s, check) && added[j] == FindingFor(s, check, picked[j]))
  }

  /** `added` reports every defect of the kind once and nothing else, in some order. */
  ghost predicate Lists(s: Store, check: Check, added: seq<Finding>) {
    && |added| == |Defects(s, check)|
    && (forall f :: f in added ==> f.entityId in Defects(s, check) && f == FindingFor(s, check, f.entityId))
    && (forall id :: id in Defects(s, check) ==> FindingFor(s, check, id) in added)
  }

  /** `added` reports, for every vehicle that `check` is about, one of the loans to blame. */
  ghost predicate ListsVehicles(s: Store, check: Check, added: seq<Finding>)
    requires check.StillHeld?
  {
    && |added| == |HeldBy(s, check.loanClass, check.held)|
    && (forall f :: f in added ==> f.entityId in Defects(s, check) && f == FindingFor(s, check, f.entityId))
    && Blamed(HeldBy(s, check.loanClass, check.held), added)
  }

  /** Every vehicle of `vs` is quoted by one of the findings. */
  ghost predicate Blamed(vs: set<Id>, added: seq<Finding>) {
    forall v :: v in vs ==> exists f :: f in added && f.issue.VehicleNotReleased? && f.issue.vehicle == v
  }

  lemma Associate(a: seq<Finding>, b: seq<Finding>, c: seq<Finding>)
    ensures a + b + c == a + (b + c)
  {
  }

  lemma {:induction false} DistinctCount(ids: seq<Id>)
    requires Distinct(ids)
    ensures |Elements(ids)| == |ids|
  {
    if ids == [] {
      assert Elements(ids) == {};
    } else {
      var last := |ids| - 1;
      DistinctCount(ids[..last]);
      assert Elements(ids) == Elements(ids[..last]) + {ids[last]};
    }
  }

  lemma MatchesAll(s: Store, check: Check, picked: seq<Id>, added: seq<Finding>)
    requires Matches(s, check, picked, added) && Distinct(picked)
    requires Elements(picked) == Defects(s, check)
    ensures Lists(s, check, added)
  {
    DistinctCount(picked);
    forall id | id in Defects(s, check)
      ensures FindingFor(s, check, id) in added
    {
      assert id in picked;
      var j :| 0 <= j < |picked| && picked[j] == id;
      assert added[j] == FindingFor(s, check, id);
    }
  }

  /** `picked` are the defective documents among `seen`, and `added` reports them. */
  ghost predicate Progress(s: Store, check: Check, seen: seq<Id>, picked: seq<Id>, added: seq<Finding>) {
    && Matches(s, check, picked, added) && Distinct(picked)
    && (forall id :: id in picked <==> id in seen && id in Defects(s, check))
  }

  /** One more document: it is reported exactly when it is defective. */
  lemma Advance(s: Store, check: Check, seen: seq<Id>, picked: seq<Id>, added: seq<Finding>, id: Id)
    requires Progress(s, check, seen, picked, added) && id !in seen
    ensures id !in Defects(s, check) ==> Progress(s, check, seen + [id], picked, added)
    ensures id in Defects(s, check) ==>
              && Progress(s, check, seen + [id], picked + [id], added + [FindingFor(s, check, id)])
              && Elements(picked + [id]) == Elements(picked) + {id}
  {
  }

  lemma ProgressDone(s: Store, check: Check, seen: seq<Id>, picked: seq<Id>, added: seq<Finding>)
    requires Progress(s, check, seen, picked, added)
    requires forall id :: id in Defects(s, check) ==> id in seen
    ensures Lists(s, check, added)
    ensures Elements(picked) == Defects(s, check)
  {
    MatchesAll(s, check, picked, added);
  }

  /** In repair mode: the vehicles of the loans `seen` are freed, and one loan is reported for each. */
  ghost predicate HeldProgress(s: Store, check: Check, seen: seq<Id>, freed: set<Id>, added: seq<Finding>)
    requires check.StillHeld?
  {
    && |added| == |freed|
    && freed <= HeldBy(s, check.loanClass, check.held)
    && (forall f :: f in added ==> f.entityId in Defects(s, check) && f == FindingFor(s, check, f.entityId))
    && Blamed(freed, added)
    && (forall id :: id in seen && id in Defects(s, check) ==> s.loans[id].vehicleId in freed)
  }

  lemma BlamedNext(freed: set<Id>, added: seq<Finding>, f: Finding)
    requires Blamed(freed, added) && f.issue.VehicleNotReleased?
    ensures Blamed(freed + {f.issue.vehicle}, added + [f])
  {
    var more := added + [f];
    assert more[|added|] == f;
    forall v | v in freed
      ensures exists g :: g in more && g.issue.VehicleNotReleased? && g.issue.vehicle == v
    {
      var g :| g in added && g.issue.VehicleNotReleased? && g.issue.vehicle == v;
      assert g in more;
    }
  }

  lemma AdvanceBlamed(s: Store, check: Check, seen: seq<Id>, freed: set<Id>, added: seq<Finding>, id: Id)
    requires check.StillHeld? && HeldProgress(s, check, seen, freed, added)
    requires id in Defects(s, check) && s.loans[id].vehicleId !in freed
    ensures HeldProgress(s, check, seen + [id], freed + {s.loans[id].vehicleId}, added + [FindingFor(s, check, id)])
  {
    BlamedNext(freed, added, FindingFor(s, check, id));
  }

  lemma AdvanceHeld(s: Store, check: Check, seen: seq<Id>, freed: set<Id>, added: seq<Finding>, id: Id)
    requires check.StillHeld? && HeldProgress(s, check, seen, freed, added)
    requires id in s.loans
    ensures var v := s.loans[id].vehicleId;
            if id in Defects(s, check) && v !in freed
            then HeldProgress(s, check, seen + [id], freed + {v}, added + [FindingFor(s, check, id)])
            else HeldProgress(s, check, seen + [id], freed, added)
  {
    if id in Defects(s, check) && s.loans[id].vehicleId !in freed {
      AdvanceBlamed(s, check, seen, freed, added, id);
    }
  }

  lemma HeldDone(s: Store, check: Check, seen: seq<Id>, freed: set<Id>, added: seq<Finding>)
    requires check.StillHeld? && HeldProgress(s, check, seen, freed, added)
    requires forall id :: id in Defects(s, check) ==> id in seen
    ensures freed == HeldBy(s, check.loanClass, check.held)
    ensures ListsVehicles(s, check, added)
  {
    forall v | v in HeldBy(s, check.loanClass, check.held)
      ensures v in freed
    {
      var l :| l in s.loans && s.loans[l].vehicleId == v && ClassOf(s.loans[l].status) == check.loanClass;
      assert l in Defects(s, check);
    }
  }

  /** How far a loop over the holders of vehicles has come. */
  datatype Visited = Visited(seen: seq<Id>, picked: seq<Id>, freed: set<Id>, added: seq<Finding>)

  ghost predicate ReleaseProgress(s: Store, check: Check, repair: bool, g: Visited)
    requires check.StillHeld?
  {
    if repair then HeldProgress(s, check, g.seen, g.freed, g.added) else Progress(s, check, g.seen, g.picked, g.added)
  }

  function Blame(s: Store, check: Check, g: Visited, id: Id): Visited
    requires check.StillHeld? && id in Defects(s, check)
  {
    Visited(g.seen + [id], g.picked + [id], g.freed + {s.loans[id].vehicleId}, g.added + [FindingFor(s, check, id)])
  }

  lemma AdvanceRelease(s: Store, check: Check, repair: bool, g: Visited, id: Id)
    requires check.StillHeld? && ReleaseProgress(s, check, repair, g)
    requires id in s.loans && id !in g.seen
    ensures if id in Defects(s, check) && (repair ==> s.loans[id].vehicleId !in g.freed)
            then ReleaseProgress(s, check, repair, Blame(s, check, g, id))
            else ReleaseProgress(s, check, repair, g.(seen := g.seen + [id]))
  {
    if repair {
      AdvanceHeld(s, check, g.seen, g.freed, g.added, id);
    } else {
      Advance(s, check, g.seen, g.picked, g.added, id);
    }
  }

  lemma ReleaseDone(s: Store, check: Check, repair: bool, g: Visited)
    requires check.StillHeld? && ReleaseProgress(s, check, repair, g)
    requires forall id :: id in Defects(s, check) ==> id in g.seen
    ensures if repair then ListsVehicles(s, check, g.added) else Lists(s, check, g.added)
    ensures repair ==> g.freed == HeldBy(s, check.loanClass, check.held)
  {
    if repair {
      HeldDone(s, check, g.seen, g.freed, g.added);
    } else {
      ProgressDone(s, check, g.seen, g.picked, g.added);
    }
  }

  /** In a partly repaired collection a vehicle still matches exactly when its loan is the first to name it. */
  lemma StillMatches(s: Store, check: Check, freed: set<Id>, reopen: bool, id: Id)
    requires check.StillHeld? && !check.held.Available?
    requires id in s.loans && ClassOf(s.loans[id].status) == check.loanClass
    ensures var v, now := s.loans[id].vehicleId, Free(s.vehicles, freed, reopen);
            v in now && now[v].status == check.held <==> id in Defects(s, check) && v !in freed
    ensures var v := s.loans[id].vehicleId;
            v in s.vehicles && s.vehicles[v].status == check.held <==> id in Defects(s, check)
  {
  }

  lemma OrphanMatches(s: Store, held: VehicleStatus, needed: Class, id: Id)
    requires id in s.vehicles && s.vehicles[id].status == held
    ensures id in Defects(s, Orphaned(held, needed)) <==> !LoanOn(s.loans, id, needed)
    ensures id in Defects(s, Orphaned(held, needed)) ==>
              FindingFor(s, Orphaned(held, needed), id) == Finding(VehicleEntity, id, NoLoanFor(held))
  {
  }

  lemma LoanOverMatches(s: Store, id: Id)
    requires id in s.investments && s.investments[id].status.Active?
    ensures var loan := s.investments[id].loanId;
            id in Defects(s, LoanOver) <==>
            && loan.Some? && loan.value in s.loans
            && (ClassOf(s.loans[loan.value].status) == Finished || ClassOf(s.loans[loan.value].status) == Closed)
    ensures id in Defects(s, LoanOver) ==>
              var loan := s.investments[id].loanId.value;
              && FindingFor(s, LoanOver, id) ==
                 Finding(InvestmentEntity, id, ActiveButLoanIs(loan, s.loans[loan].status))
              && Settlement(s, id) == if s.loans[loan].status.Completed? then InvestmentStatus.Completed else Funding
  {
  }

  lemma DemoteOneMore(loans: map<Id, Loan>, ls: set<Id>, l: Id)
    requires l in loans && l !in ls
    ensures var now := Demote(loans, ls);
            l in now && now[l] == loans[l] && now[l := now[l].(status := Approved)] == Demote(loans, ls + {l})
  {
  }

  lemma UndriveOneMore(vehicles: map<Id, Vehicle>, vs: set<Id>, v: Id)
    requires v in vehicles && v !in vs
    ensures var now := Undrive(vehicles, vs);
            v in now && now[v] == vehicles[v] && now[v := now[v].(driverId := None)] == Undrive(vehicles, vs + {v})
  {
  }

  lemma ToFundingOneMore(investments: map<Id, Investment>, chosen: set<Id>, i: Id)
    requires i in investments && i !in chosen
    ensures var now := ToFunding(investments, chosen);
            && i in now && now[i] == investments[i]
            && now[i := now[i].(status := Funding)] == ToFunding(investments, chosen + {i})
  {
  }

  lemma FreeOneMore(vehicles: map<Id, Vehicle>, vs: set<Id>, v: Id, reopen: bool)
    requires v in vehicles && v !in vs
    ensures var now := Free(vehicles, vs, reopen);
            v in now && now[v] == vehicles[v] && now[v := Freed(now[v], reopen)] == Free(vehicles, vs + {v}, reopen)
  {
  }

  lemma SettleOneMore(s: Store, chosen: set<Id>, i: Id)
    requires i in s.investments && i !in chosen
    ensures var now := Settle(s, chosen);
            && i in now && now[i] == s.investments[i]
            && now[i := now[i].(status := Settlement(s, i))] == Settle(s, chosen + {i})
  {
  }

  // ---------------------------------------------------------------- the log of a run

  /** What each of the ten checks reported, in the order they run. */
  datatype LoanLog = LoanLog(unpaid: seq<Finding>, underfunded: seq<Finding>, financed: seq<Finding>,
                             reserved: seq<Finding>, unknown: seq<Finding>)
  {
    function All(): seq<Finding> {
      unpaid + underfunded + financed + reserved + unknown
    }
  }

  lemma FiveParts(before: seq<Finding>, log: LoanLog)
    ensures before + (log.unpaid + log.underfunded) + (log.financed + log.reserved) + log.unknown
         == before + log.All()
  {
  }

  datatype VehicleLog = VehicleLog(noActive: seq<Finding>, noApplication: seq<Finding>, retired: seq<Finding>) {
    function All(): seq<Finding> {
      noActive + noApplication + retired
    }
  }

  datatype InvestmentLog = InvestmentLog(loanOver: seq<Finding>, vehicleOpen: seq<Finding>) {
    function All(): seq<Finding> {
      loanOver + vehicleOpen
    }
  }

  datatype Log = Log(loans: LoanLog, vehicles: VehicleLog, investments: InvestmentLog) {
    function All(): seq<Finding> {
      loans.All() + vehicles.All() + investments.All()
    }
  }

  const STILL_FINANCED := StillHeld(Finished, Financed)
  const STILL_RESERVED := StillHeld(Closed, Reserved)
  const NO_ACTIVE_LOAN := Orphaned(Financed, Current)
  const NO_APPLICATION := Orphaned(Reserved, InProgress)

  ghost predicate LoansReported(s: Store, log: LoanLog) {
    && Lists(s, UnpaidActive, log.unpaid)
    && Lists(s, UnderfundedActive, log.underfunded)
    && Lists(s, STILL_FINANCED, log.financed)
    && Lists(s, STILL_RESERVED, log.reserved)
    && Lists(s, UnknownStatus, log.unknown)
  }

  ghost predicate VehiclesReported(s: Store, log: VehicleLog) {
    && Lists(s, NO_ACTIVE_LOAN, log.noActive)
    && Lists(s, NO_APPLICATION, log.noApplication)
    && Lists(s, RetiredWithDriver, log.retired)
  }

  ghost predicate InvestmentsReported(s: Store, log: InvestmentLog) {
    && Lists(s, LoanOver, log.loanOver)
    && Lists(s, VehicleOpen, log.vehicleOpen)
  }

  /** Report mode: every check sees the starting store. */
  ghost predicate Reported(s: Store, log: Log) {
    LoansReported(s, log.loans) && VehiclesReported(s, log.vehicles) && InvestmentsReported(s, log.investments)
  }

  ghost predicate LoansRepaired(s: Store, log: LoanLog) {
    var a := DemoteUnpaid(s);
    var b := DemoteUnderfunded(a);
    var c := FreeHeld(b, Finished, Financed, true);
    && Lists(s, UnpaidActive, log.unpaid)
    && Lists(a, UnderfundedActive, log.underfunded)
    && ListsVehicles(b, STILL_FINANCED, log.financed)
    && ListsVehicles(c, STILL_RESERVED, log.reserved)
    && Lists(RepairLoans(s), UnknownStatus, log.unknown)
  }

  ghost predicate VehiclesRepaired(s: Store, log: VehicleLog) {
    var a := FreeOrphans(s, Financed, Current);
    && Lists(s, NO_ACTIVE_LOAN, log.noActive)
    && Lists(a, NO_APPLICATION, log.noApplication)
    && Lists(FreeOrphans(a, Reserved, InProgress), RetiredWithDriver, log.retired)
  }

  ghost predicate InvestmentsRepaired(s: Store, log: InvestmentLog) {
    && Lists(s, LoanOver, log.loanOver)
    && Lists(SettleInvestments(s), VehicleOpen, log.vehicleOpen)
  }

  /** Repair mode: every check sees what the checks before it have written. */
  ghost predicate RepairedWith(s: Store, log: Log) {
    && LoansRepaired(s, log.loans)
    && VehiclesRepaired(RepairLoans(s), log.vehicles)
    && InvestmentsRepaired(RepairVehicles(RepairLoans(s)), log.investments)
  }

  // ---------------------------------------------------------------- the checker

  /** A query by condition: the matching ids, once each, in an arbitrary order. */
  method Find<T>(collection: map<Id, T>, condition: T -> bool) returns (ids: seq<Id>)
    ensures Distinct(ids)
    ensures forall id :: id in ids <==> id in collection && condition(collection[id])
  {
    var rest := set id | id in collection && condition(collection[id]);
    ids := [];
    while rest != {}
      invariant Distinct(ids)
      invariant forall id :: id in ids ==> id !in rest
      invariant forall id :: (id in ids || id in rest) <==> id in collection && condition(collection[id])
      decreases |rest|
    {
      var id :| id in rest;
      rest := rest - {id};
      ids := ids + [id];
    }
  }

  class Checker {
    const repair: bool
    var loans: map<Id, Loan>
    var vehicles: map<Id, Vehicle>
    var investments: map<Id, Investment>
    var findings: seq<Finding>

    constructor (repair: bool, store: Store)
      ensures this.repair == repair && Contents() == store && findings == []
    {
      this.repair := repair;
      loans, vehicles, investments := store.loans, store.vehicles, store.investments;
      findings := [];
    }

    function Contents(): Store
      reads this
    {
      Store(loans, vehicles, investments)
    }

    method Record(finding: Finding)
      modifies this`findings
      ensures findings == old(findings) + [finding]
    {
      findings := findings + [finding];
    }

    method Release(finding: Finding, v: Id, reopen: bool)
      requires v in vehicles
      modifies this`vehicles, this`findings
      ensures findings == old(findings) + [finding]
      ensures vehicles == if repair then old(vehicles)[v := Freed(old(vehicles)[v], reopen)] else old(vehicles)
    {
      Record(finding);
      if repair {
        vehicles := vehicles[v := Freed(vehicles[v], reopen)];
      }
    }

    method CheckUnpaid() returns (ghost added: seq<Finding>)
      modifies this`loans, this`findings
      ensures Contents() == if repair then DemoteUnpaid(old(Contents())) else old(Contents())
      ensures findings == old(findings) + added
      ensures Lists(old(Contents()), UnpaidActive, added)
    {
      ghost var s := Contents();
      var docs := loans;
      var ids := Find(loans, l => Unpaid(l));
      added := [];
      ghost var picked := [];
      for i := 0 to |ids|
        invariant loans == if repair then Demote(s.loans, Elements(picked)) else s.loans
        invariant findings == old(findings) + added
        invariant Progress(s, UnpaidActive, ids[..i], picked, added)
      {
        var id := ids[i];
        assert id in ids && ids[..i + 1] == ids[..i] + [id];
        Advance(s, UnpaidActive, ids[..i], picked, added, id);
        assert id in Defects(s, UnpaidActive);
        var finding := Finding(LoanEntity, id, ActiveWithoutDownPayment(docs[id].downPaymentMade));
        Record(finding);
        if repair {
          DemoteOneMore(s.loans, Elements(picked), id);
          loans := loans[id := loans[id].(status := Approved)];
        }
        added, picked := added + [finding], picked + [id];
      }
      ProgressDone(s, UnpaidActive, ids[..|ids|], picked, added);
      assert Elements(picked) == UnpaidLoans(s);
    }

    method CheckUnderfunded() returns (ghost added: seq<Finding>)
      modifies this`loans, this`findings
      ensures Contents() == if repair then DemoteUnderfunded(old(Contents())) else old(Contents())
      ensures findings == old(findings) + added
      ensures Lists(old(Contents()), UnderfundedActive, added)
    {
      ghost var s := Contents();
      var docs := loans;
      var ids := Find(loans, (l: Loan) => l.status.Active?);
      added := [];
      ghost var picked := [];
      for i := 0 to |ids|
        invariant loans == if repair then Demote(s.loans, Elements(picked)) else s.loans
        invariant findings == old(findings) + added
        invariant Progress(s, UnderfundedActive, ids[..i], picked, added)
      {
        var id := ids[i];
        assert id in ids && ids[..i + 1] == ids[..i] + [id];
        Advance(s, UnderfundedActive, ids[..i], picked, added, id);
        assert id in Defects(s, UnderfundedActive) <==> Underfunded(docs[id]);
        if Underfunded(docs[id]) {
          var finding := Finding(LoanEntity, id, ActiveUnderfunded(docs[id].totalFunded, docs[id].requestedAmount));
          Record(finding);
          if repair {
            DemoteOneMore(s.loans, Elements(picked), id);
            loans := loans[id := loans[id].(status := Approved)];
          }
          added, picked := added + [finding], picked + [id];
        }
      }
      ProgressDone(s, UnderfundedActive, ids[..|ids|], picked, added);
      assert Elements(picked) == UnderfundedLoans(s);
    }

    /** Midway through CheckHeld, after the loans `g.seen`. */
    ghost predicate Releasing(g: Visited, s: Store, check: Check, reopen: bool, logged: seq<Finding>)
      requires check.StillHeld?
      reads this
    {
      && ReleaseProgress(s, check, repair, g)
      && Contents() == s.(vehicles := if repair then Free(s.vehicles, g.freed, reopen) else s.vehicles)
      && findings == logged + g.added
    }

    /** One loan of CheckHeld: its vehicle is read afresh. */
    method ReleaseIfHeld(id: Id, loan: Loan, held: VehicleStatus, reopen: bool,
                         ghost g: Visited, ghost s: Store, ghost check: Check, ghost logged: seq<Finding>)
      returns (ghost next: Visited)
      requires check.StillHeld? && check.held == held && !held.Available?
      requires id in s.loans && loan == s.loans[id] && ClassOf(loan.status) == check.loanClass && id !in g.seen
      requires Releasing(g, s, check, reopen, logged)
      modifies this`vehicles, this`findings
      ensures Releasing(next, s, check, reopen, logged) && next.seen == g.seen + [id]
    {
      StillMatches(s, check, g.freed, reopen, id);
      AdvanceRelease(s, check, repair, g, id);
      next := g.(seen := g.seen + [id]);
      var v := loan.vehicleId;
      if v in vehicles && vehicles[v].status == held {
        Release(Finding(LoanEntity, id, VehicleNotReleased(loan.status, v, held)), v, reopen);
        next := Blame(s, check, g, id);
        if repair {
          FreeOneMore(s.vehicles, g.freed, v, reopen);
        }
      }
    }

    /** Loans of class `c` whose vehicle still has status `held`. */
    method CheckHeld(c: Class, held: VehicleStatus, reopen: bool) returns (ghost added: seq<Finding>)
      requires !held.Available?
      modifies this`vehicles, this`findings
      ensures Contents() == if repair then FreeHeld(old(Contents()), c, held, reopen) else old(Contents())
      ensures findings == old(findings) + added
      ensures repair ==> ListsVehicles(old(Contents()), StillHeld(c, held), added)
      ensures !repair ==> Lists(old(Contents()), StillHeld(c, held), added)
    {
      ghost var s, check := Contents(), StillHeld(c, held);
      var docs := loans;
      var ids := Find(loans, (l: Loan) => ClassOf(l.status) == c);
      ghost var g := Visited([], [], {}, []);
      for i := 0 to |ids|
        invariant g.seen == ids[..i]
        invariant Releasing(g, s, check, reopen, old(findings))
      {
        assert ids[i] in ids && ids[i] !in ids[..i];
        assert ids[..i + 1] == ids[..i] + [ids[i]];
        g := ReleaseIfHeld(ids[i], docs[ids[i]], held, reopen, g, s, check, old(findings));
      }
      ReleaseDone(s, check, repair, g);
      added := g.added;
    }

    method CheckUnknown() returns (ghost added: seq<Finding>)
      modifies this`findings
      ensures findings == old(findings) + added
      ensures Lists(Contents(), UnknownStatus, added)
    {
      ghost var s := Contents();
      var docs := loans;
      var ids := Find(loans, (l: Loan) => l.status.Unknown?);
      added := [];
      ghost var picked := [];
      for i := 0 to |ids|
        invariant findings == old(findings) + added
        invariant Progress(s, UnknownStatus, ids[..i], picked, added)
      {
        var id := ids[i];
        assert id in ids && ids[..i + 1] == ids[..i] + [id];
        Advance(s, UnknownStatus, ids[..i], picked, added, id);
        assert id in Defects(s, UnknownStatus);
        var finding := Finding(LoanEntity, id, UnknownStatusValue(docs[id].status));
        Record(finding);
        added, picked := added + [finding], picked + [id];
      }
      ProgressDone(s, UnknownStatus, ids[..|ids|], picked, added);
    }

    /** Vehicles of status `held` at which no loan of class `needed` points. */
    method CheckOrphans(held: VehicleStatus, needed: Class) returns (ghost added: seq<Finding>)
      modifies this`vehicles, this`findings
      ensures Contents() == if repair then FreeOrphans(old(Contents()), held, needed) else old(Contents())
      ensures findings == old(findings) + added
      ensures Lists(old(Contents()), Orphaned(held, needed), added)
    {
      ghost var s, check := Contents(), Orphaned(held, needed);
      var ids := Find(vehicles, (v: Vehicle) => v.status == held);
      added := [];
      ghost var picked := [];
      for i := 0 to |ids|
        invariant vehicles == if repair then Free(s.vehicles, Elements(picked), false) else s.vehicles
        invariant findings == old(findings) + added
        invariant Progress(s, check, ids[..i], picked, added)
      {
        var id := ids[i];
        assert id in ids && ids[..i + 1] == ids[..i] + [id];
        Advance(s, check, ids[..i], picked, added, id);
        OrphanMatches(s, held, needed, id);
        if !LoanOn(loans, id, needed) {
          var finding := Finding(VehicleEntity, id, NoLoanFor(held));
          Release(finding, id, false);
          if repair {
            FreeOneMore(s.vehicles, Elements(picked), id, false);
          }
          added, picked := added + [finding], picked + [id];
        }
      }
      ProgressDone(s, check, ids[..|ids|], picked, added);
      assert Elements(picked) == Orphans(s, held, needed);
    }

    method CheckRetired() returns (ghost added: seq<Finding>)
      modifies this`vehicles, this`findings
      ensures Contents() == if repair then ClearRetired(old(Contents())) else old(Contents())
      ensures findings == old(findings) + added
      ensures Lists(old(Contents()), RetiredWithDriver, added)
    {
      ghost var s := Contents();
      var ids := Find(vehicles, (v: Vehicle) => v.status.Retired? && v.driverId.Some?);
      added := [];
      ghost var picked := [];
      for i := 0 to |ids|
        invariant vehicles == if repair then Undrive(s.vehicles, Elements(picked)) else s.vehicles
        invariant findings == old(findings) + added
        invariant Progress(s, RetiredWithDriver, ids[..i], picked, added)
      {
        var id := ids[i];
        assert id in ids && ids[..i + 1] == ids[..i] + [id];
        Advance(s, RetiredWithDriver, ids[..i], picked, added, id);
        assert id in Defects(s, RetiredWithDriver);
        var finding := Finding(VehicleEntity, id, DriverOnRetired);
        Record(finding);
        if repair {
          UndriveOneMore(s.vehicles, Elements(picked), id);
          vehicles := vehicles[id := vehicles[id].(driverId := None)];
        }
        added, picked := added + [finding], picked + [id];
      }
      ProgressDone(s, RetiredWithDriver, ids[..|ids|], picked, added);
      assert Elements(picked) == DrivenRetired(s);
    }

    method Deactivate(finding: Finding, i: Id, target: InvestmentStatus)
      requires i in investments
      modifies this`investments, this`findings
      ensures findings == old(findings) + [finding]
      ensures investments ==
              if repair then old(investments)[i := old(investments)[i].(status := target)] else old(investments)
    {
      Record(finding);
      if repair {
        investments := investments[i := investments[i].(status := target)];
      }
    }

    /** One round of the loop over the Active investments: `docs` is the query result, the loan is read live. */
    method SettleOne(docs: map<Id, Investment>, id: Id, ghost s: Store) returns (found: bool, ghost finding: Finding)
      requires docs == s.investments && loans == s.loans
      requires id in docs && docs[id].status.Active? && id in investments
      modifies this`investments, this`findings
      ensures found <==> id in Defects(s, LoanOver)
      ensures found ==> finding == FindingFor(s, LoanOver, id)
      ensures findings == if found then old(findings) + [finding] else old(findings)
      ensures investments ==
              if found && repair then old(investments)[id := old(investments)[id].(status := Settlement(s, id))]
              else old(investments)
    {
      found, finding := false, *;
      LoanOverMatches(s, id);
      if docs[id].loanId.Some? && docs[id].loanId.value in loans {
        var loan := docs[id].loanId.value;
        var status := loans[loan].status;
        if status.Completed? || status.Rejected? || status.Cancelled? {
          var f := Finding(InvestmentEntity, id, ActiveButLoanIs(loan, status));
          Deactivate(f, id, if status.Completed? then InvestmentStatus.Completed else Funding);
          found, finding := true, f;
        }
      }
    }

    method CheckLoanOver() returns (ghost added: seq<Finding>)
      modifies this`investments, this`findings
      ensures Contents() == if repair then SettleInvestments(old(Contents())) else old(Contents())
      ensures findings == old(findings) + added
      ensures Lists(old(Contents()), LoanOver, added)
    {
      ghost var s := Contents();
      var docs := investments;
      var ids := Find(investments, (i: Investment) => i.status.Active?);
      added := [];
      ghost var picked := [];
      for k := 0 to |ids|
        invariant investments == if repair then Settle(s, Elements(picked)) else s.investments
        invariant findings == old(findings) + added
        invariant Progress(s, LoanOver, ids[..k], picked, added)
      {
        var id := ids[k];
        assert id in ids && ids[..k + 1] == ids[..k] + [id];
        Advance(s, LoanOver, ids[..k], picked, added, id);
        SettleOneMore(s, Elements(picked), id);
        var found, finding := SettleOne(docs, id, s);
        if found {
          added, picked := added + [finding], picked + [id];
        }
      }
      ProgressDone(s, LoanOver, ids[..|ids|], picked, added);
      assert Elements(picked) == OverClosedLoan(s);
    }

    method CheckVehicleOpen() returns (ghost added: seq<Finding>)
      modifies this`investments, this`findings
      ensures Contents() == if repair then ReturnToFunding(old(Contents())) else old(Contents())
      ensures findings == old(findings) + added
      ensures Lists(old(Contents()), VehicleOpen, added)
    {
      ghost var s := Contents();
      var docs, open := investments, set v | v in vehicles && vehicles[v].fundingStatus.Open?;
      var ids := Find(investments, (i: Investment) => i.status.Active? && i.vehicleId in open);
      added := [];
      ghost var picked := [];
      for k := 0 to |ids|
        invariant investments == if repair then ToFunding(s.investments, Elements(picked)) else s.investments
        invariant findings == old(findings) + added
        invariant Progress(s, VehicleOpen, ids[..k], picked, added)
      {
        var id := ids[k];
        assert id in ids && ids[..k + 1] == ids[..k] + [id];
        Advance(s, VehicleOpen, ids[..k], picked, added, id);
        assert id in Defects(s, VehicleOpen);
        var finding := Finding(InvestmentEntity, id, ActiveButVehicleOpen(docs[id].vehicleId));
        Deactivate(finding, id, Funding);
        if repair {
          ToFundingOneMore(s.investments, Elements(picked), id);
        }
        added, picked := added + [finding], picked + [id];
      }
      ProgressDone(s, VehicleOpen, ids[..|ids|], picked, added);
      assert Elements(picked) == OnOpenVehicle(s);
    }

    method CheckActiveLoans() returns (ghost unpaid: seq<Finding>, ghost underfunded: seq<Finding>)
      modifies this`loans, this`findings
      ensures Contents() == if repair then DemoteLoans(old(Contents())) else old(Contents())
      ensures findings == old(findings) + (unpaid + underfunded)
      ensures Lists(old(Contents()), UnpaidActive, unpaid)
      ensures Lists(if repair then DemoteUnpaid(old(Contents())) else old(Contents()), UnderfundedActive, underfunded)
    {
      unpaid := CheckUnpaid();
      underfunded := CheckUnderfunded();
    }

    method CheckReleases() returns (ghost financed: seq<Finding>, ghost reserved: seq<Finding>)
      modifies this`vehicles, this`findings
      ensures Contents() == if repair then FreeVehicles(old(Contents())) else old(Contents())
      ensures findings == old(findings) + (financed + reserved)
      ensures repair ==>
                && ListsVehicles(old(Contents()), STILL_FINANCED, financed)
                && ListsVehicles(FreeHeld(old(Contents()), Finished, Financed, true), STILL_RESERVED, reserved)
      ensures !repair ==>
                Lists(old(Contents()), STILL_FINANCED, financed) && Lists(old(Contents()), STILL_RESERVED, reserved)
    {
      financed := CheckHeld(Finished, Financed, true);
      reserved := CheckHeld(Closed, Reserved, false);
    }

    method CheckLoans() returns (ghost log: LoanLog)
      modifies this`loans, this`vehicles, this`findings
      ensures Contents() == if repair then RepairLoans(old(Contents())) else old(Contents())
      ensures findings == old(findings) + log.All()
      ensures if repair then LoansRepaired(old(Contents()), log) else LoansReported(old(Contents()), log)
    {
      ghost var unpaid, underfunded := CheckActiveLoans();
      ghost var financed, reserved := CheckReleases();
      ghost var unknown := CheckUnknown();
      log := LoanLog(unpaid, underfunded, financed, reserved, unknown);
      FiveParts(old(findings), log);
    }

    method CheckVehicles() returns (ghost log: VehicleLog)
      modifies this`vehicles, this`findings
      ensures Contents() == if repair then RepairVehicles(old(Contents())) else old(Contents())
      ensures findings == old(findings) + log.All()
      ensures if repair then VehiclesRepaired(old(Contents()), log) else VehiclesReported(old(Contents()), log)
    {
      ghost var noActive := CheckOrphans(Financed, Current);
      ghost var noApplication := CheckOrphans(Reserved, InProgress);
      ghost var retired := CheckRetired();
      log := VehicleLog(noActive, noApplication, retired);
    }

    method CheckInvestments() returns (ghost log: InvestmentLog)
      modifies this`investments, this`findings
      ensures Contents() == if repair then RepairInvestments(old(Contents())) else old(Contents())
      ensures findings == old(findings) + log.All()
      ensures if repair then InvestmentsRepaired(old(Contents()), log) else InvestmentsReported(old(Contents()), log)
    {
      ghost var loanOver := CheckLoanOver();
      ghost var vehicleOpen := CheckVehicleOpen();
      log := InvestmentLog(loanOver, vehicleOpen);
    }

    /** The whole script; report mode exits with 1 when it found anything. */
    method Run() returns (exitCode: nat, ghost log: Log)
      modifies this`loans, this`vehicles, this`investments, this`findings
      ensures Contents() == if repair then Repaired(old(Contents())) else old(Contents())
      ensures findings == old(findings) + log.All()
      ensures if repair then RepairedWith(old(Contents()), log) else Reported(old(Contents()), log)
      ensures exitCode == if findings != [] && !repair then 1 else 0
    {
      PassIsRepaired(Contents());
      ghost var l := CheckLoans();
      ghost var v := CheckVehicles();
      Associate(old(findings), l.All(), v.All());
      ghost var i := CheckInvestments();
      Associate(old(findings), l.All() + v.All(), i.All());
      log := Log(l, v, i);
      exitCode := if findings != [] && !repair then 1 else 0;
    }
  }

  // ---------------------------------------------------------------- what the findings mean

  lemma UnknownLoansStay(s: Store)
    ensures UnknownLoans(RepairLoans(s)) == UnknownLoans(s)
    ensures forall l :: l in UnknownLoans(s) ==> RepairLoans(s).loans[l] == s.loans[l]
  {
    DemotionsAreFinal(s);
    assert RepairLoans(s).loans == Repaired(s).loans;
  }

  lemma LoanFindings(s: Store, log: LoanLog)
    requires LoansRepaired(s, log)
    ensures |log.All()| == LoanRepairs(s) + |UnknownLoans(s)|
    ensures Lists(s, UnknownStatus, log.unknown)
  {
    UnknownLoansStay(s);
  }

  lemma OtherFindings(s: Store, vehicles: VehicleLog, investments: InvestmentLog)
    ensures VehiclesRepaired(s, vehicles) ==> |vehicles.All()| == VehicleRepairs(s)
    ensures InvestmentsRepaired(s, investments) ==> |investments.All()| == InvestmentRepairs(s)
  {
  }

  lemma RepairSize(s: Store, log: Log)
    requires RepairedWith(s, log)
    ensures |log.All()| == RepairCount(s) + |UnknownLoans(s)|
  {
    LoanFindings(s, log.loans);
    OtherFindings(RepairLoans(s), log.vehicles, log.investments);
    OtherFindings(RepairVehicles(RepairLoans(s)), log.vehicles, log.investments);
  }

  /** Main result: a repair run reports one finding per unit of potential it removes, plus the unknown statuses. */
  lemma RepairFindingsAreAccounted(s: Store, log: Log)
    requires RepairedWith(s, log)
    ensures |log.All()| == Potential(s) - Potential(Repaired(s)) + |UnknownLoans(s)|
  {
    RepairSize(s, log);
    RepairsAreAccounted(s);
  }

  lemma SameHeld(s: Store)
    ensures var b := DemoteLoans(s);
            && HeldBy(b, Finished, Financed) == HeldBy(s, Finished, Financed)
            && HeldBy(FreeHeld(b, Finished, Financed, true), Closed, Reserved) == HeldBy(s, Closed, Reserved)
  {
    DemotionsKeepHeld(s, Finished, Financed);
    DemotionsKeepHeld(s, Closed, Reserved);
    ReleasesKeepReserved(DemoteLoans(s));
  }

  /**
   Main result: of a repair run and a report run on the same store, the repair run never reports more
   loans that hold on to a vehicle; it reports as many exactly when no two such loans share a vehicle.
   */
  lemma RepairReportsNoMore(s: Store, a: Log, b: Log)
    requires RepairedWith(s, a) && Reported(s, b)
    ensures |a.loans.financed| <= |b.loans.financed| && |a.loans.reserved| <= |b.loans.reserved|
    ensures |a.loans.financed| == |b.loans.financed| <==> !Shared(s, Finished, Financed)
    ensures |a.loans.reserved| == |b.loans.reserved| <==> !Shared(s, Closed, Reserved)
  {
    SameHeld(s);
    HeldAtMostHolders(s, Finished, Financed);
    HeldAtMostHolders(s, Closed, Reserved);
  }

  lemma LoanReportSize(s: Store, log: LoanLog)
    requires LoansReported(s, log)
    ensures |log.All()| == |UnpaidLoans(s)| + |UnderfundedLoans(s)| + |Holders(s, Finished, Financed)|
                         + |Holders(s, Closed, Reserved)| + |UnknownLoans(s)|
  {
  }

  lemma LoanRepairsOnStart(s: Store)
    ensures LoanRepairs(s) == |UnpaidLoans(s)| + |UnderfundedLoans(DemoteUnpaid(s))|
                            + |HeldBy(s, Finished, Financed)| + |HeldBy(s, Closed, Reserved)|
  {
    SameHeld(s);
  }

  /** Hence the five loan checks together never report more in repair mode. */
  lemma LoanChecksReportNoMore(s: Store, a: LoanLog, b: LoanLog)
    requires LoansRepaired(s, a) && LoansReported(s, b)
    ensures |a.All()| <= |b.All()|
    ensures |a.All()| == |b.All()| <==>
            !Shared(s, Finished, Financed) && !Shared(s, Closed, Reserved) && !DoublyDefective(s)
  {
    LoanFindings(s, a);
    LoanReportSize(s, b);
    LoanRepairsOnStart(s);
    HeldAtMostHolders(s, Finished, Financed);
    HeldAtMostHolders(s, Closed, Reserved);
    DemotedOnce(s);
  }

  function ReportCount(s: Store): nat {
    |UnpaidLoans(s)| + |UnderfundedLoans(s)| + |Holders(s, Finished, Financed)| + |Holders(s, Closed, Reserved)|
    + |UnknownLoans(s)| + |Orphans(s, Financed, Current)| + |Orphans(s, Reserved, InProgress)| + |DrivenRetired(s)|
    + |OverClosedLoan(s)| + |OnOpenVehicle(s)|
  }

  lemma ReportSize(s: Store, log: Log)
    requires Reported(s, log)
    ensures |log.All()| == ReportCount(s)
  {
  }

  /** Main result: report mode is silent exactly on the stores where all ten conditions hold. */
  lemma ReportIsSoundAndComplete(s: Store, log: Log)
    requires Reported(s, log)
    ensures log.All() == [] <==> Consistent(s)
  {
    ReportSize(s, log);
    CoherentIffClean(s);
    if Consistent(s) {
      assert UnknownLoans(s) == {};
    }
    if ReportCount(s) == 0 {
      forall l | l in s.loans
        ensures !s.loans[l].status.Unknown?
      {
        assert l !in UnknownLoans(s);
      }
    }
  }

  /** On a coherent store a run in either mode reports the unknown statuses and nothing else. */
  lemma CoherentRun(s: Store, log: Log)
    requires Coherent(s)
    requires RepairedWith(s, log) || Reported(s, log)
    ensures log.All() == log.loans.unknown
    ensures Lists(s, UnknownStatus, log.loans.unknown)
  {
    if RepairedWith(s, log) {
      RepairSize(s, log);
      RepairsAreAccounted(s);
      LoanFindings(s, log.loans);
    } else {
      ReportSize(s, log);
      CoherentIffClean(s);
    }
    assert |log.All()| == |log.loans.unknown|;
    OnlyUnknown(log);
  }

  lemma OnlyUnknown(log: Log)
    requires |log.All()| == |log.loans.unknown|
    ensures log.All() == log.loans.unknown
  {
    assert |log.loans.All()| == |log.loans.unknown|;
    assert log.loans.All() == log.loans.unknown;
  }

  lemma SameUnknown(s: Store, r: Store, added: seq<Finding>)
    requires UnknownLoans(r) == UnknownLoans(s)
    requires forall l :: l in UnknownLoans(s) ==> r.loans[l] == s.loans[l]
    requires Lists(r, UnknownStatus, added)
    ensures Lists(s, UnknownStatus, added)
  {
    assert forall l :: l in UnknownLoans(s) ==> FindingFor(r, UnknownStatus, l) == FindingFor(s, UnknownStatus, l);
  }

  /** Main result: after a repair, a run in either mode reports just the unknown statuses of the starting store. */
  lemma SecondRunReportsOnlyUnknown(s: Store, log: Log)
    requires RepairedWith(Repaired(s), log) || Reported(Repaired(s), log)
    ensures log.All() == log.loans.unknown
    ensures Lists(s, UnknownStatus, log.loans.unknown)
  {
    FixedIffCoherent(s);
    RepairConverges(s);
    CoherentRun(Repaired(s), log);
    SameUnknown(s, Repaired(s), log.loans.unknown);
  }
}
