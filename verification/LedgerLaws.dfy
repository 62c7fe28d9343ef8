/**
 Single events of the platform reducer in the fields of users, loans and approvals, and what runs of
 them come to for one investor on one loan: what he has approved, what is released to his name, and
 what the last review said.
 */
module LedgerLaws {
  import opened Options
  import opened LedgerModel
  import opened LedgerRuns

  /** The number in an optional field, where a missing one counts as nothing. */
  function OrZero(n: Option<real>): real {
    match n
    case None => 0.0
    case Some(v) => v
  }

  // ---------------------------------------------------------------- approvals

  /** The loan after an approval: one entry more, in the investor's name, and the fields that depend on the total. */
  ghost predicate Records(before: Loan, after: Loan, investorId: Id, amount: real, now: int) {
    var entry := Approval(investorId, amount, now, ApprovalStatus.Approved, None);
    var total := OrZero(before.totalFunded) + amount;
    && after.investorApprovals ==
       Some((match before.investorApprovals case None => [] case Some(earlier) => earlier) + [entry])
    && after.totalFunded == Some(total)
    && after.remainingAmount ==
       Some(if before.requestedAmount > total then before.requestedAmount - total else 0.0)
    && (before.requestedAmount > 0.0 ==>
          after.fundingProgress ==
            Some(Finite(if total >= before.requestedAmount then 100.0 else total / before.requestedAmount * 100.0)))
    && (before.requestedAmount == 0.0 ==>
          after.fundingProgress ==
            Some(if total > 0.0 then Finite(100.0) else if total < 0.0 then NegativeInfinity else NaN))
    && (before.requestedAmount < 0.0 ==>
          var share := total / before.requestedAmount * 100.0;
          after.fundingProgress == Some(Finite(if share > 100.0 then 100.0 else share)))
    && after == before.(investorApprovals := after.investorApprovals, totalFunded := after.totalFunded,
                        fundingProgress := after.fundingProgress, remainingAmount := after.remainingAmount)
  }

  lemma ShareBelowWhole(total: real, requested: real)
    requires requested > 0.0
    ensures total / requested * 100.0 > 100.0 <==> total > requested
    ensures total / requested * 100.0 == 100.0 <==> total == requested
  {
    var q := total / requested;
    assert q * requested == total;
    if q > 1.0 {
      assert q * requested > requested;
    } else if q < 1.0 {
      assert q * requested < requested;
    }
  }

  lemma ApproveRecords(loan: Loan, investorId: Id, amount: real, now: int)
    ensures Records(loan, Approve(loan, investorId, amount, now), investorId, amount, now)
  {
    if loan.requestedAmount > 0.0 {
      ShareBelowWhole(OrZero(loan.totalFunded) + amount, loan.requestedAmount);
    }
  }

  /** The user after an approval: the investor, under either of his ids, pays the amount. */
  ghost predicate Pays(before: User, after: User, investorId: Id, amount: real) {
    if before.id == investorId || before.mongoId == Some(investorId)
    then after == before.(availableBalance := Some(OrZero(before.availableBalance) - amount))
    else after == before
  }

  /** Main result: an approval is recorded in the investor's name on the loans of that id and paid by his users. */
  lemma ApprovalIsRecorded(state: State, loanId: Id, investorId: Id, amount: real, now: int)
    ensures var after := Reduce(state, Event(ApproveLoan(loanId, investorId, amount), now));
            && |after.loans| == |state.loans| && |after.users| == |state.users|
            && after.currentUser == state.currentUser
            && (forall i :: 0 <= i < |state.loans| ==>
                  if state.loans[i].id == loanId
                  then Records(state.loans[i], after.loans[i], investorId, amount, now)
                  else after.loans[i] == state.loans[i])
            && (forall i :: 0 <= i < |state.users| ==> Pays(state.users[i], after.users[i], investorId, amount))
  {
    forall i | 0 <= i < |state.loans|
      ensures Records(state.loans[i], Approve(state.loans[i], investorId, amount, now), investorId, amount, now)
    {
      ApproveRecords(state.loans[i], investorId, amount, now);
    }
  }

  // ---------------------------------------------------------------- releases

  /** The loan after a release: the investor's Approved entries are Released now, and nothing else changes. */
  ghost predicate Releases(before: Loan, after: Loan, investorId: Id, now: int) {
    && after == before.(investorApprovals := after.investorApprovals)
    && after.investorApprovals.Some? == before.investorApprovals.Some?
    && (before.investorApprovals.Some? ==>
          && |after.investorApprovals.value| == |before.investorApprovals.value|
          && forall j :: 0 <= j < |before.investorApprovals.value| ==>
               var earlier, later := before.investorApprovals.value[j], after.investorApprovals.value[j];
               later == if earlier.investorId == investorId && earlier.status.Approved?
                        then earlier.(status := Released, releaseDate := Some(now)) else earlier)
  }

  lemma ReleaseIsRecorded(state: State, loanId: Id, investorId: Id, now: int)
    ensures var after := Reduce(state, Event(ReleaseFunds(loanId, investorId), now));
            && after.users == state.users && after.currentUser == state.currentUser
            && |after.loans| == |state.loans|
            && (forall i :: 0 <= i < |state.loans| ==>
                  if state.loans[i].id == loanId
                  then Releases(state.loans[i], after.loans[i], investorId, now)
                  else after.loans[i] == state.loans[i])
  {
    assert Reduce(state, Event(ReleaseFunds(loanId, investorId), now)).users == state.users;
  }

  /** What an investor has approved, in a list of approvals. */
  function ShareOf(investorId: Id, approvals: seq<Approval>): real {
    if approvals == [] then 0.0
    else
      var last := approvals[|approvals| - 1];
      ShareOf(investorId, approvals[..|approvals| - 1]) + if last.investorId == investorId then last.amount else 0.0
  }

  /** What of it has been released. */
  function ReleasedShareOf(investorId: Id, approvals: seq<Approval>): real {
    if approvals == [] then 0.0
    else
      var last := approvals[|approvals| - 1];
      ReleasedShareOf(investorId, approvals[..|approvals| - 1])
      + if last.investorId == investorId && last.status.Released? then last.amount else 0.0
  }

  /** The approvals that the events address to loan `id` in the investor's name. */
  function ApprovedInName(id: Id, investorId: Id, events: seq<Event>): real {
    if events == [] then 0.0
    else
      var action := events[|events| - 1].action;
      ApprovedInName(id, investorId, events[..|events| - 1])
      + if action.ApproveLoan? && action.loanId == id && action.investorId == investorId then action.amount else 0.0
  }

  lemma {:induction false} ReleaseKeepsShare(approvals: seq<Approval>, releasing: Id, now: int, investorId: Id)
    ensures ShareOf(investorId, ReleaseAll(approvals, releasing, now)) == ShareOf(investorId, approvals)
  {
    if approvals != [] {
      var n := |approvals| - 1;
      assert ReleaseAll(approvals, releasing, now)[..n] == ReleaseAll(approvals[..n], releasing, now);
      ReleaseKeepsShare(approvals[..n], releasing, now, investorId);
    }
  }

  lemma ShareNext(approvals: seq<Approval>, entry: Approval, investorId: Id)
    ensures ShareOf(investorId, approvals + [entry]) ==
            ShareOf(investorId, approvals) + if entry.investorId == investorId then entry.amount else 0.0
  {
    assert (approvals + [entry])[..|approvals|] == approvals;
  }

  lemma EventAddsShare(loan: Loan, event: Event, investorId: Id)
    ensures LoanAfter(loan, event).id == loan.id
    ensures ShareOf(investorId, Approvals(LoanAfter(loan, event))) ==
            ShareOf(investorId, Approvals(loan)) + ApprovedInName(loan.id, investorId, [event])
  {
    assert [event][..0] == [];
    match event.action
    case ApproveLoan(_, payer, amount) =>
      ShareNext(Approvals(loan), Approval(payer, amount, event.now, Approved, None), investorId);
    case ReleaseFunds(_, releasing) => ReleaseKeepsShare(Approvals(loan), releasing, event.now, investorId);
    case _ =>
  }

  /** Main result: over any run an investor's share of a loan grows by exactly the approvals in his name for it. */
  lemma {:induction false} ShareIsExact(loan: Loan, events: seq<Event>, investorId: Id)
    ensures RunLoan(loan, events).id == loan.id
    ensures ShareOf(investorId, Approvals(RunLoan(loan, events))) ==
            ShareOf(investorId, Approvals(loan)) + ApprovedInName(loan.id, investorId, events)
  {
    if events != [] {
      var earlier, event := events[..|events| - 1], events[|events| - 1];
      ShareIsExact(loan, earlier, investorId);
      EventAddsShare(RunLoan(loan, earlier), event, investorId);
      assert [event][..0] == [];
      assert ApprovedInName(loan.id, investorId, [event]) ==
             if event.action.ApproveLoan? && event.action.loanId == loan.id && event.action.investorId == investorId
             then event.action.amount else 0.0;
    }
  }

  /** No approval of the list waits for a decision; the reducer itself never leaves one so. */
  ghost predicate NonePending(approvals: seq<Approval>) {
    forall j :: 0 <= j < |approvals| ==> !approvals[j].status.Pending?
  }

  lemma {:induction false} NonePendingStays(loan: Loan, events: seq<Event>)
    requires NonePending(Approvals(loan))
    ensures NonePending(Approvals(RunLoan(loan, events)))
  {
    if events != [] {
      var earlier, event := events[..|events| - 1], events[|events| - 1];
      NonePendingStays(loan, earlier);
      var before, after := RunLoan(loan, earlier), RunLoan(loan, events);
      forall j | 0 <= j < |Approvals(after)|
        ensures !Approvals(after)[j].status.Pending?
      {
        if j < |Approvals(before)| {
          EventMatures(before, event, j);
        }
      }
    }
  }

  lemma {:induction false} ReleasedWhole(approvals: seq<Approval>, investorId: Id, now: int)
    requires NonePending(approvals)
    ensures ReleasedShareOf(investorId, ReleaseAll(approvals, investorId, now)) == ShareOf(investorId, approvals)
    ensures forall j :: 0 <= j < |approvals| && approvals[j].investorId == investorId ==>
              ReleaseAll(approvals, investorId, now)[j].status.Released?
  {
    if approvals != [] {
      var n := |approvals| - 1;
      assert ReleaseAll(approvals, investorId, now)[..n] == ReleaseAll(approvals[..n], investorId, now);
      ReleasedWhole(approvals[..n], investorId, now);
    }
  }

  lemma NothingApproved(loan: Loan)
    requires Approvals(loan) == []
    ensures NonePending(Approvals(loan)) && forall investorId :: ShareOf(investorId, Approvals(loan)) == 0.0
  {
  }

  /**
   Main result: on a loan that starts without approvals, releasing for an investor after any run releases
   all that was approved in his name on that loan, and leaves none of his approvals waiting.
   */
  lemma ReleaseReachesAll(loan: Loan, events: seq<Event>, investorId: Id, now: int)
    requires Approvals(loan) == []
    ensures var after := LoanAfter(RunLoan(loan, events), Event(ReleaseFunds(loan.id, investorId), now));
            && ReleasedShareOf(investorId, Approvals(after)) == ApprovedInName(loan.id, investorId, events)
            && forall j :: 0 <= j < |Approvals(after)| && Approvals(after)[j].investorId == investorId ==>
                 Approvals(after)[j].status.Released?
  {
    NothingApproved(loan);
    NonePendingStays(loan, events);
    ShareIsExact(loan, events, investorId);
    ReleasedWhole(Approvals(RunLoan(loan, events)), investorId, now);
  }

  /** The same of a loan in the list: nothing that happens to other loans or users comes between. */
  lemma RunReleaseReachesAll(state: State, events: seq<Event>, i: nat, investorId: Id, now: int)
    requires KeepsLoans(events) && i < |state.loans| && Approvals(state.loans[i]) == []
    ensures var release := Event(ReleaseFunds(state.loans[i].id, investorId), now);
            var loans := Run(state, events + [release]).loans;
            && i < |loans|
            && ReleasedShareOf(investorId, Approvals(loans[i])) == ApprovedInName(state.loans[i].id, investorId, events)
            && forall j :: 0 <= j < |Approvals(loans[i])| && Approvals(loans[i])[j].investorId == investorId ==>
                 Approvals(loans[i])[j].status.Released?
  {
    var all := events + [Event(ReleaseFunds(state.loans[i].id, investorId), now)];
    assert all[..|all| - 1] == events;
    LoansEvolveAlone(state, all, i);
    ReleaseReachesAll(state.loans[i], events, investorId, now);
  }

  // ---------------------------------------------------------------- reviews, roles and balances

  /** The loan after a status update: status and notes as given; a review or an approval is dated. */
  ghost predicate Reviews(before: Loan, after: Loan, status: LoanStatus, notes: Option<string>, now: int) {
    && after.status == status && after.adminNotes == notes
    && after.reviewedDate == (if status == UnderReview then Some(now) else before.reviewedDate)
    && after.approvedDate == (if status == LoanApproved then Some(now) else before.approvedDate)
    && after == before.(status := after.status, adminNotes := after.adminNotes,
                        reviewedDate := after.reviewedDate, approvedDate := after.approvedDate)
  }

  lemma StatusIsRecorded(state: State, loanId: Id, status: LoanStatus, notes: Option<string>, now: int)
    ensures var after := Reduce(state, Event(UpdateLoanStatus(loanId, status, notes), now));
            && after.users == state.users && after.currentUser == state.currentUser
            && |after.loans| == |state.loans|
            && (forall i :: 0 <= i < |state.loans| ==>
                  if state.loans[i].id == loanId
                  then Reviews(state.loans[i], after.loans[i], status, notes, now)
                  else after.loans[i] == state.loans[i])
  {
    assert Reduce(state, Event(UpdateLoanStatus(loanId, status, notes), now)).users == state.users;
  }

  predicate Updates(id: Id, event: Event) {
    event.action.UpdateLoanStatus? && event.action.loanId == id
  }

  lemma {:induction false} IdStays(loan: Loan, events: seq<Event>)
    ensures RunLoan(loan, events).id == loan.id
  {
    if events != [] {
      IdStays(loan, events[..|events| - 1]);
    }
  }

  /** Main result: over any run a loan has the status, the notes and the date of the last update addressed to it. */
  lemma {:induction false} LastReviewCounts(loan: Loan, events: seq<Event>, k: nat)
    requires k < |events| && Updates(loan.id, events[k])
    requires forall m :: k < m < |events| ==> !Updates(loan.id, events[m])
    ensures var after, last := RunLoan(loan, events), events[k].action;
            && after.status == last.status && after.adminNotes == last.adminNotes
            && (last.status == UnderReview ==> after.reviewedDate == Some(events[k].now))
            && (last.status == LoanApproved ==> after.approvedDate == Some(events[k].now))
  {
    var earlier := events[..|events| - 1];
    IdStays(loan, earlier);
    if k < |events| - 1 {
      assert earlier[k] == events[k];
      LastReviewCounts(loan, earlier, k);
      assert !Updates(loan.id, events[|events| - 1]);
    }
  }

  /** A user under either of his ids. */
  predicate Named(user: User, id: Id) {
    user.id == id || user.mongoId == Some(id)
  }

  /** Changes of role and balance reach exactly the users of that name, in the list and, for the balance, signed in. */
  lemma UserUpdatesAreRecorded(state: State, userId: Id, role: Role, balance: real, now: int)
    ensures var after := Reduce(state, Event(UpdateUserRole(userId, role), now));
            && after.loans == state.loans && after.currentUser == state.currentUser
            && |after.users| == |state.users|
            && (forall i :: 0 <= i < |state.users| ==>
                  after.users[i] ==
                    if Named(state.users[i], userId) then state.users[i].(role := role) else state.users[i])
    ensures var after := Reduce(state, Event(UpdateUserBalance(userId, balance), now));
            && after.loans == state.loans
            && |after.users| == |state.users|
            && (forall i :: 0 <= i < |state.users| ==>
                  after.users[i] == if Named(state.users[i], userId)
                                    then state.users[i].(availableBalance := Some(balance)) else state.users[i])
            && after.currentUser == match state.currentUser
                                    case None => None
                                    case Some(user) => Some(if Named(user, userId)
                                                            then user.(availableBalance := Some(balance)) else user)
  {
    assert Reduce(state, Event(UpdateUserRole(userId, role), now)).loans == state.loans;
    assert Reduce(state, Event(UpdateUserBalance(userId, balance), now)).loans == state.loans;
  }

  /** Replacing and adding put exactly the given users and loans in the state and leave the rest. */
  lemma ReplacementsAreRecorded(state: State, user: Option<User>, users: seq<User>, loans: seq<Loan>, loan: Loan,
                                now: int)
    ensures Reduce(state, Event(SetCurrentUser(user), now)) == state.(currentUser := user)
    ensures Reduce(state, Event(SetUsers(users), now)) == state.(users := users)
    ensures Reduce(state, Event(SetLoans(loans), now)) == state.(loans := loans)
    ensures Reduce(state, Event(AddLoan(loan), now)) == state.(loans := state.loans + [loan])
    ensures Reduce(state, Event(Elsewhere, now)) == state
  {
    var a, b := Reduce(state, Event(SetCurrentUser(user), now)), Reduce(state, Event(SetUsers(users), now));
    var c, d := Reduce(state, Event(SetLoans(loans), now)), Reduce(state, Event(AddLoan(loan), now));
    var e := Reduce(state, Event(Elsewhere, now));
    assert a.users == c.users == d.users == e.users == state.users;
    assert a.loans == b.loans == e.loans == state.loans;
  }
}
