/** What every run of the platform reducer keeps: conservation, derived fields, releases. */
module LedgerRuns {
  import opened Options
  import opened LedgerModel

  // ---------------------------------------------------------------- one loan through a run

  /** No event replaces the loan list. */
  ghost predicate KeepsLoans(events: seq<Event>) {
    forall k :: 0 <= k < |events| ==> !events[k].action.SetLoans?
  }

  /** One loan under the events, seen alone. */
  function RunLoan(loan: Loan, events: seq<Event>): Loan {
    if events == [] then loan else LoanAfter(RunLoan(loan, events[..|events| - 1]), events[|events| - 1])
  }

  /** A loan in the list evolves as if alone, whatever else is added to or happens in the state. */
  lemma {:induction false} LoansEvolveAlone(state: State, events: seq<Event>, i: nat)
    requires KeepsLoans(events) && i < |state.loans|
    ensures i < |Run(state, events).loans|
    ensures Run(state, events).loans[i] == RunLoan(state.loans[i], events)
  {
    if events != [] {
      LoansEvolveAlone(state, events[..|events| - 1], i);
    }
  }

  /** The sum of the approvals that the events address to loan `id`. */
  function ApprovedTo(id: Id, events: seq<Event>): real {
    if events == [] then 0.0
    else
      var action := events[|events| - 1].action;
      ApprovedTo(id, events[..|events| - 1])
      + if action.ApproveLoan? && action.loanId == id then action.amount else 0.0
  }

  function SumAmounts(approvals: seq<Approval>): real {
    if approvals == [] then 0.0
    else SumAmounts(approvals[..|approvals| - 1]) + approvals[|approvals| - 1].amount
  }

  function SumReleased(approvals: seq<Approval>): real {
    if approvals == [] then 0.0
    else
      var last := approvals[|approvals| - 1];
      SumReleased(approvals[..|approvals| - 1]) + if last.status.Released? then last.amount else 0.0
  }

  lemma {:induction false} ReleaseKeepsSum(approvals: seq<Approval>, investorId: Id, now: int)
    ensures SumAmounts(ReleaseAll(approvals, investorId, now)) == SumAmounts(approvals)
  {
    if approvals != [] {
      var n := |approvals| - 1;
      assert ReleaseAll(approvals, investorId, now)[..n] == ReleaseAll(approvals[..n], investorId, now);
      ReleaseKeepsSum(approvals[..n], investorId, now);
    }
  }

  lemma EventKeepsGap(loan: Loan, event: Event)
    ensures var after := LoanAfter(loan, event);
            && after.id == loan.id && after.requestedAmount == loan.requestedAmount
            && Funded(after) == Funded(loan) + ApprovedTo(loan.id, [event])
            && Funded(after) - SumAmounts(Approvals(after)) == Funded(loan) - SumAmounts(Approvals(loan))
  {
    assert [event][..0] == [];
    match event.action
    case ApproveLoan(loanId, investorId, amount) =>
      var more := Approvals(loan) + [Approval(investorId, amount, event.now, Approved, None)];
      assert more[..|more| - 1] == Approvals(loan);
    case ReleaseFunds(loanId, investorId) =>
      ReleaseKeepsSum(Approvals(loan), investorId, event.now);
    case _ =>
  }

  /**
   Main result: whatever happens, a loan has received its initial funding plus the approvals
   addressed to it, and the gap between its total and its list of approvals never changes.
   */
  lemma {:induction false} FundingIsExact(loan: Loan, events: seq<Event>)
    ensures var after := RunLoan(loan, events);
            && after.id == loan.id && after.requestedAmount == loan.requestedAmount
            && Funded(after) == Funded(loan) + ApprovedTo(loan.id, events)
            && Funded(after) - SumAmounts(Approvals(after)) == Funded(loan) - SumAmounts(Approvals(loan))
  {
    if events != [] {
      var earlier, event := events[..|events| - 1], events[|events| - 1];
      FundingIsExact(loan, earlier);
      EventKeepsGap(RunLoan(loan, earlier), event);
      assert [event][..0] == [];
      assert ApprovedTo(loan.id, [event]) ==
             if event.action.ApproveLoan? && event.action.loanId == loan.id then event.action.amount else 0.0;
    }
  }

  // ---------------------------------------------------------------- derived fields

  /** Progress and remainder are the intended functions of the total. */
  predicate Derived(loan: Loan) {
    && loan.fundingProgress == Some(AtMost100(Percentage(Funded(loan), loan.requestedAmount)))
    && loan.remainingAmount == Some(Max(loan.requestedAmount - Funded(loan), 0.0))
  }

  predicate Addressed(id: Id, event: Event) {
    event.action.ApproveLoan? && event.action.loanId == id
  }

  lemma EventDerives(loan: Loan, event: Event)
    requires Derived(loan) || Addressed(loan.id, event)
    ensures Derived(LoanAfter(loan, event))
  {
  }

  /** Main result: from the first approval on, the derived fields agree with the total for ever. */
  lemma {:induction false} DerivedFromFirstApproval(loan: Loan, events: seq<Event>)
    requires Derived(loan) || exists k :: 0 <= k < |events| && Addressed(loan.id, events[k])
    ensures Derived(RunLoan(loan, events))
  {
    if events != [] {
      var earlier, event := events[..|events| - 1], events[|events| - 1];
      FundingIsExact(loan, earlier);
      if !Addressed(loan.id, event) {
        if !Derived(loan) {
          var k :| 0 <= k < |events| && Addressed(loan.id, events[k]);
          assert earlier[k] == events[k];
        }
        DerivedFromFirstApproval(loan, earlier);
      }
      EventDerives(RunLoan(loan, earlier), event);
    }
  }

  lemma ProgressIsBounded(part: real, whole: real)
    requires whole > 0.0
    ensures part / whole * 100.0 >= 100.0 <==> part >= whole
    ensures part / whole * whole == part
  {
    var q := part / whole;
    assert q * whole == part;
    if q >= 1.0 {
      assert q * whole >= whole;
    } else {
      assert q * whole < whole;
    }
  }

  /** With a positive request, what remains is the share of the request that progress has not reached. */
  lemma RemainderMatchesProgress(loan: Loan)
    requires Derived(loan) && loan.requestedAmount > 0.0
    ensures loan.fundingProgress.value.Finite? && loan.fundingProgress.value.value <= 100.0
    ensures loan.remainingAmount.value == loan.requestedAmount * (100.0 - loan.fundingProgress.value.value) / 100.0
    ensures loan.remainingAmount.value >= 0.0
  {
    var part, whole := Funded(loan), loan.requestedAmount;
    ProgressIsBounded(part, whole);
    var q := part / whole;
    assert whole * (100.0 - q * 100.0) / 100.0 == whole - q * whole;
  }

  lemma NegativeRequest(part: real, whole: real)
    requires whole < 0.0
    ensures part / whole * 100.0 >= 100.0 <==> part <= whole
  {
    var q := part / whole;
    assert q * whole == part;
    if q >= 1.0 {
      assert q * whole <= whole;
    } else {
      assert q * whole > whole;
    }
  }

  /**
   "Progress is 100 exactly when nothing remains" needs a positive request: these are all the
   cases in which it holds.
   */
  lemma FullIffNothingRemains(loan: Loan)
    requires Derived(loan)
    ensures (loan.fundingProgress == Some(Finite(100.0)) <==> loan.remainingAmount == Some(0.0)) <==>
            || loan.requestedAmount > 0.0
            || (loan.requestedAmount == 0.0 && Funded(loan) != 0.0)
            || (loan.requestedAmount < 0.0 && Funded(loan) == loan.requestedAmount)
  {
    if loan.requestedAmount > 0.0 {
      ProgressIsBounded(Funded(loan), loan.requestedAmount);
    } else if loan.requestedAmount < 0.0 {
      NegativeRequest(Funded(loan), loan.requestedAmount);
    }
  }

  /**
   Two states in which an approval leaves nothing to be funded and yet a progress other than 100: the
   first asks for nothing and gets nothing, the second asks for a negative amount.
   */
  lemma NothingRemainsAtNoProgress() returns (zero: State, negative: State, nothing: Event, something: Event)
    ensures nothing.action.ApproveLoan? && something.action.ApproveLoan? && |zero.loans| == |negative.loans| == 1
    ensures var loan := Reduce(zero, nothing).loans[0];
            Derived(loan) && loan.remainingAmount == Some(0.0) && loan.fundingProgress == Some(NaN)
    ensures var loan := Reduce(negative, something).loans[0];
            Derived(loan) && loan.remainingAmount == Some(0.0) && loan.fundingProgress == Some(Finite(-50.0))
  {
    zero := State(None, [], [Loan(1, 0.0, LoanApproved, None, None, None, None, None, None, None)]);
    negative := State(None, [], [Loan(1, -10.0, LoanApproved, None, None, None, None, None, None, None)]);
    nothing, something := Event(ApproveLoan(1, 2, 0.0), 0), Event(ApproveLoan(1, 2, 5.0), 0);
  }

  // ---------------------------------------------------------------- conservation

  function SumFunded(loans: seq<Loan>): real {
    if loans == [] then 0.0 else SumFunded(loans[..|loans| - 1]) + Funded(loans[|loans| - 1])
  }

  function SumBalances(users: seq<User>): real {
    if users == [] then 0.0 else SumBalances(users[..|users| - 1]) + Balance(users[|users| - 1])
  }

  /** All the money the state knows: what users hold and what loans have received. */
  function Value(state: State): real {
    SumBalances(state.users) + SumFunded(state.loans)
  }

  function LoansNamed(loans: seq<Loan>, id: Id): nat {
    if loans == [] then 0
    else LoansNamed(loans[..|loans| - 1], id) + if loans[|loans| - 1].id == id then 1 else 0
  }

  function UsersNamed(users: seq<User>, id: Id): nat {
    if users == [] then 0
    else UsersNamed(users[..|users| - 1], id) + if IsUser(users[|users| - 1], id) then 1 else 0
  }

  /** `amount` once per loan named `id`. */
  function PaidIn(loans: seq<Loan>, id: Id, amount: real): real {
    if loans == [] then 0.0
    else PaidIn(loans[..|loans| - 1], id, amount) + if loans[|loans| - 1].id == id then amount else 0.0
  }

  /** `amount` once per user named `id`. */
  function PaidOut(users: seq<User>, id: Id, amount: real): real {
    if users == [] then 0.0
    else PaidOut(users[..|users| - 1], id, amount) + if IsUser(users[|users| - 1], id) then amount else 0.0
  }

  lemma {:induction false} PaidInIsProduct(loans: seq<Loan>, id: Id, amount: real)
    ensures PaidIn(loans, id, amount) == amount * LoansNamed(loans, id) as real
  {
    if loans != [] {
      PaidInIsProduct(loans[..|loans| - 1], id, amount);
    }
  }

  lemma {:induction false} PaidOutIsProduct(users: seq<User>, id: Id, amount: real)
    ensures PaidOut(users, id, amount) == amount * UsersNamed(users, id) as real
  {
    if users != [] {
      PaidOutIsProduct(users[..|users| - 1], id, amount);
    }
  }

  /** What the users named `id` hold together. */
  function HeldBy(users: seq<User>, id: Id): real {
    if users == [] then 0.0
    else HeldBy(users[..|users| - 1], id) + if IsUser(users[|users| - 1], id) then Balance(users[|users| - 1]) else 0.0
  }

  /** What an action adds to the totals of the loans in a list. */
  function LoansGain(loans: seq<Loan>, action: Action): real {
    match action
    case ApproveLoan(loanId, _, amount) => PaidIn(loans, loanId, amount)
    case AddLoan(loan) => Funded(loan)
    case SetLoans(replacement) => SumFunded(replacement) - SumFunded(loans)
    case _ => 0.0
  }

  /** What an action adds to the balances of the users in a list. */
  function UsersGain(users: seq<User>, action: Action): real {
    match action
    case ApproveLoan(_, investorId, amount) => -PaidOut(users, investorId, amount)
    case UpdateUserBalance(userId, balance) => PaidOut(users, userId, balance) - HeldBy(users, userId)
    case DeleteUser(userId) => -HeldBy(users, userId)
    case SetUsers(replacement) => SumBalances(replacement) - SumBalances(users)
    case _ => 0.0
  }

  /** What an event adds to the value of a state. */
  function Created(state: State, event: Event): real {
    LoansGain(state.loans, event.action) + UsersGain(state.users, event.action)
  }

  lemma Distribute(amount: real, m: real, n: real)
    ensures amount * m - amount * n == amount * (m - n)
  {
  }

  /** An approval creates its amount once per matching loan and destroys it once per matching user. */
  lemma CreatedIsProduct(state: State, loanId: Id, investorId: Id, amount: real, now: int)
    ensures Created(state, Event(ApproveLoan(loanId, investorId, amount), now)) ==
            amount * (LoansNamed(state.loans, loanId) as real - UsersNamed(state.users, investorId) as real)
  {
    PaidInIsProduct(state.loans, loanId, amount);
    PaidOutIsProduct(state.users, investorId, amount);
    Distribute(amount, LoansNamed(state.loans, loanId) as real, UsersNamed(state.users, investorId) as real);
  }

  /** An event that keeps the loan list. */
  lemma {:induction false} FundingGrows(loans: seq<Loan>, event: Event)
    requires !event.action.SetLoans? && !event.action.AddLoan?
    ensures var after := LoansAfter(loans, event);
            && (forall id, amount :: PaidIn(after, id, amount) == PaidIn(loans, id, amount))
            && SumFunded(after) == SumFunded(loans) + LoansGain(loans, event.action)
  {
    if loans != [] {
      var n := |loans| - 1;
      var after := LoansAfter(loans, event);
      assert after[..n] == LoansAfter(loans[..n], event);
      FundingGrows(loans[..n], event);
      EventKeepsGap(loans[n], event);
      assert [event][..0] == [];
    }
  }

  /** An action that keeps the user list. */
  lemma {:induction false} BalancesGrow(users: seq<User>, action: Action)
    requires !action.SetUsers? && !action.DeleteUser?
    ensures var after := UsersAfter(users, action);
            && (forall id, amount :: PaidOut(after, id, amount) == PaidOut(users, id, amount))
            && SumBalances(after) == SumBalances(users) + UsersGain(users, action)
  {
    if users != [] {
      var n := |users| - 1;
      var after := UsersAfter(users, action);
      assert after[..n] == UsersAfter(users[..n], action);
      BalancesGrow(users[..n], action);
    }
  }

  lemma {:induction false} WithoutSplits(a: seq<User>, b: seq<User>, id: Id)
    ensures WithoutUser(a + b, id) == WithoutUser(a, id) + WithoutUser(b, id)
  {
    if a == [] {
      assert a + b == b;
    } else {
      assert (a + b)[1..] == a[1..] + b;
      WithoutSplits(a[1..], b, id);
    }
  }

  /** One more user at the end stays exactly if he is not named `id`. */
  lemma WithoutUserNext(users: seq<User>, user: User, id: Id)
    ensures WithoutUser(users + [user], id) == WithoutUser(users, id) + if IsUser(user, id) then [] else [user]
  {
    WithoutSplits(users, [user], id);
    assert [user][1..] == [];
  }

  lemma SumBalancesNext(users: seq<User>, user: User)
    ensures SumBalances(users + [user]) == SumBalances(users) + Balance(user)
  {
    assert (users + [user])[..|users|] == users;
  }

  /** The list without the users named `id` consists of the others and holds what they hold. */
  lemma {:induction false} WithoutUserHolds(users: seq<User>, id: Id)
    ensures SumBalances(WithoutUser(users, id)) == SumBalances(users) - HeldBy(users, id)
    ensures forall u :: u in WithoutUser(users, id) <==> u in users && !IsUser(u, id)
  {
    if users != [] {
      var n := |users| - 1;
      WithoutUserHolds(users[..n], id);
      assert users == users[..n] + [users[n]];
      WithoutUserNext(users[..n], users[n], id);
      SumBalancesNext(WithoutUser(users[..n], id), users[n]);
      assert WithoutUser(users[..n], id) + [] == WithoutUser(users[..n], id);
    }
  }

  lemma LoansGrow(loans: seq<Loan>, event: Event)
    ensures SumFunded(LoansAfter(loans, event)) == SumFunded(loans) + LoansGain(loans, event.action)
  {
    match event.action
    case AddLoan(loan) => assert (loans + [loan])[..|loans|] == loans;
    case SetLoans(_) =>
    case _ => FundingGrows(loans, event);
  }

  lemma UsersGrow(users: seq<User>, action: Action)
    ensures SumBalances(UsersAfter(users, action)) == SumBalances(users) + UsersGain(users, action)
  {
    match action
    case DeleteUser(userId) => WithoutUserHolds(users, userId);
    case SetUsers(_) =>
    case _ => BalancesGrow(users, action);
  }

  /** Any event changes the value by what it creates. */
  lemma EventCreates(state: State, event: Event)
    ensures Value(Reduce(state, event)) == Value(state) + Created(state, event)
  {
    LoansGrow(state.loans, event);
    UsersGrow(state.users, event.action);
  }

  /** Deleting a user removes exactly the users of that name, and takes what they held out of the value. */
  lemma DeletionTakesBalances(state: State, userId: Id, now: int)
    ensures var after := Reduce(state, Event(DeleteUser(userId), now));
            && Value(after) == Value(state) - HeldBy(state.users, userId)
            && after.loans == state.loans
            && forall u :: u in after.users <==> u in state.users && u.id != userId && u.mongoId != Some(userId)
  {
    var event := Event(DeleteUser(userId), now);
    EventCreates(state, event);
    WithoutUserHolds(state.users, userId);
    assert Reduce(state, event).loans == state.loans;
  }

  /** What the events create together, each in the state it happens in. */
  function CreatedBy(state: State, events: seq<Event>): real {
    if events == [] then 0.0
    else
      var earlier := events[..|events| - 1];
      CreatedBy(state, earlier) + Created(Run(state, earlier), events[|events| - 1])
  }

  /** Main result: over any run the value changes by exactly what its events create. */
  lemma {:induction false} ValueIsAccounted(state: State, events: seq<Event>)
    ensures Value(Run(state, events)) == Value(state) + CreatedBy(state, events)
  {
    if events != [] {
      var earlier, event := events[..|events| - 1], events[|events| - 1];
      ValueIsAccounted(state, earlier);
      EventCreates(Run(state, earlier), event);
    }
  }

  /** Events that add or remove no user and no loan and set no balance outright. */
  predicate Transfers(event: Event) {
    match event.action
    case SetUsers(_) | SetLoans(_) | AddLoan(_) | DeleteUser(_) | UpdateUserBalance(_, _) => false
    case _ => true
  }

  lemma {:induction false} TransfersKeepPayees(state: State, events: seq<Event>)
    requires forall k :: 0 <= k < |events| ==> Transfers(events[k])
    ensures var after := Run(state, events);
            && (forall id, amount :: PaidIn(after.loans, id, amount) == PaidIn(state.loans, id, amount))
            && (forall id, amount :: PaidOut(after.users, id, amount) == PaidOut(state.users, id, amount))
  {
    if events != [] {
      var earlier, event := events[..|events| - 1], events[|events| - 1];
      TransfersKeepPayees(state, earlier);
      var before := Run(state, earlier);
      FundingGrows(before.loans, event);
      BalancesGrow(before.users, event.action);
    }
  }

  lemma MatchedCreatesNothing(start: State, state: State, event: Event)
    requires Transfers(event)
    requires forall id, amount :: PaidIn(state.loans, id, amount) == PaidIn(start.loans, id, amount)
    requires forall id, amount :: PaidOut(state.users, id, amount) == PaidOut(start.users, id, amount)
    requires event.action.ApproveLoan? ==>
      LoansNamed(start.loans, event.action.loanId) == UsersNamed(start.users, event.action.investorId) == 1
    ensures Created(state, event) == 0.0
  {
    if event.action.ApproveLoan? {
      assert Created(state, event) == Created(start, event);
      CreatedIsProduct(start, event.action.loanId, event.action.investorId, event.action.amount, event.now);
    }
  }

  /** Hence nothing is created or lost when every approval names one loan and one user. */
  lemma {:induction false} ValueIsConserved(state: State, events: seq<Event>)
    requires forall k :: 0 <= k < |events| ==> Transfers(events[k])
    requires forall k :: 0 <= k < |events| && events[k].action.ApproveLoan? ==>
      LoansNamed(state.loans, events[k].action.loanId) == UsersNamed(state.users, events[k].action.investorId) == 1
    ensures CreatedBy(state, events) == 0.0
    ensures Value(Run(state, events)) == Value(state)
  {
    ValueIsAccounted(state, events);
    if events != [] {
      var earlier, event := events[..|events| - 1], events[|events| - 1];
      ValueIsConserved(state, earlier);
      TransfersKeepPayees(state, earlier);
      MatchedCreatesNothing(state, Run(state, earlier), event);
    }
  }

  // ---------------------------------------------------------------- balances

  predicate Debits(user: User, event: Event) {
    event.action.ApproveLoan? && (user.id == event.action.investorId || user.mongoId == Some(event.action.investorId))
  }

  function Debited(user: User, events: seq<Event>): real {
    if events == [] then 0.0
    else
      Debited(user, events[..|events| - 1])
      + if Debits(user, events[|events| - 1]) then events[|events| - 1].action.amount else 0.0
  }

  /**
   A user's balance falls by the approvals in his name and nothing else; there is no guard, so it
   is negative exactly when they add up to more than he had.
   */
  lemma {:induction false} BalanceIsDebited(state: State, events: seq<Event>, i: nat)
    requires forall k :: 0 <= k < |events| ==> Transfers(events[k])
    requires i < |state.users|
    ensures i < |Run(state, events).users|
    ensures var before, after := state.users[i], Run(state, events).users[i];
            && after.id == before.id && after.mongoId == before.mongoId
            && Balance(after) == Balance(before) - Debited(before, events)
            && (Balance(after) < 0.0 <==> Debited(before, events) > Balance(before))
  {
    if events != [] {
      BalanceIsDebited(state, events[..|events| - 1], i);
    }
  }

  /** The signed-in user and his entry in the list show the same balance. */
  predicate InStep(state: State, i: nat)
    requires i < |state.users|
  {
    state.currentUser.Some? && Balance(state.currentUser.value) == Balance(state.users[i])
  }

  /** An approval debits the list only: the signed-in investor's own record is stale unless the amount is zero. */
  lemma ApprovalLeavesCurrentUserBehind(state: State, i: nat, event: Event)
    requires i < |state.users| && InStep(state, i) && Debits(state.users[i], event)
    ensures i < |Reduce(state, event).users|
    ensures InStep(Reduce(state, event), i) <==> event.action.amount == 0.0
  {
  }

  /** A state whose signed-in investor's balance goes stale with one approval. */
  lemma BalanceCanGoStale() returns (state: State, event: Event)
    ensures event.action.ApproveLoan? && |state.users| == |Reduce(state, event).users| == 1
    ensures state.currentUser == Some(state.users[0]) && InStep(state, 0)
    ensures Balance(Reduce(state, event).users[0]) == 60.0
    ensures Reduce(state, event).currentUser.Some? && Balance(Reduce(state, event).currentUser.value) == 100.0
  {
    var investor := User(2, None, Investor, Some(100.0));
    state := State(Some(investor), [investor], [Loan(1, 50.0, LoanApproved, None, None, None, None, None, None, None)]);
    event := Event(ApproveLoan(1, 2, 40.0), 0);
  }

  predicate SameUser(a: User, b: User) {
    a.id == b.id && a.mongoId == b.mongoId
  }

  /** The event neither signs anybody in nor changes who is in the list. */
  predicate KeepsUsers(event: Event) {
    !event.action.SetCurrentUser? && !event.action.SetUsers? && !event.action.DeleteUser?
  }

  /** How far the signed-in user's own balance is ahead of the one in the list after an action, if before by `lag`. */
  function LagAfter(user: User, lag: real, action: Action): real {
    match action
    case UpdateUserBalance(userId, _) => if IsUser(user, userId) then 0.0 else lag
    case ApproveLoan(_, investorId, amount) => if IsUser(user, investorId) then lag + amount else lag
    case _ => lag
  }

  /** The approvals in the user's name since his balance was last set, on top of the lag before if it was not set. */
  function Lag(user: User, before: real, events: seq<Event>): real {
    if events == [] then before
    else LagAfter(user, Lag(user, before, events[..|events| - 1]), events[|events| - 1].action)
  }

  lemma EventLags(state: State, event: Event, i: nat)
    requires KeepsUsers(event) && i < |state.users| && state.currentUser.Some?
    requires SameUser(state.currentUser.value, state.users[i])
    ensures var after := Reduce(state, event);
            && i < |after.users| && after.currentUser.Some?
            && SameUser(after.users[i], state.users[i]) && SameUser(after.currentUser.value, state.users[i])
            && Balance(after.currentUser.value) - Balance(after.users[i]) ==
               LagAfter(state.users[i], Balance(state.currentUser.value) - Balance(state.users[i]), event.action)
  {
  }

  /** Main result: over any run that keeps the users, the signed-in user's record is off by exactly the lag. */
  lemma {:induction false} CurrentUserLags(state: State, events: seq<Event>, i: nat)
    requires forall k :: 0 <= k < |events| ==> KeepsUsers(events[k])
    requires i < |state.users| && state.currentUser.Some?
    requires SameUser(state.currentUser.value, state.users[i])
    ensures var after := Run(state, events);
            var lag := Lag(state.users[i], Balance(state.currentUser.value) - Balance(state.users[i]), events);
            && i < |after.users| && after.currentUser.Some?
            && SameUser(after.users[i], state.users[i]) && SameUser(after.currentUser.value, state.users[i])
            && Balance(after.currentUser.value) - Balance(after.users[i]) == lag
            && (InStep(after, i) <==> lag == 0.0)
  {
    if events != [] {
      var earlier := events[..|events| - 1];
      CurrentUserLags(state, earlier, i);
      EventLags(Run(state, earlier), events[|events| - 1], i);
    }
  }

  // ---------------------------------------------------------------- releases

  /** An approval under the events that reach its loan after it was made. */
  predicate Matures(before: Approval, after: Approval) {
    || after == before
    || (&& before.status.Approved?
        && after.releaseDate.Some?
        && after == before.(status := Released, releaseDate := after.releaseDate))
  }

  lemma EventMatures(loan: Loan, event: Event, j: nat)
    requires j < |Approvals(loan)|
    ensures j < |Approvals(LoanAfter(loan, event))|
    ensures Matures(Approvals(loan)[j], Approvals(LoanAfter(loan, event))[j])
  {
  }

  /**
   Main result: over any run an approval is never lost, moved or altered; at most it turns from
   Approved to Released, once, and then keeps its release date.
   */
  lemma {:induction false} ApprovalsMature(loan: Loan, events: seq<Event>, j: nat)
    requires j < |Approvals(loan)|
    ensures j < |Approvals(RunLoan(loan, events))|
    ensures Matures(Approvals(loan)[j], Approvals(RunLoan(loan, events))[j])
  {
    if events != [] {
      var earlier := events[..|events| - 1];
      ApprovalsMature(loan, earlier, j);
      EventMatures(RunLoan(loan, earlier), events[|events| - 1], j);
    }
  }

  /** Releasing the same approvals again changes nothing, not even their dates. */
  lemma ReleaseIsIdempotent(loan: Loan, investorId: Id, first: int, second: int)
    ensures Release(Release(loan, investorId, first), investorId, second) == Release(loan, investorId, first)
  {
    var once := Release(loan, investorId, first);
    assert Approvals(Release(once, investorId, second)) == Approvals(once);
  }

  /** Some approval of the investor is waiting to be released. */
  predicate Releasable(loan: Loan, investorId: Id) {
    exists j ::
      0 <= j < |Approvals(loan)| && Approvals(loan)[j].investorId == investorId && Approvals(loan)[j].status.Approved?
  }

  /** Two releases on a loan commute unless they compete for the same approvals at different times. */
  lemma ReleasesCommuteIff(loan: Loan, a: Id, b: Id, first: int, second: int)
    ensures Release(Release(loan, a, first), b, second) == Release(Release(loan, b, second), a, first) <==>
            a != b || first == second || !Releasable(loan, a)
  {
    var x := Release(Release(loan, a, first), b, second);
    var y := Release(Release(loan, b, second), a, first);
    if a != b || first == second || !Releasable(loan, a) {
      forall j | 0 <= j < |Approvals(loan)|
        ensures Approvals(x)[j] == Approvals(y)[j]
      {
        var approval := Approvals(loan)[j];
        assert approval.investorId == a && approval.status.Approved? ==> Releasable(loan, a);
      }
      assert |Approvals(x)| == |Approvals(loan)| == |Approvals(y)|;
      assert Approvals(x) == Approvals(y);
    } else {
      var j :| 0 <= j < |Approvals(loan)| && Approvals(loan)[j].investorId == a && Approvals(loan)[j].status.Approved?;
      assert Approvals(x)[j].releaseDate == Some(first) && Approvals(y)[j].releaseDate == Some(second);
    }
  }

  lemma {:induction false} ReleasedAtMostAll(approvals: seq<Approval>)
    requires forall j :: 0 <= j < |approvals| ==> approvals[j].amount >= 0.0
    ensures SumReleased(approvals) <= SumAmounts(approvals)
  {
    if approvals != [] {
      ReleasedAtMostAll(approvals[..|approvals| - 1]);
    }
  }

  ghost predicate NonNegative(loan: Loan) {
    forall j :: 0 <= j < |Approvals(loan)| ==> Approvals(loan)[j].amount >= 0.0
  }

  lemma EventStaysNonNegative(loan: Loan, event: Event)
    requires NonNegative(loan)
    requires event.action.ApproveLoan? ==> event.action.amount >= 0.0
    ensures NonNegative(LoanAfter(loan, event))
  {
    forall j | 0 <= j < |Approvals(LoanAfter(loan, event))|
      ensures Approvals(LoanAfter(loan, event))[j].amount >= 0.0
    {
      if j < |Approvals(loan)| {
        EventMatures(loan, event, j);
      }
    }
  }

  lemma {:induction false} AmountsStayNonNegative(loan: Loan, events: seq<Event>)
    requires NonNegative(loan)
    requires forall k :: 0 <= k < |events| && events[k].action.ApproveLoan? ==> events[k].action.amount >= 0.0
    ensures NonNegative(RunLoan(loan, events))
  {
    if events != [] {
      AmountsStayNonNegative(loan, events[..|events| - 1]);
      EventStaysNonNegative(RunLoan(loan, events[..|events| - 1]), events[|events| - 1]);
    }
  }

  /** Main result: on a loan whose total matches its approvals, released money never exceeds the total. */
  lemma ReleasedNeverExceedsFunded(loan: Loan, events: seq<Event>)
    requires NonNegative(loan) && SumAmounts(Approvals(loan)) == Funded(loan)
    requires forall k :: 0 <= k < |events| && events[k].action.ApproveLoan? ==> events[k].action.amount >= 0.0
    ensures var after := RunLoan(loan, events); SumReleased(Approvals(after)) <= Funded(after)
  {
    FundingIsExact(loan, events);
    AmountsStayNonNegative(loan, events);
    ReleasedAtMostAll(Approvals(RunLoan(loan, events)));
  }
}
