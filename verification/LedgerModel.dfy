/** The users, loans and approvals of contexts/platform-context.tsx, and the reducer over them. */
module LedgerModel {
  import opened Options

  /** An identifier, only ever compared for equality. */
  type Id = nat

  datatype Role = Driver | Investor | Admin

  datatype User = User(id: Id, mongoId: Option<Id>, role: Role, availableBalance: Option<real>)

  datatype ApprovalStatus = Pending | Approved | Released

  datatype Approval = Approval(investorId: Id, amount: real, approvedDate: int, status: ApprovalStatus,
                               releaseDate: Option<int>)

  datatype LoanStatus = LoanPending | UnderReview | LoanApproved | LoanRejected | LoanActive | LoanCompleted

  /** The numbers a JavaScript division can give. */
  datatype Number = Finite(value: real) | NaN | Infinity | NegativeInfinity

  datatype Loan = Loan(id: Id, requestedAmount: real, status: LoanStatus, adminNotes: Option<string>,
                       reviewedDate: Option<int>, approvedDate: Option<int>,
                       investorApprovals: Option<seq<Approval>>, totalFunded: Option<real>,
                       fundingProgress: Option<Number>, remainingAmount: Option<real>)

  datatype State = State(currentUser: Option<User>, users: seq<User>, loans: seq<Loan>)

  /** `Elsewhere` is any action that changes neither users nor loans. */
  datatype Action =
    | SetCurrentUser(user: Option<User>)
    | SetUsers(users: seq<User>)
    | SetLoans(loans: seq<Loan>)
    | AddLoan(loan: Loan)
    | UpdateLoanStatus(loanId: Id, status: LoanStatus, adminNotes: Option<string>)
    | UpdateUserRole(userId: Id, role: Role)
    | DeleteUser(userId: Id)
    | UpdateUserBalance(userId: Id, balance: real)
    | ApproveLoan(loanId: Id, investorId: Id, amount: real)
    | ReleaseFunds(loanId: Id, investorId: Id)
    | Elsewhere

  /** An action and the clock reading that the reducer takes while handling it. */
  datatype Event = Event(action: Action, now: int)

  // ---------------------------------------------------------------- arithmetic

  function Max(a: real, b: real): real {
    if a < b then b else a
  }

  function Percentage(part: real, whole: real): Number {
    if whole != 0.0 then Finite(part / whole * 100.0)
    else if part > 0.0 then Infinity
    else if part < 0.0 then NegativeInfinity
    else NaN
  }

  function AtMost100(n: Number): Number {
    match n
    case Finite(v) => Finite(if v > 100.0 then 100.0 else v)
    case Infinity => Finite(100.0)
    case _ => n
  }

  function Funded(loan: Loan): real {
    loan.totalFunded.GetOr(0.0)
  }

  function Balance(user: User): real {
    user.availableBalance.GetOr(0.0)
  }

  function Approvals(loan: Loan): seq<Approval> {
    loan.investorApprovals.GetOr([])
  }

  // ---------------------------------------------------------------- the reducer

  function Approve(loan: Loan, investorId: Id, amount: real, now: int): Loan {
    var total := Funded(loan) + amount;
    loan.(investorApprovals := Some(Approvals(loan) + [Approval(investorId, amount, now, Approved, None)]),
          totalFunded := Some(total),
          fundingProgress := Some(AtMost100(Percentage(total, loan.requestedAmount))),
          remainingAmount := Some(Max(loan.requestedAmount - total, 0.0)))
  }

  function ReleaseOne(approval: Approval, investorId: Id, now: int): Approval {
    if approval.investorId == investorId && approval.status.Approved?
    then approval.(status := Released, releaseDate := Some(now))
    else approval
  }

  function ReleaseAll(approvals: seq<Approval>, investorId: Id, now: int): seq<Approval> {
    seq(|approvals|, i requires 0 <= i < |approvals| => ReleaseOne(approvals[i], investorId, now))
  }

  function Release(loan: Loan, investorId: Id, now: int): Loan {
    match loan.investorApprovals
    case None => loan
    case Some(approvals) => loan.(investorApprovals := Some(ReleaseAll(approvals, investorId, now)))
  }

  /** What an event does to a loan that stays in the list. */
  function LoanAfter(loan: Loan, event: Event): Loan {
    match event.action
    case UpdateLoanStatus(loanId, status, adminNotes) =>
      if loan.id != loanId then loan
      else loan.(status := status, adminNotes := adminNotes,
                 reviewedDate := if status.UnderReview? then Some(event.now) else loan.reviewedDate,
                 approvedDate := if status.LoanApproved? then Some(event.now) else loan.approvedDate)
    case ApproveLoan(loanId, investorId, amount) =>
      if loan.id == loanId then Approve(loan, investorId, amount, event.now) else loan
    case ReleaseFunds(loanId, investorId) =>
      if loan.id == loanId then Release(loan, investorId, event.now) else loan
    case _ => loan
  }

  predicate IsUser(user: User, id: Id) {
    user.id == id || user.mongoId == Some(id)
  }

  /** What an action does to a user that stays in the list. */
  function UserAfter(user: User, action: Action): User {
    match action
    case UpdateUserRole(userId, role) => if IsUser(user, userId) then user.(role := role) else user
    case UpdateUserBalance(userId, balance) =>
      if IsUser(user, userId) then user.(availableBalance := Some(balance)) else user
    case ApproveLoan(_, investorId, amount) =>
      if IsUser(user, investorId) then user.(availableBalance := Some(Balance(user) - amount)) else user
    case _ => user
  }

  function LoansAfter(loans: seq<Loan>, event: Event): seq<Loan> {
    match event.action
    case SetLoans(replacement) => replacement
    case AddLoan(loan) => loans + [loan]
    case _ => seq(|loans|, i requires 0 <= i < |loans| => LoanAfter(loans[i], event))
  }

  function WithoutUser(users: seq<User>, id: Id): seq<User> {
    if users == [] then []
    else (if IsUser(users[0], id) then [] else [users[0]]) + WithoutUser(users[1..], id)
  }

  function UsersAfter(users: seq<User>, action: Action): seq<User> {
    match action
    case SetUsers(replacement) => replacement
    case DeleteUser(userId) => WithoutUser(users, userId)
    case _ => seq(|users|, i requires 0 <= i < |users| => UserAfter(users[i], action))
  }

  function CurrentUserAfter(currentUser: Option<User>, action: Action): Option<User> {
    match action
    case SetCurrentUser(user) => user
    case UpdateUserBalance(userId, balance) =>
      if currentUser.Some? && IsUser(currentUser.value, userId)
      then Some(currentUser.value.(availableBalance := Some(balance)))
      else currentUser
    case _ => currentUser
  }

  function Reduce(state: State, event: Event): State {
    State(CurrentUserAfter(state.currentUser, event.action),
          UsersAfter(state.users, event.action),
          LoansAfter(state.loans, event))
  }

  function Run(state: State, events: seq<Event>): State {
    if events == [] then state else Reduce(Run(state, events[..|events| - 1]), events[|events| - 1])
  }
}
