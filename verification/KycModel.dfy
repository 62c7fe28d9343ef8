/**
 The two-stage KYC workflow of actions/user.ts as guarded transitions: which transition a
 request names, what stands in its way, and what it does to the record.
 */
module KycModel {
  import opened Options
  import opened KycText

  datatype Status = Unsubmitted | Pending | ApprovedStage1 | PendingStage2 | ApprovedStage2 | Rejected

  datatype Meeting = Unplanned | Scheduled | Approved | Rescheduled | Completed | RejectedStage2

  datatype Role = Driver | Investor | Admin

  /** The KYC fields of a user; a date is a day number. */
  datatype Record = Record(status: Status, meeting: Meeting, date: Option<int>, reason: Option<string>,
                           documents: seq<string>, isKycVerified: bool, kycVerified: bool)

  /** The defaults of the user schema. */
  const DEFAULTS := Record(Unsubmitted, Unplanned, None, None, [], false, false)

  datatype DateInput = NoDate | InvalidDate | Day(day: int)

  /** The arguments of one call, the clock included. */
  datatype Request = Request(status: Status, documents: seq<string>, rejectionReason: Option<string>,
                             date: DateInput, meeting: Option<Meeting>, today: int)

  /** A request by an account of role `actor`; `own` says whether it is the user's own account. */
  datatype Call = Call(actor: Role, own: bool, request: Request)

  datatype Refusal =
    | Unauthorized | ActorNotFound | UserNotFound | RoleWithoutKyc | NotOwnKyc | InvestorsMayOnlySubmit
    | CannotResubmit | DocumentsRequired | StageOneFirst | MeetingAlreadyRequested | FutureDateRequired
    | NotForDrivers | InvestorNotApprovable | InvestorNotRejectable | ReasonRequired | UnsupportedForInvestor
    | StageOneNotApprovable | StageOneNotRejectable | MeetingNotApprovable | MeetingDateRequired
    | MeetingNotActive | FutureRescheduleRequired | MeetingNotCompletable | MeetingNotRejectable
    | UnsupportedForAdmin | CannotManage

  datatype Transition =
    | Submit | ScheduleMeeting
    | ApproveInvestor | RejectInvestor
    | ApproveStageOne | RejectStageOne
    | ApproveMeeting | RescheduleMeeting | CompleteMeeting | RejectMeeting

  datatype Decision = Refuse(why: Refusal) | Accept(transition: Transition)

  /** The normalized arguments. */
  datatype Input = Input(documents: seq<string>, reason: Option<string>, date: Option<int>, today: int)

  function NormalizeDate(date: DateInput): Option<int> {
    if date.Day? then Some(date.day) else None
  }

  function Normalize(supported: string -> bool, request: Request): Input {
    Input(SanitizeDocuments(supported, request.documents), NormalizeReason(request.rejectionReason),
          NormalizeDate(request.date), request.today)
  }

  predicate Future(date: Option<int>, today: int) {
    date.Some? && date.value > today
  }

  /** The transition that a call names, whatever the record says. */
  function Named(role: Role, call: Call): Decision {
    var status, meeting := call.request.status, call.request.meeting;
    match role
    case Admin => Refuse(RoleWithoutKyc)
    case Investor =>
      if call.actor == Investor then
        if !call.own then Refuse(NotOwnKyc)
        else if status.Pending? && meeting.None? then Accept(Submit)
        else Refuse(InvestorsMayOnlySubmit)
      else if call.actor == Admin then
        if status.ApprovedStage2? && meeting.None? then Accept(ApproveInvestor)
        else if status.Rejected? && meeting.None? then Accept(RejectInvestor)
        else Refuse(UnsupportedForInvestor)
      else Refuse(CannotManage)
    case Driver =>
      if call.actor == Driver then
        if !call.own then Refuse(NotOwnKyc)
        else if status.Pending? && meeting.None? then Accept(Submit)
        else if status.ApprovedStage1? && meeting == Some(Scheduled) then Accept(ScheduleMeeting)
        else Refuse(NotForDrivers)
      else if call.actor == Admin then
        match meeting
        case None =>
          if status.ApprovedStage1? then Accept(ApproveStageOne)
          else if status.Rejected? then Accept(RejectStageOne)
          else Refuse(UnsupportedForAdmin)
        case Some(Approved) => Accept(ApproveMeeting)
        case Some(Rescheduled) => Accept(RescheduleMeeting)
        case Some(Completed) => if status.ApprovedStage2? then Accept(CompleteMeeting) else Refuse(UnsupportedForAdmin)
        case Some(RejectedStage2) => if status.Rejected? then Accept(RejectMeeting) else Refuse(UnsupportedForAdmin)
        case Some(_) => Refuse(UnsupportedForAdmin)
      else Refuse(CannotManage)
  }

  /** What keeps a transition from happening, if anything. */
  function Obstacle(r: Record, t: Transition, input: Input): Option<Refusal> {
    match t
    case Submit =>
      if !r.status.Unsubmitted? && !r.status.Rejected? then Some(CannotResubmit)
      else if input.documents == [] then Some(DocumentsRequired)
      else None
    case ScheduleMeeting =>
      if r.status != ApprovedStage1 then Some(StageOneFirst)
      else if !r.meeting.Unplanned? && !r.meeting.Rescheduled? then Some(MeetingAlreadyRequested)
      else if !Future(input.date, input.today) then Some(FutureDateRequired)
      else None
    case ApproveInvestor => if r.status != Pending then Some(InvestorNotApprovable) else None
    case RejectInvestor =>
      if r.status != Pending then Some(InvestorNotRejectable)
      else if input.reason.None? then Some(ReasonRequired)
      else None
    case ApproveStageOne => if r.status != Pending then Some(StageOneNotApprovable) else None
    case RejectStageOne =>
      if r.status != Pending then Some(StageOneNotRejectable)
      else if input.reason.None? then Some(ReasonRequired)
      else None
    case ApproveMeeting =>
      if !r.meeting.Scheduled? && !r.meeting.Unplanned? && !r.meeting.Rescheduled? then Some(MeetingNotApprovable)
      else if r.date.None? && input.date.None? then Some(MeetingDateRequired)
      else None
    case RescheduleMeeting =>
      if !r.meeting.Scheduled? && !r.meeting.Approved? then Some(MeetingNotActive)
      else if !Future(input.date, input.today) then Some(FutureRescheduleRequired)
      else None
    case CompleteMeeting =>
      if r.status != PendingStage2 || r.meeting != Approved then Some(MeetingNotCompletable) else None
    case RejectMeeting =>
      if r.status != PendingStage2 || r.meeting != Approved then Some(MeetingNotRejectable)
      else if input.reason.None? then Some(ReasonRequired)
      else None
  }

  /** What a transition does; every other field keeps its value. */
  function Effect(r: Record, t: Transition, input: Input): Record {
    var r :=
      if t.Submit? || (!t.ScheduleMeeting? && input.documents != []) then r.(documents := input.documents) else r;
    match t
    case Submit => Closed(r, Pending, None, false)
    case ScheduleMeeting => r.(status := ApprovedStage1, meeting := Scheduled, date := input.date)
    case ApproveInvestor => Closed(r, ApprovedStage2, None, true)
    case RejectInvestor => Closed(r, Rejected, input.reason, false)
    case ApproveStageOne => Closed(r, ApprovedStage1, None, false)
    case RejectStageOne => Closed(r, Rejected, input.reason, false)
    case ApproveMeeting =>
      r.(status := PendingStage2, meeting := Approved, reason := None,
         date := if input.date.Some? then input.date else r.date)
    case RescheduleMeeting =>
      r.(status := ApprovedStage1, meeting := Rescheduled, reason := None, date := input.date)
    case CompleteMeeting =>
      r.(status := ApprovedStage2, meeting := Completed, reason := None, isKycVerified := true, kycVerified := true)
    case RejectMeeting =>
      r.(status := Rejected, meeting := RejectedStage2, reason := input.reason,
         isKycVerified := false, kycVerified := false)
  }

  /** A transition that also wipes the meeting. */
  function Closed(r: Record, status: Status, reason: Option<string>, verified: bool): Record {
    Record(status, Unplanned, None, reason, r.documents, verified, verified)
  }

  function DecideOn(role: Role, r: Record, call: Call, input: Input): Decision {
    var named := Named(role, call);
    if named.Refuse? then named
    else
      var obstacle := Obstacle(r, named.transition, input);
      if obstacle.Some? then Refuse(obstacle.value) else named
  }

  function Outcome(r: Record, decision: Decision, input: Input): Record {
    if decision.Refuse? then r else Effect(r, decision.transition, input)
  }

  function Decide(role: Role, supported: string -> bool, r: Record, call: Call): Decision {
    DecideOn(role, r, call, Normalize(supported, call.request))
  }

  /** The record after a call. */
  function After(role: Role, supported: string -> bool, r: Record, call: Call): Record {
    Outcome(r, Decide(role, supported, r, call), Normalize(supported, call.request))
  }

  // ---------------------------------------------------------------- notifications

  datatype Title =
    | DocumentsSubmitted | InvestorApproved | KycRejected | StageOneApproved
    | MeetingApproved | MeetingRescheduled | FullyApproved | StageTwoRejected

  /** A notification with the values its message quotes. */
  datatype Notice = Notice(title: Title, date: Option<int>, reason: Option<string>)

  function BuildNotice(role: Role, oldStatus: Status, newStatus: Status, oldMeeting: Meeting, newMeeting: Meeting,
                       date: Option<int>, reason: Option<string>): Option<Notice> {
    if role.Investor? then
      if (oldStatus.Unsubmitted? || oldStatus.Rejected?) && newStatus.Pending? then
        Some(Notice(DocumentsSubmitted, None, None))
      else if oldStatus.Pending? && newStatus.ApprovedStage2? then Some(Notice(InvestorApproved, None, None))
      else if oldStatus.Pending? && newStatus.Rejected? then Some(Notice(KycRejected, None, reason))
      else None
    else if (oldStatus.Unsubmitted? || oldStatus.Rejected?) && newStatus.Pending? then
      Some(Notice(DocumentsSubmitted, None, None))
    else if oldStatus.Pending? && newStatus.ApprovedStage1? then Some(Notice(StageOneApproved, None, None))
    else if oldStatus.Pending? && newStatus.Rejected? then Some(Notice(KycRejected, None, reason))
    else if oldMeeting.Scheduled? && newMeeting.Approved? then Some(Notice(MeetingApproved, date, None))
    else if newMeeting.Rescheduled? then Some(Notice(MeetingRescheduled, date, reason))
    else if oldStatus.PendingStage2? && newStatus.ApprovedStage2? then Some(Notice(FullyApproved, None, None))
    else if newMeeting.RejectedStage2? then Some(Notice(StageTwoRejected, None, reason))
    else None
  }

  /** The notification of the step from `r` to `next`. */
  function NoticeOf(role: Role, r: Record, next: Record, input: Input): Option<Notice> {
    BuildNotice(role, r.status, next.status, r.meeting, next.meeting, next.date, input.reason)
  }

  datatype Verdict = VerdictRejected | VerdictApproved | VerdictReview

  function VerdictOf(status: Status): Verdict {
    match status
    case Rejected => VerdictRejected
    case ApprovedStage2 => VerdictApproved
    case _ => VerdictReview
  }
}
