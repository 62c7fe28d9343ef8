/**
 What one call of the KYC action does, law by law in the terms of the caller, the request and the
 record: who may change what, when each call is accepted, what becomes of each field, and why a call
 is refused.
 */
module KycLaws {
  import opened Options
  import opened KycText
  import opened KycModel

  // ---------------------------------------------------------------- who

  /** Nobody but the owner and admins changes a record. */
  lemma OutsidersAreRefused(role: Role, supported: string -> bool, r: Record, call: Call)
    requires !call.own && !call.actor.Admin?
    ensures Decide(role, supported, r, call).Refuse?
    ensures After(role, supported, r, call) == r
  {
  }

  /** All that an owner can do is to submit documents and, as a driver, to ask for a meeting. */
  lemma OwnersOnlySubmitAndSchedule(role: Role, supported: string -> bool, r: Record, call: Call)
    requires !call.actor.Admin?
    ensures var next := After(role, supported, r, call);
            || next == r
            || (call.own && call.actor == role && next.status.Pending? && (r.status.Unsubmitted? || r.status.Rejected?))
            || (call.own && call.actor == role == Driver && next.meeting.Scheduled?
                && next.status.ApprovedStage1? && r.status.ApprovedStage1?)
  {
  }

  /** Only an admin passes a pending record, approves a meeting, approves fully or rejects. */
  lemma OnlyAdminsDecide(role: Role, supported: string -> bool, r: Record, call: Call)
    requires After(role, supported, r, call).status != r.status
    requires !After(role, supported, r, call).status.Pending?
    ensures call.actor.Admin?
  {
    if !call.actor.Admin? {
      OwnersOnlySubmitAndSchedule(role, supported, r, call);
    }
  }

  // ---------------------------------------------------------------- when

  /** The request is for a day after today. */
  predicate AsksForLater(q: Request) {
    q.date.Day? && q.date.day > q.today
  }

  lemma OwnerIsAcceptedIff(role: Role, supported: string -> bool, r: Record, call: Call)
    requires !call.actor.Admin?
    ensures var q := call.request;
            Decide(role, supported, r, call).Accept? <==>
            && call.own && call.actor == role
            && (|| (&& q.status == Pending && q.meeting == None
                    && (r.status == Unsubmitted || r.status == Rejected)
                    && SanitizeDocuments(supported, q.documents) != [])
                || (&& role == Driver && q.status == ApprovedStage1 && q.meeting == Some(Scheduled)
                    && r.status == ApprovedStage1 && (r.meeting == Unplanned || r.meeting == Rescheduled)
                    && AsksForLater(q)))
  {
  }

  lemma AdminOnInvestorIsAcceptedIff(supported: string -> bool, r: Record, call: Call)
    requires call.actor.Admin?
    ensures var q := call.request;
            Decide(Investor, supported, r, call).Accept? <==>
            && q.meeting == None && r.status == Pending
            && (q.status == ApprovedStage2 || (q.status == Rejected && NormalizeReason(q.rejectionReason).Some?))
  {
  }

  lemma AdminOnStageOneIsAcceptedIff(supported: string -> bool, r: Record, call: Call)
    requires call.actor.Admin? && call.request.meeting == None
    ensures var q := call.request;
            Decide(Driver, supported, r, call).Accept? <==>
            && r.status == Pending
            && (q.status == ApprovedStage1 || (q.status == Rejected && NormalizeReason(q.rejectionReason).Some?))
  {
  }

  lemma AdminOnMeetingIsAcceptedIff(supported: string -> bool, r: Record, call: Call)
    requires call.actor.Admin? && call.request.meeting != None
    ensures var q := call.request;
            Decide(Driver, supported, r, call).Accept? <==>
            match q.meeting.value
            case Approved =>
              && (r.meeting == Scheduled || r.meeting == Unplanned || r.meeting == Rescheduled)
              && (r.date.Some? || q.date.Day?)
            case Rescheduled => (r.meeting == Scheduled || r.meeting == Meeting.Approved) && AsksForLater(q)
            case Completed => q.status == ApprovedStage2 && r.status == PendingStage2 && r.meeting == Meeting.Approved
            case RejectedStage2 =>
              && q.status == Rejected && r.status == PendingStage2 && r.meeting == Meeting.Approved
              && NormalizeReason(q.rejectionReason).Some?
            case _ => false
  {
  }

  // ---------------------------------------------------------------- what

  /** A named transition leads to the statuses that the request asks for. */
  lemma NamedStatuses(role: Role, r: Record, call: Call, input: Input)
    requires Named(role, call).Accept?
    ensures var q, next := call.request, Effect(r, Named(role, call).transition, input);
            && next.meeting == q.meeting.GetOr(Unplanned)
            && next.status == (if q.meeting == Some(Approved) then PendingStage2
                               else if q.meeting == Some(Rescheduled) then ApprovedStage1
                               else q.status)
  {
  }

  lemma EffectDocuments(r: Record, t: Transition, input: Input)
    requires Obstacle(r, t, input).None?
    ensures var next := Effect(r, t, input);
            next.documents ==
              if next.meeting == Scheduled || input.documents == [] then r.documents else input.documents
  {
  }

  lemma EffectDate(r: Record, t: Transition, input: Input)
    requires Obstacle(r, t, input).None?
    ensures var next := Effect(r, t, input);
            match next.meeting
            case Unplanned => next.date == None
            case Scheduled | Rescheduled =>
              next.date == input.date && input.date.Some? && input.date.value > input.today
            case Approved => next.date == (if input.date.Some? then input.date else r.date) && next.date.Some?
            case Completed | RejectedStage2 => next.date == r.date
  {
  }

  lemma EffectReason(r: Record, t: Transition, input: Input)
    requires Obstacle(r, t, input).None?
    ensures var next := Effect(r, t, input);
            && (next.status.Rejected? ==> next.reason == input.reason && input.reason.Some?)
            && (!next.status.Rejected? ==> next.reason == if next.meeting == Scheduled then r.reason else None)
  {
  }

  lemma EffectFlags(r: Record, t: Transition, input: Input)
    requires Obstacle(r, t, input).None?
    ensures var next := Effect(r, t, input);
            if next.meeting == Scheduled || next.meeting == Approved || next.meeting == Rescheduled
            then next.isKycVerified == r.isKycVerified && next.kycVerified == r.kycVerified
            else next.isKycVerified == next.kycVerified == next.status.ApprovedStage2?
  {
  }

  /** The fields of a record after an accepted call, by the statuses that it has then. */
  predicate Follows(supported: string -> bool, q: Request, r: Record, next: Record) {
    var documents, reason := SanitizeDocuments(supported, q.documents), NormalizeReason(q.rejectionReason);
    var arranged := next.meeting == Scheduled || next.meeting == Approved || next.meeting == Rescheduled;
    && next.documents == (if next.meeting == Scheduled || documents == [] then r.documents else documents)
    && (match next.meeting
        case Unplanned => next.date == None
        case Scheduled | Rescheduled => AsksForLater(q) && next.date == Some(q.date.day)
        case Approved => next.date == (if q.date.Day? then Some(q.date.day) else r.date) && next.date.Some?
        case Completed | RejectedStage2 => next.date == r.date)
    && (if next.status.Rejected? then next.reason == reason && reason.Some?
        else next.reason == if next.meeting == Scheduled then r.reason else None)
    && (if arranged then next.isKycVerified == r.isKycVerified && next.kycVerified == r.kycVerified
        else next.isKycVerified == next.kycVerified == next.status.ApprovedStage2?)
  }

  /**
   Main result: an accepted call brings the record to the statuses it asks for; usable documents replace
   those on record unless a meeting is being asked for; a new meeting gets the later day asked for, an
   approved one keeps its day unless another is given; a rejection puts the reason given on record and
   everything else but a request for a meeting wipes it; the flags follow the status unless a meeting is
   being arranged.
   */
  lemma AcceptedCallsFollow(role: Role, supported: string -> bool, r: Record, call: Call)
    requires Decide(role, supported, r, call).Accept?
    ensures var q, next := call.request, After(role, supported, r, call);
            && next.meeting == q.meeting.GetOr(Unplanned)
            && next.status == (if q.meeting == Some(Approved) then PendingStage2
                               else if q.meeting == Some(Rescheduled) then ApprovedStage1
                               else q.status)
            && Follows(supported, q, r, next)
  {
    var t, input := Named(role, call).transition, Normalize(supported, call.request);
    assert After(role, supported, r, call) == Effect(r, t, input) && Obstacle(r, t, input).None?;
    NamedStatuses(role, r, call, input);
    EffectDocuments(r, t, input);
    EffectDate(r, t, input);
    EffectReason(r, t, input);
    EffectFlags(r, t, input);
  }

  // ---------------------------------------------------------------- why not

  /** What a refusal says of the caller, the request and the record, given the cleaned-up documents and reason. */
  predicate Explains(why: Refusal, role: Role, documents: seq<string>, reason: Option<string>, r: Record, call: Call) {
    var q := call.request;
    match why
    case Unauthorized | ActorNotFound | UserNotFound => false
    case RoleWithoutKyc => role == Admin
    case NotOwnKyc => call.actor == role && !call.own
    case CannotManage => call.actor != role && call.actor != Admin
    case InvestorsMayOnlySubmit => call.actor == role == Investor && (q.status != Pending || q.meeting != None)
    case NotForDrivers =>
      && call.actor == role == Driver
      && (q.status, q.meeting) != (Pending, None) && (q.status, q.meeting) != (ApprovedStage1, Some(Scheduled))
    case UnsupportedForInvestor =>
      && role == Investor && call.actor == Admin
      && (q.status, q.meeting) != (ApprovedStage2, None) && (q.status, q.meeting) != (Rejected, None)
    case UnsupportedForAdmin =>
      && role == Driver && call.actor == Admin
      && (q.status, q.meeting) != (ApprovedStage1, None) && (q.status, q.meeting) != (Rejected, None)
      && q.meeting != Some(Approved) && q.meeting != Some(Rescheduled)
      && (q.status, q.meeting) != (ApprovedStage2, Some(Completed))
      && (q.status, q.meeting) != (Rejected, Some(RejectedStage2))
    case CannotResubmit => q.status == Pending && r.status != Unsubmitted && r.status != Rejected
    case DocumentsRequired => q.status == Pending && documents == []
    case StageOneFirst => q.meeting == Some(Scheduled) && r.status != ApprovedStage1
    case MeetingAlreadyRequested =>
      q.meeting == Some(Scheduled) && r.status == ApprovedStage1 && r.meeting != Unplanned && r.meeting != Rescheduled
    case FutureDateRequired => q.meeting == Some(Scheduled) && !AsksForLater(q)
    case InvestorNotApprovable => role == Investor && q.status == ApprovedStage2 && r.status != Pending
    case InvestorNotRejectable => role == Investor && q.status == Rejected && r.status != Pending
    case StageOneNotApprovable => role == Driver && q.status == ApprovedStage1 && r.status != Pending
    case StageOneNotRejectable => role == Driver && q.status == Rejected && q.meeting == None && r.status != Pending
    case ReasonRequired => q.status == Rejected && reason == None
    case MeetingNotApprovable =>
      && q.meeting == Some(Approved)
      && r.meeting != Scheduled && r.meeting != Unplanned && r.meeting != Rescheduled
    case MeetingDateRequired => q.meeting == Some(Approved) && r.date == None && !q.date.Day?
    case MeetingNotActive => q.meeting == Some(Rescheduled) && r.meeting != Scheduled && r.meeting != Approved
    case FutureRescheduleRequired => q.meeting == Some(Rescheduled) && !AsksForLater(q)
    case MeetingNotCompletable => q.meeting == Some(Completed) && (r.status != PendingStage2 || r.meeting != Approved)
    case MeetingNotRejectable =>
      q.meeting == Some(RejectedStage2) && (r.status != PendingStage2 || r.meeting != Approved)
  }

  lemma NamedRefusalsAreTrue(role: Role, documents: seq<string>, reason: Option<string>, r: Record, call: Call)
    requires Named(role, call).Refuse?
    ensures Explains(Named(role, call).why, role, documents, reason, r, call)
  {
  }

  lemma ObstaclesAreTrue(role: Role, r: Record, call: Call, input: Input)
    requires Named(role, call).Accept? && Obstacle(r, Named(role, call).transition, input).Some?
    requires input.date == NormalizeDate(call.request.date) && input.today == call.request.today
    ensures Explains(Obstacle(r, Named(role, call).transition, input).value, role,
                     input.documents, input.reason, r, call)
  {
  }

  /** A refusal never gives a reason that does not hold. */
  lemma RefusalsAreTrue(role: Role, supported: string -> bool, r: Record, call: Call)
    requires Decide(role, supported, r, call).Refuse?
    ensures Explains(Decide(role, supported, r, call).why, role, SanitizeDocuments(supported, call.request.documents),
                     NormalizeReason(call.request.rejectionReason), r, call)
  {
    var input := Normalize(supported, call.request);
    if Named(role, call).Refuse? {
      NamedRefusalsAreTrue(role, input.documents, input.reason, r, call);
    } else {
      ObstaclesAreTrue(role, r, call, input);
    }
  }

  // ---------------------------------------------------------------- notifications

  /** An investor is told of a submission and of what became of a pending one. */
  lemma InvestorNotices(before: Status, status: Status, oldMeeting: Meeting, meeting: Meeting,
                        date: Option<int>, reason: Option<string>)
    ensures var notice := BuildNotice(Investor, before, status, oldMeeting, meeting, date, reason);
            && (notice == Some(Notice(DocumentsSubmitted, None, None)) <==>
                (before == Unsubmitted || before == Rejected) && status == Pending)
            && (notice == Some(Notice(InvestorApproved, None, None)) <==>
                before == Pending && status == ApprovedStage2)
            && (notice == Some(Notice(KycRejected, None, reason)) <==> before == Pending && status == Rejected)
            && (notice == None <==> !(|| ((before == Unsubmitted || before == Rejected) && status == Pending)
                                      || (before == Pending && (status == ApprovedStage2 || status == Rejected))))
  {
  }

  /** A driver is told of the first of seven things that happened: submission and stage 1 come before the meeting. */
  lemma DriverNotices(before: Status, status: Status, oldMeeting: Meeting, meeting: Meeting,
                      date: Option<int>, reason: Option<string>)
    ensures var notice := BuildNotice(Driver, before, status, oldMeeting, meeting, date, reason);
            var submitted := (before == Unsubmitted || before == Rejected) && status == Pending;
            var passed := before == Pending && status == ApprovedStage1;
            var failed := before == Pending && status == Rejected;
            var first := submitted || passed || failed;
            var approved, moved := oldMeeting == Scheduled && meeting == Meeting.Approved, meeting == Rescheduled;
            var done := before == PendingStage2 && status == ApprovedStage2;
            && (submitted <==> notice == Some(Notice(DocumentsSubmitted, None, None)))
            && (passed <==> notice == Some(Notice(StageOneApproved, None, None)))
            && (failed <==> notice == Some(Notice(KycRejected, None, reason)))
            && (!first && approved <==> notice == Some(Notice(MeetingApproved, date, None)))
            && (!first && moved <==> notice == Some(Notice(MeetingRescheduled, date, reason)))
            && (!first && !approved && !moved && done <==> notice == Some(Notice(FullyApproved, None, None)))
            && (!first && !done && meeting == RejectedStage2 <==>
                notice == Some(Notice(StageTwoRejected, None, reason)))
            && (notice == None <==> !first && !approved && !moved && !done && meeting != RejectedStage2)
  {
  }
}
