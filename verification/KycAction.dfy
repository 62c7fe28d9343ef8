/**
 The server action: the nested branches that update a user document in place, proved to take
 exactly the guarded transitions of KycModel.
 */
module KycAction {
  import opened Options
  import opened KycModel

  datatype Response = Refused(why: Refusal) | Updated(notice: Option<Notice>, published: Option<Verdict>)

  class UserDocument {
    const id: nat
    const role: Role
    var kycStatus: Status
    var kycDocuments: seq<string>
    var kycRejectionReason: Option<string>
    var physicalMeetingDate: Option<int>
    var physicalMeetingStatus: Meeting
    var isKycVerified: bool
    var kycVerified: bool

    constructor (id: nat, role: Role)
      ensures this.id == id && this.role == role && View() == DEFAULTS
    {
      this.id, this.role := id, role;
      kycStatus, kycDocuments, kycRejectionReason := Unsubmitted, [], None;
      physicalMeetingDate, physicalMeetingStatus := None, Unplanned;
      isKycVerified, kycVerified := false, false;
    }

    function View(): Record
      reads this
    {
      Record(kycStatus, physicalMeetingStatus, physicalMeetingDate, kycRejectionReason,
             kycDocuments, isKycVerified, kycVerified)
    }

    /** The branches for the user's own account. */
    method UpdateAsOwner(request: Request, input: Input, ghost call: Call) returns (refusal: Option<Refusal>)
      requires !role.Admin? && call == Call(role, true, request)
      modifies this
      ensures var decision := DecideOn(role, old(View()), call, input);
              && View() == Outcome(old(View()), decision, input)
              && refusal == (if decision.Refuse? then Some(decision.why) else None)
    {
      var isInitialSubmission := request.status == Pending && request.meeting == None;
      var isMeetingSchedule := request.status == ApprovedStage1 && request.meeting == Some(Scheduled);
      if role.Investor? {
        if !isInitialSubmission {
          return Some(InvestorsMayOnlySubmit);
        }
        if kycStatus != Unsubmitted && kycStatus != Rejected {
          return Some(CannotResubmit);
        }
        if |input.documents| == 0 {
          return Some(DocumentsRequired);
        }
        kycStatus, kycDocuments, kycRejectionReason := Pending, input.documents, None;
        physicalMeetingDate, physicalMeetingStatus := None, Unplanned;
        isKycVerified, kycVerified := false, false;
      } else if isInitialSubmission {
        if kycStatus != Unsubmitted && kycStatus != Rejected {
          return Some(CannotResubmit);
        }
        if |input.documents| == 0 {
          return Some(DocumentsRequired);
        }
        kycStatus, kycDocuments, kycRejectionReason := Pending, input.documents, None;
        physicalMeetingDate, physicalMeetingStatus := None, Unplanned;
        isKycVerified, kycVerified := false, false;
      } else if isMeetingSchedule {
        if kycStatus != ApprovedStage1 {
          return Some(StageOneFirst);
        }
        if physicalMeetingStatus != Unplanned && physicalMeetingStatus != Rescheduled {
          return Some(MeetingAlreadyRequested);
        }
        if input.date.None? || !(input.date.value > input.today) {
          return Some(FutureDateRequired);
        }
        kycStatus, physicalMeetingStatus, physicalMeetingDate := ApprovedStage1, Scheduled, input.date;
      } else {
        return Some(NotForDrivers);
      }
      return None;
    }

    /** The branches for an admin acting on an investor. */
    method UpdateInvestor(request: Request, input: Input, ghost call: Call) returns (refusal: Option<Refusal>)
      requires role.Investor? && call.actor.Admin? && call.request == request
      modifies this
      ensures var decision := DecideOn(role, old(View()), call, input);
              && View() == Outcome(old(View()), decision, input)
              && refusal == (if decision.Refuse? then Some(decision.why) else None)
    {
      if request.status == ApprovedStage2 && request.meeting == None {
        if kycStatus != Pending {
          return Some(InvestorNotApprovable);
        }
        kycStatus, kycRejectionReason := ApprovedStage2, None;
        physicalMeetingStatus, physicalMeetingDate := Unplanned, None;
        isKycVerified, kycVerified := true, true;
      } else if request.status == Rejected && request.meeting == None {
        if kycStatus != Pending {
          return Some(InvestorNotRejectable);
        }
        if input.reason.None? {
          return Some(ReasonRequired);
        }
        kycStatus, kycRejectionReason := Rejected, input.reason;
        physicalMeetingStatus, physicalMeetingDate := Unplanned, None;
        isKycVerified, kycVerified := false, false;
      } else {
        return Some(UnsupportedForInvestor);
      }
      if |input.documents| > 0 {
        kycDocuments := input.documents;
      }
      return None;
    }

    /** The branches for an admin concluding a driver's meeting. */
    method ConcludeMeeting(request: Request, input: Input, ghost call: Call) returns (refusal: Option<Refusal>)
      requires role.Driver? && call.actor.Admin? && call.request == request
      requires request.meeting.None? ==> request.status != ApprovedStage1 && request.status != Rejected
      requires request.meeting != Some(Approved) && request.meeting != Some(Rescheduled)
      modifies this
      ensures var decision := DecideOn(role, old(View()), call, input);
              && View() == Outcome(old(View()), decision, input)
              && refusal == (if decision.Refuse? then Some(decision.why) else None)
    {
      if request.status == ApprovedStage2 && request.meeting == Some(Completed) {
        if kycStatus != PendingStage2 || physicalMeetingStatus != Approved {
          return Some(MeetingNotCompletable);
        }
        kycStatus, physicalMeetingStatus, kycRejectionReason := ApprovedStage2, Completed, None;
        isKycVerified, kycVerified := true, true;
      } else if request.status == Rejected && request.meeting == Some(RejectedStage2) {
        if kycStatus != PendingStage2 || physicalMeetingStatus != Approved {
          return Some(MeetingNotRejectable);
        }
        if input.reason.None? {
          return Some(ReasonRequired);
        }
        kycStatus, physicalMeetingStatus, kycRejectionReason := Rejected, RejectedStage2, input.reason;
        isKycVerified, kycVerified := false, false;
      } else {
        return Some(UnsupportedForAdmin);
      }
      if |input.documents| > 0 {
        kycDocuments := input.documents;
      }
      return None;
    }

    /** The branches for an admin deciding on a driver's meeting. */
    method UpdateMeeting(request: Request, input: Input, ghost call: Call) returns (refusal: Option<Refusal>)
      requires role.Driver? && call.actor.Admin? && call.request == request
      requires request.meeting.None? ==> request.status != ApprovedStage1 && request.status != Rejected
      modifies this
      ensures var decision := DecideOn(role, old(View()), call, input);
              && View() == Outcome(old(View()), decision, input)
              && refusal == (if decision.Refuse? then Some(decision.why) else None)
    {
      var meeting := request.meeting;
      if meeting == Some(Approved) {
        if physicalMeetingStatus !in {Scheduled, Unplanned, Rescheduled} {
          return Some(MeetingNotApprovable);
        }
        if physicalMeetingDate.None? && input.date.None? {
          return Some(MeetingDateRequired);
        }
        physicalMeetingStatus := Approved;
        physicalMeetingDate := if input.date.Some? then input.date else physicalMeetingDate;
        kycStatus, kycRejectionReason := PendingStage2, None;
      } else if meeting == Some(Rescheduled) {
        if physicalMeetingStatus != Scheduled && physicalMeetingStatus != Approved {
          return Some(MeetingNotActive);
        }
        if input.date.None? || !(input.date.value > input.today) {
          return Some(FutureRescheduleRequired);
        }
        physicalMeetingStatus, physicalMeetingDate := Rescheduled, input.date;
        kycStatus, kycRejectionReason := ApprovedStage1, None;
      } else {
        refusal := ConcludeMeeting(request, input, call);
        return;
      }
      if |input.documents| > 0 {
        kycDocuments := input.documents;
      }
      return None;
    }

    /** The branches for an admin acting on a driver. */
    method UpdateDriver(request: Request, input: Input, ghost call: Call) returns (refusal: Option<Refusal>)
      requires role.Driver? && call.actor.Admin? && call.request == request
      modifies this
      ensures var decision := DecideOn(role, old(View()), call, input);
              && View() == Outcome(old(View()), decision, input)
              && refusal == (if decision.Refuse? then Some(decision.why) else None)
    {
      if request.status == ApprovedStage1 && request.meeting == None {
        if kycStatus != Pending {
          return Some(StageOneNotApprovable);
        }
        kycStatus, kycRejectionReason := ApprovedStage1, None;
        physicalMeetingStatus, physicalMeetingDate := Unplanned, None;
        isKycVerified, kycVerified := false, false;
      } else if request.status == Rejected && request.meeting == None {
        if kycStatus != Pending {
          return Some(StageOneNotRejectable);
        }
        if input.reason.None? {
          return Some(ReasonRequired);
        }
        kycStatus, kycRejectionReason := Rejected, input.reason;
        physicalMeetingStatus, physicalMeetingDate := Unplanned, None;
        isKycVerified, kycVerified := false, false;
      } else {
        refusal := UpdateMeeting(request, input, call);
        return;
      }
      if |input.documents| > 0 {
        kycDocuments := input.documents;
      }
      return None;
    }
  }

  /**
   A missing session, actor or user is None or null. A refused call leaves the user as it was; an
   accepted one makes exactly the decided transition and announces it.
   */
  method UpdateUserKycStatus(hasSession: bool, actor: UserDocument?, user: UserDocument?, request: Request,
                             supported: string -> bool)
    returns (outcome: Response)
    modifies user
    ensures outcome.Updated? ==> hasSession && actor != null && user != null
    ensures !hasSession ==> outcome == Refused(Unauthorized)
    ensures hasSession && actor == null ==> outcome == Refused(ActorNotFound)
    ensures hasSession && actor != null && user == null ==> outcome == Refused(UserNotFound)
    ensures user != null && outcome.Refused? ==> user.View() == old(user.View())
    ensures hasSession && actor != null && user != null && !actor.role.Admin? && actor.id != user.id ==>
              outcome.Refused? && user.View() == old(user.View())
    ensures outcome.Updated? ==>
              && outcome.published.Some? == outcome.notice.Some?
              && (outcome.published == Some(VerdictRejected) ==> user.kycStatus.Rejected?)
              && (outcome.published == Some(VerdictApproved) ==> user.kycStatus.ApprovedStage2?)
              && (outcome.published == Some(VerdictReview) ==>
                    !user.kycStatus.Rejected? && !user.kycStatus.ApprovedStage2?)
    ensures hasSession && actor != null && user != null ==>
              var call := Call(actor.role, actor.id == user.id, request);
              var before, input := old(user.View()), Normalize(supported, request);
              var decision := Decide(user.role, supported, before, call);
              && user.View() == After(user.role, supported, before, call)
              && (decision.Refuse? ==> outcome == Refused(decision.why))
              && (decision.Accept? ==>
                    var notice := NoticeOf(user.role, before, user.View(), input);
                    outcome == Updated(notice, if notice.Some? then Some(VerdictOf(user.kycStatus)) else None))
  {
    if !hasSession {
      return Refused(Unauthorized);
    }
    if actor == null {
      return Refused(ActorNotFound);
    }
    if user == null {
      return Refused(UserNotFound);
    }
    if user.role.Admin? {
      return Refused(RoleWithoutKyc);
    }
    var oldKycStatus, oldMeeting := user.kycStatus, user.physicalMeetingStatus;
    var input := Normalize(supported, request);
    var own := actor.id == user.id;
    ghost var call := Call(actor.role, own, request);
    var refusal;
    if actor.role == user.role {
      if !own {
        return Refused(NotOwnKyc);
      }
      refusal := user.UpdateAsOwner(request, input, call);
    } else if actor.role.Admin? {
      if user.role.Investor? {
        refusal := user.UpdateInvestor(request, input, call);
      } else {
        refusal := user.UpdateDriver(request, input, call);
      }
    } else {
      return Refused(CannotManage);
    }
    if refusal.Some? {
      return Refused(refusal.value);
    }
    var notice := BuildNotice(user.role, oldKycStatus, user.kycStatus, oldMeeting, user.physicalMeetingStatus,
                              user.physicalMeetingDate, input.reason);
    outcome := Updated(notice, if notice.Some? then Some(VerdictOf(user.kycStatus)) else None);
  }
}
