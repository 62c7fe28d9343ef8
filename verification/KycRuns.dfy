/**
 What holds over every run of the KYC workflow: a run is any sequence of calls, accepted or
 refused, made on a record that starts from the schema defaults.
 */
module KycRuns {
  import opened Options
  import opened KycText
  import opened KycModel
  import opened KycLaws

  /** The record after a run that starts from `r`. */
  function RunFrom(role: Role, supported: string -> bool, r: Record, calls: seq<Call>): Record {
    if calls == [] then r
    else After(role, supported, RunFrom(role, supported, r, calls[..|calls| - 1]), calls[|calls| - 1])
  }

  function Run(role: Role, supported: string -> bool, calls: seq<Call>): Record {
    RunFrom(role, supported, DEFAULTS, calls)
  }

  // ---------------------------------------------------------------- the invariant of the record

  /** The pairs of statuses that go together. */
  predicate Paired(role: Role, status: Status, meeting: Meeting) {
    match status
    case Unsubmitted | Pending => meeting.Unplanned?
    case Rejected => meeting.Unplanned? || (role.Driver? && meeting.RejectedStage2?)
    case ApprovedStage1 => role.Driver? && (meeting.Unplanned? || meeting.Scheduled? || meeting.Rescheduled?)
    case PendingStage2 => role.Driver? && meeting.Approved?
    case ApprovedStage2 => if role.Driver? then meeting.Completed? else meeting.Unplanned?
  }

  /** The coupled fields agree. */
  predicate Sound(role: Role, r: Record) {
    && Paired(role, r.status, r.meeting)
    && r.isKycVerified == r.kycVerified == r.status.ApprovedStage2?
    && (r.date.Some? <==> !r.meeting.Unplanned?)
    && (r.reason.Some? <==> r.status.Rejected?)
    && |r.documents| <= 10
    && (r.status.Pending? ==> r.documents != [])
    && (role.Investor? && !r.status.Unsubmitted? ==> r.documents != [])
  }

  /** The transitions that a user of the given role can undergo. */
  predicate Allowed(role: Role, t: Transition) {
    match t
    case Submit => !role.Admin?
    case ApproveInvestor | RejectInvestor => role.Investor?
    case _ => role.Driver?
  }

  lemma NamedIsAllowed(role: Role, call: Call)
    requires Named(role, call).Accept?
    ensures Allowed(role, Named(role, call).transition)
  {
  }

  lemma EffectIsSound(role: Role, r: Record, t: Transition, input: Input)
    requires Sound(role, r) && Allowed(role, t) && Obstacle(r, t, input).None?
    requires |input.documents| <= MAX_DOCUMENTS
    ensures Sound(role, Effect(r, t, input))
  {
  }

  lemma StepIsSound(role: Role, supported: string -> bool, r: Record, call: Call)
    requires Sound(role, r)
    ensures Sound(role, After(role, supported, r, call))
  {
    var decision := Decide(role, supported, r, call);
    if decision.Accept? {
      NamedIsAllowed(role, call);
      EffectIsSound(role, r, decision.transition, Normalize(supported, call.request));
    }
  }

  /** Main result: the invariant of the record, over every run. */
  lemma {:induction false} RunIsSound(role: Role, supported: string -> bool, calls: seq<Call>)
    ensures Sound(role, Run(role, supported, calls))
  {
    if calls != [] {
      RunIsSound(role, supported, calls[..|calls| - 1]);
      StepIsSound(role, supported, Run(role, supported, calls[..|calls| - 1]), calls[|calls| - 1]);
    }
  }

  // ---------------------------------------------------------------- who can do what

  /** Main result: whatever others than the owner and admins call, the record stays as it is. */
  lemma {:induction false} OutsidersChangeNothing(role: Role, supported: string -> bool, r: Record, calls: seq<Call>)
    requires forall k :: 0 <= k < |calls| ==> !calls[k].own && !calls[k].actor.Admin?
    ensures RunFrom(role, supported, r, calls) == r
  {
    if calls != [] {
      var earlier := calls[..|calls| - 1];
      OutsidersChangeNothing(role, supported, r, earlier);
      OutsidersAreRefused(role, supported, r, calls[|calls| - 1]);
    }
  }

  /** Without any admin, a user gets as far as a submission and no further. */
  lemma {:induction false} OwnersOnlyGetToPending(role: Role, supported: string -> bool, calls: seq<Call>)
    requires forall k :: 0 <= k < |calls| ==> !calls[k].actor.Admin?
    ensures Run(role, supported, calls).status.Unsubmitted? || Run(role, supported, calls).status.Pending?
  {
    if calls != [] {
      var earlier := calls[..|calls| - 1];
      OwnersOnlyGetToPending(role, supported, earlier);
      OwnersOnlySubmitAndSchedule(role, supported, Run(role, supported, earlier), calls[|calls| - 1]);
    }
  }

  // ---------------------------------------------------------------- histories

  /** One accepted call: what it did, the records around it, and the documents it stored, if any. */
  datatype Step = Step(transition: Transition, before: Record, after: Record, stored: seq<string>)

  function StepOf(role: Role, supported: string -> bool, r: Record, call: Call): Step
    requires Decide(role, supported, r, call).Accept?
  {
    var t := Decide(role, supported, r, call).transition;
    Step(t, r, After(role, supported, r, call),
         if t.ScheduleMeeting? then [] else SanitizeDocuments(supported, call.request.documents))
  }

  /** The accepted calls of a run, in order. */
  function History(role: Role, supported: string -> bool, calls: seq<Call>): seq<Step> {
    if calls == [] then []
    else
      var earlier, call := calls[..|calls| - 1], calls[|calls| - 1];
      var before := Run(role, supported, earlier);
      if Decide(role, supported, before, call).Refuse? then History(role, supported, earlier)
      else History(role, supported, earlier) + [StepOf(role, supported, before, call)]
  }

  function Last<T>(s: seq<T>): T
    requires s != []
  {
    s[|s| - 1]
  }

  function Target(t: Transition): Status {
    match t
    case Submit => Pending
    case ScheduleMeeting | ApproveStageOne | RescheduleMeeting => ApprovedStage1
    case ApproveInvestor | CompleteMeeting => ApprovedStage2
    case RejectInvestor | RejectStageOne | RejectMeeting => Rejected
    case ApproveMeeting => PendingStage2
  }

  /** What every accepted step satisfies. */
  predicate Fits(role: Role, step: Step) {
    && Allowed(role, step.transition)
    && Sound(role, step.before)
    && step.after.status == Target(step.transition)
    && (step.transition.CompleteMeeting? || step.transition.RejectMeeting? ==> step.before.status.PendingStage2?)
    && (step.transition.CompleteMeeting? ==> step.after.date == step.before.date)
    && (step.transition.ApproveStageOne? ==> step.before.status.Pending?)
    && (step.transition.ScheduleMeeting? ==> step.before.status.ApprovedStage1?)
    && (step.transition.RescheduleMeeting? ==> step.before.status.ApprovedStage1? || step.before.status.PendingStage2?)
    && (step.transition.ApproveMeeting? ==> !step.before.status.PendingStage2? && !step.before.status.ApprovedStage2?)
    && step.after.documents == (if step.stored == [] then step.before.documents else step.stored)
  }

  lemma EffectFits(role: Role, r: Record, t: Transition, input: Input)
    requires Sound(role, r) && Allowed(role, t) && Obstacle(r, t, input).None?
    ensures Fits(role, Step(t, r, Effect(r, t, input), if t.ScheduleMeeting? then [] else input.documents))
  {
  }

  lemma StepFits(role: Role, supported: string -> bool, r: Record, call: Call)
    requires Sound(role, r) && Decide(role, supported, r, call).Accept?
    ensures Fits(role, StepOf(role, supported, r, call))
  {
    NamedIsAllowed(role, call);
    EffectFits(role, r, Decide(role, supported, r, call).transition, Normalize(supported, call.request));
  }

  function End(h: seq<Step>): Record {
    if h == [] then DEFAULTS else Last(h).after
  }

  /** A chain of accepted steps from the defaults. */
  predicate Chain(role: Role, h: seq<Step>) {
    h == [] || (Chain(role, h[..|h| - 1]) && Fits(role, Last(h)) && Last(h).before == End(h[..|h| - 1]))
  }

  /** The history of a run is a chain that ends where the run ends. */
  lemma {:induction false} HistoryIsChain(role: Role, supported: string -> bool, calls: seq<Call>)
    ensures Chain(role, History(role, supported, calls))
    ensures End(History(role, supported, calls)) == Run(role, supported, calls)
  {
    if calls != [] {
      var earlier, call := calls[..|calls| - 1], calls[|calls| - 1];
      HistoryIsChain(role, supported, earlier);
      RunIsSound(role, supported, earlier);
      var before := Run(role, supported, earlier);
      if Decide(role, supported, before, call).Accept? {
        StepFits(role, supported, before, call);
        var h := History(role, supported, calls);
        assert h[..|h| - 1] == History(role, supported, earlier);
      }
    }
  }

  lemma VerifiedChain(h: seq<Step>)
    requires Chain(Driver, h) && End(h).status.ApprovedStage2?
    ensures |h| >= 2 && h[|h| - 2].transition.ApproveMeeting? && h[|h| - 1].transition.CompleteMeeting?
    ensures h[|h| - 1].before == h[|h| - 2].after && h[|h| - 2].after.date == End(h).date
  {
    var g := h[..|h| - 1];
    assert End(g).status.PendingStage2?;
    assert Last(g) == h[|h| - 2];
  }

  /**
   Main result: a driver who is fully approved got there by a meeting approval directly followed,
   among accepted calls, by the completion of that meeting; the approved date is still on record.
   */
  lemma VerifiedDriverMet(supported: string -> bool, calls: seq<Call>, h: seq<Step>, r: Record)
    requires h == History(Driver, supported, calls) && r == Run(Driver, supported, calls)
    requires r.status.ApprovedStage2?
    ensures |h| >= 2 && h[|h| - 2].transition.ApproveMeeting? && h[|h| - 1].transition.CompleteMeeting?
    ensures h[|h| - 1].before == h[|h| - 2].after && h[|h| - 1].after == r
    ensures h[|h| - 2].after.date == r.date != None
  {
    HistoryIsChain(Driver, supported, calls);
    RunIsSound(Driver, supported, calls);
    VerifiedChain(h);
  }

  lemma VerifiedRefuses(role: Role, supported: string -> bool, r: Record, call: Call)
    requires Sound(role, r) && r.status.ApprovedStage2?
    ensures Decide(role, supported, r, call).Refuse?
  {
    if Named(role, call).Accept? {
      NamedIsAllowed(role, call);
    }
  }

  /** Main result: full approval is final; whatever is called, every call is refused and nothing ever changes. */
  lemma VerifiedIsFinal(role: Role, supported: string -> bool, r: Record, calls: seq<Call>)
    requires Sound(role, r) && r.status.ApprovedStage2?
    ensures RunFrom(role, supported, r, calls) == r
    ensures forall k :: 0 <= k < |calls| ==>
              Decide(role, supported, RunFrom(role, supported, r, calls[..k]), calls[k]).Refuse?
  {
    forall k | 0 <= k <= |calls|
      ensures RunFrom(role, supported, r, calls[..k]) == r
    {
      StaysVerified(role, supported, r, calls[..k]);
    }
    assert calls[..|calls|] == calls;
    forall k | 0 <= k < |calls|
      ensures Decide(role, supported, r, calls[k]).Refuse?
    {
      VerifiedRefuses(role, supported, r, calls[k]);
    }
  }

  lemma {:induction false} StaysVerified(role: Role, supported: string -> bool, r: Record, calls: seq<Call>)
    requires Sound(role, r) && r.status.ApprovedStage2?
    ensures RunFrom(role, supported, r, calls) == r
  {
    if calls != [] {
      StaysVerified(role, supported, r, calls[..|calls| - 1]);
      VerifiedRefuses(role, supported, r, calls[|calls| - 1]);
    }
  }

  // ---------------------------------------------------------------- documents

  /** The documents that the last storing step stored. */
  function LastStored(h: seq<Step>): seq<string> {
    if h == [] then []
    else if Last(h).stored != [] then Last(h).stored
    else LastStored(h[..|h| - 1])
  }

  lemma {:induction false} ChainStores(role: Role, h: seq<Step>)
    requires Chain(role, h)
    ensures End(h).documents == LastStored(h)
  {
    if h != [] {
      ChainStores(role, h[..|h| - 1]);
    }
  }

  lemma {:induction false} NothingStored(h: seq<Step>)
    ensures LastStored(h) == [] <==> forall k :: 0 <= k < |h| ==> h[k].stored == []
  {
    if h != [] {
      NothingStored(h[..|h| - 1]);
      assert forall k :: 0 <= k < |h| - 1 ==> h[..|h| - 1][k] == h[k];
    }
  }

  /**
   The documents on record are those of the last accepted call that stored usable ones; there are
   none exactly when no accepted call of the run stored any.
   */
  lemma DocumentsOnRecord(role: Role, supported: string -> bool, calls: seq<Call>)
    ensures var h, r := History(role, supported, calls), Run(role, supported, calls);
            && r.documents == LastStored(h)
            && (r.documents == [] <==> forall k :: 0 <= k < |h| ==> h[k].stored == [])
  {
    HistoryIsChain(role, supported, calls);
    ChainStores(role, History(role, supported, calls));
    NothingStored(History(role, supported, calls));
  }

  // ---------------------------------------------------------------- stage 1

  /** Since the last submission or rejection, stage 1 was approved. */
  predicate PassedStageOne(h: seq<Step>) {
    && h != []
    && (match Last(h).transition
        case ApproveStageOne => true
        case Submit | RejectStageOne | RejectMeeting => false
        case _ => PassedStageOne(h[..|h| - 1]))
  }

  /** Since the last submission or rejection, a meeting was approved while stage 1 was not. */
  predicate SkippedStageOne(h: seq<Step>) {
    && h != []
    && (match Last(h).transition
        case Submit | RejectStageOne | RejectMeeting => false
        case ApproveMeeting => !Last(h).before.status.ApprovedStage1? || SkippedStageOne(h[..|h| - 1])
        case _ => SkippedStageOne(h[..|h| - 1]))
  }

  predicate BeforeStageOne(status: Status) {
    status.Unsubmitted? || status.Pending? || status.Rejected?
  }

  lemma {:induction false} StageOneOfChain(h: seq<Step>)
    requires Chain(Driver, h)
    ensures BeforeStageOne(End(h).status) ==> !PassedStageOne(h) && !SkippedStageOne(h)
    ensures !BeforeStageOne(End(h).status) ==> PassedStageOne(h) == !SkippedStageOne(h)
  {
    if h != [] {
      StageOneOfChain(h[..|h| - 1]);
    }
  }

  /**
   A fully approved driver need not have passed stage 1: he passed it exactly when no meeting was
   approved before stage 1 was, a condition each meeting approval could check on the old status.
   */
  lemma VerifiedPassedStageOneIff(supported: string -> bool, calls: seq<Call>)
    requires Run(Driver, supported, calls).status.ApprovedStage2?
    ensures PassedStageOne(History(Driver, supported, calls)) <==> !SkippedStageOne(History(Driver, supported, calls))
  {
    HistoryIsChain(Driver, supported, calls);
    StageOneOfChain(History(Driver, supported, calls));
  }

  function Ask(actor: Role, status: Status, meeting: Option<Meeting>, documents: seq<string>,
               reason: Option<string>, day: int): Call {
    Call(actor, true, Request(status, documents, reason, Day(day), meeting, day - 1))
  }

  const APPROVE_MEETING := Ask(Admin, PendingStage2, Some(Approved), [], None, 1)

  const COMPLETE_MEETING := Ask(Admin, ApprovedStage2, Some(Completed), [], None, 1)

  lemma RunOfTwo(role: Role, supported: string -> bool, first: Call, second: Call)
    ensures Run(role, supported, [first]) == After(role, supported, DEFAULTS, first)
    ensures Run(role, supported, [first, second]) == After(role, supported, Run(role, supported, [first]), second)
  {
    var one, two := [first], [first, second];
    assert one[..|one| - 1] == [] && one[|one| - 1] == first;
    assert Run(role, supported, one[..|one| - 1]) == DEFAULTS;
    assert two[..|two| - 1] == one && two[|two| - 1] == second;
  }

  /** Two admin calls approve a driver fully, without documents and without stage 1. */
  lemma ShortcutToVerified(supported: string -> bool)
    ensures var calls := [APPROVE_MEETING, COMPLETE_MEETING];
            var r := Run(Driver, supported, calls);
            && r.status.ApprovedStage2? && r.isKycVerified
            && r.documents == [] && SkippedStageOne(History(Driver, supported, calls))
  {
    var calls := [APPROVE_MEETING, COMPLETE_MEETING];
    RunOfTwo(Driver, supported, APPROVE_MEETING, COMPLETE_MEETING);
    assert calls[..1] == [APPROVE_MEETING] && [APPROVE_MEETING][..0] == [];
    var h, g := History(Driver, supported, calls), History(Driver, supported, [APPROVE_MEETING]);
    assert History(Driver, supported, []) == [];
    assert g == [StepOf(Driver, supported, DEFAULTS, APPROVE_MEETING)];
    assert h[..|h| - 1] == g;
  }

  // ---------------------------------------------------------------- distance to full approval

  /** How many accepted calls a sound record is away from full approval. */
  function Distance(role: Role, r: Record): nat {
    if r.status.ApprovedStage2? then 0
    else if role.Investor? then if r.status.Pending? then 1 else 2
    else match r.meeting
         case Approved => 1
         case RejectedStage2 => 3
         case _ => 2
  }

  lemma EffectComesOneCloser(role: Role, r: Record, t: Transition, input: Input)
    requires Sound(role, r) && Allowed(role, t) && Obstacle(r, t, input).None?
    ensures Distance(role, Effect(r, t, input)) + 1 >= Distance(role, r)
  {
  }

  lemma StepsComeOneCloser(role: Role, supported: string -> bool, r: Record, call: Call)
    requires Sound(role, r) && !role.Admin?
    ensures Distance(role, After(role, supported, r, call)) + 1 >= Distance(role, r)
  {
    if Decide(role, supported, r, call).Accept? {
      NamedIsAllowed(role, call);
      EffectComesOneCloser(role, r, Decide(role, supported, r, call).transition, Normalize(supported, call.request));
    }
  }

  /** No run reaches full approval in fewer calls than the distance. */
  lemma {:induction false} DistanceIsNeeded(role: Role, supported: string -> bool, r: Record, calls: seq<Call>)
    requires Sound(role, r) && !role.Admin?
    ensures Sound(role, RunFrom(role, supported, r, calls))
    ensures Distance(role, RunFrom(role, supported, r, calls)) + |calls| >= Distance(role, r)
  {
    if calls != [] {
      var earlier, call := calls[..|calls| - 1], calls[|calls| - 1];
      DistanceIsNeeded(role, supported, r, earlier);
      var before := RunFrom(role, supported, r, earlier);
      StepIsSound(role, supported, before, call);
      StepsComeOneCloser(role, supported, before, call);
    }
  }

  /** A call that brings a sound record one step closer to full approval. */
  function NextCall(role: Role, r: Record, document: string): Call {
    if role.Investor? then
      if r.status.Pending? then Ask(Admin, ApprovedStage2, None, [], None, 1)
      else Ask(Investor, Pending, None, [document], None, 1)
    else match r.meeting
         case Approved => COMPLETE_MEETING
         case RejectedStage2 => Ask(Driver, Pending, None, [document], None, 1)
         case _ => APPROVE_MEETING
  }

  /** Full approval takes documents: the record has not passed the submission that it needs. */
  predicate NeedsDocuments(role: Role, r: Record) {
    if role.Investor? then r.status.Unsubmitted? || r.status.Rejected? else r.meeting.RejectedStage2?
  }

  /** The transition that this call names. */
  function NextTransition(role: Role, r: Record): Transition {
    if role.Investor? then if r.status.Pending? then ApproveInvestor else Submit
    else match r.meeting
         case Approved => CompleteMeeting
         case RejectedStage2 => Submit
         case _ => ApproveMeeting
  }

  lemma NextEffectComesCloser(role: Role, r: Record, input: Input)
    requires Sound(role, r) && !role.Admin? && Distance(role, r) > 0
    requires input.date.Some? && (NeedsDocuments(role, r) ==> input.documents != [])
    ensures var t := NextTransition(role, r);
            var next := Effect(r, t, input);
            && Obstacle(r, t, input).None?
            && Distance(role, next) == Distance(role, r) - 1
            && (NeedsDocuments(role, next) ==> NeedsDocuments(role, r))
  {
  }

  lemma NextInput(role: Role, supported: string -> bool, r: Record, document: string)
    requires !role.Admin? && (Usable(supported, document) || !NeedsDocuments(role, r))
    ensures var input := Normalize(supported, NextCall(role, r, document).request);
            input.date.Some? && (NeedsDocuments(role, r) ==> input.documents != [])
  {
    var documents := NextCall(role, r, document).request.documents;
    if NeedsDocuments(role, r) {
      assert documents == [document];
      UsableAreStored(supported, [document]);
    }
  }

  lemma NextCallComesCloser(role: Role, supported: string -> bool, r: Record, document: string)
    requires Sound(role, r) && !role.Admin? && (Usable(supported, document) || !NeedsDocuments(role, r))
    requires Distance(role, r) > 0
    ensures var next := After(role, supported, r, NextCall(role, r, document));
            Distance(role, next) == Distance(role, r) - 1 && (NeedsDocuments(role, next) ==> NeedsDocuments(role, r))
  {
    var call := NextCall(role, r, document);
    var input := Normalize(supported, call.request);
    assert Named(role, call) == Accept(NextTransition(role, r));
    NextInput(role, supported, r, document);
    NextEffectComesCloser(role, r, input);
    assert DecideOn(role, r, call, input) == Accept(NextTransition(role, r));
  }

  /** A shortest way to full approval. */
  lemma {:induction false} ShortestWay(role: Role, supported: string -> bool, r: Record, document: string)
    returns (calls: seq<Call>)
    requires Sound(role, r) && !role.Admin? && (Usable(supported, document) || !NeedsDocuments(role, r))
    ensures |calls| == Distance(role, r) <= 3
    ensures RunFrom(role, supported, r, calls).status.ApprovedStage2?
    decreases Distance(role, r)
  {
    if Distance(role, r) == 0 {
      calls := [];
    } else {
      var call := NextCall(role, r, document);
      NextCallComesCloser(role, supported, r, document);
      StepIsSound(role, supported, r, call);
      var rest := ShortestWay(role, supported, After(role, supported, r, call), document);
      calls := [call] + rest;
      RunsCompose(role, supported, r, [call], rest);
      assert [call][..0] == [];
    }
  }

  lemma EffectNeedsDocuments(role: Role, r: Record, t: Transition, input: Input)
    requires Sound(role, r) && Allowed(role, t) && NeedsDocuments(role, r) && !role.Admin?
    requires input.documents == []
    ensures Obstacle(r, t, input).Some?
  {
  }

  /** Where no document is usable, a record that needs one never changes again. */
  lemma {:induction false} StuckWithoutDocuments(role: Role, supported: string -> bool, r: Record, calls: seq<Call>)
    requires Sound(role, r) && !role.Admin? && NeedsDocuments(role, r)
    requires forall d :: !Usable(supported, d)
    ensures RunFrom(role, supported, r, calls) == r
  {
    if calls != [] {
      var call := calls[|calls| - 1];
      StuckWithoutDocuments(role, supported, r, calls[..|calls| - 1]);
      NothingUsable(supported, call.request.documents);
      if Named(role, call).Accept? {
        NamedIsAllowed(role, call);
        EffectNeedsDocuments(role, r, Named(role, call).transition, Normalize(supported, call.request));
      }
    }
  }

  /** Some document passes the checks on a reference. */
  ghost predicate HasUsable(supported: string -> bool) {
    exists d :: Usable(supported, d)
  }

  /** A run of `n` calls leads from `r` to full approval. */
  ghost predicate VerifiableIn(role: Role, supported: string -> bool, r: Record, n: nat) {
    exists calls :: |calls| == n && RunFrom(role, supported, r, calls).status.ApprovedStage2?
  }

  lemma VerifiedInDistance(role: Role, supported: string -> bool, r: Record)
    requires Sound(role, r) && !role.Admin? && (HasUsable(supported) || !NeedsDocuments(role, r))
    ensures VerifiableIn(role, supported, r, Distance(role, r)) && Distance(role, r) <= 3
  {
    var document: string := if HasUsable(supported) then var d :| Usable(supported, d); d else "";
    var calls := ShortestWay(role, supported, r, document);
  }

  lemma NotVerifiedSooner(role: Role, supported: string -> bool, r: Record, n: nat)
    requires Sound(role, r) && !role.Admin? && VerifiableIn(role, supported, r, n)
    ensures n >= Distance(role, r)
    ensures HasUsable(supported) || !NeedsDocuments(role, r)
  {
    var calls :| |calls| == n && RunFrom(role, supported, r, calls).status.ApprovedStage2?;
    DistanceIsNeeded(role, supported, r, calls);
    if !HasUsable(supported) && NeedsDocuments(role, r) {
      StuckWithoutDocuments(role, supported, r, calls);
    }
  }

  /**
   Main result: full approval is within `n` calls of a sound record, for some `n`, exactly when some
   document is usable or none is needed any more; the least such `n` is the distance, at most three.
   */
  lemma VerifiedIsReachableIff(role: Role, supported: string -> bool, r: Record)
    requires Sound(role, r) && !role.Admin?
    ensures Distance(role, r) <= 3
    ensures (exists n: nat :: VerifiableIn(role, supported, r, n)) <==> HasUsable(supported) || !NeedsDocuments(role, r)
    ensures HasUsable(supported) || !NeedsDocuments(role, r) <==> VerifiableIn(role, supported, r, Distance(role, r))
    ensures forall n: nat :: VerifiableIn(role, supported, r, n) ==> n >= Distance(role, r)
  {
    if HasUsable(supported) || !NeedsDocuments(role, r) {
      VerifiedInDistance(role, supported, r);
    }
    forall n: nat | VerifiableIn(role, supported, r, n)
      ensures n >= Distance(role, r) && (HasUsable(supported) || !NeedsDocuments(role, r))
    {
      NotVerifiedSooner(role, supported, r, n);
    }
  }

  lemma {:induction false} RunsCompose(role: Role, supported: string -> bool, r: Record,
                                       first: seq<Call>, second: seq<Call>)
    ensures RunFrom(role, supported, r, first + second) ==
            RunFrom(role, supported, RunFrom(role, supported, r, first), second)
    decreases |second|
  {
    if second == [] {
      assert first + second == first;
    } else {
      var earlier := second[..|second| - 1];
      assert (first + second)[..|first + second| - 1] == first + earlier;
      RunsCompose(role, supported, r, first, earlier);
    }
  }

  // ---------------------------------------------------------------- reachable pairs

  /** Some run ends with the record. */
  ghost predicate Reached(role: Role, supported: string -> bool, r: Record) {
    exists calls :: Run(role, supported, calls) == r
  }

  /** Some run ends with a record of these statuses. */
  ghost predicate Reachable(role: Role, supported: string -> bool, status: Status, meeting: Meeting) {
    exists r :: Reached(role, supported, r) && r.status == status && r.meeting == meeting
  }

  lemma RunNext(role: Role, supported: string -> bool, r: Record, call: Call)
    requires Reached(role, supported, r)
    ensures Reached(role, supported, After(role, supported, r, call))
  {
    var calls :| Run(role, supported, calls) == r;
    var more := calls + [call];
    assert more[..|more| - 1] == calls && more[|more| - 1] == call;
    assert Run(role, supported, more) == After(role, supported, r, call);
  }

  lemma AfterAccepted(role: Role, supported: string -> bool, r: Record, call: Call, t: Transition, input: Input)
    requires Named(role, call) == Accept(t) && Normalize(supported, call.request) == input
    requires Obstacle(r, t, input).None?
    ensures After(role, supported, r, call) == Effect(r, t, input)
  {
  }

  /** One more accepted call, on the first day. */
  lemma ReachNext(role: Role, supported: string -> bool, r: Record, actor: Role, status: Status,
                  meeting: Option<Meeting>, documents: seq<string>, reason: Option<string>, t: Transition)
    requires Reached(role, supported, r)
    requires Named(role, Ask(actor, status, meeting, documents, reason, 1)) == Accept(t)
    requires documents == SanitizeDocuments(supported, documents) && reason == NormalizeReason(reason)
    requires Obstacle(r, t, Input(documents, reason, Some(1), 0)).None?
    ensures Reached(role, supported, Effect(r, t, Input(documents, reason, Some(1), 0)))
  {
    var call := Ask(actor, status, meeting, documents, reason, 1);
    RunNext(role, supported, r, call);
    AfterAccepted(role, supported, r, call, t, Input(documents, reason, Some(1), 0));
  }

  lemma StartIsReached(role: Role, supported: string -> bool)
    ensures Reached(role, supported, DEFAULTS)
  {
    assert Run(role, supported, []) == DEFAULTS;
  }

  lemma SomeReason() returns (reason: Option<string>)
    ensures reason.Some? && reason == NormalizeReason(reason)
  {
    reason := Some("no");
  }

  const MET := Record(PendingStage2, Approved, Some(1), None, [], false, false)

  const MOVED := Record(ApprovedStage1, Rescheduled, Some(1), None, [], false, false)

  lemma MetIsReached(supported: string -> bool)
    ensures Reached(Driver, supported, MET)
  {
    StartIsReached(Driver, supported);
    ReachNext(Driver, supported, DEFAULTS, Admin, PendingStage2, Some(Approved), [], None, ApproveMeeting);
  }

  lemma MovedIsReached(supported: string -> bool)
    ensures Reached(Driver, supported, MOVED)
  {
    MetIsReached(supported);
    ReachNext(Driver, supported, MET, Admin, ApprovedStage1, Some(Rescheduled), [], None, RescheduleMeeting);
  }

  lemma CompletedIsReachable(supported: string -> bool)
    ensures Reachable(Driver, supported, ApprovedStage2, Completed)
  {
    MetIsReached(supported);
    ReachNext(Driver, supported, MET, Admin, ApprovedStage2, Some(Completed), [], None, CompleteMeeting);
  }

  lemma RejectedIsReachable(supported: string -> bool)
    ensures Reachable(Driver, supported, Rejected, RejectedStage2)
  {
    MetIsReached(supported);
    var reason := SomeReason();
    ReachNext(Driver, supported, MET, Admin, Rejected, Some(RejectedStage2), [], reason, RejectMeeting);
  }

  lemma ScheduledIsReachable(supported: string -> bool)
    ensures Reachable(Driver, supported, ApprovedStage1, Scheduled)
  {
    MovedIsReached(supported);
    ReachNext(Driver, supported, MOVED, Driver, ApprovedStage1, Some(Scheduled), [], None, ScheduleMeeting);
  }

  lemma Submitted(role: Role, supported: string -> bool, document: string)
    requires !role.Admin? && Usable(supported, document)
    ensures Reached(role, supported, Record(Pending, Unplanned, None, None, [document], false, false))
  {
    StartIsReached(role, supported);
    UsableAreStored(supported, [document]);
    ReachNext(role, supported, DEFAULTS, role, Pending, None, [document], None, Submit);
  }

  lemma RejectionIsReachable(role: Role, supported: string -> bool, document: string)
    requires !role.Admin? && Usable(supported, document)
    ensures Reachable(role, supported, Rejected, Unplanned)
  {
    Submitted(role, supported, document);
    var reason := SomeReason();
    ReachNext(role, supported, Record(Pending, Unplanned, None, None, [document], false, false), Admin, Rejected, None,
              [], reason, if role.Driver? then RejectStageOne else RejectInvestor);
  }

  lemma ApprovalIsReachable(role: Role, supported: string -> bool, document: string)
    requires !role.Admin? && Usable(supported, document)
    ensures Reachable(role, supported, if role.Driver? then ApprovedStage1 else ApprovedStage2, Unplanned)
  {
    Submitted(role, supported, document);
    ReachNext(role, supported, Record(Pending, Unplanned, None, None, [document], false, false), Admin,
              if role.Driver? then ApprovedStage1 else ApprovedStage2, None,
              [], None, if role.Driver? then ApproveStageOne else ApproveInvestor);
  }

  function Pairs(role: Role): set<(Status, Meeting)>
    requires !role.Admin?
  {
    if role.Driver? then
      {(Unsubmitted, Unplanned), (Pending, Unplanned), (Rejected, Unplanned), (Rejected, RejectedStage2),
       (ApprovedStage1, Unplanned), (ApprovedStage1, Scheduled), (ApprovedStage1, Rescheduled),
       (PendingStage2, Approved), (ApprovedStage2, Completed)}
    else {(Unsubmitted, Unplanned), (Pending, Unplanned), (Rejected, Unplanned), (ApprovedStage2, Unplanned)}
  }

  lemma PairsArePaired(role: Role, status: Status, meeting: Meeting)
    requires !role.Admin?
    ensures (status, meeting) in Pairs(role) <==> Paired(role, status, meeting)
  {
  }

  /** The pairs that take no document: nothing has happened, or there is a meeting. */
  predicate DocumentFree(status: Status, meeting: Meeting) {
    status.Unsubmitted? || !meeting.Unplanned?
  }

  lemma EffectStaysDocumentFree(role: Role, r: Record, t: Transition, input: Input)
    requires Sound(role, r) && Allowed(role, t) && Obstacle(r, t, input).None? && input.documents == []
    requires DocumentFree(r.status, r.meeting)
    ensures DocumentFree(Effect(r, t, input).status, Effect(r, t, input).meeting)
  {
  }

  lemma {:induction false} RunStaysDocumentFree(role: Role, supported: string -> bool, calls: seq<Call>)
    requires !HasUsable(supported)
    ensures var r := Run(role, supported, calls); DocumentFree(r.status, r.meeting)
  {
    if calls != [] {
      var earlier, call := calls[..|calls| - 1], calls[|calls| - 1];
      var before := Run(role, supported, earlier);
      RunStaysDocumentFree(role, supported, earlier);
      RunIsSound(role, supported, earlier);
      NothingUsable(supported, call.request.documents);
      if Decide(role, supported, before, call).Accept? {
        NamedIsAllowed(role, call);
        EffectStaysDocumentFree(role, before, Named(role, call).transition, Normalize(supported, call.request));
      }
    }
  }

  lemma MeetingIsReachable(supported: string -> bool, status: Status, meeting: Meeting)
    requires Paired(Driver, status, meeting) && !meeting.Unplanned?
    ensures Reachable(Driver, supported, status, meeting)
  {
    match meeting
    case Approved => MetIsReached(supported);
    case Rescheduled => MovedIsReached(supported);
    case Scheduled => ScheduledIsReachable(supported);
    case Completed => CompletedIsReachable(supported);
    case RejectedStage2 => RejectedIsReachable(supported);
  }

  lemma SubmissionIsReachable(role: Role, supported: string -> bool, status: Status, document: string)
    requires !role.Admin? && Usable(supported, document)
    requires Paired(role, status, Unplanned) && !status.Unsubmitted?
    ensures Reachable(role, supported, status, Unplanned)
  {
    match status
    case Pending => Submitted(role, supported, document);
    case Rejected => RejectionIsReachable(role, supported, document);
    case ApprovedStage1 | ApprovedStage2 => ApprovalIsReachable(role, supported, document);
  }

  lemma PairIsReachable(role: Role, supported: string -> bool, status: Status, meeting: Meeting)
    requires !role.Admin? && Paired(role, status, meeting) && (HasUsable(supported) || DocumentFree(status, meeting))
    ensures Reachable(role, supported, status, meeting)
  {
    if status.Unsubmitted? {
      StartIsReached(role, supported);
    } else if meeting.Unplanned? {
      var document :| Usable(supported, document);
      SubmissionIsReachable(role, supported, status, document);
    } else {
      MeetingIsReachable(supported, status, meeting);
    }
  }

  lemma ReachedIsPaired(role: Role, supported: string -> bool, status: Status, meeting: Meeting)
    requires Reachable(role, supported, status, meeting)
    ensures Paired(role, status, meeting) && (HasUsable(supported) || DocumentFree(status, meeting))
  {
    var r :| Reached(role, supported, r) && r.status == status && r.meeting == meeting;
    var calls :| Run(role, supported, calls) == r;
    RunIsSound(role, supported, calls);
    if !HasUsable(supported) {
      RunStaysDocumentFree(role, supported, calls);
    }
  }

  /**
   Main result: the reachable pairs of statuses are exactly these nine for drivers and four for
   investors; where no document is usable, exactly those of them that take none.
   */
  lemma ReachablePairs(role: Role, supported: string -> bool, status: Status, meeting: Meeting)
    requires !role.Admin?
    ensures Reachable(role, supported, status, meeting) <==>
            (status, meeting) in Pairs(role) && (HasUsable(supported) || DocumentFree(status, meeting))
  {
    PairsArePaired(role, status, meeting);
    if Reachable(role, supported, status, meeting) {
      ReachedIsPaired(role, supported, status, meeting);
    } else if Paired(role, status, meeting) && (HasUsable(supported) || DocumentFree(status, meeting)) {
      PairIsReachable(role, supported, status, meeting);
      assert false;
    }
  }

  // ---------------------------------------------------------------- notifications

  /** What an accepted step should announce. */
  function Announcement(t: Transition, r: Record, next: Record, input: Input): Option<Notice> {
    match t
    case Submit => Some(Notice(DocumentsSubmitted, None, None))
    case ScheduleMeeting => None
    case ApproveInvestor => Some(Notice(InvestorApproved, None, None))
    case RejectInvestor => Some(Notice(KycRejected, None, next.reason))
    case ApproveStageOne => Some(Notice(StageOneApproved, None, None))
    case RejectStageOne => Some(Notice(KycRejected, None, next.reason))
    case ApproveMeeting => if r.meeting.Scheduled? then Some(Notice(MeetingApproved, next.date, None)) else None
    case RescheduleMeeting => Some(Notice(MeetingRescheduled, input.date, input.reason))
    case CompleteMeeting => Some(Notice(FullyApproved, None, None))
    case RejectMeeting => Some(Notice(StageTwoRejected, None, next.reason))
  }

  lemma EffectIsAnnounced(role: Role, r: Record, t: Transition, input: Input)
    requires Sound(role, r) && Allowed(role, t) && Obstacle(r, t, input).None?
    ensures var next := Effect(r, t, input); NoticeOf(role, r, next, input) == Announcement(t, r, next, input)
  {
  }

  /**
   Main result: from a sound record, the branch order of the notification builder never mislabels
   an accepted step; only scheduling and the approval of a meeting nobody scheduled are silent.
   */
  lemma NoticesMatchTransitions(role: Role, supported: string -> bool, r: Record, call: Call)
    requires Sound(role, r) && Decide(role, supported, r, call).Accept?
    ensures var next, input := After(role, supported, r, call), Normalize(supported, call.request);
            NoticeOf(role, r, next, input) == Announcement(Decide(role, supported, r, call).transition, r, next, input)
  {
    NamedIsAllowed(role, call);
    EffectIsAnnounced(role, r, Decide(role, supported, r, call).transition, Normalize(supported, call.request));
  }
}
