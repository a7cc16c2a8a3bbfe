/** The Provider Acceptance poll (`validatedAcceptanceResponse`, `runProviderAcceptance`). */
module Acceptance {
  import opened JsText
  import opened JsonValue
  import opened Approval

  const SLOT_KEYS: seq<string> := [
    "id", "accountId", "workspaceId", "workspaceUrl", "computeAllocationId", "computeProviderId",
    "nodePoolId", "storageId", "storageProviderId", "persistentVolumeId", "attachmentId"]

  const RESPONSE_KEYS: seq<string> := ["ok", "status", "slot"]

  const REVIEW_KEYS: seq<string> := ["ok", "status", "slot", "reason"]

  const MANUAL_REVIEW_REASONS: seq<string> := [
    "provider_acceptance_compute_result_unknown",
    "provider_acceptance_compute_state_ambiguous",
    "provider_acceptance_storage_result_unknown",
    "provider_acceptance_storage_state_ambiguous",
    "provider_acceptance_attachment_result_unknown",
    "provider_acceptance_attachment_state_ambiguous",
    "provider_acceptance_workspace_state_ambiguous",
    "provider_acceptance_runtime_result_unknown",
    "provider_acceptance_receipt_failed",
    "provider_acceptance_audit_failed",
    "provider_acceptance_state_ambiguous"]

  datatype Status = Ready | Reused | InProgress | ManualReview

  /** `slot` lists the values of SLOT_KEYS in that order; `reason` is empty but for a manual review. */
  datatype Response = Response(status: Status, slot: seq<string>, reason: string)

  datatype AcceptanceError =
    | Refused          // authority or configuration missing, before any request
    | RequestFailed
    | InvalidStatus
    | InvalidResponse
    | NeedsManualReview
    | TimedOut

  function StatusOf(payload: Json): Option<Status> {
    var status := Member(payload, "status");
    if !status.Str? then None
    else if status.s == "ready" then Some(Ready)
    else if status.s == "reused" then Some(Reused)
    else if status.s == "in_progress" then Some(InProgress)
    else if status.s == "manual_review" then Some(ManualReview)
    else None
  }

  predicate IsTextAt(slot: Json, key: string) {
    Member(slot, key).Str?
  }

  predicate IsFilledAt(slot: Json, key: string) {
    Member(slot, key).Str? && Trim(Member(slot, key).s) != ""
  }

  /** The slot names the requested slot and account, and all its members are texts. */
  predicate SlotOk(slot: Json, slotId: string, accountId: string) {
    && Member(slot, SLOT_KEYS[0]) == Str(slotId) && Member(slot, SLOT_KEYS[1]) == Str(accountId)
    && forall i | 0 <= i < |SLOT_KEYS| :: IsTextAt(slot, SLOT_KEYS[i])
  }

  function SlotTexts(slot: Json, keys: seq<string>): (texts: seq<string>)
    requires forall i | 0 <= i < |keys| :: IsTextAt(slot, keys[i])
    ensures |texts| == |keys|
    ensures forall i | 0 <= i < |keys| :: IsTextAt(slot, keys[i]) && texts[i] == Member(slot, keys[i]).s
  {
    seq(|keys|, i requires 0 <= i < |keys| =>
      assert IsTextAt(slot, keys[i]);
      Member(slot, keys[i]).s)
  }

  /** None stands for the script's `null`. */
  function ValidatedAcceptanceResponse(payload: Json, slotId: string, accountId: string): Option<Response> {
    var status, slot, ok := StatusOf(payload), Member(payload, "slot"), Member(payload, "ok");
    if !HasExactKeys(payload, if status == Some(ManualReview) then REVIEW_KEYS else RESPONSE_KEYS)
       || !HasExactKeys(slot, SLOT_KEYS) then None
    else if !SlotOk(slot, slotId, accountId) then None
    else match status
      case None => None
      case Some(InProgress) =>
        if ok == Bool(false) then Some(Response(InProgress, SlotTexts(slot, SLOT_KEYS), "")) else None
      case Some(ManualReview) =>
        var reason := Member(payload, "reason");
        if ok == Bool(false) && reason.Str? && reason.s in MANUAL_REVIEW_REASONS
        then Some(Response(ManualReview, SlotTexts(slot, SLOT_KEYS), reason.s)) else None
      case Some(success) =>
        if ok != Bool(true) || exists i | 2 <= i < |SLOT_KEYS| :: !IsFilledAt(slot, SLOT_KEYS[i]) then None
        else Some(Response(success, SlotTexts(slot, SLOT_KEYS), ""))
  }

  // ----- what the responses say -----

  /** The members of a slot: the slot's own id, its account, and the facts about it. */
  ghost function SlotMembers(): seq<string> {
    ["id", "accountId", "workspaceId", "workspaceUrl", "computeAllocationId", "computeProviderId", "nodePoolId",
     "storageId", "storageProviderId", "persistentVolumeId", "attachmentId"]
  }

  /** Just these members, in whatever order. */
  ghost predicate HasMembers(v: Json, keys: seq<string>) {
    v.Obj? && SetOf(Keys(v.entries)) == SetOf(keys)
  }

  /** Texts under all these keys, the first two of them as requested. */
  ghost predicate NamesSlot(slot: Json, keys: seq<string>, slotId: string, accountId: string) {
    && |keys| >= 2
    && HasMembers(slot, keys)
    && Member(slot, keys[0]) == Str(slotId) && Member(slot, keys[1]) == Str(accountId)
    && forall i | 0 <= i < |keys| :: Member(slot, keys[i]).Str?
  }

  /** No fact is blank. */
  ghost predicate FactsFilled(slot: Json, keys: seq<string>) {
    forall i | 2 <= i < |keys| :: Member(slot, keys[i]).Str? && NotBlank(Member(slot, keys[i]).s)
  }

  /** What a success response says: nothing beyond the required members, the requested slot and account, and
      every further slot fact filled in. */
  ghost predicate IsCompleteSuccess(payload: Json, slotId: string, accountId: string) {
    var slot := Member(payload, "slot");
    && HasMembers(payload, ["ok", "status", "slot"])
    && Member(payload, "ok") == Bool(true)
    && (Member(payload, "status") == Str("ready") || Member(payload, "status") == Str("reused"))
    && NamesSlot(slot, SlotMembers(), slotId, accountId) && FactsFilled(slot, SlotMembers())
  }

  /** A purchase still in progress. */
  ghost predicate IsPending(payload: Json, slotId: string, accountId: string) {
    && HasMembers(payload, ["ok", "status", "slot"])
    && Member(payload, "ok") == Bool(false)
    && Member(payload, "status") == Str("in_progress")
    && NamesSlot(Member(payload, "slot"), SlotMembers(), slotId, accountId)
  }

  /** A purchase that needs a person to look at it, for a reason that is known. */
  ghost predicate IsForReview(payload: Json, slotId: string, accountId: string) {
    && HasMembers(payload, ["ok", "status", "slot", "reason"])
    && Member(payload, "ok") == Bool(false)
    && Member(payload, "status") == Str("manual_review")
    && NamesSlot(Member(payload, "slot"), SlotMembers(), slotId, accountId)
    && Member(payload, "reason").Str? && IsReviewReason(Member(payload, "reason").s)
  }

  ghost predicate IsReviewReason(reason: string) {
    reason in [
      "provider_acceptance_compute_result_unknown", "provider_acceptance_compute_state_ambiguous",
      "provider_acceptance_storage_result_unknown", "provider_acceptance_storage_state_ambiguous",
      "provider_acceptance_attachment_result_unknown", "provider_acceptance_attachment_state_ambiguous",
      "provider_acceptance_workspace_state_ambiguous", "provider_acceptance_runtime_result_unknown",
      "provider_acceptance_receipt_failed", "provider_acceptance_audit_failed",
      "provider_acceptance_state_ambiguous"]
  }

  lemma ListsAre()
    ensures SLOT_KEYS == SlotMembers()
    ensures RESPONSE_KEYS == ["ok", "status", "slot"] && REVIEW_KEYS == ["ok", "status", "slot", "reason"]
  {
  }

  lemma SlotIff(slot: Json, keys: seq<string>, slotId: string, accountId: string)
    requires WellFormed(slot) && keys == SLOT_KEYS && Distinct(keys)
    ensures HasExactKeys(slot, keys) && SlotOk(slot, slotId, accountId) <==> NamesSlot(slot, keys, slotId, accountId)
  {
    ExactKeysAreTheKeys(slot, keys);
    assert (forall i | 0 <= i < |keys| :: IsTextAt(slot, keys[i]))
      <==> forall i | 0 <= i < |keys| :: Member(slot, keys[i]).Str?;
  }

  ghost predicate AllFilled(slot: Json, keys: seq<string>) {
    forall i | 2 <= i < |keys| :: IsFilledAt(slot, keys[i])
  }

  lemma FilledIff(slot: Json, keys: seq<string>)
    ensures AllFilled(slot, keys) <==> FactsFilled(slot, keys)
  {
    forall i | 2 <= i < |keys|
      ensures IsFilledAt(slot, keys[i]) <==> Member(slot, keys[i]).Str? && NotBlank(Member(slot, keys[i]).s)
    {
      if Member(slot, keys[i]).Str? {
        TrimBlank(Member(slot, keys[i]).s);
      }
    }
  }

  /** Length and first character tell the keys apart. */
  lemma DistinctByShape(keys: seq<string>, shapes: seq<(int, char)>)
    requires |keys| == |shapes|
    requires forall i | 0 <= i < |keys| :: |keys[i]| > 0 && shapes[i] == (|keys[i]|, keys[i][0])
    requires Distinct(shapes)
    ensures Distinct(keys)
  {
  }

  lemma KeyListsDistinct()
    ensures Distinct(SLOT_KEYS) && Distinct(RESPONSE_KEYS) && Distinct(REVIEW_KEYS)
  {
    DistinctByShape(SLOT_KEYS, [(2, 'i'), (9, 'a'), (11, 'w'), (12, 'w'), (19, 'c'), (17, 'c'), (10, 'n'), (9, 's'),
                                (17, 's'), (18, 'p'), (12, 'a')]);
    DistinctByShape(RESPONSE_KEYS, [(2, 'o'), (6, 's'), (4, 's')]);
    DistinctByShape(REVIEW_KEYS, [(2, 'o'), (6, 's'), (4, 's'), (6, 'r')]);
  }

  predicate IsSuccess(response: Option<Response>) {
    response.Some? && (response.value.status.Ready? || response.value.status.Reused?)
  }

  // The four statuses, one at a time: what the validation makes of a payload of that status.

  lemma SuccessShape(payload: Json, slotId: string, accountId: string)
    requires Member(payload, "status") == Str("ready") || Member(payload, "status") == Str("reused")
    ensures var r, slot := ValidatedAcceptanceResponse(payload, slotId, accountId), Member(payload, "slot");
            && (r.Some? <==>
                && HasExactKeys(payload, RESPONSE_KEYS) && HasExactKeys(slot, SLOT_KEYS)
                && SlotOk(slot, slotId, accountId) && Member(payload, "ok") == Bool(true) && AllFilled(slot, SLOT_KEYS))
            && (r.Some? ==> r.value.status == if Member(payload, "status") == Str("ready") then Ready else Reused)
  {
  }

  lemma PendingShape(payload: Json, slotId: string, accountId: string)
    requires Member(payload, "status") == Str("in_progress")
    ensures var r, slot := ValidatedAcceptanceResponse(payload, slotId, accountId), Member(payload, "slot");
            && (r.Some? <==>
                && HasExactKeys(payload, RESPONSE_KEYS) && HasExactKeys(slot, SLOT_KEYS)
                && SlotOk(slot, slotId, accountId) && Member(payload, "ok") == Bool(false))
            && (r.Some? ==> r.value.status == InProgress)
  {
  }

  lemma ReviewShape(payload: Json, slotId: string, accountId: string)
    requires Member(payload, "status") == Str("manual_review")
    ensures var r, slot := ValidatedAcceptanceResponse(payload, slotId, accountId), Member(payload, "slot");
            && (r.Some? <==>
                && HasExactKeys(payload, REVIEW_KEYS) && HasExactKeys(slot, SLOT_KEYS)
                && SlotOk(slot, slotId, accountId) && Member(payload, "ok") == Bool(false)
                && Member(payload, "reason").Str? && Member(payload, "reason").s in MANUAL_REVIEW_REASONS)
            && (r.Some? ==> r.value.status == ManualReview)
  {
  }

  lemma SuccessIff(payload: Json, slotId: string, accountId: string)
    requires WellFormed(payload)
    requires Member(payload, "status") == Str("ready") || Member(payload, "status") == Str("reused")
    ensures ValidatedAcceptanceResponse(payload, slotId, accountId).Some? <==> IsCompleteSuccess(payload, slotId, accountId)
  {
    MemberWellFormed(payload, "slot");
    KeyListsDistinct();
    ListsAre();
    SuccessShape(payload, slotId, accountId);
    ExactKeysAreTheKeys(payload, RESPONSE_KEYS);
    SlotIff(Member(payload, "slot"), SLOT_KEYS, slotId, accountId);
    FilledIff(Member(payload, "slot"), SLOT_KEYS);
  }

  lemma PendingIff(payload: Json, slotId: string, accountId: string)
    requires WellFormed(payload) && Member(payload, "status") == Str("in_progress")
    ensures ValidatedAcceptanceResponse(payload, slotId, accountId).Some? <==> IsPending(payload, slotId, accountId)
  {
    MemberWellFormed(payload, "slot");
    KeyListsDistinct();
    ListsAre();
    PendingShape(payload, slotId, accountId);
    ExactKeysAreTheKeys(payload, RESPONSE_KEYS);
    SlotIff(Member(payload, "slot"), SLOT_KEYS, slotId, accountId);
  }

  lemma ReviewIff(payload: Json, slotId: string, accountId: string)
    requires WellFormed(payload) && Member(payload, "status") == Str("manual_review")
    ensures ValidatedAcceptanceResponse(payload, slotId, accountId).Some? <==> IsForReview(payload, slotId, accountId)
  {
    MemberWellFormed(payload, "slot");
    KeyListsDistinct();
    ListsAre();
    ReviewShape(payload, slotId, accountId);
    ExactKeysAreTheKeys(payload, REVIEW_KEYS);
    SlotIff(Member(payload, "slot"), SLOT_KEYS, slotId, accountId);
  }

  ghost predicate KnownStatus(payload: Json) {
    Member(payload, "status") in {Str("ready"), Str("reused"), Str("in_progress"), Str("manual_review")}
  }

  lemma StatusesDiffer()
    ensures "ready" != "reused" && "ready" != "in_progress" && "ready" != "manual_review"
    ensures "reused" != "in_progress" && "reused" != "manual_review" && "in_progress" != "manual_review"
  {
    assert |"ready"| == 5 && |"reused"| == 6 && |"in_progress"| == 11 && |"manual_review"| == 13;
  }

  lemma StatusesAre(payload: Json)
    ensures StatusOf(payload).Some? <==> KnownStatus(payload)
    ensures StatusOf(payload) == Some(Ready) <==> Member(payload, "status") == Str("ready")
    ensures StatusOf(payload) == Some(Reused) <==> Member(payload, "status") == Str("reused")
    ensures StatusOf(payload) == Some(InProgress) <==> Member(payload, "status") == Str("in_progress")
    ensures StatusOf(payload) == Some(ManualReview) <==> Member(payload, "status") == Str("manual_review")
  {
    StatusesDiffer();
  }

  /** A response counts as success exactly when it is complete. */
  lemma SuccessIffComplete(payload: Json, slotId: string, accountId: string)
    requires WellFormed(payload)
    ensures IsSuccess(ValidatedAcceptanceResponse(payload, slotId, accountId))
            <==> IsCompleteSuccess(payload, slotId, accountId)
  {
    StatusesAre(payload);
    StatusesDiffer();
    ResponseStatus(payload, slotId, accountId);
    if Member(payload, "status") == Str("ready") || Member(payload, "status") == Str("reused") {
      SuccessIff(payload, slotId, accountId);
    }
  }

  lemma ResponseStatus(payload: Json, slotId: string, accountId: string)
    ensures var r := ValidatedAcceptanceResponse(payload, slotId, accountId);
            r.Some? ==> StatusOf(payload) == Some(r.value.status)
  {
  }

  /** A response that is accepted says what the payload says: its status, the texts of its slot, and the reason of a
      manual review. */
  lemma ResponseSays(payload: Json, slotId: string, accountId: string)
    requires ValidatedAcceptanceResponse(payload, slotId, accountId).Some?
    ensures var r, slot := ValidatedAcceptanceResponse(payload, slotId, accountId).value, Member(payload, "slot");
            && (r.status.Ready? <==> Member(payload, "status") == Str("ready"))
            && (r.status.Reused? <==> Member(payload, "status") == Str("reused"))
            && (r.status.InProgress? <==> Member(payload, "status") == Str("in_progress"))
            && (r.status.ManualReview? <==> Member(payload, "status") == Str("manual_review"))
            && |r.slot| == |SlotMembers()|
            && (forall i | 0 <= i < |r.slot| :: Member(slot, SlotMembers()[i]) == Str(r.slot[i]))
            && (if r.status.ManualReview? then Str(r.reason) == Member(payload, "reason") else r.reason == "")
  {
    StatusesAre(payload);
    StatusesDiffer();
    ListsAre();
    ResponseStatus(payload, slotId, accountId);
    ResponseTexts(payload, slotId, accountId);
  }

  lemma ResponseTexts(payload: Json, slotId: string, accountId: string)
    requires ValidatedAcceptanceResponse(payload, slotId, accountId).Some?
    ensures var r, slot := ValidatedAcceptanceResponse(payload, slotId, accountId).value, Member(payload, "slot");
            && |r.slot| == |SLOT_KEYS|
            && (forall i | 0 <= i < |SLOT_KEYS| :: Member(slot, SLOT_KEYS[i]) == Str(r.slot[i]))
            && (if r.status.ManualReview? then Member(payload, "reason") == Str(r.reason) else r.reason == "")
  {
  }

  lemma MemberWellFormed(v: Json, key: string)
    requires WellFormed(v)
    ensures WellFormed(Member(v, key))
  {
  }

  // ----- the poll -----

  const CONFIRMATION := "I_UNDERSTAND_THIS_BUYS_ONE_PREPAID_CVM_AND_CBS"

  datatype Reply = Failed | NoJson | Payload(v: Json)

  /** What is asked for, and on whose authority. `approval` is the outcome of the approval manifest;
      `costApproved` says that the approved cost is a positive finite number, `timingValid` that the delay is a
      non-negative finite number and the request timeout within its limits, `originAllowed` that the origin is the
      public console's. */
  datatype Order = Order(
    slotId: string, accountId: string, confirmation: string, token: string,
    gatewayWriteAllowed: bool, providerWriteAllowed: bool, approved: bool, environmentApproved: bool,
    purchaseBudget: int, costApproved: bool, attempts: int, timingValid: bool, originAllowed: bool)

  datatype Post = Post(idempotencyKey: string, order: Order)

  /** The fixed slots: each has its own account and idempotency key. */
  function SlotAccount(slotId: string): Option<string> {
    if slotId == "verification-slot-basic-01" then Some("acct-verification-slot-basic-01")
    else if slotId == "verification-slot-pro-01" then Some("acct-verification-slot-pro-01")
    else None
  }

  function IdempotencyKey(slotId: string): string {
    "provider-acceptance:" + slotId
  }

  predicate Authorised(o: Order) {
    && o.confirmation == CONFIRMATION
    && o.gatewayWriteAllowed && o.providerWriteAllowed
    && Trim(o.token) != ""
    && SlotAccount(o.slotId) == Some(o.accountId)
    && o.approved && o.environmentApproved && o.purchaseBudget == 1 && o.costApproved
    && 1 <= o.attempts <= 120 && o.timingValid && o.originAllowed
  }

  /** What one reply means for the poll; None means that the purchase is still in progress. */
  function VerdictOf(reply: Reply, o: Order): Option<Result<Response, AcceptanceError>> {
    match reply
    case Failed => Some(Err(RequestFailed))
    case NoJson => Some(Err(InvalidResponse))
    case Payload(v) =>
      if StatusOf(v).None? then Some(Err(InvalidStatus))
      else
        var response := ValidatedAcceptanceResponse(v, o.slotId, o.accountId);
        if response.None? then Some(Err(InvalidResponse))
        else if IsSuccess(response) then Some(Ok(response.value))
        else if response.value.status.ManualReview? then Some(Err(NeedsManualReview))
        else None
  }

  function Verdicts(o: Order): Reply -> Option<Result<Response, AcceptanceError>> {
    (reply: Reply) => VerdictOf(reply, o)
  }

  /** The loop: posts until a reply settles the matter, `replies(k)` being the answer to the k-th post. */
  method Poll(o: Order, replies: nat -> Reply, verdicts: Reply -> Option<Result<Response, AcceptanceError>>)
    returns (result: Result<Response, AcceptanceError>, posts: seq<Post>)
    requires o.attempts >= 1
    ensures 1 <= |posts| <= o.attempts
    ensures forall p | p in posts :: p == Post(IdempotencyKey(o.slotId), o)
    ensures forall k | 1 <= k < |posts| :: verdicts(replies(k)) == None
    ensures result == if verdicts(replies(|posts|)).Some? then verdicts(replies(|posts|)).value else Err(TimedOut)
    ensures verdicts(replies(|posts|)) == None ==> |posts| == o.attempts
  {
    posts := [];
    var attempt := 1;
    while attempt <= o.attempts
      invariant 1 <= attempt <= o.attempts + 1 && |posts| == attempt - 1
      invariant forall p | p in posts :: p == Post(IdempotencyKey(o.slotId), o)
      invariant forall k | 1 <= k < attempt :: verdicts(replies(k)) == None
    {
      posts := posts + [Post(IdempotencyKey(o.slotId), o)];
      var verdict := verdicts(replies(attempt));
      if verdict.Some? {
        return verdict.value, posts;
      }
      attempt := attempt + 1;
    }
    result := Err(TimedOut);
  }

  method RunProviderAcceptance(o: Order, replies: nat -> Reply)
    returns (result: Result<Response, AcceptanceError>, posts: seq<Post>)
    ensures posts == [] <==> !Authorised(o)
    ensures !Authorised(o) ==> result == Err(Refused)
    ensures |posts| <= 120 && (posts != [] ==> |posts| <= o.attempts)
    ensures forall p | p in posts :: p == Post(IdempotencyKey(o.slotId), o)
    ensures forall k | 1 <= k < |posts| :: Verdicts(o)(replies(k)) == None
    ensures Authorised(o) ==>
              && (result == if Verdicts(o)(replies(|posts|)).Some? then Verdicts(o)(replies(|posts|)).value
                            else Err(TimedOut))
              && (Verdicts(o)(replies(|posts|)) == None ==> |posts| == o.attempts)
  {
    if !Authorised(o) {
      return Err(Refused), [];
    }
    result, posts := Poll(o, replies, Verdicts(o));
  }

  /** A reply keeps the poll going exactly if it says that the purchase is still in progress. */
  lemma InProgressOnly(v: Json, o: Order)
    requires WellFormed(v)
    ensures VerdictOf(Payload(v), o) == None <==> IsPending(v, o.slotId, o.accountId)
  {
    StatusesAre(v);
    StatusesDiffer();
    ResponseStatus(v, o.slotId, o.accountId);
    if Member(v, "status") == Str("in_progress") {
      PendingIff(v, o.slotId, o.accountId);
    }
  }

  /** The poll ends in success exactly at a complete success response. */
  lemma SuccessVerdict(v: Json, o: Order)
    requires WellFormed(v)
    ensures VerdictOf(Payload(v), o).Some? && VerdictOf(Payload(v), o).value.Ok?
            <==> IsCompleteSuccess(v, o.slotId, o.accountId)
    ensures VerdictOf(Payload(v), o).Some? && VerdictOf(Payload(v), o).value.Ok? ==>
              Some(VerdictOf(Payload(v), o).value.value) == ValidatedAcceptanceResponse(v, o.slotId, o.accountId)
  {
    StatusesAre(v);
    StatusesDiffer();
    ResponseStatus(v, o.slotId, o.accountId);
    SuccessIffComplete(v, o.slotId, o.accountId);
  }

  /** The poll stops for a manual review exactly at a response that asks for one. */
  lemma ReviewVerdict(v: Json, o: Order)
    requires WellFormed(v)
    ensures VerdictOf(Payload(v), o) == Some(Err(NeedsManualReview)) <==> IsForReview(v, o.slotId, o.accountId)
  {
    StatusesAre(v);
    StatusesDiffer();
    ResponseStatus(v, o.slotId, o.accountId);
    if Member(v, "status") == Str("manual_review") {
      ReviewIff(v, o.slotId, o.accountId);
    }
  }

  /** Every other reply ends the poll with an error: a failed request, a reply that is no JSON, a status that is none
      of the four, or a response that does not fit its status. */
  lemma ErrorVerdicts(reply: Reply, o: Order)
    requires reply.Payload? ==> WellFormed(reply.v)
    ensures VerdictOf(reply, o) == Some(Err(RequestFailed)) <==> reply.Failed?
    ensures VerdictOf(reply, o) == Some(Err(InvalidStatus)) <==> reply.Payload? && !KnownStatus(reply.v)
    ensures VerdictOf(reply, o) == Some(Err(InvalidResponse)) <==>
            || reply.NoJson?
            || (&& reply.Payload? && KnownStatus(reply.v)
                && !IsCompleteSuccess(reply.v, o.slotId, o.accountId)
                && !IsPending(reply.v, o.slotId, o.accountId)
                && !IsForReview(reply.v, o.slotId, o.accountId))
  {
    if reply.Payload? {
      StatusesAre(reply.v);
      InProgressOnly(reply.v, o);
      SuccessVerdict(reply.v, o);
      ReviewVerdict(reply.v, o);
    }
  }

  // ----- who may post -----

  /** What it takes to post at all. */
  lemma AuthorisedIff(o: Order)
    ensures Authorised(o) <==>
            && o.confirmation == "I_UNDERSTAND_THIS_BUYS_ONE_PREPAID_CVM_AND_CBS"
            && o.gatewayWriteAllowed && o.providerWriteAllowed && o.approved && o.environmentApproved
            && NotBlank(o.token)
            && ((o.slotId == "verification-slot-basic-01" && o.accountId == "acct-verification-slot-basic-01")
                || (o.slotId == "verification-slot-pro-01" && o.accountId == "acct-verification-slot-pro-01"))
            && o.purchaseBudget == 1 && o.costApproved && 1 <= o.attempts <= 120 && o.timingValid && o.originAllowed
  {
    TrimBlank(o.token);
    assert "verification-slot-basic-01"[18] == 'b' && "verification-slot-pro-01"[18] == 'p';
  }

  /** Each fixed slot posts under a key of its own. */
  lemma KeysOfSlots(a: string, b: string)
    ensures IdempotencyKey(a) == "provider-acceptance:" + a
    ensures IdempotencyKey(a) == IdempotencyKey(b) <==> a == b
  {
    if IdempotencyKey(a) == IdempotencyKey(b) {
      var n := |IdempotencyKey("")|;
      assert a == IdempotencyKey(a)[n..] && b == IdempotencyKey(b)[n..];
    }
  }
}
