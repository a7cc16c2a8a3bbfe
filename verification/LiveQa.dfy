/** The whole live QA run (`verifyProductionLiveQa` in `production-live-qa.ts`) and what a pass proves about it. */
module LiveQa {
  import opened JsText
  import opened QaErrors
  import opened UsageSnapshot
  import opened GrowingLog
  import opened UsageDifference
  import opened Reconciliation
  import Approval
  import JsonValue
  import OperationHistory

  // ----- the run -----

  /** Lines 423 to 426 of `production-live-qa.ts`: the facts recorded before the model request. */
  ghost function BaselineOf(w: World, config: Config): Result<Baseline, QaError> {
    var wallet := WalletFact(w.wallet(0), config.userId);
    if wallet.Err? then Err(wallet.error) else
    var key := DedicatedWorkspaceKey(w.keys(0), "");
    if key.Err? then Err(key.error) else
    var usage := TakeSnapshot(w.usage(0));
    if usage.Err? then Err(usage.error) else
    var stats := GatewayUsageStats(w.stats(0));
    if stats.Err? then Err(stats.error) else
    Ok(Baseline(wallet.value, key.value, usage.value, stats.value))
  }

  method ReadBaseline(w: World, config: Config) returns (base: Result<Baseline, QaError>)
    ensures base == BaselineOf(w, config)
  {
    var wallet := WalletFact(w.wallet(0), config.userId);
    if wallet.Err? {
      return Err(wallet.error);
    }
    var key := DedicatedWorkspaceKey(w.keys(0), "");
    if key.Err? {
      return Err(key.error);
    }
    var usage, _ := GatewayUsageSnapshot(w.usage(0));
    if usage.Err? {
      return Err(usage.error);
    }
    var stats := GatewayUsageStats(w.stats(0));
    if stats.Err? {
      return Err(stats.error);
    }
    base := Ok(Baseline(wallet.value, key.value, usage.value, stats.value));
  }

  /** `resourceIds`. */
  function ResourceIds(slot: SlotIds): Result<SlotIds, QaError> {
    if StartsWith(slot.cvmInstance, "ins-") && StartsWith(slot.cbsDisk, "disk-") && StartsWith(slot.nodePool, "np-")
       && slot.persistentVolume != ""
    then Ok(slot)
    else Err(ResourceIdsRequired)
  }

  function PrintIds(ids: SlotIds): string {
    JsonValue.Print(IdsJson(ids))
  }

  function IdsJson(ids: SlotIds): JsonValue.Json {
    JsonValue.Obj([
      JsonValue.Entry("cvmInstanceId", JsonValue.Str(ids.cvmInstance)),
      JsonValue.Entry("cbsDiskId", JsonValue.Str(ids.cbsDisk)),
      JsonValue.Entry("nodePoolId", JsonValue.Str(ids.nodePool)),
      JsonValue.Entry("persistentVolumeId", JsonValue.Str(ids.persistentVolume))])
  }

  /** Lines 472 to 477 of `production-live-qa.ts`, where everything is compared as printed. */
  function ChainFault(before: ChainReport, after: ChainReport): Option<QaError> {
    if !after.status.Reused? then Some(ReusableSlotRequired)
    else if ResourceIds(after.slot).Err? then Some(ResourceIds(after.slot).error)
    else if PrintIds(before.slot) != PrintIds(after.slot) then Some(ResourceIdsChanged)
    else if JsonValue.Print(before.ledgerReceipt) != JsonValue.Print(after.ledgerReceipt) then Some(LedgerReceiptChanged)
    else if OperationHistory.PrintRows(before.runtimeOperations) != OperationHistory.PrintRows(after.runtimeOperations)
    then Some(RuntimeOperationsChanged)
    else None
  }

  /** What the model request touches. */
  function TargetOf(config: Config, workspaceId: string, keyId: string): Approval.Target {
    Approval.Target(config.approvalId, config.accountId, workspaceId, [config.slotId, keyId])
  }

  function ApprovalOf(config: Config, workspaceId: string, keyId: string): Result<JsonValue.Json, Approval.ApprovalError> {
    Approval.MutationApproval(config.approval, TargetOf(config, workspaceId, keyId), config.now,
                              Approval.CanonicalExpiry(config.dateParse))
  }

  /** What must hold for the model request to be sent. */
  ghost predicate Cleared(w: World, config: Config) {
    && w.chainBefore.status.Reused? && ResourceIds(w.chainBefore.slot).Ok?
    && w.access.None?
    && BaselineOf(w, config).Ok?
    && ApprovalOf(config, w.chainBefore.workspaceId, BaselineOf(w, config).value.keyId).Ok?
  }

  /** The attempt a run's retry loop stops at. */
  ghost function LastAttempt(w: World, config: Config, attempts: nat): nat
    requires Cleared(w, config) && attempts >= 1
  {
    StopsAt(Findings(w, config, BaselineOf(w, config).value), attempts, 1)
  }

  ghost function LastFinding(w: World, config: Config, attempts: nat): Finding
    requires Cleared(w, config) && attempts >= 1
  {
    Findings(w, config, BaselineOf(w, config).value)(LastAttempt(w, config, attempts))
  }

  /** The run passes exactly when it was cleared, the model check passed, the attempt the loop stopped at
      is settled and the chain is unchanged. */
  ghost predicate Passes(w: World, config: Config, attempts: nat)
    requires attempts >= 1
  {
    && Cleared(w, config) && w.modelCheckPasses
    && LastFinding(w, config, attempts).Settled()
    && ChainFault(w.chainBefore, w.chainAfter).None?
  }

  /** Why the model request is not sent. */
  ghost function Refusal(w: World, config: Config): QaError
    requires !Cleared(w, config)
  {
    if w.chainBefore.status.AcceptanceRequired? then ProviderAcceptanceRequired
    else if !w.chainBefore.status.Reused? then ReusableSlotRequired
    else if ResourceIds(w.chainBefore.slot).Err? then ResourceIdsRequired
    else if w.access.Some? then AccessRefused(w.access.value)
    else if BaselineOf(w, config).Err? then BaselineOf(w, config).error
    else ApprovalRejected(ApprovalOf(config, w.chainBefore.workspaceId, BaselineOf(w, config).value.keyId).error)
  }

  /** Why a run that does not pass fails: the first thing that goes wrong. */
  ghost function FailureOf(w: World, config: Config, attempts: nat): QaError
    requires attempts >= 1 && !Passes(w, config, attempts)
  {
    if !Cleared(w, config) then Refusal(w, config)
    else if !w.modelCheckPasses then ModelCheckFailed
    else if !LastFinding(w, config, attempts).Settled() then Conclusion(LastFinding(w, config, attempts)).error
    else ChainFault(w.chainBefore, w.chainAfter).value
  }

  /** Lines 392 to 432 of `production-live-qa.ts`: None clears the model request. */
  method CheckBeforehand(w: World, config: Config) returns (base: Result<Baseline, QaError>)
    ensures base.Ok? <==> Cleared(w, config)
    ensures base.Ok? ==> base == BaselineOf(w, config)
    ensures base.Err? ==> base.error == Refusal(w, config)
  {
    if w.chainBefore.status.AcceptanceRequired? {
      return Err(ProviderAcceptanceRequired);
    }
    if !w.chainBefore.status.Reused? {
      return Err(ReusableSlotRequired);
    }
    if ResourceIds(w.chainBefore.slot).Err? {
      return Err(ResourceIdsRequired);
    }
    if w.access.Some? {
      return Err(AccessRefused(w.access.value));
    }
    base := ReadBaseline(w, config);
    if base.Err? {
      return;
    }
    var approval := ApprovalOf(config, w.chainBefore.workspaceId, base.value.keyId);
    if approval.Err? {
      base := Err(ApprovalRejected(approval.error));
    }
  }

  /** Lines 392 to 497 of `production-live-qa.ts`. `modelRequests` counts the model requests triggered. */
  method VerifyProductionLiveQa(w: World, config: Config, attempts: nat)
    returns (outcome: Result<Evidence, QaError>, readAttempts: nat, modelRequests: nat)
    requires attempts >= 1
    ensures modelRequests == if Cleared(w, config) then 1 else 0
    ensures outcome.Ok? <==> Passes(w, config, attempts)
    ensures outcome.Ok? ==> outcome.value == LastFinding(w, config, attempts).evidence
                            && readAttempts == LastAttempt(w, config, attempts)
    ensures outcome.Err? ==> outcome.error == FailureOf(w, config, attempts)
    ensures readAttempts == if Cleared(w, config) && w.modelCheckPasses then LastAttempt(w, config, attempts) else 0
  {
    readAttempts, modelRequests := 0, 0;
    var base := CheckBeforehand(w, config);
    if base.Err? {
      return Err(base.error), 0, 0;
    }
    modelRequests := modelRequests + 1;
    if !w.modelCheckPasses {
      return Err(ModelCheckFailed), 0, modelRequests;
    }
    outcome, readAttempts := AwaitBilling(w, config, base.value, attempts);
    ClearedOutcome(w, config, base.value, attempts);
  }

  /** What the retry loop and the comparison of the chain make of a run. */
  ghost function Awaited(w: World, config: Config, base: Baseline, attempts: nat): Result<Evidence, QaError>
    requires attempts >= 1
  {
    var last := FindingAt(w, config, base, StopsAt(Findings(w, config, base), attempts, 1));
    if !last.Settled() then Conclusion(last)
    else if ChainFault(w.chainBefore, w.chainAfter).Some? then Err(ChainFault(w.chainBefore, w.chainAfter).value)
    else Ok(last.evidence)
  }

  lemma ClearedOutcome(w: World, config: Config, base: Baseline, attempts: nat)
    requires attempts >= 1 && Cleared(w, config) && w.modelCheckPasses && BaselineOf(w, config) == Ok(base)
    ensures Awaited(w, config, base, attempts)
            == if Passes(w, config, attempts) then Ok(LastFinding(w, config, attempts).evidence)
               else Err(FailureOf(w, config, attempts))
  {
  }

  /** Lines 443 to 477 of `production-live-qa.ts`: the retry loop, and then the comparison of the chain. */
  method AwaitBilling(w: World, config: Config, base: Baseline, attempts: nat)
    returns (outcome: Result<Evidence, QaError>, readAttempts: nat)
    requires attempts >= 1
    ensures readAttempts == StopsAt(Findings(w, config, base), attempts, 1)
    ensures outcome == Awaited(w, config, base, attempts)
  {
    ghost var findings := Findings(w, config, base);
    outcome, readAttempts := Reconcile(w, config, base, attempts, findings);
    if outcome.Err? {
      return;
    }
    var fault := ChainFault(w.chainBefore, w.chainAfter);
    if fault.Some? {
      outcome := Err(fault.value);
    }
  }

  // ----- an honest, growing usage log -----

  /** `log(a)(p)` is the log when page `p` is served in attempt `a`; it may grow between any two requests. */
  ghost predicate GrowingRun(log: nat -> nat -> seq<Record>) {
    forall a: nat, p: nat, b: nat, q: nat | a < b || (a == b && p <= q) :: GrowsTo(log(a)(p), log(b)(q))
  }

  /** The usage replies come from that log. Stats, wallet and key replies stay arbitrary. */
  ghost predicate ServesLog(w: World, log: nat -> nat -> seq<Record>) {
    forall a: nat :: w.usage(a) == Serving(log(a))
  }

  /** `b` is `a` with the one record `r` put in somewhere. */
  ghost predicate OneMore(a: seq<Record>, b: seq<Record>, r: Record) {
    exists i :: 0 <= i <= |a| && b == a[..i] + [r] + a[i..]
  }

  lemma {:induction false} GrowthByOne(a: seq<Record>, b: seq<Record>) returns (i: nat)
    requires GrowsTo(a, b) && |b| == |a| + 1
    ensures i <= |a| && b == a[..i] + [b[i]] + a[i..]
    decreases |b|
  {
    if a != [] && a[0] == b[0] && GrowsTo(a[1..], b[1..]) {
      var k := GrowthByOne(a[1..], b[1..]);
      i := k + 1;
      assert b == [b[0]] + b[1..];
      assert a[..i] == [a[0]] + a[1..][..k];
    } else {
      if a != [] {
        GrowthAddsLength(a, b[1..]);
      }
      i := 0;
    }
  }

  /** A log with one more id has one more record, the one with that id. */
  lemma FoundWasAdded(log0: seq<Record>, log1: seq<Record>, before: Snapshot, after: Snapshot, r: Record)
    requires GrowsTo(log0, log1)
    requires WellBuilt(before) && before.items == log0 && WellBuilt(after) && after.items == log1
    requires IsTheAddition(before, after, r)
    ensures |log1| == |log0| + 1 && OneMore(log0, log1, r)
  {
    SizeOfIdSet(before);
    SizeOfIdSet(after);
    var i := GrowthByOne(log0, log1);
    var j :| 0 <= j < |log1| && log1[j] == r;
    forall x | x in log0 ensures RequestId(x) != RequestId(r) {
      IdSetOf(before, x);
    }
  }

  /** `r` is the one record `log1` has gained over `log0`, under an id of its own. */
  ghost predicate Gained(log0: seq<Record>, log1: seq<Record>, r: Record) {
    && |log1| == |log0| + 1 && OneMore(log0, log1, r)
    && r in log1 && r.requestId == Text(RequestId(r))
    && forall x | x in log0 :: RequestId(x) != RequestId(r)
  }

  /** What the difference of two snapshots says about the logs they were read from. */
  lemma DifferenceInLog(before: Snapshot, after: Snapshot, model: string, keyId: string, round: int -> int)
    requires WellBuilt(before) && WellBuilt(after) && GrowsTo(before.items, after.items)
    ensures var r := ExactUsageRecord(before, after, model, keyId, round);
            && (r == Ok(None) <==> after.items == before.items)
            && (r.Ok? && r.value.Some? ==>
                  Gained(before.items, after.items, r.value.value) && ValidUsage(r.value.value, model, keyId, round))
  {
    var r := ExactUsageRecord(before, after, model, keyId, round);
    DifferenceIsExact(before, after, model, keyId, round);
    if r.Ok? && r.value.Some? {
      FoundWasAdded(before.items, after.items, before, after, r.value.value);
      forall x | x in before.items ensures RequestId(x) != RequestId(r.value.value) {
        IdSetOf(before, x);
      }
    }
    if IdSet(after) == IdSet(before) {
      SizeOfIdSet(before);
      SizeOfIdSet(after);
      GrowthAddsLength(before.items, after.items);
    }
  }

  /** The two verdicts of a finding, as integer equations. */
  lemma VerdictsMean(base: Baseline, e: Evidence, round: int -> int)
    requires NumberRounding(round)
    requires HasTokenCounts(e.request) && e.request.actualCostUsdMicros.Int?
    ensures StatsMatchRequest(base.stats, e.stats, e.request, round) <==> BilledOnce(base.stats, e.stats, e.request)
    ensures BalanceMatches(base.wallet, e.wallet, e.request, round)
            <==> base.wallet == e.wallet + e.request.actualCostUsdMicros.n
  {
    RoundingKeepsVerdict(base.stats, e.stats, e.request, round);
    RoundingKeepsDifferences(base.wallet, e.wallet, e.request.actualCostUsdMicros.n, 0, 0, round);
  }

  lemma FindingVerdicts(w: World, config: Config, base: Baseline, k: nat, f: Finding)
    requires NumberRounding(config.round)
    requires f == FindingAt(w, config, base, k) && f.Found?
    ensures f.statsMatch <==> BilledOnce(base.stats, f.evidence.stats, f.evidence.request)
    ensures f.balanceMatch <==> base.wallet == f.evidence.wallet + f.evidence.request.actualCostUsdMicros.n
  {
    VerdictsMean(base, f.evidence, config.round);
  }

  lemma SnapshotOfLog(w: World, log: nat -> nat -> seq<Record>, a: nat)
    requires GrowingRun(log) && ServesLog(w, log)
    requires TakeSnapshot(w.usage(a)).Ok?
    ensures WellBuilt(TakeSnapshot(w.usage(a)).value)
    ensures TakeSnapshot(w.usage(a)).value.items == log(a)(1)
  {
    assert Growing(log(a));
    assert w.usage(a) == Serving(log(a));
    AtomicRead(log(a));
    SnapshotsAreWellBuilt(w.usage(a));
  }

  /** The baseline is a read of the log as it was before the model request. */
  ghost predicate StartsFrom(base: Baseline, log: nat -> nat -> seq<Record>) {
    WellBuilt(base.usage) && base.usage.items == log(0)(1)
  }

  lemma BaselineStarts(w: World, config: Config, log: nat -> nat -> seq<Record>)
    requires GrowingRun(log) && ServesLog(w, log) && BaselineOf(w, config).Ok?
    ensures StartsFrom(BaselineOf(w, config).value, log)
  {
    SnapshotOfLog(w, log, 0);
  }

  /** An attempt that fails at nothing finds a record exactly when the log has changed, and then the one record the
      log has gained. */
  lemma FoundInLog(w: World, config: Config, base: Baseline, log: nat -> nat -> seq<Record>, k: nat)
    requires GrowingRun(log) && ServesLog(w, log) && StartsFrom(base, log) && k >= 1
    requires !FindingAt(w, config, base, k).Fault?
    ensures FindingAt(w, config, base, k).Absent? <==> log(k)(1) == log(0)(1)
    ensures FindingAt(w, config, base, k).Found? ==>
              var r := FindingAt(w, config, base, k).evidence.request;
              Gained(log(0)(1), log(k)(1), r) && ValidUsage(r, config.expectedModel, base.keyId, config.round)
  {
    assert GrowsTo(log(0)(1), log(k)(1));
    SnapshotOfLog(w, log, k);
    DifferenceInLog(base.usage, TakeSnapshot(w.usage(k)).value, config.expectedModel, base.keyId, config.round);
  }

  /** Two attempts that each found a record found the same one, in the same log. */
  lemma SameRecordFound(w: World, config: Config, base: Baseline, log: nat -> nat -> seq<Record>, j: nat, k: nat)
    requires GrowingRun(log) && ServesLog(w, log) && StartsFrom(base, log) && 1 <= j <= k
    requires FindingAt(w, config, base, j).Found? && FindingAt(w, config, base, k).Found?
    ensures FindingAt(w, config, base, j).evidence.request == FindingAt(w, config, base, k).evidence.request
    ensures log(j)(1) == log(k)(1)
  {
    FoundInLog(w, config, base, log, j);
    FoundInLog(w, config, base, log, k);
    assert GrowsTo(log(j)(1), log(k)(1));
    GrowthAddsLength(log(j)(1), log(k)(1));
    var r1, r2 := FindingAt(w, config, base, j).evidence.request, FindingAt(w, config, base, k).evidence.request;
    OnlyOneIsNew(log(0)(1), log(k)(1), r1, r2);
  }

  lemma OnlyOneIsNew(a: seq<Record>, b: seq<Record>, r1: Record, r2: Record)
    requires OneMore(a, b, r1) && r2 in b && r2 !in a
    ensures r1 == r2
  {
  }

  /** An attempt at which the loop does not stop found nothing, or the record it stops with. */
  lemma BeforeTheStop(w: World, config: Config, base: Baseline, log: nat -> nat -> seq<Record>, attempts: nat, j: nat)
    requires GrowingRun(log) && ServesLog(w, log) && StartsFrom(base, log) && attempts >= 1
    requires var k := StopsAt(Findings(w, config, base), attempts, 1);
             1 <= j < k <= attempts && FindingAt(w, config, base, k).Found?
    ensures FindingAt(w, config, base, j).Absent?
            || (FindingAt(w, config, base, j).Found?
                && FindingAt(w, config, base, j).evidence.request
                   == FindingAt(w, config, base, StopsAt(Findings(w, config, base), attempts, 1)).evidence.request)
  {
    assert !Findings(w, config, base)(j).Decided();
    if FindingAt(w, config, base, j).Found? {
      SameRecordFound(w, config, base, log, j, StopsAt(Findings(w, config, base), attempts, 1));
    }
  }

  /** Whole-run safety. Against any usage log that only grows, and any stats and wallet replies: if the run
      passes, the log gained exactly one record between the first snapshot and the accepted one; every
      attempt before found either nothing or that very record; and its cost is both what the wallet lost
      and what the stats gained, along with one request and its tokens. */
  lemma WholeRunSafety(w: World, config: Config, attempts: nat, log: nat -> nat -> seq<Record>)
    requires attempts >= 1 && NumberRounding(config.round)
    requires GrowingRun(log) && ServesLog(w, log)
    requires Passes(w, config, attempts)
    ensures var base := BaselineOf(w, config).value;
            var k := LastAttempt(w, config, attempts);
            var e := LastFinding(w, config, attempts).evidence;
            && 1 <= k <= attempts
            && Gained(log(0)(1), log(k)(1), e.request)
            && IsTheRequest(e.request, config.expectedModel, base.keyId)
            && BilledOnce(base.stats, e.stats, e.request)
            && base.wallet - e.wallet == e.request.actualCostUsdMicros.n
               == e.stats.totalActualCostUsdMicros - base.stats.totalActualCostUsdMicros
            && (forall j | 1 <= j < k :: FindingAt(w, config, base, j).Absent?
                                         || (FindingAt(w, config, base, j).Found?
                                             && FindingAt(w, config, base, j).evidence.request == e.request))
  {
    BaselineStarts(w, config, log);
    LoopSafety(w, config, BaselineOf(w, config).value, attempts, log);
    ValidUsageIff(LastFinding(w, config, attempts).evidence.request, config.expectedModel,
                  BaselineOf(w, config).value.keyId, config.round);
  }

  lemma LoopSafety(w: World, config: Config, base: Baseline, attempts: nat, log: nat -> nat -> seq<Record>)
    requires attempts >= 1 && NumberRounding(config.round)
    requires GrowingRun(log) && ServesLog(w, log) && StartsFrom(base, log)
    requires FindingAt(w, config, base, StopsAt(Findings(w, config, base), attempts, 1)).Settled()
    ensures var k := StopsAt(Findings(w, config, base), attempts, 1);
            var e := FindingAt(w, config, base, k).evidence;
            && Gained(log(0)(1), log(k)(1), e.request)
            && ValidUsage(e.request, config.expectedModel, base.keyId, config.round)
            && BilledOnce(base.stats, e.stats, e.request)
            && base.wallet == e.wallet + e.request.actualCostUsdMicros.n
            && (forall j | 1 <= j < k :: FindingAt(w, config, base, j).Absent?
                                         || (FindingAt(w, config, base, j).Found?
                                             && FindingAt(w, config, base, j).evidence.request == e.request))
  {
    var k := StopsAt(Findings(w, config, base), attempts, 1);
    FoundInLog(w, config, base, log, k);
    FindingVerdicts(w, config, base, k, FindingAt(w, config, base, k));
    forall j | 1 <= j < k
      ensures FindingAt(w, config, base, j).Absent?
              || (FindingAt(w, config, base, j).Found?
                  && FindingAt(w, config, base, j).evidence.request == FindingAt(w, config, base, k).evidence.request)
    {
      BeforeTheStop(w, config, base, log, attempts, j);
    }
  }

  // ----- what failures mean -----

  /** What a loop that read every source without an error, and still did not settle, concludes: that the request was not
      found exactly when the log is the one it started from; else the log has gained one valid record, and the
      conclusion is a stats mismatch exactly when the stats did not grow by it, and a balance mismatch when they did
      but the wallet did not shrink by its cost. */
  lemma UnsettledMeans(w: World, config: Config, base: Baseline, attempts: nat, log: nat -> nat -> seq<Record>)
    requires attempts >= 1 && NumberRounding(config.round)
    requires GrowingRun(log) && ServesLog(w, log) && StartsFrom(base, log)
    requires forall k | 1 <= k <= attempts ::
               !FindingAt(w, config, base, k).Fault? && !FindingAt(w, config, base, k).Settled()
    ensures StopsAt(Findings(w, config, base), attempts, 1) == attempts
    ensures var f := FindingAt(w, config, base, attempts);
            && (Conclusion(f) == Err(RequestNotFound) <==> log(attempts)(1) == log(0)(1))
            && (Conclusion(f) != Err(RequestNotFound) ==>
                  && f.Found? && Gained(log(0)(1), log(attempts)(1), f.evidence.request)
                  && ValidUsage(f.evidence.request, config.expectedModel, base.keyId, config.round)
                  && (Conclusion(f) == Err(UsageStatsMismatch)
                      <==> !BilledOnce(base.stats, f.evidence.stats, f.evidence.request))
                  && (Conclusion(f) == Err(BalanceDeltaMismatch)
                      <==> && BilledOnce(base.stats, f.evidence.stats, f.evidence.request)
                           && base.wallet != f.evidence.wallet + f.evidence.request.actualCostUsdMicros.n))
  {
    StopIsFirst(Findings(w, config, base), attempts, 1, attempts);
    FoundInLog(w, config, base, log, attempts);
    if FindingAt(w, config, base, attempts).Found? {
      FindingVerdicts(w, config, base, attempts, FindingAt(w, config, base, attempts));
    }
  }

  // ----- what the run is joined to -----

  /** No model request without a manifest that grants it: one of this approval, still in force, that names the account,
      the workspace, the slot and the very key whose usage was read. */
  lemma RequestIsGranted(w: World, config: Config)
    requires Cleared(w, config)
    requires config.approval.Parsed? ==> JsonValue.WellFormed(config.approval.v)
    ensures config.approval.Parsed?
    ensures var v, keyId := config.approval.v, BaselineOf(w, config).value.keyId;
            && Approval.Grants(v, TargetOf(config, w.chainBefore.workspaceId, keyId), config.now)
            && JsonValue.Member(v, "approvalId") == JsonValue.Str(config.approvalId)
            && JsonValue.Member(v, "expiresAt").Str?
            && Approval.SpellsMomentAfter(JsonValue.Member(v, "expiresAt").s, config.now)
            && Approval.Lists(JsonValue.Member(v, "resourceIds"), config.slotId)
            && Approval.Lists(JsonValue.Member(v, "resourceIds"), keyId)
            && (config.accountId != "" ==> Approval.Lists(JsonValue.Member(v, "accountIds"), config.accountId))
            && (w.chainBefore.workspaceId != "" ==>
                  Approval.Lists(JsonValue.Member(v, "workspaceIds"), w.chainBefore.workspaceId))
  {
    var target := TargetOf(config, w.chainBefore.workspaceId, BaselineOf(w, config).value.keyId);
    Approval.ApprovalIsScoped(config.approval, target, config.now, config.dateParse);
    assert target.resourceIds[0] == config.slotId && target.resourceIds[1] in target.resourceIds;
  }

  lemma IdsPlain(ids: SlotIds)
    ensures JsonValue.Plain(IdsJson(ids))
  {
    var keys := JsonValue.Keys(IdsJson(ids).entries);
    assert keys == ["cvmInstanceId", "cbsDiskId", "nodePoolId", "persistentVolumeId"];
    assert |keys[0]| == 13 && |keys[1]| == 9 && |keys[2]| == 10 && |keys[3]| == 18;
  }

  lemma IdsPrintAlike(a: SlotIds, b: SlotIds)
    ensures PrintIds(a) == PrintIds(b) <==> a == b
  {
    IdsPlain(a);
    IdsPlain(b);
    JsonValue.PlainPrintInjective(IdsJson(a), IdsJson(b));
    if IdsJson(a) == IdsJson(b) {
      var x, y := IdsJson(a).entries, IdsJson(b).entries;
      assert x[0] == y[0] && x[1] == y[1] && x[2] == y[2] && x[3] == y[3];
    }
  }

  /** The resource ids are in order exactly if the first three bear their prefixes and the volume has a name. */
  lemma ResourceIdsIff(slot: SlotIds)
    ensures ResourceIds(slot) == Ok(slot) <==>
            && (exists x :: slot.cvmInstance == "ins-" + x) && (exists x :: slot.cbsDisk == "disk-" + x)
            && (exists x :: slot.nodePool == "np-" + x) && slot.persistentVolume != ""
    ensures ResourceIds(slot) == Ok(slot) || ResourceIds(slot) == Err(ResourceIdsRequired)
  {
    PrefixIff(slot.cvmInstance, "ins-");
    PrefixIff(slot.cbsDisk, "disk-");
    PrefixIff(slot.nodePool, "np-");
  }

  lemma PrefixIff(s: string, prefix: string)
    ensures StartsWith(s, prefix) <==> exists x :: s == prefix + x
  {
    if StartsWith(s, prefix) {
      assert s == prefix + s[|prefix|..];
    }
  }

  lemma ChainKeptIff(before: ChainReport, after: ChainReport)
    requires ResourceIds(before.slot).Ok?
    requires JsonValue.WellFormed(before.ledgerReceipt) && JsonValue.WellFormed(after.ledgerReceipt)
    ensures var fault := ChainFault(before, after);
            var sameReceipt := JsonValue.AsPrinted(after.ledgerReceipt) == JsonValue.AsPrinted(before.ledgerReceipt);
            fault == if !after.status.Reused? then Some(ReusableSlotRequired)
                     else if ResourceIds(after.slot).Err? then Some(ResourceIdsRequired)
                     else if after.slot != before.slot then Some(ResourceIdsChanged)
                     else if !sameReceipt then Some(LedgerReceiptChanged)
                     else if after.runtimeOperations != before.runtimeOperations then Some(RuntimeOperationsChanged)
                     else None
  {
    IdsPrintAlike(before.slot, after.slot);
    JsonValue.PrintInjective(before.ledgerReceipt, after.ledgerReceipt);
    OperationHistory.PrintRowsInjective(before.runtimeOperations, after.runtimeOperations);
  }

  /** A run whose request was billed as it should passes exactly if the slot is still reusable, with the same resources,
      the same receipt as printed, and the same operation rows. */
  lemma SettledPassesIff(w: World, config: Config, attempts: nat)
    requires attempts >= 1 && Cleared(w, config) && w.modelCheckPasses && LastFinding(w, config, attempts).Settled()
    requires JsonValue.WellFormed(w.chainBefore.ledgerReceipt) && JsonValue.WellFormed(w.chainAfter.ledgerReceipt)
    ensures Passes(w, config, attempts) <==>
            && w.chainAfter.status.Reused?
            && w.chainAfter.slot == w.chainBefore.slot
            && JsonValue.AsPrinted(w.chainAfter.ledgerReceipt) == JsonValue.AsPrinted(w.chainBefore.ledgerReceipt)
            && w.chainAfter.runtimeOperations == w.chainBefore.runtimeOperations
  {
    ChainKeptIff(w.chainBefore, w.chainAfter);
  }

  /** And if it does not pass, it says which of these is the first to be off. */
  lemma SettledFailure(w: World, config: Config, attempts: nat)
    requires attempts >= 1 && Cleared(w, config) && w.modelCheckPasses && LastFinding(w, config, attempts).Settled()
    requires JsonValue.WellFormed(w.chainBefore.ledgerReceipt) && JsonValue.WellFormed(w.chainAfter.ledgerReceipt)
    requires !Passes(w, config, attempts)
    ensures FailureOf(w, config, attempts)
            == if !w.chainAfter.status.Reused? then ReusableSlotRequired
               else if ResourceIds(w.chainAfter.slot).Err? then ResourceIdsRequired
               else if w.chainAfter.slot != w.chainBefore.slot then ResourceIdsChanged
               else if JsonValue.AsPrinted(w.chainAfter.ledgerReceipt)
                       != JsonValue.AsPrinted(w.chainBefore.ledgerReceipt) then LedgerReceiptChanged
               else RuntimeOperationsChanged
  {
    ChainKeptIff(w.chainBefore, w.chainAfter);
  }

  /** A pass leaves the slot's resources and the receipt as they were. */
  lemma PassKeepsResources(w: World, config: Config, attempts: nat)
    requires attempts >= 1 && Passes(w, config, attempts)
    requires JsonValue.WellFormed(w.chainBefore.ledgerReceipt) && JsonValue.WellFormed(w.chainAfter.ledgerReceipt)
    ensures w.chainAfter.status.Reused? && w.chainAfter.slot == w.chainBefore.slot
    ensures JsonValue.AsPrinted(w.chainAfter.ledgerReceipt) == JsonValue.AsPrinted(w.chainBefore.ledgerReceipt)
  {
    ChainKeptIff(w.chainBefore, w.chainAfter);
  }

  /** A run that finds another history after it than before does not pass: the histories the two reports were made
      from must hold the same records, in whatever order they were listed. */
  lemma ChangedHistoryFails(w: World, config: Config, attempts: nat, a: seq<JsonValue.Json>, b: seq<JsonValue.Json>,
                            sha256: string -> string, localeCompare: (string, string) -> int)
    requires attempts >= 1
    requires var rowOf := OperationHistory.OperationRow(sha256);
             && OperationHistory.IsHistory(a, rowOf) && OperationHistory.IsHistory(b, rowOf)
             && OperationHistory.SeparatesIds(localeCompare, a, rowOf)
             && w.chainBefore.runtimeOperations == OperationHistory.Snapshot(a, rowOf, localeCompare)
             && w.chainAfter.runtimeOperations == OperationHistory.Snapshot(b, rowOf, localeCompare)
    requires OperationHistory.AllWellFormed(a) && OperationHistory.AllWellFormed(b)
    requires OperationHistory.Injective(sha256) && OperationHistory.Consistent(localeCompare)
    requires !OperationHistory.SameHistory(a, b, OperationHistory.SameRecord)
    ensures !Passes(w, config, attempts)
  {
    OperationHistory.UnchangedHistoryTest(a, b, sha256, localeCompare);
    DifferentRowsFault(w.chainBefore, w.chainAfter);
  }

  lemma DifferentRowsFault(before: ChainReport, after: ChainReport)
    requires OperationHistory.PrintRows(before.runtimeOperations) != OperationHistory.PrintRows(after.runtimeOperations)
    ensures ChainFault(before, after).Some?
  {
  }
}
