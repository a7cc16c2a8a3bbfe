/** The retry loop of the live QA run (`verifyProductionLiveQa` in `production-live-qa.ts`): one model request is
    triggered, then usage log, stats and wallet are re-read until all three agree that exactly that request was
    billed. */
module Reconciliation {
  import opened JsText
  import opened UsageSnapshot
  import opened UsageDifference
  import opened QaErrors
  import Approval
  import JsonValue
  import OperationHistory

  /** `Refused` stands for any transport or source-contract failure. */
  datatype StatsReply =
    | StatsRefused
    | StatsReply(totalRequests: Field, totalInputTokens: Field, totalOutputTokens: Field, totalTokens: Field,
                 totalActualCostUsdMicros: Field)

  datatype WalletReply =
    | WalletRefused
    | WalletReply(status: Status, userId: Field, currency: Field, state: Field, usdMicros: Field)

  datatype KeyItem = KeyItem(id: Field, name: Field, state: Field, showsSecret: bool)

  datatype KeysReply =
    | KeysRefused
    | KeysReply(status: Status, total: Field, items: seq<KeyItem>)

  /** `Reused` is an ok report with status `reused`. */
  datatype ChainStatus = Reused | AcceptanceRequired | NotReusable

  /** The resources of the slot, "" where one is missing. */
  datatype SlotIds = SlotIds(cvmInstance: string, cbsDisk: string, nodePool: string, persistentVolume: string)

  /** What a chain check reports; `runtimeOperations` is the operation snapshot. */
  datatype ChainReport = ChainReport(
    status: ChainStatus, workspaceId: string, slot: SlotIds, ledgerReceipt: JsonValue.Json,
    runtimeOperations: seq<OperationHistory.Row>)

  /** Any server: its answers at each attempt. Attempt 0 is the baseline taken before the model request.
      `access` is the error of login, runtime status or credentials, if any. */
  datatype World = World(
    keys: nat -> KeysReply,
    usage: nat -> nat -> Reply,
    stats: nat -> StatsReply,
    wallet: nat -> WalletReply,
    chainBefore: ChainReport,
    chainAfter: ChainReport,
    access: Option<AccessError>,
    modelCheckPasses: bool)

  /** What the run is called with; `now` is the time of the approval check, `dateParse` what `Date.parse` makes of
      texts that spell no existing date and time. */
  datatype Config = Config(
    expectedModel: string, userId: string, accountId: string, slotId: string,
    approval: Approval.Raw, approvalId: string, now: int, dateParse: string -> Option<int>,
    round: int -> int)

  datatype Baseline = Baseline(wallet: Count, keyId: string, usage: Snapshot, stats: Stats)

  /** The evidence a passing run returns. */
  datatype Evidence = Evidence(request: Record, stats: Stats, wallet: Count)

  // ----- reading one source -----

  function GatewayUsageStats(reply: StatsReply): Result<Stats, QaError> {
    if reply.StatsRefused? then Err(SourceContractInvalid)
    else if IsCount(reply.totalRequests) && IsCount(reply.totalInputTokens) && IsCount(reply.totalOutputTokens)
            && IsCount(reply.totalTokens) && IsCount(reply.totalActualCostUsdMicros)
    then Ok(Stats(reply.totalRequests.n, reply.totalInputTokens.n, reply.totalOutputTokens.n,
                  reply.totalTokens.n, reply.totalActualCostUsdMicros.n))
    else Err(UsageStatsInvalid)
  }

  function WalletFact(reply: WalletReply, userId: string): Result<Count, QaError> {
    if reply.WalletRefused? then Err(SourceContractInvalid)
    else if reply.status == Available && Shown(reply.userId) == userId && reply.currency == Text("USD")
            && reply.state == Text("active") && IsCount(reply.usdMicros)
    then Ok(reply.usdMicros.n)
    else Err(WalletRequired)
  }

  /** `expectedId` "" accepts any key. */
  function DedicatedWorkspaceKey(reply: KeysReply, expectedId: string): Result<string, QaError> {
    if reply.KeysRefused? then Err(SourceContractInvalid)
    else if reply.status == Available && reply.total == Int(1) && |reply.items| == 1
            && AllDigits(Shown(reply.items[0].id)) && reply.items[0].name == Text("opl-workspace")
            && reply.items[0].state == Text("active")
            && (expectedId == "" || Shown(reply.items[0].id) == expectedId) && !reply.items[0].showsSecret
    then Ok(Shown(reply.items[0].id))
    else Err(WorkspaceKeyRequired)
  }

  // ----- what one attempt finds -----

  datatype Finding =
    | Fault(error: QaError)
    | Absent
    | Found(evidence: Evidence, statsMatch: bool, balanceMatch: bool)
  {
    predicate Settled() {
      Found? && statsMatch && balanceMatch
    }

    predicate Decided() {
      Fault? || Settled()
    }
  }

  function BalanceMatches(before: Count, after: Count, request: Record, round: int -> int): bool
    requires request.actualCostUsdMicros.Int?
  {
    round(before - after) == request.actualCostUsdMicros.n
  }

  /** A finding's verdicts are those on its own evidence. */
  ghost predicate Sound(finding: Finding, base: Baseline, config: Config) {
    finding.Found? ==>
      var e := finding.evidence;
      && HasTokenCounts(e.request) && e.request.actualCostUsdMicros.Int?
      && finding.statsMatch == StatsMatchRequest(base.stats, e.stats, e.request, config.round)
      && finding.balanceMatch == BalanceMatches(base.wallet, e.wallet, e.request, config.round)
  }

  /** Attempt `k` by itself: it depends on the baseline and on what the server answers during it, on nothing else. */
  ghost function FindingAt(w: World, config: Config, base: Baseline, k: nat): (finding: Finding)
    ensures !finding.Fault? ==>
              && TakeSnapshot(w.usage(k)).Ok?
              && var r := ExactUsageRecord(base.usage, TakeSnapshot(w.usage(k)).value, config.expectedModel, base.keyId,
                                           config.round);
              r.Ok? && (finding.Absent? <==> r.value.None?)
    ensures finding.Found? ==>
              ExactUsageRecord(base.usage, TakeSnapshot(w.usage(k)).value, config.expectedModel, base.keyId, config.round)
              == Ok(Some(finding.evidence.request))
    ensures Sound(finding, base, config)
  {
    var key := DedicatedWorkspaceKey(w.keys(k), base.keyId);
    if key.Err? then Fault(key.error) else
    var usage := TakeSnapshot(w.usage(k));
    if usage.Err? then Fault(usage.error) else
    var request := ExactUsageRecord(base.usage, usage.value, config.expectedModel, base.keyId, config.round);
    if request.Err? then Fault(request.error) else
    if request.value.None? then Absent else
    RequestIsValid(base.usage, usage.value, config, base.keyId);
    var stats := GatewayUsageStats(w.stats(k));
    if stats.Err? then Fault(stats.error) else
    var wallet := WalletFact(w.wallet(k), config.userId);
    if wallet.Err? then Fault(wallet.error) else
    Found(Evidence(request.value.value, stats.value, wallet.value),
          StatsMatchRequest(base.stats, stats.value, request.value.value, config.round),
          BalanceMatches(base.wallet, wallet.value, request.value.value, config.round))
  }

  lemma RequestIsValid(before: Snapshot, after: Snapshot, config: Config, keyId: string)
    ensures var r := ExactUsageRecord(before, after, config.expectedModel, keyId, config.round);
            r.Ok? && r.value.Some? ==> ValidUsage(r.value.value, config.expectedModel, keyId, config.round)
  {
  }

  /** The findings of all attempts of a run. */
  ghost function Findings(w: World, config: Config, base: Baseline): nat -> Finding {
    (k: nat) => FindingAt(w, config, base, k)
  }

  /** The attempt the loop stops at: the first one that fails or settles, else the last. */
  ghost function StopsAt(findings: nat -> Finding, attempts: nat, k: nat): (stop: nat)
    requires k <= attempts
    ensures k <= stop <= attempts
    ensures forall j | k <= j < stop :: !findings(j).Decided()
    ensures stop < attempts ==> findings(stop).Decided()
    decreases attempts - k
  {
    if k == attempts || findings(k).Decided() then k
    else StopsAt(findings, attempts, k + 1)
  }

  lemma {:induction false} StopIsFirst(findings: nat -> Finding, attempts: nat, k: nat, stop: nat)
    requires k <= stop <= attempts
    requires forall j | k <= j < stop :: !findings(j).Decided()
    requires stop == attempts || findings(stop).Decided()
    ensures StopsAt(findings, attempts, k) == stop
    decreases stop - k
  {
    if k < stop {
      StopIsFirst(findings, attempts, k + 1, stop);
    }
  }

  /** What the loop and the checks after it make of the attempt they stop at. */
  function Conclusion(last: Finding): Result<Evidence, QaError> {
    match last
    case Fault(error) => Err(error)
    case Absent => Err(RequestNotFound)
    case Found(evidence, statsMatch, balanceMatch) =>
      if !statsMatch then Err(UsageStatsMismatch)
      else if !balanceMatch then Err(BalanceDeltaMismatch)
      else Ok(evidence)
  }

  // ----- the loop of the script -----

  /** Lines 452 to 459 of `production-live-qa.ts`: the reads of one attempt. */
  method ReadAttempt(w: World, config: Config, base: Baseline, attempt: nat) returns (finding: Finding)
    ensures finding == FindingAt(w, config, base, attempt)
  {
    var key := DedicatedWorkspaceKey(w.keys(attempt), base.keyId);
    if key.Err? {
      return Fault(key.error);
    }
    var usageAfter, _ := GatewayUsageSnapshot(w.usage(attempt));
    if usageAfter.Err? {
      return Fault(usageAfter.error);
    }
    var requestUsage :=
      ExactUsageRecord(base.usage, usageAfter.value, config.expectedModel, base.keyId, config.round);
    if requestUsage.Err? {
      return Fault(requestUsage.error);
    }
    if requestUsage.value.None? {
      return Absent;
    }
    var stats := GatewayUsageStats(w.stats(attempt));
    if stats.Err? {
      return Fault(stats.error);
    }
    var wallet := WalletFact(w.wallet(attempt), config.userId);
    if wallet.Err? {
      return Fault(wallet.error);
    }
    RequestIsValid(base.usage, usageAfter.value, config, base.keyId);
    finding := Found(Evidence(requestUsage.value.value, stats.value, wallet.value),
                     StatsMatchRequest(base.stats, stats.value, requestUsage.value.value, config.round),
                     BalanceMatches(base.wallet, wallet.value, requestUsage.value.value, config.round));
  }

  /** Lines 443 to 465 of `production-live-qa.ts`. The loop keeps the last record, stats and wallet it read and two
      mismatch flags in variables that outlive an attempt; when it stops they are those of the attempt it stops
      at. */
  method RetryLoop(w: World, config: Config, base: Baseline, attempts: nat, ghost findings: nat -> Finding)
    returns (fault: Option<QaError>, requestUsage: Option<Record>, statsAfter: Option<Stats>, walletAfter: Option<Count>,
             statsMismatch: bool, balanceMismatch: bool, readAttempts: nat)
    requires attempts >= 1
    requires forall k: nat {:trigger FindingAt(w, config, base, k)} :: findings(k) == FindingAt(w, config, base, k)
    ensures readAttempts == StopsAt(findings, attempts, 1)
    ensures if fault.Some? then findings(readAttempts) == Fault(fault.value)
            else Remembers(findings(readAttempts), base, config, requestUsage, statsAfter, walletAfter,
                           statsMismatch, balanceMismatch)
  {
    fault, requestUsage, statsAfter, walletAfter := None, None, None, None;
    statsMismatch, balanceMismatch := false, false;
    readAttempts := 0;
    var attempt := 1;
    while attempt <= attempts
      invariant 1 <= attempt <= attempts + 1 && readAttempts == attempt - 1 && fault.None?
      invariant forall j | 1 <= j < attempt :: !findings(j).Decided()
      invariant attempt > 1 ==> Remembers(findings(attempt - 1), base, config, requestUsage, statsAfter, walletAfter,
                                          statsMismatch, balanceMismatch)
    {
      readAttempts := attempt;
      var finding := ReadNext(w, config, base, attempt, findings);
      if finding.Fault? {
        fault := Some(finding.error);
        break;
      }
      requestUsage, statsAfter, walletAfter, statsMismatch, balanceMismatch :=
        Remember(config, base, finding, statsAfter, walletAfter, statsMismatch, balanceMismatch);
      if finding.Settled() {
        break;
      }
      attempt := attempt + 1;
    }
    StopIsFirst(findings, attempts, 1, readAttempts);
  }

  method ReadNext(w: World, config: Config, base: Baseline, attempt: nat, ghost findings: nat -> Finding)
    returns (finding: Finding)
    requires forall k: nat {:trigger FindingAt(w, config, base, k)} :: findings(k) == FindingAt(w, config, base, k)
    ensures finding == findings(attempt) && Sound(finding, base, config)
  {
    finding := ReadAttempt(w, config, base, attempt);
  }

  /** Lines 454 to 462 of `production-live-qa.ts`: what an attempt does to the variables. */
  method Remember(ghost config: Config, ghost base: Baseline, finding: Finding,
                  statsBefore: Option<Stats>, walletBefore: Option<Count>, statsFlag: bool, balanceFlag: bool)
    returns (requestUsage: Option<Record>, statsAfter: Option<Stats>, walletAfter: Option<Count>,
             statsMismatch: bool, balanceMismatch: bool)
    requires Sound(finding, base, config) && !finding.Fault?
    ensures Remembers(finding, base, config, requestUsage, statsAfter, walletAfter, statsMismatch, balanceMismatch)
    ensures finding.Absent? || finding.Settled() ==> statsMismatch == statsFlag && balanceMismatch == balanceFlag
    ensures finding.Absent? ==> statsAfter == statsBefore && walletAfter == walletBefore
    ensures statsFlag ==> statsMismatch
    ensures balanceFlag ==> balanceMismatch
  {
    requestUsage, statsAfter, walletAfter := None, statsBefore, walletBefore;
    statsMismatch, balanceMismatch := statsFlag, balanceFlag;
    if finding.Found? {
      requestUsage := Some(finding.evidence.request);
      statsAfter, walletAfter := Some(finding.evidence.stats), Some(finding.evidence.wallet);
      if !(finding.statsMatch && finding.balanceMatch) {
        statsMismatch := statsMismatch || !finding.statsMatch;
        balanceMismatch := balanceMismatch || !finding.balanceMatch;
      }
    }
  }

  /** Lines 443 to 470 of `production-live-qa.ts`. Although the checks after the loop look at variables that outlive an
      attempt, the outcome is that of the attempt the loop stops at. In particular the fallbacks
      `UsageStatsInvalid` and `WalletInvalid` of these checks are never taken. */
  method Reconcile(w: World, config: Config, base: Baseline, attempts: nat, ghost findings: nat -> Finding)
    returns (outcome: Result<Evidence, QaError>, readAttempts: nat)
    requires attempts >= 1
    requires forall k: nat {:trigger FindingAt(w, config, base, k)} :: findings(k) == FindingAt(w, config, base, k)
    ensures readAttempts == StopsAt(findings, attempts, 1)
    ensures outcome == Conclusion(findings(readAttempts))
    ensures outcome == Err(UsageStatsInvalid) ==> findings(readAttempts) == Fault(UsageStatsInvalid)
    ensures outcome == Err(WalletInvalid) ==> findings(readAttempts) == Fault(WalletInvalid)
  {
    var fault, requestUsage, statsAfter, walletAfter, statsMismatch, balanceMismatch, stop :=
      RetryLoop(w, config, base, attempts, findings);
    readAttempts := stop;
    if fault.Some? {
      return Err(fault.value), readAttempts;
    }
    RememberedConclusion(findings(readAttempts), base, config, requestUsage, statsAfter, walletAfter,
                         statsMismatch, balanceMismatch);
    outcome := AfterTheLoop(base, config, requestUsage, statsAfter, walletAfter, statsMismatch, balanceMismatch);
  }

  /** Lines 466 to 470 of `production-live-qa.ts`. */
  function AfterTheLoop(base: Baseline, config: Config, requestUsage: Option<Record>, statsAfter: Option<Stats>,
                        walletAfter: Option<Count>, statsMismatch: bool, balanceMismatch: bool)
    : Result<Evidence, QaError>
    requires requestUsage.Some? ==>
               HasTokenCounts(requestUsage.value) && requestUsage.value.actualCostUsdMicros.Int?
  {
    if requestUsage.None? then Err(RequestNotFound)
    else if statsAfter.None? || !StatsMatchRequest(base.stats, statsAfter.value, requestUsage.value, config.round)
    then Err(if statsMismatch then UsageStatsMismatch else UsageStatsInvalid)
    else if walletAfter.None? || !BalanceMatches(base.wallet, walletAfter.value, requestUsage.value, config.round)
    then Err(if balanceMismatch then BalanceDeltaMismatch else WalletInvalid)
    else Ok(Evidence(requestUsage.value, statsAfter.value, walletAfter.value))
  }

  /** After an attempt without a fault the variables hold its record, and its stats and wallet if it found a
      record; a mismatch it saw has raised its flag. */
  ghost predicate Remembers(finding: Finding, base: Baseline, config: Config, requestUsage: Option<Record>,
                            statsAfter: Option<Stats>, walletAfter: Option<Count>,
                            statsMismatch: bool, balanceMismatch: bool)
  {
    match finding
    case Fault(_) => false
    case Absent => requestUsage == None
    case Found(e, statsMatch, balanceMatch) =>
      && requestUsage == Some(e.request) && statsAfter == Some(e.stats) && walletAfter == Some(e.wallet)
      && HasTokenCounts(e.request) && e.request.actualCostUsdMicros.Int?
      && statsMatch == StatsMatchRequest(base.stats, e.stats, e.request, config.round)
      && balanceMatch == BalanceMatches(base.wallet, e.wallet, e.request, config.round)
      && (!statsMatch ==> statsMismatch) && (!balanceMatch ==> balanceMismatch)
  }

  /** The checks after the loop conclude what the last attempt says, and never reach their fallbacks. */
  lemma RememberedConclusion(finding: Finding, base: Baseline, config: Config, requestUsage: Option<Record>,
                             statsAfter: Option<Stats>, walletAfter: Option<Count>,
                             statsMismatch: bool, balanceMismatch: bool)
    requires Remembers(finding, base, config, requestUsage, statsAfter, walletAfter, statsMismatch, balanceMismatch)
    ensures AfterTheLoop(base, config, requestUsage, statsAfter, walletAfter, statsMismatch, balanceMismatch)
            == Conclusion(finding)
    ensures Conclusion(finding).Err? ==>
              Conclusion(finding).error in {RequestNotFound, UsageStatsMismatch, BalanceDeltaMismatch}
  {
  }

  /** No read fails with `WalletInvalid`, and a run that reads stats without failing never ends in
      `UsageStatsInvalid`: both are left to the unreachable fallbacks. */
  lemma FallbacksUnreachable(w: World, config: Config, base: Baseline, k: nat)
    ensures Conclusion(FindingAt(w, config, base, k)) != Err(WalletInvalid)
    ensures Conclusion(FindingAt(w, config, base, k)) == Err(UsageStatsInvalid) ==>
              GatewayUsageStats(w.stats(k)) == Err(UsageStatsInvalid)
  {
    if TakeSnapshot(w.usage(k)).Err? {
      SnapshotErrors(w.usage(k));
    } else {
      DifferenceErrors(base.usage, TakeSnapshot(w.usage(k)).value, config, base.keyId);
    }
  }

  lemma SnapshotErrors(read: nat -> Reply)
    requires TakeSnapshot(read).Err?
    ensures TakeSnapshot(read).error
            in {SourceContractInvalid, SnapshotLimitExceeded, SnapshotInvalid, SnapshotChanged}
  {
    var p :| FailsAt(read, p, TakeSnapshot(read).error);
  }

  lemma DifferenceErrors(before: Snapshot, after: Snapshot, config: Config, keyId: string)
    ensures var r := ExactUsageRecord(before, after, config.expectedModel, keyId, config.round);
            r.Err? ==> r.error in {CardinalityMismatch, RequestUsageInvalid}
  {
  }

  // ----- what the sources must say -----

  function ShowsStats(s: Stats): StatsReply {
    StatsReply(Int(s.totalRequests), Int(s.totalInputTokens), Int(s.totalOutputTokens), Int(s.totalTokens),
               Int(s.totalActualCostUsdMicros))
  }

  /** Stats are read exactly from a reply of five counts, each under its own name; a refused request and a reply of
      anything else are told apart. */
  lemma StatsIff(reply: StatsReply)
    ensures forall s :: GatewayUsageStats(reply) == Ok(s) <==> reply == ShowsStats(s)
    ensures GatewayUsageStats(reply) == Err(SourceContractInvalid) <==> reply.StatsRefused?
    ensures GatewayUsageStats(reply).Err? ==> GatewayUsageStats(reply).error in {SourceContractInvalid, UsageStatsInvalid}
  {
    if GatewayUsageStats(reply).Ok? {
      assert reply == ShowsStats(GatewayUsageStats(reply).value);
    }
  }

  /** The wallet is read exactly from an available, active wallet in dollars of this very user; any other makes the
      attempt fail. */
  lemma WalletIff(reply: WalletReply, userId: string)
    ensures forall n :: WalletFact(reply, userId) == Ok(n) <==>
              && reply.WalletReply? && reply.status.Available? && Shown(reply.userId) == userId
              && reply.currency == Text("USD") && reply.state == Text("active")
              && reply.usdMicros.Int? && reply.usdMicros.n == n && n >= 0
    ensures WalletFact(reply, userId) == Err(SourceContractInvalid) <==> reply.WalletRefused?
    ensures WalletFact(reply, userId).Err? ==> WalletFact(reply, userId).error in {SourceContractInvalid, WalletRequired}
  {
  }

  /** The key is read exactly from a listing of one active key named `opl-workspace`, of a decimal id, that shows no
      secret; and if a key is expected, only that one will do. */
  lemma KeyIff(reply: KeysReply, expectedId: string)
    ensures forall id :: DedicatedWorkspaceKey(reply, expectedId) == Ok(id) <==>
              && reply.KeysReply? && reply.status.Available? && reply.total == Int(1) && |reply.items| == 1
              && reply.items[0].name == Text("opl-workspace") && reply.items[0].state == Text("active")
              && !reply.items[0].showsSecret
              && id == Shown(reply.items[0].id) && AllDigits(id) && (expectedId == "" || id == expectedId)
    ensures DedicatedWorkspaceKey(reply, expectedId) == Err(SourceContractInvalid) <==> reply.KeysRefused?
    ensures DedicatedWorkspaceKey(reply, expectedId).Err? ==>
              DedicatedWorkspaceKey(reply, expectedId).error in {SourceContractInvalid, WorkspaceKeyRequired}
  {
  }

  /** A key that is no longer the baseline's ends the attempt. */
  lemma ChangedKeyFails(w: World, config: Config, base: Baseline, k: nat)
    requires w.keys(k).KeysReply? && base.keyId != ""
    requires |w.keys(k).items| == 1 && Shown(w.keys(k).items[0].id) != base.keyId
    ensures FindingAt(w, config, base, k) == Fault(WorkspaceKeyRequired)
  {
    KeyIff(w.keys(k), base.keyId);
  }

  /** Once a record is found, another user's wallet ends the attempt. */
  lemma OtherWalletFails(w: World, config: Config, base: Baseline, k: nat)
    requires w.wallet(k).WalletReply? && Shown(w.wallet(k).userId) != config.userId
    ensures !FindingAt(w, config, base, k).Found?
  {
    WalletIff(w.wallet(k), config.userId);
  }

  /** An attempt that fails ends the loop, and its error is the outcome. */
  lemma FaultEndsTheLoop(w: World, config: Config, base: Baseline, attempts: nat, k: nat, error: QaError)
    requires 1 <= k <= attempts && FindingAt(w, config, base, k) == Fault(error)
    requires forall j | 1 <= j < k :: !FindingAt(w, config, base, j).Fault? && !FindingAt(w, config, base, j).Settled()
    ensures StopsAt(Findings(w, config, base), attempts, 1) == k
    ensures Conclusion(FindingAt(w, config, base, k)) == Err(error)
  {
    StopIsFirst(Findings(w, config, base), attempts, 1, k);
  }
}
