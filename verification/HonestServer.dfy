/** A server that bills the model request correctly, and the run against it from end to end. */
module HonestServer {
  import opened JsText
  import opened QaErrors
  import opened UsageSnapshot
  import opened GrowingLog
  import opened UsageDifference
  import opened Reconciliation
  import opened LiveQa
  import opened Convergence

  /** What the server holds before the model request. */
  datatype Account = Account(log: seq<Record>, stats: Stats, wallet: Count, keyId: string)

  /** `r` can be billed to the account: it is new, the log has room for it, the wallet covers it, and no sum
      leaves the safe range. */
  ghost predicate Billable(a: Account, r: Record, config: Config) {
    && AllDigits(a.keyId)
    && GoodIds(a.log) && |a.log| < MAX_USAGE_ITEMS
    && IsNewRequest(a.log, r, config, a.keyId)
    && r.actualCostUsdMicros.n <= a.wallet
    && a.stats.totalRequests < MAX_SAFE_INTEGER
    && a.stats.totalInputTokens + r.inputTokens.n <= MAX_SAFE_INTEGER
    && a.stats.totalOutputTokens + r.outputTokens.n <= MAX_SAFE_INTEGER
    && a.stats.totalTokens + r.inputTokens.n + r.outputTokens.n + r.cacheCreationTokens.n + r.cacheReadTokens.n
       <= MAX_SAFE_INTEGER
    && a.stats.totalActualCostUsdMicros + r.actualCostUsdMicros.n <= MAX_SAFE_INTEGER
  }

  /** The slot is reusable, and the approval covers a request on the account's key. */
  ghost predicate IsReady(a: Account, config: Config, chain: ChainReport) {
    chain.status.Reused? && ResourceIds(chain.slot).Ok? && ApprovalOf(config, chain.workspaceId, a.keyId).Ok?
  }

  /** The account once `r` is billed. */
  ghost function Billed(a: Account, r: Record, config: Config): (b: Account)
    requires Billable(a, r, config)
    ensures b.log == a.log + [r] && BilledOnce(a.stats, b.stats, r) && a.wallet == b.wallet + r.actualCostUsdMicros.n
  {
    Account(
      a.log + [r],
      Stats(a.stats.totalRequests + 1, a.stats.totalInputTokens + r.inputTokens.n,
            a.stats.totalOutputTokens + r.outputTokens.n,
            a.stats.totalTokens + r.inputTokens.n + r.outputTokens.n + r.cacheCreationTokens.n + r.cacheReadTokens.n,
            a.stats.totalActualCostUsdMicros + r.actualCostUsdMicros.n),
      a.wallet - r.actualCostUsdMicros.n,
      a.keyId)
  }

  ghost function ShowsKey(keyId: string): KeysReply {
    KeysReply(Available, Int(1), [KeyItem(Text(keyId), Text("opl-workspace"), Text("active"), false)])
  }

  ghost function ShowsWallet(wallet: Count, userId: string): WalletReply {
    WalletReply(Available, Text(userId), Text("USD"), Text("active"), Int(wallet))
  }

  /** The account the server shows during each attempt. */
  ghost function Timeline(a: Account, r: Record, config: Config, k: nat): nat -> Account
    requires Billable(a, r, config)
  {
    (attempt: nat) => if attempt < k then a else Billed(a, r, config)
  }

  ghost function LogOf(account: nat -> Account): nat -> seq<Record> {
    (attempt: nat) => account(attempt).log
  }

  ghost function StillLogs(log: nat -> seq<Record>): nat -> nat -> seq<Record> {
    (attempt: nat) => Still(log(attempt))
  }

  ghost function ShowsAccounts(account: nat -> Account, config: Config, chain: ChainReport): World {
    World((attempt: nat) => ShowsKey(account(attempt).keyId),
          (attempt: nat) => Serving(Still(account(attempt).log)),
          (attempt: nat) => ShowsStats(account(attempt).stats),
          (attempt: nat) => ShowsWallet(account(attempt).wallet, config.userId),
          chain, chain, None, true)
  }

  /** The server shows the request's record, stats and wallet from attempt `k` on. */
  ghost function BillsAt(a: Account, r: Record, config: Config, chain: ChainReport, k: nat): World
    requires Billable(a, r, config)
  {
    ShowsAccounts(Timeline(a, r, config, k), config, chain)
  }

  lemma LogShown(a: Account, r: Record, config: Config, k: nat, attempt: nat, page: nat)
    requires Billable(a, r, config)
    ensures var log := LogOf(Timeline(a, r, config, k));
            && log(attempt) == (if attempt < k then a.log else a.log + [r])
            && StillLogs(log)(attempt)(page) == log(attempt)
  {
    var account, log := Timeline(a, r, config, k), LogOf(Timeline(a, r, config, k));
    assert log(attempt) == account(attempt).log;
    assert account(attempt) == if attempt < k then a else Billed(a, r, config);
    assert StillLogs(log)(attempt) == Still(log(attempt));
  }

  lemma TimelineGrows(a: Account, r: Record, config: Config, k: nat)
    requires Billable(a, r, config)
    ensures GrowingRun(StillLogs(LogOf(Timeline(a, r, config, k))))
  {
    var log := StillLogs(LogOf(Timeline(a, r, config, k)));
    GrowsToItself(a.log);
    GrowsToItself(a.log + [r]);
    AppendingGrows(a.log, [r]);
    forall i: nat, p: nat, j: nat, q: nat | i < j || (i == j && p <= q) ensures GrowsTo(log(i)(p), log(j)(q)) {
      LogShown(a, r, config, k, i, p);
      LogShown(a, r, config, k, j, q);
    }
  }

  lemma ReadsBack(b: Account, userId: string)
    requires AllDigits(b.keyId)
    ensures DedicatedWorkspaceKey(ShowsKey(b.keyId), "") == Ok(b.keyId)
    ensures DedicatedWorkspaceKey(ShowsKey(b.keyId), b.keyId) == Ok(b.keyId)
    ensures GatewayUsageStats(ShowsStats(b.stats)) == Ok(b.stats)
    ensures WalletFact(ShowsWallet(b.wallet, userId), userId) == Ok(b.wallet)
  {
  }

  ghost function BaselineFrom(a: Account): Baseline {
    Baseline(a.wallet, a.keyId, Snapshot(|a.log|, Ids(a.log), a.log), a.stats)
  }

  lemma BaselineRead(a: Account, r: Record, config: Config, chain: ChainReport, k: nat)
    requires Billable(a, r, config) && k >= 1
    ensures BaselineOf(BillsAt(a, r, config, chain, k), config) == Ok(BaselineFrom(a))
  {
    var w := BillsAt(a, r, config, chain, k);
    AttemptShows(a, r, config, chain, k, 0);
    ReadsBack(a, config.userId);
    StillLogIsReadable(Still(a.log));
    assert TakeSnapshot(w.usage(0)) == Ok(BaselineFrom(a).usage);
  }

  lemma AttemptShows(a: Account, r: Record, config: Config, chain: ChainReport, k: nat, j: nat)
    requires Billable(a, r, config)
    ensures var w, b := BillsAt(a, r, config, chain, k), if j < k then a else Billed(a, r, config);
            && w.keys(j) == ShowsKey(b.keyId) && w.usage(j) == Serving(Still(b.log))
            && w.stats(j) == ShowsStats(b.stats) && w.wallet(j) == ShowsWallet(b.wallet, config.userId)
            && LogOf(Timeline(a, r, config, k))(j) == b.log
  {
  }

  lemma EveryAttemptShows(a: Account, r: Record, config: Config, chain: ChainReport, k: nat, j: nat)
    requires Billable(a, r, config)
    ensures var w, log := BillsAt(a, r, config, chain, k), LogOf(Timeline(a, r, config, k));
            && ShowsOldOrNew(w, config, BaselineFrom(a), log, r, j)
            && (ServerSettled(w, config, BaselineFrom(a), log, r, j) <==> j >= k)
  {
    AttemptShows(a, r, config, chain, k, j);
    if j < k {
      ReadsBack(a, config.userId);
      OldLogIsNotNew(a.log, r);
    } else {
      ReadsBack(Billed(a, r, config), config.userId);
      assert a.log + [r] == a.log[..|a.log|] + [r] + a.log[|a.log|..];
      assert OneMore(a.log, a.log + [r], r);
    }
  }

  /** The retry loop by itself stops at attempt k, with the bill. */
  lemma BillFound(a: Account, r: Record, config: Config, chain: ChainReport, k: nat, attempts: nat)
    requires Billable(a, r, config) && NumberRounding(config.round) && 1 <= k <= attempts
    ensures var w, base := BillsAt(a, r, config, chain, k), BaselineFrom(a);
            && StopsAt(Findings(w, config, base), attempts, 1) == k
            && FindingAt(w, config, base, k).Settled()
            && FindingAt(w, config, base, k).evidence.request == r
  {
    var w, log, base := BillsAt(a, r, config, chain, k), LogOf(Timeline(a, r, config, k)), BaselineFrom(a);
    forall j: nat
      ensures ShowsOldOrNew(w, config, base, log, r, j) && (ServerSettled(w, config, base, log, r, j) <==> j >= k)
    {
      EveryAttemptShows(a, r, config, chain, k, j);
    }
    LoopConverges(w, config, base, attempts, log, r, k);
  }

  lemma BillEvidence(a: Account, r: Record, config: Config, chain: ChainReport, k: nat)
    requires Billable(a, r, config)
    requires FindingAt(BillsAt(a, r, config, chain, k), config, BaselineFrom(a), k).Found?
    ensures var e := FindingAt(BillsAt(a, r, config, chain, k), config, BaselineFrom(a), k).evidence;
            e.stats == Billed(a, r, config).stats && e.wallet == Billed(a, r, config).wallet
  {
    AttemptShows(a, r, config, chain, k, k);
    ReadsBack(Billed(a, r, config), config.userId);
  }

  lemma BillShows(a: Account, r: Record, config: Config, chain: ChainReport, k: nat, attempts: nat)
    requires Billable(a, r, config) && NumberRounding(config.round) && IsReady(a, config, chain)
    requires 1 <= k <= attempts
    ensures var w := BillsAt(a, r, config, chain, k);
            && Passes(w, config, attempts)
            && LastAttempt(w, config, attempts) == k
            && LastFinding(w, config, attempts).evidence
               == Evidence(r, Billed(a, r, config).stats, Billed(a, r, config).wallet)
  {
    BaselineRead(a, r, config, chain, k);
    BillFound(a, r, config, chain, k, attempts);
    BillEvidence(a, r, config, chain, k);
  }

  lemma NothingYet(a: Account, r: Record, config: Config, chain: ChainReport, k: nat, j: nat)
    requires Billable(a, r, config) && j < k
    ensures FindingAt(BillsAt(a, r, config, chain, k), config, BaselineFrom(a), j) == Absent
  {
    EveryAttemptShows(a, r, config, chain, k, j);
    AttemptShows(a, r, config, chain, k, j);
    NeverFound(BillsAt(a, r, config, chain, k), config, BaselineFrom(a), LogOf(Timeline(a, r, config, k)), r, j);
  }

  lemma BillTooLate(a: Account, r: Record, config: Config, chain: ChainReport, k: nat, attempts: nat)
    requires Billable(a, r, config) && NumberRounding(config.round) && IsReady(a, config, chain)
    requires 1 <= attempts < k
    ensures var w := BillsAt(a, r, config, chain, k);
            && !Passes(w, config, attempts) && FailureOf(w, config, attempts) == RequestNotFound
  {
    BaselineRead(a, r, config, chain, k);
    NothingYet(a, r, config, chain, k, LastAttempt(BillsAt(a, r, config, chain, k), config, attempts));
  }

  /** Against a server that bills the request correctly and shows it from attempt k on, the usage log only grows,
      and the run passes, at attempt k and with the evidence of that one bill, exactly when k is within the
      limit; else it reports that the request was not found. */
  lemma RunAgainstHonestServer(a: Account, r: Record, config: Config, chain: ChainReport, k: nat, attempts: nat)
    requires Billable(a, r, config) && NumberRounding(config.round) && IsReady(a, config, chain)
    requires 1 <= k && 1 <= attempts
    ensures var w := BillsAt(a, r, config, chain, k);
            var log := StillLogs(LogOf(Timeline(a, r, config, k)));
            && GrowingRun(log) && ServesLog(w, log)
            && (Passes(w, config, attempts) <==> k <= attempts)
            && (k <= attempts ==>
                  && LastAttempt(w, config, attempts) == k
                  && LastFinding(w, config, attempts).evidence
                     == Evidence(r, Billed(a, r, config).stats, Billed(a, r, config).wallet))
            && (k > attempts ==> FailureOf(w, config, attempts) == RequestNotFound)
  {
    TimelineGrows(a, r, config, k);
    if k <= attempts {
      BillShows(a, r, config, chain, k, attempts);
    } else {
      BillTooLate(a, r, config, chain, k, attempts);
    }
  }

  /** An attempt that sees the old log finds nothing. */
  lemma NeverFound(w: World, config: Config, base: Baseline, log: nat -> seq<Record>, r: Record, j: nat)
    requires WellBuilt(base.usage) && |base.usage.items| < MAX_USAGE_ITEMS
    requires ShowsOldOrNew(w, config, base, log, r, j) && log(j) == base.usage.items
    ensures FindingAt(w, config, base, j) == Absent
  {
    StillLogIsReadable(Still(log(j)));
    DifferenceIsExact(base.usage, base.usage, config.expectedModel, base.keyId, config.round);
  }
}
