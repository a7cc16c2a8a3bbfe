/** Once the server has settled, the retry loop finds out. */
module Convergence {
  import opened JsText
  import opened UsageSnapshot
  import opened GrowingLog
  import opened UsageDifference
  import opened Reconciliation
  import opened LiveQa

  /** The record of the model request: valid, under an id the log `before` does not have. */
  ghost predicate IsNewRequest(before: seq<Record>, r: Record, config: Config, keyId: string) {
    && ValidUsage(r, config.expectedModel, keyId, config.round)
    && r.requestId == Text(RequestId(r)) && RequestId(r) != ""
    && forall x | x in before :: RequestId(x) != RequestId(r)
  }

  /** During attempt `j` the server shows either the old log, or the old log and the record `r` along with
      some stats and wallet. */
  ghost predicate ShowsOldOrNew(w: World, config: Config, base: Baseline, log: nat -> seq<Record>, r: Record, j: nat) {
    && DedicatedWorkspaceKey(w.keys(j), base.keyId).Ok?
    && w.usage(j) == Serving(Still(log(j)))
    && (|| log(j) == base.usage.items
        || (&& OneMore(base.usage.items, log(j), r)
            && GatewayUsageStats(w.stats(j)).Ok?
            && WalletFact(w.wallet(j), config.userId).Ok?))
  }

  /** During attempt `j` log, stats and wallet of the server agree that `r` was billed. */
  ghost predicate ServerSettled(w: World, config: Config, base: Baseline, log: nat -> seq<Record>, r: Record, j: nat) {
    && OneMore(base.usage.items, log(j), r)
    && HasTokenCounts(r) && r.actualCostUsdMicros.Int?
    && GatewayUsageStats(w.stats(j)).Ok?
    && BilledOnce(base.stats, GatewayUsageStats(w.stats(j)).value, r)
    && WalletFact(w.wallet(j), config.userId).Ok?
    && base.wallet == WalletFact(w.wallet(j), config.userId).value + r.actualCostUsdMicros.n
  }

  lemma NewLogIsGood(before: seq<Record>, after: seq<Record>, r: Record)
    requires GoodIds(before) && OneMore(before, after, r)
    requires RequestId(r) != "" && forall x | x in before :: RequestId(x) != RequestId(r)
    ensures GoodIds(after) && |after| == |before| + 1
  {
    var i :| 0 <= i <= |before| && after == before[..i] + [r] + before[i..];
    forall j | 0 <= j < |after| ensures RequestId(after[j]) != "" {
      OneMoreAt(before, after, r, i, j);
    }
    forall j, k | 0 <= j < k < |after| ensures RequestId(after[j]) != RequestId(after[k]) {
      OneMoreAt(before, after, r, i, j);
      OneMoreAt(before, after, r, i, k);
    }
  }

  lemma OneMoreAt(before: seq<Record>, after: seq<Record>, r: Record, i: nat, j: nat)
    requires i <= |before| && after == before[..i] + [r] + before[i..] && j < |after|
    ensures j == i ==> after[j] == r
    ensures j < i ==> after[j] == before[j] && after[j] in before
    ensures j > i ==> after[j] == before[j - 1] && after[j] in before
  {
  }

  lemma NewIsTheAddition(s0: Snapshot, s1: Snapshot, r: Record)
    requires WellBuilt(s0) && WellBuilt(s1) && OneMore(s0.items, s1.items, r)
    requires r.requestId == Text(RequestId(r)) && forall x | x in s0.items :: RequestId(x) != RequestId(r)
    ensures IsTheAddition(s0, s1, r)
  {
    IdSetIsImage(s0);
    IdSetIsImage(s1);
    OneMoreMembers(s0.items, s1.items, r);
    forall id ensures id in IdSet(s1) <==> id in IdSet(s0) + {RequestId(r)} {
    }
  }

  lemma OneMoreMembers(a: seq<Record>, b: seq<Record>, r: Record)
    requires OneMore(a, b, r)
    ensures forall x :: x in b <==> x in a || x == r
  {
    var i :| 0 <= i <= |a| && b == a[..i] + [r] + a[i..];
    assert a == a[..i] + a[i..];
  }

  lemma IdSetIsImage(s: Snapshot)
    requires WellBuilt(s)
    ensures forall id :: id in IdSet(s) <==> exists x :: x in s.items && RequestId(x) == id
  {
    forall id | id in IdSet(s) ensures exists x :: x in s.items && RequestId(x) == id {
      var j :| 0 <= j < |s.ids| && s.ids[j] == id;
      assert s.items[j] in s.items;
    }
    forall x | x in s.items ensures RequestId(x) in IdSet(s) {
      IdSetOf(s, x);
    }
  }

  /** Such an attempt never fails: it finds nothing, or `r`, and settles exactly when the server has. */
  lemma AttemptFinds(w: World, config: Config, base: Baseline, log: nat -> seq<Record>, r: Record, j: nat)
    requires NumberRounding(config.round)
    requires WellBuilt(base.usage) && |base.usage.items| < MAX_USAGE_ITEMS
    requires IsNewRequest(base.usage.items, r, config, base.keyId)
    requires ShowsOldOrNew(w, config, base, log, r, j)
    ensures !FindingAt(w, config, base, j).Fault?
    ensures FindingAt(w, config, base, j).Settled() <==> ServerSettled(w, config, base, log, r, j)
    ensures FindingAt(w, config, base, j).Found? ==> FindingAt(w, config, base, j).evidence.request == r
  {
    var s0, at := base.usage, log(j);
    if at != s0.items {
      NewLogIsGood(s0.items, at, r);
    }
    StillLogIsReadable(Still(at));
    var s1 := Snapshot(|at|, Ids(at), at);
    assert TakeSnapshot(w.usage(j)) == Ok(s1);
    DifferenceIsExact(s0, s1, config.expectedModel, base.keyId, config.round);
    if at == s0.items {
      assert s1 == s0;
      OldLogIsNotNew(s0.items, r);
    } else {
      NewIsTheAddition(s0, s1, r);
      FindingVerdicts(w, config, base, j, FindingAt(w, config, base, j));
    }
  }

  lemma OldLogIsNotNew(before: seq<Record>, r: Record)
    ensures !OneMore(before, before, r)
  {
  }

  /** The retry loop by itself: it stops at the first attempt at which the server has settled. */
  lemma LoopConverges(w: World, config: Config, base: Baseline, attempts: nat, log: nat -> seq<Record>, r: Record, k: nat)
    requires NumberRounding(config.round) && 1 <= k <= attempts
    requires WellBuilt(base.usage) && |base.usage.items| < MAX_USAGE_ITEMS
    requires IsNewRequest(base.usage.items, r, config, base.keyId)
    requires forall j | 1 <= j <= k :: ShowsOldOrNew(w, config, base, log, r, j)
    requires ServerSettled(w, config, base, log, r, k)
    ensures var last := StopsAt(Findings(w, config, base), attempts, 1);
            && last <= k
            && ServerSettled(w, config, base, log, r, last)
            && (forall j | 1 <= j < last :: !ServerSettled(w, config, base, log, r, j))
            && FindingAt(w, config, base, last).Settled() && FindingAt(w, config, base, last).evidence.request == r
  {
    var findings := Findings(w, config, base);
    var last := StopsAt(findings, attempts, 1);
    AttemptFinds(w, config, base, log, r, k);
    assert findings(k).Decided();
    assert last <= k;
    AttemptFinds(w, config, base, log, r, last);
    assert last == k || findings(last).Decided();
    forall j | 1 <= j < last ensures !ServerSettled(w, config, base, log, r, j) {
      AttemptFinds(w, config, base, log, r, j);
      assert !findings(j).Decided();
    }
  }

  lemma BaselineIsWellBuilt(w: World, config: Config)
    requires BaselineOf(w, config).Ok?
    ensures WellBuilt(BaselineOf(w, config).value.usage)
  {
    SnapshotsAreWellBuilt(w.usage(0));
  }

  /** Bounded convergence. Suppose that up to some attempt k within the limit every attempt sees either the old
      log, or the old log and the request's record with whatever stats and wallet, and that at attempt k
      the server has settled. Then the run passes, at the first attempt at which the server had settled. */
  lemma BoundedConvergence(w: World, config: Config, attempts: nat, log: nat -> seq<Record>, r: Record, k: nat)
    requires NumberRounding(config.round) && 1 <= k <= attempts
    requires Cleared(w, config) && w.modelCheckPasses && ChainFault(w.chainBefore, w.chainAfter).None?
    requires var base := BaselineOf(w, config).value;
             && |base.usage.items| < MAX_USAGE_ITEMS
             && IsNewRequest(base.usage.items, r, config, base.keyId)
             && (forall j | 1 <= j <= k :: ShowsOldOrNew(w, config, base, log, r, j))
             && ServerSettled(w, config, base, log, r, k)
    ensures Passes(w, config, attempts)
    ensures var base, last := BaselineOf(w, config).value, LastAttempt(w, config, attempts);
            && last <= k
            && ServerSettled(w, config, base, log, r, last)
            && (forall j | 1 <= j < last :: !ServerSettled(w, config, base, log, r, j))
            && LastFinding(w, config, attempts).evidence.request == r
  {
    BaselineIsWellBuilt(w, config);
    LoopConverges(w, config, BaselineOf(w, config).value, attempts, log, r, k);
  }

  lemma LoopSettlesIff(w: World, config: Config, base: Baseline, attempts: nat, log: nat -> seq<Record>, r: Record)
    requires NumberRounding(config.round) && attempts >= 1
    requires WellBuilt(base.usage) && |base.usage.items| < MAX_USAGE_ITEMS
    requires IsNewRequest(base.usage.items, r, config, base.keyId)
    requires forall j | 1 <= j <= attempts :: ShowsOldOrNew(w, config, base, log, r, j)
    ensures FindingAt(w, config, base, StopsAt(Findings(w, config, base), attempts, 1)).Settled()
            <==> exists k :: 1 <= k <= attempts && ServerSettled(w, config, base, log, r, k)
  {
    if exists k :: 1 <= k <= attempts && ServerSettled(w, config, base, log, r, k) {
      var k :| 1 <= k <= attempts && ServerSettled(w, config, base, log, r, k);
      LoopConverges(w, config, base, attempts, log, r, k);
    }
    AttemptFinds(w, config, base, log, r, StopsAt(Findings(w, config, base), attempts, 1));
  }

  /** On a server that never shows anything but the old log or the old log and the request's record, the run passes
      exactly when the server settles within the limit. */
  lemma PassesIffServerSettles(w: World, config: Config, attempts: nat, log: nat -> seq<Record>, r: Record)
    requires NumberRounding(config.round) && attempts >= 1
    requires Cleared(w, config) && w.modelCheckPasses && ChainFault(w.chainBefore, w.chainAfter).None?
    requires var base := BaselineOf(w, config).value;
             && |base.usage.items| < MAX_USAGE_ITEMS
             && IsNewRequest(base.usage.items, r, config, base.keyId)
             && (forall j | 1 <= j <= attempts :: ShowsOldOrNew(w, config, base, log, r, j))
    ensures Passes(w, config, attempts)
            <==> exists k :: 1 <= k <= attempts && ServerSettled(w, config, BaselineOf(w, config).value, log, r, k)
  {
    BaselineIsWellBuilt(w, config);
    LoopSettlesIff(w, config, BaselineOf(w, config).value, attempts, log, r);
  }
}
