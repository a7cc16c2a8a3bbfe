/** What changed between two snapshots, and whether stats and wallet agree with it
    (`exactUsageRecord`, `statsDelta`, `statsMatchRequest`). */
module UsageDifference {
  import opened JsText
  import opened QaErrors
  import opened UsageSnapshot

  type Count = n: int | 0 <= n <= MAX_SAFE_INTEGER

  datatype Stats = Stats(
    totalRequests: Count, totalInputTokens: Count, totalOutputTokens: Count, totalTokens: Count,
    totalActualCostUsdMicros: Count)

  /** Number arithmetic on integers: every result is rounded by a monotone function that is exact
      up to 2^53 in magnitude (section 6.1.6 of ECMA-262, 6th edition). */
  ghost predicate NumberRounding(round: int -> int) {
    && (forall x | -9_007_199_254_740_992 <= x <= 9_007_199_254_740_992 :: round(x) == x)
    && (forall x, y :: KeepsOrder(round, x, y))
  }

  ghost predicate KeepsOrder(round: int -> int, x: int, y: int) {
    x <= y ==> round(x) <= round(y)
  }

  predicate IsCount(field: Field) {
    field.Int? && field.n >= 0
  }

  predicate HasTokenCounts(r: Record) {
    IsCount(r.inputTokens) && IsCount(r.outputTokens) && IsCount(r.cacheCreationTokens) && IsCount(r.cacheReadTokens)
  }

  /** The contract of the one model request (lines 226 to 228 of `production-live-qa.ts`). */
  predicate ValidUsage(r: Record, model: string, keyId: string, round: int -> int) {
    && r.apiKeyId == Text(keyId)
    && r.model == Text(model)
    && r.requestType == Text("sync")
    && r.inboundEndpoint == Text("/v1/responses")
    && HasTokenCounts(r)
    && round(r.inputTokens.n + r.outputTokens.n) >= 1
    && r.actualCostUsdMicros.Int?
    && r.actualCostUsdMicros.n > 0
  }

  /** `[...ids].filter((id) => !known.has(id))`. */
  function Without(ids: seq<string>, known: seq<string>): seq<string> {
    if ids == [] then []
    else (if ids[0] in known then [] else [ids[0]]) + Without(ids[1..], known)
  }

  /** `![...known].some((id) => !ids.has(id))`. */
  predicate HasAll(ids: seq<string>, known: seq<string>) {
    forall id | id in known :: id in ids
  }

  /** The first item whose raw request id is exactly `id`. */
  function Find(items: seq<Record>, id: string): Option<Record> {
    if items == [] then None
    else if items[0].requestId == Text(id) then Some(items[0])
    else Find(items[1..], id)
  }

  /** Ok(None) when nothing was added, Ok(Some(r)) when exactly one valid record was. */
  function ExactUsageRecord(before: Snapshot, after: Snapshot, model: string, keyId: string, round: int -> int)
    : Result<Option<Record>, QaError>
  {
    if after.total == before.total then
      if |after.ids| != |before.ids| || !HasAll(after.ids, before.ids)
      then Err(CardinalityMismatch)
      else Ok(None)
    else if after.total != before.total + 1 || !HasAll(after.ids, before.ids) then
      Err(CardinalityMismatch)
    else
      var added := Without(after.ids, before.ids);
      if |added| != 1 then Err(CardinalityMismatch)
      else
        var record := Find(after.items, added[0]);
        if record.None? || !ValidUsage(record.value, model, keyId, round) then Err(RequestUsageInvalid)
        else Ok(record)
  }

  // ----- what the difference check means -----

  /** As built by the paged read. */
  ghost predicate WellBuilt(s: Snapshot) {
    s.total == |s.items| && s.ids == Ids(s.items) && GoodIds(s.items)
  }

  lemma SnapshotsAreWellBuilt(read: nat -> Reply)
    requires TakeSnapshot(read).Ok?
    ensures WellBuilt(TakeSnapshot(read).value)
  {
  }

  ghost function IdSet(s: Snapshot): set<string> {
    set id | id in s.ids
  }

  lemma HasAllIsSubset(before: Snapshot, after: Snapshot)
    ensures HasAll(after.ids, before.ids) <==> IdSet(before) <= IdSet(after)
  {
    if IdSet(before) <= IdSet(after) {
      forall id | id in before.ids ensures id in after.ids {
        assert id in IdSet(before);
      }
    }
  }

  /** `r` is the one item of `after` whose id is new, and its raw id carries no edge space. */
  ghost predicate IsTheAddition(before: Snapshot, after: Snapshot, r: Record) {
    && r in after.items
    && r.requestId == Text(RequestId(r))
    && RequestId(r) !in IdSet(before)
    && IdSet(after) == IdSet(before) + {RequestId(r)}
  }

  lemma {:induction false} DistinctSize(s: seq<string>)
    requires forall i, j | 0 <= i < j < |s| :: s[i] != s[j]
    ensures |set x | x in s| == |s|
  {
    if s != [] {
      DistinctSize(s[1..]);
      assert (set x | x in s) == {s[0]} + (set x | x in s[1..]);
      assert s[0] !in s[1..];
    }
  }

  lemma {:induction false} WithoutMembers(ids: seq<string>, known: seq<string>)
    requires forall i, j | 0 <= i < j < |ids| :: ids[i] != ids[j]
    ensures forall x :: x in Without(ids, known) <==> x in ids && x !in known
    ensures forall i, j | 0 <= i < j < |Without(ids, known)| :: Without(ids, known)[i] != Without(ids, known)[j]
  {
    if ids != [] {
      WithoutMembers(ids[1..], known);
      assert ids == [ids[0]] + ids[1..];
      assert ids[0] !in ids[1..];
    }
  }

  lemma WithoutSize(ids: seq<string>, known: seq<string>)
    requires forall i, j | 0 <= i < j < |ids| :: ids[i] != ids[j]
    ensures |Without(ids, known)| == |(set x | x in ids) - (set x | x in known)|
  {
    WithoutMembers(ids, known);
    DistinctSize(Without(ids, known));
    assert (set x | x in Without(ids, known)) == (set x | x in ids) - (set x | x in known);
  }

  lemma {:induction false} FindIs(items: seq<Record>, id: string)
    ensures Find(items, id).Some? ==> Find(items, id).value in items && Find(items, id).value.requestId == Text(id)
    ensures Find(items, id).None? ==> forall r | r in items :: r.requestId != Text(id)
  {
    if items != [] && items[0].requestId != Text(id) {
      FindIs(items[1..], id);
    }
  }

  lemma SubsetOfSameSize<T>(a: set<T>, b: set<T>)
    requires a <= b && |a| == |b|
    ensures a == b
  {
    assert b == a + (b - a);
  }

  lemma SizeOfIdSet(s: Snapshot)
    requires WellBuilt(s)
    ensures |IdSet(s)| == s.total
  {
    DistinctSize(s.ids);
  }

  lemma SizesSubtract<T>(a: set<T>, b: set<T>)
    requires a <= b
    ensures |b - a| == |b| - |a|
    ensures |a| == |b| ==> a == b
    ensures forall x | x in b - a && |b| == |a| + 1 :: b == a + {x}
  {
    assert b == a + (b - a);
    forall x | x in b - a && |b| == |a| + 1 ensures b == a + {x} {
      SubsetOfSameSize({x}, b - a);
    }
  }

  /** The totals decide: once the old ids are all there, the size test and the added-length test
      can never fail on their own. */
  lemma TotalsDecide(before: Snapshot, after: Snapshot)
    requires WellBuilt(before) && WellBuilt(after) && HasAll(after.ids, before.ids)
    ensures |after.ids| == after.total && |before.ids| == before.total
    ensures |Without(after.ids, before.ids)| == after.total - before.total
    ensures after.total == before.total ==> IdSet(after) == IdSet(before)
    ensures forall id | after.total == before.total + 1 && id in Without(after.ids, before.ids) ::
              id !in IdSet(before) && IdSet(after) == IdSet(before) + {id}
  {
    SizeOfIdSet(before);
    SizeOfIdSet(after);
    HasAllIsSubset(before, after);
    SizesSubtract(IdSet(before), IdSet(after));
    WithoutSize(after.ids, before.ids);
    forall id | after.total == before.total + 1 && id in Without(after.ids, before.ids)
      ensures id !in IdSet(before) && IdSet(after) == IdSet(before) + {id}
    {
      NewIdIsNew(before, after, id);
    }
  }

  lemma NewIdIsNew(before: Snapshot, after: Snapshot, x: string)
    requires WellBuilt(after) && x in Without(after.ids, before.ids)
    ensures x in IdSet(after) - IdSet(before)
  {
    WithoutMembers(after.ids, before.ids);
  }

  lemma SameIdSameRecord(s: Snapshot, r1: Record, r2: Record)
    requires WellBuilt(s) && r1 in s.items && r2 in s.items && RequestId(r1) == RequestId(r2)
    ensures r1 == r2
  {
  }

  lemma IdSetOf(s: Snapshot, r: Record)
    requires WellBuilt(s) && r in s.items
    ensures RequestId(r) in IdSet(s)
  {
    var i :| 0 <= i < |s.items| && s.items[i] == r;
    assert s.ids[i] == RequestId(r);
  }

  lemma AddingOne(before: Snapshot, after: Snapshot, id: string)
    requires WellBuilt(before) && WellBuilt(after)
    requires id !in IdSet(before) && IdSet(after) == IdSet(before) + {id}
    ensures after.total == before.total + 1
    ensures Without(after.ids, before.ids) == [id]
  {
    DistinctSize(before.ids);
    DistinctSize(after.ids);
    WithoutMembers(after.ids, before.ids);
    WithoutSize(after.ids, before.ids);
    assert IdSet(after) - IdSet(before) == {id};
    var added := Without(after.ids, before.ids);
    assert added[0] in added;
  }

  /** The difference of two snapshots of the paged read is exact: nothing is reported exactly when the id
      sets agree, record r exactly when r is the one addition and valid, and a cardinality mismatch
      exactly when the id sets differ by anything but one addition. */
  lemma DifferenceIsExact(before: Snapshot, after: Snapshot, model: string, keyId: string, round: int -> int)
    requires WellBuilt(before) && WellBuilt(after)
    ensures var r := ExactUsageRecord(before, after, model, keyId, round);
            && (r == Ok(None) <==> IdSet(after) == IdSet(before))
            && (forall x :: r == Ok(Some(x)) <==>
                            IsTheAddition(before, after, x) && ValidUsage(x, model, keyId, round))
            && (r == Err(CardinalityMismatch) <==>
                IdSet(after) != IdSet(before)
                && forall id :: id !in IdSet(before) ==> IdSet(after) != IdSet(before) + {id})
            && (r.Err? ==> r.error == CardinalityMismatch || r.error == RequestUsageInvalid)
  {
    if after.total == before.total {
      NothingAdded(before, after, model, keyId, round);
    } else {
      SizeOfIdSet(before);
      SizeOfIdSet(after);
      if exists id :: id !in IdSet(before) && IdSet(after) == IdSet(before) + {id} {
        var id :| id !in IdSet(before) && IdSet(after) == IdSet(before) + {id};
        OneAdded(before, after, id, model, keyId, round);
      } else {
        NotOneAdded(before, after, model, keyId, round);
      }
    }
  }

  lemma NothingAdded(before: Snapshot, after: Snapshot, model: string, keyId: string, round: int -> int)
    requires WellBuilt(before) && WellBuilt(after) && after.total == before.total
    ensures ExactUsageRecord(before, after, model, keyId, round)
            == if IdSet(after) == IdSet(before) then Ok(None) else Err(CardinalityMismatch)
    ensures forall id :: id !in IdSet(before) ==> IdSet(after) != IdSet(before) + {id}
  {
    SizeOfIdSet(before);
    SizeOfIdSet(after);
    HasAllIsSubset(before, after);
    if IdSet(before) <= IdSet(after) {
      TotalsDecide(before, after);
    }
  }

  lemma NotOneAdded(before: Snapshot, after: Snapshot, model: string, keyId: string, round: int -> int)
    requires WellBuilt(before) && WellBuilt(after) && after.total != before.total
    requires forall id :: id !in IdSet(before) ==> IdSet(after) != IdSet(before) + {id}
    ensures ExactUsageRecord(before, after, model, keyId, round) == Err(CardinalityMismatch)
  {
    if HasAll(after.ids, before.ids) && after.total == before.total + 1 {
      var _ := TheNewId(before, after);
    }
  }

  lemma TheNewId(before: Snapshot, after: Snapshot) returns (id: string)
    requires WellBuilt(before) && WellBuilt(after) && HasAll(after.ids, before.ids)
    requires after.total == before.total + 1
    ensures id !in IdSet(before) && IdSet(after) == IdSet(before) + {id}
  {
    TotalsDecide(before, after);
    id := Without(after.ids, before.ids)[0];
    assert id in Without(after.ids, before.ids);
  }

  lemma OneAdded(before: Snapshot, after: Snapshot, id: string, model: string, keyId: string, round: int -> int)
    requires WellBuilt(before) && WellBuilt(after)
    requires id !in IdSet(before) && IdSet(after) == IdSet(before) + {id}
    ensures after.total == before.total + 1
    ensures var found := Find(after.items, id);
            ExactUsageRecord(before, after, model, keyId, round)
            == if found.Some? && ValidUsage(found.value, model, keyId, round) then Ok(found)
               else Err(RequestUsageInvalid)
    ensures forall x :: IsTheAddition(before, after, x) <==> Find(after.items, id) == Some(x)
  {
    AddingOne(before, after, id);
    HasAllIsSubset(before, after);
    FoundIsTheAddition(before, after, id);
  }

  lemma FoundIsTheAddition(before: Snapshot, after: Snapshot, id: string)
    requires WellBuilt(before) && WellBuilt(after)
    requires id !in IdSet(before) && IdSet(after) == IdSet(before) + {id}
    ensures forall x :: IsTheAddition(before, after, x) <==> Find(after.items, id) == Some(x)
  {
    FindIs(after.items, id);
    var found := Find(after.items, id);
    if found.Some? {
      var x := found.value;
      // the item found has a trimmed id among after's ids; the one item with trimmed id `id` is it
      IdSetOf(after, x);
      TrimOfNewId(after, id, x);
    }
    forall x | IsTheAddition(before, after, x) ensures found == Some(x) {
      assert RequestId(x) == id;
      SameIdSameRecord(after, x, found.value);
    }
  }

  /** `id` was itself obtained by trimming, so an item whose raw id is `id` trims to `id`. */
  lemma TrimOfNewId(after: Snapshot, id: string, x: Record)
    requires WellBuilt(after) && id in IdSet(after) && x.requestId == Text(id)
    ensures RequestId(x) == id
  {
    var i :| 0 <= i < |after.ids| && after.ids[i] == id;
    TrimTrims(Shown(after.items[i].requestId));
  }

  // ----- stats and wallet against the record -----

  /** after - before, as Numbers. */
  function Delta(before: Count, after: Count, round: int -> int): int {
    round(after - before)
  }

  function StatsMatchRequest(before: Stats, after: Stats, request: Record, round: int -> int): bool
    requires HasTokenCounts(request) && request.actualCostUsdMicros.Int?
  {
    && Delta(before.totalRequests, after.totalRequests, round) == 1
    && Delta(before.totalInputTokens, after.totalInputTokens, round) == request.inputTokens.n
    && Delta(before.totalOutputTokens, after.totalOutputTokens, round) == request.outputTokens.n
    && Delta(before.totalTokens, after.totalTokens, round)
       == round(round(round(request.inputTokens.n + request.outputTokens.n) + request.cacheCreationTokens.n)
                + request.cacheReadTokens.n)
    && Delta(before.totalActualCostUsdMicros, after.totalActualCostUsdMicros, round) == request.actualCostUsdMicros.n
  }

  /** The stats grew by exactly this one request, in unbounded integers. */
  ghost predicate BilledOnce(before: Stats, after: Stats, request: Record)
    requires HasTokenCounts(request) && request.actualCostUsdMicros.Int?
  {
    && after.totalRequests == before.totalRequests + 1
    && after.totalInputTokens == before.totalInputTokens + request.inputTokens.n
    && after.totalOutputTokens == before.totalOutputTokens + request.outputTokens.n
    && after.totalTokens == before.totalTokens + request.inputTokens.n + request.outputTokens.n
                            + request.cacheCreationTokens.n + request.cacheReadTokens.n
    && after.totalActualCostUsdMicros == before.totalActualCostUsdMicros + request.actualCostUsdMicros.n
  }

  /** A rounded sum of two non-negative terms either is the sum or has left the safe range with it. */
  lemma RoundedSum(a: int, b: int, round: int -> int)
    requires NumberRounding(round) && a >= 0 && b >= 0
    ensures a + b <= MAX_SAFE_INTEGER + 1 ==> round(a + b) == a + b
    ensures a + b > MAX_SAFE_INTEGER ==> round(a + b) > MAX_SAFE_INTEGER
    ensures round(a + b) >= 0
  {
    assert KeepsOrder(round, MAX_SAFE_INTEGER + 1, a + b);
    assert KeepsOrder(round, 0, a + b);
  }

  lemma RoundedDelta(before: Count, after: Count, x: SafeInt, round: int -> int)
    requires NumberRounding(round)
    ensures round(after - before) == after - before
    ensures round(after - before) == x <==> after == before + x
  {
  }

  lemma RoundedTokens(delta: SafeInt, i: Count, o: Count, creation: Count, cached: Count, round: int -> int)
    requires NumberRounding(round)
    ensures delta == round(round(round(i + o) + creation) + cached) <==> delta == i + o + creation + cached
  {
    RoundedSum(i, o, round);
    RoundedSum(round(i + o), creation, round);
    RoundedSum(round(round(i + o) + creation), cached, round);
  }

  /** Rounding never changes a verdict: the test on rounded Numbers holds exactly when the
      integer equations do. */
  lemma RoundingKeepsVerdict(before: Stats, after: Stats, request: Record, round: int -> int)
    requires NumberRounding(round)
    requires HasTokenCounts(request) && request.actualCostUsdMicros.Int?
    ensures StatsMatchRequest(before, after, request, round) <==> BilledOnce(before, after, request)
  {
    RoundedDelta(before.totalRequests, after.totalRequests, 1, round);
    RoundedDelta(before.totalInputTokens, after.totalInputTokens, request.inputTokens.n, round);
    RoundedDelta(before.totalOutputTokens, after.totalOutputTokens, request.outputTokens.n, round);
    RoundedDelta(before.totalTokens, after.totalTokens, 0, round);
    RoundedDelta(before.totalActualCostUsdMicros, after.totalActualCostUsdMicros, request.actualCostUsdMicros.n, round);
    RoundedTokens(after.totalTokens - before.totalTokens, request.inputTokens.n, request.outputTokens.n,
                  request.cacheCreationTokens.n, request.cacheReadTokens.n, round);
  }

  /** Nor does it for the wallet difference and the lower bound on the tokens. */
  lemma RoundingKeepsDifferences(a: Count, b: Count, cost: SafeInt, i: Count, o: Count, round: int -> int)
    requires NumberRounding(round)
    ensures round(a - b) == cost <==> a == b + cost
    ensures round(i + o) >= 1 <==> i + o >= 1
  {
    RoundedDelta(b, a, cost, round);
    RoundedSum(i, o, round);
  }

  /** What makes a record that of the one model request: a synchronous request to `/v1/responses`, by this key and for
      this model, of four token counts, some of them input or output, at a positive cost. */
  ghost predicate IsTheRequest(r: Record, model: string, keyId: string) {
    && r.apiKeyId == Text(keyId) && r.model == Text(model)
    && r.requestType == Text("sync") && r.inboundEndpoint == Text("/v1/responses")
    && r.inputTokens.Int? && r.inputTokens.n >= 0 && r.outputTokens.Int? && r.outputTokens.n >= 0
    && r.cacheCreationTokens.Int? && r.cacheCreationTokens.n >= 0
    && r.cacheReadTokens.Int? && r.cacheReadTokens.n >= 0
    && r.inputTokens.n + r.outputTokens.n > 0
    && r.actualCostUsdMicros.Int? && r.actualCostUsdMicros.n > 0
  }

  lemma ValidUsageIff(r: Record, model: string, keyId: string, round: int -> int)
    requires NumberRounding(round)
    ensures ValidUsage(r, model, keyId, round) <==> IsTheRequest(r, model, keyId)
  {
    if HasTokenCounts(r) {
      RoundedSum(r.inputTokens.n, r.outputTokens.n, round);
    }
  }
}
