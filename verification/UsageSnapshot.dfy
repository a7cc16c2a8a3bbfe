/** The paged read of a gateway key's usage log (`gatewayUsageSnapshot` in
    `production-live-qa.ts`).

    A reply function `read` gives what the server answers when page `p` is requested. The client asks for
    every page at most once, in order, so such a function describes any server at all: honest or not,
    and changing as it likes from one request to the next. */
module UsageSnapshot {
  import opened JsText
  import opened QaErrors

  const MAX_USAGE_ITEMS := 10_000
  const MAX_USAGE_PAGES := 100
  const MAX_SAFE_INTEGER := 9_007_199_254_740_991

  type SafeInt = n: int | -MAX_SAFE_INTEGER <= n <= MAX_SAFE_INTEGER

  /** A field of a JSON object as the script sees it: a string, a number for which `Number.isSafeInteger`
      holds, or anything else (missing, null, boolean, unsafe number, array, object).
      `shown` is what `String(field || "")` yields for the last kind. */
  datatype Field = Text(s: string) | Int(n: SafeInt) | Other(shown: string)

  /** `String(field || "")`. */
  function Shown(field: Field): string {
    match field
    case Text(s) => s
    case Int(n) => if n == 0 then "" else if n > 0 then Digits(n) else "-" + Digits(-n)
    case Other(shown) => shown
  }

  /** One row of the usage log. A row that is not an object has every field `Other("")`. */
  datatype Record = Record(
    requestId: Field, apiKeyId: Field, model: Field, requestType: Field, inboundEndpoint: Field,
    inputTokens: Field, outputTokens: Field, cacheCreationTokens: Field, cacheReadTokens: Field,
    actualCostUsdMicros: Field)

  datatype Status = Available | Empty

  /** `Refused` stands for a transport, HTTP or source-contract failure; `items` is None when it is no array. */
  datatype Reply =
    | Refused
    | Page(status: Status, total: Field, page: Field, pageSize: Field, pages: Field, items: Option<seq<Record>>)

  datatype Totals = Totals(total: nat, pages: nat)

  /** `ids` is a JavaScript Set: distinct, in insertion order. */
  datatype Snapshot = Snapshot(total: nat, ids: seq<string>, items: seq<Record>)

  /** `Math.ceil(total / 100)`, which is also right for an empty log. */
  function PagesFor(total: nat): nat {
    (total + 99) / 100
  }

  /** The checks on one page's header, in the order the script makes them. */
  function PageFault(reply: Reply, page: nat, expected: Option<Totals>): Option<QaError> {
    if reply.Refused? then Some(SourceContractInvalid)
    else if (reply.total.Int? && reply.total.n > MAX_USAGE_ITEMS)
            || (reply.pages.Int? && reply.pages.n > MAX_USAGE_PAGES) then Some(SnapshotLimitExceeded)
    else if !reply.total.Int? || reply.total.n < 0 || !(reply.page.Int? && reply.page.n == page)
            || reply.pageSize != Int(100) || !reply.pages.Int? || reply.pages.n < 0 || reply.items.None?
    then Some(SnapshotInvalid)
    else if reply.status != (if reply.total.n == 0 then Empty else Available) then Some(SnapshotInvalid)
    else match expected
      case None =>
        if reply.pages.n != (if reply.total.n == 0 then 0 else PagesFor(reply.total.n))
        then Some(SnapshotInvalid) else None
      case Some(e) =>
        if reply.total.n != e.total || reply.pages.n != e.pages then Some(SnapshotChanged) else None
  }

  function RequestId(r: Record): string {
    Trim(Shown(r.requestId))
  }

  /** The ids of `items` are non-blank and pairwise different once trimmed. */
  ghost predicate GoodIds(items: seq<Record>) {
    && (forall i | 0 <= i < |items| :: RequestId(items[i]) != "")
    && (forall i, j | 0 <= i < j < |items| :: RequestId(items[i]) != RequestId(items[j]))
  }

  ghost function Ids(items: seq<Record>): (ids: seq<string>)
    ensures |ids| == |items|
    ensures forall i | 0 <= i < |items| :: ids[i] == RequestId(items[i])
  {
    seq(|items|, i requires 0 <= i < |items| => RequestId(items[i]))
  }

  // ----- what the read is meant to return -----

  ghost predicate HeaderOk(read: nat -> Reply, page: nat) {
    PageFault(read(page), page, None).None?
  }

  /** The totals fixed by the first page. */
  ghost function Expected(read: nat -> Reply): Totals
    requires HeaderOk(read, 1)
  {
    Totals(read(1).total.n, read(1).pages.n)
  }

  /** The page is accepted, the first one on its own and later ones against the first. */
  ghost predicate Accepted(read: nat -> Reply, page: nat) {
    && HeaderOk(read, 1)
    && (page == 1 || PageFault(read(page), page, Some(Expected(read))).None?)
  }

  ghost function PageItems(read: nat -> Reply, page: nat): seq<Record> {
    if read(page).Page? && read(page).items.Some? then read(page).items.value else []
  }

  /** The items of pages 1 to `page`, in order. */
  ghost function ItemsUpTo(read: nat -> Reply, page: nat): seq<Record> {
    if page == 0 then [] else ItemsUpTo(read, page - 1) + PageItems(read, page)
  }

  ghost function LastPage(read: nat -> Reply): nat
    requires HeaderOk(read, 1)
  {
    if Expected(read).pages == 0 then 1 else Expected(read).pages
  }

  /** The read succeeds exactly when every page is accepted, ids are good and the items add up to the total. */
  ghost predicate Readable(read: nat -> Reply) {
    && HeaderOk(read, 1)
    && (forall p | 1 <= p <= LastPage(read) :: Accepted(read, p))
    && GoodIds(ItemsUpTo(read, LastPage(read)))
    && |ItemsUpTo(read, LastPage(read))| == Expected(read).total
  }

  /** What page `page` makes the read fail with, if anything. */
  ghost function VerdictAt(read: nat -> Reply, page: nat): Option<QaError>
    requires page >= 1 && (page > 1 ==> HeaderOk(read, 1))
  {
    var fault := PageFault(read(page), page, if page <= 1 then None else Some(Expected(read)));
    if fault.Some? then fault
    else if !GoodIds(ItemsUpTo(read, page)) then Some(SnapshotInvalid)
    else if page == LastPage(read) && |ItemsUpTo(read, page)| != Expected(read).total then Some(SnapshotInvalid)
    else None
  }

  /** Pages 1 to `page` - 1 are in order, and there are more to read. */
  ghost predicate Reached(read: nat -> Reply, page: nat) {
    && page >= 1
    && (page > 1 ==> HeaderOk(read, 1) && page <= LastPage(read))
    && (forall p | 1 <= p < page :: Accepted(read, p))
    && GoodIds(ItemsUpTo(read, page - 1))
  }

  /** Page `page` is the first one at which the read goes wrong, and `error` is how. */
  ghost predicate FailsAt(read: nat -> Reply, page: nat, error: QaError) {
    Reached(read, page) && VerdictAt(read, page) == Some(error)
  }

  ghost function SnapshotOf(read: nat -> Reply): Snapshot
    requires Readable(read)
  {
    var items := ItemsUpTo(read, LastPage(read));
    Snapshot(Expected(read).total, Ids(items), items)
  }

  lemma {:induction false} ItemsUpToGrows(read: nat -> Reply, p: nat, q: nat)
    requires p <= q
    ensures ItemsUpTo(read, p) <= ItemsUpTo(read, q)
  {
    if p < q {
      ItemsUpToGrows(read, p, q - 1);
    }
  }

  lemma GoodIdsPrefix(a: seq<Record>, b: seq<Record>)
    requires a <= b && GoodIds(b)
    ensures GoodIds(a)
  {
    forall i | 0 <= i < |a| ensures a[i] == b[i] {
    }
  }

  lemma ReachedEarlier(read: nat -> Reply, p: nat, q: nat)
    requires 1 <= p < q && Reached(read, q)
    ensures HeaderOk(read, 1) && VerdictAt(read, p) == None
  {
    assert Accepted(read, p);
    ItemsUpToGrows(read, p, q - 1);
    GoodIdsPrefix(ItemsUpTo(read, p), ItemsUpTo(read, q - 1));
  }

  /** A failing read is not readable, and the page and error of the failure are determined. */
  lemma FailureIsDetermined(read: nat -> Reply, page: nat, error: QaError, page': nat, error': QaError)
    requires FailsAt(read, page, error) && FailsAt(read, page', error')
    ensures page' == page && error' == error
  {
    if page < page' {
      ReachedEarlier(read, page, page');
    } else if page' < page {
      ReachedEarlier(read, page', page);
    }
  }

  lemma FailureIsUnreadable(read: nat -> Reply, page: nat, error: QaError)
    requires FailsAt(read, page, error)
    ensures !Readable(read)
  {
    if Readable(read) {
      assert Accepted(read, page);
      ItemsUpToGrows(read, page, LastPage(read));
      GoodIdsPrefix(ItemsUpTo(read, page), ItemsUpTo(read, LastPage(read)));
    }
  }

  /** The first error from page `page` on, None when the read goes through. */
  ghost function FirstFault(read: nat -> Reply, page: nat): (error: Option<QaError>)
    requires Reached(read, page)
    ensures error.None? ==> Readable(read)
    ensures error.Some? ==> exists p :: FailsAt(read, p, error.value)
    decreases MAX_USAGE_PAGES + 1 - page
  {
    var verdict := VerdictAt(read, page);
    if verdict.Some? then
      assert FailsAt(read, page, verdict.value);
      verdict
    else if page == LastPage(read) then
      None
    else
      FirstFault(read, page + 1)
  }

  /** What the paged read returns. */
  ghost function TakeSnapshot(read: nat -> Reply): (r: Result<Snapshot, QaError>)
    ensures r.Ok? <==> Readable(read)
    ensures r.Err? ==> exists p :: FailsAt(read, p, r.error)
  {
    var fault := FirstFault(read, 1);
    if fault.Some? then
      FailureIsUnreadable(read, var p :| FailsAt(read, p, fault.value); p, fault.value);
      Err(fault.value)
    else
      Ok(SnapshotOf(read))
  }

  // ----- the loop of the script -----

  /** The inner loop: adds one page's rows, unless an id is blank or already there. */
  method CollectRows(items0: seq<Record>, ids0: seq<string>, rows: seq<Record>)
    returns (ok: bool, items: seq<Record>, ids: seq<string>)
    requires GoodIds(items0) && ids0 == Ids(items0)
    ensures ok <==> GoodIds(items0 + rows)
    ensures ok ==> items == items0 + rows && ids == Ids(items)
  {
    items, ids := items0, ids0;
    for k := 0 to |rows|
      invariant items == items0 + rows[..k]
      invariant GoodIds(items) && ids == Ids(items)
    {
      var requestId := RequestId(rows[k]);
      RowsGrow(items0, rows, k);
      if requestId == "" || requestId in ids {
        BadIdStays(items, rows[k], items0 + rows);
        return false, items, ids;
      }
      GoodIdsAppend(items, rows[k]);
      ids := ids + [requestId];
      items := items + [rows[k]];
    }
    assert rows[..|rows|] == rows;
    ok := true;
  }

  lemma RowsGrow(items: seq<Record>, rows: seq<Record>, k: nat)
    requires k < |rows|
    ensures items + rows[..k] + [rows[k]] == items + rows[..k + 1] <= items + rows
  {
  }

  lemma GoodIdsAppend(items: seq<Record>, row: Record)
    requires GoodIds(items) && RequestId(row) != "" && RequestId(row) !in Ids(items)
    ensures GoodIds(items + [row]) && Ids(items + [row]) == Ids(items) + [RequestId(row)]
  {
    var all := items + [row];
    forall i, j | 0 <= i < j < |all| ensures RequestId(all[i]) != RequestId(all[j]) {
      if j == |items| {
        assert Ids(items)[i] in Ids(items);
      }
    }
  }

  /** Pages 1 to `page` have been taken in. */
  ghost predicate ReadTo(read: nat -> Reply, page: nat) {
    && (page >= 1 ==> HeaderOk(read, 1) && page <= LastPage(read))
    && (forall p | 1 <= p <= page :: Accepted(read, p))
    && GoodIds(ItemsUpTo(read, page))
  }

  lemma ReachedWhenRead(read: nat -> Reply, page: nat)
    requires page >= 1 && ReadTo(read, page - 1)
    requires page > 1 ==> page <= LastPage(read)
    ensures Reached(read, page)
  {
  }

  lemma LastIsReached(read: nat -> Reply, last: nat)
    requires HeaderOk(read, 1) && last == LastPage(read) && ReadTo(read, last)
    ensures Reached(read, last)
    ensures Readable(read) <==> |ItemsUpTo(read, last)| == Expected(read).total
    ensures !Readable(read) ==> FailsAt(read, last, SnapshotInvalid)
  {
    assert Accepted(read, last);
    ItemsUpToGrows(read, last - 1, last);
    GoodIdsPrefix(ItemsUpTo(read, last - 1), ItemsUpTo(read, last));
  }

  method GatewayUsageSnapshot(read: nat -> Reply) returns (r: Result<Snapshot, QaError>, requests: nat)
    ensures r == TakeSnapshot(read)
    ensures r.Ok? <==> Readable(read)
    ensures r.Ok? ==> requests == LastPage(read)
    ensures r.Err? ==> FailsAt(read, requests, r.error)
    ensures 1 <= requests <= MAX_USAGE_PAGES
  {
    var items: seq<Record> := [];
    var ids: seq<string> := [];
    var expected: Option<Totals> := None;
    var page: nat := 1;
    while expected.None? || page <= expected.value.pages
      invariant page >= 1 && (expected.None? <==> page == 1)
      invariant ReadTo(read, page - 1)
      invariant expected.Some? ==> expected.value == Expected(read)
      invariant items == ItemsUpTo(read, page - 1) && ids == Ids(items)
      decreases MAX_USAGE_PAGES + 1 - page
    {
      ReachedWhenRead(read, page);
      var payload := read(page);
      var fault := PageFault(payload, page, expected);
      if fault.Some? {
        FailureIs(read, page, fault.value);
        return Err(fault.value), page;
      }
      if expected.None? {
        expected := Some(Totals(payload.total.n, payload.pages.n));
      }
      var ok;
      ok, items, ids := CollectRows(items, ids, payload.items.value);
      if !ok {
        FailureIs(read, page, SnapshotInvalid);
        return Err(SnapshotInvalid), page;
      }
      assert Accepted(read, page);
      page := page + 1;
      if expected.value.pages == 0 {
        break;
      }
    }
    requests := page - 1;
    LastIsReached(read, requests);
    if |items| != expected.value.total {
      FailureIs(read, requests, SnapshotInvalid);
      return Err(SnapshotInvalid), requests;
    }
    r := Ok(Snapshot(expected.value.total, ids, items));
  }

  lemma FailureIs(read: nat -> Reply, page: nat, error: QaError)
    requires FailsAt(read, page, error)
    ensures !Readable(read) && TakeSnapshot(read) == Err(error)
  {
    FailureIsUnreadable(read, page, error);
    var p :| FailsAt(read, p, TakeSnapshot(read).error);
    FailureIsDetermined(read, page, error, p, TakeSnapshot(read).error);
  }

  lemma BadIdStays(items: seq<Record>, bad: Record, all: seq<Record>)
    requires items + [bad] <= all
    requires RequestId(bad) == "" || RequestId(bad) in Ids(items)
    ensures !GoodIds(all)
  {
    assert all[|items|] == bad;
    if RequestId(bad) != "" {
      var i :| 0 <= i < |items| && Ids(items)[i] == RequestId(bad);
      assert all[i] == items[i];
    }
  }

  // ----- what a page must say -----

  /** What a field is shown as: a text as it is, a number in decimal, 0 as nothing. */
  lemma ShownIs(field: Field)
    ensures field.Text? ==> Shown(field) == field.s
    ensures field == Int(0) ==> Shown(field) == ""
    ensures field.Int? && field.n > 0 ==>
              && AllDigits(Shown(field)) && Shown(field)[0] != '0' && DecimalValue(Shown(field)) == field.n
    ensures field.Int? && field.n < 0 ==> Shown(field) == "-" + Shown(Int(-field.n))
    ensures field.Other? ==> Shown(field) == field.shown
  {
    if field.Int? && field.n > 0 {
      DigitsRead(field.n);
    }
  }

  /** Page `page` of `pages` of a log of `total` records. */
  ghost predicate IsPage(reply: Reply, page: nat, total: int, pages: int) {
    && reply.Page? && reply.items.Some?
    && reply.status == (if total == 0 then Empty else Available)
    && reply.total.Int? && reply.total.n == total
    && reply.page.Int? && reply.page.n == page
    && reply.pageSize.Int? && reply.pageSize.n == 100
    && reply.pages.Int? && reply.pages.n == pages
  }

  /** The first page is accepted exactly if it is page 1 of a log of at most 10000 records, in as few pages of a hundred
      as hold them. */
  lemma FirstPageIff(reply: Reply)
    ensures PageFault(reply, 1, None).None? <==>
            exists total: nat, pages: nat ::
              && total <= 10_000 && IsPage(reply, 1, total, pages)
              && total <= 100 * pages && (pages > 0 ==> 100 * (pages - 1) < total)
  {
    if PageFault(reply, 1, None).None? {
      assert IsPage(reply, 1, reply.total.n, reply.pages.n);
    }
  }

  /** A later page is accepted exactly if it is the page asked for, of the same totals. */
  lemma LaterPageIff(reply: Reply, page: nat, total: nat, pages: nat)
    requires total <= 10_000 && pages <= 100
    ensures PageFault(reply, page, Some(Totals(total, pages))).None? <==> IsPage(reply, page, total, pages)
  {
  }

  /** A refused request, a limit exceeded and totals that have changed are told apart; anything else that is wrong with
      a page makes the snapshot invalid. */
  lemma PageErrors(reply: Reply, page: nat, expected: Option<Totals>)
    ensures var fault := PageFault(reply, page, expected);
            && (fault == Some(SourceContractInvalid) <==> reply.Refused?)
            && (fault == Some(SnapshotLimitExceeded) <==>
                && reply.Page?
                && ((reply.total.Int? && reply.total.n > 10_000) || (reply.pages.Int? && reply.pages.n > 100)))
            && (fault == Some(SnapshotChanged) <==>
                && expected.Some? && reply.Page? && reply.total.Int? && reply.pages.Int?
                && 0 <= reply.total.n <= 10_000 && 0 <= reply.pages.n <= 100
                && IsPage(reply, page, reply.total.n, reply.pages.n)
                && (reply.total.n != expected.value.total || reply.pages.n != expected.value.pages))
            && (fault.Some? ==>
                  fault.value in {SourceContractInvalid, SnapshotLimitExceeded, SnapshotChanged, SnapshotInvalid})
  {
  }

  /** Two ids that differ by white space at their edges are one id: no snapshot holds both. */
  lemma PaddedIdsCollide(a: Record, b: Record, before: string, id: string, after: string)
    requires Spaces(before) && Spaces(after) && id != "" && IsTrimmed(id)
    requires a.requestId == Text(id) && b.requestId == Text(before + id + after)
    ensures RequestId(a) == RequestId(b) == id
    ensures !GoodIds([a, b])
  {
    TrimFixed(id);
    TrimPadded(before, id, after);
    assert RequestId([a, b][0]) == RequestId([a, b][1]);
  }

  /** An id of nothing but white space is none. */
  lemma BlankIdsFail(a: Record)
    requires a.requestId.Text? && Spaces(a.requestId.s)
    ensures !GoodIds([a])
  {
    TrimBlank(a.requestId.s);
    assert RequestId([a][0]) == "";
  }
}
