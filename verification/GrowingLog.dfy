/** An honest gateway: it serves pages of a usage log that may grow between any two requests. */
module GrowingLog {
  import opened JsText
  import opened QaErrors
  import opened UsageSnapshot

  /** `b` is `a` with records put in at any places: nothing is removed, changed or reordered.
      Listings that show the newest record first, or last, both grow this way. */
  ghost predicate GrowsTo<T>(a: seq<T>, b: seq<T>) {
    a == [] || (b != [] && ((a[0] == b[0] && GrowsTo(a[1..], b[1..])) || GrowsTo(a, b[1..])))
  }

  lemma {:induction false} GrowthAddsLength<T>(a: seq<T>, b: seq<T>)
    requires GrowsTo(a, b)
    ensures |a| <= |b|
    ensures |a| == |b| ==> a == b
    decreases |b|
  {
    if a != [] {
      if a[0] == b[0] && GrowsTo(a[1..], b[1..]) {
        GrowthAddsLength(a[1..], b[1..]);
        assert a == [a[0]] + a[1..] && b == [b[0]] + b[1..];
      } else {
        GrowthAddsLength(a, b[1..]);
      }
    }
  }

  lemma {:induction false} GrowthKeepsRecords<T>(a: seq<T>, b: seq<T>)
    requires GrowsTo(a, b)
    ensures forall x | x in a :: x in b
    decreases |b|
  {
    if a != [] {
      if a[0] == b[0] && GrowsTo(a[1..], b[1..]) {
        GrowthKeepsRecords(a[1..], b[1..]);
        assert a == [a[0]] + a[1..] && b == [b[0]] + b[1..];
      } else {
        GrowthKeepsRecords(a, b[1..]);
        assert b == [b[0]] + b[1..];
      }
    }
  }

  function Number(n: int): Field {
    if -MAX_SAFE_INTEGER <= n <= MAX_SAFE_INTEGER then Int(n) else Other("")
  }

  function Min(a: int, b: int): int {
    if a <= b then a else b
  }

  function PageOf(log: seq<Record>, page: nat): seq<Record> {
    if page == 0 then [] else log[Min((page - 1) * 100, |log|)..Min(page * 100, |log|)]
  }

  /** Page `page` of the log, a hundred records to the page. */
  function HonestReply(log: seq<Record>, page: nat): Reply {
    Page(if |log| == 0 then Empty else Available, Number(|log|), Number(page), Int(100),
         Number(PagesFor(|log|)), Some(PageOf(log, page)))
  }

  /** The reply to page `p` is drawn from the log as it stands when that page is served. */
  ghost function Serving(log: nat -> seq<Record>): nat -> Reply {
    (p: nat) => HonestReply(log(p), p)
  }

  /** A log that stands still. */
  ghost function Still(at: seq<Record>): nat -> seq<Record> {
    (p: nat) => at
  }

  ghost predicate Growing(log: nat -> seq<Record>) {
    forall p: nat, q: nat | p <= q :: GrowsTo(log(p), log(q))
  }

  function PageCount(total: nat): nat {
    if total == 0 then 1 else PagesFor(total)
  }

  lemma NextPage(at: seq<Record>, k: nat)
    requires k > 0
    ensures at[..Min((k - 1) * 100, |at|)] + PageOf(at, k) == at[..Min(k * 100, |at|)]
  {
  }

  /** While the log stands still, the first `k` pages hold its first 100 * k records. */
  lemma {:induction false} PagesInOrder(log: nat -> seq<Record>, at: seq<Record>, k: nat)
    requires forall p: nat | 1 <= p <= k :: log(p) == at
    ensures ItemsUpTo(Serving(log), k) == at[..Min(k * 100, |at|)]
  {
    if k > 0 {
      PagesInOrder(log, at, k - 1);
      assert PageItems(Serving(log), k) == PageOf(at, k);
      NextPage(at, k);
    }
  }

  /** An accepted page was served from a log as long as the first page's. */
  lemma AcceptedKeepsTotal(log: nat -> seq<Record>, p: nat)
    requires Accepted(Serving(log), 1) && Accepted(Serving(log), p)
    ensures |log(p)| == |log(1)| <= MAX_USAGE_ITEMS
  {
  }

  lemma StandsStill(log: nat -> seq<Record>, p: nat)
    requires Growing(log) && p >= 1
    requires Accepted(Serving(log), 1) && Accepted(Serving(log), p)
    ensures log(p) == log(1)
  {
    AcceptedKeepsTotal(log, p);
    assert GrowsTo(log(1), log(p));
    GrowthAddsLength(log(1), log(p));
  }

  lemma AcceptedWhileStill(log: nat -> seq<Record>, p: nat)
    requires |log(1)| <= MAX_USAGE_ITEMS
    requires 1 <= p <= PageCount(|log(1)|) && log(p) == log(1)
    ensures Accepted(Serving(log), 1) && Accepted(Serving(log), p)
  {
  }

  /** Atomic read: against a log that only grows, the paged read goes through exactly when the log is at
      most 10000 records with good ids and did not move while its pages were read; what it then returns is
      that one state of the log. Any growth between two pages makes it fail. */
  lemma AtomicRead(log: nat -> seq<Record>)
    requires Growing(log)
    ensures TakeSnapshot(Serving(log)).Ok? <==>
            && |log(1)| <= MAX_USAGE_ITEMS
            && GoodIds(log(1))
            && forall p: nat | 1 <= p <= PageCount(|log(1)|) :: log(p) == log(1)
    ensures TakeSnapshot(Serving(log)).Ok? ==>
            var snapshot := TakeSnapshot(Serving(log)).value;
            && snapshot.items == log(1)
            && snapshot.ids == Ids(log(1))
            && snapshot.total == |log(1)|
  {
    var read := Serving(log);
    var total := |log(1)|;
    if Readable(read) {
      assert Accepted(read, 1);
      AcceptedKeepsTotal(log, 1);
      assert LastPage(read) == PageCount(total);
      forall p: nat | 1 <= p <= PageCount(total) ensures log(p) == log(1) {
        StandsStill(log, p);
      }
      PagesInOrder(log, log(1), PageCount(total));
      assert log(1)[..total] == log(1);
    }
    if total <= MAX_USAGE_ITEMS && GoodIds(log(1))
       && forall p: nat | 1 <= p <= PageCount(total) :: log(p) == log(1) {
      StillLogIsReadable(log);
    }
  }

  lemma StillLogIsReadable(log: nat -> seq<Record>)
    requires |log(1)| <= MAX_USAGE_ITEMS && GoodIds(log(1))
    requires forall p: nat | 1 <= p <= PageCount(|log(1)|) :: log(p) == log(1)
    ensures Readable(Serving(log)) && LastPage(Serving(log)) == PageCount(|log(1)|)
    ensures TakeSnapshot(Serving(log)) == Ok(Snapshot(|log(1)|, Ids(log(1)), log(1)))
  {
    var read := Serving(log);
    AcceptedWhileStill(log, 1);
    assert LastPage(read) == PageCount(|log(1)|);
    forall p: nat | 1 <= p <= LastPage(read) ensures Accepted(read, p) {
      AcceptedWhileStill(log, p);
    }
    PagesInOrder(log, log(1), LastPage(read));
    assert log(1)[..|log(1)|] == log(1);
  }

  /** Paging completeness: a log that stands still is read in full, in order, in as few pages of a hundred as hold it
      but at least one, exactly when it has at most 10000 records and good ids. */
  lemma PagingCompleteness(at: seq<Record>)
    ensures var r := TakeSnapshot(Serving(Still(at)));
            && (r.Ok? <==> |at| <= 10_000 && GoodIds(at))
            && (r.Ok? ==> r.value == Snapshot(|at|, Ids(at), at))
    ensures TakeSnapshot(Serving(Still(at))).Ok? ==>
              var last := LastPage(Serving(Still(at)));
              1 <= last <= 100 && |at| <= 100 * last && (last > 1 ==> 100 * (last - 1) < |at|)
  {
    var log := Still(at);
    forall p: nat, q: nat | p <= q ensures GrowsTo(log(p), log(q)) {
      GrowsToItself(at);
    }
    AtomicRead(log);
    if |at| <= MAX_USAGE_ITEMS {
      AcceptedWhileStill(log, 1);
    }
  }

  // ----- which error a growing log gives -----

  lemma PrefixIsGood(at: seq<Record>, k: nat)
    requires GoodIds(at) && k <= |at|
    ensures GoodIds(at[..k])
  {
    GoodIdsPrefix(at[..k], at);
  }

  lemma ReachedWhileStill(log: nat -> seq<Record>, p: nat)
    requires |log(1)| <= MAX_USAGE_ITEMS && GoodIds(log(1))
    requires 1 < p <= PageCount(|log(1)|) && forall q: nat | 1 <= q < p :: log(q) == log(1)
    ensures Reached(Serving(log), p) && Expected(Serving(log)) == Totals(|log(1)|, PagesFor(|log(1)|))
  {
    var read := Serving(log);
    AcceptedWhileStill(log, 1);
    assert LastPage(read) == PageCount(|log(1)|);
    forall q: nat | 1 <= q < p ensures Accepted(read, q) {
      AcceptedWhileStill(log, q);
    }
    PagesInOrder(log, log(1), p - 1);
    PrefixIsGood(log(1), Min((p - 1) * 100, |log(1)|));
  }

  /** The error for a log of more than 10000 records: its page count is over the limit, and a count of pages beyond the
      safe integers is no count at all. */
  ghost function TooLong(n: nat): QaError {
    if n <= 900_719_925_474_099_100 then SnapshotLimitExceeded else SnapshotInvalid
  }

  lemma TooLongFault(log: seq<Record>, page: nat, expected: Option<Totals>)
    requires |log| > 10_000
    ensures PageFault(HonestReply(log, page), page, expected) == Some(TooLong(|log|))
  {
    assert PagesFor(|log|) <= MAX_SAFE_INTEGER <==> |log| <= 900_719_925_474_099_100;
  }

  lemma ChangedFault(log: seq<Record>, page: nat, total: nat)
    requires |log| <= 10_000 && |log| != total && page <= 100
    ensures PageFault(HonestReply(log, page), page, Some(Totals(total, PagesFor(total)))) == Some(SnapshotChanged)
  {
  }

  /** Growth is reported as what it is: the first page served from a longer log makes the read fail as changed, or, if
      the log has outgrown the limit, as too long. */
  lemma GrowthIsReported(log: nat -> seq<Record>, p: nat)
    requires Growing(log) && |log(1)| <= MAX_USAGE_ITEMS && GoodIds(log(1))
    requires 1 < p <= PageCount(|log(1)|) && log(p) != log(1) && forall q: nat | 1 <= q < p :: log(q) == log(1)
    ensures TakeSnapshot(Serving(log))
            == Err(if |log(p)| > 10_000 then TooLong(|log(p)|) else SnapshotChanged)
  {
    assert GrowsTo(log(1), log(p));
    GrowthAddsLength(log(1), log(p));
    ReachedWhileStill(log, p);
    if |log(p)| > 10_000 {
      TooLongFault(log(p), p, Some(Totals(|log(1)|, PagesFor(|log(1)|))));
      FailureIs(Serving(log), p, TooLong(|log(p)|));
    } else {
      ChangedFault(log(p), p, |log(1)|);
      FailureIs(Serving(log), p, SnapshotChanged);
    }
  }

  /** A log that is too long at the start is reported as that. */
  lemma TooLongIsReported(log: nat -> seq<Record>)
    requires |log(1)| > 10_000
    ensures TakeSnapshot(Serving(log)) == Err(TooLong(|log(1)|))
  {
    TooLongFault(log(1), 1, None);
    assert ItemsUpTo(Serving(log), 0) == [];
    FailureIs(Serving(log), 1, TooLong(|log(1)|));
  }

  lemma {:induction false} GrowsToItself<T>(a: seq<T>)
    ensures GrowsTo(a, a)
  {
    if a != [] {
      GrowsToItself(a[1..]);
    }
  }

  /** Appending is growth, and so is listing the newest record first. */
  lemma {:induction false} AppendingGrows<T>(a: seq<T>, more: seq<T>)
    ensures GrowsTo(a, a + more) && GrowsTo(a, more + a)
    decreases |a| + |more|
  {
    if a != [] {
      assert (a + more)[1..] == a[1..] + more;
      AppendingGrows(a[1..], more);
      if more == [] {
        GrowsToItself(a);
        assert more + a == a;
      } else {
        assert (more + a)[1..] == more[1..] + a;
        AppendingGrows(a, more[1..]);
      }
    }
  }
}
