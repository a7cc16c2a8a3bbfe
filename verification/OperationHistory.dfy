/** The snapshot of an account's runtime operations and the test that a run left it unchanged
    (`runtimeOperationSnapshot`, compared in `verifyProductionLiveQa`). */
module OperationHistory {
  import opened JsText
  import opened JsonValue
  import opened StableSort
  import opened CanonicalHistory

  // ----- reading a field as text -----

  predicate Truthy(v: Json) {
    match v
    case Null => false
    case Bool(b) => b
    case Num(text) => text != "0"
    case Infinite(_) => true
    case Str(s) => s != ""
    case _ => true
  }

  /** `String(v)`. */
  function Text(v: Json): string
    decreases v, 1
  {
    match v
    case Null => "null"
    case Bool(b) => if b then "true" else "false"
    case Num(text) => text
    case Infinite(negative) => if negative then "-Infinity" else "Infinity"
    case Str(s) => s
    case Arr(items) => Joined(items)
    case Obj(_) => "[object Object]"
  }

  /** `items.join(",")`. */
  function Joined(items: seq<Json>): string
    decreases items, 0
  {
    if items == [] then ""
    else
      (if items[0].Null? then "" else Text(items[0])) + (if |items| == 1 then "" else "," + Joined(items[1..]))
  }

  /** `String(v || "").trim()`. */
  function FieldText(v: Json): string {
    Trim(if Truthy(v) then Text(v) else "")
  }

  lemma {:induction false} SameText(v: Json, w: Json)
    requires Same(v, w)
    ensures Truthy(v) == Truthy(w) && Text(v) == Text(w) && (v.Null? <==> w.Null?)
    decreases v, 1
  {
    match v
    case Arr(items) => SameJoined(items, w.items);
    case _ =>
  }

  lemma {:induction false} SameJoined(a: seq<Json>, b: seq<Json>)
    requires |a| == |b| && forall i | 0 <= i < |a| :: Same(a[i], b[i])
    ensures Joined(a) == Joined(b)
    decreases a, 0
  {
    if a != [] {
      SameText(a[0], b[0]);
      SameJoined(a[1..], b[1..]);
    }
  }

  // ----- the snapshot -----

  datatype Row = Row(id: string, action: string, status: string, providerRequestId: string, operationDigest: string)

  function OperationId(op: Json): string {
    FieldText(if Truthy(Member(op, "id")) then Member(op, "id") else Member(op, "operationId"))
  }

  /** The row made of an operation; the digest is that of its printed canonical form. */
  function OperationRow(sha256: string -> string): Json -> Row {
    (op: Json) =>
      Row(OperationId(op), FieldText(Member(op, "action")), FieldText(Member(op, "status")),
          FieldText(Member(op, "providerRequestId")), sha256(Print(CanonicalValue(op))))
  }

  function OperationsOf(state: Json): seq<Json> {
    if Member(state, "runtimeOperations").Arr? then Member(state, "runtimeOperations").items else []
  }

  /** An object with an id, an action and a status. */
  predicate IsOperation(op: Json, rowOf: Json -> Row) {
    rowOf(op).id != "" && rowOf(op).action != "" && rowOf(op).status != "" && op.Obj?
  }

  /** A non-empty history of operations with distinct ids. */
  ghost predicate IsHistory(operations: seq<Json>, rowOf: Json -> Row) {
    && operations != []
    && (forall i | 0 <= i < |operations| :: IsOperation(operations[i], rowOf))
    && (forall i, j | 0 <= i < j < |operations| :: rowOf(operations[i]).id != rowOf(operations[j]).id)
  }

  ghost function Rows(operations: seq<Json>, rowOf: Json -> Row): (rows: seq<Row>)
    ensures |rows| == |operations|
    ensures forall i | 0 <= i < |rows| :: rows[i] == rowOf(operations[i])
  {
    seq(|operations|, i requires 0 <= i < |operations| => rowOf(operations[i]))
  }

  /** `left.id.localeCompare(right.id) <= 0`. */
  function ById(localeCompare: (string, string) -> int): (Row, Row) -> bool {
    (left: Row, right: Row) => localeCompare(left.id, right.id) <= 0
  }

  ghost function Snapshot(operations: seq<Json>, rowOf: Json -> Row, localeCompare: (string, string) -> int)
    : seq<Row>
  {
    Sort(ById(localeCompare), Rows(operations, rowOf))
  }

  /** Lines 361 to 373 of `production-verifier.ts`. None stands for the error `runtime_operation_history_required`. */
  method OperationRows(operations: seq<Json>, rowOf: Json -> Row) returns (rows: Option<seq<Row>>)
    ensures rows.Some? <==> IsHistory(operations, rowOf)
    ensures rows.Some? ==> rows.value == Rows(operations, rowOf)
  {
    var seen: set<string> := {};
    var snapshot: seq<Row> := [];
    for k := 0 to |operations|
      invariant forall i | 0 <= i < k :: IsOperation(operations[i], rowOf)
      invariant forall i, j | 0 <= i < j < k :: rowOf(operations[i]).id != rowOf(operations[j]).id
      invariant forall id :: id in seen <==> exists i :: 0 <= i < k && rowOf(operations[i]).id == id
      invariant snapshot == Rows(operations, rowOf)[..k]
    {
      var operation := operations[k];
      var row := rowOf(operation);
      if row.id in seen || !IsOperation(operation, rowOf) {
        return None;
      }
      seen := seen + {row.id};
      snapshot := snapshot + [row];
    }
    if |snapshot| == 0 {
      return None;
    }
    assert snapshot == Rows(operations, rowOf);
    rows := Some(snapshot);
  }

  method RuntimeOperationSnapshot(state: Json, sha256: string -> string, localeCompare: (string, string) -> int)
    returns (snapshot: Option<seq<Row>>)
    ensures snapshot.Some? <==> IsHistory(OperationsOf(state), OperationRow(sha256))
    ensures snapshot.Some? ==>
              snapshot.value == Snapshot(OperationsOf(state), OperationRow(sha256), localeCompare)
  {
    var rows := OperationRows(OperationsOf(state), OperationRow(sha256));
    if rows.None? {
      return None;
    }
    snapshot := Some(Sort(ById(localeCompare), rows.value));
  }

  // ----- printing a snapshot -----

  function RowJson(row: Row): Json {
    Obj([Entry("id", Str(row.id)), Entry("action", Str(row.action)), Entry("status", Str(row.status)),
         Entry("providerRequestId", Str(row.providerRequestId)),
         Entry("operationDigest", Str(row.operationDigest))])
  }

  /** `JSON.stringify(snapshot)`. */
  function PrintRows(rows: seq<Row>): string {
    Print(Arr(seq(|rows|, i requires 0 <= i < |rows| => RowJson(rows[i]))))
  }

  lemma RowJsonInjective(a: Row, b: Row)
    ensures Plain(RowJson(a))
    ensures RowJson(a) == RowJson(b) <==> a == b
  {
    var x, y := RowJson(a).entries, RowJson(b).entries;
    assert Keys(x) == ["id", "action", "status", "providerRequestId", "operationDigest"];
    assert |"id"| == 2 && |"action"| == |"status"| == 6 && |"providerRequestId"| == 17 && |"operationDigest"| == 15;
    assert "action"[0] == 'a' && "status"[0] == 's';
    if x == y {
      assert x[0] == y[0] && x[1] == y[1] && x[2] == y[2] && x[3] == y[3] && x[4] == y[4];
    }
  }

  lemma PrintRowsInjective(a: seq<Row>, b: seq<Row>)
    ensures PrintRows(a) == PrintRows(b) <==> a == b
  {
    var x := seq(|a|, i requires 0 <= i < |a| => RowJson(a[i]));
    var y := seq(|b|, i requires 0 <= i < |b| => RowJson(b[i]));
    forall i | 0 <= i < |a| ensures Plain(x[i]) {
      RowJsonInjective(a[i], a[i]);
    }
    forall i | 0 <= i < |b| ensures Plain(y[i]) {
      RowJsonInjective(b[i], b[i]);
    }
    PlainPrintInjective(Arr(x), Arr(y));
    if x == y {
      forall i | 0 <= i < |a| ensures a[i] == b[i] {
        assert x[i] == y[i];
        RowJsonInjective(a[i], b[i]);
      }
    }
  }

  // ----- the unchanged-history test -----

  ghost predicate Injective(sha256: string -> string) {
    forall s, t :: sha256(s) == sha256(t) ==> s == t
  }

  /** The comparison is a consistent order on ids; it may still rate distinct ids as equal. */
  ghost predicate Consistent(localeCompare: (string, string) -> int) {
    && (forall a, b :: localeCompare(a, b) <= 0 || localeCompare(b, a) <= 0)
    && (forall a, b, c :: localeCompare(a, b) <= 0 && localeCompare(b, c) <= 0 ==> localeCompare(a, c) <= 0)
  }

  ghost predicate Tied(localeCompare: (string, string) -> int, a: string, b: string) {
    localeCompare(a, b) <= 0 && localeCompare(b, a) <= 0
  }

  /** The comparison tells the ids of the history apart. */
  ghost predicate SeparatesIds(localeCompare: (string, string) -> int, operations: seq<Json>, rowOf: Json -> Row) {
    forall i, j | 0 <= i < j < |operations| ::
      !Tied(localeCompare, rowOf(operations[i]).id, rowOf(operations[j]).id)
  }

  /** The two operations leave the same record: they are the same up to the order of keys, but for infinities taken as
      `null`, and their id, action, status and request id read the same. */
  ghost predicate SameRecord(v: Json, w: Json) {
    && Same(AsPrinted(v), AsPrinted(w))
    && OperationId(v) == OperationId(w)
    && FieldText(Member(v, "action")) == FieldText(Member(w, "action"))
    && FieldText(Member(v, "status")) == FieldText(Member(w, "status"))
    && FieldText(Member(v, "providerRequestId")) == FieldText(Member(w, "providerRequestId"))
  }

  /** Every operation of either history has its like in the other, in whatever order. */
  ghost predicate SameHistory(a: seq<Json>, b: seq<Json>, same: (Json, Json) -> bool) {
    && (forall v | v in a :: exists w :: w in b && same(v, w))
    && (forall w | w in b :: exists v :: v in a && same(v, w))
  }

  ghost predicate AllWellFormed(operations: seq<Json>) {
    forall v | v in operations :: WellFormed(v)
  }

  ghost predicate AllPlain(operations: seq<Json>) {
    forall v | v in operations :: Plain(v)
  }

  /** Rows tell operations apart exactly as far as `same` does. */
  ghost predicate TellsApart(rowOf: Json -> Row, same: (Json, Json) -> bool, a: seq<Json>, b: seq<Json>) {
    forall v, w | v in a && w in b :: rowOf(v) == rowOf(w) <==> same(v, w)
  }

  lemma SameMember(v: Json, w: Json, name: string)
    requires Same(v, w)
    ensures Truthy(Member(v, name)) == Truthy(Member(w, name))
    ensures FieldText(Member(v, name)) == FieldText(Member(w, name))
  {
    assert Same(Member(v, name), Member(w, name));
    SameText(Member(v, name), Member(w, name));
  }

  /** Two operations have the same row exactly when they leave the same record. */
  lemma RowIffSame(v: Json, w: Json, sha256: string -> string)
    requires WellFormed(v) && WellFormed(w) && Injective(sha256)
    ensures OperationRow(sha256)(v) == OperationRow(sha256)(w) <==> SameRecord(v, w)
  {
    PrintedCanonicalIffSame(v, w);
  }

  /** Without infinities that means the same operation up to the order of keys. */
  lemma PlainRecords(v: Json, w: Json)
    requires Plain(v) && Plain(w)
    ensures SameRecord(v, w) <==> Same(v, w)
  {
    PlainIsAsPrinted(v);
    PlainIsAsPrinted(w);
    if Same(v, w) {
      SameMember(v, w, "id");
      SameMember(v, w, "operationId");
      SameMember(v, w, "action");
      SameMember(v, w, "status");
      SameMember(v, w, "providerRequestId");
    }
  }

  lemma RowsAre(operations: seq<Json>, rowOf: Json -> Row)
    ensures forall row :: row in Rows(operations, rowOf) <==> exists v :: v in operations && rowOf(v) == row
  {
    var rows := Rows(operations, rowOf);
    forall v | v in operations ensures rowOf(v) in rows {
      var i :| 0 <= i < |operations| && operations[i] == v;
      assert rows[i] == rowOf(v);
    }
  }

  lemma SameHistorySameRows(a: seq<Json>, b: seq<Json>, rowOf: Json -> Row, same: (Json, Json) -> bool)
    requires TellsApart(rowOf, same, a, b)
    ensures SameHistory(a, b, same) <==> forall row :: row in Rows(a, rowOf) <==> row in Rows(b, rowOf)
  {
    RowsAre(a, rowOf);
    RowsAre(b, rowOf);
    if forall row :: row in Rows(a, rowOf) <==> row in Rows(b, rowOf) {
      forall v | v in a ensures exists w :: w in b && same(v, w) {
        assert rowOf(v) in Rows(b, rowOf);
      }
      forall w | w in b ensures exists v :: v in a && same(v, w) {
        assert rowOf(w) in Rows(a, rowOf);
      }
    }
  }

  lemma ByIdIsOrder(localeCompare: (string, string) -> int)
    requires Consistent(localeCompare)
    ensures TotalPreorder(ById(localeCompare))
  {
    var le := ById(localeCompare);
    forall x, y ensures le(x, y) || le(y, x) {
      assert localeCompare(x.id, y.id) <= 0 || localeCompare(y.id, x.id) <= 0;
    }
    forall x, y, z | le(x, y) && le(y, z) ensures le(x, z) {
      assert localeCompare(x.id, y.id) <= 0 && localeCompare(y.id, z.id) <= 0;
    }
  }

  lemma RowsSeparate(operations: seq<Json>, rowOf: Json -> Row, localeCompare: (string, string) -> int)
    requires SeparatesIds(localeCompare, operations, rowOf)
    ensures Separates(ById(localeCompare), Rows(operations, rowOf))
  {
    var le, rows := ById(localeCompare), Rows(operations, rowOf);
    forall x, y | x in rows && y in rows && le(x, y) && le(y, x) ensures x == y {
      var i :| 0 <= i < |rows| && rows[i] == x;
      var j :| 0 <= j < |rows| && rows[j] == y;
      assert Tied(localeCompare, x.id, y.id) && Tied(localeCompare, y.id, x.id);
    }
  }

  /** The unchanged-history test: when the comparison tells the ids of the first history apart, the two printed
      snapshots are equal exactly when the histories leave the same records, in whatever order the server listed
      them; without infinities, exactly when they hold the same operations up to the order of keys. */
  lemma UnchangedHistoryTest(a: seq<Json>, b: seq<Json>, sha256: string -> string,
                             localeCompare: (string, string) -> int)
    requires IsHistory(a, OperationRow(sha256)) && IsHistory(b, OperationRow(sha256))
    requires AllWellFormed(a) && AllWellFormed(b)
    requires Injective(sha256) && Consistent(localeCompare)
    requires SeparatesIds(localeCompare, a, OperationRow(sha256))
    ensures var rowOf := OperationRow(sha256);
            && (PrintRows(Snapshot(a, rowOf, localeCompare)) == PrintRows(Snapshot(b, rowOf, localeCompare))
                <==> SameHistory(a, b, SameRecord))
            && (AllPlain(a) && AllPlain(b) ==> (SameHistory(a, b, SameRecord) <==> SameHistory(a, b, Same)))
  {
    var rowOf := OperationRow(sha256);
    forall v, w | v in a && w in b ensures rowOf(v) == rowOf(w) <==> SameRecord(v, w) {
      RowIffSame(v, w, sha256);
    }
    HistoriesCompare(a, b, rowOf, SameRecord, localeCompare);
    if AllPlain(a) && AllPlain(b) {
      PlainHistories(a, b);
    }
  }

  lemma PlainHistories(a: seq<Json>, b: seq<Json>)
    requires AllPlain(a) && AllPlain(b)
    ensures SameHistory(a, b, SameRecord) <==> SameHistory(a, b, Same)
  {
    forall v, w | v in a && w in b ensures SameRecord(v, w) <==> Same(v, w) {
      PlainRecords(v, w);
    }
  }

  lemma HistoriesCompare(a: seq<Json>, b: seq<Json>, rowOf: Json -> Row, same: (Json, Json) -> bool,
                         localeCompare: (string, string) -> int)
    requires IsHistory(a, rowOf) && IsHistory(b, rowOf) && TellsApart(rowOf, same, a, b)
    requires Consistent(localeCompare) && SeparatesIds(localeCompare, a, rowOf)
    ensures PrintRows(Snapshot(a, rowOf, localeCompare)) == PrintRows(Snapshot(b, rowOf, localeCompare))
            <==> SameHistory(a, b, same)
  {
    var x, y, le := Rows(a, rowOf), Rows(b, rowOf), ById(localeCompare);
    PrintRowsInjective(Sort(le, x), Sort(le, y));
    SameHistorySameRows(a, b, rowOf, same);
    SortPermutes(le, x);
    SortPermutes(le, y);
    SameMembers(Sort(le, x), x);
    SameMembers(Sort(le, y), y);
    if SameHistory(a, b, same) {
      SameSetSameMultiset(x, y);
      ByIdIsOrder(localeCompare);
      RowsSeparate(a, rowOf, localeCompare);
      SortIgnoresOrder(le, x, y);
    }
  }

  // ----- an infinity the test does not see -----

  /** An operation of the fields the snapshot asks for, and one more. */
  function OperationWith(id: string, cost: Json): Json {
    OperationOf(id, "start", "done", "req-1", cost)
  }

  function OperationOf(id: string, action: string, status: string, request: string, cost: Json): Json {
    Obj([Entry("id", Str(id)), Entry("action", Str(action)), Entry("status", Str(status)),
         Entry("providerRequestId", Str(request)), Entry("cost", cost)])
  }

  lemma OperationKeys(op: Json, id: string, action: string, status: string, request: string, cost: Json)
    requires op == OperationOf(id, action, status, request, cost)
    ensures Distinct(Keys(op.entries)) && Keys(op.entries) == ["id", "action", "status", "providerRequestId", "cost"]
  {
    var keys := Keys(op.entries);
    assert keys == ["id", "action", "status", "providerRequestId", "cost"];
    assert |"id"| == 2 && |"action"| == |"status"| == 6 && |"cost"| == 4 && |"providerRequestId"| == 17;
    assert "action"[0] == 'a' && "status"[0] == 's';
  }

  lemma MemberAt(entries: seq<Entry>, i: nat)
    requires i < |entries| && Distinct(Keys(entries))
    ensures Member(Obj(entries), entries[i].key) == entries[i].value
  {
    GetIs(entries, i);
  }

  /** The operation has these fields. */
  ghost predicate HasFields(op: Json, id: string, action: string, status: string, request: string) {
    && op.Obj? && Member(op, "id") == Str(id) && Member(op, "action") == Str(action)
    && Member(op, "status") == Str(status) && Member(op, "providerRequestId") == Str(request)
  }

  lemma OperationHasFields(op: Json, id: string, action: string, status: string, request: string, cost: Json)
    requires op == OperationOf(id, action, status, request, cost)
    ensures HasFields(op, id, action, status, request)
    ensures "cost" in Keys(op.entries) && Member(op, "cost") == cost
  {
    OperationKeys(op, id, action, status, request, cost);
    assert "cost" == Keys(op.entries)[4];
    MemberAt(op.entries, 0);
    MemberAt(op.entries, 1);
    MemberAt(op.entries, 2);
    MemberAt(op.entries, 3);
    MemberAt(op.entries, 4);
  }

  lemma OperationWellFormed(op: Json, id: string, action: string, status: string, request: string, cost: Json)
    requires op == OperationOf(id, action, status, request, cost) && WellFormed(cost)
    ensures WellFormed(op)
  {
    OperationKeys(op, id, action, status, request, cost);
  }

  lemma TextReads(s: string)
    ensures FieldText(Str(s)) == Trim(s)
  {
    TrimFixed("");
  }

  /** An operation whose fields are texts makes the row of these texts, trimmed, with the digest of its own canonical
      form. */
  lemma OperationReads(op: Json, id: string, action: string, status: string, request: string, sha256: string -> string)
    requires id != "" && HasFields(op, id, action, status, request)
    ensures OperationRow(sha256)(op)
            == Row(Trim(id), Trim(action), Trim(status), Trim(request), sha256(Print(CanonicalValue(op))))
  {
    TextReads(id);
    TextReads(action);
    TextReads(status);
    TextReads(request);
  }

  lemma LiteralsTrimmed()
    ensures Trim("start") == "start" && Trim("done") == "done" && Trim("req-1") == "req-1"
  {
    TrimEdges("start", 's', 't');
    TrimEdges("done", 'd', 'e');
    TrimEdges("req-1", 'r', '1');
  }

  lemma TrimEdges(s: string, first: char, last: char)
    requires s != "" && s[0] == first && s[|s| - 1] == last && !IsSpace(first) && !IsSpace(last)
    ensures Trim(s) == s
  {
    TrimFixed(s);
  }

  lemma ExampleIsOperation(op: Json, id: string, sha256: string -> string)
    requires id != "" && IsTrimmed(id) && HasFields(op, id, "start", "done", "req-1")
    ensures IsOperation(op, OperationRow(sha256)) && OperationRow(sha256)(op).id == id
    ensures OperationRow(sha256)(op) == Row(id, "start", "done", "req-1", sha256(Print(CanonicalValue(op))))
  {
    OperationReads(op, id, "start", "done", "req-1", sha256);
    LiteralsTrimmed();
    TrimFixed(id);
    RowIsOperation(op, OperationRow(sha256), OperationRow(sha256)(op));
  }

  lemma RowIsOperation(op: Json, rowOf: Json -> Row, row: Row)
    requires op.Obj? && rowOf(op) == row && row.id != "" && row.action != "" && row.status != ""
    ensures IsOperation(op, rowOf)
  {
  }

  lemma SamePrint(v: Json, w: Json)
    requires WellFormed(v) && WellFormed(w) && AsPrinted(v) == AsPrinted(w)
    ensures Print(CanonicalValue(v)) == Print(CanonicalValue(w))
  {
    CanonicalAsPrinted(v);
    CanonicalAsPrinted(w);
    PrintAsPrinted(CanonicalValue(v));
    PrintAsPrinted(CanonicalValue(w));
  }

  lemma CostIsHidden(id: string)
    ensures AsPrinted(OperationWith(id, Infinite(false))) == AsPrinted(OperationWith(id, Null))
  {
    var v, w := OperationWith(id, Infinite(false)), OperationWith(id, Null);
    AsPrintedParts(v);
    AsPrintedParts(w);
    assert AsPrintedEntries(v.entries) == AsPrintedEntries(w.entries);
  }

  lemma OneRow(v: Json, w: Json, id: string, sha256: string -> string)
    requires id != "" && IsTrimmed(id)
    requires HasFields(v, id, "start", "done", "req-1") && HasFields(w, id, "start", "done", "req-1")
    requires WellFormed(v) && WellFormed(w) && AsPrinted(v) == AsPrinted(w)
    ensures OperationRow(sha256)(v) == OperationRow(sha256)(w)
    ensures IsHistory([v], OperationRow(sha256)) && IsHistory([w], OperationRow(sha256))
  {
    ExampleIsOperation(v, id, sha256);
    ExampleIsOperation(w, id, sha256);
    SamePrint(v, w);
  }

  lemma DifferentCosts(v: Json, w: Json)
    requires v.Obj? && w.Obj? && "cost" in Keys(v.entries) && !Same(Member(v, "cost"), Member(w, "cost"))
    ensures !Same(v, w)
  {
    if Same(v, w) {
      assert Same(Get(v.entries, "cost"), Get(w.entries, "cost"));
    }
  }

  /** The test does not see an infinity become `null`: two operations that are not the same have one row, and each
      makes a history. */
  lemma InfinityIsHidden(v: Json, w: Json, id: string, sha256: string -> string)
    requires id != "" && IsTrimmed(id)
    requires v == OperationWith(id, Infinite(false)) && w == OperationWith(id, Null)
    ensures WellFormed(v) && WellFormed(w) && !Same(v, w)
    ensures OperationRow(sha256)(v) == OperationRow(sha256)(w)
    ensures IsHistory([v], OperationRow(sha256)) && IsHistory([w], OperationRow(sha256))
  {
    OperationWellFormed(v, id, "start", "done", "req-1", Infinite(false));
    OperationWellFormed(w, id, "start", "done", "req-1", Null);
    OperationHasFields(v, id, "start", "done", "req-1", Infinite(false));
    OperationHasFields(w, id, "start", "done", "req-1", Null);
    CostIsHidden(id);
    OneRow(v, w, id, sha256);
    DifferentCosts(v, w);
  }

  // ----- exactly when the server's order does not matter -----

  function Reversed<T>(s: seq<T>): (r: seq<T>)
    ensures |r| == |s|
    ensures forall i | 0 <= i < |s| :: r[i] == s[|s| - 1 - i]
    ensures multiset(r) == multiset(s)
  {
    if s == [] then []
    else
      assert s == [s[0]] + s[1..];
      Reversed(s[1..]) + [s[0]]
  }

  lemma RowsOfParts(a: seq<Json>, b: seq<Json>, rowOf: Json -> Row)
    ensures Rows(a + b, rowOf) == Rows(a, rowOf) + Rows(b, rowOf)
  {
  }

  lemma {:induction false} RowsPermute(a: seq<Json>, b: seq<Json>, rowOf: Json -> Row)
    requires multiset(a) == multiset(b)
    ensures multiset(Rows(a, rowOf)) == multiset(Rows(b, rowOf))
  {
    SameMembers(a, b);
    if a != [] {
      assert a[0] in a;
      var j :| 0 <= j < |b| && b[j] == a[0];
      var x, y := b[..j], b[j + 1..];
      WithoutOne(a, b, j);
      RowsPermute(a[1..], x + y, rowOf);
      assert a == [a[0]] + a[1..] && b == x + ([b[j]] + y);
      RowsOfParts([a[0]], a[1..], rowOf);
      RowsOfParts(x, y, rowOf);
      RowsOfParts([b[j]], y, rowOf);
      RowsOfParts(x, [b[j]] + y, rowOf);
    }
  }

  lemma WithoutOne<T>(a: seq<T>, b: seq<T>, j: nat)
    requires multiset(a) == multiset(b) && a != [] && j < |b| && b[j] == a[0]
    ensures multiset(a[1..]) == multiset(b[..j] + b[j + 1..])
  {
    assert a == [a[0]] + a[1..];
    assert b == b[..j] + [b[j]] + b[j + 1..];
    assert multiset(a[1..]) == multiset(a) - multiset{a[0]};
  }

  /** The order in which the server lists a history has no influence on its snapshot exactly when the comparison
      tells the ids of the history apart. */
  lemma OrderIrrelevantIffSeparated(a: seq<Json>, rowOf: Json -> Row, localeCompare: (string, string) -> int)
    requires IsHistory(a, rowOf) && Consistent(localeCompare)
    ensures (forall b | multiset(b) == multiset(a) ::
               Snapshot(b, rowOf, localeCompare) == Snapshot(a, rowOf, localeCompare))
            <==> SeparatesIds(localeCompare, a, rowOf)
  {
    if SeparatesIds(localeCompare, a, rowOf) {
      forall b | multiset(b) == multiset(a)
        ensures Snapshot(b, rowOf, localeCompare) == Snapshot(a, rowOf, localeCompare)
      {
        OrderHidden(a, b, rowOf, localeCompare);
      }
    } else {
      OrderShows(a, rowOf, localeCompare);
    }
  }

  lemma OrderHidden(a: seq<Json>, b: seq<Json>, rowOf: Json -> Row, localeCompare: (string, string) -> int)
    requires multiset(b) == multiset(a)
    requires Consistent(localeCompare) && SeparatesIds(localeCompare, a, rowOf)
    ensures Snapshot(b, rowOf, localeCompare) == Snapshot(a, rowOf, localeCompare)
  {
    ByIdIsOrder(localeCompare);
    RowsSeparate(a, rowOf, localeCompare);
    RowsPermute(a, b, rowOf);
    SortIgnoresOrder(ById(localeCompare), Rows(a, rowOf), Rows(b, rowOf));
  }

  /** Listing a history backwards shows in the snapshot when two of its ids are tied. */
  lemma OrderShows(a: seq<Json>, rowOf: Json -> Row, localeCompare: (string, string) -> int)
    requires IsHistory(a, rowOf) && !SeparatesIds(localeCompare, a, rowOf)
    ensures multiset(Reversed(a)) == multiset(a)
    ensures Snapshot(Reversed(a), rowOf, localeCompare) != Snapshot(a, rowOf, localeCompare)
  {
    var i, j :| 0 <= i < j < |a| && Tied(localeCompare, rowOf(a[i]).id, rowOf(a[j]).id);
    var x, y := Rows(a, rowOf), Rows(Reversed(a), rowOf);
    assert y[|x| - 1 - j] == x[j] && y[|x| - 1 - i] == x[i];
    TiesShow(ById(localeCompare), x, y, i, j);
  }

  /** Rows the comparison ties come out in the order they went in. */
  lemma TiesShow(le: (Row, Row) -> bool, x: seq<Row>, y: seq<Row>, i: nat, j: nat)
    requires Distinct(x) && |x| == |y| && i < j < |x|
    requires y[|x| - 1 - j] == x[j] && y[|x| - 1 - i] == x[i]
    requires le(x[i], x[j]) && le(x[j], x[i])
    ensures Sort(le, x) != Sort(le, y)
  {
    SortIsStable(le, x, i, j);
    SortIsStable(le, y, |x| - 1 - j, |x| - 1 - i);
    SortPermutes(le, x);
    var s := Sort(le, x);
    forall p, q | 0 <= p < q < |s| ensures s[p] != s[q] {
      if s[p] == s[q] {
        TwiceIsTwo(s, p, q);
        OnceEach(x, s[p]);
      }
    }
  }

  lemma TiedPairShows(v: Json, w: Json, rowOf: Json -> Row, localeCompare: (string, string) -> int)
    requires IsOperation(v, rowOf) && IsOperation(w, rowOf) && rowOf(v).id != rowOf(w).id
    requires Tied(localeCompare, rowOf(v).id, rowOf(w).id)
    ensures IsHistory([v, w], rowOf) && IsHistory([w, v], rowOf) && !SeparatesIds(localeCompare, [v, w], rowOf)
    ensures PrintRows(Snapshot([w, v], rowOf, localeCompare)) != PrintRows(Snapshot([v, w], rowOf, localeCompare))
  {
    var a := [v, w];
    assert Tied(localeCompare, rowOf(a[0]).id, rowOf(a[1]).id);
    OrderShows(a, rowOf, localeCompare);
    assert Reversed(a) == [w, v];
    PrintRowsInjective(Snapshot([w, v], rowOf, localeCompare), Snapshot(a, rowOf, localeCompare));
  }

  /** Any two ids the comparison ties make such a history: the same two operations, listed in either order, and two
      snapshots that differ. */
  lemma TiedIdsShowTheOrder(v: Json, w: Json, id1: string, id2: string, sha256: string -> string,
                            localeCompare: (string, string) -> int)
    requires id1 != "" && IsTrimmed(id1) && id2 != "" && IsTrimmed(id2) && id1 != id2
    requires Tied(localeCompare, id1, id2)
    requires v == OperationWith(id1, Null) && w == OperationWith(id2, Null)
    ensures var rowOf := OperationRow(sha256);
            && IsHistory([v, w], rowOf) && IsHistory([w, v], rowOf) && !SeparatesIds(localeCompare, [v, w], rowOf)
            && PrintRows(Snapshot([w, v], rowOf, localeCompare)) != PrintRows(Snapshot([v, w], rowOf, localeCompare))
  {
    OperationHasFields(v, id1, "start", "done", "req-1", Null);
    OperationHasFields(w, id2, "start", "done", "req-1", Null);
    ExampleIsOperation(v, id1, sha256);
    ExampleIsOperation(w, id2, sha256);
    TiedPairShows(v, w, OperationRow(sha256), localeCompare);
  }

  // ----- what is read from an operation -----

  ghost function ItemTexts(items: seq<Json>): (texts: seq<string>)
    ensures |texts| == |items|
    ensures forall i | 0 <= i < |items| :: texts[i] == if items[i].Null? then "" else Text(items[i])
  {
    seq(|items|, i requires 0 <= i < |items| => if items[i].Null? then "" else Text(items[i]))
  }

  lemma {:induction false} JoinedIs(items: seq<Json>)
    ensures Joined(items) == CommaSeparated(ItemTexts(items))
  {
    if items != [] {
      assert ItemTexts(items)[1..] == ItemTexts(items[1..]);
      JoinedIs(items[1..]);
    }
  }

  /** A field reads as nothing if it is missing, `null`, `false`, 0 or the empty text; else as its text, trimmed: an
      array as its items with commas between them, `null` as nothing, and an object as `[object Object]`. */
  lemma FieldTextIs(v: Json)
    ensures v in {Null, Bool(false), Num("0"), Str("")} ==> FieldText(v) == ""
    ensures v !in {Null, Bool(false), Num("0"), Str("")} ==> FieldText(v) == Trim(Text(v))
    ensures v.Str? ==> Text(v) == v.s
    ensures v.Num? ==> Text(v) == v.text
    ensures v.Bool? ==> Text(v) == if v.b then "true" else "false"
    ensures v.Infinite? ==> Text(v) == if v.negative then "-Infinity" else "Infinity"
    ensures v.Arr? ==> Text(v) == CommaSeparated(ItemTexts(v.items))
    ensures v.Obj? ==> Text(v) == "[object Object]"
  {
    TrimFixed("");
    if v.Arr? {
      JoinedIs(v.items);
    }
  }

  /** The id is read from `id`, and from `operationId` only where `id` holds nothing. */
  lemma OperationIdIs(op: Json)
    ensures OperationId(op)
            == FieldText(if Member(op, "id") in {Null, Bool(false), Num("0"), Str("")} then Member(op, "operationId")
                         else Member(op, "id"))
  {
  }

  /** A history is a listing, not empty, of objects that have an id, an action and a status, with no id twice. */
  lemma HistoryIff(operations: seq<Json>, sha256: string -> string)
    ensures IsHistory(operations, OperationRow(sha256)) <==>
            && operations != []
            && (forall i | 0 <= i < |operations| ::
                  && operations[i].Obj? && OperationId(operations[i]) != ""
                  && FieldText(Member(operations[i], "action")) != ""
                  && FieldText(Member(operations[i], "status")) != "")
            && (forall i, j | 0 <= i < j < |operations| :: OperationId(operations[i]) != OperationId(operations[j]))
  {
    var rowOf := OperationRow(sha256);
    assert forall op :: IsOperation(op, rowOf) <==>
      op.Obj? && OperationId(op) != "" && FieldText(Member(op, "action")) != "" && FieldText(Member(op, "status")) != "";
  }

  /** The operations are those listed under `runtimeOperations`; a state without such a list has no history. */
  lemma OperationsAre(state: Json, rowOf: Json -> Row)
    ensures Member(state, "runtimeOperations").Arr? ==>
              OperationsOf(state) == Member(state, "runtimeOperations").items
    ensures !Member(state, "runtimeOperations").Arr? ==> !IsHistory(OperationsOf(state), rowOf)
  {
  }

  /** A snapshot holds the rows of the history, no more and no fewer, in rising order of ids; rows the comparison ties
      stay in the order the server listed them. */
  lemma SnapshotIs(operations: seq<Json>, rowOf: Json -> Row, localeCompare: (string, string) -> int)
    requires Consistent(localeCompare)
    ensures var s, rows := Snapshot(operations, rowOf, localeCompare), Rows(operations, rowOf);
            && multiset(s) == multiset(rows)
            && (forall i, j | 0 <= i < j < |s| :: localeCompare(s[i].id, s[j].id) <= 0)
            && (forall i, j | 0 <= i < j < |rows| && localeCompare(rows[i].id, rows[j].id) <= 0 ::
                  Precedes(s, rows[i], rows[j]))
  {
    var le, rows := ById(localeCompare), Rows(operations, rowOf);
    ByIdIsOrder(localeCompare);
    SortSorts(le, rows);
    SortPermutes(le, rows);
    assert forall x: Row, y: Row :: le(x, y) <==> localeCompare(x.id, y.id) <= 0;
    forall i, j | 0 <= i < j < |rows| && localeCompare(rows[i].id, rows[j].id) <= 0
      ensures Precedes(Sort(le, rows), rows[i], rows[j])
    {
      SortIsStable(le, rows, i, j);
    }
  }

  /** What a row prints as. */
  lemma RowMembers(row: Row)
    ensures Keys(RowJson(row).entries) == ["id", "action", "status", "providerRequestId", "operationDigest"]
    ensures RowJson(row).entries[0].value == Str(row.id) && RowJson(row).entries[1].value == Str(row.action)
    ensures RowJson(row).entries[2].value == Str(row.status)
    ensures RowJson(row).entries[3].value == Str(row.providerRequestId)
    ensures RowJson(row).entries[4].value == Str(row.operationDigest)
  {
  }
}
