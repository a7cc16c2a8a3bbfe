/** JSON values and `JSON.stringify` without indentation, character by character. */
module JsonValue {

  /** `entries` lists an object's own properties in enumeration order. A finite number is known by the text it prints
      as; a literal beyond the range of Number, such as `1e400`, parses to an infinity. */
  datatype Json =
    | Null
    | Bool(b: bool)
    | Num(text: string)
    | Infinite(negative: bool)
    | Str(s: string)
    | Arr(items: seq<Json>)
    | Obj(entries: seq<Entry>)

  datatype Entry = Entry(key: string, value: Json)

  function Keys(entries: seq<Entry>): (keys: seq<string>)
    ensures |keys| == |entries|
    ensures forall i | 0 <= i < |entries| :: keys[i] == entries[i].key
  {
    seq(|entries|, i requires 0 <= i < |entries| => entries[i].key)
  }

  ghost predicate Distinct<T>(s: seq<T>) {
    forall i, j | 0 <= i < j < |s| :: s[i] != s[j]
  }

  /** `value[key]` for a key that is there. */
  function Get(entries: seq<Entry>, key: string): (value: Json)
    requires key in Keys(entries)
    ensures exists i :: 0 <= i < |entries| && entries[i].key == key && entries[i].value == value
  {
    if entries[0].key == key then entries[0].value
    else
      assert Keys(entries) == [entries[0].key] + Keys(entries[1..]);
      Get(entries[1..], key)
  }

  lemma {:induction false} GetIs(entries: seq<Entry>, i: nat)
    requires i < |entries| && Distinct(Keys(entries))
    ensures entries[i].key in Keys(entries)
    ensures Get(entries, entries[i].key) == entries[i].value
  {
    assert Keys(entries)[i] == entries[i].key;
    if i > 0 {
      assert Keys(entries)[0] != Keys(entries)[i];
      assert Keys(entries[1..]) == Keys(entries)[1..];
      GetIs(entries[1..], i - 1);
    }
  }

  lemma KeyHasEntry(entries: seq<Entry>, key: string) returns (i: nat)
    requires key in Keys(entries)
    ensures i < |entries| && entries[i].key == key && entries[i].value == Get(entries, key)
  {
    i :| 0 <= i < |entries| && entries[i].key == key && entries[i].value == Get(entries, key);
  }

  predicate NumberChar(c: char) {
    '0' <= c <= '9' || c == '+' || c == '-' || c == '.' || c == 'e' || c == 'E'
  }

  predicate NumberText(s: string) {
    s != [] && (s[0] == '-' || '0' <= s[0] <= '9') && forall c | c in s :: NumberChar(c)
  }

  /** `value?.name`, with `null` for `undefined`. */
  function Member(v: Json, key: string): Json {
    if v.Obj? && key in Keys(v.entries) then Get(v.entries, key) else Null
  }

  /** As `JSON.parse` builds values: keys are distinct in every object, finite numbers print as numbers. */
  ghost predicate WellFormed(v: Json) {
    match v
    case Num(text) => NumberText(text)
    case Arr(items) => forall i | 0 <= i < |items| :: WellFormed(items[i])
    case Obj(entries) => Distinct(Keys(entries)) && forall i | 0 <= i < |entries| :: WellFormed(entries[i].value)
    case _ => true
  }

  // ----- printing -----

  function Hex(n: nat): char
    requires n < 16
  {
    "0123456789abcdef"[n]
  }

  /** One character inside a quoted string. */
  function Escape(c: char): string {
    if c == '\"' then "\\\"" else if c == '\\' then "\\\\"
    else if c == '\n' then "\\n" else if c == '\r' then "\\r" else if c == '\t' then "\\t"
    else if c as int == 8 then "\\b" else if c as int == 12 then "\\f"
    else if c as int < 32 then "\\u00" + [Hex(c as int / 16), Hex(c as int % 16)]
    else [c]
  }

  function Escaped(s: string): string {
    if s == [] then [] else Escape(s[0]) + Escaped(s[1..])
  }

  function Quote(s: string): string {
    "\"" + Escaped(s) + "\""
  }

  function Print(v: Json): string
    decreases v, 1
  {
    match v
    case Null => "null"
    case Bool(b) => if b then "true" else "false"
    case Num(text) => text
    case Infinite(_) => "null"
    case Str(s) => Quote(s)
    case Arr(items) => "[" + PrintItems(items, true)
    case Obj(entries) => "{" + PrintEntries(entries, true)
  }

  function Comma(first: bool): string {
    if first then "" else ","
  }

  function PrintItems(items: seq<Json>, first: bool): string
    decreases items, 0
  {
    if items == [] then "]"
    else Comma(first) + Print(items[0]) + PrintItems(items[1..], false)
  }

  function PrintEntries(entries: seq<Entry>, first: bool): string
    decreases entries, 0
  {
    if entries == [] then "}"
    else Comma(first) + Quote(entries[0].key) + ":" + Print(entries[0].value) + PrintEntries(entries[1..], false)
  }

  // ----- what printing keeps -----

  /** The value as its printed form shows it: infinities have become `null`. */
  function AsPrinted(v: Json): Json
    decreases v
  {
    match v
    case Infinite(_) => Null
    case Arr(items) => Arr(seq(|items|, i requires 0 <= i < |items| => AsPrinted(items[i])))
    case Obj(entries) =>
      Obj(seq(|entries|, i requires 0 <= i < |entries| => Entry(entries[i].key, AsPrinted(entries[i].value))))
    case _ => v
  }

  function AsPrintedEntries(entries: seq<Entry>): (r: seq<Entry>)
    ensures |r| == |entries|
    ensures forall i | 0 <= i < |entries| :: r[i] == Entry(entries[i].key, AsPrinted(entries[i].value))
  {
    seq(|entries|, i requires 0 <= i < |entries| => Entry(entries[i].key, AsPrinted(entries[i].value)))
  }

  function AsPrintedItems(items: seq<Json>): (r: seq<Json>)
    ensures |r| == |items|
    ensures forall i | 0 <= i < |items| :: r[i] == AsPrinted(items[i])
  {
    seq(|items|, i requires 0 <= i < |items| => AsPrinted(items[i]))
  }

  lemma AsPrintedParts(v: Json)
    ensures v.Arr? ==> AsPrinted(v) == Arr(AsPrintedItems(v.items))
    ensures v.Obj? ==> AsPrinted(v) == Obj(AsPrintedEntries(v.entries))
  {
    if v.Arr? {
      assert AsPrinted(v).items == AsPrintedItems(v.items);
    }
    if v.Obj? {
      assert AsPrinted(v).entries == AsPrintedEntries(v.entries);
    }
  }

  lemma AsPrintedKeys(entries: seq<Entry>)
    ensures Keys(AsPrintedEntries(entries)) == Keys(entries)
  {
  }

  /** Well-formed, and without infinities. */
  ghost predicate Plain(v: Json) {
    match v
    case Num(text) => NumberText(text)
    case Infinite(_) => false
    case Arr(items) => forall i | 0 <= i < |items| :: Plain(items[i])
    case Obj(entries) => Distinct(Keys(entries)) && forall i | 0 <= i < |entries| :: Plain(entries[i].value)
    case _ => true
  }

  lemma {:induction false} PlainIsAsPrinted(v: Json)
    requires Plain(v)
    ensures WellFormed(v) && AsPrinted(v) == v
    decreases v
  {
    AsPrintedParts(v);
    match v
    case Arr(items) =>
      forall i | 0 <= i < |items| ensures WellFormed(items[i]) && AsPrinted(items[i]) == items[i] {
        PlainIsAsPrinted(items[i]);
      }
      assert AsPrintedItems(items) == items;
    case Obj(entries) =>
      forall i | 0 <= i < |entries|
        ensures WellFormed(entries[i].value) && AsPrinted(entries[i].value) == entries[i].value
      {
        PlainIsAsPrinted(entries[i].value);
      }
      assert AsPrintedEntries(entries) == entries;
    case _ =>
  }

  lemma {:induction false} AsPrintedIsPlain(v: Json)
    requires WellFormed(v)
    ensures Plain(AsPrinted(v))
    decreases v
  {
    AsPrintedParts(v);
    match v
    case Arr(items) =>
      forall i | 0 <= i < |items| ensures Plain(AsPrinted(items[i])) {
        AsPrintedIsPlain(items[i]);
      }
    case Obj(entries) =>
      AsPrintedKeys(entries);
      forall i | 0 <= i < |entries| ensures Plain(AsPrinted(entries[i].value)) {
        AsPrintedIsPlain(entries[i].value);
      }
    case _ =>
  }

  /** Printing shows no more than that. */
  lemma {:induction false} PrintAsPrinted(v: Json)
    ensures Print(AsPrinted(v)) == Print(v)
    decreases v, 1
  {
    AsPrintedParts(v);
    match v
    case Arr(items) => PrintItemsAsPrinted(items, true);
    case Obj(entries) => PrintEntriesAsPrinted(entries, true);
    case _ =>
  }

  lemma {:induction false} PrintItemsAsPrinted(items: seq<Json>, first: bool)
    ensures PrintItems(AsPrintedItems(items), first) == PrintItems(items, first)
    decreases items, 0
  {
    if items != [] {
      assert AsPrintedItems(items)[1..] == AsPrintedItems(items[1..]);
      PrintAsPrinted(items[0]);
      PrintItemsAsPrinted(items[1..], false);
    }
  }

  lemma {:induction false} PrintEntriesAsPrinted(entries: seq<Entry>, first: bool)
    ensures PrintEntries(AsPrintedEntries(entries), first) == PrintEntries(entries, first)
    decreases entries, 0
  {
    if entries != [] {
      assert AsPrintedEntries(entries)[1..] == AsPrintedEntries(entries[1..]);
      PrintAsPrinted(entries[0].value);
      PrintEntriesAsPrinted(entries[1..], false);
    }
  }

  // ----- a printed value determines the value -----

  /** What may follow a printed value. */
  ghost predicate Delimited(s: string) {
    s == [] || s[0] == ',' || s[0] == ']' || s[0] == '}'
  }

  /** Reads one escaped character back: how many characters it takes, and which one it stands for. */
  function Unescape(s: string): (int, char)
    requires s != []
  {
    if s[0] != '\\' then (1, s[0])
    else if |s| < 2 then (1, s[0])
    else if s[1] == 'n' then (2, '\n') else if s[1] == 'r' then (2, '\r') else if s[1] == 't' then (2, '\t')
    else if s[1] == 'b' then (2, 8 as char) else if s[1] == 'f' then (2, 12 as char)
    else if s[1] == 'u' && |s| >= 6 then (6, ((HexValue(s[4]) * 16 + HexValue(s[5])) % 32) as char)
    else (2, s[1])
  }

  function HexValue(c: char): nat {
    if '0' <= c <= '9' then c as int - '0' as int
    else if 'a' <= c <= 'f' then c as int - 'a' as int + 10 else 0
  }

  lemma HexRead(n: nat)
    requires n < 16
    ensures HexValue(Hex(n)) == n
  {
  }

  lemma UnescapeReads(c: char, s: string)
    ensures Escape(c) != [] && Unescape(Escape(c) + s) == (|Escape(c)|, c)
  {
    var e := Escape(c);
    var w := e + s;
    assert forall k | 0 <= k < |e| :: w[k] == e[k];
    if c as int < 32 {
      HexRead(c as int / 16);
      HexRead(c as int % 16);
    }
  }

  lemma EscapeUnique(c: char, d: char, s: string, t: string)
    requires Escape(c) + s == Escape(d) + t
    ensures c == d && s == t
  {
    UnescapeReads(c, s);
    UnescapeReads(d, t);
    DropPrefix(Escape(c), s, t);
  }

  lemma EscapeIsNotQuote(c: char)
    ensures Escape(c) != [] && Escape(c)[0] != '\"'
  {
  }

  /** A quoted text ends with a bare quote; as long as it goes on its next character is not one. */
  lemma EscapedSplit(a: string, s: string)
    ensures a == [] ==> Escaped(a) + "\"" + s == "\"" + s
    ensures a != [] ==> Escaped(a) + "\"" + s == Escape(a[0]) + (Escaped(a[1..]) + "\"" + s)
    ensures |Escaped(a) + "\"" + s| > 0
    ensures (Escaped(a) + "\"" + s)[0] == '\"' <==> a == []
  {
    if a == [] {
      assert Escaped(a) + "\"" == "\"";
    } else {
      EscapeIsNotQuote(a[0]);
      PieceSplit(Escape(a[0]), Escaped(a[1..]), s);
    }
  }

  lemma PieceSplit(piece: string, rest: string, s: string)
    requires piece != [] && piece[0] != '\"'
    ensures (piece + rest) + "\"" + s == piece + (rest + "\"" + s)
    ensures |(piece + rest) + "\"" + s| > 0 && ((piece + rest) + "\"" + s)[0] != '\"'
  {
  }

  lemma DropPrefix(p: string, x: string, y: string)
    requires p + x == p + y
    ensures x == y
  {
    assert x == (p + x)[|p|..];
    assert y == (p + y)[|p|..];
  }

  lemma {:induction false} EscapedUnique(a: string, b: string, s: string, t: string)
    requires Escaped(a) + "\"" + s == Escaped(b) + "\"" + t
    ensures a == b && s == t
  {
    EscapedSplit(a, s);
    EscapedSplit(b, t);
    if a == [] {
      DropPrefix("\"", s, t);
    } else {
      var ra, rb := Escaped(a[1..]) + "\"" + s, Escaped(b[1..]) + "\"" + t;
      EscapeUnique(a[0], b[0], ra, rb);
      EscapedUnique(a[1..], b[1..], s, t);
      assert a == [a[0]] + a[1..] && b == [b[0]] + b[1..];
    }
  }

  lemma QuoteSplit(inner: string, s: string)
    ensures "\"" + inner + "\"" + s == "\"" + (inner + "\"" + s)
  {
  }

  lemma QuoteUnique(a: string, b: string, s: string, t: string)
    requires Quote(a) + s == Quote(b) + t
    ensures a == b && s == t
  {
    QuoteSplit(Escaped(a), s);
    QuoteSplit(Escaped(b), t);
    DropPrefix("\"", Escaped(a) + "\"" + s, Escaped(b) + "\"" + t);
    EscapedUnique(a, b, s, t);
  }

  lemma NumberGoesOn(a: string, s: string)
    requires (forall c | c in a :: NumberChar(c)) && Delimited(s)
    ensures a + s != [] && NumberChar((a + s)[0]) <==> a != []
    ensures a != [] ==> (a + s)[0] == a[0] && (a + s)[1..] == a[1..] + s
    ensures a == [] ==> a + s == s
  {
    if a != [] {
      assert a[0] in a;
    }
  }

  lemma {:induction false} NumberUnique(a: string, b: string, s: string, t: string)
    requires (forall c | c in a :: NumberChar(c)) && (forall c | c in b :: NumberChar(c))
    requires Delimited(s) && Delimited(t) && a + s == b + t
    ensures a == b && s == t
  {
    NumberGoesOn(a, s);
    NumberGoesOn(b, t);
    if a != [] {
      NumberUnique(a[1..], b[1..], s, t);
      assert a == [a[0]] + a[1..] && b == [b[0]] + b[1..];
    }
  }

  /** The first character of a printed value tells its kind. */
  function FirstChar(v: Json): char
    requires v.Num? ==> v.text != []
  {
    match v
    case Null => 'n'
    case Bool(b) => if b then 't' else 'f'
    case Num(text) => text[0]
    case Infinite(_) => 'n'
    case Str(_) => '\"'
    case Arr(_) => '['
    case Obj(_) => '{'
  }

  lemma PrintStarts(v: Json, s: string)
    requires Plain(v)
    ensures |Print(v)| > 0 && (Print(v) + s)[0] == FirstChar(v)
    ensures FirstChar(v) != ']' && FirstChar(v) != '}' && FirstChar(v) != ','
  {
  }

  lemma PrintItemsDelimited(items: seq<Json>, s: string)
    ensures |PrintItems(items, false)| > 0
    ensures Delimited(PrintItems(items, false) + s)
    ensures (PrintItems(items, false) + s)[0] == if items == [] then ']' else ','
  {
  }

  lemma PrintEntriesDelimited(entries: seq<Entry>, s: string)
    ensures |PrintEntries(entries, false)| > 0
    ensures Delimited(PrintEntries(entries, false) + s)
    ensures (PrintEntries(entries, false) + s)[0] == if entries == [] then '}' else ','
  {
  }

  /** Unique reading: two printed values that agree, whatever follows them, are the same value. */
  lemma {:induction false} PrintUnique(v: Json, w: Json, s: string, t: string)
    requires Plain(v) && Plain(w) && Delimited(s) && Delimited(t)
    requires Print(v) + s == Print(w) + t
    ensures v == w && s == t
    decreases v, 1
  {
    PrintStarts(v, s);
    PrintStarts(w, t);
    match v
    case Null =>
      DropPrefix("null", s, t);
    case Bool(b) =>
      DropPrefix(Print(v), s, t);
    case Num(text) =>
      NumberUnique(text, w.text, s, t);
    case Str(x) =>
      QuoteUnique(x, w.s, s, t);
    case Arr(items) =>
      ArrSplit(items, s);
      ArrSplit(w.items, t);
      DropPrefix("[", PrintItems(items, true) + s, PrintItems(w.items, true) + t);
      PrintItemsUnique(items, w.items, true, s, t);
    case Obj(entries) =>
      ObjSplit(entries, s);
      ObjSplit(w.entries, t);
      DropPrefix("{", PrintEntries(entries, true) + s, PrintEntries(w.entries, true) + t);
      PrintEntriesUnique(entries, w.entries, true, s, t);
  }

  lemma ArrSplit(items: seq<Json>, s: string)
    ensures Print(Arr(items)) + s == "[" + (PrintItems(items, true) + s)
  {
  }

  lemma ObjSplit(entries: seq<Entry>, s: string)
    ensures Print(Obj(entries)) + s == "{" + (PrintEntries(entries, true) + s)
  {
  }

  lemma ItemsSplit(items: seq<Json>, first: bool, s: string)
    requires items != []
    ensures PrintItems(items, first) + s == Comma(first) + (Print(items[0]) + (PrintItems(items[1..], false) + s))
  {
  }

  lemma FivePieces(a: string, b: string, c: string, d: string, e: string, s: string)
    ensures a + b + c + d + e + s == a + (b + (c + (d + (e + s))))
  {
  }

  lemma EntriesSplit(entries: seq<Entry>, first: bool, s: string)
    requires entries != []
    ensures PrintEntries(entries, first) + s
            == Comma(first) + (Quote(entries[0].key)
                               + ([':'] + (Print(entries[0].value) + (PrintEntries(entries[1..], false) + s))))
  {
    FivePieces(Comma(first), Quote(entries[0].key), ":", Print(entries[0].value), PrintEntries(entries[1..], false), s);
  }

  /** A list that ends and one that goes on differ in their first character. */
  lemma ItemsEndOrGoOn(items: seq<Json>, first: bool, s: string)
    requires forall i | 0 <= i < |items| :: Plain(items[i])
    ensures |PrintItems(items, first) + s| > 0
    ensures (PrintItems(items, first) + s)[0] == ']' <==> items == []
  {
    if items != [] {
      ItemsSplit(items, first, s);
      PrintStarts(items[0], PrintItems(items[1..], false) + s);
    }
  }

  lemma EntriesEndOrGoOn(entries: seq<Entry>, first: bool, s: string)
    ensures |PrintEntries(entries, first) + s| > 0
    ensures (PrintEntries(entries, first) + s)[0] == '}' <==> entries == []
  {
    if entries != [] {
      EntriesSplit(entries, first, s);
    }
  }

  lemma {:induction false} PrintItemsUnique(x: seq<Json>, y: seq<Json>, first: bool, s: string, t: string)
    requires forall i | 0 <= i < |x| :: Plain(x[i])
    requires forall i | 0 <= i < |y| :: Plain(y[i])
    requires PrintItems(x, first) + s == PrintItems(y, first) + t
    ensures x == y && s == t
    decreases x, 0
  {
    ItemsEndOrGoOn(x, first, s);
    ItemsEndOrGoOn(y, first, t);
    if x == [] {
      DropPrefix("]", s, t);
    } else {
      var rx, ry := PrintItems(x[1..], false) + s, PrintItems(y[1..], false) + t;
      ItemsSplit(x, first, s);
      ItemsSplit(y, first, t);
      DropPrefix(Comma(first), Print(x[0]) + rx, Print(y[0]) + ry);
      PrintItemsDelimited(x[1..], s);
      PrintItemsDelimited(y[1..], t);
      PrintUnique(x[0], y[0], rx, ry);
      PrintItemsUnique(x[1..], y[1..], false, s, t);
      assert x == [x[0]] + x[1..] && y == [y[0]] + y[1..];
    }
  }

  lemma FirstKeyUnique(x: seq<Entry>, y: seq<Entry>, first: bool, s: string, t: string)
    requires x != [] && y != [] && PrintEntries(x, first) + s == PrintEntries(y, first) + t
    ensures x[0].key == y[0].key
    ensures Print(x[0].value) + (PrintEntries(x[1..], false) + s) == Print(y[0].value) + (PrintEntries(y[1..], false) + t)
  {
    var vx := Print(x[0].value) + (PrintEntries(x[1..], false) + s);
    var vy := Print(y[0].value) + (PrintEntries(y[1..], false) + t);
    EntriesSplit(x, first, s);
    EntriesSplit(y, first, t);
    DropPrefix(Comma(first), Quote(x[0].key) + ([':'] + vx), Quote(y[0].key) + ([':'] + vy));
    QuoteUnique(x[0].key, y[0].key, [':'] + vx, [':'] + vy);
    DropPrefix([':'], vx, vy);
  }

  lemma {:induction false} PrintEntriesUnique(x: seq<Entry>, y: seq<Entry>, first: bool, s: string, t: string)
    requires forall i | 0 <= i < |x| :: Plain(x[i].value)
    requires forall i | 0 <= i < |y| :: Plain(y[i].value)
    requires PrintEntries(x, first) + s == PrintEntries(y, first) + t
    ensures x == y && s == t
    decreases x, 0
  {
    EntriesEndOrGoOn(x, first, s);
    EntriesEndOrGoOn(y, first, t);
    if x == [] {
      DropPrefix("}", s, t);
    } else {
      FirstKeyUnique(x, y, first, s, t);
      PrintEntriesDelimited(x[1..], s);
      PrintEntriesDelimited(y[1..], t);
      PrintUnique(x[0].value, y[0].value, PrintEntries(x[1..], false) + s, PrintEntries(y[1..], false) + t);
      PrintEntriesUnique(x[1..], y[1..], false, s, t);
      assert x == [x[0]] + x[1..] && y == [y[0]] + y[1..];
    }
  }

  lemma PlainPrintInjective(v: Json, w: Json)
    requires Plain(v) && Plain(w)
    ensures Print(v) == Print(w) <==> v == w
  {
    if Print(v) == Print(w) {
      assert Print(v) + [] == Print(v) && Print(w) + [] == Print(w);
      PrintUnique(v, w, [], []);
    }
  }

  /** Values print alike exactly when they are the same, but for infinities taken as `null`. */
  lemma PrintInjective(v: Json, w: Json)
    requires WellFormed(v) && WellFormed(w)
    ensures Print(v) == Print(w) <==> AsPrinted(v) == AsPrinted(w)
  {
    AsPrintedIsPlain(v);
    AsPrintedIsPlain(w);
    PrintAsPrinted(v);
    PrintAsPrinted(w);
    PlainPrintInjective(AsPrinted(v), AsPrinted(w));
  }

  // ----- the text itself -----

  /** The texts in order, with commas between them. */
  ghost function CommaSeparated(texts: seq<string>): string {
    if texts == [] then "" else if |texts| == 1 then texts[0] else texts[0] + "," + CommaSeparated(texts[1..])
  }

  ghost function Concatenated(texts: seq<string>): string {
    if texts == [] then "" else texts[0] + Concatenated(texts[1..])
  }

  /** QuoteJSONString, section 24.3.2.2 of ECMA-262, 6th edition, for one character. */
  ghost predicate IsQuoted(c: char, text: string) {
    var n := c as int;
    if n == 0x22 || n == 0x5C then text == "\\" + [c]
    else if n == 0x8 then text == "\\b"
    else if n == 0x9 then text == "\\t"
    else if n == 0xA then text == "\\n"
    else if n == 0xC then text == "\\f"
    else if n == 0xD then text == "\\r"
    else if n < 0x20 then
      |text| == 6 && text[..4] == "\\u00" && IsLowerHex(text[4]) && IsLowerHex(text[5])
      && HexValue(text[4]) * 16 + HexValue(text[5]) == n
    else text == [c]
  }

  ghost predicate IsLowerHex(c: char) {
    '0' <= c <= '9' || 'a' <= c <= 'f'
  }

  lemma EscapeIsQuoted(c: char)
    ensures IsQuoted(c, Escape(c))
  {
    var n := c as int;
    if n < 32 {
      HexRead(n / 16);
      HexRead(n % 16);
      HexIsLower(n / 16);
      HexIsLower(n % 16);
    }
  }

  lemma HexIsLower(n: nat)
    requires n < 16
    ensures IsLowerHex(Hex(n))
  {
  }

  ghost function EscapedCharacters(s: string): (texts: seq<string>)
    ensures |texts| == |s|
    ensures forall i | 0 <= i < |s| :: texts[i] == Escape(s[i])
  {
    seq(|s|, i requires 0 <= i < |s| => Escape(s[i]))
  }

  lemma {:induction false} EscapedIs(s: string)
    ensures Escaped(s) == Concatenated(EscapedCharacters(s))
  {
    if s != "" {
      assert EscapedCharacters(s)[1..] == EscapedCharacters(s[1..]);
      EscapedIs(s[1..]);
    }
  }

  ghost function PrintedItems(items: seq<Json>): (texts: seq<string>)
    ensures |texts| == |items|
    ensures forall i | 0 <= i < |items| :: texts[i] == Print(items[i])
  {
    seq(|items|, i requires 0 <= i < |items| => Print(items[i]))
  }

  ghost function PrintedEntries(entries: seq<Entry>): (texts: seq<string>)
    ensures |texts| == |entries|
    ensures forall i | 0 <= i < |entries| :: texts[i] == Print(Str(entries[i].key)) + ":" + Print(entries[i].value)
  {
    seq(|entries|, i requires 0 <= i < |entries| => Print(Str(entries[i].key)) + ":" + Print(entries[i].value))
  }

  lemma CommaStep(texts: seq<string>)
    requires texts != []
    ensures CommaSeparated(texts) == texts[0] + (if |texts| == 1 then "" else ",") + CommaSeparated(texts[1..])
  {
  }

  lemma Regroup(a: string, b: string, c: string, d: string, e: string)
    ensures a + b + (c + d + e) == a + (b + c + d) + e
  {
  }

  lemma {:induction false} PrintItemsIs(items: seq<Json>, first: bool)
    ensures PrintItems(items, first)
            == (if items == [] || first then "" else ",") + CommaSeparated(PrintedItems(items)) + "]"
  {
    if items != [] {
      var rest := PrintedItems(items[1..]);
      assert PrintedItems(items)[1..] == rest;
      PrintItemsIs(items[1..], false);
      CommaStep(PrintedItems(items));
      Regroup(Comma(first), Print(items[0]), if rest == [] then "" else ",", CommaSeparated(rest), "]");
    }
  }

  lemma {:induction false} PrintEntriesIs(entries: seq<Entry>, first: bool)
    ensures PrintEntries(entries, first)
            == (if entries == [] || first then "" else ",") + CommaSeparated(PrintedEntries(entries)) + "}"
  {
    if entries != [] {
      var rest, head := PrintedEntries(entries[1..]), PrintedEntries(entries)[0];
      assert PrintedEntries(entries)[1..] == rest;
      PrintEntriesIs(entries[1..], false);
      CommaStep(PrintedEntries(entries));
      FirstEntry(entries, first);
      Regroup(Comma(first), head, if rest == [] then "" else ",", CommaSeparated(rest), "}");
    }
  }

  lemma FirstEntry(entries: seq<Entry>, first: bool)
    requires entries != []
    ensures PrintEntries(entries, first)
            == Comma(first) + PrintedEntries(entries)[0] + PrintEntries(entries[1..], false)
  {
    var key, value := Quote(entries[0].key), Print(entries[0].value);
    assert Comma(first) + key + ":" + value == Comma(first) + (key + ":" + value);
  }

  lemma QuoteIs(s: string)
    ensures Quote(s) == "\"" + Concatenated(EscapedCharacters(s)) + "\""
    ensures forall i | 0 <= i < |s| :: IsQuoted(s[i], EscapedCharacters(s)[i])
  {
    EscapedIs(s);
    forall i | 0 <= i < |s| ensures IsQuoted(s[i], EscapedCharacters(s)[i]) {
      EscapeIsQuoted(s[i]);
    }
  }

  lemma Enclosed(open: string, inner: string, close: string)
    ensures open + ("" + inner + close) == open + inner + close
  {
  }

  lemma ArrayIs(items: seq<Json>)
    ensures Print(Arr(items)) == "[" + CommaSeparated(PrintedItems(items)) + "]"
  {
    PrintItemsIs(items, true);
    Enclosed("[", CommaSeparated(PrintedItems(items)), "]");
  }

  lemma ObjectIs(entries: seq<Entry>)
    ensures Print(Obj(entries)) == "{" + CommaSeparated(PrintedEntries(entries)) + "}"
  {
    PrintEntriesIs(entries, true);
    Enclosed("{", CommaSeparated(PrintedEntries(entries)), "}");
  }

  /** What a value prints as: `null` for an infinity too, texts between quotes with each character quoted, items and
      members in order between brackets, with commas between them. */
  lemma PrintIs(v: Json)
    ensures v.Null? || v.Infinite? ==> Print(v) == "null"
    ensures v.Bool? ==> Print(v) == if v.b then "true" else "false"
    ensures v.Num? ==> Print(v) == v.text
    ensures v.Str? ==> Print(v) == "\"" + Concatenated(EscapedCharacters(v.s)) + "\""
    ensures v.Str? ==> forall i | 0 <= i < |v.s| :: IsQuoted(v.s[i], EscapedCharacters(v.s)[i])
    ensures v.Arr? ==> Print(v) == "[" + CommaSeparated(PrintedItems(v.items)) + "]"
    ensures v.Obj? ==> Print(v) == "{" + CommaSeparated(PrintedEntries(v.entries)) + "}"
  {
    match v
    case Str(s) => QuoteIs(s);
    case Arr(items) => ArrayIs(items);
    case Obj(entries) => ObjectIs(entries);
    case _ =>
  }

  /** A member is the value under that key, and `null` where there is none. */
  lemma MemberIs(v: Json, key: string)
    requires WellFormed(v)
    ensures v.Obj? ==> forall i | 0 <= i < |v.entries| && v.entries[i].key == key :: Member(v, key) == v.entries[i].value
    ensures (v.Obj? ==> forall i | 0 <= i < |v.entries| :: v.entries[i].key != key) ==> Member(v, key) == Null
  {
    if v.Obj? {
      forall i | 0 <= i < |v.entries| && v.entries[i].key == key ensures Member(v, key) == v.entries[i].value {
        GetIs(v.entries, i);
      }
    }
  }
}
