/** The canonical form of a JSON value and the comparison of runtime operation histories built on it
    (`canonicalValue`, `runtimeOperationSnapshot`). */
module CanonicalHistory {
  import opened JsText
  import opened JsonValue
  import opened StableSort

  // ----- the order of `keys.sort()` and of property enumeration -----

  /** Orders characters as their UTF-16 code units do: surrogates come before U+E000. */
  function Unit(c: char): int {
    if 0xE000 <= c as int <= 0xFFFF then c as int + 0x110000 else c as int
  }

  predicate TextLe(a: string, b: string) {
    a == "" || (b != "" && (Unit(a[0]) < Unit(b[0]) || (a[0] == b[0] && TextLe(a[1..], b[1..]))))
  }

  lemma {:induction false} TextLeTotal(a: string, b: string)
    ensures TextLe(a, b) || TextLe(b, a)
    ensures TextLe(a, b) && TextLe(b, a) ==> a == b
  {
    if a != "" && b != "" {
      TextLeTotal(a[1..], b[1..]);
      assert a == [a[0]] + a[1..] && b == [b[0]] + b[1..];
    }
  }

  lemma {:induction false} TextLeTransitive(a: string, b: string, c: string)
    requires TextLe(a, b) && TextLe(b, c)
    ensures TextLe(a, c)
  {
    if a != "" && a[0] == b[0] == c[0] {
      TextLeTransitive(a[1..], b[1..], c[1..]);
    }
  }

  lemma TextOrder()
    ensures TotalPreorder(TextLe)
  {
    forall a, b ensures TextLe(a, b) || TextLe(b, a) {
      TextLeTotal(a, b);
    }
    forall a, b, c | TextLe(a, b) && TextLe(b, c) ensures TextLe(a, c) {
      TextLeTransitive(a, b, c);
    }
  }

  lemma TextSeparates(s: seq<string>)
    ensures Separates(TextLe, s)
  {
    forall a, b | a in s && b in s && TextLe(a, b) && TextLe(b, a) ensures a == b {
      TextLeTotal(a, b);
    }
  }

  /** An array index in canonical decimal form: such keys are enumerated first, by value. */
  predicate IsIndexKey(key: string) {
    && |key| <= 10 && AllDigits(key)
    && (key[0] == '0' ==> |key| == 1)
    && DecimalValue(key) < 4_294_967_295
  }

  /** The entries whose keys pass, or fail, a test. */
  function Entries(entries: seq<Entry>, test: string -> bool, passing: bool): seq<Entry> {
    if entries == [] then []
    else (if test(entries[0].key) == passing then [entries[0]] else []) + Entries(entries[1..], test, passing)
  }

  predicate IndexLe(a: Entry, b: Entry) {
    DecimalValue(a.key) <= DecimalValue(b.key)
  }

  /** `Object.fromEntries` for distinct keys: the object enumerates its index keys first. */
  function FromEntries(entries: seq<Entry>): seq<Entry> {
    Sort(IndexLe, Entries(entries, IsIndexKey, true)) + Entries(entries, IsIndexKey, false)
  }

  lemma {:induction false} SplitPermutes(entries: seq<Entry>, test: string -> bool)
    ensures multiset(Entries(entries, test, true)) + multiset(Entries(entries, test, false)) == multiset(entries)
  {
    if entries != [] {
      SplitPermutes(entries[1..], test);
      assert entries == [entries[0]] + entries[1..];
    }
  }

  lemma FromEntriesPermutes(entries: seq<Entry>)
    ensures multiset(FromEntries(entries)) == multiset(entries)
  {
    SplitPermutes(entries, IsIndexKey);
    SortPermutes(IndexLe, Entries(entries, IsIndexKey, true));
  }

  // ----- canonicalValue -----

  function CanonicalValue(v: Json): Json
    decreases v
  {
    match v
    case Arr(items) => Arr(seq(|items|, i requires 0 <= i < |items| => CanonicalValue(items[i])))
    case Obj(entries) =>
      var keys := SortedKeys(entries);
      Obj(FromEntries(seq(|keys|, i requires 0 <= i < |keys| =>
        Entry(keys[i], CanonicalValue(Get(entries, keys[i]))))))
    case _ => v
  }

  /** `Object.keys(value).sort()`. */
  function SortedKeys(entries: seq<Entry>): (keys: seq<string>)
    ensures multiset(keys) == multiset(Keys(entries))
    ensures forall k :: k in keys <==> k in Keys(entries)
    ensures |keys| == |entries|
  {
    SortPermutes(TextLe, Keys(entries));
    SameMembers(Sort(TextLe, Keys(entries)), Keys(entries));
    Sort(TextLe, Keys(entries))
  }

  /** The entries handed to `Object.fromEntries`. */
  function CanonicalEntries(entries: seq<Entry>): (sorted: seq<Entry>)
    ensures |sorted| == |entries|
  {
    var keys := SortedKeys(entries);
    seq(|keys|, i requires 0 <= i < |keys| => Entry(keys[i], CanonicalValue(Get(entries, keys[i]))))
  }

  // ----- equality up to the order of keys -----

  /** `v` and `w` differ at most in the order of object keys, at any depth. */
  ghost predicate Same(v: Json, w: Json)
    decreases v
  {
    match v
    case Arr(items) => w.Arr? && |items| == |w.items| && forall i | 0 <= i < |items| :: Same(items[i], w.items[i])
    case Obj(entries) =>
      && w.Obj?
      && (forall k :: k in Keys(entries) <==> k in Keys(w.entries))
      && forall k | k in Keys(entries) :: Same(Get(entries, k), Get(w.entries, k))
    case _ => v == w
  }

  lemma {:induction false} SortedKeysAgree(a: seq<Entry>, b: seq<Entry>)
    requires Distinct(Keys(a)) && Distinct(Keys(b))
    requires forall k :: k in Keys(a) <==> k in Keys(b)
    ensures SortedKeys(a) == SortedKeys(b)
  {
    SameSetSameMultiset(Keys(a), Keys(b));
    TextOrder();
    TextSeparates(Keys(a));
    SortIgnoresOrder(TextLe, Keys(a), Keys(b));
  }

  /** Each key of an object appears in its canonical form, with the canonical form of its value. */
  lemma CanonicalEntryOf(entries: seq<Entry>, e: Entry)
    ensures e in FromEntries(CanonicalEntries(entries)) <==>
            e.key in Keys(entries) && e.value == CanonicalValue(Get(entries, e.key))
  {
    var sorted, keys := CanonicalEntries(entries), SortedKeys(entries);
    FromEntriesPermutes(sorted);
    SameMembers(FromEntries(sorted), sorted);
    if e.key in Keys(entries) && e.value == CanonicalValue(Get(entries, e.key)) {
      var i :| 0 <= i < |keys| && keys[i] == e.key;
      assert sorted[i] == e;
    }
  }

  /** Canonical forms are identical, key order included, exactly when the values are the same up to
      the order of keys. */
  lemma {:induction false} CanonicalIffSame(v: Json, w: Json)
    requires WellFormed(v) && WellFormed(w)
    ensures CanonicalValue(v) == CanonicalValue(w) <==> Same(v, w)
    decreases v
  {
    if v.Arr? && w.Arr? {
      if |v.items| == |w.items| {
        forall i | 0 <= i < |v.items|
          ensures CanonicalValue(v.items[i]) == CanonicalValue(w.items[i]) <==> Same(v.items[i], w.items[i])
        {
          CanonicalIffSame(v.items[i], w.items[i]);
        }
      }
      CanonicalArrays(v.items, w.items);
    } else if v.Obj? && w.Obj? {
      forall k | k in Keys(v.entries) && k in Keys(w.entries)
        ensures CanonicalValue(Get(v.entries, k)) == CanonicalValue(Get(w.entries, k))
                <==> Same(Get(v.entries, k), Get(w.entries, k))
      {
        var i := KeyHasEntry(v.entries, k);
        var j := KeyHasEntry(w.entries, k);
        CanonicalIffSame(v.entries[i].value, w.entries[j].value);
      }
      MembersDecide(v.entries, w.entries);
    } else {
      OtherKinds(v, w);
    }
  }

  lemma MembersDecide(a: seq<Entry>, b: seq<Entry>)
    requires Distinct(Keys(a)) && Distinct(Keys(b))
    requires forall k | k in Keys(a) && k in Keys(b) ::
               CanonicalValue(Get(a, k)) == CanonicalValue(Get(b, k)) <==> Same(Get(a, k), Get(b, k))
    ensures CanonicalValue(Obj(a)) == CanonicalValue(Obj(b)) <==> Same(Obj(a), Obj(b))
  {
    CanonicalObjects(a, b);
    SameObjects(a, b);
  }

  lemma OtherKinds(v: Json, w: Json)
    requires !(v.Arr? && w.Arr?) && !(v.Obj? && w.Obj?)
    ensures CanonicalValue(v) == CanonicalValue(w) <==> Same(v, w)
  {
  }

  lemma CanonicalArrays(a: seq<Json>, b: seq<Json>)
    requires |a| == |b| ==> forall i | 0 <= i < |a| :: CanonicalValue(a[i]) == CanonicalValue(b[i]) <==> Same(a[i], b[i])
    ensures CanonicalValue(Arr(a)) == CanonicalValue(Arr(b)) <==> Same(Arr(a), Arr(b))
  {
    if |a| == |b| {
      CanonicalItems(a, b);
    } else {
      assert |CanonicalValue(Arr(a)).items| != |CanonicalValue(Arr(b)).items|;
    }
  }

  lemma SameObjects(a: seq<Entry>, b: seq<Entry>)
    ensures Same(Obj(a), Obj(b)) <==>
            && (forall k :: k in Keys(a) <==> k in Keys(b))
            && forall k | k in Keys(a) :: Same(Get(a, k), Get(b, k))
  {
  }

  lemma CanonicalItems(a: seq<Json>, b: seq<Json>)
    requires |a| == |b|
    ensures CanonicalValue(Arr(a)) == CanonicalValue(Arr(b))
            <==> forall i | 0 <= i < |a| :: CanonicalValue(a[i]) == CanonicalValue(b[i])
  {
    var ca, cb := CanonicalValue(Arr(a)).items, CanonicalValue(Arr(b)).items;
    assert forall i | 0 <= i < |a| :: ca[i] == CanonicalValue(a[i]) && cb[i] == CanonicalValue(b[i]);
    if forall i | 0 <= i < |a| :: CanonicalValue(a[i]) == CanonicalValue(b[i]) {
      assert ca == cb;
    }
  }

  ghost predicate SameCanonicalMembers(a: seq<Entry>, b: seq<Entry>) {
    && (forall k :: k in Keys(a) <==> k in Keys(b))
    && forall k | k in Keys(a) :: CanonicalValue(Get(a, k)) == CanonicalValue(Get(b, k))
  }

  lemma CanonicalObjects(a: seq<Entry>, b: seq<Entry>)
    requires Distinct(Keys(a)) && Distinct(Keys(b))
    ensures CanonicalValue(Obj(a)) == CanonicalValue(Obj(b)) <==> SameCanonicalMembers(a, b)
  {
    CanonicalObject(a);
    CanonicalObject(b);
    if SameCanonicalMembers(a, b) {
      SameMembersSameEntries(a, b);
    }
    if CanonicalValue(Obj(a)) == CanonicalValue(Obj(b)) {
      SameEntriesSameMembers(a, b);
    }
  }

  lemma SameMembersSameEntries(a: seq<Entry>, b: seq<Entry>)
    requires Distinct(Keys(a)) && Distinct(Keys(b)) && SameCanonicalMembers(a, b)
    ensures CanonicalEntries(a) == CanonicalEntries(b)
  {
    SortedKeysAgree(a, b);
    var keys := SortedKeys(a);
    forall i | 0 <= i < |keys| ensures CanonicalEntries(a)[i] == CanonicalEntries(b)[i] {
      assert keys[i] in keys;
    }
  }

  lemma CanonicalObject(a: seq<Entry>)
    ensures CanonicalValue(Obj(a)) == Obj(FromEntries(CanonicalEntries(a)))
  {
    var keys := SortedKeys(a);
    assert seq(|keys|, i requires 0 <= i < |keys| => Entry(keys[i], CanonicalValue(Get(a, keys[i]))))
        == CanonicalEntries(a);
  }

  lemma SameEntriesSameMembers(a: seq<Entry>, b: seq<Entry>)
    requires FromEntries(CanonicalEntries(a)) == FromEntries(CanonicalEntries(b))
    ensures SameCanonicalMembers(a, b)
  {
    forall k | k in Keys(a) ensures k in Keys(b) && CanonicalValue(Get(a, k)) == CanonicalValue(Get(b, k)) {
      CanonicalEntryOf(a, Entry(k, CanonicalValue(Get(a, k))));
      CanonicalEntryOf(b, Entry(k, CanonicalValue(Get(a, k))));
    }
    forall k | k in Keys(b) ensures k in Keys(a) {
      CanonicalEntryOf(a, Entry(k, CanonicalValue(Get(b, k))));
      CanonicalEntryOf(b, Entry(k, CanonicalValue(Get(b, k))));
    }
  }

  lemma TwiceIsTwo<T>(s: seq<T>, i: nat, j: nat)
    requires i < j < |s| && s[i] == s[j]
    ensures multiset(s)[s[i]] >= 2
  {
    assert s == s[..i + 1] + s[i + 1..];
    assert s[i] in s[..i + 1] by { assert s[..i + 1][i] == s[i]; }
    assert s[j] in s[i + 1..] by { assert s[i + 1..][j - i - 1] == s[j]; }
  }

  lemma PermutedKeysDistinct(a: seq<Entry>, b: seq<Entry>)
    requires multiset(a) == multiset(b) && Distinct(Keys(b))
    ensures Distinct(Keys(a))
  {
    SameMembers(a, b);
    forall i, j | 0 <= i < j < |a| ensures a[i].key != a[j].key {
      if a[i].key == a[j].key {
        assert a[i] in b && a[j] in b;
        var p :| 0 <= p < |b| && b[p] == a[i];
        var q :| 0 <= q < |b| && b[q] == a[j];
        assert Keys(b)[p] == Keys(b)[q];
        TwiceIsTwo(a, i, j);
        OnceEach(b, a[i]);
      }
    }
  }

  lemma CanonicalKeys(entries: seq<Entry>)
    requires Distinct(Keys(entries))
    ensures Distinct(Keys(FromEntries(CanonicalEntries(entries))))
  {
    var keys := SortedKeys(entries);
    forall i, j | 0 <= i < j < |keys| ensures keys[i] != keys[j] {
      if keys[i] == keys[j] {
        TwiceIsTwo(keys, i, j);
        OnceEach(Keys(entries), keys[i]);
      }
    }
    FromEntriesPermutes(CanonicalEntries(entries));
    PermutedKeysDistinct(FromEntries(CanonicalEntries(entries)), CanonicalEntries(entries));
  }

  /** A canonical form is the value itself up to the order of keys, and is well-formed like it. */
  lemma {:induction false} CanonicalIsSame(v: Json)
    requires WellFormed(v)
    ensures WellFormed(CanonicalValue(v)) && Same(CanonicalValue(v), v)
    decreases v
  {
    match v
    case Arr(items) =>
      forall i | 0 <= i < |items|
        ensures WellFormed(CanonicalValue(items[i])) && Same(CanonicalValue(items[i]), items[i])
      {
        CanonicalIsSame(items[i]);
      }
    case Obj(entries) =>
      forall k | k in Keys(entries)
        ensures WellFormed(CanonicalValue(Get(entries, k)))
                && Same(CanonicalValue(Get(entries, k)), Get(entries, k))
      {
        var i := KeyHasEntry(entries, k);
        CanonicalIsSame(entries[i].value);
      }
      CanonicalObject(entries);
      CanonicalObjectIsSame(entries);
    case _ =>
  }

  lemma CanonicalObjectIsSame(entries: seq<Entry>)
    requires Distinct(Keys(entries))
    requires forall k | k in Keys(entries) ::
               WellFormed(CanonicalValue(Get(entries, k)))
               && Same(CanonicalValue(Get(entries, k)), Get(entries, k))
    ensures WellFormed(Obj(FromEntries(CanonicalEntries(entries))))
    ensures Same(Obj(FromEntries(CanonicalEntries(entries))), Obj(entries))
  {
    var c := FromEntries(CanonicalEntries(entries));
    CanonicalKeys(entries);
    forall i | 0 <= i < |c|
      ensures c[i].key in Keys(entries) && c[i].value == CanonicalValue(Get(entries, c[i].key))
    {
      assert c[i] in c;
      CanonicalEntryOf(entries, c[i]);
    }
    forall k ensures k in Keys(c) <==> k in Keys(entries) {
      if k in Keys(entries) {
        CanonicalEntryOf(entries, Entry(k, CanonicalValue(Get(entries, k))));
        var i :| 0 <= i < |c| && c[i] == Entry(k, CanonicalValue(Get(entries, k)));
        assert Keys(c)[i] == k;
      }
    }
    forall k | k in Keys(c) ensures Same(Get(c, k), Get(entries, k)) {
      var i := KeyHasEntry(c, k);
    }
  }

  /** Canonicalising twice is canonicalising once. */
  lemma CanonicalIdempotent(v: Json)
    requires WellFormed(v)
    ensures CanonicalValue(CanonicalValue(v)) == CanonicalValue(v)
  {
    CanonicalIsSame(v);
    CanonicalIffSame(CanonicalValue(v), v);
  }

  // ----- printing a canonical form -----

  lemma {:induction false} SplitAsPrinted(entries: seq<Entry>, test: string -> bool, passing: bool)
    ensures Entries(AsPrintedEntries(entries), test, passing) == AsPrintedEntries(Entries(entries, test, passing))
  {
    if entries != [] {
      assert AsPrintedEntries(entries)[1..] == AsPrintedEntries(entries[1..]);
      SplitAsPrinted(entries[1..], test, passing);
    }
  }

  /** The comparison looks at keys only. */
  ghost predicate ByKey(le: (Entry, Entry) -> bool) {
    forall a: Entry, b: Entry :: SeesOnlyKeys(le, a, b)
  }

  ghost predicate SeesOnlyKeys(le: (Entry, Entry) -> bool, a: Entry, b: Entry) {
    le(Entry(a.key, AsPrinted(a.value)), Entry(b.key, AsPrinted(b.value))) == le(a, b)
  }

  lemma AsPrintedCons(e: Entry, rest: seq<Entry>)
    ensures AsPrintedEntries([e] + rest) == [Entry(e.key, AsPrinted(e.value))] + AsPrintedEntries(rest)
  {
  }

  lemma {:induction false} InsertAsPrinted(le: (Entry, Entry) -> bool, e: Entry, entries: seq<Entry>)
    requires ByKey(le)
    ensures Insert(le, Entry(e.key, AsPrinted(e.value)), AsPrintedEntries(entries))
            == AsPrintedEntries(Insert(le, e, entries))
  {
    if entries == [] {
      AsPrintedCons(e, []);
    } else {
      assert SeesOnlyKeys(le, e, entries[0]);
      if le(e, entries[0]) {
        AsPrintedCons(e, entries);
      } else {
        assert AsPrintedEntries(entries)[1..] == AsPrintedEntries(entries[1..]);
        InsertAsPrinted(le, e, entries[1..]);
        AsPrintedCons(entries[0], Insert(le, e, entries[1..]));
      }
    }
  }

  lemma {:induction false} SortAsPrinted(le: (Entry, Entry) -> bool, entries: seq<Entry>)
    requires ByKey(le)
    ensures Sort(le, AsPrintedEntries(entries)) == AsPrintedEntries(Sort(le, entries))
  {
    if entries != [] {
      assert AsPrintedEntries(entries)[1..] == AsPrintedEntries(entries[1..]);
      SortAsPrinted(le, entries[1..]);
      InsertAsPrinted(le, entries[0], Sort(le, entries[1..]));
    }
  }

  lemma AsPrintedConcat(a: seq<Entry>, b: seq<Entry>)
    ensures AsPrintedEntries(a + b) == AsPrintedEntries(a) + AsPrintedEntries(b)
  {
  }

  lemma FromEntriesAsPrinted(entries: seq<Entry>)
    ensures FromEntries(AsPrintedEntries(entries)) == AsPrintedEntries(FromEntries(entries))
  {
    var index, named := Entries(entries, IsIndexKey, true), Entries(entries, IsIndexKey, false);
    SplitAsPrinted(entries, IsIndexKey, true);
    SplitAsPrinted(entries, IsIndexKey, false);
    SortAsPrinted(IndexLe, index);
    AsPrintedConcat(Sort(IndexLe, index), named);
  }

  lemma GetAsPrinted(entries: seq<Entry>, k: string)
    requires k in Keys(entries) && Distinct(Keys(entries))
    ensures k in Keys(AsPrintedEntries(entries))
    ensures Get(AsPrintedEntries(entries), k) == AsPrinted(Get(entries, k))
  {
    AsPrintedKeys(entries);
    var i := KeyHasEntry(entries, k);
    GetIs(AsPrintedEntries(entries), i);
  }

  /** What printing drops from a canonical form is what it drops from the value. */
  lemma {:induction false} CanonicalAsPrinted(v: Json)
    requires WellFormed(v)
    ensures CanonicalValue(AsPrinted(v)) == AsPrinted(CanonicalValue(v))
    decreases v
  {
    AsPrintedParts(v);
    match v
    case Arr(items) =>
      AsPrintedParts(CanonicalValue(v));
      forall i | 0 <= i < |items| ensures CanonicalValue(AsPrinted(items[i])) == AsPrinted(CanonicalValue(items[i])) {
        CanonicalAsPrinted(items[i]);
      }
      assert CanonicalValue(AsPrinted(v)).items == AsPrinted(CanonicalValue(v)).items;
    case Obj(entries) =>
      forall k | k in Keys(entries)
        ensures CanonicalValue(AsPrinted(Get(entries, k))) == AsPrinted(CanonicalValue(Get(entries, k)))
      {
        var i := KeyHasEntry(entries, k);
        CanonicalAsPrinted(entries[i].value);
      }
      CanonicalEntriesAsPrinted(entries);
      CanonicalObject(entries);
      CanonicalObject(AsPrintedEntries(entries));
      AsPrintedParts(CanonicalValue(v));
      FromEntriesAsPrinted(CanonicalEntries(entries));
    case _ =>
  }

  lemma CanonicalEntriesAsPrinted(entries: seq<Entry>)
    requires Distinct(Keys(entries))
    requires forall k | k in Keys(entries) ::
               CanonicalValue(AsPrinted(Get(entries, k))) == AsPrinted(CanonicalValue(Get(entries, k)))
    ensures CanonicalEntries(AsPrintedEntries(entries)) == AsPrintedEntries(CanonicalEntries(entries))
  {
    AsPrintedKeys(entries);
    var keys := SortedKeys(entries);
    forall i | 0 <= i < |keys|
      ensures CanonicalEntries(AsPrintedEntries(entries))[i] == AsPrintedEntries(CanonicalEntries(entries))[i]
    {
      assert keys[i] in keys;
      GetAsPrinted(entries, keys[i]);
    }
  }

  /** The printed canonical form determines the value up to the order of keys, but for infinities taken as `null`. */
  lemma PrintedCanonicalIffSame(v: Json, w: Json)
    requires WellFormed(v) && WellFormed(w)
    ensures Print(CanonicalValue(v)) == Print(CanonicalValue(w)) <==> Same(AsPrinted(v), AsPrinted(w))
  {
    CanonicalIsSame(v);
    CanonicalIsSame(w);
    PrintInjective(CanonicalValue(v), CanonicalValue(w));
    CanonicalAsPrinted(v);
    CanonicalAsPrinted(w);
    AsPrintedIsPlain(v);
    AsPrintedIsPlain(w);
    PlainIsAsPrinted(AsPrinted(v));
    PlainIsAsPrinted(AsPrinted(w));
    CanonicalIffSame(AsPrinted(v), AsPrinted(w));
  }

  /** Without infinities it determines the value up to the order of keys. */
  lemma PlainCanonicalIffSame(v: Json, w: Json)
    requires Plain(v) && Plain(w)
    ensures Print(CanonicalValue(v)) == Print(CanonicalValue(w)) <==> Same(v, w)
  {
    PlainIsAsPrinted(v);
    PlainIsAsPrinted(w);
    PrintedCanonicalIffSame(v, w);
  }

  // ----- the order of the members -----

  /** The code units of a character in UTF-16. */
  ghost function Utf16(c: char): (units: seq<int>)
    ensures |units| == 1 || |units| == 2
  {
    var n := c as int;
    if n < 0x10000 then [n] else [0xD800 + (n - 0x10000) / 0x400, 0xDC00 + (n - 0x10000) % 0x400]
  }

  ghost function Units(s: string): seq<int> {
    if s == "" then [] else Utf16(s[0]) + Units(s[1..])
  }

  /** `a` comes before `b`: it is smaller at the first place where they differ, or it is a proper prefix. */
  ghost predicate ComesFirst(a: seq<int>, b: seq<int>) {
    exists i :: 0 <= i <= |a| && i < |b| && a[..i] == b[..i] && (i < |a| ==> a[i] < b[i])
  }

  lemma DecidedAt(a: seq<int>, b: seq<int>, j: nat)
    requires j < |a| && j < |b| && a[..j] == b[..j] && a[j] != b[j]
    ensures ComesFirst(a, b) <==> a[j] < b[j]
  {
    if ComesFirst(a, b) {
      var i :| 0 <= i <= |a| && i < |b| && a[..i] == b[..i] && (i < |a| ==> a[i] < b[i]);
      if i < j {
        assert a[i] == a[..j][i] == b[..j][i] == b[i];
      } else if j < i {
        assert a[j] == a[..i][j] == b[..i][j] == b[j];
      }
    }
  }

  lemma PrefixAdded(p: seq<int>, x: seq<int>, y: seq<int>)
    requires ComesFirst(x, y)
    ensures ComesFirst(p + x, p + y)
  {
    var i :| 0 <= i <= |x| && i < |y| && x[..i] == y[..i] && (i < |x| ==> x[i] < y[i]);
    var a, b, j := p + x, p + y, |p| + i;
    assert a[..j] == p + x[..i] && b[..j] == p + y[..i];
    assert 0 <= j <= |a| && j < |b| && a[..j] == b[..j] && (j < |a| ==> a[j] < b[j]);
  }

  lemma PrefixDropped(p: seq<int>, x: seq<int>, y: seq<int>)
    requires ComesFirst(p + x, p + y)
    ensures ComesFirst(x, y)
  {
    var a, b := p + x, p + y;
    var j :| 0 <= j <= |a| && j < |b| && a[..j] == b[..j] && (j < |a| ==> a[j] < b[j]);
    assert j >= |p| by {
      if j < |p| {
        assert a[j] == p[j] == b[j];
      }
    }
    var i := j - |p|;
    assert x[..i] == a[..j][|p|..] && y[..i] == b[..j][|p|..];
    assert 0 <= i <= |x| && i < |y| && x[..i] == y[..i] && (i < |x| ==> x[i] < y[i]);
  }

  lemma AfterPrefix(p: seq<int>, x: seq<int>, y: seq<int>)
    ensures ComesFirst(p + x, p + y) <==> ComesFirst(x, y)
  {
    if ComesFirst(x, y) {
      PrefixAdded(p, x, y);
    }
    if ComesFirst(p + x, p + y) {
      PrefixDropped(p, x, y);
    }
  }

  /** Two characters differ in a unit both have, and the first such unit orders them. */
  lemma UnitsOrderCharacters(c: char, d: char) returns (j: nat)
    requires c != d
    ensures j < |Utf16(c)| && j < |Utf16(d)| && Utf16(c)[..j] == Utf16(d)[..j] && Utf16(c)[j] != Utf16(d)[j]
    ensures Utf16(c)[j] < Utf16(d)[j] <==> Unit(c) < Unit(d)
  {
    if Utf16(c)[0] != Utf16(d)[0] {
      j := 0;
    } else {
      j := 1;
      assert Utf16(c)[..1] == Utf16(d)[..1];
    }
  }

  lemma HeadOf<T>(u: seq<T>, x: seq<T>, j: nat)
    requires j < |u|
    ensures (u + x)[..j] == u[..j] && (u + x)[j] == u[j]
  {
  }

  lemma {:induction false} TextOrderIsUnits(a: string, b: string)
    ensures TextLe(a, b) && a != b <==> ComesFirst(Units(a), Units(b))
  {
    if a == "" {
      if b != "" {
        assert Units(a)[..0] == Units(b)[..0];
      }
    } else if b != "" {
      var u, v, x, y := Utf16(a[0]), Utf16(b[0]), Units(a[1..]), Units(b[1..]);
      if a[0] == b[0] {
        TextOrderIsUnits(a[1..], b[1..]);
        AfterPrefix(u, x, y);
        assert a == [a[0]] + a[1..] && b == [b[0]] + b[1..];
      } else {
        var j := UnitsOrderCharacters(a[0], b[0]);
        HeadOf(u, x, j);
        HeadOf(v, y, j);
        DecidedAt(u + x, v + y, j);
      }
    }
  }

  /** An array index: the decimal form of a whole number below 2^32 - 1. */
  ghost predicate IsIndex(key: string) {
    exists n: nat :: n < 4_294_967_295 && key == Digits(n)
  }

  lemma IndexKeyIff(key: string)
    ensures IsIndexKey(key) <==> IsIndex(key)
  {
    if IsIndexKey(key) {
      DigitsAreUnique(key);
    }
    if IsIndex(key) {
      var n: nat :| n < 4_294_967_295 && key == Digits(n);
      IndexDigits(n);
    }
  }

  lemma IndexDigits(n: nat)
    requires n < 4_294_967_295
    ensures IsIndexKey(Digits(n))
  {
    DigitsRead(n);
    TenDigits();
    DigitsLength(n, Power(10, 10), 10);
    if n == 0 {
      DigitsStep(0);
    }
  }

  lemma TenDigits()
    ensures Power(10, 10) == 10_000_000_000
  {
    assert Power(10, 5) == 100_000;
    assert Power(10, 6) == 1_000_000;
    assert Power(10, 7) == 10_000_000;
    assert Power(10, 8) == 100_000_000;
  }

  /** How an engine enumerates keys that were set in sorted order: array indices first, rising by value, then all
      others, rising by their UTF-16 code units. */
  ghost predicate RightOrder(first: string, second: string) {
    && (IsIndex(second) ==> IsIndex(first))
    && (forall m: nat, n: nat :: first == Digits(m) && second == Digits(n) && IsIndex(first) && IsIndex(second) ==> m < n)
    && (!IsIndex(first) ==> ComesFirst(Units(first), Units(second)))
  }

  ghost predicate InOrder(v: Json) {
    match v
    case Arr(items) => forall i | 0 <= i < |items| :: InOrder(items[i])
    case Obj(entries) =>
      && (forall i, j | 0 <= i < j < |entries| :: RightOrder(entries[i].key, entries[j].key))
      && forall i | 0 <= i < |entries| :: InOrder(entries[i].value)
    case _ => true
  }

  ghost predicate RisingKeys(entries: seq<Entry>) {
    forall i, j | 0 <= i < j < |entries| :: GoesBefore(entries[i], entries[j])
  }

  lemma {:induction false} EntriesPass(entries: seq<Entry>, test: string -> bool, passing: bool)
    ensures forall e | e in Entries(entries, test, passing) :: e in entries && test(e.key) == passing
  {
    if entries != [] {
      EntriesPass(entries[1..], test, passing);
      assert forall e | e in entries[1..] :: e in entries;
    }
  }

  ghost predicate GoesBefore(x: Entry, y: Entry) {
    TextLe(x.key, y.key) && x.key != y.key
  }

  lemma {:induction false} EntriesRise(entries: seq<Entry>, test: string -> bool, passing: bool)
    requires RisingKeys(entries)
    ensures RisingKeys(Entries(entries, test, passing))
  {
    if entries != [] {
      var rest := Entries(entries[1..], test, passing);
      EntriesRise(entries[1..], test, passing);
      EntriesPass(entries[1..], test, passing);
      forall k | 0 <= k < |rest| ensures GoesBefore(entries[0], rest[k]) {
        assert rest[k] in rest;
        var n :| 0 <= n < |entries[1..]| && entries[1..][n] == rest[k];
        assert entries[n + 1] == rest[k];
      }
    }
  }

  lemma CanonicalEntriesRise(entries: seq<Entry>)
    requires Distinct(Keys(entries))
    ensures RisingKeys(CanonicalEntries(entries))
  {
    var keys := SortedKeys(entries);
    TextOrder();
    SortSorts(TextLe, Keys(entries));
    forall i, j | 0 <= i < j < |keys| ensures TextLe(keys[i], keys[j]) && keys[i] != keys[j] {
      if keys[i] == keys[j] {
        TwiceIsTwo(keys, i, j);
        OnceEach(Keys(entries), keys[i]);
      }
    }
  }

  lemma IndexOrder()
    ensures TotalPreorder(IndexLe)
  {
  }

  lemma IndexPairInOrder(a: Entry, b: Entry)
    requires IsIndexKey(a.key) && IsIndexKey(b.key) && a.key != b.key && IndexLe(a, b)
    ensures RightOrder(a.key, b.key)
  {
    IndexKeyIff(a.key);
    IndexKeyIff(b.key);
    forall m: nat, n: nat | a.key == Digits(m) && b.key == Digits(n) ensures m < n {
      DigitsRead(m);
      DigitsRead(n);
    }
  }

  lemma NamedPairInOrder(a: string, b: string)
    requires !IsIndexKey(a) && !IsIndexKey(b) && TextLe(a, b) && a != b
    ensures RightOrder(a, b)
  {
    IndexKeyIff(a);
    IndexKeyIff(b);
    TextOrderIsUnits(a, b);
  }

  lemma MixedPairInOrder(a: string, b: string)
    requires IsIndexKey(a) && !IsIndexKey(b)
    ensures RightOrder(a, b)
  {
    IndexKeyIff(a);
    IndexKeyIff(b);
  }

  ghost predicate AllInOrder(entries: seq<Entry>) {
    forall i, j | 0 <= i < j < |entries| :: RightOrder(entries[i].key, entries[j].key)
  }

  lemma JoinedInOrder(a: seq<Entry>, b: seq<Entry>)
    requires AllInOrder(a) && AllInOrder(b)
    requires forall x, y | x in a && y in b :: RightOrder(x.key, y.key)
    ensures AllInOrder(a + b)
  {
    var r := a + b;
    forall i, j | 0 <= i < j < |r| ensures RightOrder(r[i].key, r[j].key) {
      if i < |a| <= j {
        assert r[i] == a[i] && a[i] in a && r[j] == b[j - |a|] && b[j - |a|] in b;
      } else if |a| <= i {
        assert r[i] == b[i - |a|] && r[j] == b[j - |a|];
      }
    }
  }

  lemma IndexPartInOrder(entries: seq<Entry>)
    requires RisingKeys(entries)
    ensures AllInOrder(Sort(IndexLe, Entries(entries, IsIndexKey, true)))
    ensures forall e | e in Sort(IndexLe, Entries(entries, IsIndexKey, true)) :: IsIndexKey(e.key)
  {
    var index := Entries(entries, IsIndexKey, true);
    var sorted := Sort(IndexLe, index);
    EntriesRise(entries, IsIndexKey, true);
    EntriesPass(entries, IsIndexKey, true);
    IndexOrder();
    SortSorts(IndexLe, index);
    SortPermutes(IndexLe, index);
    SameMembers(sorted, index);
    SortedKeysDiffer(sorted, index);
    forall i, j | 0 <= i < j < |sorted| ensures RightOrder(sorted[i].key, sorted[j].key) {
      assert sorted[i] in sorted && sorted[j] in sorted;
      IndexPairInOrder(sorted[i], sorted[j]);
    }
  }

  lemma NamedPartInOrder(entries: seq<Entry>)
    requires RisingKeys(entries)
    ensures AllInOrder(Entries(entries, IsIndexKey, false))
    ensures forall e | e in Entries(entries, IsIndexKey, false) :: !IsIndexKey(e.key)
  {
    var named := Entries(entries, IsIndexKey, false);
    EntriesRise(entries, IsIndexKey, false);
    EntriesPass(entries, IsIndexKey, false);
    forall i, j | 0 <= i < j < |named| ensures RightOrder(named[i].key, named[j].key) {
      assert named[i] in named && named[j] in named;
      NamedPairInOrder(named[i].key, named[j].key);
    }
  }

  lemma FromEntriesInOrder(entries: seq<Entry>)
    requires RisingKeys(entries)
    ensures AllInOrder(FromEntries(entries))
  {
    var sorted, named := Sort(IndexLe, Entries(entries, IsIndexKey, true)), Entries(entries, IsIndexKey, false);
    IndexPartInOrder(entries);
    NamedPartInOrder(entries);
    forall x, y | x in sorted && y in named ensures RightOrder(x.key, y.key) {
      MixedPairInOrder(x.key, y.key);
    }
    JoinedInOrder(sorted, named);
  }

  lemma SortedKeysDiffer(sorted: seq<Entry>, index: seq<Entry>)
    requires multiset(sorted) == multiset(index) && RisingKeys(index)
    ensures forall i, j | 0 <= i < j < |sorted| :: sorted[i].key != sorted[j].key
  {
    assert Distinct(Keys(index));
    PermutedKeysDistinct(sorted, index);
    forall i, j | 0 <= i < j < |sorted| ensures sorted[i].key != sorted[j].key {
      assert Keys(sorted)[i] != Keys(sorted)[j];
    }
  }

  /** In every object of a canonical form, at any depth, the members come in one order: array indices first, rising by
      value, then the other keys, rising by their UTF-16 code units. */
  lemma {:induction false} CanonicalInOrder(v: Json)
    requires WellFormed(v)
    ensures InOrder(CanonicalValue(v))
    decreases v
  {
    match v
    case Arr(items) =>
      forall i | 0 <= i < |items| ensures InOrder(CanonicalValue(items[i])) {
        CanonicalInOrder(items[i]);
      }
    case Obj(entries) =>
      forall k | k in Keys(entries) ensures InOrder(CanonicalValue(Get(entries, k))) {
        var i := KeyHasEntry(entries, k);
        CanonicalInOrder(entries[i].value);
      }
      CanonicalObject(entries);
      ObjectInOrder(entries);
    case _ =>
  }

  lemma ObjectInOrder(entries: seq<Entry>)
    requires Distinct(Keys(entries))
    requires forall k | k in Keys(entries) :: InOrder(CanonicalValue(Get(entries, k)))
    ensures InOrder(Obj(FromEntries(CanonicalEntries(entries))))
  {
    var r := FromEntries(CanonicalEntries(entries));
    CanonicalEntriesRise(entries);
    FromEntriesInOrder(CanonicalEntries(entries));
    forall i | 0 <= i < |r| ensures InOrder(r[i].value) {
      assert r[i] in r;
      CanonicalEntryOf(entries, r[i]);
    }
  }

  // ----- the canonical form is the only one of its kind -----

  lemma ComesFirstOneWay(a: seq<int>, b: seq<int>)
    requires ComesFirst(a, b)
    ensures !ComesFirst(b, a)
  {
    var i :| 0 <= i <= |a| && i < |b| && a[..i] == b[..i] && (i < |a| ==> a[i] < b[i]);
    if i < |a| {
      DecidedAt(b, a, i);
    } else if ComesFirst(b, a) {
      var j :| 0 <= j <= |b| && j < |a| && b[..j] == a[..j] && (j < |b| ==> b[j] < a[j]);
      assert a[j] == a[..i][j] == b[..i][j] == b[j];
    }
  }

  lemma RightOrderOneWay(a: string, b: string)
    requires RightOrder(a, b)
    ensures !RightOrder(b, a)
  {
    if IsIndex(a) && IsIndex(b) {
      var m: nat :| m < 4_294_967_295 && a == Digits(m);
      var n: nat :| n < 4_294_967_295 && b == Digits(n);
      assert m < n;
    } else if !IsIndex(a) {
      ComesFirstOneWay(Units(a), Units(b));
    }
  }

  ghost function InOrderOrSame(): (Entry, Entry) -> bool {
    (a: Entry, b: Entry) => a == b || RightOrder(a.key, b.key)
  }

  lemma OneOrder(a: seq<Entry>, b: seq<Entry>)
    requires AllInOrder(a) && AllInOrder(b) && multiset(a) == multiset(b)
    ensures a == b
  {
    var le := InOrderOrSame();
    forall x, y | x in a && y in a && le(x, y) && le(y, x) ensures x == y {
      if x != y {
        RightOrderOneWay(x.key, y.key);
      }
    }
    SortedIsUnique(le, a, b);
  }

  lemma {:induction false} CanonicalFixed(w: Json)
    requires WellFormed(w) && InOrder(w)
    ensures CanonicalValue(w) == w
    decreases w
  {
    match w
    case Arr(items) =>
      forall i | 0 <= i < |items| ensures CanonicalValue(items[i]) == items[i] {
        CanonicalFixed(items[i]);
      }
      assert CanonicalValue(w).items == items;
    case Obj(entries) =>
      forall i | 0 <= i < |entries| ensures CanonicalValue(entries[i].value) == entries[i].value {
        CanonicalFixed(entries[i].value);
      }
      ObjectFixed(entries);
    case _ =>
  }

  lemma EntryIff(entries: seq<Entry>, e: Entry)
    requires Distinct(Keys(entries))
    ensures e in entries <==> e.key in Keys(entries) && Get(entries, e.key) == e.value
  {
    if e in entries {
      var i :| 0 <= i < |entries| && entries[i] == e;
      GetIs(entries, i);
    }
    if e.key in Keys(entries) && Get(entries, e.key) == e.value {
      var i := KeyHasEntry(entries, e.key);
    }
  }

  lemma ObjectFixed(entries: seq<Entry>)
    requires Distinct(Keys(entries)) && AllInOrder(entries)
    requires forall i | 0 <= i < |entries| :: CanonicalValue(entries[i].value) == entries[i].value
    ensures CanonicalValue(Obj(entries)) == Obj(entries)
  {
    var r := FromEntries(CanonicalEntries(entries));
    CanonicalObject(entries);
    CanonicalEntriesRise(entries);
    FromEntriesInOrder(CanonicalEntries(entries));
    CanonicalKeys(entries);
    forall e ensures e in r <==> e in entries {
      CanonicalEntryOf(entries, e);
      EntryIff(entries, e);
      if e.key in Keys(entries) {
        var i := KeyHasEntry(entries, e.key);
      }
    }
    DistinctEntries(r);
    DistinctEntries(entries);
    SameSetSameMultiset(r, entries);
    OneOrder(r, entries);
  }

  lemma DistinctEntries(entries: seq<Entry>)
    requires Distinct(Keys(entries))
    ensures Distinct(entries)
  {
    forall i, j | 0 <= i < j < |entries| ensures entries[i] != entries[j] {
      assert Keys(entries)[i] != Keys(entries)[j];
    }
  }

  /** The canonical form of a value is the one value that is the same up to the order of members and has all its members
      in order. */
  lemma CanonicalIsTheOne(v: Json, w: Json)
    requires WellFormed(v) && WellFormed(w)
    ensures w == CanonicalValue(v) <==> InOrder(w) && Same(w, v)
  {
    CanonicalIsSame(v);
    CanonicalInOrder(v);
    if InOrder(w) && Same(w, v) {
      CanonicalFixed(w);
      CanonicalIffSame(w, v);
    }
  }
}
