/** The canonical form demanded of an approval's expiry time (`canonicalExpiresAt` in `mutationApprovalFromJson`). */
module Expiry {
  import opened JsText
  import opened Calendar

  // ----- decimal digits of fixed width -----

  function Digit(n: int): char
    requires 0 <= n < 10
  {
    ('0' as int + n) as char
  }

  /** The last `width` decimal digits of `n`. */
  function Pad(n: nat, width: nat): (s: string)
    ensures |s| == width
    ensures forall i | 0 <= i < |s| :: '0' <= s[i] <= '9'
  {
    if width == 0 then "" else Pad(n / 10, width - 1) + [Digit(n % 10)]
  }

  function Pow10(k: nat): nat {
    if k == 0 then 1 else 10 * Pow10(k - 1)
  }

  predicate IsDigits(s: string) {
    forall i | 0 <= i < |s| :: '0' <= s[i] <= '9'
  }

  function Value(s: string): nat
    requires IsDigits(s)
  {
    if s == "" then 0 else
      Value(s[..|s| - 1]) * 10 + (s[|s| - 1] as int - '0' as int)
  }

  lemma {:induction false} PadValue(n: nat, width: nat)
    requires n < Pow10(width)
    ensures Value(Pad(n, width)) == n
  {
    if width > 0 {
      PadValue(n / 10, width - 1);
      var s := Pad(n, width);
      assert s[..|s| - 1] == Pad(n / 10, width - 1);
    }
  }

  // ----- the pattern, Date.parse and toISOString -----

  /** `/^\d{4}-\d{2}-\d{2}T\d{2}:\d{2}:\d{2}(?:\.\d{3})?Z$/`. */
  predicate Matches(s: string) {
    && (|s| == 20 || |s| == 24)
    && IsDigits(s[0..4]) && s[4] == '-' && IsDigits(s[5..7]) && s[7] == '-' && IsDigits(s[8..10]) && s[10] == 'T'
    && IsDigits(s[11..13]) && s[13] == ':' && IsDigits(s[14..16]) && s[16] == ':' && IsDigits(s[17..19])
    && (if |s| == 20 then s[19] == 'Z' else s[19] == '.' && IsDigits(s[20..23]) && s[23] == 'Z')
  }

  /** What a matching string says, whether or not such a date and time exists. */
  function Reading(s: string): DateTime
    requires Matches(s)
  {
    DateTime(Value(s[0..4]), Value(s[5..7]), Value(s[8..10]), Value(s[11..13]), Value(s[14..16]), Value(s[17..19]),
             if |s| == 20 then 0 else Value(s[20..23]))
  }

  /** `Date.parse`. What it makes of anything but an existing date and time in this pattern (a 30 February,
      an hour 24, another format) is up to the implementation: `other` may be any function. */
  function DateParse(s: string, other: string -> Option<int>): Option<int> {
    if Matches(s) && RealDateTime(Reading(s)) then Some(MakeTime(Reading(s))) else other(s)
  }

  function YearText(year: int): string {
    if 0 <= year <= 9999 then Pad(year, 4)
    else if year < 0 then "-" + Pad(-year, 6) else "+" + Pad(year, 6)
  }

  /** Everything before the fraction of a second. */
  function Seconds(dt: DateTime): string
    requires RealDateTime(dt)
  {
    YearText(dt.year) + "-" + Pad(dt.month, 2) + "-" + Pad(dt.day, 2) + "T"
    + Pad(dt.hour, 2) + ":" + Pad(dt.minute, 2) + ":" + Pad(dt.second, 2)
  }

  /** `new Date(t).toISOString()`. */
  function ToIsoString(t: int): string {
    var dt := FromTime(t);
    Seconds(dt) + ("." + Pad(dt.ms, 3) + "Z")
  }

  /** `s.replace(pattern, with)`: the first occurrence. */
  function ReplaceFirst(s: string, pattern: string, with: string): string {
    if StartsWith(s, pattern) then with + s[|pattern|..]
    else if s == "" then ""
    else [s[0]] + ReplaceFirst(s[1..], pattern, with)
  }

  predicate CanonicalExpiresAt(s: string, other: string -> Option<int>) {
    var t := DateParse(s, other);
    t.Some? && Matches(s) && ReplaceFirst(ToIsoString(t.value), ".000Z", "Z") == s
  }

  // ----- what it accepts -----

  /** The one spelling of a date and time: the fraction is there only when it is not zero. */
  function Spelling(dt: DateTime): string
    requires RealDateTime(dt)
  {
    Seconds(dt) + (if dt.ms == 0 then "Z" else "." + Pad(dt.ms, 3) + "Z")
  }

  lemma {:induction false} ReplaceAfter(p: string, q: string)
    requires '.' !in p
    ensures ReplaceFirst(p + q, ".000Z", "Z") == p + ReplaceFirst(q, ".000Z", "Z")
  {
    if p == "" {
      assert p + q == q;
    } else {
      assert (p + q)[0] == p[0] && p[0] in p;
      assert (p + q)[1..] == p[1..] + q;
      ReplaceAfter(p[1..], q);
      assert p + ReplaceFirst(q, ".000Z", "Z") == [p[0]] + (p[1..] + ReplaceFirst(q, ".000Z", "Z"));
    }
  }

  lemma PadIsZeros(ms: int)
    requires 0 <= ms < 1000
    ensures Pad(ms, 3) == "000" <==> ms == 0
  {
    PadValue(ms, 3);
    assert Pad(0, 3) == "000";
    PadValue(0, 3);
  }

  lemma ReplaceFraction(ms: int)
    requires 0 <= ms < 1000
    ensures ReplaceFirst("." + Pad(ms, 3) + "Z", ".000Z", "Z") == if ms == 0 then "Z" else "." + Pad(ms, 3) + "Z"
  {
    var s, rest := "." + Pad(ms, 3) + "Z", Pad(ms, 3) + "Z";
    PadIsZeros(ms);
    assert s[1..4] == Pad(ms, 3) && s[1..] == rest;
    assert StartsWith(s, ".000Z") <==> ms == 0 by {
      if StartsWith(s, ".000Z") {
        assert s[1..4] == ".000Z"[1..4];
      }
    }
    assert '.' !in rest && rest + "" == rest;
    ReplaceAfter(rest, "");
  }

  lemma NoPointIn(n: nat, width: nat)
    ensures '.' !in Pad(n, width)
  {
    var s := Pad(n, width);
    assert forall i | 0 <= i < |s| :: s[i] != '.';
  }

  lemma NoPointInYear(year: int)
    ensures '.' !in YearText(year)
  {
    if 0 <= year <= 9999 {
      NoPointIn(year, 4);
    } else {
      NoPointIn(if year < 0 then -year else year, 6);
    }
  }

  lemma NoPointJoined(a: string, c: char, b: string)
    requires '.' !in a && c != '.' && '.' !in b
    ensures '.' !in a + [c] + b
  {
  }

  lemma NoPointBeforeFraction(dt: DateTime)
    requires RealDateTime(dt)
    ensures '.' !in Seconds(dt)
  {
    NoPointInYear(dt.year);
    NoPointIn(dt.month, 2);
    NoPointIn(dt.day, 2);
    NoPointIn(dt.hour, 2);
    NoPointIn(dt.minute, 2);
    NoPointIn(dt.second, 2);
    NoPointInSeconds(YearText(dt.year), Pad(dt.month, 2), Pad(dt.day, 2), Pad(dt.hour, 2), Pad(dt.minute, 2),
                     Pad(dt.second, 2));
  }

  lemma NoPointInSeconds(y: string, mo: string, d: string, h: string, mi: string, se: string)
    requires '.' !in y && '.' !in mo && '.' !in d && '.' !in h && '.' !in mi && '.' !in se
    ensures '.' !in y + "-" + mo + "-" + d + "T" + h + ":" + mi + ":" + se
  {
    NoPointJoined(y, '-', mo);
    NoPointJoined(y + "-" + mo, '-', d);
    NoPointJoined(y + "-" + mo + "-" + d, 'T', h);
    NoPointJoined(y + "-" + mo + "-" + d + "T" + h, ':', mi);
    NoPointJoined(y + "-" + mo + "-" + d + "T" + h + ":" + mi, ':', se);
  }

  /** Stripping an empty fraction from the printed form of a time value gives its spelling. */
  lemma StrippedIsSpelling(t: int)
    ensures ReplaceFirst(ToIsoString(t), ".000Z", "Z") == Spelling(FromTime(t))
  {
    var dt := FromTime(t);
    NoPointBeforeFraction(dt);
    ReplaceAfter(Seconds(dt), "." + Pad(dt.ms, 3) + "Z");
    ReplaceFraction(dt.ms);
  }

  // The spelling of a date and time of years 0 to 9999, field by field.

  lemma SecondsFields(dt: DateTime)
    requires RealDateTime(dt) && 0 <= dt.year <= 9999
    ensures var s := Seconds(dt);
            && |s| == 19
            && s[0..4] == Pad(dt.year, 4) && s[4] == '-' && s[5..7] == Pad(dt.month, 2) && s[7] == '-'
            && s[8..10] == Pad(dt.day, 2) && s[10] == 'T' && s[11..13] == Pad(dt.hour, 2) && s[13] == ':'
            && s[14..16] == Pad(dt.minute, 2) && s[16] == ':' && s[17..19] == Pad(dt.second, 2)
  {
    Joined(Pad(dt.year, 4), Pad(dt.month, 2), Pad(dt.day, 2), Pad(dt.hour, 2), Pad(dt.minute, 2), Pad(dt.second, 2));
  }

  lemma SliceOfPrefix(s: string, head: string, i: nat, j: nat)
    requires head <= s && i <= j <= |head|
    ensures s[i..j] == head[i..j]
    ensures j < |head| ==> s[j] == head[j]
  {
  }

  lemma Piece(a: string, c: char, b: string, whole: string)
    requires a + [c] + b <= whole
    ensures a <= whole && whole[|a|] == c && whole[|a| + 1..|a| + 1 + |b|] == b
  {
    var s := a + [c] + b;
    assert s[|a|] == c && s[|a| + 1..|s|] == b && s[0..|a|] == a;
    SliceOfPrefix(whole, s, |a| + 1, |s|);
    SliceOfPrefix(whole, s, 0, |a|);
  }

  lemma Joined(y: string, mo: string, d: string, h: string, mi: string, se: string)
    requires |y| == 4 && |mo| == 2 && |d| == 2 && |h| == 2 && |mi| == 2 && |se| == 2
    ensures var s := y + "-" + mo + "-" + d + "T" + h + ":" + mi + ":" + se;
            && |s| == 19
            && s[0..4] == y && s[4] == '-' && s[5..7] == mo && s[7] == '-' && s[8..10] == d && s[10] == 'T'
            && s[11..13] == h && s[13] == ':' && s[14..16] == mi && s[16] == ':' && s[17..19] == se
  {
    var s := y + "-" + mo + "-" + d + "T" + h + ":" + mi + ":" + se;
    Piece(y + "-" + mo + "-" + d + "T" + h + ":" + mi, ':', se, s);
    Piece(y + "-" + mo + "-" + d + "T" + h, ':', mi, s);
    Piece(y + "-" + mo + "-" + d, 'T', h, s);
    Piece(y + "-" + mo, '-', d, s);
    Piece(y, '-', mo, s);
  }

  ghost predicate HeadMatches(s: string) {
    && |s| == 19
    && IsDigits(s[0..4]) && s[4] == '-' && IsDigits(s[5..7]) && s[7] == '-' && IsDigits(s[8..10]) && s[10] == 'T'
    && IsDigits(s[11..13]) && s[13] == ':' && IsDigits(s[14..16]) && s[16] == ':' && IsDigits(s[17..19])
  }

  lemma HeadSlices(s: string, head: string)
    requires HeadMatches(head) && head <= s
    ensures s[0..4] == head[0..4] && s[5..7] == head[5..7] && s[8..10] == head[8..10]
    ensures s[11..13] == head[11..13] && s[14..16] == head[14..16] && s[17..19] == head[17..19]
    ensures s[4] == s[7] == '-' && s[10] == 'T' && s[13] == s[16] == ':'
  {
    SliceOfPrefix(s, head, 0, 4);
    SliceOfPrefix(s, head, 5, 7);
    SliceOfPrefix(s, head, 8, 10);
    SliceOfPrefix(s, head, 11, 13);
    SliceOfPrefix(s, head, 14, 16);
    SliceOfPrefix(s, head, 17, 19);
  }

  lemma WholeMatches(s: string, head: string)
    requires HeadMatches(head) && head <= s
    requires s[19..] == "Z" || (|s| == 24 && s[19] == '.' && IsDigits(s[20..23]) && s[23] == 'Z')
    ensures Matches(s)
    ensures Reading(s) == DateTime(Value(head[0..4]), Value(head[5..7]), Value(head[8..10]), Value(head[11..13]),
                                   Value(head[14..16]), Value(head[17..19]),
                                   if |s| == 20 then 0 else Value(s[20..23]))
  {
    HeadSlices(s, head);
    if s[19..] == "Z" {
      assert s[19..][0] == s[19];
    }
  }

  lemma TailOfSpelling(head: string, fraction: string)
    requires |head| == 19 && |fraction| == 3
    ensures (head + "Z")[19..] == "Z"
    ensures var s := head + ("." + fraction + "Z");
            |s| == 24 && s[19] == '.' && s[20..23] == fraction && s[23] == 'Z'
  {
  }

  lemma SecondsMatch(dt: DateTime)
    requires RealDateTime(dt) && 0 <= dt.year <= 9999
    ensures var s := Seconds(dt);
            && HeadMatches(s)
            && Value(s[0..4]) == dt.year && Value(s[5..7]) == dt.month && Value(s[8..10]) == dt.day
            && Value(s[11..13]) == dt.hour && Value(s[14..16]) == dt.minute && Value(s[17..19]) == dt.second
  {
    SecondsFields(dt);
    FieldsFit(dt);
  }

  lemma SpellingTail(dt: DateTime)
    requires RealDateTime(dt) && |Seconds(dt)| == 19
    ensures var s := Spelling(dt);
            && Seconds(dt) <= s
            && (if dt.ms == 0 then s[19..] == "Z"
                else |s| == 24 && s[19] == '.' && s[20..23] == Pad(dt.ms, 3) && s[23] == 'Z')
  {
    TailOfSpelling(Seconds(dt), Pad(dt.ms, 3));
  }

  lemma SpellingMatches(dt: DateTime)
    requires RealDateTime(dt) && 0 <= dt.year <= 9999
    ensures Matches(Spelling(dt)) && Reading(Spelling(dt)) == dt
  {
    var head, s := Seconds(dt), Spelling(dt);
    SecondsMatch(dt);
    SpellingTail(dt);
    PadValue(dt.ms, 3);
    WholeMatches(s, head);
  }

  lemma TwoDigits(n: nat)
    requires n < 100
    ensures Value(Pad(n, 2)) == n
  {
    PadValue(n, 2);
  }

  lemma FieldsFit(dt: DateTime)
    requires RealDateTime(dt) && 0 <= dt.year <= 9999
    ensures Value(Pad(dt.year, 4)) == dt.year && Value(Pad(dt.month, 2)) == dt.month
    ensures Value(Pad(dt.day, 2)) == dt.day && Value(Pad(dt.hour, 2)) == dt.hour
    ensures Value(Pad(dt.minute, 2)) == dt.minute && Value(Pad(dt.second, 2)) == dt.second
  {
    PadValue(dt.year, 4);
    TwoDigits(dt.month);
    TwoDigits(dt.day);
    TwoDigits(dt.hour);
    TwoDigits(dt.minute);
    TwoDigits(dt.second);
  }

  /** Years outside 0 to 9999 are printed with a sign, which the pattern does not allow. */
  lemma SignedYearsDoNotMatch(dt: DateTime)
    requires RealDateTime(dt) && !(0 <= dt.year <= 9999)
    ensures !Matches(Spelling(dt))
  {
    var s := Spelling(dt);
    assert s[0] == YearText(dt.year)[0];
    if Matches(s) {
      assert s[0..4][0] == s[0];
    }
  }

  /** The expiry check accepts exactly the spellings of dates and times that exist, of years 0 to 9999,
      whatever the implementation's `Date.parse` makes of everything else; and an accepted spelling
      stands for the time value of its own date and time. */
  lemma ExpiryIsCanonical(s: string, other: string -> Option<int>)
    ensures CanonicalExpiresAt(s, other)
            <==> exists dt :: RealDateTime(dt) && 0 <= dt.year <= 9999 && s == Spelling(dt)
    ensures forall dt | RealDateTime(dt) && 0 <= dt.year <= 9999 && s == Spelling(dt) ::
              DateParse(s, other) == Some(MakeTime(dt))
  {
    forall dt | RealDateTime(dt) && 0 <= dt.year <= 9999 && s == Spelling(dt)
      ensures DateParse(s, other) == Some(MakeTime(dt)) && CanonicalExpiresAt(s, other)
    {
      SpellingMatches(dt);
      FromMadeTime(dt);
      StrippedIsSpelling(MakeTime(dt));
    }
    if CanonicalExpiresAt(s, other) {
      var t := DateParse(s, other).value;
      StrippedIsSpelling(t);
      var dt := FromTime(t);
      if !(0 <= dt.year <= 9999) {
        SignedYearsDoNotMatch(dt);
      }
      assert RealDateTime(dt) && s == Spelling(dt);
    }
  }

  lemma {:induction false} ValuePad(s: string)
    requires IsDigits(s)
    ensures Value(s) < Pow10(|s|) && Pad(Value(s), |s|) == s
  {
    if s != "" {
      var init, last := s[..|s| - 1], s[|s| - 1];
      ValuePad(init);
      assert Value(s) / 10 == Value(init) && Value(s) % 10 == last as int - '0' as int;
      assert s == init + [last];
    }
  }

  lemma FieldPad(s: string, i: nat, j: nat)
    requires i <= j <= |s| && IsDigits(s[i..j])
    ensures Value(s[i..j]) < Pow10(j - i) && s[i..j] == Pad(Value(s[i..j]), j - i)
  {
    ValuePad(s[i..j]);
  }

  lemma ReadingFields(s: string)
    requires Matches(s)
    ensures var dt := Reading(s);
            && 0 <= dt.year < Pow10(4)
            && s[0..4] == Pad(dt.year, 4) && s[5..7] == Pad(dt.month, 2) && s[8..10] == Pad(dt.day, 2)
            && s[11..13] == Pad(dt.hour, 2) && s[14..16] == Pad(dt.minute, 2) && s[17..19] == Pad(dt.second, 2)
            && (|s| == 24 ==> s[20..23] == Pad(dt.ms, 3))
  {
    FieldPad(s, 0, 4);
    FieldPad(s, 5, 7);
    FieldPad(s, 8, 10);
    FieldPad(s, 11, 13);
    FieldPad(s, 14, 16);
    FieldPad(s, 17, 19);
    if |s| == 24 {
      FieldPad(s, 20, 23);
    }
  }

  lemma SplitHead(s: string)
    requires Matches(s)
    ensures s[..19] == s[0..4] + "-" + s[5..7] + "-" + s[8..10] + "T" + s[11..13] + ":" + s[14..16] + ":" + s[17..19]
    ensures s == s[..19] + (if |s| == 20 then "Z" else "." + s[20..23] + "Z")
  {
  }

  /** The text fits the pattern, the date and time it says exists, and a fraction is spelled out only if it
      is not zero: no 30 February, no hour 24, no `.000`. */
  ghost predicate SaysRealTime(s: string) {
    Matches(s) && RealDateTime(Reading(s)) && (|s| == 24 ==> Reading(s).ms != 0)
  }

  lemma SpellingReads(dt: DateTime)
    requires RealDateTime(dt) && 0 <= dt.year <= 9999
    ensures SaysRealTime(Spelling(dt))
  {
    SpellingMatches(dt);
    SecondsFields(dt);
  }

  lemma ReadingIsSpelled(s: string)
    requires SaysRealTime(s)
    ensures 0 <= Reading(s).year <= 9999 && s == Spelling(Reading(s))
  {
    ReadingFields(s);
    SplitHead(s);
    assert Pow10(4) == 10_000;
  }

  lemma SpelledIffReads(s: string)
    ensures (exists dt :: RealDateTime(dt) && 0 <= dt.year <= 9999 && s == Spelling(dt)) <==> SaysRealTime(s)
  {
    forall dt | RealDateTime(dt) && 0 <= dt.year <= 9999 && s == Spelling(dt)
      ensures SaysRealTime(s)
    {
      SpellingReads(dt);
    }
    if SaysRealTime(s) {
      ReadingIsSpelled(s);
    }
  }

  /** What the expiry check accepts, read off the text. */
  lemma ExpiryByReading(s: string, other: string -> Option<int>)
    ensures CanonicalExpiresAt(s, other) <==> SaysRealTime(s)
  {
    ExpiryIsCanonical(s, other);
    SpelledIffReads(s);
  }
}
