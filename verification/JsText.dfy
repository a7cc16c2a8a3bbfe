/** The few JavaScript notions every tool script relies on: results, optional values,
    string trimming and prefix tests. */
module JsText {

  datatype Option<+T> = None | Some(value: T)

  datatype Result<+T, +E> = Ok(value: T) | Err(error: E)

  /** White space and line terminators, the characters `String.prototype.trim` strips. */
  predicate IsSpace(c: char) {
    var u := c as int;
    9 <= u <= 13 || u == 0x20 || u == 0xA0 || u == 0x1680 || 0x2000 <= u <= 0x200A
    || u == 0x2028 || u == 0x2029 || u == 0x202F || u == 0x205F || u == 0x3000 || u == 0xFEFF
  }

  function TrimStart(s: string): string {
    if s != [] && IsSpace(s[0]) then TrimStart(s[1..]) else s
  }

  function TrimEnd(s: string): string {
    if s != [] && IsSpace(s[|s| - 1]) then TrimEnd(s[..|s| - 1]) else s
  }

  function Trim(s: string): string {
    TrimEnd(TrimStart(s))
  }

  predicate AllDigits(s: string) {
    s != "" && forall i | 0 <= i < |s| :: '0' <= s[i] <= '9'
  }

  const PROTO := "__proto__"

  /** `entries[key] = value` on a plain object: assigning a text to `__proto__` does nothing. */
  function Assign(entries: map<string, string>, key: string, value: string): map<string, string> {
    if key == PROTO then entries else entries[key := value]
  }

  predicate StartsWith(s: string, prefix: string) {
    prefix <= s
  }

  /** No white space at either edge. */
  predicate IsTrimmed(s: string) {
    s != [] ==> !IsSpace(s[0]) && !IsSpace(s[|s| - 1])
  }

  lemma TrimFixed(s: string)
    requires IsTrimmed(s)
    ensures Trim(s) == s
  {
  }

  lemma {:induction false} TrimStartEdge(s: string)
    ensures TrimStart(s) != [] ==> !IsSpace(TrimStart(s)[0]) && TrimStart(s)[|TrimStart(s)| - 1] == s[|s| - 1]
    ensures forall c | c in TrimStart(s) :: c in s
  {
    if s != [] && IsSpace(s[0]) {
      TrimStartEdge(s[1..]);
    }
  }

  lemma {:induction false} TrimEndEdge(s: string)
    ensures TrimEnd(s) <= s
    ensures TrimEnd(s) != [] ==> !IsSpace(TrimEnd(s)[|TrimEnd(s)| - 1])
  {
    if s != [] && IsSpace(s[|s| - 1]) {
      TrimEndEdge(s[..|s| - 1]);
    }
  }

  /** Trimming leaves no edge space, invents no character, and is the identity on its own results. */
  lemma TrimTrims(s: string)
    ensures IsTrimmed(Trim(s))
    ensures forall c | c in Trim(s) :: c in s
    ensures Trim(Trim(s)) == Trim(s)
  {
    TrimStartEdge(s);
    TrimEndEdge(TrimStart(s));
    TrimFixed(Trim(s));
  }

  // ----- what trimming means -----

  /** What `trim` strips: white space and line terminators, as in sections 11.2 and 11.3 of ECMA-262, 6th edition. */
  lemma SpacesAre(c: char)
    ensures IsSpace(c) <==>
            c as int in {0x9, 0xA, 0xB, 0xC, 0xD, 0x20, 0xA0, 0x1680, 0x2000, 0x2001, 0x2002, 0x2003, 0x2004, 0x2005,
                         0x2006, 0x2007, 0x2008, 0x2009, 0x200A, 0x2028, 0x2029, 0x202F, 0x205F, 0x3000, 0xFEFF}
  {
  }

  ghost predicate Spaces(s: string) {
    forall i | 0 <= i < |s| :: IsSpace(s[i])
  }

  /** The text has something on it. */
  ghost predicate NotBlank(s: string) {
    exists i :: 0 <= i < |s| && !IsSpace(s[i])
  }

  lemma {:induction false} TrimStartParts(s: string) returns (a: string)
    ensures Spaces(a) && s == a + TrimStart(s)
  {
    a := "";
    if s != [] && IsSpace(s[0]) {
      var rest := TrimStartParts(s[1..]);
      a := [s[0]] + rest;
    }
  }

  lemma {:induction false} TrimEndParts(s: string) returns (b: string)
    ensures Spaces(b) && s == TrimEnd(s) + b
  {
    b := "";
    if s != [] && IsSpace(s[|s| - 1]) {
      var rest := TrimEndParts(s[..|s| - 1]);
      b := rest + [s[|s| - 1]];
      assert s == s[..|s| - 1] + [s[|s| - 1]];
    }
  }

  /** Trimming takes white space off both edges, and nothing else. */
  lemma TrimParts(s: string) returns (a: string, b: string)
    ensures Spaces(a) && Spaces(b) && s == a + Trim(s) + b
  {
    a := TrimStartParts(s);
    b := TrimEndParts(TrimStart(s));
  }

  lemma TrimBlank(s: string)
    ensures Trim(s) != "" <==> NotBlank(s)
  {
    var a, b := TrimParts(s);
    TrimTrims(s);
    if Trim(s) != "" {
      assert s[|a|] == Trim(s)[0];
    }
  }

  lemma {:induction false} TrimStartPadded(a: string, s: string)
    requires Spaces(a) && (s == "" || !IsSpace(s[0]))
    ensures TrimStart(a + s) == s
  {
    if a != "" {
      assert (a + s)[1..] == a[1..] + s;
      TrimStartPadded(a[1..], s);
    } else {
      assert a + s == s;
    }
  }

  lemma {:induction false} TrimEndPadded(s: string, b: string)
    requires Spaces(b) && (s == "" || !IsSpace(s[|s| - 1]))
    ensures TrimEnd(s + b) == s
  {
    if b != "" {
      assert (s + b)[..|s + b| - 1] == s + b[..|b| - 1];
      TrimEndPadded(s, b[..|b| - 1]);
    } else {
      assert s + b == s;
    }
  }

  /** White space around a text is what trimming takes off. */
  lemma TrimPadded(a: string, s: string, b: string)
    requires Spaces(a) && Spaces(b) && s != "" && IsTrimmed(s)
    ensures Trim(a + s + b) == s
  {
    assert a + s + b == a + (s + b);
    TrimStartPadded(a, s + b);
    TrimEndPadded(s, b);
  }

  /** Beginning with a prefix, character by character. */
  lemma StartsIff(s: string, prefix: string)
    ensures StartsWith(s, prefix) <==> |prefix| <= |s| && forall i | 0 <= i < |prefix| :: s[i] == prefix[i]
  {
  }

  // ----- decimal numbers -----

  /** `String(n)` for a whole number. */
  function Digits(n: nat): string {
    (if n < 10 then [] else Digits(n / 10)) + [('0' as int + n % 10) as char]
  }

  function DecimalValue(s: string): int {
    if s == "" then 0 else DecimalValue(s[..|s| - 1]) * 10 + (s[|s| - 1] as int - '0' as int)
  }

  lemma DigitsStep(n: nat)
    ensures Digits(n) == (if n < 10 then "" else Digits(n / 10)) + [('0' as int + n % 10) as char]
    ensures DecimalValue(Digits(n)) == (if n < 10 then 0 else DecimalValue(Digits(n / 10))) * 10 + n % 10
  {
    var init := if n < 10 then "" else Digits(n / 10);
    assert Digits(n)[..|Digits(n)| - 1] == init;
  }

  /** The digits of a number are decimal digits that stand for it, without a leading zero. */
  lemma {:induction false} DigitsRead(n: nat)
    ensures AllDigits(Digits(n)) && DecimalValue(Digits(n)) == n
    ensures Digits(n)[0] == '0' <==> n == 0
  {
    DigitsStep(n);
    if n >= 10 {
      DigitsRead(n / 10);
      assert Digits(n)[0] == Digits(n / 10)[0] && n / 10 != 0;
    }
  }

  /** And the only ones. */
  lemma {:induction false} DigitsAreUnique(s: string)
    requires AllDigits(s) && (s[0] == '0' ==> |s| == 1)
    ensures DecimalValue(s) >= 0 && Digits(DecimalValue(s)) == s
    ensures s[0] != '0' ==> DecimalValue(s) >= 1
  {
    var init, last := s[..|s| - 1], s[|s| - 1] as int - '0' as int;
    assert s == init + [s[|s| - 1]];
    if init != "" {
      DigitsAreUnique(init);
      var n := DecimalValue(s);
      assert n / 10 == DecimalValue(init) && n % 10 == last;
    }
  }

  lemma {:induction false} DigitsLength(n: nat, limit: nat, k: nat)
    requires n < limit && limit == Power(10, k) && k >= 1
    ensures |Digits(n)| <= k
  {
    if n >= 10 {
      assert k >= 2;
      DigitsLength(n / 10, Power(10, k - 1), k - 1);
    }
  }

  function Power(base: nat, k: nat): nat {
    if k == 0 then 1 else base * Power(base, k - 1)
  }
}
