/** The env-file parser (`parseEnvText`, `unquote`). */
module EnvFile {
  import opened JsText

  // ----- the parser -----

  function FirstIndex(s: string, c: char): (i: nat)
    ensures i <= |s| && (i == |s| <==> c !in s)
    ensures i < |s| ==> s[i] == c
    ensures forall k | 0 <= k < i :: s[k] != c
  {
    if s == "" then 0
    else if s[0] == c then 0
    else
      assert s == [s[0]] + s[1..];
      FirstIndex(s[1..], c) + 1
  }

  function DropReturn(line: string): string {
    if line != "" && line[|line| - 1] == '\r' then line[..|line| - 1] else line
  }

  /** `text.split(/\r?\n/)`. */
  function Lines(text: string): seq<string> {
    var i := FirstIndex(text, '\n');
    if i == |text| then [text] else [DropReturn(text[..i])] + Lines(text[i + 1..])
  }

  function Unquote(value: string): string {
    var t := Trim(value);
    if t != "" && ((t[0] == '\"' && t[|t| - 1] == '\"') || (t[0] == '\'' && t[|t| - 1] == '\'')) then
      if |t| == 1 then "" else t[1..|t| - 1]
    else t
  }

  /** The name and value of a line, None if it sets nothing. */
  function ReadLine(rawLine: string): Option<(string, string)> {
    var line := Trim(rawLine);
    if line == "" || line[0] == '#' then None
    else
      var i := FirstIndex(line, '=');
      var name := Trim(line[..i]);
      if name == "" then None
      else Some((name, Unquote(if i == |line| then "" else line[i + 1..])))
  }

  function Take(values: map<string, string>, rawLine: string): map<string, string> {
    match ReadLine(rawLine)
    case None => values
    case Some((name, value)) => Assign(values, name, value)
  }

  function ReadLines(lines: seq<string>): map<string, string> {
    if lines == [] then map[] else Take(ReadLines(lines[..|lines| - 1]), lines[|lines| - 1])
  }

  method ParseEnvText(text: string) returns (values: map<string, string>)
    ensures values == ReadLines(Lines(text))
  {
    values := map[];
    var lines := Lines(text);
    for k := 0 to |lines|
      invariant values == ReadLines(lines[..k])
    {
      assert lines[..k + 1][..k] == lines[..k];
      var line := ReadLine(lines[k]);
      if line.Some? {
        values := Assign(values, line.value.0, line.value.1);
      }
    }
    assert lines[..|lines|] == lines;
  }

  // ----- writing a file -----

  datatype Binding = Binding(key: string, value: string)

  function Quoted(value: string): string {
    "\"" + value + "\""
  }

  function Written(b: Binding): string {
    b.key + ['='] + Quoted(b.value)
  }

  /** One `KEY="VALUE"` line per binding. */
  function Print(bindings: seq<Binding>): string {
    if bindings == [] then "" else Written(bindings[0]) + "\n" + Print(bindings[1..])
  }

  /** What the bindings mean: later ones override earlier ones. */
  function MapOf(bindings: seq<Binding>): map<string, string> {
    if bindings == [] then map[]
    else MapOf(bindings[..|bindings| - 1])[bindings[|bindings| - 1].key := bindings[|bindings| - 1].value]
  }

  predicate GoodKey(key: string) {
    key != "" && IsTrimmed(key) && '=' !in key && '\n' !in key && key[0] != '#' && key != "__proto__"
  }

  predicate Good(b: Binding) {
    GoodKey(b.key) && '\n' !in b.value
  }

  // ----- reading back what was written -----

  lemma UnquoteQuoted(value: string)
    ensures Unquote(Quoted(value)) == value
  {
    var t := Quoted(value);
    TrimFixed(t);
    assert t[1..|t| - 1] == value;
  }

  lemma FirstIndexAfter(a: string, c: char, b: string)
    requires c !in a
    ensures FirstIndex(a + [c] + b, c) == |a|
  {
    var s := a + [c] + b;
    assert s[|a|] == c && forall k | 0 <= k < |a| :: s[k] == a[k] && a[k] in a;
  }

  lemma ReadQuotedLine(key: string, quoted: string)
    requires key != "" && IsTrimmed(key) && '=' !in key && key[0] != '#'
    requires quoted != "" && !IsSpace(quoted[|quoted| - 1])
    ensures ReadLine(key + ['='] + quoted) == Some((key, Unquote(quoted)))
  {
    var line := key + ['='] + quoted;
    assert line[0] == key[0] && line[|line| - 1] == quoted[|quoted| - 1];
    TrimFixed(line);
    FirstIndexAfter(key, '=', quoted);
    assert line[..|key|] == key && line[|key| + 1..] == quoted;
    TrimFixed(key);
  }

  lemma ReadWritten(b: Binding)
    requires Good(b)
    ensures ReadLine(Written(b)) == Some((b.key, b.value))
  {
    ReadQuotedLine(b.key, Quoted(b.value));
    UnquoteQuoted(b.value);
  }

  lemma WrittenIsALine(b: Binding)
    requires Good(b)
    ensures '\n' !in Written(b) && DropReturn(Written(b)) == Written(b)
  {
  }

  ghost function WrittenLines(bindings: seq<Binding>): seq<string> {
    if bindings == [] then [] else [Written(bindings[0])] + WrittenLines(bindings[1..])
  }

  lemma FirstLine(line: string, rest: string)
    requires '\n' !in line
    ensures Lines(line + ['\n'] + rest) == [DropReturn(line)] + Lines(rest)
  {
    var text := line + ['\n'] + rest;
    FirstIndexAfter(line, '\n', rest);
    assert text[..|line|] == line && text[|line| + 1..] == rest;
  }

  lemma {:induction false} LinesOfPrint(bindings: seq<Binding>)
    requires forall b | b in bindings :: Good(b)
    ensures Lines(Print(bindings)) == WrittenLines(bindings) + [""]
  {
    if bindings != [] {
      var line, rest := Written(bindings[0]), Print(bindings[1..]);
      assert bindings[0] in bindings;
      WrittenIsALine(bindings[0]);
      assert Print(bindings) == line + ['\n'] + rest;
      FirstLine(line, rest);
      LinesOfPrint(bindings[1..]);
    }
  }

  lemma {:induction false} WrittenLinesSnoc(bindings: seq<Binding>)
    requires bindings != []
    ensures WrittenLines(bindings)
            == WrittenLines(bindings[..|bindings| - 1]) + [Written(bindings[|bindings| - 1])]
  {
    if |bindings| > 1 {
      var init := bindings[..|bindings| - 1];
      assert init[1..] == bindings[1..][..|bindings[1..]| - 1];
      WrittenLinesSnoc(bindings[1..]);
    }
  }

  lemma {:induction false} ReadWrittenLines(bindings: seq<Binding>)
    requires forall b | b in bindings :: Good(b)
    ensures ReadLines(WrittenLines(bindings)) == MapOf(bindings)
  {
    if bindings != [] {
      var init, last := bindings[..|bindings| - 1], bindings[|bindings| - 1];
      assert last in bindings && forall b | b in init :: b in bindings;
      WrittenLinesSnoc(bindings);
      ReadWrittenLines(init);
      ReadWritten(last);
      var lines := WrittenLines(bindings);
      assert lines[..|lines| - 1] == WrittenLines(init);
    }
  }

  /** Round trip: bindings with good keys and single-line values read back as what they mean, the last of
      a repeated key winning, and values may hold `=`, `#`, quotes and edge spaces. */
  lemma WrittenReadsBack(bindings: seq<Binding>)
    requires forall b | b in bindings :: Good(b)
    ensures ReadLines(Lines(Print(bindings))) == MapOf(bindings)
  {
    LinesOfPrint(bindings);
    ReadWrittenLines(bindings);
    var lines := WrittenLines(bindings) + [""];
    assert lines[..|lines| - 1] == WrittenLines(bindings);
    assert ReadLine("") == None;
  }

  // ----- nothing else can ever be read -----

  lemma {:induction false} LinesHaveNoNewline(text: string)
    ensures forall line | line in Lines(text) :: '\n' !in line
    decreases |text|
  {
    var i := FirstIndex(text, '\n');
    if i < |text| {
      LinesHaveNoNewline(text[i + 1..]);
    }
  }

  lemma UnquoteKeepsCharacters(value: string)
    ensures forall c | c in Unquote(value) :: c in value
  {
    TrimTrims(value);
  }

  /** A line without a line break sets a good key, or `__proto__`, to a single-line value. */
  lemma ReadLineIsGood(line: string)
    requires '\n' !in line && ReadLine(line).Some?
    ensures var (name, value) := ReadLine(line).value;
            (name == PROTO || GoodKey(name)) && '\n' !in value
  {
    TrimTrims(line);
    var t := Trim(line);
    var i := FirstIndex(t, '=');
    var head, tail := t[..i], if i == |t| then "" else t[i + 1..];
    TrimTrims(head);
    assert '\n' !in head && '\n' !in tail && '=' !in head;
    assert head != "";
    assert head[0] == t[0] && TrimStart(head) == head;
    TrimEndEdge(head);
    UnquoteKeepsCharacters(tail);
  }

  lemma {:induction false} ReadLinesAreGood(lines: seq<string>)
    requires forall line | line in lines :: '\n' !in line
    ensures forall k | k in ReadLines(lines) :: GoodKey(k) && '\n' !in ReadLines(lines)[k]
  {
    if lines != [] {
      var init, last := lines[..|lines| - 1], lines[|lines| - 1];
      assert last in lines && forall line | line in init :: line in lines;
      ReadLinesAreGood(init);
      if ReadLine(last).Some? {
        ReadLineIsGood(last);
      }
    }
  }

  lemma {:induction false} MapOfDistinct(bindings: seq<Binding>, i: nat)
    requires i < |bindings|
    requires forall j, k | 0 <= j < k < |bindings| :: bindings[j].key != bindings[k].key
    ensures bindings[i].key in MapOf(bindings) && MapOf(bindings)[bindings[i].key] == bindings[i].value
  {
    if i < |bindings| - 1 {
      MapOfDistinct(bindings[..|bindings| - 1], i);
    }
  }

  /** The round trip works exactly for good bindings: a key `__proto__`, a key the parser would trim, cut or
      skip, and a value with a line break are lost by necessity. */
  lemma RoundTripIff(bindings: seq<Binding>)
    requires forall j, k | 0 <= j < k < |bindings| :: bindings[j].key != bindings[k].key
    ensures ReadLines(Lines(Print(bindings))) == MapOf(bindings) <==> forall b | b in bindings :: Good(b)
  {
    if forall b | b in bindings :: Good(b) {
      WrittenReadsBack(bindings);
    }
    if ReadLines(Lines(Print(bindings))) == MapOf(bindings) {
      LinesHaveNoNewline(Print(bindings));
      ReadLinesAreGood(Lines(Print(bindings)));
      forall b | b in bindings ensures Good(b) {
        var i :| 0 <= i < |bindings| && bindings[i] == b;
        MapOfDistinct(bindings, i);
      }
    }
  }

  // ----- other spellings of a line -----

  function Single(value: string): string {
    "\'" + value + "\'"
  }

  predicate Wrapped(value: string, quote: char) {
    value != "" && value[0] == quote && value[|value| - 1] == quote
  }

  /** Single quotes work like double ones. A bare value is read as it stands exactly when it has no edge space
      and is not wrapped in a pair of quotes (or a lone quote). */
  lemma OtherSpellings(key: string, value: string)
    requires GoodKey(key)
    ensures ReadLine(key + ['='] + Single(value)) == Some((key, value))
    ensures value != "" && !IsSpace(value[|value| - 1]) ==>
              (ReadLine(key + ['='] + value) == Some((key, value))
               <==> IsTrimmed(value) && !Wrapped(value, '\"') && !Wrapped(value, '\''))
  {
    var quoted := Single(value);
    ReadQuotedLine(key, quoted);
    TrimFixed(quoted);
    assert quoted[1..|quoted| - 1] == value;
    if value != "" && !IsSpace(value[|value| - 1]) {
      ReadQuotedLine(key, value);
      BareValue(value);
    }
  }

  lemma BareValue(value: string)
    requires value != ""
    ensures Unquote(value) == value <==> IsTrimmed(value) && !Wrapped(value, '\"') && !Wrapped(value, '\'')
  {
    TrimTrims(value);
    if IsTrimmed(value) {
      TrimFixed(value);
    } else {
      UnquoteShrinks(value);
    }
  }

  lemma UnquoteShrinks(value: string)
    requires !IsTrimmed(value)
    ensures |Unquote(value)| < |value|
  {
    TrimShrinks(value);
  }

  lemma TrimShrinks(value: string)
    ensures |Trim(value)| <= |value|
    ensures !IsTrimmed(value) ==> |Trim(value)| < |value|
  {
    TrimStartShrinks(value);
    TrimEndEdge(TrimStart(value));
    TrimStartEdge(value);
    TrimTrims(value);
    if |Trim(value)| == |value| {
      assert Trim(value) == value;
    }
  }

  lemma {:induction false} TrimStartShrinks(value: string)
    ensures |TrimStart(value)| <= |value|
    ensures |TrimStart(value)| == |value| ==> TrimStart(value) == value
  {
    if value != "" && IsSpace(value[0]) {
      TrimStartShrinks(value[1..]);
    }
  }

  lemma Reassociate(key: string, b: string, c: string, quoted: string)
    ensures key + b + ['='] + c + quoted == (key + b) + ['='] + (c + quoted)
  {
  }

  lemma SplitKey(line: string, name: string, tail: string)
    requires '=' !in name && line == name + ['='] + tail && Trim(line) == line && line != "" && line[0] != '#'
    requires Trim(name) != ""
    ensures ReadLine(line) == Some((Trim(name), Unquote(tail)))
  {
    FirstIndexAfter(name, '=', tail);
    assert line[..|name|] == name && line[|name| + 1..] == tail;
  }

  lemma SameTrimmed(raw: string, line: string)
    requires Trim(raw) == line && Trim(line) == line
    ensures ReadLine(raw) == ReadLine(line)
  {
  }

  /** White space around the line, the key and the quoted value is no part of them. */
  lemma PaddedLine(a: string, key: string, b: string, c: string, value: string, d: string)
    requires GoodKey(key) && Spaces(a) && Spaces(b) && Spaces(c) && Spaces(d)
    requires '=' !in b
    ensures ReadLine(a + (key + b + ['='] + c + Quoted(value)) + d) == Some((key, value))
  {
    var line := key + b + ['='] + c + Quoted(value);
    LineEdges(key, b, c, Quoted(value));
    TrimPadded(a, line, d);
    TrimFixed(line);
    SameTrimmed(a + line + d, line);
    Reassociate(key, b, c, Quoted(value));
    KeyPadded(key, b);
    SplitKey(line, key + b, c + Quoted(value));
    UnquotePadded(c, value);
  }

  lemma LineEdges(key: string, b: string, c: string, quoted: string)
    requires key != "" && quoted != ""
    ensures var line := key + b + ['='] + c + quoted;
            line != "" && line[0] == key[0] && line[|line| - 1] == quoted[|quoted| - 1]
  {
  }

  lemma KeyPadded(key: string, b: string)
    requires key != "" && IsTrimmed(key) && Spaces(b)
    ensures Trim(key + b) == key
  {
    assert "" + key + b == key + b;
    TrimPadded("", key, b);
  }

  lemma UnquotePadded(c: string, value: string)
    requires Spaces(c)
    ensures Unquote(c + Quoted(value)) == value
  {
    assert c + Quoted(value) + "" == c + Quoted(value);
    TrimPadded(c, Quoted(value), "");
    assert Quoted(value)[1..|Quoted(value)| - 1] == value;
  }

  /** A line without `=` sets its key to nothing; blank lines and comments set nothing, nor does a line without a key. */
  lemma OtherLines(key: string, pad: string, rest: string)
    requires GoodKey(key) && Spaces(pad)
    ensures ReadLine(key) == Some((key, ""))
    ensures ReadLine(pad) == None
    ensures ReadLine("#" + rest) == None
    ensures !IsSpace('=') && ReadLine(['='] + rest) == None
  {
    TrimFixed(key);
    assert key[..|key|] == key;
    TrimFixed("");
    TrimBlank(pad);
    TrimKeepsFirst('#', rest);
    TrimKeepsFirst('=', rest);
    assert "#" + rest == ['#'] + rest;
    assert Trim(['='] + rest)[..0] == "";
  }

  lemma TrimKeepsFirst(c: char, rest: string)
    requires !IsSpace(c)
    ensures Trim([c] + rest) != "" && Trim([c] + rest)[0] == c
  {
    var s := [c] + rest;
    assert TrimStart(s) == s;
    TrimEndEdge(s);
    TrimBlank(s);
    assert !IsSpace(s[0]);
  }

  /** A text is split at its line feeds, a carriage return before one included. */
  lemma SplitAtLineFeeds(line: string, rest: string)
    requires '\n' !in line
    ensures Lines(line) == [line]
    ensures Lines(line + "\r\n" + rest) == [line] + Lines(rest)
    ensures line == "" || line[|line| - 1] != '\r' ==> Lines(line + "\n" + rest) == [line] + Lines(rest)
  {
    assert line + "\r\n" + rest == (line + "\r") + ['\n'] + rest;
    FirstLine(line + "\r", rest);
    assert (line + "\r")[..|line|] == line;
    assert line + "\n" + rest == line + ['\n'] + rest;
    FirstLine(line, rest);
  }
}
