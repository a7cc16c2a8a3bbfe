/** Removal of secrets from evidence before it is written (`withoutSecrets`, `redactSensitiveUrl` in
    `production-verifier.ts`). */
module Redaction {
  import opened JsText
  import opened JsonValue

  /** A parsed URL: its query as it is written, and everything else. */
  datatype Url = Url(base: string, query: Option<string>)

  datatype Param = Param(name: string, value: string)

  /** The URL library and the two patterns on names. `parse` is None where `new URL` throws; `paramsOf` reads a query,
      and `queryOf` writes the one that stands for an edited parameter list. */
  datatype Names = Names(
    parse: string -> Option<Url>,
    show: Url -> string,
    paramsOf: Option<string> -> seq<Param>,
    queryOf: seq<Param> -> Option<string>,
    sensitiveParam: string -> bool,
    sensitiveKey: string -> bool)

  /** What is printed parses to what was printed, whether the query was edited or not, and a written parameter list
      reads back. */
  ghost predicate PrintsFaithfully(names: Names) {
    && (forall s: string | names.parse(s).Some? :: names.parse(names.show(names.parse(s).value)) == names.parse(s))
    && (forall s: string, params: seq<Param> | names.parse(s).Some? ::
          var u := Url(names.parse(s).value.base, names.queryOf(params));
          names.parse(names.show(u)) == Some(u))
    && (forall params: seq<Param> :: names.paramsOf(names.queryOf(params)) == params)
  }

  predicate IsLetter(c: char, lower: char, upper: char) {
    c == lower || c == upper
  }

  /** `/^https?:\/\//i`. */
  predicate IsHttp(s: string) {
    && |s| >= 7
    && IsLetter(s[0], 'h', 'H') && IsLetter(s[1], 't', 'T') && IsLetter(s[2], 't', 'T') && IsLetter(s[3], 'p', 'P')
    && (s[4..7] == "://" || (|s| >= 8 && IsLetter(s[4], 's', 'S') && s[5..8] == "://"))
  }

  // ----- one URL -----

  /** The parameters whose names are not among `gone`. */
  ghost function Keeping(params: seq<Param>, gone: set<string>): seq<Param> {
    if params == [] then []
    else (if params[0].name in gone then [] else [params[0]]) + Keeping(params[1..], gone)
  }

  function Safe(params: seq<Param>, sensitive: string -> bool): seq<Param> {
    if params == [] then []
    else (if sensitive(params[0].name) then [] else [params[0]]) + Safe(params[1..], sensitive)
  }

  lemma KeepingStep(params: seq<Param>, i: nat, gone: set<string>)
    requires i < |params|
    ensures Keeping(params[i..], gone)
            == (if params[i].name in gone then [] else [params[i]]) + Keeping(params[i + 1..], gone)
  {
    assert params[i..][0] == params[i] && params[i..][1..] == params[i + 1..];
  }

  /** `searchParams.delete(name)`: every parameter of that name. */
  method Delete(params: seq<Param>, name: string) returns (kept: seq<Param>)
    ensures kept == Keeping(params, {name})
  {
    kept := [];
    ghost var all, left := Keeping(params, {name}), Keeping(params, {name});
    assert params[0..] == params;
    for i := 0 to |params|
      invariant left == Keeping(params[i..], {name}) && all == kept + left
    {
      KeepingStep(params, i, {name});
      left := Keeping(params[i + 1..], {name});
      if params[i].name != name {
        MoveOver(kept, params[i], left);
        kept := kept + [params[i]];
      }
    }
  }

  lemma MoveOver<T>(a: seq<T>, x: T, b: seq<T>)
    ensures a + ([x] + b) == (a + [x]) + b
  {
  }

  lemma {:induction false} KeepingTwice(params: seq<Param>, a: set<string>, b: set<string>)
    ensures Keeping(Keeping(params, a), b) == Keeping(params, a + b)
  {
    if params != [] {
      KeepingTwice(params[1..], a, b);
      if params[0].name !in a {
        assert Keeping(params, a) == [params[0]] + Keeping(params[1..], a);
        assert Keeping(params, a)[1..] == Keeping(params[1..], a);
      } else {
        assert Keeping(params, a) == Keeping(params[1..], a);
      }
    }
  }

  lemma {:induction false} KeepingSafe(params: seq<Param>, gone: set<string>, sensitive: string -> bool)
    requires forall p | p in params :: p.name in gone <==> sensitive(p.name)
    ensures Keeping(params, gone) == Safe(params, sensitive)
  {
    if params != [] {
      assert forall p | p in params[1..] :: p in params;
      KeepingSafe(params[1..], gone, sensitive);
      assert params[0] in params;
    }
  }

  /** The sensitive names among the first `i` parameters. */
  ghost function Gone(params: seq<Param>, i: nat, sensitive: string -> bool): set<string>
    requires i <= |params|
  {
    if i == 0 then {}
    else if sensitive(params[i - 1].name) then Gone(params, i - 1, sensitive) + {params[i - 1].name}
    else Gone(params, i - 1, sensitive)
  }

  ghost predicate AnySensitive(params: seq<Param>, i: nat, sensitive: string -> bool)
    requires i <= |params|
  {
    i > 0 && (AnySensitive(params, i - 1, sensitive) || sensitive(params[i - 1].name))
  }

  lemma {:induction false} GoneAre(params: seq<Param>, i: nat, sensitive: string -> bool)
    requires i <= |params|
    ensures forall name | name in Gone(params, i, sensitive) :: sensitive(name)
    ensures forall j | 0 <= j < i :: sensitive(params[j].name) ==> params[j].name in Gone(params, i, sensitive)
    ensures AnySensitive(params, i, sensitive) <==> exists j :: 0 <= j < i && sensitive(params[j].name)
  {
    if i > 0 {
      GoneAre(params, i - 1, sensitive);
    }
  }

  /** Deletes while walking over the names there were at the start, repeats included. The first deletion makes the URL
      write its query anew. */
  method DeleteSensitive(params: seq<Param>, sensitive: string -> bool) returns (kept: seq<Param>, edited: bool)
    ensures kept == Safe(params, sensitive)
    ensures edited <==> kept != params
  {
    kept, edited := params, false;
    KeepingNothing(params);
    for i := 0 to |params|
      invariant kept == Keeping(params, Gone(params, i, sensitive))
      invariant edited <==> AnySensitive(params, i, sensitive)
    {
      if sensitive(params[i].name) {
        KeepingTwice(params, Gone(params, i, sensitive), {params[i].name});
        kept := Delete(kept, params[i].name);
        edited := true;
      }
    }
    AllGone(params, sensitive);
  }

  lemma AllGone(params: seq<Param>, sensitive: string -> bool)
    ensures Keeping(params, Gone(params, |params|, sensitive)) == Safe(params, sensitive)
    ensures AnySensitive(params, |params|, sensitive) <==> Safe(params, sensitive) != params
  {
    GoneAre(params, |params|, sensitive);
    KeepingSafe(params, Gone(params, |params|, sensitive), sensitive);
    SafeShrinks(params, sensitive);
  }

  lemma {:induction false} SafeShrinks(params: seq<Param>, sensitive: string -> bool)
    ensures |Safe(params, sensitive)| <= |params|
    ensures Safe(params, sensitive) == params <==> forall j | 0 <= j < |params| :: !sensitive(params[j].name)
  {
    if params != [] {
      SafeShrinks(params[1..], sensitive);
      assert params == [params[0]] + params[1..];
      if !sensitive(params[0].name) {
        assert Safe(params, sensitive)[1..] == Safe(params[1..], sensitive);
      }
    }
  }

  lemma {:induction false} KeepingNothing(params: seq<Param>)
    ensures Keeping(params, {}) == params
  {
    if params != [] {
      KeepingNothing(params[1..]);
    }
  }

  /** No sensitive parameter is left, all others are, in order; doing it again changes nothing. */
  lemma {:induction false} SafeIsSafe(params: seq<Param>, sensitive: string -> bool)
    ensures forall p :: p in Safe(params, sensitive) <==> p in params && !sensitive(p.name)
    ensures Safe(Safe(params, sensitive), sensitive) == Safe(params, sensitive)
  {
    if params != [] {
      SafeIsSafe(params[1..], sensitive);
      assert params == [params[0]] + params[1..];
      if !sensitive(params[0].name) {
        assert Safe(params, sensitive)[1..] == Safe(params[1..], sensitive);
      } else {
        assert Safe(params, sensitive) == Safe(params[1..], sensitive);
      }
    }
  }

  /** None where the script throws. A URL without sensitive parameters is printed with its query as written. */
  function RedactUrl(s: string, names: Names): Option<string> {
    if !IsHttp(s) then Some(s)
    else if names.parse(s).None? then None
    else
      var u := names.parse(s).value;
      var params := names.paramsOf(u.query);
      var safe := Safe(params, names.sensitiveParam);
      Some(names.show(if safe == params then u else Url(u.base, names.queryOf(safe))))
  }

  method RedactSensitiveUrl(s: string, names: Names) returns (r: Option<string>)
    ensures r == RedactUrl(s, names)
  {
    if !IsHttp(s) {
      return Some(s);
    }
    var parsed := names.parse(s);
    if parsed.None? {
      return None;
    }
    var kept, edited := DeleteSensitive(names.paramsOf(parsed.value.query), names.sensitiveParam);
    if edited {
      r := Some(names.show(Url(parsed.value.base, names.queryOf(kept))));
    } else {
      r := Some(names.show(parsed.value));
    }
  }

  function Lower(c: char): char {
    if 'A' <= c <= 'Z' then (c as int + 32) as char else c
  }

  /** The text begins with the prefix, in any case of letters. */
  ghost predicate BeginsLike(s: string, prefix: string) {
    |prefix| <= |s| && forall i | 0 <= i < |prefix| :: Lower(s[i]) == prefix[i]
  }

  ghost predicate IsWebAddress(s: string) {
    BeginsLike(s, "http://") || BeginsLike(s, "https://")
  }

  lemma IsHttpIff(s: string)
    ensures IsHttp(s) <==> IsWebAddress(s)
  {
    var p, q := "http://", "https://";
    assert p[0] == 'h' && p[1] == 't' && p[2] == 't' && p[3] == 'p' && p[4] == ':' && p[5] == '/' && p[6] == '/';
    assert q[0] == 'h' && q[1] == 't' && q[2] == 't' && q[3] == 'p' && q[4] == 's';
    assert q[5] == ':' && q[6] == '/' && q[7] == '/';
    if |s| >= 7 {
      assert s[4..7] == [s[4], s[5], s[6]];
    }
    if |s| >= 8 {
      assert s[5..8] == [s[5], s[6], s[7]];
    }
  }

  /** A text that is no web address stays as it is, one that cannot be read makes the script throw, and any other is
      printed so that it reads as the same base and exactly the parameters that are not sensitive, in order. */
  lemma RedactedParams(s: string, names: Names)
    requires PrintsFaithfully(names)
    ensures !IsWebAddress(s) ==> RedactUrl(s, names) == Some(s)
    ensures IsWebAddress(s) ==> (RedactUrl(s, names).None? <==> names.parse(s).None?)
    ensures IsWebAddress(s) && names.parse(s).Some? ==>
              var printed := names.parse(RedactUrl(s, names).value);
              && printed.Some? && printed.value.base == names.parse(s).value.base
              && names.paramsOf(printed.value.query)
                 == Safe(names.paramsOf(names.parse(s).value.query), names.sensitiveParam)
  {
    IsHttpIff(s);
  }

  lemma RedactUrlTwice(s: string, names: Names)
    requires PrintsFaithfully(names) && RedactUrl(s, names).Some?
    ensures RedactUrl(RedactUrl(s, names).value, names) == RedactUrl(s, names)
  {
    if IsHttp(s) {
      SafeIsSafe(names.paramsOf(names.parse(s).value.query), names.sensitiveParam);
      IsHttpIff(s);
      RedactedParams(s, names);
    }
  }

  // ----- a whole value -----

  /** Every http text that stays can be parsed. */
  ghost predicate Redactable(v: Json, names: Names) {
    match v
    case Str(s) => RedactUrl(s, names).Some?
    case Arr(items) => forall i | 0 <= i < |items| :: Redactable(items[i], names)
    case Obj(entries) =>
      forall i | 0 <= i < |entries| && !names.sensitiveKey(entries[i].key) :: Redactable(entries[i].value, names)
    case _ => true
  }

  ghost function Redacted(v: Json, names: Names): Json
    requires Redactable(v, names)
    decreases v, 1
  {
    match v
    case Str(s) => Str(RedactUrl(s, names).value)
    case Arr(items) => Arr(seq(|items|, i requires 0 <= i < |items| => Redacted(items[i], names)))
    case Obj(entries) => Obj(RedactedEntries(entries, names))
    case _ => v
  }

  ghost function RedactedEntries(entries: seq<Entry>, names: Names): seq<Entry>
    requires forall i | 0 <= i < |entries| && !names.sensitiveKey(entries[i].key) :: Redactable(entries[i].value, names)
    decreases entries, 0
  {
    if entries == [] then []
    else
      (if names.sensitiveKey(entries[0].key) then []
       else [Entry(entries[0].key, Redacted(entries[0].value, names))])
      + RedactedEntries(entries[1..], names)
  }

  /** The recursion of the script; None where it throws. */
  method WithoutSecrets(v: Json, names: Names) returns (r: Option<Json>)
    ensures r.Some? <==> Redactable(v, names)
    ensures r.Some? ==> r.value == Redacted(v, names)
    decreases v
  {
    match v
    case Str(s) =>
      var text := RedactSensitiveUrl(s, names);
      if text.None? {
        return None;
      }
      r := Some(Str(text.value));
    case Arr(items) =>
      var kept: seq<Json> := [];
      for i := 0 to |items|
        invariant |kept| == i
        invariant forall k | 0 <= k < i :: Redactable(items[k], names) && kept[k] == Redacted(items[k], names)
      {
        var item := WithoutSecrets(items[i], names);
        if item.None? {
          return None;
        }
        kept := kept + [item.value];
      }
      assert Redactable(v, names);
      assert kept == Redacted(v, names).items;
      r := Some(Arr(kept));
    case Obj(entries) =>
      var kept: seq<Entry> := [];
      for i := 0 to |entries|
        invariant forall k | 0 <= k < i && !names.sensitiveKey(entries[k].key) :: Redactable(entries[k].value, names)
        invariant kept == RedactedEntries(entries[..i], names)
      {
        assert entries[..i + 1] == entries[..i] + [entries[i]];
        if !names.sensitiveKey(entries[i].key) {
          var value := WithoutSecrets(entries[i].value, names);
          if value.None? {
            return None;
          }
          kept := kept + [Entry(entries[i].key, value.value)];
        }
        RedactedEntriesSplit(entries[..i], [entries[i]], names);
      }
      assert entries[..|entries|] == entries;
      r := Some(Obj(kept));
    case _ =>
      r := Some(v);
  }

  ghost predicate EntriesRedactable(entries: seq<Entry>, names: Names) {
    forall i | 0 <= i < |entries| && !names.sensitiveKey(entries[i].key) :: Redactable(entries[i].value, names)
  }

  lemma {:induction false} RedactedEntriesSplit(a: seq<Entry>, b: seq<Entry>, names: Names)
    requires EntriesRedactable(a, names) && EntriesRedactable(b, names) && EntriesRedactable(a + b, names)
    ensures RedactedEntries(a + b, names) == RedactedEntries(a, names) + RedactedEntries(b, names)
  {
    if a == [] {
      assert a + b == b;
    } else {
      assert (a + b)[1..] == a[1..] + b;
      RedactedEntriesSplit(a[1..], b, names);
    }
  }

  // ----- what is left, place by place -----

  datatype Step = Key(key: string) | Index(i: nat)

  /** The value at a place, None if there is no such place. */
  ghost function At(v: Json, path: seq<Step>): Option<Json> {
    if path == [] then Some(v)
    else match path[0]
      case Key(k) => if v.Obj? && k in Keys(v.entries) then At(Get(v.entries, k), path[1..]) else None
      case Index(i) => if v.Arr? && i < |v.items| then At(v.items[i], path[1..]) else None
  }

  ghost predicate PassesSensitiveKey(path: seq<Step>, names: Names) {
    exists i :: 0 <= i < |path| && path[i].Key? && names.sensitiveKey(path[i].key)
  }

  lemma {:induction false} RedactedMember(entries: seq<Entry>, names: Names, key: string)
    requires EntriesRedactable(entries, names) && Distinct(Keys(entries))
    ensures var kept := RedactedEntries(entries, names);
            && (key in Keys(kept) <==> key in Keys(entries) && !names.sensitiveKey(key))
            && (key in Keys(kept) ==>
                  && Redactable(Get(entries, key), names)
                  && Get(kept, key) == Redacted(Get(entries, key), names))
  {
    var kept := RedactedEntries(entries, names);
    if entries != [] {
      var rest := entries[1..];
      assert Keys(entries) == [entries[0].key] + Keys(rest);
      assert Distinct(Keys(rest)) by {
        assert Keys(rest) == Keys(entries)[1..];
      }
      RedactedMember(rest, names, key);
      if names.sensitiveKey(entries[0].key) {
        assert kept == RedactedEntries(rest, names);
      } else {
        assert kept == [Entry(entries[0].key, Redacted(entries[0].value, names))] + RedactedEntries(rest, names);
        assert Keys(kept) == [entries[0].key] + Keys(RedactedEntries(rest, names));
        assert kept[1..] == RedactedEntries(rest, names);
      }
    }
  }

  /** Redaction empties exactly the places below a sensitive key; every other place stays and holds
      the redacted value of what was there. */
  lemma {:induction false} RedactionByPlace(v: Json, names: Names, path: seq<Step>)
    requires WellFormed(v) && Redactable(v, names)
    ensures At(Redacted(v, names), path).Some? <==> At(v, path).Some? && !PassesSensitiveKey(path, names)
    ensures At(Redacted(v, names), path).Some? ==>
              && Redactable(At(v, path).value, names)
              && At(Redacted(v, names), path) == Some(Redacted(At(v, path).value, names))
  {
    if path != [] {
      assert PassesSensitiveKey(path, names)
        <==> (path[0].Key? && names.sensitiveKey(path[0].key)) || PassesSensitiveKey(path[1..], names) by {
        if PassesSensitiveKey(path[1..], names) {
          var i :| 0 <= i < |path[1..]| && path[1..][i].Key? && names.sensitiveKey(path[1..][i].key);
          assert path[i + 1] == path[1..][i];
        }
        if PassesSensitiveKey(path, names) {
          var i :| 0 <= i < |path| && path[i].Key? && names.sensitiveKey(path[i].key);
          assert i > 0 ==> path[1..][i - 1] == path[i];
        }
      }
      match path[0]
      case Key(k) =>
        if v.Obj? {
          RedactedMember(v.entries, names, k);
          if k in Keys(v.entries) && !names.sensitiveKey(k) {
            var i := KeyHasEntry(v.entries, k);
            RedactionByPlace(v.entries[i].value, names, path[1..]);
          }
        }
      case Index(i) =>
        if v.Arr? && i < |v.items| {
          RedactionByPlace(v.items[i], names, path[1..]);
        }
    }
  }

  /** Nothing sensitive can be read from the text as a web address. */
  ghost predicate IsClean(s: string, names: Names) {
    IsWebAddress(s) ==>
      && names.parse(s).Some?
      && forall p | p in names.paramsOf(names.parse(s).value.query) :: !names.sensitiveParam(p.name)
  }

  lemma RedactedIsClean(s: string, names: Names)
    requires PrintsFaithfully(names) && RedactUrl(s, names).Some?
    ensures IsClean(RedactUrl(s, names).value, names)
  {
    RedactedParams(s, names);
    if IsWebAddress(s) {
      SafeIsSafe(names.paramsOf(names.parse(s).value.query), names.sensitiveParam);
    }
  }

  /** What redaction leaves, at any place, lies below no sensitive key, and if it is a text it is clean. */
  lemma NothingSensitiveLeft(v: Json, names: Names, path: seq<Step>)
    requires WellFormed(v) && Redactable(v, names) && PrintsFaithfully(names)
    requires At(Redacted(v, names), path).Some?
    ensures !PassesSensitiveKey(path, names)
    ensures At(Redacted(v, names), path).value.Str? ==> IsClean(At(Redacted(v, names), path).value.s, names)
  {
    RedactionByPlace(v, names, path);
    var was := At(v, path).value;
    if was.Str? {
      RedactedIsClean(was.s, names);
    }
  }

  function SafeKeys(keys: seq<string>, sensitive: string -> bool): seq<string> {
    if keys == [] then []
    else (if sensitive(keys[0]) then [] else [keys[0]]) + SafeKeys(keys[1..], sensitive)
  }

  /** The keys that stay keep their order. */
  lemma {:induction false} RedactionKeepsOrder(entries: seq<Entry>, names: Names)
    requires EntriesRedactable(entries, names)
    ensures Keys(RedactedEntries(entries, names)) == SafeKeys(Keys(entries), names.sensitiveKey)
  {
    if entries != [] {
      RedactionKeepsOrder(entries[1..], names);
      assert Keys(entries) == [entries[0].key] + Keys(entries[1..]);
      assert Keys(entries)[1..] == Keys(entries[1..]);
    }
  }

  /** Redacting twice is redacting once, and never throws the second time. */
  lemma {:induction false} RedactionIdempotent(v: Json, names: Names)
    requires Redactable(v, names) && PrintsFaithfully(names)
    ensures Redactable(Redacted(v, names), names)
    ensures Redacted(Redacted(v, names), names) == Redacted(v, names)
    decreases v, 1
  {
    match v
    case Str(s) =>
      RedactUrlTwice(s, names);
    case Arr(items) =>
      var kept := Redacted(v, names).items;
      forall i | 0 <= i < |items|
        ensures Redactable(kept[i], names) && Redacted(kept[i], names) == kept[i]
      {
        RedactionIdempotent(items[i], names);
      }
      assert Redacted(Arr(kept), names).items == kept;
    case Obj(entries) =>
      EntriesIdempotent(entries, names);
    case _ =>
  }

  lemma {:induction false} EntriesIdempotent(entries: seq<Entry>, names: Names)
    requires EntriesRedactable(entries, names) && PrintsFaithfully(names)
    ensures EntriesRedactable(RedactedEntries(entries, names), names)
    ensures RedactedEntries(RedactedEntries(entries, names), names) == RedactedEntries(entries, names)
    decreases entries, 0
  {
    if entries != [] {
      EntriesIdempotent(entries[1..], names);
      if !names.sensitiveKey(entries[0].key) {
        RedactionIdempotent(entries[0].value, names);
        var kept := RedactedEntries(entries, names);
        assert kept[1..] == RedactedEntries(entries[1..], names);
        forall i | 0 <= i < |kept| && !names.sensitiveKey(kept[i].key) ensures Redactable(kept[i].value, names) {
          assert i > 0 ==> kept[i] == kept[1..][i - 1];
        }
      } else {
        assert RedactedEntries(entries, names) == RedactedEntries(entries[1..], names);
      }
    }
  }
}
