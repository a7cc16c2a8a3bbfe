/** The two argument parsers of the tools: an index-skipping loop (`cliArgs`) and a `flatMap` over all elements
    (`runProviderAcceptanceCli`). */
module CliArgs {
  import opened JsText

  predicate IsFlag(item: string) {
    StartsWith(item, "--")
  }

  /** `argv[index + 1] && !argv[index + 1].startsWith("--")`. */
  predicate HasValue(argv: seq<string>, i: nat) {
    i + 1 < |argv| && argv[i + 1] != "" && !IsFlag(argv[i + 1])
  }

  function ValueAt(argv: seq<string>, i: nat): string {
    if HasValue(argv, i) then argv[i + 1] else "true"
  }

  /** `Object.fromEntries` of the pairs of the first `n` elements: it defines every key, the last pair wins. */
  function FlatArgsUpTo(argv: seq<string>, n: nat): map<string, string>
    requires n <= |argv|
  {
    if n == 0 then map[]
    else if IsFlag(argv[n - 1]) then FlatArgsUpTo(argv, n - 1)[argv[n - 1][2..] := ValueAt(argv, n - 1)]
    else FlatArgsUpTo(argv, n - 1)
  }

  function FlatArgs(argv: seq<string>): map<string, string> {
    FlatArgsUpTo(argv, |argv|)
  }

  /** The loop skips the element it takes as a value; the result is that of the other form but for `__proto__`. */
  method LoopArgs(argv: seq<string>) returns (args: map<string, string>)
    ensures args == FlatArgs(argv) - {"__proto__"}
  {
    args := map[];
    var index := 0;
    while index < |argv|
      invariant index <= |argv|
      invariant args == FlatArgsUpTo(argv, index) - {PROTO}
    {
      var item := argv[index];
      if IsFlag(item) {
        ghost var before := FlatArgsUpTo(argv, index);
        args := Assign(args, item[2..], ValueAt(argv, index));
        assert FlatArgsUpTo(argv, index + 1) == before[item[2..] := ValueAt(argv, index)];
        if HasValue(argv, index) {
          index := index + 1;
          assert FlatArgsUpTo(argv, index + 1) == FlatArgsUpTo(argv, index);
        }
      }
      index := index + 1;
    }
  }

  /** Element `i` is the last flag for `key` among the first `n`. */
  ghost predicate LastFlag(argv: seq<string>, n: nat, key: string, i: nat) {
    i < n <= |argv| && argv[i] == "--" + key && forall j | i < j < n :: argv[j] != "--" + key
  }

  /** A flag's value: the next element, unless there is none, it is empty or is a flag itself; then `true`. */
  ghost function FlagValue(argv: seq<string>, i: nat): string
    requires i < |argv|
  {
    if i == |argv| - 1 then "true"
    else if |argv[i + 1]| == 0 then "true"
    else if |argv[i + 1]| >= 2 && argv[i + 1][0] == '-' && argv[i + 1][1] == '-' then "true"
    else argv[i + 1]
  }

  lemma ValueAtIs(argv: seq<string>, i: nat)
    requires i < |argv|
    ensures ValueAt(argv, i) == FlagValue(argv, i)
  {
    if i + 1 < |argv| {
      StartsIff(argv[i + 1], "--");
    }
  }

  /** A key is set exactly when its flag occurs, and its last occurrence gives the value. */
  lemma {:induction false} LastFlagWins(argv: seq<string>, n: nat, key: string)
    requires n <= |argv|
    ensures key in FlatArgsUpTo(argv, n) <==> exists i :: LastFlag(argv, n, key, i)
    ensures forall i | LastFlag(argv, n, key, i) :: FlatArgsUpTo(argv, n)[key] == FlagValue(argv, i)
  {
    if n > 0 {
      LastFlagWins(argv, n - 1, key);
      ValueAtIs(argv, n - 1);
      var item := argv[n - 1];
      assert IsFlag(item) ==> item == "--" + item[2..];
      if item == "--" + key {
        assert item[2..] == key;
        assert LastFlag(argv, n, key, n - 1);
      } else {
        assert IsFlag(item) ==> item[2..] != key;
        forall i ensures LastFlag(argv, n, key, i) <==> LastFlag(argv, n - 1, key, i) {
        }
        if key in FlatArgsUpTo(argv, n - 1) {
          var i :| LastFlag(argv, n - 1, key, i);
          assert LastFlag(argv, n, key, i);
        }
      }
    }
  }

  lemma {:induction false} SetIffFlagged(argv: seq<string>, n: nat, key: string)
    requires n <= |argv|
    ensures key in FlatArgsUpTo(argv, n) <==> "--" + key in argv[..n]
  {
    if n > 0 {
      SetIffFlagged(argv, n - 1, key);
      assert argv[..n] == argv[..n - 1] + [argv[n - 1]];
      assert IsFlag(argv[n - 1]) ==> argv[n - 1] == "--" + argv[n - 1][2..];
      assert ("--" + key)[2..] == key;
    }
  }

  /** The two parsers agree on an argument list exactly when it does not contain `--__proto__`. */
  lemma ParsersAgree(argv: seq<string>)
    ensures FlatArgs(argv) - {"__proto__"} == FlatArgs(argv) <==> "--__proto__" !in argv
  {
    SetIffFlagged(argv, |argv|, PROTO);
    assert "--" + PROTO == "--__proto__";
    assert argv[..|argv|] == argv;
    var flat := FlatArgs(argv);
    if PROTO !in flat {
      assert flat - {PROTO} == flat;
    } else {
      assert PROTO !in flat - {PROTO};
    }
  }
}
