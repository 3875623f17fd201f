/**
  parseArgs of the command-line processor: scans the argument list for
  `--input=`, `--output=` and `--format=` and validates what it found.
*/
module ArgParser {
  import opened Wrappers
  import opened Text

  const InputPrefix: string := "--input="
  const OutputPrefix: string := "--output="
  const FormatPrefix: string := "--format="

  /** The two report formats `--format` accepts. */
  datatype OutputFormat = JsonFormat | TextFormat

  /** The two thrown errors: a bad `--format` value, and a missing input or output. */
  datatype ParseError = InvalidFormat | MissingInputOrOutput

  /** The partially filled parameter record built up during the scan. */
  datatype Params = Params(input: Option<string>, output: Option<string>, format: Option<OutputFormat>)

  /** The validated result: input and output are present. */
  datatype Args = Args(input: string, output: string, format: Option<OutputFormat>)

  function FormatName(f: OutputFormat): string {
    match f
    case JsonFormat => "json"
    case TextFormat => "text"
  }

  function FormatNameOf(f: Option<OutputFormat>): Option<string> {
    match f
    case None => None
    case Some(g) => Some(FormatName(g))
  }

  /** A flag prefix: a name free of `=`, followed by `=`. */
  predicate IsFlagPrefix(prefix: string) {
    |prefix| > 0 && prefix[|prefix| - 1] == '=' && '=' !in prefix[..|prefix| - 1]
  }

  lemma FlagPrefixes()
    ensures IsFlagPrefix(InputPrefix) && IsFlagPrefix(OutputPrefix) && IsFlagPrefix(FormatPrefix)
  {
  }

  /** `arg.split("=")[1]`: the text between the first and the second `=`, which holds no `=`. */
  function FlagValue(arg: string): (v: string)
    requires '=' in arg
    ensures '=' !in v
  {
    Split(arg, '=')[1]
  }

  /**
    Where the value sits in `arg`: right after the first `=` (the text before
    it is the first field), running to the end of `arg` or to the second `=`.
  */
  lemma FlagValueSpan(arg: string)
    requires '=' in arg
    ensures var k := |Split(arg, '=')[0]| + 1;
      var v := FlagValue(arg);
      && k <= |arg| && arg[k - 1] == '='
      && v <= arg[k..]
      && (k + |v| == |arg| || arg[k + |v|] == '=')
  {
    var head := Split(arg, '=')[0];
    FirstFieldIsLongestPrefix(arg, '=');
    assert arg[..|head|] == head;
    var rest := arg[|head| + 1..];
    assert arg == head + ['='] + rest;
    SplitAtFirstSeparator(head, rest, '=');
    FirstFieldIsLongestPrefix(rest, '=');
  }

  /** The value `arg` gives the flag `prefix`, if `arg` starts with it. */
  function Matched(arg: string, prefix: string): (v: Option<string>)
    requires IsFlagPrefix(prefix)
    ensures v.Some? <==> StartsWith(arg, prefix)
  {
    if StartsWith(arg, prefix) then
      assert arg[|prefix| - 1] == '=';
      Some(FlagValue(arg))
    else None
  }

  /**
    The value of `prefix + rest` is the part of `rest` before its first `=`:
    `--input=a=b` gives `a`.
  */
  lemma MatchedValueStopsAtEquals(prefix: string, rest: string)
    requires IsFlagPrefix(prefix)
    ensures Matched(prefix + rest, prefix) == Some(Split(rest, '=')[0])
    ensures var v := Matched(prefix + rest, prefix).value;
      v <= rest && '=' !in v && (v == rest || rest[|v|] == '=')
  {
    var name := prefix[..|prefix| - 1];
    assert prefix + rest == name + ['='] + rest;
    assert (prefix + rest)[..|prefix|] == prefix;
    SplitAtFirstSeparator(name, rest, '=');
    FirstFieldIsLongestPrefix(rest, '=');
  }

  /** `arg` is a `--format=` whose value is neither "json" nor "text". */
  predicate BadFormat(arg: string) {
    && StartsWith(arg, FormatPrefix)
    && Matched(arg, FormatPrefix).value != "json"
    && Matched(arg, FormatPrefix).value != "text"
  }

  /** `m` overrides `v` when the argument sets the flag. */
  function Override(m: Option<string>, v: Option<string>): Option<string> {
    if m.Some? then m else v
  }

  /**
    One step of `args.forEach`: the three `if`s of the loop body, in order.
    A bad format value throws; otherwise every flag the argument sets takes
    its value, and every other field is kept.
  */
  function Step(p: Params, arg: string): (r: Result<Params, ParseError>)
    ensures r.Failure? <==> BadFormat(arg)
    ensures r.Failure? ==> r.error == InvalidFormat
    ensures r.Success? ==>
      && r.value.input == Override(Matched(arg, InputPrefix), p.input)
      && r.value.output == Override(Matched(arg, OutputPrefix), p.output)
      && FormatNameOf(r.value.format) == Override(Matched(arg, FormatPrefix), FormatNameOf(p.format))
  {
    FlagPrefixes();
    var p1 := if StartsWith(arg, InputPrefix) then p.(input := Matched(arg, InputPrefix)) else p;
    var p2 := if StartsWith(arg, OutputPrefix) then p1.(output := Matched(arg, OutputPrefix)) else p1;
    if StartsWith(arg, FormatPrefix) then
      var fmt := Matched(arg, FormatPrefix).value;
      if fmt == "json" then Success(p2.(format := Some(JsonFormat)))
      else if fmt == "text" then Success(p2.(format := Some(TextFormat)))
      else Failure(InvalidFormat)
    else Success(p2)
  }

  // ---- the declarative reading of the scan ----

  /** `i` is the last argument that sets the flag `prefix`. */
  ghost predicate IsLastMatch(args: seq<string>, prefix: string, i: int)
    requires IsFlagPrefix(prefix)
  {
    && 0 <= i < |args|
    && Matched(args[i], prefix).Some?
    && forall j :: i < j < |args| ==> Matched(args[j], prefix).None?
  }

  /** The flag `prefix` ends up as `v`: unset if no argument sets it, else the last setting. */
  ghost predicate LastValue(args: seq<string>, prefix: string, v: Option<string>)
    requires IsFlagPrefix(prefix)
  {
    match v
    case None => forall i :: 0 <= i < |args| ==> Matched(args[i], prefix).None?
    case Some(x) => exists i :: IsLastMatch(args, prefix, i) && Matched(args[i], prefix).value == x
  }

  /** Argument `i` is a `--format=` whose value is neither "json" nor "text". */
  ghost predicate BadFormatAt(args: seq<string>, i: int) {
    0 <= i < |args| && BadFormat(args[i])
  }

  ghost predicate HasBadFormat(args: seq<string>) {
    exists i :: BadFormatAt(args, i)
  }

  /** The last setting of `prefix` exists and is not empty. */
  ghost predicate ProvidesNonEmpty(args: seq<string>, prefix: string)
    requires IsFlagPrefix(prefix)
  {
    exists i :: IsLastMatch(args, prefix, i) && Matched(args[i], prefix).value != ""
  }

  lemma LastMatchUnique(args: seq<string>, prefix: string, i: int, j: int)
    requires IsFlagPrefix(prefix)
    requires IsLastMatch(args, prefix, i) && IsLastMatch(args, prefix, j)
    ensures i == j
  {
  }

  lemma LastValueSnoc(args: seq<string>, prefix: string, v: Option<string>)
    requires IsFlagPrefix(prefix) && |args| > 0
    requires LastValue(args[..|args| - 1], prefix, v)
    ensures LastValue(args, prefix, Override(Matched(args[|args| - 1], prefix), v))
  {
    var n := |args| - 1;
    if Matched(args[n], prefix).None? {
      if v.None? {
        UnsetSnoc(args, prefix);
      } else {
        KeptSnoc(args, prefix, v.value);
      }
    } else {
      assert IsLastMatch(args, prefix, n);
    }
  }

  lemma UnsetSnoc(args: seq<string>, prefix: string)
    requires IsFlagPrefix(prefix) && |args| > 0
    requires LastValue(args[..|args| - 1], prefix, None)
    requires Matched(args[|args| - 1], prefix).None?
    ensures LastValue(args, prefix, None)
  {
    var init := args[..|args| - 1];
    forall i | 0 <= i < |args|
      ensures Matched(args[i], prefix).None?
    {
      if i < |args| - 1 {
        assert init[i] == args[i];
      }
    }
  }

  lemma KeptSnoc(args: seq<string>, prefix: string, x: string)
    requires IsFlagPrefix(prefix) && |args| > 0
    requires LastValue(args[..|args| - 1], prefix, Some(x))
    requires Matched(args[|args| - 1], prefix).None?
    ensures LastValue(args, prefix, Some(x))
  {
    var init := args[..|args| - 1];
    var i :| IsLastMatch(init, prefix, i) && Matched(init[i], prefix).value == x;
    assert init[i] == args[i];
    forall j | i < j < |args|
      ensures Matched(args[j], prefix).None?
    {
      if j < |args| - 1 {
        assert init[j] == args[j];
      }
    }
    assert IsLastMatch(args, prefix, i);
  }

  lemma BadFormatSnoc(args: seq<string>)
    requires |args| > 0
    ensures HasBadFormat(args) <==> HasBadFormat(args[..|args| - 1]) || BadFormatAt(args, |args| - 1)
  {
    var init := args[..|args| - 1];
    if HasBadFormat(init) {
      var i :| BadFormatAt(init, i);
      assert init[i] == args[i];
      assert BadFormatAt(args, i);
    }
    if HasBadFormat(args) {
      var i :| BadFormatAt(args, i);
      if i < |args| - 1 {
        assert init[i] == args[i];
        assert BadFormatAt(init, i);
      }
    }
  }

  /** `args.forEach(...)`: the loop body applied to each argument, left to right. */
  function Scan(args: seq<string>): (r: Result<Params, ParseError>)
    ensures r.Failure? ==> r.error == InvalidFormat
    decreases |args|
  {
    if |args| == 0 then Success(Params(None, None, None))
    else
      match Scan(args[..|args| - 1])
      case Failure(e) => Failure(e)
      case Success(p) => Step(p, args[|args| - 1])
  }

  /**
    The scan fails exactly when some `--format=` has a bad value, and
    otherwise each field holds the value of the last argument that sets it.
  */
  lemma {:induction false} ScanSpec(args: seq<string>)
    ensures Scan(args).Failure? <==> HasBadFormat(args)
    ensures Scan(args).Success? ==>
      && LastValue(args, InputPrefix, Scan(args).value.input)
      && LastValue(args, OutputPrefix, Scan(args).value.output)
      && LastValue(args, FormatPrefix, FormatNameOf(Scan(args).value.format))
    decreases |args|
  {
    FlagPrefixes();
    if |args| > 0 {
      var init := args[..|args| - 1];
      ScanSpec(init);
      BadFormatSnoc(args);
      var last := args[|args| - 1];
      match Scan(init)
      case Failure(_) =>
      case Success(p) =>
        var r := Step(p, last);
        assert Scan(args) == r;
        LastValueSnoc(args, InputPrefix, p.input);
        LastValueSnoc(args, OutputPrefix, p.output);
        LastValueSnoc(args, FormatPrefix, FormatNameOf(p.format));
        assert r.Failure? <==> BadFormatAt(args, |args| - 1);
        if r.Success? {
          assert r.value.input == Override(Matched(last, InputPrefix), p.input);
          assert r.value.output == Override(Matched(last, OutputPrefix), p.output);
          assert FormatNameOf(r.value.format)
              == Override(Matched(last, FormatPrefix), FormatNameOf(p.format));
        }
    }
  }

  /** The check after the loop: input and output must be present and non-empty. */
  function Finish(scanned: Result<Params, ParseError>): (r: Result<Args, ParseError>)
    ensures r.Success? ==> r.value.input != "" && r.value.output != ""
    ensures scanned.Failure? ==> r == Failure(scanned.error)
    ensures scanned.Success? ==> r != Failure(InvalidFormat)
    ensures scanned.Success? ==>
      var p := scanned.value;
      ((r == Failure(MissingInputOrOutput))
        <==> (!(p.input.Some? && p.input.value != "") || !(p.output.Some? && p.output.value != "")))
    ensures r.Success? ==>
      && scanned.value.input == Some(r.value.input)
      && scanned.value.output == Some(r.value.output)
      && scanned.value.format == r.value.format
  {
    match scanned
    case Failure(e) => Failure(e)
    case Success(p) =>
      if p.input.None? || p.input.value == "" || p.output.None? || p.output.value == "" then
        Failure(MissingInputOrOutput)
      else
        Success(Args(p.input.value, p.output.value, p.format))
  }

  /** parseArgs: the scan, then the check for input and output. */
  function ParseArgs(args: seq<string>): (r: Result<Args, ParseError>)
    ensures r.Success? ==> r.value.input != "" && r.value.output != ""
  {
    Finish(Scan(args))
  }

  /**
    What parseArgs returns, in terms of the arguments alone. A bad `--format`
    is reported even when input or output is also missing, because it is
    thrown during the scan; otherwise a missing or empty input or output is
    an error; otherwise each field is the last value given for it.
  */
  lemma ParseArgsSpec(args: seq<string>)
    ensures ParseArgs(args) == Failure(InvalidFormat) <==> HasBadFormat(args)
    ensures ParseArgs(args) == Failure(MissingInputOrOutput)
        <==> !HasBadFormat(args)
             && (!ProvidesNonEmpty(args, InputPrefix) || !ProvidesNonEmpty(args, OutputPrefix))
    ensures ParseArgs(args).Success? ==>
      && LastValue(args, InputPrefix, Some(ParseArgs(args).value.input))
      && LastValue(args, OutputPrefix, Some(ParseArgs(args).value.output))
      && LastValue(args, FormatPrefix, FormatNameOf(ParseArgs(args).value.format))
  {
    FlagPrefixes();
    ScanSpec(args);
    match Scan(args)
    case Failure(_) =>
    case Success(p) =>
      assert ParseArgs(args) == Finish(Success(p));
      MissingMeansNotProvided(args, InputPrefix, p.input);
      MissingMeansNotProvided(args, OutputPrefix, p.output);
  }

  lemma MissingMeansNotProvided(args: seq<string>, prefix: string, v: Option<string>)
    requires IsFlagPrefix(prefix)
    requires LastValue(args, prefix, v)
    ensures ProvidesNonEmpty(args, prefix) <==> v.Some? && v.value != ""
  {
    if ProvidesNonEmpty(args, prefix) {
      var i :| IsLastMatch(args, prefix, i) && Matched(args[i], prefix).value != "";
      if v.Some? {
        var j :| IsLastMatch(args, prefix, j) && Matched(args[j], prefix).value == v.value;
        LastMatchUnique(args, prefix, i, j);
      }
    }
  }

  // ---- properties of the whole parse ----

  /** An argument that starts with none of the three flags. */
  predicate Unrelated(arg: string) {
    !StartsWith(arg, InputPrefix) && !StartsWith(arg, OutputPrefix) && !StartsWith(arg, FormatPrefix)
  }

  lemma DiffersAt(s: string, p: string, k: nat)
    requires k < |s| && k < |p| && s[k] != p[k]
    ensures !StartsWith(s, p)
  {
  }

  /** Arguments that set no flag, such as "ts-node" or a script path, change nothing. */
  lemma {:induction false} IgnoresUnrelatedArgs(xs: seq<string>, a: string, ys: seq<string>)
    requires Unrelated(a)
    ensures Scan(xs + [a] + ys) == Scan(xs + ys)
    ensures ParseArgs(xs + [a] + ys) == ParseArgs(xs + ys)
    decreases |ys|
  {
    if |ys| == 0 {
      assert xs + [a] + ys == xs + [a];
      assert (xs + [a])[..|xs|] == xs;
      assert xs + ys == xs;
    } else {
      var with := xs + [a] + ys;
      var without := xs + ys;
      assert with[..|with| - 1] == xs + [a] + ys[..|ys| - 1];
      assert without[..|without| - 1] == xs + ys[..|ys| - 1];
      assert with[|with| - 1] == without[|without| - 1];
      IgnoresUnrelatedArgs(xs, a, ys[..|ys| - 1]);
    }
  }

  /**
    A later `--input=` overrides earlier ones: appending one to a successful
    parse replaces the input by the new value (or makes the input missing,
    when that value is empty) and keeps everything else.
  */
  lemma LastInputWins(args: seq<string>, rest: string)
    requires ParseArgs(args).Success?
    ensures var v := Matched(InputPrefix + rest, InputPrefix).value;
      ParseArgs(args + [InputPrefix + rest])
      == if v == "" then Failure(MissingInputOrOutput)
         else Success(ParseArgs(args).value.(input := v))
  {
    var arg := InputPrefix + rest;
    var all := args + [arg];
    assert all[..|all| - 1] == args;
    assert arg[..|InputPrefix|] == InputPrefix;
    assert !StartsWith(arg, OutputPrefix) by {
      assert arg[2] == 'i';
    }
    assert !StartsWith(arg, FormatPrefix) by {
      assert arg[2] == 'i';
    }
  }

  /** Everything from the second `=` on is dropped: `prefix + x + "=" + y` gives `x`. */
  lemma ValueEndsAtSecondEquals(prefix: string, x: string, y: string)
    requires IsFlagPrefix(prefix) && '=' !in x
    ensures Matched(prefix + x + "=" + y, prefix) == Some(x)
  {
    assert prefix + x + "=" + y == prefix + (x + ['='] + y);
    MatchedValueStopsAtEquals(prefix, x + ['='] + y);
    SplitAtFirstSeparator(x, y, '=');
  }

  /** The value of `--input=a=b` is "a". */
  lemma SecondEqualsTruncates()
    ensures Matched("--input=a=b", InputPrefix) == Some("a")
  {
    FlagPrefixes();
    assert "--input=a=b" == InputPrefix + "a" + "=" + "b";
    ValueEndsAtSecondEquals(InputPrefix, "a", "b");
  }

  /** A value free of `=` comes back whole. */
  lemma MatchedWholeValue(prefix: string, rest: string)
    requires IsFlagPrefix(prefix) && '=' !in rest
    ensures Matched(prefix + rest, prefix) == Some(rest)
  {
    MatchedValueStopsAtEquals(prefix, rest);
  }

  lemma ScanInputThenOutput(i: string, o: string)
    requires '=' !in i && '=' !in o
    ensures Scan([InputPrefix + i, OutputPrefix + o]) == Success(Params(Some(i), Some(o), None))
  {
    FlagPrefixes();
    var a1, a2 := InputPrefix + i, OutputPrefix + o;
    MatchedWholeValue(InputPrefix, i);
    MatchedWholeValue(OutputPrefix, o);
    assert a1[2] == 'i' && a2[2] == 'o';
    assert !StartsWith(a1, OutputPrefix) && !StartsWith(a1, FormatPrefix);
    assert !StartsWith(a2, InputPrefix) && !StartsWith(a2, FormatPrefix);
    var first: seq<string> := [a1];
    assert first[..0] == [];
    assert Scan(first) == Success(Params(Some(i), None, None));
    assert [a1, a2][..1] == first;
  }

  /**
    A typical invocation, `ts-node src/cli.ts --input=<i> --output=<o>`,
    yields exactly that input and output and no format.
  */
  lemma TypicalInvocation(i: string, o: string)
    requires i != "" && o != "" && '=' !in i && '=' !in o
    ensures ParseArgs(["ts-node", "src/cli.ts", InputPrefix + i, OutputPrefix + o])
         == Success(Args(i, o, None))
  {
    var runner, script := "ts-node", "src/cli.ts";
    var a1, a2 := InputPrefix + i, OutputPrefix + o;
    FlagPrefixes();
    DiffersAt(runner, InputPrefix, 0);
    DiffersAt(runner, OutputPrefix, 0);
    DiffersAt(runner, FormatPrefix, 0);
    DiffersAt(script, InputPrefix, 0);
    DiffersAt(script, OutputPrefix, 0);
    DiffersAt(script, FormatPrefix, 0);
    IgnoresUnrelatedArgs([], runner, [script, a1, a2]);
    assert [] + [runner] + [script, a1, a2] == [runner, script, a1, a2];
    assert [] + [script, a1, a2] == [script, a1, a2];
    IgnoresUnrelatedArgs([], script, [a1, a2]);
    assert [] + [script] + [a1, a2] == [script, a1, a2];
    assert [] + [a1, a2] == [a1, a2];
    ScanInputThenOutput(i, o);
    assert ParseArgs([a1, a2]) == Finish(Success(Params(Some(i), Some(o), None)));
  }

  /**
    A bad `--format` is the error reported even when input and output are
    also missing.
  */
  lemma FormatErrorTakesPrecedence()
    ensures ParseArgs(["--format=xml"]) == Failure(InvalidFormat)
  {
    var rest := "xml";
    assert "--format=xml" == FormatPrefix + rest;
    FlagPrefixes();
    MatchedWholeValue(FormatPrefix, rest);
    var arg := FormatPrefix + rest;
    var only: seq<string> := [arg];
    assert only[..0] == [];
    assert BadFormat(arg);
  }
}
