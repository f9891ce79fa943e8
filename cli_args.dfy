/**
 * The `dui` argument parser: long options `--key`, `--key=value` and
 * `--key value`, the short options of `create-app`, positional arguments,
 * and `--` ending option processing.
 */
module CliArgs {
  import opened Js
  import opened Text

  /**
   * The parser's result object: the positional arguments (`_`) and every
   * other key set on it. A key never set reads `undefined`.
   */
  datatype Parsed = Parsed(positional: seq<string>, flags: map<string, JsValue>) {
    function Get(key: string): JsValue {
      if key in flags then flags[key] else Undefined
    }

    function Set(key: string, v: JsValue): (r: Parsed)
      ensures r.positional == positional
      ensures r.Get(key) == v
      ensures forall k :: k != key ==> r.Get(k) == Get(k)
      ensures r.flags.Keys == flags.Keys + {key}
    {
      Parsed(positional, flags[key := v])
    }

    function Push(args: seq<string>): (r: Parsed)
      ensures r.positional == positional + args && r.flags == flags
    {
      Parsed(positional + args, flags)
    }
  }

  const Empty: Parsed := Parsed([], map[])

  /** The key of a long option: the text between `--` and the first `=`, trimmed. */
  function LongKey(arg: string): string
    requires |arg| >= 2
  {
    Trim(TakeUntil(arg[2..], '='))
  }

  /**
   * The inline value of a long option: the text between the first and the
   * second `=` (`split('=')` keeps only that piece), if there is an `=`.
   */
  function LongValue(arg: string): (r: Option<string>)
    requires |arg| >= 2
    ensures r.Some? <==> '=' in arg[2..]
    ensures r.Some? ==> '=' !in r.value
  {
    match AfterFirst(arg[2..], '=')
    case None => None
    case Some(rest) => Some(TakeUntil(rest, '='))
  }

  /** The short options that take the following argument as their value. */
  function ShortValueKey(arg: string): (r: Option<string>)
    ensures r.Some? ==> r.value in ShortValueKeys
  {
    if arg == "-n" then Some("name")
    else if arg == "-d" then Some("dir")
    else if arg == "-i" then Some("app-id")
    else if arg == "-a" then Some("accent")
    else if arg == "-t" then Some("theme")
    else if arg == "-I" then Some("icon")
    else if arg == "-p" then Some("page")
    else if arg == "-D" then Some("description")
    else if arg == "-o" then Some("git-remote")
    else None
  }

  const ShortValueKeys: seq<string> :=
    ["name", "dir", "app-id", "accent", "theme", "icon", "page", "description", "git-remote"]

  /** The short options that set a key to `true`. */
  function ShortFlagKey(arg: string): Option<string> {
    if arg == "-y" then Some("yes")
    else if arg == "-h" then Some("help")
    else if arg == "-s" then Some("signing")
    else if arg == "-r" then Some("apk-action")
    else if arg == "-g" then Some("git-init")
    else None
  }

  /** One turn of the parser's loop: how many arguments it consumes and the new result. */
  datatype Next = Next(consumed: nat, parsed: Parsed)

  /** A turn on a long option `--key[=value]`. */
  function LongStep(rest: seq<string>, p: Parsed): (r: Next)
    requires rest != [] && |rest[0]| >= 2
    ensures 1 <= r.consumed <= |rest|
    ensures r.parsed.positional == p.positional
    ensures p.flags.Keys <= r.parsed.flags.Keys
  {
    var arg := rest[0];
    var key := LongKey(arg);
    var takesNext := LongValue(arg).None? && 1 < |rest| && !StartsWith(rest[1], "-");
    var value := if takesNext then Some(rest[1]) else LongValue(arg);
    var q :=
      if key == "signing" then p.Set("signing", Bool(true))
      else if key == "no-signing" then p.Set("signing", Bool(false))
      else p.Set(key, if value.Some? then Str(value.value) else Bool(true));
    Next(if takesNext then 2 else 1, q)
  }

  /** A turn on a short option `-x`. */
  function ShortStep(rest: seq<string>, p: Parsed): (r: Next)
    requires rest != []
    ensures 1 <= r.consumed <= |rest|
    ensures r.parsed.positional == p.positional
    ensures p.flags.Keys <= r.parsed.flags.Keys
  {
    var arg := rest[0];
    if ShortValueKey(arg).Some? && 1 < |rest| then
      Next(2, p.Set(ShortValueKey(arg).value, Str(rest[1])))
    else if ShortFlagKey(arg).Some? then
      Next(1, p.Set(ShortFlagKey(arg).value, Bool(true)))
    else
      Next(1, p)
  }

  function Step(rest: seq<string>, p: Parsed): (r: Next)
    requires rest != [] && rest[0] != "--"
    ensures 1 <= r.consumed <= |rest|
    ensures p.positional <= r.parsed.positional && p.flags.Keys <= r.parsed.flags.Keys
  {
    var arg := rest[0];
    if StartsWith(arg, "--") then LongStep(rest, p)
    else if StartsWith(arg, "-") && |arg| > 1 then ShortStep(rest, p)
    else Next(1, p.Push([arg]))
  }

  /**
   * The parser run on the arguments not yet consumed, starting from `p`:
   * it only ever appends to `_` and never unsets a key.
   */
  function ParseFrom(rest: seq<string>, p: Parsed): (r: Parsed)
    ensures p.positional <= r.positional && p.flags.Keys <= r.flags.Keys
    decreases |rest|
  {
    if rest == [] then p
    else if rest[0] == "--" then p.Push(rest[1..])
    else
      var n := Step(rest, p);
      ParseFrom(rest[n.consumed..], n.parsed)
  }

  /** `parseArgs(args)`. */
  method ParseArgs(args: seq<string>) returns (parsed: Parsed)
    ensures parsed == ParseFrom(args, Empty)
  {
    parsed := Empty;
    var idx := 0;
    while idx < |args|
      invariant idx <= |args|
      invariant ParseFrom(args[idx..], parsed) == ParseFrom(args, Empty)
      decreases |args| - idx
    {
      var arg := args[idx];
      ghost var rest := args[idx..];
      ghost var before := parsed;
      assert rest[0] == arg;

      if arg == "--" {
        parsed := parsed.Push(args[idx + 1..]);
        assert rest[1..] == args[idx + 1..];
        return;
      }

      if StartsWith(arg, "--") {
        var key := LongKey(arg);
        var value := LongValue(arg);
        var taken := false;
        if value.None? && idx + 1 < |args| && !StartsWith(args[idx + 1], "-") {
          value := Some(args[idx + 1]);
          idx := idx + 1;
          taken := true;
        }
        if key == "signing" {
          parsed := parsed.Set("signing", Bool(true));
        } else if key == "no-signing" {
          parsed := parsed.Set("signing", Bool(false));
        } else {
          parsed := parsed.Set(key, if value.Some? then Str(value.value) else Bool(true));
        }
        idx := idx + 1;
        assert LongStep(rest, before) == Next(if taken then 2 else 1, parsed);
        assert rest[Step(rest, before).consumed..] == args[idx..];
        continue;
      }

      if StartsWith(arg, "-") && |arg| > 1 {
        var valueKey := ShortValueKey(arg);
        if valueKey.Some? && idx + 1 < |args| {
          parsed := parsed.Set(valueKey.value, Str(args[idx + 1]));
          idx := idx + 2;
          assert rest[2..] == args[idx..];
          continue;
        }
        var flagKey := ShortFlagKey(arg);
        if flagKey.Some? {
          parsed := parsed.Set(flagKey.value, Bool(true));
        }
        idx := idx + 1;
        assert rest[1..] == args[idx..];
        continue;
      }

      parsed := parsed.Push([arg]);
      idx := idx + 1;
      assert rest[1..] == args[idx..];
    }
  }

  /* ---------------------------------------------------------------- */
  /* Properties                                                       */
  /* ---------------------------------------------------------------- */

  /** `--` ends option processing: everything after it is positional, verbatim. */
  lemma DoubleDashRest(tail: seq<string>, p: Parsed)
    ensures ParseFrom(["--"] + tail, p) == p.Push(tail)
  {
    assert (["--"] + tail)[1..] == tail;
  }

  /** A plain long-option key: no `=` and no surrounding whitespace. */
  predicate PlainKey(k: string) {
    '=' !in k && Trim(k) == k
  }

  /** One turn of the loop unfolded. */
  lemma ParseFromStep(rest: seq<string>, p: Parsed)
    requires rest != [] && rest[0] != "--"
    ensures ParseFrom(rest, p) == ParseFrom(rest[Step(rest, p).consumed..], Step(rest, p).parsed)
  {
  }

  lemma DashPrefix(k: string)
    ensures StartsWith("--" + k, "--") && ("--" + k)[2..] == k
    ensures "--" + k != "--" <==> k != []
  {
    assert ("--" + k)[..2] == "--";
  }

  lemma LongPartsBare(k: string)
    requires PlainKey(k)
    ensures LongKey("--" + k) == k && LongValue("--" + k) == None
  {
    DashPrefix(k);
    TakeUntilAbsent(k, '=');
  }

  lemma LongPartsInline(k: string, inline: string)
    requires PlainKey(k)
    ensures LongKey("--" + k + "=" + inline) == k
    ensures LongValue("--" + k + "=" + inline) == Some(TakeUntil(inline, '='))
  {
    var x := "--" + k + "=" + inline;
    var body := k + ['='] + inline;
    InlineBody(k, inline);
    TakeUntilSeparated(k, '=', inline);
    assert LongKey(x) == Trim(TakeUntil(body, '='));
    assert AfterFirst(body, '=') == Some(inline);
  }

  lemma InlineBody(k: string, inline: string)
    ensures |"--" + k + "=" + inline| >= 2
    ensures ("--" + k + "=" + inline)[2..] == k + ['='] + inline
  {
    assert "--" + k + "=" + inline == "--" + (k + ['='] + inline);
    DashPrefix(k + ['='] + inline);
  }

  /** `--key=a=b` sets `key` to `a`: whatever follows a second `=` is dropped. */
  lemma LongInlineValue(k: string, a: string, b: string, tail: seq<string>, p: Parsed)
    requires PlainKey(k) && k != "signing" && k != "no-signing" && '=' !in a
    ensures ParseFrom(["--" + k + "=" + a + "=" + b] + tail, p) == ParseFrom(tail, p.Set(k, Str(a)))
  {
    var inline := a + "=" + b;
    var x := "--" + k + "=" + inline;
    assert x == "--" + k + "=" + a + "=" + b;
    LongPartsInline(k, inline);
    TakeUntilSeparated(a, '=', b);
    LongInlineStep(k, inline, tail, p);
  }

  /** `--key=a` sets `key` to `a` and consumes nothing else. */
  lemma LongInlineStep(k: string, inline: string, tail: seq<string>, p: Parsed)
    requires PlainKey(k) && k != "signing" && k != "no-signing"
    ensures ParseFrom(["--" + k + "=" + inline] + tail, p) == ParseFrom(tail, p.Set(k, Str(TakeUntil(inline, '='))))
  {
    var x := "--" + k + "=" + inline;
    var rest := [x] + tail;
    assert x == "--" + (k + "=" + inline);
    DashPrefix(k + "=" + inline);
    LongPartsInline(k, inline);
    assert rest[0] == x && rest[0] != "--";
    LongStepInline(rest, p);
    ParseFromStep(rest, p);
    assert rest[1..] == tail;
  }

  /** A long option with an inline value consumes only itself. */
  lemma LongStepInline(rest: seq<string>, p: Parsed)
    requires rest != [] && |rest[0]| >= 2 && LongValue(rest[0]).Some?
    requires LongKey(rest[0]) != "signing" && LongKey(rest[0]) != "no-signing"
    ensures LongStep(rest, p) == Next(1, p.Set(LongKey(rest[0]), Str(LongValue(rest[0]).value)))
  {
  }

  /** A long option without inline value and without a value to take becomes `true`. */
  lemma LongStepBare(rest: seq<string>, p: Parsed)
    requires rest != [] && |rest[0]| >= 2 && LongValue(rest[0]).None?
    requires |rest| == 1 || StartsWith(rest[1], "-")
    requires LongKey(rest[0]) != "signing" && LongKey(rest[0]) != "no-signing"
    ensures LongStep(rest, p) == Next(1, p.Set(LongKey(rest[0]), Bool(true)))
  {
  }

  /** `--key value` takes the next argument as the value when it does not start with `-`. */
  lemma LongNextValue(k: string, v: string, tail: seq<string>, p: Parsed)
    requires PlainKey(k) && k != [] && k != "signing" && k != "no-signing" && !StartsWith(v, "-")
    ensures ParseFrom(["--" + k, v] + tail, p) == ParseFrom(tail, p.Set(k, Str(v)))
  {
    var rest := ["--" + k, v] + tail;
    DashPrefix(k);
    LongPartsBare(k);
    assert rest[0] == "--" + k && rest[1] == v;
    assert rest[0] != "--";
    assert LongStep(rest, p) == Next(2, p.Set(k, Str(v)));
    ParseFromStep(rest, p);
    assert rest[2..] == tail;
  }

  /** A long option with no value to take becomes `true`. */
  lemma LongBareFlag(k: string, tail: seq<string>, p: Parsed)
    requires PlainKey(k) && k != [] && k != "signing" && k != "no-signing"
    requires tail == [] || StartsWith(tail[0], "-")
    ensures ParseFrom(["--" + k] + tail, p) == ParseFrom(tail, p.Set(k, Bool(true)))
  {
    var rest := ["--" + k] + tail;
    DashPrefix(k);
    LongPartsBare(k);
    assert rest[0] == "--" + k && rest[0] != "--";
    assert |rest| > 1 ==> rest[1] == tail[0];
    LongStepBare(rest, p);
    ParseFromStep(rest, p);
    assert rest[1..] == tail;
  }

  /**
   * `--signing` sets `signing` to `true` whatever its value, and still
   * swallows a following argument that does not start with `-`.
   */
  lemma SigningSwallowsNext(v: string, tail: seq<string>, p: Parsed)
    requires !StartsWith(v, "-")
    ensures ParseFrom(["--signing", v] + tail, p) == ParseFrom(tail, p.Set("signing", Bool(true)))
  {
    var k := SigningKey();
    var rest := ["--" + k, v] + tail;
    DashPrefix(k);
    LongPartsBare(k);
    assert rest[0] == "--" + k && rest[0] != "--";
    assert LongStep(rest, p) == Next(2, p.Set("signing", Bool(true)));
    ParseFromStep(rest, p);
    assert rest[2..] == tail;
  }

  lemma NoSigningKey() returns (k: string)
    ensures k == "no-signing" && "--" + k == "--no-signing" && PlainKey(k) && k != []
  {
    k := "no-signing";
    NoSigningChars(k);
    TrimNoSpaceEnds(k);
    NoSigningDashed(k);
  }

  lemma NoSigningChars(k: string)
    requires k == "no-signing"
    ensures '=' !in k && !IsSpace(k[0]) && !IsSpace(k[|k| - 1])
  {
    assert forall i :: 0 <= i < |k| ==> k[i] != '=';
  }

  lemma NoSigningDashed(k: string)
    requires k == "no-signing"
    ensures "--" + k == "--no-signing"
  {
  }

  /** `--no-signing` followed by an option, or by nothing, sets signing to false. */
  lemma NoSigningTurnsOff(tail: seq<string>, p: Parsed)
    requires tail == [] || StartsWith(tail[0], "-")
    ensures ParseFrom(["--no-signing"] + tail, p) == ParseFrom(tail, p.Set("signing", Bool(false)))
  {
    var k := NoSigningKey();
    var rest := ["--" + k] + tail;
    DashPrefix(k);
    LongPartsBare(k);
    assert rest[0] == "--" + k && rest[0] != "--";
    assert |rest| > 1 ==> rest[1] == tail[0];
    assert LongStep(rest, p) == Next(1, p.Set("signing", Bool(false)));
    ParseFromStep(rest, p);
    assert rest[1..] == tail;
  }

  /** `--no-signing foo` sets signing to false and discards `foo`. */
  lemma NoSigningSwallowsNext(v: string, tail: seq<string>, p: Parsed)
    requires !StartsWith(v, "-")
    ensures ParseFrom(["--no-signing", v] + tail, p) == ParseFrom(tail, p.Set("signing", Bool(false)))
  {
    var k := NoSigningKey();
    var rest := ["--" + k, v] + tail;
    DashPrefix(k);
    LongPartsBare(k);
    assert rest[0] == "--" + k && rest[0] != "--";
    assert LongStep(rest, p) == Next(2, p.Set("signing", Bool(false)));
    ParseFromStep(rest, p);
    assert rest[2..] == tail;
  }

  /** `-s` sets signing to true and takes no value. */
  lemma ShortSigning(tail: seq<string>, p: Parsed)
    ensures ParseFrom(["-s"] + tail, p) == ParseFrom(tail, p.Set("signing", Bool(true)))
  {
    var rest := ["-s"] + tail;
    SingleDash("-s");
    assert rest[0] == "-s";
    assert ShortStep(rest, p) == Next(1, p.Set("signing", Bool(true)));
    ParseFromStep(rest, p);
    assert rest[1..] == tail;
  }

  lemma SigningKey() returns (k: string)
    ensures k == "signing" && "--" + k == "--signing" && PlainKey(k) && k != []
  {
    k := "signing";
    TrimNoSpaceEnds(k);
  }

  /** What a short option that takes a value looks like. */
  lemma ShortValueArg(s: string)
    requires ShortValueKey(s).Some?
    ensures |s| == 2 && s[0] == '-' && s[1] != '-'
  {
  }

  lemma SingleDash(s: string)
    requires |s| >= 2 && s[0] == '-' && s[1] != '-'
    ensures !StartsWith(s, "--") && StartsWith(s, "-") && s != "--"
  {
    assert s[..2][1] == s[1];
    assert s[..1] == "-";
  }

  /** A short option with a value means the same as its long form. */
  lemma ShortMatchesLong(s: string, v: string, tail: seq<string>, p: Parsed)
    requires ShortValueKey(s).Some? && !StartsWith(v, "-")
    ensures ParseFrom([s, v] + tail, p) == ParseFrom(["--" + ShortValueKey(s).value, v] + tail, p)
  {
    var k := ShortValueKey(s).value;
    ShortKeyIsPlain(k);
    LongNextValue(k, v, tail, p);
    ShortTakesAnyValue(s, v, tail, p);
  }

  lemma ShortKeyIsPlain(k: string)
    requires k in ShortValueKeys
    ensures PlainKey(k) && k != [] && k != "signing" && k != "no-signing"
  {
    assert k != [] && k[0] != ' ' && k[|k| - 1] != ' ';
    assert forall i :: 0 <= i < |k| ==> k[i] != '=';
    TrimNoSpaceEnds(k);
  }

  /**
   * A short option takes the next argument as its value even when that
   * argument starts with `-`, where its long form would not.
   */
  lemma ShortTakesAnyValue(s: string, v: string, tail: seq<string>, p: Parsed)
    requires ShortValueKey(s).Some?
    ensures ParseFrom([s, v] + tail, p) == ParseFrom(tail, p.Set(ShortValueKey(s).value, Str(v)))
  {
    var rest := [s, v] + tail;
    ShortValueArg(s);
    SingleDash(s);
    assert rest[0] == s && rest[1] == v;
    assert ShortStep(rest, p) == Next(2, p.Set(ShortValueKey(s).value, Str(v)));
    ParseFromStep(rest, p);
    assert rest[2..] == tail;
  }

  /** Arguments none of which starts with `-` are all positional, in order. */
  lemma {:induction false} PlainArgumentsArePositional(args: seq<string>, p: Parsed)
    requires forall i :: 0 <= i < |args| ==> !StartsWith(args[i], "-")
    ensures ParseFrom(args, p) == p.Push(args)
    decreases |args|
  {
    if args != [] {
      var q := p.Push([args[0]]);
      PlainStep(args, p);
      ParseFromStep(args, p);
      assert forall i :: 0 <= i < |args[1..]| ==> args[1..][i] == args[i + 1];
      PlainArgumentsArePositional(args[1..], q);
      PushTwice(p, [args[0]], args[1..]);
      assert [args[0]] + args[1..] == args;
    }
  }

  lemma PushTwice(p: Parsed, xs: seq<string>, ys: seq<string>)
    ensures p.Push(xs).Push(ys) == p.Push(xs + ys)
  {
    assert p.positional + xs + ys == p.positional + (xs + ys);
  }

  /** An argument without a leading `-` is pushed as positional. */
  lemma PlainStep(rest: seq<string>, p: Parsed)
    requires rest != [] && !StartsWith(rest[0], "-")
    ensures rest[0] != "--" && Step(rest, p) == Next(1, p.Push([rest[0]]))
  {
    assert !StartsWith(rest[0], "--");
  }

  /* ---------------------------------------------------------------- */
  /* Which arguments end up in `_`                                    */
  /* ---------------------------------------------------------------- */

  /** An argument the loop pushes to `_` when it meets it: no leading `-`, or `-` alone. */
  predicate IsPositionalArg(arg: string) {
    !StartsWith(arg, "-") || arg == "-"
  }

  /**
   * How many arguments the turn at `args[i]` consumes, read off the shapes
   * of the arguments alone: a long option without `=` takes a following
   * argument that does not start with `-`, a value-taking short option
   * takes any following argument, and everything else stands alone.
   */
  function Width(args: seq<string>, i: nat): (n: nat)
    requires i < |args|
    ensures 1 <= n <= |args| - i
  {
    var arg := args[i];
    var hasNext := i + 1 < |args|;
    if StartsWith(arg, "--") then
      if '=' !in arg[2..] && hasNext && !StartsWith(args[i + 1], "-") then 2 else 1
    else if StartsWith(arg, "-") && |arg| > 1 then
      if ShortValueKey(arg).Some? && hasNext then 2 else 1
    else 1
  }

  /**
   * The positions, from `i` on, of the arguments the parser puts in `_`:
   * the positional arguments it meets, and everything after a `--`. They
   * are increasing, and each holds a positional argument or follows a `--`.
   */
  function PositionalIndices(args: seq<string>, i: nat): (r: seq<nat>)
    requires i <= |args|
    ensures forall k :: 0 <= k < |r| ==> i <= r[k] < |args|
    ensures forall k, l :: 0 <= k < l < |r| ==> r[k] < r[l]
    ensures forall k :: 0 <= k < |r| ==> IsPositionalArg(args[r[k]]) || "--" in args[i..r[k]]
    decreases |args| - i
  {
    if i == |args| then []
    else if args[i] == "--" then
      assert forall m :: i < m <= |args| ==> args[i..m][0] == "--";
      seq(|args| - i - 1, k requires 0 <= k < |args| - i - 1 => i + 1 + k)
    else
      var r' := PositionalIndices(args, i + Width(args, i));
      assert forall m :: i + Width(args, i) <= m <= |args| ==>
        forall x :: x in args[i + Width(args, i)..m] ==> x in args[i..m];
      (if IsPositionalArg(args[i]) then [i] else []) + r'
  }

  /** The arguments at the given positions, in that order. */
  function At(args: seq<string>, ix: seq<nat>): (r: seq<string>)
    requires forall k :: 0 <= k < |ix| ==> ix[k] < |args|
    ensures |r| == |ix| && forall k :: 0 <= k < |ix| ==> r[k] == args[ix[k]]
  {
    seq(|ix|, k requires 0 <= k < |ix| => args[ix[k]])
  }

  /** One turn consumes `Width` arguments and pushes its argument exactly when that is positional. */
  lemma StepPositional(args: seq<string>, i: nat, p: Parsed)
    requires i < |args| && args[i] != "--"
    ensures Step(args[i..], p).consumed == Width(args, i)
    ensures Step(args[i..], p).parsed.positional == p.positional + (if IsPositionalArg(args[i]) then [args[i]] else [])
  {
    var rest := args[i..];
    assert rest[0] == args[i];
    assert |rest| > 1 ==> rest[1] == args[i + 1];
    if StartsWith(args[i], "--") {
      assert !IsPositionalArg(args[i]);
    }
  }

  /** From position `i` on, `_` grows by the arguments at `PositionalIndices`, in order. */
  lemma {:induction false} ParseFromPositional(args: seq<string>, i: nat, p: Parsed)
    requires i <= |args|
    ensures ParseFrom(args[i..], p).positional == p.positional + At(args, PositionalIndices(args, i))
    decreases |args| - i
  {
    if i == |args| {
      assert args[i..] == [];
    } else if args[i] == "--" {
      DashDashPositional(args, i, p);
    } else {
      StepPositional(args, i, p);
      ParseFromPositional(args, i + Width(args, i), Step(args[i..], p).parsed);
      StepCasePositional(args, i, p);
    }
  }

  /** One turn of the loop followed by the rest: `_` grows by the positional arguments from `i` on. */
  lemma StepCasePositional(args: seq<string>, i: nat, p: Parsed)
    requires i < |args| && args[i] != "--"
    requires i + Width(args, i) <= |args|
    requires ParseFrom(args[i + Width(args, i)..], Step(args[i..], p).parsed).positional
      == Step(args[i..], p).parsed.positional + At(args, PositionalIndices(args, i + Width(args, i)))
    ensures ParseFrom(args[i..], p).positional == p.positional + At(args, PositionalIndices(args, i))
  {
    StepPositional(args, i, p);
    ParseFromAt(args, i, p);
    IndicesStep(args, i);
    Chain(ParseFrom(args[i..], p), ParseFrom(args[i + Width(args, i)..], Step(args[i..], p).parsed),
      Step(args[i..], p).parsed, p.positional, if IsPositionalArg(args[i]) then [args[i]] else [],
      At(args, PositionalIndices(args, i + Width(args, i))), At(args, PositionalIndices(args, i)));
  }

  /** The bookkeeping of one turn: `_` after the whole run is the start, this turn's part and the rest's. */
  lemma Chain(whole: Parsed, after: Parsed, stepped: Parsed, start: seq<string>, head: seq<string>,
              tail: seq<string>, all: seq<string>)
    requires whole == after && after.positional == stepped.positional + tail
    requires stepped.positional == start + head && all == head + tail
    ensures whole.positional == start + all
  {
  }

  /** After `--`, `_` grows by every remaining argument. */
  lemma DashDashPositional(args: seq<string>, i: nat, p: Parsed)
    requires i < |args| && args[i] == "--"
    ensures ParseFrom(args[i..], p).positional == p.positional + At(args, PositionalIndices(args, i))
  {
    assert args[i..][1..] == args[i + 1..];
    assert At(args, PositionalIndices(args, i)) == args[i + 1..];
  }

  /** `ParseFrom` at position `i` continues at the position the turn there reaches. */
  lemma ParseFromAt(args: seq<string>, i: nat, p: Parsed)
    requires i < |args| && args[i] != "--"
    ensures i + Width(args, i) <= |args|
    ensures ParseFrom(args[i..], p) == ParseFrom(args[i + Width(args, i)..], Step(args[i..], p).parsed)
  {
    StepPositional(args, i, p);
    ParseFromSlice(args, i, Step(args[i..], p).consumed, p);
  }

  lemma ParseFromSlice(args: seq<string>, i: nat, c: nat, p: Parsed)
    requires i < |args| && args[i] != "--" && c == Step(args[i..], p).consumed
    ensures i + c <= |args|
    ensures ParseFrom(args[i..], p) == ParseFrom(args[i + c..], Step(args[i..], p).parsed)
  {
    ParseFromStep(args[i..], p);
    assert args[i..][c..] == args[i + c..];
  }

  /** The positional arguments from `i` on: the one at `i`, if it is one, then those after its turn. */
  lemma IndicesStep(args: seq<string>, i: nat)
    requires i < |args| && args[i] != "--"
    ensures At(args, PositionalIndices(args, i))
      == (if IsPositionalArg(args[i]) then [args[i]] else []) + At(args, PositionalIndices(args, i + Width(args, i)))
  {
    var head: seq<nat> := if IsPositionalArg(args[i]) then [i] else [];
    var tail := PositionalIndices(args, i + Width(args, i));
    IndicesUnfold(args, i);
    AtAppend(args, head, tail);
  }

  lemma IndicesUnfold(args: seq<string>, i: nat)
    requires i < |args| && args[i] != "--"
    ensures PositionalIndices(args, i)
      == (if IsPositionalArg(args[i]) then [i] else []) + PositionalIndices(args, i + Width(args, i))
  {
  }

  lemma AtAppend(args: seq<string>, xs: seq<nat>, ys: seq<nat>)
    requires forall k :: 0 <= k < |xs| ==> xs[k] < |args|
    requires forall k :: 0 <= k < |ys| ==> ys[k] < |args|
    ensures At(args, xs + ys) == At(args, xs) + At(args, ys)
  {
    assert forall k :: 0 <= k < |xs + ys| ==> (xs + ys)[k] < |args|;
  }

  /**
   * `_` holds exactly the arguments at `PositionalIndices(args, 0)`: each
   * one once, in the order given.
   */
  lemma PositionalOrder(args: seq<string>)
    ensures ParseFrom(args, Empty).positional == At(args, PositionalIndices(args, 0))
  {
    ParseFromPositional(args, 0, Empty);
    assert args[0..] == args;
  }

  /** The arguments that turn signing off: a long option whose key is `no-signing`. */
  predicate TurnsSigningOff(arg: string) {
    StartsWith(arg, "--") && LongKey(arg) == "no-signing"
  }

  /** One turn of the loop leaves `signing` not `false` unless it read `--no-signing`. */
  lemma StepKeepsSigning(rest: seq<string>, p: Parsed)
    requires rest != [] && rest[0] != "--" && !TurnsSigningOff(rest[0])
    requires p.Get("signing") != Bool(false)
    ensures Step(rest, p).parsed.Get("signing") != Bool(false)
  {
  }

  /** Signing stays on (`signing !== false`) unless some argument is `--no-signing`. */
  lemma {:induction false} SigningStaysOn(rest: seq<string>, p: Parsed)
    requires forall i :: 0 <= i < |rest| ==> !TurnsSigningOff(rest[i])
    requires p.Get("signing") != Bool(false)
    ensures ParseFrom(rest, p).Get("signing") != Bool(false)
    decreases |rest|
  {
    if rest != [] && rest[0] != "--" {
      var n := Step(rest, p);
      StepKeepsSigning(rest, p);
      var r := rest[n.consumed..];
      assert forall i :: 0 <= i < |r| ==> r[i] == rest[n.consumed + i];
      SigningStaysOn(r, n.parsed);
    }
  }
}
