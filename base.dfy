/** The command abstractions of src/slashed/base.py: the result and context
    records, the command metadata (`format_usage`, `help_text`,
    `get_completer`, `execute`) and `parse_command`, which turns a tokenized
    command line into a name, positional arguments and `--key value` pairs. */
module Base {
  import opened Wrappers
  import opened Builtins
  import Completers

  /** `CommandResult`: what a shell command produces. `CommandResult()` has
      empty outputs and exit code 0. */
  datatype CommandResult = CommandResult(stdout: string, stderr: string, exitCode: int) {
    /** `bool(result)`: true exactly for exit code 0. */
    predicate Succeeded() {
      exitCode == 0
    }
  }

  /** `CommandResult()` */
  const DefaultResult := CommandResult("", "", 0)

  /** `CommandContext`, reduced to what handlers may read. The output writer,
      the payload and the back-reference to the store are shared by
      reference and never read by the logic modelled here; `stdin` is the
      field a pipeline overrides per stage. */
  datatype CommandContext = CommandContext(stdin: string, metadata: map<string, string>)

  /** The exceptions the library raises or catches; `message` is `str(e)`. */
  datatype Exception =
    | CommandError(message: string)
    | ValueError(message: string)
    | TypeError(message: string)
    | OtherError(message: string)

  /** A value a handler may return. Python's `bool` is a subclass of `int`,
      so it is kept apart from `str` but normalised like an integer. */
  datatype Value =
    | NoneValue
    | ResultValue(result: CommandResult)
    | StrValue(s: string)
    | BoolValue(b: bool)
    | IntValue(n: int)
    | OtherValue(text: string)  // any other object; `text` is `str(value)`

  /** A handler invoked with a context, positional and keyword arguments:
      it returns a value or raises. */
  type Handler = (CommandContext, seq<string>, map<string, string>) -> Result<Value, Exception>

  /** The `completer` a `Command` was given. */
  datatype CompleterSpec =
    | NoCompleter
    | ProviderCompleter(provider: Completers.Provider)
    | FactoryCompleter(make: () -> Result<Completers.Provider, Exception>)  // a callable, which may raise
    | InvalidCompleter(typeName: string)  // anything else; `typeName` is `str(type(x))`

  /** How a command runs: a `Command` wraps a function and may carry a
      completer; any other command class is known only by what its
      `execute` does and by what its `get_completer` gives: `Ok(None)` for
      a class that keeps the inherited default, the provider (or the
      exception) of a class that overrides it. */
  datatype Implementation =
    | FunctionCommand(executeFunc: Handler, completer: CompleterSpec)
    | ClassCommand(execute: Handler, ownCompleter: Result<Option<Completers.Provider>, Exception>)

  /** `BaseCommand`: its metadata, its availability and its implementation. */
  datatype BaseCommand = BaseCommand(
    name: string,
    description: string,
    category: string,
    usage: Option<string>,
    helpText: Option<string>,
    available: bool,
    impl: Implementation)

  /** Python truthiness of an optional string: present and non-empty. */
  predicate Truthy(s: Option<string>) {
    s.Some? && s.value != ""
  }

  /** `BaseCommand.format_usage`: nothing without a usage text, else the
      command written as it is typed, followed by its usage. */
  function FormatUsage(cmd: BaseCommand): (r: Option<string>)
    ensures r.Some? <==> Truthy(cmd.usage)
    ensures r.Some? ==> r.value == "Usage: /" + cmd.name + " " + cmd.usage.value
  {
    if !Truthy(cmd.usage) then None else Some("Usage: /" + cmd.name + " " + cmd.usage.value)
  }

  /** `BaseCommand.help_text`: the help text, or the description when the
      help text is missing or empty. */
  function HelpText(cmd: BaseCommand): (r: string)
    ensures Truthy(cmd.helpText) ==> r == cmd.helpText.value
    ensures !Truthy(cmd.helpText) ==> r == cmd.description
    ensures r == "" ==> cmd.description == ""
  {
    if Truthy(cmd.helpText) then cmd.helpText.value else cmd.description
  }

  /** `get_completer`: a command class gives what its own `get_completer`
      gives (nothing, unless it overrides the default); a `Command` returns
      its provider, calls its factory (letting what it raises through), or
      raises `TypeError` for anything else. */
  function GetCompleter(cmd: BaseCommand): (r: Result<Option<Completers.Provider>, Exception>)
    ensures r.Err? <==>
      (cmd.impl.ClassCommand? && cmd.impl.ownCompleter.Err?) ||
      (cmd.impl.FunctionCommand? &&
       (cmd.impl.completer.InvalidCompleter? || (cmd.impl.completer.FactoryCompleter? && cmd.impl.completer.make().Err?)))
    ensures cmd.impl.FunctionCommand? && cmd.impl.completer.InvalidCompleter? ==>
      r == Err(TypeError("Completer must be CompletionProvider or callable, not " + cmd.impl.completer.typeName))
    ensures cmd.impl.ClassCommand? ==> r == cmd.impl.ownCompleter
    ensures cmd.impl.FunctionCommand? ==> (r == Ok(None) <==> cmd.impl.completer.NoCompleter?)
    ensures cmd.impl.FunctionCommand? && cmd.impl.completer.ProviderCompleter? ==> r == Ok(Some(cmd.impl.completer.provider))
    ensures cmd.impl.FunctionCommand? && cmd.impl.completer.FactoryCompleter? ==>
      var made := cmd.impl.completer.make();
      (made.Ok? ==> r == Ok(Some(made.value))) && (made.Err? ==> r == Err(made.error))
  {
    match cmd.impl
    case ClassCommand(_, own) => own
    case FunctionCommand(_, completer) =>
      match completer
      case NoCompleter => Ok(None)
      case ProviderCompleter(p) => Ok(Some(p))
      case FactoryCompleter(make) =>
        (match make()
         case Ok(p) => Ok(Some(p))
         case Err(e) => Err(e))
      case InvalidCompleter(t) => Err(TypeError("Completer must be CompletionProvider or callable, not " + t))
  }

  /** `Command.execute`: runs the wrapped function with `[]` and `{}` in place
      of missing arguments, lets what it raises through and returns `None`
      whatever the function returned. */
  function ExecuteFunction(f: Handler, ctx: CommandContext, args: Option<seq<string>>, kwargs: Option<map<string, string>>)
    : (r: Result<Value, Exception>)
    ensures var outcome := f(ctx, args.GetOr([]), kwargs.GetOr(map[]));
      (r.Ok? <==> outcome.Ok?) && (r.Ok? ==> r.value == NoneValue) && (r.Err? ==> r.error == outcome.error)
  {
    match f(ctx, args.GetOr([]), kwargs.GetOr(map[]))
    case Ok(_) => Ok(NoneValue)
    case Err(e) => Err(e)
  }

  /** `command.execute(ctx, args, kwargs)` for any command: a `Command`
      returns None or raises what its function raises; a command class's
      own `execute` decides both. */
  function Execute(cmd: BaseCommand, ctx: CommandContext, args: seq<string>, kwargs: map<string, string>)
    : (r: Result<Value, Exception>)
    ensures cmd.impl.FunctionCommand? ==>
      var outcome := cmd.impl.executeFunc(ctx, args, kwargs);
      (r.Ok? <==> outcome.Ok?) && (r.Ok? ==> r.value == NoneValue) && (r.Err? ==> r.error == outcome.error)
    ensures cmd.impl.ClassCommand? ==> r == cmd.impl.execute(ctx, args, kwargs)
  {
    match cmd.impl
    case FunctionCommand(f, _) => ExecuteFunction(f, ctx, Some(args), Some(kwargs))
    case ClassCommand(h, _) => h(ctx, args, kwargs)
  }

  /** `ParsedCommandArgs` */
  datatype ParsedCommandArgs = ParsedCommandArgs(args: seq<string>, kwargs: map<string, string>)

  /** `ParsedCommand` */
  datatype ParsedCommand = ParsedCommand(name: string, args: ParsedCommandArgs)

  /** What `shlex.split` made of the command string: its tokens, or the
      `ValueError` message it raised (an unclosed quote, say). */
  datatype Tokens = Tokens(parts: seq<string>) | SyntaxError(detail: string)

  /** One argument as read from the tokens after the command name: a
      positional token, a `--key value` pair or a `-k value` pair. */
  datatype Arg = Positional(value: string) | Long(key: string, value: string) | Short(letter: char, value: string)

  /** The keyword a pair binds. */
  function Key(a: Arg): string
    requires !a.Positional?
  {
    if a.Long? then a.key else [a.letter]
  }

  /** The tokens one argument was read from. */
  function TokensOf(a: Arg): seq<string> {
    match a
    case Positional(v) => [v]
    case Long(k, v) => ["--" + k, v]
    case Short(c, v) => ["-" + [c], v]
  }

  /** The tokens a sequence of arguments was read from. */
  function Render(items: seq<Arg>): seq<string> {
    if items == [] then [] else Render(items[..|items| - 1]) + TokensOf(items[|items| - 1])
  }

  /** The positional values, in order. */
  function Positionals(items: seq<Arg>): seq<string> {
    if items == [] then []
    else
      var last := items[|items| - 1];
      Positionals(items[..|items| - 1]) + if last.Positional? then [last.value] else []
  }

  /** The keyword map the pairs build, a later pair overwriting an earlier
      one with the same key. */
  function Bindings(items: seq<Arg>): map<string, string> {
    if items == [] then map[]
    else
      var last := items[|items| - 1];
      var init := Bindings(items[..|items| - 1]);
      if last.Positional? then init else init[Key(last) := last.value]
  }

  /** The number of pairs. */
  function PairCount(items: seq<Arg>): nat {
    if items == [] then 0
    else PairCount(items[..|items| - 1]) + if items[|items| - 1].Positional? then 0 else 1
  }

  lemma {:induction false} RenderAppend(a: seq<Arg>, b: seq<Arg>)
    ensures Render(a + b) == Render(a) + Render(b)
    decreases |b|
  {
    if b == [] {
      assert a + b == a;
    } else {
      var n := |b| - 1;
      assert (a + b)[..|a + b| - 1] == a + b[..n];
      RenderAppend(a, b[..n]);
    }
  }

  /** The tokens of one argument followed by more. */
  lemma RenderCons(x: Arg, rest: seq<Arg>)
    ensures Render([x] + rest) == TokensOf(x) + Render(rest)
  {
    RenderAppend([x], rest);
    assert [x][..0] == [];
  }

  /** The first `k` tokens are those of `x`, the rest those of `rest`. */
  lemma RenderStep(tokens: seq<string>, k: nat, x: Arg, rest: seq<Arg>)
    requires k <= |tokens| && TokensOf(x) == tokens[..k] && Render(rest) == tokens[k..]
    ensures Render([x] + rest) == tokens
  {
    RenderCons(x, rest);
    assert tokens == tokens[..k] + tokens[k..];
  }

  /** A `--key value` pair is read from the two tokens it renders to. */
  lemma LongTokens(w: string, v: string)
    requires StartsWith(w, "--")
    ensures TokensOf(Long(w[2..], v)) == [w, v]
  {
    assert w == w[..2] + w[2..];
  }

  /** Every token lands in exactly one place: each positional token once,
      each pair consuming two. */
  lemma {:induction false} RenderLength(items: seq<Arg>)
    ensures |Render(items)| == |Positionals(items)| + 2 * PairCount(items)
    decreases |items|
  {
    if items != [] {
      RenderLength(items[..|items| - 1]);
    }
  }

  /** The key of a pair is bound, to the value of the LAST pair with that key. */
  lemma {:induction false} BindingsLastWins(items: seq<Arg>, j: nat)
    requires j < |items| && !items[j].Positional?
    requires forall m :: j < m < |items| && !items[m].Positional? ==> Key(items[m]) != Key(items[j])
    ensures Key(items[j]) in Bindings(items) && Bindings(items)[Key(items[j])] == items[j].value
    decreases |items|
  {
    var n := |items| - 1;
    if j < n {
      BindingsLastWins(items[..n], j);
    }
  }

  /** The bound keys are exactly the keys of the pairs. */
  lemma {:induction false} BindingsKeys(items: seq<Arg>)
    ensures forall k :: k in Bindings(items) <==> exists j :: 0 <= j < |items| && !items[j].Positional? && Key(items[j]) == k
    decreases |items|
  {
    if items != [] {
      var n := |items| - 1;
      BindingsKeys(items[..n]);
      forall k | k in Bindings(items) ensures exists j :: 0 <= j < |items| && !items[j].Positional? && Key(items[j]) == k {
        if !(k in Bindings(items[..n])) {
          assert !items[n].Positional? && Key(items[n]) == k;
        } else {
          var j :| 0 <= j < n && !items[..n][j].Positional? && Key(items[..n][j]) == k;
          assert items[j] == items[..n][j];
        }
      }
      forall k | exists j :: 0 <= j < |items| && !items[j].Positional? && Key(items[j]) == k ensures k in Bindings(items) {
        var j :| 0 <= j < |items| && !items[j].Positional? && Key(items[j]) == k;
        if j < n {
          assert items[..n][j] == items[j];
        }
      }
    }
  }

  /** A sequence of arguments `parse_command` can have read: only `--key
      value` pairs, and no positional token that starts with `--`. */
  predicate LongForm(items: seq<Arg>) {
    forall i :: 0 <= i < |items| ==> !items[i].Short? && (items[i].Positional? ==> !StartsWith(items[i].value, "--"))
  }

  /** `prefix` put in front of a successful reading; an error stays. */
  function Prepend(prefix: seq<Arg>, r: Result<seq<Arg>, string>): Result<seq<Arg>, string> {
    match r
    case Ok(items) => Ok(prefix + items)
    case Err(e) => Err(e)
  }

  lemma PrependTwice(a: seq<Arg>, b: seq<Arg>, r: Result<seq<Arg>, string>)
    ensures Prepend(a, Prepend(b, r)) == Prepend(a + b, r)
  {
    if r.Ok? {
      assert a + (b + r.value) == (a + b) + r.value;
    }
  }

  /** How `parse_command` reads the tokens after the command name: a token
      starting with `--` takes the next token as its value, whatever that
      is; a final one has none and is an error; every other token is
      positional. */
  function ReadLong(tokens: seq<string>): Result<seq<Arg>, string>
    decreases |tokens|
  {
    if tokens == [] then Ok([])
    else if StartsWith(tokens[0], "--") then
      if |tokens| >= 2 then Prepend([Long(tokens[0][2..], tokens[1])], ReadLong(tokens[2..]))
      else Err("Missing value for argument: " + tokens[0])
    else Prepend([Positional(tokens[0])], ReadLong(tokens[1..]))
  }

  /** Dropping the first argument keeps the long form. */
  lemma LongFormTail(items: seq<Arg>)
    requires items != [] && LongForm(items)
    ensures LongForm(items[1..])
  {
    forall i | 0 <= i < |items| - 1 ensures items[1..][i] == items[i + 1] {
    }
  }

  /** One more long-form argument in front keeps the long form. */
  lemma LongFormCons(x: Arg, rest: seq<Arg>)
    requires LongForm([x]) && LongForm(rest)
    ensures LongForm([x] + rest)
  {
    var items := [x] + rest;
    forall i | 0 <= i < |items| ensures items[i] == if i == 0 then [x][0] else rest[i - 1] {
    }
  }

  /** Reading the tokens of one long-form argument, then more tokens. */
  lemma ReadLongCons(x: Arg, more: seq<string>)
    requires LongForm([x])
    ensures ReadLong(TokensOf(x) + more) == Prepend([x], ReadLong(more))
  {
    var t := TokensOf(x) + more;
    assert [x][0] == x;
    if x.Long? {
      assert StartsWith("--" + x.key, "--") && ("--" + x.key)[2..] == x.key;
      assert t[0] == "--" + x.key && t[1] == x.value && t[2..] == more;
    } else {
      assert t[0] == x.value && t[1..] == more;
    }
  }

  /** Reading succeeds on every rendering of long-form arguments and gives
      them back. */
  lemma {:induction false} ReadLongRender(items: seq<Arg>)
    requires LongForm(items)
    ensures ReadLong(Render(items)) == Ok(items)
    decreases |items|
  {
    if items != [] {
      var x, rest := items[0], items[1..];
      assert items == [x] + rest;
      assert LongForm([x]) by { assert [x][0] == items[0]; }
      LongFormTail(items);
      RenderCons(x, rest);
      ReadLongCons(x, Render(rest));
      ReadLongRender(rest);
    }
  }

  /** What reading gives back is long-form and renders to the tokens read. */
  lemma {:induction false} ReadLongSound(tokens: seq<string>)
    requires ReadLong(tokens).Ok?
    ensures LongForm(ReadLong(tokens).value) && Render(ReadLong(tokens).value) == tokens
    decreases |tokens|
  {
    if tokens == [] {
    } else if StartsWith(tokens[0], "--") {
      var x := Long(tokens[0][2..], tokens[1]);
      ReadLongSound(tokens[2..]);
      LongTokens(tokens[0], tokens[1]);
      assert LongForm([x]);
      LongFormCons(x, ReadLong(tokens[2..]).value);
      RenderStep(tokens, 2, x, ReadLong(tokens[2..]).value);
    } else {
      var x := Positional(tokens[0]);
      ReadLongSound(tokens[1..]);
      assert LongForm([x]);
      LongFormCons(x, ReadLong(tokens[1..]).value);
      RenderStep(tokens, 1, x, ReadLong(tokens[1..]).value);
    }
  }

  /** Reading fails only on a final `--key` token, and names it. */
  lemma {:induction false} ReadLongError(tokens: seq<string>)
    requires ReadLong(tokens).Err?
    ensures tokens != [] && StartsWith(tokens[|tokens| - 1], "--")
    ensures ReadLong(tokens).error == "Missing value for argument: " + tokens[|tokens| - 1]
    decreases |tokens|
  {
    var k := if StartsWith(tokens[0], "--") then 2 else 1;
    if |tokens| > k {
      ReadLongError(tokens[k..]);
      assert tokens[k..][|tokens[k..]| - 1] == tokens[|tokens| - 1];
    }
  }

  /** `parse_command(cmd_str)`, given what `shlex.split(cmd_str)` did: a
      tokenising error and an empty command are `CommandError`s, and a
      parsed command is named by the first token. */
  function Parse(tokens: Tokens): (r: Result<ParsedCommand, Exception>)
    ensures tokens.SyntaxError? ==> r == Err(CommandError("Invalid command syntax: " + tokens.detail))
    ensures tokens.Tokens? && tokens.parts == [] ==> r == Err(CommandError("Empty command"))
    ensures r.Ok? ==> tokens.Tokens? && tokens.parts != [] && r.value.name == tokens.parts[0]
    ensures r.Err? ==> r.error.CommandError?
  {
    match tokens
    case SyntaxError(detail) => Err(CommandError("Invalid command syntax: " + detail))
    case Tokens(parts) =>
      if parts == [] then Err(CommandError("Empty command"))
      else
        match ReadLong(parts[1..])
        case Err(message) => Err(CommandError(message))
        case Ok(items) => Ok(ParsedCommand(parts[0], ParsedCommandArgs(Positionals(items), Bindings(items))))
  }

  /** `parse_command` round trip: a name followed by rendered long-form
      arguments parses back to that name (even one starting with `--`),
      the positional values and the keyword map. */
  lemma ParseRender(name: string, items: seq<Arg>)
    requires LongForm(items)
    ensures Parse(Tokens([name] + Render(items))) == Ok(ParsedCommand(name, ParsedCommandArgs(Positionals(items), Bindings(items))))
  {
    assert ([name] + Render(items))[1..] == Render(items);
    ReadLongRender(items);
  }

  /** Conversely, whatever `parse_command` accepts is a name followed by
      rendered long-form arguments, and every failure is a `CommandError`
      naming one of three causes. */
  lemma ParseSound(tokens: Tokens)
    ensures Parse(tokens).Ok? ==> tokens.Tokens? && exists items ::
      LongForm(items) && tokens.parts == [Parse(tokens).value.name] + Render(items) &&
      Parse(tokens).value.args == ParsedCommandArgs(Positionals(items), Bindings(items))
    ensures Parse(tokens).Err? ==>
      (Parse(tokens).error.CommandError? && (
        (tokens.SyntaxError? && Parse(tokens).error.message == "Invalid command syntax: " + tokens.detail) ||
        (tokens.Tokens? && tokens.parts == [] && Parse(tokens).error.message == "Empty command") ||
        (tokens.Tokens? && |tokens.parts| >= 2 && StartsWith(tokens.parts[|tokens.parts| - 1], "--") &&
         Parse(tokens).error.message == "Missing value for argument: " + tokens.parts[|tokens.parts| - 1])))
  {
    if tokens.Tokens? && tokens.parts != [] {
      var parts := tokens.parts;
      assert parts == [parts[0]] + parts[1..];
      if ReadLong(parts[1..]).Ok? {
        ReadLongSound(parts[1..]);
      } else {
        ReadLongError(parts[1..]);
        assert parts[1..][|parts[1..]| - 1] == parts[|parts| - 1];
      }
    }
  }

  /** The tokenizer knows no short flags: `-v` and `-1` stay positional. */
  lemma ParseNoShortFlags()
    ensures Parse(Tokens(["cmd", "-v", "true"])) == Ok(ParsedCommand("cmd", ParsedCommandArgs(["-v", "true"], map[])))
    ensures Parse(Tokens(["cmd", "-1"])) == Ok(ParsedCommand("cmd", ParsedCommandArgs(["-1"], map[])))
  {
    assert "-v"[..2][1] == 'v' && "-1"[..2][1] == '1' && "true"[..2][0] == 't' && "--"[1] == '-';
    assert !StartsWith("-v", "--") && !StartsWith("true", "--") && !StartsWith("-1", "--");
    assert ["cmd", "-v", "true"][1..] == ["-v", "true"] && ["-v", "true"][1..] == ["true"];
    assert ["cmd", "-1"][1..] == ["-1"] && ["-1"][1..] == [] && ["true"][1..] == [];
    assert ReadLong(["true"]) == Prepend([Positional("true")], ReadLong([]));
    assert [Positional("true")] + [] == [Positional("true")];
    assert ReadLong(["-v", "true"]) == Prepend([Positional("-v")], ReadLong(["true"]));
    assert [Positional("-v")] + [Positional("true")] == [Positional("-v"), Positional("true")];
    assert ReadLong(["-1"]) == Prepend([Positional("-1")], ReadLong([]));
    assert [Positional("-1")] + [] == [Positional("-1")];
    var two := [Positional("-v"), Positional("true")];
    assert two[..1] == [Positional("-v")] && [Positional("-v")][..0] == [] && [Positional("-1")][..0] == [];
    assert Positionals(two) == ["-v", "true"] && Bindings(two) == map[];
    assert Positionals([Positional("-1")]) == ["-1"] && Bindings([Positional("-1")]) == map[];
  }

  /** A `--key` takes the next token as its value even when that starts
      with `--`. */
  lemma ParseValueStartingWithDashes()
    ensures Parse(Tokens(["cmd", "--a", "--b", "c"])) == Ok(ParsedCommand("cmd", ParsedCommandArgs(["c"], map["a" := "--b"])))
  {
    assert ("--" + "a")[2..] == "a" && "--" + "a" == "--a";
    ParseRender("cmd", [Long("a", "--b"), Positional("c")]);
    var items := [Long("a", "--b"), Positional("c")];
    assert items[..1] == [Long("a", "--b")];
    assert Render(items) == ["--a", "--b", "c"];
    assert ["cmd"] + Render(items) == ["cmd", "--a", "--b", "c"];
    assert Positionals(items) == ["c"];
    assert Bindings(items) == map["a" := "--b"];
  }

  /** A repeated key keeps its last value. */
  lemma ParseRepeatedKey()
    ensures Parse(Tokens(["cmd", "--a", "1", "--a", "2"])) == Ok(ParsedCommand("cmd", ParsedCommandArgs([], map["a" := "2"])))
  {
    var items := [Long("a", "1"), Long("a", "2")];
    assert ["cmd"] + Render(items) == ["cmd", "--a", "1", "--a", "2"] by {
      assert "--" + "a" == "--a";
      assert items[..1] == [Long("a", "1")];
      assert Render(items) == ["--a", "1", "--a", "2"];
    }
    assert LongForm(items) by {
      assert ("--" + "a")[2..] == "a";
    }
    assert Positionals(items) == [] && Bindings(items) == map["a" := "2"] by {
      assert items[..1] == [Long("a", "1")];
    }
    ParseRender("cmd", items);
  }

  /** A final `--key` has no value. */
  lemma ParseMissingValue()
    ensures Parse(Tokens(["cmd", "x", "--out"])) == Err(CommandError("Missing value for argument: --out"))
  {
    assert ["cmd", "x", "--out"][1..] == ["x", "--out"];
    assert ["x", "--out"][1..] == ["--out"];
    assert StartsWith("--out", "--") && !StartsWith("x", "--");
    assert "Missing value for argument: " + "--out" == "Missing value for argument: --out";
    assert ReadLong(["--out"]) == Err("Missing value for argument: --out");
    assert ReadLong(["x", "--out"]) == Err("Missing value for argument: --out");
  }

  /** `ReadLong` of the tokens from index `i` on, by its first token. */
  lemma ReadLongFrom(parts: seq<string>, i: nat)
    requires i < |parts|
    ensures ReadLong(parts[i..]) ==
      if StartsWith(parts[i], "--") then
        if i + 1 < |parts| then Prepend([Long(parts[i][2..], parts[i + 1])], ReadLong(parts[i + 2..]))
        else Err("Missing value for argument: " + parts[i])
      else Prepend([Positional(parts[i])], ReadLong(parts[i + 1..]))
  {
    var rest := parts[i..];
    assert rest[0] == parts[i] && rest[1..] == parts[i + 1..];
    if i + 1 < |parts| {
      assert rest[1] == parts[i + 1] && rest[2..] == parts[i + 2..];
    }
  }

  /** What one more argument adds to the positionals and the bindings. */
  lemma ReadOneMore(done: seq<Arg>, item: Arg)
    ensures Positionals(done + [item]) == Positionals(done) + if item.Positional? then [item.value] else []
    ensures Bindings(done + [item]) == if item.Positional? then Bindings(done) else Bindings(done)[Key(item) := item.value]
  {
    assert (done + [item])[..|done|] == done;
  }

  /** `parse_command`, as the loop the source runs over the tokens. */
  method ParseCommand(tokens: Tokens) returns (r: Result<ParsedCommand, Exception>)
    ensures r == Parse(tokens)
  {
    if tokens.SyntaxError? {
      return Err(CommandError("Invalid command syntax: " + tokens.detail));
    }
    var parts := tokens.parts;
    if parts == [] {
      return Err(CommandError("Empty command"));
    }
    var name := parts[0];
    var args: seq<string> := [];
    var kwargs: map<string, string> := map[];
    ghost var done: seq<Arg> := [];
    var i := 1;
    assert ReadLong(parts[1..]).Ok? ==> [] + ReadLong(parts[1..]).value == ReadLong(parts[1..]).value;
    while i < |parts|
      invariant 1 <= i <= |parts|
      invariant ReadLong(parts[1..]) == Prepend(done, ReadLong(parts[i..]))
      invariant args == Positionals(done) && kwargs == Bindings(done)
    {
      var part := parts[i];
      ReadLongFrom(parts, i);
      if StartsWith(part, "--") {
        if i + 1 < |parts| {
          var item := Long(part[2..], parts[i + 1]);
          PrependTwice(done, [item], ReadLong(parts[i + 2..]));
          ReadOneMore(done, item);
          kwargs := kwargs[part[2..] := parts[i + 1]];
          done := done + [item];
          i := i + 2;
        } else {
          return Err(CommandError("Missing value for argument: " + part));
        }
      } else {
        PrependTwice(done, [Positional(part)], ReadLong(parts[i + 1..]));
        ReadOneMore(done, Positional(part));
        args := args + [part];
        done := done + [Positional(part)];
        i := i + 1;
      }
    }
    assert ReadLong(parts[i..]) == Ok([]);
    assert done + [] == done;
    return Ok(ParsedCommand(name, ParsedCommandArgs(args, kwargs)));
  }
}
