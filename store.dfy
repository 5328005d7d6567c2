/** `CommandStore` (src/slashed/store.py): an insertion-ordered table of
    commands keyed by name, and the list of command lines entered so far.
    The table is a sequence whose names are pairwise distinct, which is what
    a Python `dict` keyed by `command.name` amounts to. */
module Store {
  import opened Wrappers
  import opened Builtins
  import opened Base

  /** No two commands share a name. */
  predicate DistinctNames(cs: seq<BaseCommand>) {
    forall i, j :: 0 <= i < j < |cs| ==> cs[i].name != cs[j].name
  }

  /** `self._commands.get(name)` */
  function Lookup(cs: seq<BaseCommand>, name: string): (r: Option<BaseCommand>)
    ensures r.None? <==> forall i :: 0 <= i < |cs| ==> cs[i].name != name
    ensures r.Some? ==> r.value.name == name && exists i :: 0 <= i < |cs| && cs[i] == r.value
    ensures DistinctNames(cs) ==> forall i :: 0 <= i < |cs| && cs[i].name == name ==> r == Some(cs[i])
  {
    if cs == [] then None
    else if cs[|cs| - 1].name == name then Some(cs[|cs| - 1])
    else Lookup(cs[..|cs| - 1], name)
  }

  /** `del self._commands[name]` when present: the other entries keep their
      order; lookups of other names are unaffected. */
  function Remove(cs: seq<BaseCommand>, name: string): (r: seq<BaseCommand>)
    ensures Subsequence(r, cs)
    ensures forall i :: 0 <= i < |r| ==> r[i].name != name
    ensures forall n :: n != name ==> Lookup(r, n) == Lookup(cs, n)
    ensures Lookup(cs, name).None? ==> r == cs
  {
    if cs == [] then []
    else
      var init, last := cs[..|cs| - 1], cs[|cs| - 1];
      var rest := Remove(init, name);
      assert cs == init + [last];
      if last.name == name then
        SubsequenceAppend(rest, init, last);
        rest
      else
        assert (rest + [last])[..|rest|] == rest;
        rest + [last]
  }

  /** Removing keeps the names distinct. */
  lemma {:induction false} RemoveDistinct(cs: seq<BaseCommand>, name: string)
    requires DistinctNames(cs)
    ensures DistinctNames(Remove(cs, name))
    decreases |cs|
  {
    if cs != [] {
      var init, last := cs[..|cs| - 1], cs[|cs| - 1];
      var rest := Remove(init, name);
      assert DistinctNames(init) by {
        forall i, j | 0 <= i < j < |init| ensures init[i].name != init[j].name {
          assert init[i] == cs[i] && init[j] == cs[j];
        }
      }
      RemoveDistinct(init, name);
      if last.name != name {
        var r := rest + [last];
        assert Remove(cs, name) == r;
        forall i | 0 <= i < |rest| ensures rest[i].name != last.name {
          SubsequenceMember(rest, init, i);
          var j :| 0 <= j < |init| && init[j] == rest[i];
          assert init[j] == cs[j];
        }
        forall i, j | 0 <= i < j < |r| ensures r[i].name != r[j].name {
          if j < |rest| {
            assert r[i] == rest[i] && r[j] == rest[j];
          }
        }
      }
    }
  }

  /** What `register_command` does to the table: an unavailable command is
      ignored (even when its name is taken); an available one whose name is
      taken raises `ValueError`; otherwise it is appended. */
  function Register(cs: seq<BaseCommand>, cmd: BaseCommand): (r: (Outcome<Exception>, seq<BaseCommand>))
    ensures !cmd.available ==> r == (Pass, cs)
    ensures cmd.available && Lookup(cs, cmd.name).Some? ==>
      r == (Fail(ValueError("Command '" + cmd.name + "' already registered")), cs)
    ensures cmd.available && Lookup(cs, cmd.name).None? ==>
      r.0 == Pass && Lookup(r.1, cmd.name) == Some(cmd) && |r.1| == |cs| + 1 && r.1[..|cs|] == cs
    ensures forall n :: n != cmd.name ==> Lookup(r.1, n) == Lookup(cs, n)
    ensures DistinctNames(cs) ==> DistinctNames(r.1)
  {
    if !cmd.available then (Pass, cs)
    else if Lookup(cs, cmd.name).Some? then (Fail(ValueError("Command '" + cmd.name + "' already registered")), cs)
    else
      assert (cs + [cmd])[..|cs|] == cs;
      (Pass, cs + [cmd])
  }

  /** The commands of category `c`, in table order. */
  function WithCategory(cs: seq<BaseCommand>, c: string): (r: seq<BaseCommand>)
    ensures Subsequence(r, cs)
    ensures forall i :: 0 <= i < |r| ==> r[i].category == c
    ensures forall i :: 0 <= i < |cs| && cs[i].category == c ==> exists j :: 0 <= j < |r| && r[j] == cs[i]
  {
    if cs == [] then []
    else
      var init, last := cs[..|cs| - 1], cs[|cs| - 1];
      var rest := WithCategory(init, c);
      assert cs == init + [last];
      if last.category != c then
        SubsequenceAppend(rest, init, last);
        rest
      else
        var r := rest + [last];
        assert r[..|rest|] == rest;
        assert forall i :: 0 <= i < |cs| - 1 && cs[i].category == c ==> exists j :: 0 <= j < |r| && r[j] == cs[i] by {
          forall i | 0 <= i < |cs| - 1 && cs[i].category == c ensures exists j :: 0 <= j < |r| && r[j] == cs[i] {
            assert init[i] == cs[i];
            var j :| 0 <= j < |rest| && rest[j] == init[i];
            assert r[j] == rest[j];
          }
        }
        assert r[|rest|] == cs[|cs| - 1];
        r
  }

  /** The category of every command, in table order. */
  function Categories(cs: seq<BaseCommand>): (r: seq<string>)
    ensures |r| == |cs| && forall i :: 0 <= i < |cs| ==> r[i] == cs[i].category
  {
    seq(|cs|, i requires 0 <= i < |cs| => cs[i].category)
  }

  /** Only a category no command has selects nothing. */
  lemma WithCategoryEmpty(cs: seq<BaseCommand>, c: string)
    ensures WithCategory(cs, c) == [] <==> c !in Categories(cs)
  {
    var r := WithCategory(cs, c);
    if r != [] {
      SubsequenceMember(r, cs, 0);
    }
    if c in Categories(cs) {
      var i :| 0 <= i < |cs| && Categories(cs)[i] == c;
      assert cs[i].category == c;
    }
  }

  /** `get_history`'s answer for a history `h`: newest first when asked,
      then cut to `limit` when `limit` is truthy (neither None nor 0), a
      negative limit counting from the end as Python slicing does. */
  function History(h: seq<string>, limit: Option<int>, newestFirst: bool): (r: seq<string>)
    ensures |r| <= |h|
    ensures limit.None? || limit == Some(0) ==> |r| == |h|
    ensures limit.Some? && limit.value > 0 ==> |r| == if limit.value < |h| then limit.value else |h|
    ensures limit.Some? && limit.value < 0 ==> |r| == if |h| + limit.value > 0 then |h| + limit.value else 0
    ensures forall i :: 0 <= i < |r| ==> r[i] == if newestFirst then h[|h| - 1 - i] else h[i]
  {
    var ordered := if newestFirst then Reverse(h) else h;
    if limit.Some? && limit.value != 0 then SliceTo(ordered, limit.value) else ordered
  }

  /** `func.__name__.replace("_", "-")` */
  function Dashed(name: string): (r: string)
    ensures |r| == |name|
    ensures forall i :: 0 <= i < |r| ==> r[i] != '_'
    ensures forall i :: 0 <= i < |r| ==> r[i] == (if name[i] == '_' then '-' else name[i])
  {
    seq(|name|, i requires 0 <= i < |name| => if name[i] == '_' then '-' else name[i])
  }

  /** The decorator's command name: the given name if truthy, else the
      function's name with every underscore turned into a dash. */
  function DecoratorName(name: Option<string>, funcName: string): (r: string)
    ensures Truthy(name) ==> r == name.value
    ensures !Truthy(name) ==> r == Dashed(funcName) && |r| == |funcName| && forall i :: 0 <= i < |r| ==> r[i] != '_'
  {
    if Truthy(name) then name.value else Dashed(funcName)
  }

  /** The decorator's description: `description or func.__doc__ or
      "No description"`. */
  function DecoratorDescription(description: Option<string>, doc: Option<string>): (r: string)
    ensures r != ""
    ensures Truthy(description) ==> r == description.value
    ensures !Truthy(description) && Truthy(doc) ==> r == doc.value
    ensures !Truthy(description) && !Truthy(doc) ==> r == "No description"
  {
    if Truthy(description) then description.value
    else if Truthy(doc) then doc.value
    else "No description"
  }

  /** `add_command`'s description: when none is given, the docstring or
      "No description"; then an empty one is replaced by "No description".
      An explicit empty description therefore never falls back to the
      docstring. */
  function AddCommandDescription(description: Option<string>, doc: Option<string>): (r: string)
    ensures r != ""
    ensures Truthy(description) ==> r == description.value
    ensures description == Some("") ==> r == "No description"
    ensures description.None? && Truthy(doc) ==> r == doc.value
    ensures description.None? && !Truthy(doc) ==> r == "No description"
  {
    var d := if description.None? then Some(if Truthy(doc) then doc.value else "No description") else description;
    if Truthy(d) then d.value else "No description"
  }

  /** The decorator hands `add_command` a non-empty description, which
      `add_command` keeps; the two defaults differ only for an explicit
      empty description with a docstring present. */
  lemma DescriptionDefaults(description: Option<string>, doc: Option<string>)
    ensures AddCommandDescription(Some(DecoratorDescription(description, doc)), doc) == DecoratorDescription(description, doc)
    ensures !(description == Some("") && Truthy(doc)) ==>
      AddCommandDescription(description, doc) == DecoratorDescription(description, doc)
  {
  }

  /** The `Command` that `add_command` builds for a callable. Its
      `condition` is not accepted by `Command`, so availability is the
      default, true. */
  function NewCommand(name: string, fn: Handler, description: Option<string>, doc: Option<string>,
                      category: string, usage: Option<string>, helpText: Option<string>,
                      completer: CompleterSpec): (r: BaseCommand)
    ensures r.name == name && r.available && r.description == AddCommandDescription(description, doc)
    ensures r.impl == FunctionCommand(fn, completer)
  {
    BaseCommand(name, AddCommandDescription(description, doc), category, usage, helpText, true, FunctionCommand(fn, completer))
  }

  /** What `execute_command` raises, given `shlex.split(command_str)`:
      nothing, or a `CommandError`. Parse errors and an unknown name are
      `CommandError`s and pass through, as does a `CommandError` raised by
      the command; any other exception is wrapped. */
  function Dispatch(cs: seq<BaseCommand>, tokens: Tokens, ctx: CommandContext): (r: Outcome<Exception>)
    ensures r.Fail? ==> r.error.CommandError?
    ensures Parse(tokens).Err? ==> r == Fail(Parse(tokens).error)
    ensures Parse(tokens).Ok? && Lookup(cs, Parse(tokens).value.name).None? ==>
      r == Fail(CommandError("Unknown command: " + Parse(tokens).value.name))
    ensures Parse(tokens).Ok? && Lookup(cs, Parse(tokens).value.name).Some? ==>
      var p := Parse(tokens).value;
      var outcome := Execute(Lookup(cs, p.name).value, ctx, p.args.args, p.args.kwargs);
      (r.Pass? <==> outcome.Ok?) &&
      (outcome.Err? && outcome.error.CommandError? ==> r == Fail(outcome.error)) &&
      (outcome.Err? && !outcome.error.CommandError? ==>
        r == Fail(CommandError("Command execution failed: " + outcome.error.message)))
  {
    match Parse(tokens)
    case Err(e) => Fail(e)
    case Ok(p) =>
      match Lookup(cs, p.name)
      case None => Fail(CommandError("Unknown command: " + p.name))
      case Some(cmd) =>
        match Execute(cmd, ctx, p.args.args, p.args.kwargs)
        case Ok(_) => Pass
        case Err(CommandError(m)) => Fail(CommandError(m))
        case Err(e) => Fail(CommandError("Command execution failed: " + e.message))
  }

  /** One more command adds its category to the list of categories and
      itself to its category's group, leaving the other groups alone. */
  lemma GroupAppend(cs: seq<BaseCommand>, cmd: BaseCommand)
    ensures Categories(cs + [cmd]) == Categories(cs) + [cmd.category]
    ensures forall c :: WithCategory(cs + [cmd], c) == if cmd.category == c then WithCategory(cs, c) + [cmd] else WithCategory(cs, c)
  {
    assert (cs + [cmd])[..|cs|] == cs;
  }

  class CommandStore {
    /** `_commands`, in insertion order. */
    var commands: seq<BaseCommand>
    /** `_command_history`, oldest first. */
    var history: seq<string>

    ghost predicate Valid()
      reads this
    {
      DistinctNames(commands)
    }

    /** A store with no commands and no history. */
    constructor ()
      ensures Valid() && commands == [] && history == []
    {
      commands := [];
      history := [];
    }

    /** `get_command` */
    function GetCommand(name: string): (r: Option<BaseCommand>)
      reads this
      ensures r.Some? ==> r.value.name == name && r.value in commands
      ensures r.None? <==> forall i :: 0 <= i < |commands| ==> commands[i].name != name
      ensures DistinctNames(commands) ==> forall i :: 0 <= i < |commands| && commands[i].name == name ==> r == Some(commands[i])
    {
      Lookup(commands, name)
    }

    /** `list_commands`: every command when the category is None or empty,
        else those of that category, in insertion order. */
    function ListCommands(category: Option<string>): (r: seq<BaseCommand>)
      reads this
      ensures !Truthy(category) ==> r == commands
      ensures Subsequence(r, commands)
      ensures Truthy(category) ==> forall i :: 0 <= i < |r| ==> r[i].category == category.value
      ensures Truthy(category) ==> forall i :: 0 <= i < |commands| && commands[i].category == category.value ==>
        exists j :: 0 <= j < |r| && r[j] == commands[i]
    {
      SubsequenceReflexive(commands);
      if Truthy(category) then WithCategory(commands, category.value) else commands
    }

    /** `get_categories`: the distinct categories, sorted. */
    function GetCategories(): (r: seq<string>)
      reads this
      ensures StrictlySorted(r)
      ensures forall c :: c in r <==> exists i :: 0 <= i < |commands| && commands[i].category == c
    {
      SortedSet(Categories(commands))
    }

    /** `get_commands_by_category`: one group per category present, holding
        that category's commands in insertion order. */
    method GetCommandsByCategory() returns (groups: map<string, seq<BaseCommand>>)
      ensures forall c :: c in groups <==> c in Categories(commands)
      ensures forall c :: c in groups ==> groups[c] == WithCategory(commands, c) && groups[c] != []
    {
      groups := map[];
      for i := 0 to |commands|
        invariant forall c :: c in groups <==> c in Categories(commands[..i])
        invariant forall c :: c in groups ==> groups[c] == WithCategory(commands[..i], c)
      {
        var cmd := commands[i];
        assert commands[..i + 1] == commands[..i] + [cmd];
        WithCategoryEmpty(commands[..i], cmd.category);
        var group := if cmd.category in groups then groups[cmd.category] else [];
        groups := groups[cmd.category := group + [cmd]];
        GroupAppend(commands[..i], cmd);
      }
      assert commands[..|commands|] == commands;
      forall c | c in groups ensures groups[c] != [] {
        WithCategoryEmpty(commands, c);
      }
    }

    /** `get_history` */
    function GetHistory(limit: Option<int>, newestFirst: bool): (r: seq<string>)
      reads this
      ensures |r| <= |history|
      ensures !newestFirst && (limit.None? || limit == Some(0)) ==> r == history
      ensures newestFirst && (limit.None? || limit == Some(0)) ==> r == Reverse(history)
      ensures limit.Some? && limit.value > 0 ==> |r| == if limit.value < |history| then limit.value else |history|
      ensures limit.Some? && limit.value < 0 ==> |r| == if |history| + limit.value > 0 then |history| + limit.value else 0
      ensures forall i :: 0 <= i < |r| ==> r[i] == if newestFirst then history[|history| - 1 - i] else history[i]
    {
      History(history, limit, newestFirst)
    }

    /** `register_command`, for a command instance. */
    method RegisterCommand(cmd: BaseCommand) returns (r: Outcome<Exception>)
      requires Valid()
      modifies this
      ensures Valid()
      ensures (r, commands) == Register(old(commands), cmd)
      ensures history == old(history)
    {
      if !cmd.available {
        return Pass;
      }
      if Lookup(commands, cmd.name).Some? {
        return Fail(ValueError("Command '" + cmd.name + "' already registered"));
      }
      commands := commands + [cmd];
      r := Pass;
    }

    /** `unregister_command`: removes the command of that name, if any. */
    method UnregisterCommand(name: string)
      requires Valid()
      modifies this
      ensures Valid()
      ensures commands == Remove(old(commands), name)
      ensures GetCommand(name).None?
      ensures history == old(history)
    {
      RemoveDistinct(commands, name);
      commands := Remove(commands, name);
    }

    /** `add_to_history`: a blank line is not recorded; any other is
        appended. */
    method AddToHistory(command: string)
      modifies this
      ensures history == old(history) + if IsBlank(command) then [] else [command]
      ensures commands == old(commands)
    {
      StripEmptyIffBlank(command);
      if Strip(command) == "" {
        return;
      }
      history := history + [command];
    }

    /** `execute_command`: the line is recorded first, so a line that
        fails to parse or to run is still in the history. `tokens` is what
        `shlex.split(command_str)` gives. */
    method ExecuteCommand(commandStr: string, tokens: Tokens, ctx: CommandContext) returns (r: Outcome<Exception>)
      modifies this
      ensures history == old(history) + if IsBlank(commandStr) then [] else [commandStr]
      ensures commands == old(commands)
      ensures r == Dispatch(commands, tokens, ctx)
    {
      AddToHistory(commandStr);
      r := Dispatch(commands, tokens, ctx);
    }

    /** `add_command` for a callable: builds the `Command` with the
        description defaults and registers it. */
    method AddCommand(name: string, fn: Handler, description: Option<string>, doc: Option<string>,
                      category: string, usage: Option<string>, helpText: Option<string>,
                      completer: CompleterSpec) returns (r: Outcome<Exception>)
      requires Valid()
      modifies this
      ensures Valid()
      ensures (r, commands) == Register(old(commands), NewCommand(name, fn, description, doc, category, usage, helpText, completer))
      ensures history == old(history)
    {
      var cmd := NewCommand(name, fn, description, doc, category, usage, helpText, completer);
      r := RegisterCommand(cmd);
    }

    /** The `command` decorator applied to a function named `funcName` with
        docstring `doc`. */
    method CommandDecorator(name: Option<string>, description: Option<string>, category: string,
                            usage: Option<string>, helpText: Option<string>, completer: CompleterSpec,
                            fn: Handler, funcName: string, doc: Option<string>) returns (r: Outcome<Exception>)
      requires Valid()
      modifies this
      ensures Valid()
      ensures var cmd := NewCommand(DecoratorName(name, funcName), fn, Some(DecoratorDescription(description, doc)), doc,
                                    category, usage, helpText, completer);
        (r, commands) == Register(old(commands), cmd) && cmd.description == DecoratorDescription(description, doc)
      ensures history == old(history)
    {
      DescriptionDefaults(description, doc);
      r := AddCommand(DecoratorName(name, funcName), fn, Some(DecoratorDescription(description, doc)), doc,
                      category, usage, helpText, completer);
    }
  }
}
