# slashed: command store, command parsing, shell executor and completers in Dafny

`slashed` is a Python library for slash commands. Applications register
commands in a `CommandStore`. The store parses a typed line such as
`/greet --name World` into a command name, positional arguments and keyword
arguments, looks the command up and runs it. A `ShellExecutor` runs a command
line that `bashlex` has parsed into a syntax tree. It handles simple commands,
pipelines (`a | b`, where each stage's stdout becomes the next stage's stdin)
and lists (`a && b || c ; d`). Completion providers suggest choices, keyword
flags and comma-separated values.

This project models that core:

- `Base` (`base.dfy`, from `src/slashed/base.py`):
  - commands, their usage and help text, and their completer;
  - running a function command;
  - `parse_command`, both as a recursive specification (`Parse`) and as the
    loop the source runs (`ParseCommand`).
- `Store` (`store.dfy`, from `src/slashed/store.py`):
  - the `CommandStore` class, whose fields are the insertion-ordered command
    table and the history list;
  - its methods, and the specification functions they are proved against;
  - the name and description defaults of `add_command` and of the `command`
    decorator.
- `Shell` (`shell_executor.dfy`, from `src/slashed/shell_executor.py`):
  - the syntax tree;
  - the `ShellExecutor` class, whose methods are proved equal to the
    specification functions `CommandOutcome`, `PipelineOutcome`,
    `ListOutcome`, `NodeOutcome` and `LineOutcome`;
  - the argument split with short flags;
  - result normalisation.
- `Completers` (`completers.dfy`, from `src/slashed/completers.py`): the
  choice, multi-value, keyword and chained completion providers, as one
  function over a provider datatype.
- `Annotations` (`annotations.dfy`, from `src/slashed/annotations.py`):
  validation of the `Short` marker.
- `Builtins` (`builtins.dfy`) holds the Python string and list operations the
  core relies on, each with its own contract:
  - `startswith`;
  - `strip`, over Python's full whitespace set;
  - `lower` and `isalpha`, over ASCII letters only;
  - `split` and `join` with a delimiter;
  - `sorted` on a set of strings;
  - `[::-1]` and slicing with a possibly negative bound.

  `Wrappers` (`wrappers.dfy`) holds `Option`, `Result` and `Outcome`.

Modelling choices:

- The outside world becomes parameters:
  - the result of `shlex.split` is a `Tokens` parameter;
  - the result of `bashlex.parse` is a `ParseOutcome` parameter;
  - a command's handler is a pure function from context, arguments and
    keyword arguments to a returned value or a raised exception.
- A dict keyed by command name becomes a sequence with pairwise distinct
  names, in insertion order.
- The exceptions the modelled code raises on purpose become `Result`/`Outcome`
  values carrying the same exception class and message (`Base.Exception`:
  `CommandError`, `ValueError`, `TypeError`, or any other `Exception`
  subclass as `OtherError`). A few errors Python raises on its own inside
  the completers are excluded by preconditions instead, and exceptions
  outside `Exception` are not modelled; "## Left out" lists both.
- Where the prose description of the library and the code differ, the model
  follows the code:
  - `parse_command` knows no short flags: `-v x` gives two positional
    arguments. Only the shell executor reads `-x value` as a keyword.
  - A final `--key` without a value is an error in `parse_command`, but the
    shell executor keeps it as a positional argument.
  - `add_command` replaces an explicitly empty description by
    "No description". It does not fall back to the docstring in that case.
  - `get_history` with `limit=0` returns the whole history, because `0` is
    falsy.

## Model

| member | source | states |
|---|---|---|
| Annotations.NewShort | src/slashed/annotations.py:40-47 | `Short` accepts exactly the one-character alphabetic strings. Otherwise it raises `ValueError`: the length error when the length is not 1, else the alphabetic error, each message carrying the repr of the value. |
| Annotations.LengthCheckedFirst | src/slashed/annotations.py:42-47 | The length is checked before the letter: `"12"` is reported as too long, `"1"` as non-alphabetic, and `"v"` is accepted. |
| Base.FormatUsage | src/slashed/base.py:85-89 | There is a usage line exactly when `usage` is truthy. It reads `Usage: /<name> <usage>`. |
| Base.HelpText | src/slashed/base.py:91-94 | The help text is the explicit one when truthy, else the description. It is empty only if the description is. |
| Base.GetCompleter | src/slashed/base.py:134-146 | A command class gives what its own `get_completer` gives: `None` when it keeps the default of `BaseCommand`, its provider or its exception when it overrides it. A `Command` without a completer gives `None`. A provider is returned as is. A factory is called: its provider is returned, or what it raises is raised. Anything else raises `TypeError` naming its type. There are no other errors. |
| Base.ExecuteFunction | src/slashed/base.py:125-132 | A function command calls its handler with `args or []` and `kwargs or {}`. It raises exactly what the handler raises and returns None otherwise. |
| Base.Execute | src/slashed/base.py:125-132 | A `Command` returns None or raises exactly what its function raises. A command class's own `execute` decides the outcome. |
| Base.RenderAppend | src/slashed/base.py:175-187 | Writing argument items back as tokens distributes over concatenation. |
| Base.RenderLength | src/slashed/base.py:175-187 | Every token is a positional argument or half of a key/value pair. |
| Base.BindingsLastWins | src/slashed/base.py:178-181 | For a repeated key, the last value given is kept. |
| Base.BindingsKeys | src/slashed/base.py:178-181 | The keyword arguments hold exactly the keys of the pairs that were read. |
| Base.PrependTwice | src/slashed/base.py:175-187 | Prepending items read so far composes. This lets the loop's invariant be carried. |
| Base.ReadLongRender | src/slashed/base.py:175-187 | Reading back the tokens of items in the long-only form gives back the items. |
| Base.ReadLongSound | src/slashed/base.py:175-187 | A successful read yields items in the long-only form whose tokens are exactly the input. |
| Base.ReadLongError | src/slashed/base.py:178-184 | A read fails only when the last token starts with `--` and has no value. The message is `Missing value for argument: <token>`. |
| Base.Parse | src/slashed/base.py:149-189 | A tokenising error gives `Invalid command syntax: <detail>` and no tokens give `Empty command`. Every error is a `CommandError`, and a parsed command is named by the first token. |
| Base.ParseRender | src/slashed/base.py:149-189 | A name followed by the tokens of any long-only items parses to that name, the items' positional arguments and their keyword bindings. |
| Base.ParseSound | src/slashed/base.py:149-189 | Every successful parse comes from such a rendering. Every failure is a `CommandError`: invalid syntax, an empty command, or a missing value. |
| Base.ParseNoShortFlags | src/slashed/base.py:176-187 | `-v true` and `-1` stay positional. |
| Base.ParseValueStartingWithDashes | src/slashed/base.py:178-181 | The token after `--a` is its value even when it starts with `--`. |
| Base.ParseRepeatedKey | src/slashed/base.py:180 | `--a 1 --a 2` binds `a` to `2`. |
| Base.ParseMissingValue | src/slashed/base.py:182-184 | A final `--out` raises `Missing value for argument: --out`. |
| Base.ParseCommand | src/slashed/base.py:149-189 | The index-stepping loop computes `Parse`. |
| Builtins.StripEmptyIffBlank | src/slashed/store.py:83-84 | A line strips to "" exactly when it is all whitespace. |
| Builtins.SortedSet | src/slashed/store.py:189 | `sorted(set(...))` is strictly increasing and has the same members. |
| Builtins.SliceTo | src/slashed/store.py:97 | `xs[:n]` has length `min(n, len)` for `n >= 0`, or `max(len + n, 0)` for a negative `n`, and is a prefix. |
| Builtins.Reverse | src/slashed/store.py:95-96 | `xs[::-1]` holds the elements in reverse order. |
| Builtins.JoinSplit | src/slashed/completers.py:233-241 | Joining the pieces of a split with the same delimiter gives back the string. |
| Builtins.StartsWithLower | src/slashed/completers.py:196-198 | Lower-casing preserves a prefix relation. |
| Completers.NewChoiceCompleter | src/slashed/completers.py:171-188 | A mapping gives its keys as choices, in order, with their descriptions. A sequence gives its items with no descriptions. |
| Completers.ChoiceItems | src/slashed/completers.py:190-204 | The completions are the choices matching the word, in order. The match is case-insensitive when asked. Each item carries its description and kind "choice". Every matching choice is offered. |
| Completers.ChoiceItemsLast | src/slashed/completers.py:196-204 | The choices are taken one at a time, in order. One more choice adds its own item at the end when it matches, and nothing otherwise, so a choice listed twice is offered twice. |
| Completers.EmptyWordOffersAll | src/slashed/completers.py:190-204 | An empty word offers every choice, in order. |
| Completers.MultiPrefix | src/slashed/completers.py:241-245 | A single value gets no prefix. Earlier values that join to "" give no prefix. Otherwise the prefix is their join, then the delimiter, then a space when stripping. |
| Completers.Prefixed | src/slashed/completers.py:247-249 | The same number of items, each kept except that the prefix is put before its text. |
| Completers.MultiValueRoundTrip | src/slashed/completers.py:233-245 | Without stripping, the prefix followed by the completed last segment is the typed word. |
| Completers.JoinInitLast | src/slashed/completers.py:241 | Joining two or more values is joining all but the last, then the delimiter, then the last. |
| Completers.MultiValueItems | src/slashed/completers.py:233-249 | Only the last delimiter-separated segment, stripped when `strip`, is handed to the inner provider, with the rest of the context unchanged. Each inner item is offered, in order, with `MultiPrefix` before its text. |
| Completers.MultiValueReplacesLastSegment | src/slashed/completers.py:233-249 | Without stripping, and with earlier segments that do not join to "", each offer is the typed word with its last segment replaced by the inner item's text. |
| Completers.NamesWithPrefix | src/slashed/completers.py:279-280 | The keyword names kept are exactly those starting with the typed prefix, in key order. |
| Completers.KeywordNamesOnly | src/slashed/completers.py:269-282 | A word starting with `--` is completed to keyword names only, and the value provider is not consulted. There is one item per name kept by `NamesWithPrefix`, in that order. Each item is `--<name>` with the keyword's description and kind "keyword". |
| Completers.KeywordValues | src/slashed/completers.py:284-288 | A word not starting with `--` gets exactly the value provider's completions, on the same context, when there is a value provider, the word is not the first argument and the argument before it starts with `--`. Otherwise it gets nothing. |
| Completers.ChainedSingle | src/slashed/completers.py:302-308 | A chain of one provider offers exactly that provider's items. |
| Completers.Completions | src/slashed/completers.py:190-308 | Choice items have kind "choice" and match the word. Keyword items for a `--` word have kind "keyword" and start with `--`. A keyword provider without a value provider offers nothing for another word. An empty chain offers nothing. The multi-value case is stated by `MultiValueItems`. |
| Completers.ChainedConcat | src/slashed/completers.py:302-308 | Chaining two groups of providers yields the first group's items followed by the second's. |
| Store.Lookup | src/slashed/store.py:159-168 | Lookup finds a command of that name if and only if one is registered. The command found is a stored one with that name, and with distinct names it is the one registered under it. |
| Store.Remove | src/slashed/store.py:149-157 | Removal keeps the other entries in order and leaves lookups of other names unchanged. Nothing of that name remains. An absent name is a no-op. |
| Store.RemoveDistinct | src/slashed/store.py:149-157 | Removal keeps names distinct. |
| Store.Register | src/slashed/store.py:127-147 | An unavailable command is ignored. An available command with a taken name raises `ValueError("Command '<name>' already registered")` and leaves the table alone. Otherwise the command is appended and found by lookup. Other names are unaffected and names stay distinct. |
| Store.WithCategory | src/slashed/store.py:178-180 | Filtering by category keeps exactly the commands of that category, in order. |
| Store.GroupAppend | src/slashed/store.py:191-200 | One more command appends its category to the per-command categories. The command is appended to its own category's group, and every other group is unchanged. |
| Store.WithCategoryEmpty | src/slashed/store.py:191-200 | A category selects nothing exactly when no command has it. |
| Store.History | src/slashed/store.py:90-97 | The history is newest first when asked. It is cut to `limit` when `limit` is truthy, a negative limit dropping from the end, and is otherwise whole. |
| Store.Dashed | src/slashed/store.py:367 | The function name with `_` turned into `-`, position by position. |
| Store.DecoratorName | src/slashed/store.py:367 | The decorator uses the explicit name when truthy. Otherwise it uses `Dashed` of the function name, which has the same length and no `_`. |
| Store.DecoratorDescription | src/slashed/store.py:368 | The description, else the docstring, else "No description". Never empty. |
| Store.AddCommandDescription | src/slashed/store.py:318-325 | Falls back to the docstring only when no description is given. An empty result becomes "No description". |
| Store.DescriptionDefaults | src/slashed/store.py:318-325 | `add_command` keeps the decorator's description. The two defaults agree except for an explicit "" with a docstring. |
| Store.NewCommand | src/slashed/store.py:322-333 | `add_command` builds an available function command with the defaulted description. |
| Store.Dispatch | src/slashed/store.py:202-232 | `execute_command` raises only `CommandError`. A parse error passes through. An unknown name raises `Unknown command: <name>`. A command's `CommandError` propagates and any other exception is wrapped as `Command execution failed: <msg>`. |
| Store.CommandStore.constructor | src/slashed/store.py:39-58 | A new store has no commands and no history. |
| Store.CommandStore.GetCommand | src/slashed/store.py:159-168 | `get_command` returns None exactly when no command of that name is registered. Otherwise it returns a command in the table with that name, which is the registered one when names are distinct. |
| Store.CommandStore.ListCommands | src/slashed/store.py:170-181 | `list_commands` returns all commands for a falsy category. Otherwise it returns exactly that category's commands, in insertion order. |
| Store.CommandStore.GetCategories | src/slashed/store.py:183-189 | `get_categories` returns the distinct categories, strictly sorted. |
| Store.CommandStore.GetCommandsByCategory | src/slashed/store.py:191-200 | One non-empty group per category present. Each group holds that category's commands in insertion order. |
| Store.CommandStore.GetHistory | src/slashed/store.py:90-97 | Each entry is at its reversed or original position. A falsy limit returns the whole history. A positive limit keeps at most that many entries, and a negative one drops that many from the end. |
| Store.CommandStore.RegisterCommand | src/slashed/store.py:127-147 | The table changes as `Register` says and names stay distinct. |
| Store.CommandStore.UnregisterCommand | src/slashed/store.py:149-157 | The table becomes `Remove` of the old one and the name is no longer found. |
| Store.CommandStore.AddToHistory | src/slashed/store.py:81-88 | A blank line is not recorded and any other line is appended. |
| Store.CommandStore.ExecuteCommand | src/slashed/store.py:202-232 | The line is recorded before parsing, so a failing line is recorded too. The outcome is `Dispatch`. |
| Store.CommandStore.AddCommand | src/slashed/store.py:269-333 | Registers the command that `NewCommand` builds. |
| Store.CommandStore.CommandDecorator | src/slashed/store.py:366-379 | Registers a command with the decorator's name and description defaults. The description is kept as the decorator computed it. |
| Shell.Words | src/slashed/shell_executor.py:128-137 | Every word part is collected and nothing else is. |
| Shell.WordsAppend | src/slashed/shell_executor.py:128-137 | The words are collected part by part, in order. A concatenation gives the words of each half, one after the other. |
| Shell.WordsOne | src/slashed/shell_executor.py:129-131 | A single part gives its own word, or nothing when it is not a word. With `WordsAppend`, this fixes the order and repetitions of the words. |
| Shell.KindDetermines | src/slashed/shell_executor.py:80-111 | In a well-formed tree the `kind` string tells the node apart: `command`, `pipeline`, `list`, `compound` and `word` each name exactly one constructor. |
| Shell.ShellSplit | src/slashed/shell_executor.py:152-171 | Each argument takes one or two words, so there are at least half as many arguments as words and at most as many. |
| Shell.ShellSplitForm | src/slashed/shell_executor.py:152-171 | The split yields arguments in the form `ShellSplitOfRender` reads back: short flags are letters, and only the last argument may be a positional word that looks like a flag. |
| Shell.ShellSplitRender | src/slashed/shell_executor.py:152-171 | Every raw word lands in exactly one argument: writing the split back gives the words, in order. |
| Shell.ShellSplitOfRender | src/slashed/shell_executor.py:152-171 | Conversely, splitting the tokens of arguments the executor can read gives them back. |
| Shell.ShellSplitCounts | src/slashed/shell_executor.py:152-171 | The positional count plus twice the pair count is the word count. |
| Shell.ShellSplitExamples | src/slashed/shell_executor.py:155-171 | `-1` and `-abc` are positional. `-v x` binds `v`. A final `--k` stays positional. |
| Shell.Normalize | src/slashed/shell_executor.py:279-297 | None gives the default result and a `CommandResult` is kept. A string becomes stdout. An int becomes the exit code, and a bool too, as 1 or 0. Anything else becomes stdout via `str`. |
| Shell.CommandOutcome | src/slashed/shell_executor.py:113-180 | A node without words gives the default result. An unregistered name gives `Unknown command: <name>` with exit 127. A `Command` either succeeds with the default result or fails with exit 1 and no stdout. |
| Shell.RegisteredCommandRuns | src/slashed/shell_executor.py:142-180 | A registered command is executed on the positionals and bindings of `ShellSplit` of the remaining words. A returned value gives `Normalize` of it, and a raised exception gives `ErrorResult` of it. |
| Shell.ErrorResult | src/slashed/shell_executor.py:176-180 | A raised exception gives exit 1: the `CommandError` message, or `Error: <msg>`. |
| Shell.Stages | src/slashed/shell_executor.py:197 | The pipeline stages are exactly its command children. |
| Shell.StagesAppend | src/slashed/shell_executor.py:197 | Stages are taken part by part, in order. A concatenation gives the stages of each half, one after the other. |
| Shell.StagesOne | src/slashed/shell_executor.py:197 | A single part is a stage exactly when it is a command. With `StagesAppend`, this fixes the order and repetitions of the stages. |
| Shell.StageResults | src/slashed/shell_executor.py:202-216 | One result per stage. |
| Shell.StageInput | src/slashed/shell_executor.py:201-216 | Stage 0 reads the caller's stdin and stage k reads the stdout of stage k-1. This holds for any way of running a stage. `StageRunner` runs each stage on the caller's context with only `stdin` replaced. |
| Shell.StageResultsStep | src/slashed/shell_executor.py:204-211 | Running one more stage appends its result, computed on the previous stage's stdout, to the earlier results. |
| Shell.PipelineOutcome | src/slashed/shell_executor.py:196-218 | No command stages give the default result. Otherwise the result is the last stage's, run on the caller's context. Its stdin is the previous stage's stdout, or the caller's stdin when it is the only stage. |
| Shell.SingleStagePipeline | src/slashed/shell_executor.py:197-218 | A pipeline of one command gives that command's result, run on the caller's own context. |
| Shell.ShouldRun | src/slashed/shell_executor.py:247-255 | After `&&` a part runs only on success, after `\|\|` only on failure, otherwise always. |
| Shell.TraceAppend | src/slashed/shell_executor.py:242-268 | A list is processed one part at a time, left to right. |
| Shell.TwoPartList | src/slashed/shell_executor.py:237-276 | In `a op b`, `b` runs exactly when the operator allows. The outputs of what ran are concatenated and the exit code is the last run part's. |
| Shell.SkippedPartClearsOperator | src/slashed/shell_executor.py:249-269 | The pending operator is cleared even after a skipped part: in `a && b c` with `a` failing, `c` runs. |
| Shell.FoldNothingRan | src/slashed/shell_executor.py:242-268 | Parts that are neither commands nor pipelines never run, so they leave the run results as they were. |
| Shell.ListOutcome | src/slashed/shell_executor.py:237-276 | A list without commands or pipelines gives the default result. A list of one command or pipeline gives that part's result. |
| Shell.OnlyPartRuns | src/slashed/shell_executor.py:242-276 | The only part of a list runs when it is a command or pipeline, and the list's outputs and exit code are its own. |
| Shell.CollectWords | src/slashed/shell_executor.py:128-137 | The word-collecting loop computes `Words`. |
| Shell.SplitArguments | src/slashed/shell_executor.py:152-171 | The argument loop yields exactly the positionals and the bindings of `ShellSplit`. |
| Shell.ShellExecutor.constructor | src/slashed/shell_executor.py:43-49 | The executor keeps its store. |
| Shell.ShellExecutor.ExecuteCommand | src/slashed/shell_executor.py:113-180 | The result is `CommandOutcome`: no words gives the default result, and an unknown name gives `Unknown command: <name>` with exit 127. Otherwise the split arguments are passed to the command and the result is normalised, or the exception becomes a result. |
| Shell.ShellExecutor.ExecutePipeline | src/slashed/shell_executor.py:182-218 | The result is `PipelineOutcome`: the last stage's result, or the default result when there are no stages. |
| Shell.ShellExecutor.ExecuteList | src/slashed/shell_executor.py:220-276 | The result is `ListOutcome`: the non-empty outputs of the parts that ran, concatenated, and the last run part's exit code. |
| Shell.ShellExecutor.ExecuteNode | src/slashed/shell_executor.py:80-111 | Dispatch on the node's kind. A compound node gives `Compound commands (if/for/while) not supported`, and any other kind gives `Unknown node kind: <kind>`, each with exit 1. |
| Shell.ShellExecutor.Execute | src/slashed/shell_executor.py:51-78 | A parse error gives `Parse error: <detail>` with exit 1. An empty line gives the default result. Otherwise every top-level part runs and the last one's result is returned. |

## Left out

- Tokenising is not modelled. `shlex.split` and `bashlex.parse` are
  parameters (`Tokens`, `ParseOutcome`); their own quoting and grammar rules
  are not part of this model.
- Async and side effects are not modelled:
  - `async`/`await` is dropped; every call runs to completion in order.
  - Handlers are pure. Output written through `ctx.output`, and any state a
    handler changes, is not modelled.
  - Logging is dropped.
- Persisting history is not modelled. The constructor's history file, its
  loading in `_initialize_sync`/`initialize` and the write in
  `add_to_history` are file I/O.
- `register_builtin_commands`, `create_context`,
  `create_completion_context` and `execute_command_with_context` build or
  forward objects. They state nothing beyond the operations modelled.
- The `CommandContext` fields `output`, `data` and `command_store` are
  omitted; only `stdin` and `metadata` are kept.
- Store.CommandStore.RegisterCommand: instantiating a command class
  (`isinstance(command, type)`) is not modelled. Only instances are
  registered.
- Store.CommandStore.AddCommand: importing `fn` or `completer` from a
  dotted-path string (`import_module`, and the `ValueError` on failure) is not
  modelled. Only callables and provider values are accepted.
- Store.NewCommand: the `condition` argument is not modelled.
  - In this `base.py`, `Command.__init__` accepts no `condition` and
    `BaseCommand` has no `is_available`.
  - Availability is therefore a field of the command, and commands built by
    `add_command` are available.
- Store.CommandStore.GetCommandsByCategory: the key order of the returned
  dict (first appearance) is not stated. The keys are stated as a set.
- Completers.Completions: these are not modelled:
  - mutation of items in place by the multi-value completer;
  - aliasing between the items it yields and the inner provider's;
  - the lazy evaluation of generators.

  Items are values, produced eagerly.
- `PathCompleter` and `EnvVarCompleter` depend on the file system and the
  environment. Any provider other than the four modelled is an opaque
  function (`Other`).
- Builtins.IsAlpha and Builtins.LowerChar cover ASCII letters only, not
  Unicode `isalpha`/`lower`. `Annotations.Repr` does not escape quotes or
  control characters.
- Shell.ShellExecutor.Execute: `bashlex` can return nodes other than the
  kinds listed. Those nodes are kept only by their `kind` string, in
  `OtherNode`. `WellFormed` states that such a string is never one of the
  kinds dispatched on, but the executor's methods do not require it.
- Shell.ShellExecutor.ExecuteCommand and Store.CommandStore.ExecuteCommand:
  a handler that raises a `BaseException` outside `Exception` (such as
  `asyncio.CancelledError`, `SystemExit` or `KeyboardInterrupt`) escapes
  the `except Exception` clauses (src/slashed/shell_executor.py:179,
  src/slashed/store.py:230) and the executor or store altogether. The
  model has handlers that return or raise an `Exception`, so every
  handler failure becomes a value.
- Completers.Completions: three errors Python raises on its own are excluded
  by preconditions instead of being modelled as exceptions:
  - a `MultiValueCompleter` with an empty delimiter, where `str.split`
    raises `ValueError` (`ProviderOk`);
  - an `arg_position` beyond `command_args`, where the keyword completer's
    indexing raises `IndexError` (`ContextOk`). `CompletionContext` is not
    part of this model, so whether it can hold such a position is not known;
  - a provider outside this model (`Other`) that raises.
