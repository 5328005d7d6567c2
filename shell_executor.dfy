/** `ShellExecutor` (src/slashed/shell_executor.py): runs a command line that
    a shell grammar has already parsed into a syntax tree. Simple commands
    run registered commands; pipelines thread each stage's stdout into the
    next stage's stdin; lists join parts with `&&`, `||` and `;`. Every
    failure becomes a `CommandResult` with a non-zero exit code. */
module Shell {
  import opened Wrappers
  import opened Builtins
  import opened Base
  import Store

  /** A node of the syntax tree, by its `kind`. */
  datatype Node =
    | Word(word: string)
    | Redirect
    | Assignment
    | Operator(op: string)
    | CommandNode(parts: seq<Node>)
    | PipelineNode(parts: seq<Node>)
    | ListNode(parts: seq<Node>)
    | CompoundNode
    | OtherNode(kind: string)  // any other kind, e.g. "pipe" or "reservedword"

  /** The kinds the executor dispatches on. */
  predicate KnownKind(k: string) {
    k == "word" || k == "redirect" || k == "assignment" || k == "operator" ||
    k == "command" || k == "pipeline" || k == "list" || k == "compound"
  }

  /** A tree as the grammar builds it: a node of another kind never carries
      the name of one the executor dispatches on. */
  predicate WellFormed(n: Node)
    decreases n
  {
    match n
    case OtherNode(k) => !KnownKind(k)
    case CommandNode(parts) => forall i :: 0 <= i < |parts| ==> WellFormed(parts[i])
    case PipelineNode(parts) => forall i :: 0 <= i < |parts| ==> WellFormed(parts[i])
    case ListNode(parts) => forall i :: 0 <= i < |parts| ==> WellFormed(parts[i])
    case _ => true
  }

  /** In a well-formed tree the `kind` string tells the constructor: the
      executor's dispatch on `kind` is a dispatch on the node itself. */
  lemma KindDetermines(n: Node)
    requires WellFormed(n)
    ensures Kind(n) == "command" <==> n.CommandNode?
    ensures Kind(n) == "pipeline" <==> n.PipelineNode?
    ensures Kind(n) == "list" <==> n.ListNode?
    ensures Kind(n) == "compound" <==> n.CompoundNode?
    ensures Kind(n) == "word" <==> n.Word?
  {
  }

  /** `node.kind` */
  function Kind(n: Node): string {
    match n
    case Word(_) => "word"
    case Redirect => "redirect"
    case Assignment => "assignment"
    case Operator(_) => "operator"
    case CommandNode(_) => "command"
    case PipelineNode(_) => "pipeline"
    case ListNode(_) => "list"
    case CompoundNode => "compound"
    case OtherNode(k) => k
  }

  /** What the grammar made of a command line: its top-level parts, or the
      message of the parse error it raised. */
  datatype ParseOutcome = Parsed(parts: seq<Node>) | ParseError(detail: string)

  /** The words of a command node's parts, in order; redirections,
      assignments and anything else are skipped. */
  function Words(parts: seq<Node>): (r: seq<string>)
    ensures |r| <= |parts|
    ensures forall i :: 0 <= i < |parts| && parts[i].Word? ==> parts[i].word in r
    ensures forall w :: w in r ==> Word(w) in parts
  {
    if parts == [] then []
    else
      var init, last := parts[..|parts| - 1], parts[|parts| - 1];
      assert parts == init + [last];
      Words(init) + if last.Word? then [last.word] else []
  }

  /** The words are collected part by part, in order: those of a
      concatenation are the words of each half, one after the other. */
  lemma {:induction false} WordsAppend(a: seq<Node>, b: seq<Node>)
    ensures Words(a + b) == Words(a) + Words(b)
    decreases |b|
  {
    if b == [] {
      assert a + b == a;
    } else {
      var n := |b| - 1;
      assert (a + b)[..|a + b| - 1] == a + b[..n];
      WordsAppend(a, b[..n]);
    }
  }

  /** A single part gives its own word, or nothing when it is not a word. */
  lemma WordsOne(x: Node)
    ensures Words([x]) == if x.Word? then [x.word] else []
  {
    assert [x][..0] == [];
  }

  /** A token the executor reads as a short flag: a dash and one letter. */
  predicate IsShortFlag(t: string) {
    StartsWith(t, "-") && |t| == 2 && IsAlpha(t[1])
  }

  /** How the executor reads the words after the command name: `--k v`
      binds `k`, `-x v` binds `x`, and everything else is positional,
      including a final `--k` or `-x` that has no value. */
  function ShellSplit(raw: seq<string>): (r: seq<Arg>)
    ensures |r| <= |raw| <= 2 * |r|
    decreases |raw|
  {
    if raw == [] then []
    else if StartsWith(raw[0], "--") && |raw| >= 2 then [Long(raw[0][2..], raw[1])] + ShellSplit(raw[2..])
    else if IsShortFlag(raw[0]) && |raw| >= 2 then [Short(raw[0][1], raw[1])] + ShellSplit(raw[2..])
    else [Positional(raw[0])] + ShellSplit(raw[1..])
  }

  /** A `-x value` pair is read from the two words it renders to. */
  lemma ShortTokens(w: string, v: string)
    requires IsShortFlag(w)
    ensures TokensOf(Short(w[1], v)) == [w, v]
  {
    assert w == "-" + [w[1]];
  }

  /** Every word lands in exactly one place: rendering the split gives the
      words back, in order. */
  lemma {:induction false} ShellSplitRender(raw: seq<string>)
    ensures Render(ShellSplit(raw)) == raw
    decreases |raw|
  {
    if raw == [] {
    } else if StartsWith(raw[0], "--") && |raw| >= 2 {
      LongTokens(raw[0], raw[1]);
      ShellSplitRender(raw[2..]);
      RenderStep(raw, 2, Long(raw[0][2..], raw[1]), ShellSplit(raw[2..]));
    } else if IsShortFlag(raw[0]) && |raw| >= 2 {
      ShortTokens(raw[0], raw[1]);
      ShellSplitRender(raw[2..]);
      RenderStep(raw, 2, Short(raw[0][1], raw[1]), ShellSplit(raw[2..]));
    } else {
      ShellSplitRender(raw[1..]);
      RenderStep(raw, 1, Positional(raw[0]), ShellSplit(raw[1..]));
    }
  }

  /** The arguments the executor can have read: short flags are letters,
      and only the last item may be a positional word that looks like a
      flag. */
  predicate ShellForm(items: seq<Arg>) {
    forall i :: 0 <= i < |items| ==>
      (items[i].Short? ==> IsAlpha(items[i].letter)) &&
      (items[i].Positional? && i < |items| - 1 ==> !StartsWith(items[i].value, "--") && !IsShortFlag(items[i].value))
  }

  /** An argument put before arguments of that form keeps it, when it is
      a short flag with a letter or a positional word that cannot be read
      as a flag unless it comes last. */
  lemma ShellFormCons(first: Arg, rest: seq<Arg>)
    requires ShellForm(rest)
    requires first.Short? ==> IsAlpha(first.letter)
    requires first.Positional? && rest != [] ==> !StartsWith(first.value, "--") && !IsShortFlag(first.value)
    ensures ShellForm([first] + rest)
  {
    var items := [first] + rest;
    forall i | 1 <= i < |items| ensures items[i] == rest[i - 1] {
    }
  }

  /** The split yields arguments of that form. */
  lemma {:induction false} ShellSplitForm(raw: seq<string>)
    ensures ShellForm(ShellSplit(raw))
    decreases |raw|
  {
    if raw != [] {
      if StartsWith(raw[0], "--") && |raw| >= 2 {
        ShellSplitForm(raw[2..]);
        ShellFormCons(Long(raw[0][2..], raw[1]), ShellSplit(raw[2..]));
      } else if IsShortFlag(raw[0]) && |raw| >= 2 {
        ShellSplitForm(raw[2..]);
        ShellFormCons(Short(raw[0][1], raw[1]), ShellSplit(raw[2..]));
      } else {
        ShellSplitForm(raw[1..]);
        ShellFormCons(Positional(raw[0]), ShellSplit(raw[1..]));
      }
    }
  }

  /** Dropping the first argument keeps the form. */
  lemma ShellFormTail(items: seq<Arg>)
    requires items != [] && ShellForm(items)
    ensures ShellForm(items[1..])
  {
    var rest := items[1..];
    forall i | 0 <= i < |rest| ensures
      (rest[i].Short? ==> IsAlpha(rest[i].letter)) &&
      (rest[i].Positional? && i < |rest| - 1 ==> !StartsWith(rest[i].value, "--") && !IsShortFlag(rest[i].value)) {
      assert rest[i] == items[i + 1];
    }
  }

  /** Conversely, splitting the rendering of such arguments gives them
      back. */
  lemma {:induction false} ShellSplitOfRender(items: seq<Arg>)
    requires ShellForm(items)
    ensures ShellSplit(Render(items)) == items
    decreases |items|
  {
    if items != [] {
      var first, rest := items[0], items[1..];
      assert items == [first] + rest;
      RenderAppend([first], rest);
      assert Render([first]) == TokensOf(first);
      ShellFormTail(items);
      ShellSplitOfRender(rest);
      var t := Render(items);
      assert t == TokensOf(first) + Render(rest);
      match first
      case Long(k, v) =>
        assert StartsWith("--" + k, "--") && ("--" + k)[2..] == k;
        assert t[2..] == Render(rest);
      case Short(c, v) =>
        assert ("-" + [c])[1] == c;
        assert !StartsWith("-" + [c], "--") by {
          assert ("-" + [c])[..2][1] == c && "--"[1] == '-';
        }
        assert IsShortFlag("-" + [c]);
        assert t[2..] == Render(rest);
      case Positional(v) =>
        assert t[1..] == Render(rest);
    }
  }

  /** Positional words plus two words per pair account for every word. */
  lemma ShellSplitCounts(raw: seq<string>)
    ensures |Positionals(ShellSplit(raw))| + 2 * PairCount(ShellSplit(raw)) == |raw|
  {
    ShellSplitRender(raw);
    RenderLength(ShellSplit(raw));
  }

  /** `-1` and `-abc` are positional; `-v x` binds `v`; a final `--k` is
      positional. */
  lemma ShellSplitExamples()
    ensures ShellSplit(["-1", "-abc"]) == [Positional("-1"), Positional("-abc")]
    ensures ShellSplit(["-v", "x", "--k"]) == [Short('v', "x"), Positional("--k")]
  {
    assert "-1"[..2][1] == '1' && "-abc"[..2][1] == 'a' && "--"[1] == '-';
    assert !StartsWith("-1", "--") && !IsShortFlag("-1") && !StartsWith("-abc", "--") && !IsShortFlag("-abc");
    assert ["-1", "-abc"][1..] == ["-abc"];
    assert "-v"[..2][1] == 'v' && "-v"[..1] == "-";
    assert !StartsWith("-v", "--") && IsShortFlag("-v");
    assert ["-v", "x", "--k"][2..] == ["--k"];
    assert StartsWith("--k", "--");
  }

  /** `_normalize_result`: what a handler's return value means as a result. */
  function Normalize(v: Value): (r: CommandResult)
    ensures v.ResultValue? ==> r == v.result
    ensures !v.ResultValue? ==> r.stderr == ""
    ensures v.IntValue? ==> r.exitCode == v.n && r.stdout == ""
    ensures v.BoolValue? ==> r.exitCode == (if v.b then 1 else 0) && r.stdout == ""
    ensures v.NoneValue? || v.StrValue? || v.OtherValue? ==> r.Succeeded()
    ensures v.StrValue? ==> r.stdout == v.s
    ensures v.OtherValue? ==> r.stdout == v.text
    ensures v.NoneValue? ==> r == DefaultResult
  {
    match v
    case NoneValue => DefaultResult
    case ResultValue(result) => result
    case StrValue(s) => CommandResult(s, "", 0)
    case BoolValue(b) => CommandResult("", "", if b then 1 else 0)
    case IntValue(n) => CommandResult("", "", n)
    case OtherValue(text) => CommandResult(text, "", 0)
  }

  /** An exception raised by a command, as a result: exit 1, with the
      message of a `CommandError` or `"Error: "` and any other message. */
  function ErrorResult(e: Exception): (r: CommandResult)
    ensures r.exitCode == 1 && r.stdout == ""
    ensures e.CommandError? ==> r.stderr == e.message
    ensures !e.CommandError? ==> r.stderr == "Error: " + e.message
  {
    if e.CommandError? then CommandResult("", e.message, 1) else CommandResult("", "Error: " + e.message, 1)
  }

  /** `_execute_command` on a command node with these parts. A node without
      words does nothing, an unregistered name is reported with exit 127,
      and a registered command runs its handler on the positionals and
      bindings of the remaining words (`RegisteredCommandRuns`). A
      `Command`, whose `execute` returns None, either succeeds with no
      output or fails with exit 1. */
  function CommandOutcome(cs: seq<BaseCommand>, parts: seq<Node>, ctx: CommandContext): (r: CommandResult)
    ensures Words(parts) == [] ==> r == DefaultResult
    ensures Words(parts) != [] && Store.Lookup(cs, Words(parts)[0]).None? ==>
      r == CommandResult("", "Unknown command: " + Words(parts)[0], 127)
    ensures var words := Words(parts);
      (words != [] && Store.Lookup(cs, words[0]).Some? && Store.Lookup(cs, words[0]).value.impl.FunctionCommand?) ==>
        r == DefaultResult || (r.exitCode == 1 && r.stdout == "")
  {
    var words := Words(parts);
    if words == [] then DefaultResult
    else
      match Store.Lookup(cs, words[0])
      case None => CommandResult("", "Unknown command: " + words[0], 127)
      case Some(command) =>
        var items := ShellSplit(words[1..]);
        match Execute(command, ctx, Positionals(items), Bindings(items))
        case Ok(v) => Normalize(v)
        case Err(e) => ErrorResult(e)
  }

  /** A registered command is executed on the positionals and bindings of
      the remaining words, split as the shell executor splits them: a value
      it returns is normalized, an exception it raises is reported. */
  lemma RegisteredCommandRuns(cs: seq<BaseCommand>, parts: seq<Node>, ctx: CommandContext)
    requires Words(parts) != [] && Store.Lookup(cs, Words(parts)[0]).Some?
    ensures var words := Words(parts);
      var items := ShellSplit(words[1..]);
      var outcome := Execute(Store.Lookup(cs, words[0]).value, ctx, Positionals(items), Bindings(items));
      var r := CommandOutcome(cs, parts, ctx);
      (outcome.Ok? ==> r == Normalize(outcome.value)) && (outcome.Err? ==> r == ErrorResult(outcome.error))
  {
  }

  /** The stages of a pipeline: its command children, in order. */
  function Stages(parts: seq<Node>): (r: seq<Node>)
    ensures |r| <= |parts|
    ensures forall k :: 0 <= k < |r| ==> r[k].CommandNode? && r[k] in parts
    ensures forall i :: 0 <= i < |parts| && parts[i].CommandNode? ==> parts[i] in r
  {
    if parts == [] then []
    else
      var init, last := parts[..|parts| - 1], parts[|parts| - 1];
      assert parts == init + [last];
      Stages(init) + if last.CommandNode? then [last] else []
  }

  /** The stages are taken part by part, in order: those of a
      concatenation are the stages of each half, one after the other. */
  lemma {:induction false} StagesAppend(a: seq<Node>, b: seq<Node>)
    ensures Stages(a + b) == Stages(a) + Stages(b)
    decreases |b|
  {
    if b == [] {
      assert a + b == a;
    } else {
      var n := |b| - 1;
      assert (a + b)[..|a + b| - 1] == a + b[..n];
      StagesAppend(a, b[..n]);
    }
  }

  /** A single part is a stage exactly when it is a command. */
  lemma StagesOne(x: Node)
    ensures Stages([x]) == if x.CommandNode? then [x] else []
  {
    assert [x][..0] == [];
  }

  /** Runs one pipeline stage on the given stdin, the rest of the context
      being the caller's. */
  function StageRunner(cs: seq<BaseCommand>, ctx: CommandContext): (Node, string) -> CommandResult {
    (n: Node, stdin: string) => CommandOutcome(cs, if n.CommandNode? then n.parts else [], ctx.(stdin := stdin))
  }

  /** The results of the stages of a pipeline, run in order by `run`, the
      first on `stdin` and each later one on the previous stage's stdout. */
  function StageResults(run: (Node, string) -> CommandResult, stages: seq<Node>, stdin: string): (r: seq<CommandResult>)
    ensures |r| == |stages|
    decreases |stages|
  {
    if stages == [] then []
    else
      var n := |stages| - 1;
      var prev := StageResults(run, stages[..n], stdin);
      prev + [run(stages[n], if prev == [] then stdin else prev[|prev| - 1].stdout)]
  }

  /** Positions k and k-1 of a sequence agree with those of a prefix. */
  lemma PrefixAt(r: seq<CommandResult>, prev: seq<CommandResult>, k: nat)
    requires k < |prev| <= |r| && r[..|prev|] == prev
    ensures r[k] == prev[k] && (k > 0 ==> r[k - 1] == prev[k - 1])
  {
    assert r[..|prev|][k] == r[k];
    if k > 0 {
      assert r[..|prev|][k - 1] == r[k - 1];
    }
  }

  /** Stage 0 reads the pipeline's stdin and stage k the stdout of stage
      k-1. */
  lemma {:induction false} StageInput(run: (Node, string) -> CommandResult, stages: seq<Node>, stdin: string, k: nat)
    requires k < |stages|
    ensures var r := StageResults(run, stages, stdin);
      r[k] == run(stages[k], if k == 0 then stdin else r[k - 1].stdout)
    decreases |stages|
  {
    var n := |stages| - 1;
    if k < n {
      var prev := StageResults(run, stages[..n], stdin);
      var r := StageResults(run, stages, stdin);
      StageInput(run, stages[..n], stdin, k);
      assert stages[..n][k] == stages[k];
      assert r[..n] == prev;
      PrefixAt(r, prev, k);
    }
  }

  /** The results of one more stage: those of the stages before it, then
      its own, run on the previous stage's stdout. */
  lemma StageResultsStep(run: (Node, string) -> CommandResult, stages: seq<Node>, stdin: string, i: nat)
    requires i < |stages|
    ensures var prev := StageResults(run, stages[..i], stdin);
      StageResults(run, stages[..i + 1], stdin) ==
        prev + [run(stages[i], if prev == [] then stdin else prev[|prev| - 1].stdout)]
  {
    assert stages[..i + 1][..i] == stages[..i];
  }

  /** `_execute_pipeline`: the last stage's result, or the default result
      for a pipeline without command stages. The last stage runs on the
      caller's context with the previous stage's stdout as its stdin, or the
      caller's own stdin when it is the only stage. */
  function PipelineOutcome(cs: seq<BaseCommand>, parts: seq<Node>, ctx: CommandContext): (r: CommandResult)
    ensures Stages(parts) == [] ==> r == DefaultResult
    ensures var stages := Stages(parts);
      stages != [] ==>
        r == CommandOutcome(cs, stages[|stages| - 1].parts,
               ctx.(stdin := if |stages| == 1 then ctx.stdin
                             else StageResults(StageRunner(cs, ctx), stages, ctx.stdin)[|stages| - 2].stdout))
  {
    var stages := Stages(parts);
    if stages == [] then DefaultResult
    else
      StageInput(StageRunner(cs, ctx), stages, ctx.stdin, |stages| - 1);
      StageResults(StageRunner(cs, ctx), stages, ctx.stdin)[|stages| - 1]
  }

  /** A pipeline of one command is that command, run on the caller's own
      context. */
  lemma SingleStagePipeline(cs: seq<BaseCommand>, c: Node, ctx: CommandContext)
    requires c.CommandNode?
    ensures PipelineOutcome(cs, [c], ctx) == CommandOutcome(cs, c.parts, ctx)
  {
    StagesOne(c);
    assert ctx.(stdin := ctx.stdin) == ctx;
  }

  /** A list part that runs: a command or a pipeline. */
  predicate Runnable(n: Node) {
    n.CommandNode? || n.PipelineNode?
  }

  /** Runs a list part: a command or a pipeline (any other part is never
      run, and gets the default result). */
  function Runner(cs: seq<BaseCommand>, ctx: CommandContext): Node -> CommandResult {
    (n: Node) => if n.CommandNode? then CommandOutcome(cs, n.parts, ctx)
                 else if n.PipelineNode? then PipelineOutcome(cs, n.parts, ctx)
                 else DefaultResult
  }

  /** Whether a part runs after the pending operator, given the exit code
      so far: after `&&` only on success, after `||` only on failure,
      otherwise always. */
  function ShouldRun(pending: Option<string>, exit: int): (r: bool)
    ensures pending == Some("&&") ==> (r <==> exit == 0)
    ensures pending == Some("||") ==> (r <==> exit != 0)
    ensures pending != Some("&&") && pending != Some("||") ==> r
  {
    match pending
    case None => true
    case Some(op) => if op == "&&" then exit == 0 else if op == "||" then exit != 0 else true
  }

  /** The result so far: the last run part's, or the default result if
      none ran. */
  function Latest(ran: seq<CommandResult>): CommandResult {
    if ran == [] then DefaultResult else ran[|ran| - 1]
  }

  /** How far a list has got: the operator waiting for the next part, and
      the results of the parts that ran, in order. */
  datatype ListState = ListState(pending: Option<string>, ran: seq<CommandResult>)

  /** One part of a list. An operator becomes pending; a command or
      pipeline runs when `ShouldRun` says so and, run or not, clears the
      pending operator; other parts change nothing. */
  function Step(run: Node -> CommandResult, s: ListState, part: Node): ListState {
    if part.Operator? then ListState(Some(part.op), s.ran)
    else if Runnable(part) then
      ListState(None, if ShouldRun(s.pending, Latest(s.ran).exitCode) then s.ran + [run(part)] else s.ran)
    else s
  }

  /** The state after the given parts, taken left to right from state
      `s`, `run` giving the result of a part that runs. */
  function Fold(run: Node -> CommandResult, s: ListState, parts: seq<Node>): ListState
    decreases |parts|
  {
    if parts == [] then s else Fold(run, Step(run, s, parts[0]), parts[1..])
  }

  /** The state after all the parts of a list. */
  function ListTrace(run: Node -> CommandResult, parts: seq<Node>): ListState {
    Fold(run, ListState(None, []), parts)
  }

  /** The stdout of every run part, concatenated in order. */
  function Stdouts(ran: seq<CommandResult>): string {
    if ran == [] then "" else Stdouts(ran[..|ran| - 1]) + ran[|ran| - 1].stdout
  }

  /** The stderr of every run part, concatenated in order. */
  function Stderrs(ran: seq<CommandResult>): string {
    if ran == [] then "" else Stderrs(ran[..|ran| - 1]) + ran[|ran| - 1].stderr
  }

  /** `"".join(xs)` */
  function Concat(xs: seq<string>): string {
    if xs == [] then "" else Concat(xs[..|xs| - 1]) + xs[|xs| - 1]
  }

  lemma OutputsAppend(ran: seq<CommandResult>, r: CommandResult)
    ensures Stdouts(ran + [r]) == Stdouts(ran) + r.stdout
    ensures Stderrs(ran + [r]) == Stderrs(ran) + r.stderr
    ensures Latest(ran + [r]) == r
  {
    assert (ran + [r])[..|ran|] == ran;
  }

  /** The outputs of a single result are its own. */
  lemma OutputsOne(r: CommandResult)
    ensures Stdouts([r]) == r.stdout && Stderrs([r]) == r.stderr && Latest([r]) == r
  {
    OutputsAppend([], r);
    assert [] + [r] == [r];
  }

  lemma ConcatAppend(xs: seq<string>, x: string)
    ensures Concat(xs + [x]) == Concat(xs) + x
  {
    assert (xs + [x])[..|xs|] == xs;
  }

  /** `_execute_list`: the outputs of the parts that ran, concatenated, and
      the exit code of the last part that ran (0 if none did). A list in
      which nothing can run gives the default result, and a list of one
      command or pipeline gives that part's result. */
  function ListOutcome(run: Node -> CommandResult, parts: seq<Node>): (r: CommandResult)
    ensures (forall i :: 0 <= i < |parts| ==> !Runnable(parts[i])) ==> r == DefaultResult
    ensures |parts| == 1 && Runnable(parts[0]) ==> r == run(parts[0])
  {
    var ran := ListTrace(run, parts).ran;
    NothingRunsIn(run, parts);
    OnlyPartRuns(run, parts);
    CommandResult(Stdouts(ran), Stderrs(ran), Latest(ran).exitCode)
  }

  /** In a list without commands or pipelines nothing runs. */
  lemma NothingRunsIn(run: Node -> CommandResult, parts: seq<Node>)
    ensures (forall i :: 0 <= i < |parts| ==> !Runnable(parts[i])) ==> ListTrace(run, parts).ran == []
  {
    if forall i :: 0 <= i < |parts| ==> !Runnable(parts[i]) {
      FoldNothingRan(run, ListState(None, []), parts);
    }
  }

  /** The only part of a list runs when it is a command or a pipeline, and
      the outputs are its own. */
  lemma OnlyPartRuns(run: Node -> CommandResult, parts: seq<Node>)
    ensures |parts| == 1 && Runnable(parts[0]) ==>
      var ran := ListTrace(run, parts).ran;
      ran == [run(parts[0])] &&
      Stdouts(ran) == run(parts[0]).stdout && Stderrs(ran) == run(parts[0]).stderr && Latest(ran) == run(parts[0])
  {
    if |parts| == 1 && Runnable(parts[0]) {
      var s1 := Step(run, ListState(None, []), parts[0]);
      FoldFrom(run, ListState(None, []), parts, 0);
      assert parts[0..] == parts && parts[1..] == [];
      assert Fold(run, s1, []) == s1;
      assert [] + [run(parts[0])] == [run(parts[0])];
      OutputsOne(run(parts[0]));
    }
  }

  /** Folding from index `i` takes one step on part `i`. */
  lemma FoldFrom(run: Node -> CommandResult, s: ListState, parts: seq<Node>, i: nat)
    requires i < |parts|
    ensures Fold(run, s, parts[i..]) == Fold(run, Step(run, s, parts[i]), parts[i + 1..])
  {
    assert parts[i..][0] == parts[i] && parts[i..][1..] == parts[i + 1..];
  }

  /** One more part at the end is one more step at the end: the parts are
      taken strictly left to right. */
  lemma {:induction false} FoldAppend(run: Node -> CommandResult, s: ListState, parts: seq<Node>, part: Node)
    ensures Fold(run, s, parts + [part]) == Step(run, Fold(run, s, parts), part)
    decreases |parts|
  {
    if parts == [] {
      assert [] + [part] == [part] && [part][1..] == [];
    } else {
      assert (parts + [part])[0] == parts[0] && (parts + [part])[1..] == parts[1..] + [part];
      FoldAppend(run, Step(run, s, parts[0]), parts[1..], part);
    }
  }

  /** The trace of a list one part longer. */
  lemma TraceAppend(run: Node -> CommandResult, parts: seq<Node>, part: Node)
    ensures ListTrace(run, parts + [part]) == Step(run, ListTrace(run, parts), part)
  {
    FoldAppend(run, ListState(None, []), parts, part);
  }

  /** `a op b`: `b` runs exactly when `ShouldRun(op, a's exit code)`; the
      outputs of what ran are concatenated and the exit code is that of
      the last part that ran. */
  lemma TwoPartList(run: Node -> CommandResult, a: Node, op: string, b: Node)
    requires Runnable(a) && Runnable(b)
    ensures var ra, rb := run(a), run(b);
      ListOutcome(run, [a, Operator(op), b]) ==
        if ShouldRun(Some(op), ra.exitCode) then CommandResult(ra.stdout + rb.stdout, ra.stderr + rb.stderr, rb.exitCode)
        else ra
  {
    var ra, rb := run(a), run(b);
    var parts := [a, Operator(op), b];
    var s1 := ListState(None, [ra]);
    var s2 := ListState(Some(op), [ra]);
    assert ListTrace(run, parts) == Step(run, s2, b) by {
      assert Step(run, ListState(None, []), a) == s1 by { assert [] + [ra] == [ra]; }
      FoldFrom(run, ListState(None, []), parts, 0);
      FoldFrom(run, s1, parts, 1);
      FoldFrom(run, s2, parts, 2);
      assert parts[0..] == parts && parts[3..] == [];
    }
    OutputsOne(ra);
    if ShouldRun(Some(op), ra.exitCode) {
      assert Step(run, s2, b).ran == [ra] + [rb];
      OutputsAppend([ra], rb);
    }
  }

  /** The pending operator is cleared after a part even when that part was
      skipped: in `a && b c` with `a` failing, `b` is skipped and `c` runs. */
  lemma SkippedPartClearsOperator(run: Node -> CommandResult, a: Node, b: Node, c: Node)
    requires Runnable(a) && Runnable(b) && Runnable(c)
    requires run(a).exitCode != 0
    ensures var ra, rc := run(a), run(c);
      ListOutcome(run, [a, Operator("&&"), b, c]) == CommandResult(ra.stdout + rc.stdout, ra.stderr + rc.stderr, rc.exitCode)
  {
    var ra, rc := run(a), run(c);
    var parts := [a, Operator("&&"), b, c];
    var s1 := ListState(None, [ra]);
    var s2 := ListState(Some("&&"), [ra]);
    assert ListTrace(run, parts).ran == [ra] + [rc] by {
      assert Step(run, ListState(None, []), a) == s1 by { assert [] + [ra] == [ra]; }
      assert Step(run, s1, Operator("&&")) == s2;
      assert Step(run, s2, b) == s1;
      FoldFrom(run, ListState(None, []), parts, 0);
      FoldFrom(run, s1, parts, 1);
      FoldFrom(run, s2, parts, 2);
      FoldFrom(run, s1, parts, 3);
      assert parts[0..] == parts && parts[4..] == [];
    }
    OutputsOne(ra);
    OutputsAppend([ra], rc);
  }

  /** Parts that are neither commands nor pipelines run nothing. */
  lemma {:induction false} FoldNothingRan(run: Node -> CommandResult, s: ListState, parts: seq<Node>)
    requires forall i :: 0 <= i < |parts| ==> !Runnable(parts[i])
    ensures Fold(run, s, parts).ran == s.ran
    decreases |parts|
  {
    if parts != [] {
      assert !Runnable(parts[0]);
      FoldNothingRan(run, Step(run, s, parts[0]), parts[1..]);
    }
  }

  /** `_execute_node` */
  function NodeOutcome(cs: seq<BaseCommand>, node: Node, ctx: CommandContext): CommandResult {
    match node
    case CommandNode(parts) => CommandOutcome(cs, parts, ctx)
    case PipelineNode(parts) => PipelineOutcome(cs, parts, ctx)
    case ListNode(parts) => ListOutcome(Runner(cs, ctx), parts)
    case CompoundNode => CommandResult("", "Compound commands (if/for/while) not supported", 1)
    case _ => CommandResult("", "Unknown node kind: " + Kind(node), 1)
  }

  /** `execute`: a parse error is reported with exit 1, an empty line gives
      the default result, and otherwise the result is that of the last
      top-level part. */
  function LineOutcome(cs: seq<BaseCommand>, parsed: ParseOutcome, ctx: CommandContext): CommandResult {
    match parsed
    case ParseError(detail) => CommandResult("", "Parse error: " + detail, 1)
    case Parsed(parts) => if parts == [] then DefaultResult else NodeOutcome(cs, parts[|parts| - 1], ctx)
  }

  /** The word-collecting loop of `_execute_command`. */
  method CollectWords(parts: seq<Node>) returns (words: seq<string>)
    ensures words == Words(parts)
  {
    words := [];
    for i := 0 to |parts|
      invariant words == Words(parts[..i])
    {
      assert parts[..i + 1][..i] == parts[..i];
      var part := parts[i];
      if part.Word? {
        words := words + [part.word];
      }
      // redirections and assignments are skipped
    }
    assert parts[..|parts|] == parts;
  }

  /** `ShellSplit` of the words from index `i` on, by its first word. */
  lemma ShellSplitFrom(raw: seq<string>, i: nat)
    requires i < |raw|
    ensures ShellSplit(raw[i..]) ==
      if StartsWith(raw[i], "--") && i + 1 < |raw| then [Long(raw[i][2..], raw[i + 1])] + ShellSplit(raw[i + 2..])
      else if IsShortFlag(raw[i]) && i + 1 < |raw| then [Short(raw[i][1], raw[i + 1])] + ShellSplit(raw[i + 2..])
      else [Positional(raw[i])] + ShellSplit(raw[i + 1..])
  {
    var rest := raw[i..];
    assert rest[0] == raw[i] && rest[1..] == raw[i + 1..];
    if i + 1 < |raw| {
      assert rest[1] == raw[i + 1] && rest[2..] == raw[i + 2..];
    }
  }

  /** Reading `item` from `k` words at index `i` moves the split forward. */
  lemma Advance(raw: seq<string>, i: nat, k: nat, done: seq<Arg>, item: Arg)
    requires i + k <= |raw|
    requires ShellSplit(raw) == done + ShellSplit(raw[i..])
    requires ShellSplit(raw[i..]) == [item] + ShellSplit(raw[i + k..])
    ensures ShellSplit(raw) == (done + [item]) + ShellSplit(raw[i + k..])
    ensures Positionals(done + [item]) == Positionals(done) + if item.Positional? then [item.value] else []
    ensures Bindings(done + [item]) == if item.Positional? then Bindings(done) else Bindings(done)[Key(item) := item.value]
  {
    ReadOneMore(done, item);
  }

  /** A `--k v` pair at index `i` is read as a long pair. */
  lemma AdvanceLong(raw: seq<string>, i: nat, done: seq<Arg>)
    requires i + 1 < |raw| && StartsWith(raw[i], "--")
    requires ShellSplit(raw) == done + ShellSplit(raw[i..])
    ensures var item := Long(raw[i][2..], raw[i + 1]);
      ShellSplit(raw) == (done + [item]) + ShellSplit(raw[i + 2..]) &&
      Positionals(done + [item]) == Positionals(done) &&
      Bindings(done + [item]) == Bindings(done)[raw[i][2..] := raw[i + 1]]
  {
    ShellSplitFrom(raw, i);
    Advance(raw, i, 2, done, Long(raw[i][2..], raw[i + 1]));
  }

  /** A `-x v` pair at index `i` is read as a short pair. */
  lemma AdvanceShort(raw: seq<string>, i: nat, done: seq<Arg>)
    requires i + 1 < |raw| && !StartsWith(raw[i], "--") && IsShortFlag(raw[i])
    requires ShellSplit(raw) == done + ShellSplit(raw[i..])
    ensures var item := Short(raw[i][1], raw[i + 1]);
      ShellSplit(raw) == (done + [item]) + ShellSplit(raw[i + 2..]) &&
      Positionals(done + [item]) == Positionals(done) &&
      Bindings(done + [item]) == Bindings(done)[raw[i][1..] := raw[i + 1]]
  {
    ShellSplitFrom(raw, i);
    Advance(raw, i, 2, done, Short(raw[i][1], raw[i + 1]));
    assert raw[i][1..] == [raw[i][1]];
  }

  /** Any other word at index `i` is read as a positional argument. */
  lemma AdvancePositional(raw: seq<string>, i: nat, done: seq<Arg>)
    requires i < |raw|
    requires !(StartsWith(raw[i], "--") && i + 1 < |raw|) && !(IsShortFlag(raw[i]) && i + 1 < |raw|)
    requires ShellSplit(raw) == done + ShellSplit(raw[i..])
    ensures var item := Positional(raw[i]);
      ShellSplit(raw) == (done + [item]) + ShellSplit(raw[i + 1..]) &&
      Positionals(done + [item]) == Positionals(done) + [raw[i]] &&
      Bindings(done + [item]) == Bindings(done)
  {
    ShellSplitFrom(raw, i);
    Advance(raw, i, 1, done, Positional(raw[i]));
  }

  /** The flag-splitting loop of `_execute_command`. */
  method SplitArguments(rawArgs: seq<string>) returns (args: seq<string>, kwargs: map<string, string>)
    ensures args == Positionals(ShellSplit(rawArgs)) && kwargs == Bindings(ShellSplit(rawArgs))
  {
    args := [];
    kwargs := map[];
    ghost var done: seq<Arg> := [];
    var i := 0;
    while i < |rawArgs|
      invariant 0 <= i <= |rawArgs|
      invariant ShellSplit(rawArgs) == done + ShellSplit(rawArgs[i..])
      invariant args == Positionals(done) && kwargs == Bindings(done)
    {
      var arg := rawArgs[i];
      if StartsWith(arg, "--") && i + 1 < |rawArgs| {
        AdvanceLong(rawArgs, i, done);
        done := done + [Long(arg[2..], rawArgs[i + 1])];
        kwargs := kwargs[arg[2..] := rawArgs[i + 1]];
        i := i + 2;
      } else if StartsWith(arg, "-") && |arg| == 2 && IsAlpha(arg[1]) {
        if i + 1 < |rawArgs| {
          AdvanceShort(rawArgs, i, done);
          done := done + [Short(arg[1], rawArgs[i + 1])];
          kwargs := kwargs[arg[1..] := rawArgs[i + 1]];
          i := i + 2;
        } else {
          AdvancePositional(rawArgs, i, done);
          done := done + [Positional(arg)];
          args := args + [arg];
          i := i + 1;
        }
      } else {
        AdvancePositional(rawArgs, i, done);
        done := done + [Positional(arg)];
        args := args + [arg];
        i := i + 1;
      }
    }
    assert done + [] == done;
  }

  class ShellExecutor {
    /** The store whose commands the executor runs. */
    const store: Store.CommandStore

    constructor (store: Store.CommandStore)
      ensures this.store == store
    {
      this.store := store;
    }

    /** `_execute_command`: collects the words, looks up the command, splits
        the remaining words into positional and keyword arguments, runs
        the command and turns what it returned or raised into a result. */
    method ExecuteCommand(node: Node, ctx: CommandContext) returns (r: CommandResult)
      requires node.CommandNode?
      ensures r == CommandOutcome(store.commands, node.parts, ctx)
    {
      var words := CollectWords(node.parts);
      if words == [] {
        return DefaultResult;
      }
      var cmdName := words[0];
      var rawArgs := words[1..];
      var command := store.GetCommand(cmdName);
      if command.None? {
        return CommandResult("", "Unknown command: " + cmdName, 127);
      }
      var args, kwargs := SplitArguments(rawArgs);
      var outcome := Base.Execute(command.value, ctx, args, kwargs);
      match outcome
      case Ok(v) => r := Normalize(v);
      case Err(e) =>
        if e.CommandError? {
          r := CommandResult("", e.message, 1);
        } else {
          r := CommandResult("", "Error: " + e.message, 1);
        }
    }

    /** `_execute_pipeline`: runs the command stages in order, each with
        the previous stage's stdout as its stdin, and returns the last
        stage's result. The caller's context is a value and stays as it
        was. */
    method ExecutePipeline(node: Node, ctx: CommandContext) returns (r: CommandResult)
      requires node.PipelineNode?
      ensures r == PipelineOutcome(store.commands, node.parts, ctx)
    {
      var commands := Stages(node.parts);
      if commands == [] {
        return DefaultResult;
      }
      ghost var cs := store.commands;
      var currentStdin := ctx.stdin;
      var result := DefaultResult;
      ghost var results: seq<CommandResult> := [];
      for i := 0 to |commands|
        invariant results == StageResults(StageRunner(cs, ctx), commands[..i], ctx.stdin)
        invariant result == Latest(results)
        invariant i < |commands| ==> currentStdin == if results == [] then ctx.stdin else results[|results| - 1].stdout
      {
        StageResultsStep(StageRunner(cs, ctx), commands, ctx.stdin, i);
        assert commands[i].CommandNode?;
        var pipeCtx := ctx.(stdin := currentStdin);
        result := ExecuteCommand(commands[i], pipeCtx);
        results := results + [result];
        assert results[|results| - 1] == result;
        if i < |commands| - 1 {
          currentStdin := result.stdout;
        }
      }
      assert commands[..|commands|] == commands;
      r := result;
    }

    /** `_execute_list`: runs the commands and pipelines the operators
        allow, accumulating their non-empty outputs. */
    method ExecuteList(node: Node, ctx: CommandContext) returns (r: CommandResult)
      requires node.ListNode?
      ensures r == ListOutcome(Runner(store.commands, ctx), node.parts)
    {
      var parts := node.parts;
      var accumulatedStdout: seq<string> := [];
      var accumulatedStderr: seq<string> := [];
      var result := DefaultResult;
      var pendingOperator: Option<string> := None;
      ghost var state := ListState(None, []);
      for i := 0 to |parts|
        invariant Fold(Runner(store.commands, ctx), state, parts[i..]) == ListTrace(Runner(store.commands, ctx), parts)
        invariant pendingOperator == state.pending && result == Latest(state.ran)
        invariant Concat(accumulatedStdout) == Stdouts(state.ran) && Concat(accumulatedStderr) == Stderrs(state.ran)
      {
        FoldFrom(Runner(store.commands, ctx), state, parts, i);
        var part := parts[i];
        if part.Operator? {
          pendingOperator := Some(part.op);
        } else if part.CommandNode? || part.PipelineNode? {
          var shouldExecute := true;
          if pendingOperator == Some("&&") {
            shouldExecute := result.exitCode == 0;
          } else if pendingOperator == Some("||") {
            shouldExecute := result.exitCode != 0;
          }
          if shouldExecute {
            if part.CommandNode? {
              result := ExecuteCommand(part, ctx);
            } else {
              result := ExecutePipeline(part, ctx);
            }
            OutputsAppend(state.ran, result);
            if result.stdout != "" {
              ConcatAppend(accumulatedStdout, result.stdout);
              accumulatedStdout := accumulatedStdout + [result.stdout];
            }
            if result.stderr != "" {
              ConcatAppend(accumulatedStderr, result.stderr);
              accumulatedStderr := accumulatedStderr + [result.stderr];
            }
          }
          pendingOperator := None;
        }
        state := Step(Runner(store.commands, ctx), state, part);
      }
      assert parts[|parts|..] == [];
      r := CommandResult(Concat(accumulatedStdout), Concat(accumulatedStderr), result.exitCode);
    }

    /** `_execute_node`: dispatches on the node's kind. */
    method ExecuteNode(node: Node, ctx: CommandContext) returns (r: CommandResult)
      ensures r == NodeOutcome(store.commands, node, ctx)
    {
      match node
      case CommandNode(_) => r := ExecuteCommand(node, ctx);
      case PipelineNode(_) => r := ExecutePipeline(node, ctx);
      case ListNode(_) => r := ExecuteList(node, ctx);
      case CompoundNode => r := CommandResult("", "Compound commands (if/for/while) not supported", 1);
      case _ => r := CommandResult("", "Unknown node kind: " + Kind(node), 1);
    }

    /** `execute`: runs every top-level part in turn and returns the last
        one's result. */
    method Execute(parsed: ParseOutcome, ctx: CommandContext) returns (r: CommandResult)
      ensures r == LineOutcome(store.commands, parsed, ctx)
    {
      if parsed.ParseError? {
        return CommandResult("", "Parse error: " + parsed.detail, 1);
      }
      var parts := parsed.parts;
      if parts == [] {
        return DefaultResult;
      }
      var result := DefaultResult;
      for i := 0 to |parts|
        invariant i > 0 ==> result == NodeOutcome(store.commands, parts[i - 1], ctx)
      {
        result := ExecuteNode(parts[i], ctx);
      }
      r := result;
    }
  }
}
