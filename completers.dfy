/** The pure completion providers of src/slashed/completers.py: fixed choices,
    delimiter-separated multiple values, `--keyword` names and chains of
    providers. Each `get_completions` generator becomes a function returning
    the sequence of items it yields. */
module Completers {
  import opened Wrappers
  import opened Builtins

  /** One completion offered to the user. */
  datatype CompletionItem = CompletionItem(text: string, metadata: Option<string>, kind: string)

  /** What the providers read of a completion context: the word under the
      cursor, the arguments typed so far and the index of the word being
      completed among them. */
  datatype CompletionContext = CompletionContext(currentWord: string, commandArgs: seq<string>, argPosition: nat)

  /** The context's own invariant: the argument before the current one, if
      any, is among the arguments typed so far. */
  predicate ContextOk(ctx: CompletionContext) {
    ctx.argPosition <= |ctx.commandArgs|
  }

  /** A Python `dict[str, str]`: its keys in insertion order and its entries. */
  datatype Dict = Dict(keys: seq<string>, entries: map<string, string>)

  predicate DictOk(d: Dict) {
    (forall i, j :: 0 <= i < j < |d.keys| ==> d.keys[i] != d.keys[j]) &&
    d.entries.Keys == set k | k in d.keys
  }

  /** The completion providers. `Other` stands for any provider outside this
      model (paths, environment variables, user-defined ones): all that is
      known of it is the function from context to items. */
  datatype Provider =
    | Choice(choices: seq<string>, descriptions: map<string, string>, ignoreCase: bool)
    | MultiValue(provider: Provider, delimiter: string, strip: bool)
    | Keyword(keywords: Dict, valueProvider: Option<Provider>)
    | Chained(providers: seq<Provider>)
    | Other(complete: CompletionContext -> seq<CompletionItem>)

  /** A provider every `get_completions` of which runs without raising:
      `str.split` refuses an empty delimiter. */
  predicate ProviderOk(p: Provider)
    decreases p
  {
    match p
    case Choice(_, _, _) => true
    case MultiValue(inner, delimiter, _) => delimiter != [] && ProviderOk(inner)
    case Keyword(keywords, valueProvider) =>
      DictOk(keywords) && (valueProvider.Some? ==> ProviderOk(valueProvider.value))
    case Chained(providers) => forall i :: 0 <= i < |providers| ==> ProviderOk(providers[i])
    case Other(_) => true
  }

  /** The argument `ChoiceCompleter` is built from: a mapping from choice to
      description, or a plain sequence of choices. */
  datatype ChoiceSource = FromMapping(mapping: Dict) | FromSequence(items: seq<string>)

  /** `ChoiceCompleter(choices, ignore_case)`: a mapping contributes its keys,
      in order, and their descriptions; a sequence contributes its elements
      and no descriptions. */
  function NewChoiceCompleter(source: ChoiceSource, ignoreCase: bool): (p: Provider)
    requires source.FromMapping? ==> DictOk(source.mapping)
    ensures p.Choice? && p.ignoreCase == ignoreCase
    ensures source.FromMapping? ==>
      p.choices == source.mapping.keys &&
      forall c :: c in p.choices ==> c in p.descriptions && p.descriptions[c] == source.mapping.entries[c]
    ensures source.FromSequence? ==> p.choices == source.items && forall c :: c !in p.descriptions
  {
    match source
    case FromMapping(m) => Choice(m.keys, m.entries, ignoreCase)
    case FromSequence(items) => Choice(items, map[], ignoreCase)
  }

  /** The texts of a sequence of items, in order. */
  function Texts(items: seq<CompletionItem>): (r: seq<string>)
    ensures |r| == |items| && forall i :: 0 <= i < |items| ==> r[i] == items[i].text
  {
    seq(|items|, i requires 0 <= i < |items| => items[i].text)
  }

  lemma TextsAppend(items: seq<CompletionItem>, item: CompletionItem)
    ensures Texts(items + [item]) == Texts(items) + [item.text]
  {
  }

  /** A choice is offered for `word` when it starts with it, both sides
      lower-cased when case is ignored. */
  predicate Matches(choice: string, word: string, ignoreCase: bool) {
    if ignoreCase then StartsWith(Lower(choice), Lower(word)) else StartsWith(choice, word)
  }

  /** The item a matching choice becomes. */
  function ChoiceItem(choice: string, descriptions: map<string, string>): CompletionItem {
    CompletionItem(choice, if choice in descriptions then Some(descriptions[choice]) else None, "choice")
  }

  /** `ChoiceCompleter.get_completions`: the matching choices, in order. */
  function ChoiceItems(choices: seq<string>, descriptions: map<string, string>, ignoreCase: bool, word: string)
    : (r: seq<CompletionItem>)
    ensures Subsequence(Texts(r), choices)
    ensures forall i :: 0 <= i < |r| ==> Matches(r[i].text, word, ignoreCase) && r[i] == ChoiceItem(r[i].text, descriptions)
    ensures forall c :: c in choices && Matches(c, word, ignoreCase) ==> c in Texts(r)
    decreases |choices|
  {
    if choices == [] then []
    else
      var n := |choices| - 1;
      var init := ChoiceItems(choices[..n], descriptions, ignoreCase, word);
      var last := choices[n];
      assert choices == choices[..n] + [last];
      if Matches(last, word, ignoreCase) then
        var r := init + [ChoiceItem(last, descriptions)];
        assert Texts(r)[..|r| - 1] == Texts(init);
        r
      else
        SubsequenceAppend(Texts(init), choices[..n], last);
        init
  }

  /** The choices are offered one by one, in order: one more choice adds
      its own item at the end when it matches, and nothing otherwise, so a
      choice listed twice is offered twice. */
  lemma ChoiceItemsLast(init: seq<string>, last: string, descriptions: map<string, string>, ignoreCase: bool, word: string)
    ensures ChoiceItems(init + [last], descriptions, ignoreCase, word)
      == ChoiceItems(init, descriptions, ignoreCase, word) + if Matches(last, word, ignoreCase) then [ChoiceItem(last, descriptions)] else []
  {
    var choices := init + [last];
    assert choices[..|choices| - 1] == init;
  }

  /** A matching last choice puts its text last. */
  lemma ChoiceTextsLast(init: seq<string>, last: string, descriptions: map<string, string>, ignoreCase: bool, word: string)
    requires Matches(last, word, ignoreCase)
    ensures Texts(ChoiceItems(init + [last], descriptions, ignoreCase, word))
      == Texts(ChoiceItems(init, descriptions, ignoreCase, word)) + [last]
  {
    ChoiceItemsLast(init, last, descriptions, ignoreCase, word);
    TextsAppend(ChoiceItems(init, descriptions, ignoreCase, word), ChoiceItem(last, descriptions));
  }

  /** Every choice matches the empty word. */
  lemma MatchesEmpty(choice: string, ignoreCase: bool)
    ensures Matches(choice, "", ignoreCase)
  {
    assert Lower("") == "";
  }

  /** An empty word offers every choice, in order. */
  lemma {:induction false} EmptyWordOffersAll(choices: seq<string>, descriptions: map<string, string>, ignoreCase: bool)
    ensures Texts(ChoiceItems(choices, descriptions, ignoreCase, "")) == choices
    decreases |choices|
  {
    if choices != [] {
      var n := |choices| - 1;
      EmptyWordOffersAll(choices[..n], descriptions, ignoreCase);
      MatchesEmpty(choices[n], ignoreCase);
      ChoiceTextsLast(choices[..n], choices[n], descriptions, ignoreCase, "");
      assert choices[..n] + [choices[n]] == choices;
    }
  }

  /** What `MultiValueCompleter` puts before each inner completion: the
      values before the last one, re-joined and followed by the delimiter
      (and a space when stripping), or nothing when they join to "". A
      single value gets no prefix. */
  function MultiPrefix(values: seq<string>, delimiter: string, strip: bool): (r: string)
    requires |values| >= 1
    ensures |values| == 1 ==> r == ""
    ensures var earlier := Join(values[..|values| - 1], delimiter);
      (earlier == "" ==> r == "") &&
      (earlier != "" ==> r == earlier + delimiter + (if strip then " " else ""))
  {
    var joined := Join(values[..|values| - 1], delimiter);
    if joined == "" then "" else joined + delimiter + (if strip then " " else "")
  }

  /** The items with `prefix` put before each text, all else kept. */
  function Prefixed(prefix: string, items: seq<CompletionItem>): (r: seq<CompletionItem>)
    ensures |r| == |items|
    ensures forall i :: 0 <= i < |items| ==> r[i] == items[i].(text := prefix + items[i].text)
  {
    seq(|items|, i requires 0 <= i < |items| => items[i].(text := prefix + items[i].text))
  }

  /** The last delimiter-separated segment of `word`, stripped when
      `strip`: what the inner provider of a multi-value completer sees. */
  function CurrentValue(word: string, delimiter: string, strip: bool): string
    requires delimiter != []
  {
    var values := SplitOn(word, delimiter);
    var last := values[|values| - 1];
    if strip then Strip(last) else last
  }

  /** Joining at least two pieces is joining all but the last, then the
      separator, then the last. */
  lemma JoinInitLast(values: seq<string>, delimiter: string)
    requires |values| >= 2
    ensures Join(values, delimiter) == Join(values[..|values| - 1], delimiter) + delimiter + values[|values| - 1]
  {
    var n := |values| - 1;
    assert values[..n] + [values[n]] == values;
    JoinAppend(values[..n], values[n], delimiter);
  }

  /** Without stripping, the prefix followed by the segment the inner
      provider completes gives back the word typed, whenever the earlier
      segments do not join to "". */
  lemma MultiValueRoundTrip(word: string, delimiter: string)
    requires delimiter != []
    requires var values := SplitOn(word, delimiter); Join(values[..|values| - 1], delimiter) != ""
    ensures var values := SplitOn(word, delimiter);
      MultiPrefix(values, delimiter, false) + values[|values| - 1] == word
  {
    var values := SplitOn(word, delimiter);
    var n := |values| - 1;
    var joined := Join(values[..n], delimiter);
    assert n >= 1;
    assert MultiPrefix(values, delimiter, false) == joined + delimiter;
    JoinInitLast(values, delimiter);
    assert Join(values, delimiter) == joined + delimiter + values[n];
    JoinSplit(word, delimiter);
  }

  /** The names among `names` starting with `prefix`, in order. */
  function NamesWithPrefix(names: seq<string>, prefix: string): (r: seq<string>)
    ensures Subsequence(r, names)
    ensures forall i :: 0 <= i < |r| ==> r[i] in names && StartsWith(r[i], prefix)
    ensures forall k :: k in names && StartsWith(k, prefix) ==> k in r
    decreases |names|
  {
    if names == [] then []
    else
      var n := |names| - 1;
      var init := NamesWithPrefix(names[..n], prefix);
      assert names == names[..n] + [names[n]];
      if StartsWith(names[n], prefix) then
        SubsequenceSnoc(init, names[..n], names[n]);
        init + [names[n]]
      else
        SubsequenceAppend(init, names[..n], names[n]);
        init
  }

  /** The item a keyword name becomes. */
  function KeywordItem(name: string, keywords: Dict): CompletionItem
    requires name in keywords.entries
  {
    CompletionItem("--" + name, Some(keywords.entries[name]), "keyword")
  }

  /** The `--name` items of the keyword names starting with `prefix`. */
  function KeywordItems(keywords: Dict, prefix: string): seq<CompletionItem>
    requires forall k :: k in keywords.keys ==> k in keywords.entries
  {
    var names := NamesWithPrefix(keywords.keys, prefix);
    seq(|names|, i requires 0 <= i < |names| => KeywordItem(names[i], keywords))
  }

  /** The concatenation of a sequence of sequences. */
  function Flatten<T>(xss: seq<seq<T>>): seq<T> {
    if xss == [] then [] else Flatten(xss[..|xss| - 1]) + xss[|xss| - 1]
  }

  lemma {:induction false} FlattenAppend<T>(xss: seq<seq<T>>, yss: seq<seq<T>>)
    ensures Flatten(xss + yss) == Flatten(xss) + Flatten(yss)
    decreases |yss|
  {
    if yss != [] {
      var n := |yss| - 1;
      assert (xss + yss)[..|xss + yss| - 1] == xss + yss[..n];
      FlattenAppend(xss, yss[..n]);
    } else {
      assert xss + yss == xss;
    }
  }

  /** `get_completions(context)` of any provider. A choice provider offers
      matching choices of kind "choice"; a keyword provider offers `--name`
      items of kind "keyword" for a word starting with `--`, and nothing
      else when it has no value provider; an empty chain offers nothing. */
  function Completions(p: Provider, ctx: CompletionContext): (r: seq<CompletionItem>)
    requires ProviderOk(p) && ContextOk(ctx)
    ensures p.Choice? ==> forall i :: 0 <= i < |r| ==>
      r[i].kind == "choice" && Matches(r[i].text, ctx.currentWord, p.ignoreCase)
    ensures p.Keyword? && StartsWith(ctx.currentWord, "--") ==> forall i :: 0 <= i < |r| ==>
      r[i].kind == "keyword" && StartsWith(r[i].text, "--")
    ensures p.Keyword? && !StartsWith(ctx.currentWord, "--") && p.valueProvider.None? ==> r == []
    ensures p.Chained? && p.providers == [] ==> r == []
    decreases p
  {
    match p
    case Choice(choices, descriptions, ignoreCase) =>
      ChoiceItems(choices, descriptions, ignoreCase, ctx.currentWord)
    case MultiValue(inner, delimiter, strip) =>
      var values := SplitOn(ctx.currentWord, delimiter);
      var current := CurrentValue(ctx.currentWord, delimiter, strip);
      Prefixed(MultiPrefix(values, delimiter, strip), Completions(inner, ctx.(currentWord := current)))
    case Keyword(keywords, valueProvider) =>
      if StartsWith(ctx.currentWord, "--") then
        KeywordItems(keywords, ctx.currentWord[2..])
      else if valueProvider.Some? && ctx.argPosition > 0 && StartsWith(ctx.commandArgs[ctx.argPosition - 1], "--") then
        Completions(valueProvider.value, ctx)
      else []
    case Chained(providers) =>
      Flatten(seq(|providers|, i requires 0 <= i < |providers| => Completions(providers[i], ctx)))
    case Other(complete) => complete(ctx)
  }

  /** A word starting with `--` is completed to keyword names only: the
      value provider is never consulted, and the items are `--name`, with
      the keyword's description and kind "keyword", for exactly the names
      starting with the rest of the word, in key order. */
  lemma KeywordNamesOnly(keywords: Dict, valueProvider: Option<Provider>, ctx: CompletionContext)
    requires ProviderOk(Keyword(keywords, valueProvider)) && ContextOk(ctx)
    requires StartsWith(ctx.currentWord, "--")
    ensures var r := Completions(Keyword(keywords, valueProvider), ctx);
      var names := NamesWithPrefix(keywords.keys, ctx.currentWord[2..]);
      |r| == |names| &&
      forall i :: 0 <= i < |r| ==>
        names[i] in keywords.entries &&
        r[i] == CompletionItem("--" + names[i], Some(keywords.entries[names[i]]), "keyword")
  {
  }

  /** Any other word is completed by the value provider, with the whole
      context, exactly when there is one, the word is not the first
      argument and the argument before it starts with `--`; otherwise
      nothing is offered. */
  lemma KeywordValues(keywords: Dict, valueProvider: Option<Provider>, ctx: CompletionContext)
    requires ProviderOk(Keyword(keywords, valueProvider)) && ContextOk(ctx)
    requires !StartsWith(ctx.currentWord, "--")
    ensures var r := Completions(Keyword(keywords, valueProvider), ctx);
      var delegates := valueProvider.Some? && ctx.argPosition > 0 && StartsWith(ctx.commandArgs[ctx.argPosition - 1], "--");
      (delegates ==> r == Completions(valueProvider.value, ctx)) && (!delegates ==> r == [])
  {
  }

  /** A multi-value provider hands only the last delimiter-separated
      segment of the word (stripped when `strip`) to its inner provider,
      with the rest of the context unchanged, and offers each of the inner
      items, in order, with the re-joined earlier segments put before its
      text. */
  lemma MultiValueItems(inner: Provider, delimiter: string, strip: bool, ctx: CompletionContext)
    requires ProviderOk(MultiValue(inner, delimiter, strip)) && ContextOk(ctx)
    ensures var r := Completions(MultiValue(inner, delimiter, strip), ctx);
      var values := SplitOn(ctx.currentWord, delimiter);
      var current := CurrentValue(ctx.currentWord, delimiter, strip);
      var items := Completions(inner, ctx.(currentWord := current));
      |r| == |items| &&
      forall i :: 0 <= i < |r| ==> r[i] == items[i].(text := MultiPrefix(values, delimiter, strip) + items[i].text)
  {
  }

  /** Without stripping, each multi-value offer is the typed word with its
      last segment replaced by the inner provider's text, whenever the
      earlier segments do not join to "". */
  lemma MultiValueReplacesLastSegment(inner: Provider, delimiter: string, ctx: CompletionContext)
    requires ProviderOk(MultiValue(inner, delimiter, false)) && ContextOk(ctx)
    requires var values := SplitOn(ctx.currentWord, delimiter); Join(values[..|values| - 1], delimiter) != ""
    ensures var r := Completions(MultiValue(inner, delimiter, false), ctx);
      var word := ctx.currentWord;
      var current := CurrentValue(word, delimiter, false);
      var items := Completions(inner, ctx.(currentWord := current));
      |current| <= |word| && |r| == |items| &&
      forall i :: 0 <= i < |r| ==> r[i].text == word[..|word| - |current|] + items[i].text
  {
    var word := ctx.currentWord;
    var values := SplitOn(word, delimiter);
    var current := CurrentValue(word, delimiter, false);
    var prefix := MultiPrefix(values, delimiter, false);
    MultiValueRoundTrip(word, delimiter);
    assert prefix + current == word;
    assert word[..|word| - |current|] == prefix;
    MultiValueItems(inner, delimiter, false, ctx);
  }

  /** A chain of one provider offers exactly that provider's items. */
  lemma ChainedSingle(p: Provider, ctx: CompletionContext)
    requires ProviderOk(p) && ContextOk(ctx)
    ensures ProviderOk(Chained([p]))
    ensures Completions(Chained([p]), ctx) == Completions(p, ctx)
  {
    var all := seq(1, i requires 0 <= i < 1 => Completions([p][i], ctx));
    assert all == [Completions(p, ctx)];
    assert all[..0] == [];
    assert Flatten(all) == Flatten(all[..0]) + all[0];
  }

  /** Chaining is concatenation: chaining two groups of providers yields the
      first group's items followed by the second's. */
  lemma ChainedConcat(a: seq<Provider>, b: seq<Provider>, ctx: CompletionContext)
    requires ProviderOk(Chained(a)) && ProviderOk(Chained(b)) && ContextOk(ctx)
    ensures ProviderOk(Chained(a + b))
    ensures Completions(Chained(a + b), ctx) == Completions(Chained(a), ctx) + Completions(Chained(b), ctx)
  {
    var ab := a + b;
    assert ProviderOk(Chained(ab)) by {
      forall i | 0 <= i < |ab| ensures ProviderOk(ab[i]) {
        if i < |a| { assert ab[i] == a[i]; } else { assert ab[i] == b[i - |a|]; }
      }
    }
    var all := seq(|ab|, i requires 0 <= i < |ab| => Completions(ab[i], ctx));
    var xs := seq(|a|, i requires 0 <= i < |a| => Completions(a[i], ctx));
    var ys := seq(|b|, i requires 0 <= i < |b| => Completions(b[i], ctx));
    assert all == xs + ys by {
      forall i | 0 <= i < |ab| ensures all[i] == (xs + ys)[i] {
        if i < |a| { assert ab[i] == a[i]; } else { assert ab[i] == b[i - |a|]; }
      }
    }
    assert Completions(Chained(ab), ctx) == Flatten(all);
    assert Completions(Chained(a), ctx) == Flatten(xs);
    assert Completions(Chained(b), ctx) == Flatten(ys);
    FlattenAppend(xs, ys);
  }
}
