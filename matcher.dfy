/** `findStopArgumentInQuery`: walks the words typed after a command along the command's
    grammar and reports where the walk stopped, how many grammar arguments were entered,
    whether the walk waits for a value of the current argument, and the block it stopped
    inside, if any. */
module ArgumentMatcher {
  import opened JsBasics
  import opened Grammar

  /** What the matcher takes from outside the module: lodash's `toNumber` (`None` is
      `NaN`) and the two argument names that announce a count, `ArgName.NArgs` and
      `ArgName.Count`. */
  datatype Externals = Externals(toNumber: string -> Option<int>, nargsName: string, countName: string)

  /** The largest length `Array(n)` accepts. */
  const MaxArrayLength: int := 0xFFFF_FFFF

  /** `toNumber(queryArgs[k])`, where an index outside the words reads `undefined`. */
  function NumberAt(queryArgs: seq<string>, k: int, env: Externals): Option<int>
  {
    if 0 <= k < |queryArgs| then env.toNumber(queryArgs[k]) else None
  }

  /** `n || 0` for a number that may be `NaN`. */
  function OrZero(n: Option<int>): int
  {
    if n.Some? then n.value else 0
  }

  /** The matcher's variables: `currentCommandArgIndex`, `argumentsIntered`,
      `isBlockedOnCommand`, `multipleIndexStart` and `multipleCountNumber`. */
  datatype Matcher = Matcher(index: nat, entered: nat, blocked: bool, multipleStart: int, multipleCount: Option<int>)

  const Start := Matcher(0, 0, false, 0, Some(0))

  /** `moveToNextCommandArg`. */
  function MoveToNext(m: Matcher): Matcher
  {
    m.(index := m.index + 1, entered := m.entered + 1)
  }

  /** `skipArg`: one less entered, then a move, then unblocked. */
  function SkipArg(m: Matcher): Matcher
  {
    m.(index := m.index + 1, blocked := false)
  }

  /** The value `findStopArgumentInQuery` returns; `argumentsIntered` is always a number. */
  datatype StopResult = StopResult(
    restArguments: seq<CommandArg>,
    stopArgIndex: nat,
    argumentsEntered: nat,
    isBlocked: bool,
    parent: Option<CommandArg>)

  function Final(rest: seq<CommandArg>, m: Matcher): StopResult
  {
    StopResult(rest, m.index, m.entered, m.blocked, None)
  }

  /** `isNotToken`: the optional argument has a token and the word is not it. */
  predicate IsNotToken(c: CommandArg, arg: string)
  {
    HasToken(c) && c.token.value != Upper(arg)
  }

  /** `isNotOneOfToken`: a token-less optional one-of group none of whose alternatives
      is the word. */
  predicate IsNotOneOfToken(c: CommandArg, arg: string)
  {
    !HasToken(c) && c.kind == OneOf && c.hasArguments &&
    forall o | o in c.arguments :: o.token != Some(Upper(arg))
  }

  /** The case-sensitive alternative test of an optional one-of group. */
  predicate SomeAlternativeIs(c: CommandArg, arg: string)
  {
    c.hasArguments && exists o | o in c.arguments :: o.token == Some(arg)
  }

  /** The optional-argument shortcut: an optional argument the word does not match is
      passed over, together with the argument after it, unless the walk waits for a
      value. */
  predicate SkipsOptional(c: CommandArg, blocked: bool, arg: string)
  {
    !blocked && c.optional && (IsNotToken(c, arg) || IsNotOneOfToken(c, arg))
  }

  /** A grammar argument that reaches the branches after the block branch. */
  predicate Ordinary(c: CommandArg, blocked: bool, arg: string)
  {
    c.kind != PureToken && c.kind != Block && !SkipsOptional(c, blocked, arg)
  }

  /** What one word does to the matcher: most branches move it on, a block is entered. */
  datatype Move = Continue(next: Matcher) | EnterBlock(block: CommandArg)

  /** One turn of the loop, for the word at index `i`, up to the block branch. */
  function StepArg(queryArgs: seq<string>, i: nat, rest: seq<CommandArg>, m: Matcher, env: Externals): (r: Move)
    requires i < |queryArgs|
    ensures r.Continue? ==>
      m.index <= r.next.index <= m.index + 2 && m.entered <= r.next.entered &&
      r.next.entered - m.entered <= r.next.index - m.index
    ensures r.EnterBlock? <==>
      (m.index < |rest| && rest[m.index].kind == Block &&
       (m.blocked || !rest[m.index].optional ||
        !(IsNotToken(rest[m.index], queryArgs[i]) || IsNotOneOfToken(rest[m.index], queryArgs[i]))))
    ensures r.EnterBlock? ==> r.block == rest[m.index]
    // past the end of the grammar every word is one more entered argument
    ensures m.index >= |rest| ==> r == Continue(m.(index := m.index + 1, entered := m.entered + 1, blocked := false))
    // a pure token is stepped over without counting
    ensures m.index < |rest| && rest[m.index].kind == PureToken ==>
      r == Continue(m.(index := m.index + 1, blocked := false))
    // an unmatched optional argument is passed over with the one after it
    ensures m.index < |rest| && rest[m.index].kind != PureToken && SkipsOptional(rest[m.index], m.blocked, queryArgs[i]) ==>
      r == Continue(m.(index := m.index + 2, entered := m.entered + 1, blocked := false))
    // the argument's own token waits for its value, in place
    ensures m.index < |rest| && Ordinary(rest[m.index], m.blocked, queryArgs[i])
            && rest[m.index].token == Some(Upper(queryArgs[i])) ==>
      r == Continue(m.(blocked := true))
    // a count of zero skips the counted arguments; any other count waits for them
    ensures m.index < |rest| && Ordinary(rest[m.index], m.blocked, queryArgs[i])
            && rest[m.index].token != Some(Upper(queryArgs[i]))
            && (rest[m.index].name == Some(env.nargsName) || rest[m.index].name == Some(env.countName)) ==>
      r == Continue(
        if env.toNumber(queryArgs[i]) == Some(0) then m.(index := m.index + 2, entered := m.entered + 1, blocked := false)
        else m.(index := m.index + 1, entered := m.entered + 1, blocked := true))
    // an optional one-of group is left after one word; a word none of its alternatives
    // names counts as the group and also passes the argument after it
    ensures m.index < |rest| && Ordinary(rest[m.index], m.blocked, queryArgs[i])
            && rest[m.index].token != Some(Upper(queryArgs[i]))
            && rest[m.index].name != Some(env.nargsName) && rest[m.index].name != Some(env.countName)
            && rest[m.index].kind == OneOf && rest[m.index].optional ==>
      r == Continue(
        if SomeAlternativeIs(rest[m.index], queryArgs[i]) then m.(index := m.index + 1, blocked := false)
        else m.(index := m.index + 2, entered := m.entered + 1, blocked := false))
    // any other single argument takes the word as its value
    ensures m.index < |rest| && Ordinary(rest[m.index], m.blocked, queryArgs[i])
            && rest[m.index].token != Some(Upper(queryArgs[i]))
            && rest[m.index].name != Some(env.nargsName) && rest[m.index].name != Some(env.countName)
            && !(rest[m.index].kind == OneOf && rest[m.index].optional) && !rest[m.index].multiple ==>
      r == Continue(m.(index := m.index + 1, entered := m.entered + 1, blocked := false))
    // a repeatable argument opens a run at the word before (whose number is the run's
    // length) unless one is open, and is passed once the run is that long; until then
    // it waits for more words
    ensures m.index < |rest| && Ordinary(rest[m.index], m.blocked, queryArgs[i])
            && rest[m.index].token != Some(Upper(queryArgs[i]))
            && rest[m.index].name != Some(env.nargsName) && rest[m.index].name != Some(env.countName)
            && !(rest[m.index].kind == OneOf && rest[m.index].optional) && rest[m.index].multiple ==>
      var start := if m.multipleStart == 0 then i - 1 else m.multipleStart;
      var count := if m.multipleStart == 0 then NumberAt(queryArgs, i - 1, env) else m.multipleCount;
      r == Continue(
        if count.Some? && i - start >= count.value
        then m.(index := m.index + 1, blocked := false, multipleStart := 0, multipleCount := count)
        else m.(blocked := true, multipleStart := start, multipleCount := count))
  {
    var arg := queryArgs[i];
    var current := At(rest, m.index);
    if current.Some? && current.value.kind == PureToken then
      Continue(SkipArg(m))
    else if current.Some? && SkipsOptional(current.value, m.blocked, arg) then
      Continue(SkipArg(MoveToNext(m)))
    else if current.Some? && current.value.kind == Block then
      EnterBlock(current.value)
    else if current.Some? && current.value.token == Some(Upper(arg)) then
      Continue(m.(blocked := true))
    else if current.Some? && (current.value.name == Some(env.nargsName) || current.value.name == Some(env.countName)) then
      if env.toNumber(arg) == Some(0) then Continue(SkipArg(MoveToNext(m)))
      else Continue(MoveToNext(m).(blocked := true))
    else if current.Some? && current.value.kind == OneOf && current.value.optional then
      Continue(SkipArg(if SomeAlternativeIs(current.value, arg) then m else MoveToNext(m)))
    else if current.Some? && current.value.multiple then
      var m1 := if m.multipleStart == 0
        then m.(multipleCount := NumberAt(queryArgs, i - 1, env), multipleStart := i - 1)
        else m;
      if m1.multipleCount.Some? && i - m1.multipleStart >= m1.multipleCount.value then
        Continue(SkipArg(m1).(multipleStart := 0))
      else
        Continue(m1.(blocked := true))
    else
      Continue(MoveToNext(m).(blocked := false))
  }

  /** The block's own arguments as the matcher first copies them: repeated `nArgs` times
      for a multiple block preceded by a non-zero count, where `Array(nArgs)` throws for a
      negative or too large count. */
  function CopiedBlockArguments(queryArgs: seq<string>, i: nat, c: CommandArg, env: Externals): (r: Result<seq<CommandArg>>)
    ensures var nArgs := OrZero(NumberAt(queryArgs, i - 1, env));
      && (r.RangeError? <==> c.multiple && nArgs != 0 && (nArgs < 0 || nArgs > MaxArrayLength))
      && (r.Ok? && c.multiple && nArgs != 0 ==> 0 <= nArgs && r.value == Tile(ArgsOf(c), nArgs))
      && (!(c.multiple && nArgs != 0) ==> r == Ok(ArgsOf(c)))
  {
    var nArgs := OrZero(NumberAt(queryArgs, i - 1, env));
    if c.multiple && nArgs != 0 then
      if nArgs < 0 || nArgs > MaxArrayLength then RangeError else Ok(Tile(ArgsOf(c), nArgs))
    else Ok(ArgsOf(c))
  }

  /** The arguments the matcher walks inside the block `c` entered at word `i`: the
      copied arguments, with a pure token for the typed word in front exactly when the
      block has a token, the word is not empty and the copied arguments do not already
      open with it. */
  function BlockArguments(queryArgs: seq<string>, i: nat, c: CommandArg, env: Externals): (r: Result<seq<CommandArg>>)
    requires i < |queryArgs|
    ensures r.RangeError? <==> CopiedBlockArguments(queryArgs, i, c, env).RangeError?
    ensures r.Ok? ==>
      var copied := CopiedBlockArguments(queryArgs, i, c, env).value;
      var word := Upper(queryArgs[i]);
      && (r.value == copied || r.value == [PureTokenArg(word)] + copied)
      && (r.value == [PureTokenArg(word)] + copied <==>
            HasToken(c) && word != "" && !(copied != [] && copied[0].token == Some(word)))
    ensures r.Ok? ==> MaxDepth(r.value) <= 1 || MaxDepth(r.value) <= MaxDepth(ArgsOf(c))
  {
    match CopiedBlockArguments(queryArgs, i, c, env)
    case RangeError => RangeError
    case Ok(args) =>
      var currentQueryArg := Upper(queryArgs[i]);
      var isBlockHasToken := args != [] && args[0].token == Some(currentQueryArg);
      if HasToken(c) && !isBlockHasToken && currentQueryArg != "" then
        var r := [PureTokenArg(currentQueryArg)] + args;
        MaxDepthConcat([PureTokenArg(currentQueryArg)], args);
        assert |r| != |args|;
        Ok(r)
      else Ok(args)
  }

  /** No multiple block anywhere in the grammar below `s`. */
  predicate NoMultipleBlock(s: seq<CommandArg>)
    decreases s
  {
    forall k | 0 <= k < |s| :: !(s[k].kind == Block && s[k].multiple) && NoMultipleBlock(s[k].arguments)
  }

  lemma NoMultipleBlockInside(rest: seq<CommandArg>, k: nat, blockArgs: seq<CommandArg>,
                              queryArgs: seq<string>, i: nat, env: Externals)
    requires k < |rest| && i < |queryArgs| && rest[k].kind == Block
    requires BlockArguments(queryArgs, i, rest[k], env) == Ok(blockArgs)
    ensures NoMultipleBlock(rest) ==> NoMultipleBlock(blockArgs)
  {
    if NoMultipleBlock(rest) {
      assert NoMultipleBlock(rest[k].arguments);
      var c := rest[k];
      assert !c.multiple;
      if blockArgs != ArgsOf(c) {
        assert blockArgs == [PureTokenArg(Upper(queryArgs[i]))] + ArgsOf(c);
        forall j | 0 <= j < |blockArgs|
          ensures !(blockArgs[j].kind == Block && blockArgs[j].multiple) && NoMultipleBlock(blockArgs[j].arguments)
        {
          if j > 0 {
            assert blockArgs[j] == ArgsOf(c)[j - 1];
          } else {
            assert NoMultipleBlock(PureTokenArg(Upper(queryArgs[i])).arguments);
          }
        }
      }
    }
  }

  lemma BlockDepth(rest: seq<CommandArg>, k: nat)
    requires k < |rest| && rest[k].kind == Block
    ensures 1 < MaxDepth(rest) && MaxDepth(ArgsOf(rest[k])) < MaxDepth(rest)
  {
    MaxDepthBounds(rest, k);
  }

  /** The loop from word `i` on, with the matcher in state `m`. A result with no parent is
      the final return of this level; a result with a parent is the return from inside a
      block of this level. */
  function Run(queryArgs: seq<string>, rest: seq<CommandArg>, i: nat, m: Matcher, env: Externals): Result<StopResult>
    requires i <= |queryArgs|
    decreases MaxDepth(rest), |queryArgs| - i, 1
  {
    if i == |queryArgs| then Ok(Final(rest, m))
    else
      match StepArg(queryArgs, i, rest, m, env)
      case Continue(next) => Run(queryArgs, rest, i + 1, next, env)
      case EnterBlock(_) => InBlock(queryArgs, rest, i, m, env)
  }

  /** The block branch of the loop, for the block at the matcher's index entered at word
      `i`: the walk continues inside the block on the words from `i` on; the loop returns
      from inside the block when the walk there stopped at a grammar argument or waits for
      a value, and otherwise the block is skipped and the loop ends. */
  function InBlock(queryArgs: seq<string>, rest: seq<CommandArg>, i: nat, m: Matcher, env: Externals): Result<StopResult>
    requires i < |queryArgs| && m.index < |rest| && rest[m.index].kind == Block
    decreases MaxDepth(rest), |queryArgs| - i, 0
  {
    var c := rest[m.index];
    BlockDepth(rest, m.index);
    match BlockArguments(queryArgs, i, c, env)
    case RangeError => RangeError
    case Ok(blockArgs) =>
      match FindStop(queryArgs[i..], blockArgs, env)
      case RangeError => RangeError
      case Ok(sub) =>
        var nArgs := OrZero(NumberAt(queryArgs, i - 1, env));
        if nArgs != 0 && c.multiple && sub.argumentsEntered >= nArgs then Ok(Final(rest, SkipArg(m)))
        else if sub.isBlocked || sub.stopArgIndex < |sub.restArguments| then Ok(sub.(parent := Some(c)))
        else Ok(Final(rest, SkipArg(m)))
  }

  /** `findStopArgumentInQuery(queryArgs, restCommandArgs)`. */
  function FindStop(queryArgs: seq<string>, rest: seq<CommandArg>, env: Externals): Result<StopResult>
    decreases MaxDepth(rest), |queryArgs| + 1
  {
    Run(queryArgs, rest, 0, Start, env)
  }

  /** What a result of the loop says. Without a parent it is this level's own final
      state: the grammar is returned as given, and the index moved by at most two per word
      and at least as much as the count of entered arguments. With a parent, the parent
      is a block of this level and the walk inside it stopped at an argument or waits for
      a value. A grammar without blocks never yields a parent, and a RangeError needs a
      multiple block somewhere in the grammar. */
  ghost predicate RunOutcome(queryArgs: seq<string>, rest: seq<CommandArg>, i: nat, m: Matcher, r: Result<StopResult>)
    requires i <= |queryArgs|
  {
    && (NoMultipleBlock(rest) ==> r.Ok?)
    && ((forall c | c in rest :: c.kind != Block) ==> r.Ok? && r.value.parent.None?)
    && (r.Ok? && r.value.parent.None? ==>
          && r.value.restArguments == rest
          && m.index <= r.value.stopArgIndex <= m.index + 2 * (|queryArgs| - i)
          && m.entered <= r.value.argumentsEntered
          && r.value.argumentsEntered - m.entered <= r.value.stopArgIndex - m.index)
    && (r.Ok? && r.value.parent.Some? ==>
          && r.value.parent.value in rest
          && r.value.parent.value.kind == Block
          && (r.value.isBlocked || r.value.stopArgIndex < |r.value.restArguments|))
  }

  lemma {:induction false} RunOutcomeHolds(queryArgs: seq<string>, rest: seq<CommandArg>, i: nat, m: Matcher, env: Externals)
    requires i <= |queryArgs|
    ensures RunOutcome(queryArgs, rest, i, m, Run(queryArgs, rest, i, m, env))
    decreases MaxDepth(rest), |queryArgs| - i, 1
  {
    if i < |queryArgs| {
      match StepArg(queryArgs, i, rest, m, env)
      case Continue(next) =>
        RunOutcomeHolds(queryArgs, rest, i + 1, next, env);
      case EnterBlock(_) =>
        InBlockOutcome(queryArgs, rest, i, m, env);
    }
  }

  lemma {:induction false} InBlockOutcome(queryArgs: seq<string>, rest: seq<CommandArg>, i: nat, m: Matcher, env: Externals)
    requires i < |queryArgs| && m.index < |rest| && rest[m.index].kind == Block
    ensures var r := InBlock(queryArgs, rest, i, m, env);
      && (NoMultipleBlock(rest) ==> r.Ok?)
      && (r.Ok? && r.value.parent.None? ==>
            r.value.restArguments == rest && r.value.stopArgIndex == m.index + 1 &&
            r.value.argumentsEntered == m.entered)
      && (r.Ok? && r.value.parent.Some? ==>
            r.value.parent.value == rest[m.index] &&
            (r.value.isBlocked || r.value.stopArgIndex < |r.value.restArguments|))
    decreases MaxDepth(rest), |queryArgs| - i, 0
  {
    var c := rest[m.index];
    BlockDepth(rest, m.index);
    match BlockArguments(queryArgs, i, c, env)
    case RangeError =>
    case Ok(blockArgs) =>
      NoMultipleBlockInside(rest, m.index, blockArgs, queryArgs, i, env);
      FindStopOutcome(queryArgs[i..], blockArgs, env);
  }

  /** The facts `RunOutcome` lists, for a whole call of `findStopArgumentInQuery`. */
  lemma {:induction false} FindStopOutcome(queryArgs: seq<string>, rest: seq<CommandArg>, env: Externals)
    ensures var r := FindStop(queryArgs, rest, env);
      && (NoMultipleBlock(rest) ==> r.Ok?)
      && ((forall c | c in rest :: c.kind != Block) ==> r.Ok? && r.value.parent.None?)
      && (r.Ok? && r.value.parent.None? ==>
            && r.value.restArguments == rest
            && r.value.stopArgIndex <= 2 * |queryArgs|
            && r.value.argumentsEntered <= r.value.stopArgIndex)
      && (r.Ok? && r.value.parent.Some? ==>
            && r.value.parent.value in rest
            && r.value.parent.value.kind == Block
            && (r.value.isBlocked || r.value.stopArgIndex < |r.value.restArguments|))
    decreases MaxDepth(rest), |queryArgs| + 1
  {
    RunOutcomeHolds(queryArgs, rest, 0, Start, env);
  }

  lemma {:induction false} EmptyGrammarRun(queryArgs: seq<string>, i: nat, m: Matcher, env: Externals)
    requires i <= |queryArgs|
    ensures i < |queryArgs| ==>
      Run(queryArgs, [], i, m, env)
      == Ok(StopResult([], m.index + (|queryArgs| - i), m.entered + (|queryArgs| - i), false, None))
    decreases |queryArgs| - i
  {
    if i < |queryArgs| {
      EmptyGrammarRun(queryArgs, i + 1, MoveToNext(m).(blocked := false), env);
    }
  }

  /** With no grammar left, every word counts as one entered argument past the end and
      nothing waits for a value. */
  lemma EmptyGrammarCountsEveryWord(queryArgs: seq<string>, env: Externals)
    ensures FindStop(queryArgs, [], env) == Ok(StopResult([], |queryArgs|, |queryArgs|, false, None))
  {
    EmptyGrammarRun(queryArgs, 0, Start, env);
  }

  /** `findStopArgumentInQuery`, with the matcher's variables updated in a loop and a
      recursive call for a block. */
  method FindStopArgumentInQuery(queryArgs: seq<string>, restCommandArgs: seq<CommandArg>, env: Externals)
    returns (r: Result<StopResult>)
    ensures r == FindStop(queryArgs, restCommandArgs, env)
    decreases MaxDepth(restCommandArgs), 1
  {
    var currentCommandArgIndex: nat := 0;
    var argumentsIntered: nat := 0;
    var isBlockedOnCommand := false;
    var multipleIndexStart := 0;
    var multipleCountNumber: Option<int> := Some(0);

    var i := 0;
    while i < |queryArgs|
      invariant i <= |queryArgs|
      invariant Run(queryArgs, restCommandArgs, i,
                    Matcher(currentCommandArgIndex, argumentsIntered, isBlockedOnCommand,
                            multipleIndexStart, multipleCountNumber), env)
                == FindStop(queryArgs, restCommandArgs, env)
    {
      var arg := queryArgs[i];
      var current := At(restCommandArgs, currentCommandArgIndex);
      ghost var m := Matcher(currentCommandArgIndex, argumentsIntered, isBlockedOnCommand,
                             multipleIndexStart, multipleCountNumber);

      if current.Some? && current.value.kind == PureToken {
        currentCommandArgIndex, isBlockedOnCommand := currentCommandArgIndex + 1, false;
      } else if current.Some? && SkipsOptional(current.value, isBlockedOnCommand, arg) {
        currentCommandArgIndex, argumentsIntered := currentCommandArgIndex + 2, argumentsIntered + 1;
        isBlockedOnCommand := false;
      } else if current.Some? && current.value.kind == Block {
        assert Run(queryArgs, restCommandArgs, i, m, env) == InBlock(queryArgs, restCommandArgs, i, m, env);
        r := WalkBlock(queryArgs, restCommandArgs, i, currentCommandArgIndex, argumentsIntered, env);
        assert r == InBlock(queryArgs, restCommandArgs, i, m, env);
        return;
      } else if current.Some? && current.value.token == Some(Upper(arg)) {
        isBlockedOnCommand := true;
      } else if current.Some? &&
                (current.value.name == Some(env.nargsName) || current.value.name == Some(env.countName)) {
        if env.toNumber(arg) == Some(0) {
          currentCommandArgIndex, argumentsIntered := currentCommandArgIndex + 2, argumentsIntered + 1;
          isBlockedOnCommand := false;
        } else {
          currentCommandArgIndex, argumentsIntered := currentCommandArgIndex + 1, argumentsIntered + 1;
          isBlockedOnCommand := true;
        }
      } else if current.Some? && current.value.kind == OneOf && current.value.optional {
        if !SomeAlternativeIs(current.value, arg) {
          currentCommandArgIndex, argumentsIntered := currentCommandArgIndex + 1, argumentsIntered + 1;
        }
        currentCommandArgIndex, isBlockedOnCommand := currentCommandArgIndex + 1, false;
      } else if current.Some? && current.value.multiple {
        if multipleIndexStart == 0 {
          multipleCountNumber := NumberAt(queryArgs, i - 1, env);
          multipleIndexStart := i - 1;
        }
        if multipleCountNumber.Some? && i - multipleIndexStart >= multipleCountNumber.value {
          currentCommandArgIndex, isBlockedOnCommand := currentCommandArgIndex + 1, false;
          multipleIndexStart := 0;
        } else {
          isBlockedOnCommand := true;
        }
      } else {
        currentCommandArgIndex, argumentsIntered := currentCommandArgIndex + 1, argumentsIntered + 1;
        isBlockedOnCommand := false;
      }
      assert StepArg(queryArgs, i, restCommandArgs, m, env)
          == Continue(Matcher(currentCommandArgIndex, argumentsIntered, isBlockedOnCommand,
                              multipleIndexStart, multipleCountNumber));
      i := i + 1;
    }

    r := Ok(StopResult(restCommandArgs, currentCommandArgIndex, argumentsIntered, isBlockedOnCommand, None));
  }

  /** The start of the block branch: the block's arguments copied into a fresh list,
      tiled for a multiple block with a count, and led by a pure token for the typed
      word when the block has a token the list does not already open with. */
  method BuildBlockArguments(queryArgs: seq<string>, i: nat, c: CommandArg, env: Externals)
    returns (r: Result<seq<CommandArg>>)
    requires i < |queryArgs|
    ensures r == BlockArguments(queryArgs, i, c, env)
  {
    var blockArguments := ArgsOf(c);
    var nArgs := OrZero(NumberAt(queryArgs, i - 1, env));
    if c.multiple && nArgs != 0 {
      if nArgs < 0 || nArgs > MaxArrayLength {
        return RangeError;
      }
      blockArguments := Tile(ArgsOf(c), nArgs);
    }
    assert CopiedBlockArguments(queryArgs, i, c, env) == Ok(blockArguments);
    var currentQueryArg := Upper(queryArgs[i]);
    var isBlockHasToken := blockArguments != [] && blockArguments[0].token == Some(currentQueryArg);
    if HasToken(c) && !isBlockHasToken && currentQueryArg != "" {
      blockArguments := [PureTokenArg(currentQueryArg)] + blockArguments;
    }
    return Ok(blockArguments);
  }

  /** The block branch of `findStopArgumentInQuery` at word `i`, where the grammar
      argument at `index` is a block: every way out of it ends the loop, either by
      returning from inside the block or by skipping the block with `i` moved to the
      last word. */
  method WalkBlock(queryArgs: seq<string>, restCommandArgs: seq<CommandArg>, i: nat,
                   index: nat, entered: nat, env: Externals)
    returns (r: Result<StopResult>)
    requires i < |queryArgs| && index < |restCommandArgs| && restCommandArgs[index].kind == Block
    ensures forall blocked, mstart, mcount ::
      r == InBlock(queryArgs, restCommandArgs, i, Matcher(index, entered, blocked, mstart, mcount), env)
    decreases MaxDepth(restCommandArgs), 0
  {
    hide StepArg, Run;
    var c := restCommandArgs[index];
    BlockDepth(restCommandArgs, index);
    var built := BuildBlockArguments(queryArgs, i, c, env);
    if built.RangeError? {
      return RangeError;
    }
    var blockArguments := built.value;
    var nArgs := OrZero(NumberAt(queryArgs, i - 1, env));

    var blockSuggestion := FindStopArgumentInQuery(queryArgs[i..], blockArguments, env);
    if blockSuggestion.RangeError? {
      return RangeError;
    }
    var sub := blockSuggestion.value;
    if nArgs != 0 && c.multiple && sub.argumentsEntered >= nArgs {
      return Ok(StopResult(restCommandArgs, index + 1, entered, false, None));
    }
    if sub.isBlocked || sub.stopArgIndex < |sub.restArguments| {
      return Ok(sub.(parent := Some(c)));
    }
    return Ok(StopResult(restCommandArgs, index + 1, entered, false, None));
  }
}
