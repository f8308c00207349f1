/** What the workbench offers after the words typed so far: the argument the cursor is
    in (`findCurrentArgument`), the arguments that may follow it
    (`getArgumentSuggestions`, `getRestArguments`, `getAllRestArguments`), the ones
    already used up (`removeNotSuggestedArgs`) and how groups and blocks are unfolded
    into suggestion entries (`fillArgsByType`). */
module Suggestions {
  import opened JsBasics
  import opened Grammar
  import opened ArgumentMatcher

  /** The value `getArgumentSuggestions` returns. */
  datatype Suggestions = Suggestions(
    isComplete: bool,
    stopArg: Option<CommandArg>,
    isBlocked: bool,
    append: seq<seq<CommandTree>>)

  /** `FoundCommandArgument`: the suggestions together with the argument they belong to. */
  datatype FoundArgument = FoundArgument(suggestions: Suggestions, parent: CommandTree)

  /** `args.map((arg) => ({ ...arg, parent }))` for a parent whose chain is `ancestors`. */
  function Attach(args: seq<CommandArg>, ancestors: seq<CommandArg>): (r: seq<CommandTree>)
    ensures |r| == |args|
    ensures forall k | 0 <= k < |r| :: r[k] == CommandTree(args[k], ancestors)
  {
    seq(|args|, k requires 0 <= k < |args| => CommandTree(args[k], ancestors))
  }

  /** Grammar nodes that carry no `parent`. */
  function Roots(args: seq<CommandArg>): seq<CommandTree>
  {
    Attach(args, [])
  }

  /** The chain of an optional parent: empty when there is none. */
  function ParentChain(parent: Option<CommandTree>): seq<CommandArg>
  {
    if parent.Some? then Chain(parent.value) else []
  }

  /** `x?.name`, with a missing node and a missing name both `undefined`. */
  function ArgName(a: Option<CommandArg>): Option<string>
  {
    if a.Some? then a.value.name else None
  }

  function TreeName(t: Option<CommandTree>): Option<string>
  {
    if t.Some? then t.value.arg.name else None
  }

  // ---------------------------------------------------------------------------------
  // getRestArguments
  // ---------------------------------------------------------------------------------

  /** `findIndex(({ name }) => name === target)`: the first node named `target`, or -1. */
  function IndexOfName(s: seq<CommandArg>, target: Option<string>): (r: int)
    ensures -1 <= r < |s|
    ensures r >= 0 ==> s[r].name == target && forall j | 0 <= j < r :: s[j].name != target
    ensures r == -1 ==> forall j | 0 <= j < |s| :: s[j].name != target
  {
    if s == [] then -1
    else if s[0].name == target then 0
    else
      var t := IndexOfName(s[1..], target);
      assert forall j | 1 <= j < |s| :: s[j] == s[1..][j - 1];
      if t == -1 then -1 else t + 1
  }

  /** `findIndex(({ optional }, i) => !optional && i > after)`, searched from `from`. */
  function MandatoryFrom(s: seq<CommandArg>, from: nat): (r: int)
    ensures r == -1 || from <= r < |s|
    ensures r >= 0 ==> !s[r].optional && forall j | from <= j < r :: s[j].optional
    ensures r == -1 ==> forall j | from <= j < |s| :: s[j].optional
    decreases |s| - from
  {
    if from >= |s| then -1
    else if !s[from].optional then from
    else MandatoryFrom(s, from + 1)
  }

  /** The position of the last mandatory node, or -1: what `reverse().find(!optional)` picks. */
  function LastMandatoryIndex(s: seq<CommandArg>): (r: int)
    ensures -1 <= r < |s|
    ensures r >= 0 ==> !s[r].optional && forall j | r < j < |s| :: s[j].optional
    ensures r == -1 ==> forall j | 0 <= j < |s| :: s[j].optional
  {
    if s == [] then -1
    else if !s[|s| - 1].optional then |s| - 1
    else LastMandatoryIndex(s[..|s| - 1])
  }

  /** `nextMandatoryIndex`: the stop itself when it is mandatory, otherwise the first
      mandatory argument after it (or -1). */
  function NextMandatoryIndex(args: seq<CommandArg>, stop: Option<CommandArg>, argumentIndexInArg: int): int
  {
    if stop.Some? && !stop.value.optional then argumentIndexInArg
    else if argumentIndexInArg != 0 && argumentIndexInArg > -1 then MandatoryFrom(args, argumentIndexInArg + 1)
    else -1
  }

  /** `prevMandatoryIndex`: where the last mandatory argument before the stop is found by
      name (an absent one is looked up as `undefined`). */
  function PrevMandatoryIndex(args: seq<CommandArg>, argumentIndexInArg: int): int
  {
    var before := JsSlice(args, 0, argumentIndexInArg);
    var at := LastMandatoryIndex(before);
    IndexOfName(args, if at >= 0 then before[at].name else None)
  }

  /** The arguments `getRestArguments` offers at a level, before they get their parent. */
  function RestList(args: seq<CommandArg>, stop: Option<CommandArg>): seq<CommandArg>
  {
    var argumentIndexInArg := IndexOfName(args, ArgName(stop));
    Offer(args, NextMandatoryIndex(args, stop, argumentIndexInArg), PrevMandatoryIndex(args, argumentIndexInArg))
  }

  /** An argument of the level, or an alternative of one of its one-of groups. */
  predicate FromLevel(args: seq<CommandArg>, x: CommandArg)
  {
    x in args || exists a | a in args && a.kind == OneOf :: x in ArgsOf(a)
  }

  /** The offer built from the two indices: the window between them (or everything after
      the previous mandatory argument when there is no next one), led by the next
      mandatory argument when it has a token, and by its alternatives when it is a group. */
  function Offer(args: seq<CommandArg>, nextMandatoryIndex: int, prevMandatoryIndex: int): (r: seq<CommandArg>)
    ensures forall k | 0 <= k < |r| :: FromLevel(args, r[k])
  {
    var hasNext := nextMandatoryIndex != 0 && nextMandatoryIndex > -1;
    var window :=
      if hasNext then JsSlice(args, prevMandatoryIndex, nextMandatoryIndex)
      else JsSlice(args, prevMandatoryIndex + 1, |args|);
    var nextMandatory := if hasNext then At(args, nextMandatoryIndex) else None;
    var withNext := if nextMandatory.Some? && HasToken(nextMandatory.value) then [nextMandatory.value] + window else window;
    if nextMandatory.Some? && nextMandatory.value.kind == OneOf then ArgsOf(nextMandatory.value) + withNext else withNext
  }

  /** `getRestArguments(current, stopArgument)`: the arguments of `current` a user may
      type next after `stopArgument`, each with `current` as its parent. Past a mandatory
      argument before the stop, this is the window from that argument up to the next
      mandatory one, with the next one (and, for a one-of group, its alternatives) in
      front, or everything after it when no mandatory argument follows. With no mandatory argument before the stop, the window is empty when a next
      mandatory one exists and is the whole level otherwise; a stop at index `0`, which
      is falsy, always gets the whole level. */
  function GetRestArguments(current: Option<CommandTree>, stop: Option<CommandArg>): (r: seq<CommandTree>)
    ensures current.None? || !current.value.arg.hasArguments ==> r == []
    ensures forall k | 0 <= k < |r| :: r[k].ancestors == ParentChain(current)
    ensures forall k | 0 <= k < |r| :: current.Some? && FromLevel(current.value.arg.arguments, r[k].arg)
  {
    if current.None? || !current.value.arg.hasArguments then []
    else Attach(RestList(current.value.arg.arguments, stop), Chain(current.value))
  }

  /** No two arguments of a level share a `name` (and at most one has none). */
  predicate DistinctNames(s: seq<CommandArg>)
  {
    forall i, j | 0 <= i < j < |s| :: s[i].name != s[j].name
  }

  /** Stopped at the mandatory argument `k` of a level, the suggestions are that argument
      (its alternatives first when it is a one-of group, itself only when it has a token)
      followed by the previous mandatory argument `p` and the optional arguments between
      the two. */
  lemma NextMandatoryLeadsTheRest(current: CommandTree, k: nat, p: nat)
    requires current.arg.hasArguments
    requires DistinctNames(current.arg.arguments)
    requires p < k < |current.arg.arguments|
    requires !current.arg.arguments[p].optional && !current.arg.arguments[k].optional
    requires forall j | p < j < k :: current.arg.arguments[j].optional
    ensures var args := current.arg.arguments;
      GetRestArguments(Some(current), Some(args[k]))
      == Attach(
           (if args[k].kind == OneOf then ArgsOf(args[k]) else [])
           + (if HasToken(args[k]) then [args[k]] else [])
           + args[p..k],
           Chain(current))
  {
    RestListAtMandatory(current.arg.arguments, k, p);
  }

  lemma RestListAtMandatory(args: seq<CommandArg>, k: nat, p: nat)
    requires DistinctNames(args)
    requires p < k < |args|
    requires !args[p].optional && !args[k].optional
    requires forall j | p < j < k :: args[j].optional
    ensures RestList(args, Some(args[k]))
      == (if args[k].kind == OneOf then ArgsOf(args[k]) else [])
         + (if HasToken(args[k]) then [args[k]] else [])
         + args[p..k]
  {
    var stop := Some(args[k]);
    NameFindsItsArgument(args, k);
    assert NextMandatoryIndex(args, stop, k) == k;
    PrevMandatoryIsTheLastBefore(args, k, p);
    assert RestList(args, stop) == Offer(args, k, p);
    OfferBetween(args, k, p);
  }

  lemma PrevMandatoryIsTheLastBefore(args: seq<CommandArg>, k: nat, p: nat)
    requires DistinctNames(args)
    requires p < k < |args| && !args[p].optional
    requires forall j | p < j < k :: args[j].optional
    ensures PrevMandatoryIndex(args, k) == p
  {
    var before := JsSlice(args, 0, k);
    assert before == args[..k];
    assert LastMandatoryIndex(before) == p by {
      assert !before[p].optional;
    }
    NameFindsItsArgument(args, p);
  }

  /** Stopped at a mandatory argument of a level whose arguments all have distinct names,
      with no mandatory argument before it, nothing but that argument (or its
      alternatives) is suggested: the optional arguments in front of it are not. */
  lemma NoEarlierMandatoryOffersOnlyTheStop(current: CommandTree, k: nat)
    requires current.arg.hasArguments
    requires DistinctNames(current.arg.arguments)
    requires forall j | 0 <= j < |current.arg.arguments| :: current.arg.arguments[j].name.Some?
    requires 0 < k < |current.arg.arguments|
    requires !current.arg.arguments[k].optional
    requires forall j | 0 <= j < k :: current.arg.arguments[j].optional
    ensures var args := current.arg.arguments;
      GetRestArguments(Some(current), Some(args[k]))
      == Attach(
           (if args[k].kind == OneOf then ArgsOf(args[k]) else [])
           + (if HasToken(args[k]) then [args[k]] else []),
           Chain(current))
  {
    var args := current.arg.arguments;
    var stop := Some(args[k]);
    NameFindsItsArgument(args, k);
    assert NextMandatoryIndex(args, stop, k) == k;
    assert LastMandatoryIndex(JsSlice(args, 0, k)) == -1;
    assert IndexOfName(args, None) == -1;
    assert PrevMandatoryIndex(args, k) == -1;
    assert RestList(args, stop) == Offer(args, k, -1);
    assert JsSlice(args, -1, k) == [];
    var expected := (if args[k].kind == OneOf then ArgsOf(args[k]) else [])
                    + (if HasToken(args[k]) then [args[k]] else []);
    assert expected + [] == expected;
  }

  lemma NameFindsItsArgument(args: seq<CommandArg>, k: nat)
    requires DistinctNames(args) && k < |args|
    ensures IndexOfName(args, args[k].name) == k
  {
  }

  /** The offer between a previous mandatory argument `p` and a next one `n`. */
  lemma OfferBetween(args: seq<CommandArg>, n: nat, p: nat)
    requires p < n < |args|
    ensures Offer(args, n, p)
      == (if args[n].kind == OneOf then ArgsOf(args[n]) else [])
         + (if HasToken(args[n]) then [args[n]] else [])
         + args[p..n]
  {
    assert JsSlice(args, p, n) == args[p..n];
  }

  /** The offer when there is no next mandatory argument: everything after `p`. */
  lemma OfferWithoutNext(args: seq<CommandArg>, p: int)
    requires -1 <= p < |args|
    ensures Offer(args, -1, p) == args[p + 1..]
  {
    assert JsSlice(args, p + 1, |args|) == args[p + 1..];
  }

  /** The first mandatory argument from `from` on is `n`. */
  lemma MandatoryFromIs(args: seq<CommandArg>, from: nat, n: nat)
    requires from <= n < |args| && !args[n].optional
    requires forall j | from <= j < n :: args[j].optional
    ensures MandatoryFrom(args, from) == n
  {
  }

  /** Stopped at an optional argument `a`, the suggestions are the next mandatory argument
      `n` after it (led by its alternatives when it is a one-of group, itself only when it
      has a token), then the previous mandatory argument `p` and every optional argument
      between `p` and `n`, the stop included. */
  lemma OptionalStopOffersUpToNextMandatory(args: seq<CommandArg>, a: nat, n: nat, p: nat)
    requires DistinctNames(args)
    requires p < a < n < |args|
    requires !args[p].optional && !args[n].optional
    requires forall j | p < j < n :: args[j].optional
    ensures RestList(args, Some(args[a]))
      == (if args[n].kind == OneOf then ArgsOf(args[n]) else [])
         + (if HasToken(args[n]) then [args[n]] else [])
         + args[p..n]
  {
    NameFindsItsArgument(args, a);
    MandatoryFromIs(args, a + 1, n);
    assert NextMandatoryIndex(args, Some(args[a]), a) == n;
    PrevMandatoryIsTheLastBefore(args, a, p);
    assert RestList(args, Some(args[a])) == Offer(args, n, p);
    OfferBetween(args, n, p);
  }

  /** Stopped at an optional argument `a` with no mandatory argument after it, the
      suggestions are everything after the last mandatory argument `p` before it. */
  lemma OptionalStopAfterLastMandatory(args: seq<CommandArg>, a: nat, p: nat)
    requires DistinctNames(args)
    requires p < a < |args|
    requires !args[p].optional
    requires forall j | p < j < |args| :: args[j].optional
    ensures RestList(args, Some(args[a])) == args[p + 1..]
  {
    NameFindsItsArgument(args, a);
    assert MandatoryFrom(args, a + 1) == -1;
    assert NextMandatoryIndex(args, Some(args[a]), a) == -1;
    PrevMandatoryIsTheLastBefore(args, a, p);
    assert RestList(args, Some(args[a])) == Offer(args, -1, p);
    OfferWithoutNext(args, p);
  }

  /** A stop that is not an argument of this level (or no stop at all) finds no next
      mandatory argument, and the previous one is searched for among all arguments but
      the last (`slice(0, -1)`): the suggestions are everything after the last mandatory
      argument `q` among those, or the whole level when there is none. */
  lemma StopElsewhereOffersTheTail(args: seq<CommandArg>, stop: Option<CommandArg>, q: int)
    requires DistinctNames(args)
    requires forall j | 0 <= j < |args| :: args[j].name.Some? && args[j].name != ArgName(stop)
    requires -1 <= q < |args| - 1
    requires q >= 0 ==> !args[q].optional
    requires forall j | q < j < |args| - 1 :: args[j].optional
    ensures RestList(args, stop) == args[q + 1..]
  {
    assert IndexOfName(args, ArgName(stop)) == -1;
    assert NextMandatoryIndex(args, stop, -1) == -1;
    var before := JsSlice(args, 0, -1);
    assert before == args[..|args| - 1];
    if q >= 0 {
      assert LastMandatoryIndex(before) == q by {
        assert !before[q].optional;
      }
      NameFindsItsArgument(args, q);
    } else {
      assert LastMandatoryIndex(before) == -1;
      assert IndexOfName(args, None) == -1;
    }
    assert PrevMandatoryIndex(args, -1) == q;
    assert RestList(args, stop) == Offer(args, -1, q);
    OfferWithoutNext(args, q);
  }

  /** Stopped at the first argument of a level, the whole level is suggested: index `0`
      is falsy, so there is no next mandatory argument and nothing is put in front. */
  lemma StopAtFirstOffersTheWholeLevel(args: seq<CommandArg>)
    requires |args| > 0
    requires forall j | 0 <= j < |args| :: args[j].name.Some?
    ensures RestList(args, Some(args[0])) == args
  {
    var stop := Some(args[0]);
    assert IndexOfName(args, ArgName(stop)) == 0;
    assert JsSlice(args, 0, 0) == [];
    assert IndexOfName(args, None) == -1;
    assert PrevMandatoryIndex(args, 0) == -1;
    var next := NextMandatoryIndex(args, stop, 0);
    assert next == 0 || next == -1;
    assert RestList(args, stop) == Offer(args, next, -1) == Offer(args, -1, -1);
    OfferWithoutNext(args, -1);
  }

  /** Stopped at an optional argument `a` after the first, with no mandatory argument
      before it, only the next mandatory argument `n` is suggested (its alternatives
      when it is a one-of group, itself when it has a token): the window `slice(-1, n)`
      is empty, so the optional arguments around the stop are not. */
  lemma OptionalStopWithoutEarlierMandatory(args: seq<CommandArg>, a: nat, n: nat)
    requires DistinctNames(args)
    requires forall j | 0 <= j < |args| :: args[j].name.Some?
    requires 0 < a < n < |args|
    requires forall j | 0 <= j < n :: args[j].optional
    requires !args[n].optional
    ensures RestList(args, Some(args[a]))
      == (if args[n].kind == OneOf then ArgsOf(args[n]) else [])
         + (if HasToken(args[n]) then [args[n]] else [])
  {
    var stop := Some(args[a]);
    NameFindsItsArgument(args, a);
    MandatoryFromIs(args, a + 1, n);
    assert NextMandatoryIndex(args, stop, a) == n;
    assert LastMandatoryIndex(JsSlice(args, 0, a)) == -1;
    assert IndexOfName(args, None) == -1;
    assert PrevMandatoryIndex(args, a) == -1;
    assert RestList(args, stop) == Offer(args, n, -1);
    assert JsSlice(args, -1, n) == [];
    var expected := (if args[n].kind == OneOf then ArgsOf(args[n]) else [])
                    + (if HasToken(args[n]) then [args[n]] else []);
    assert expected + [] == expected;
  }

  /** On a level whose arguments are all optional, any stop of the level gets the whole
      level suggested. */
  lemma AllOptionalOffersTheWholeLevel(args: seq<CommandArg>, a: nat)
    requires DistinctNames(args)
    requires forall j | 0 <= j < |args| :: args[j].name.Some?
    requires a < |args|
    requires forall j | 0 <= j < |args| :: args[j].optional
    ensures RestList(args, Some(args[a])) == args
  {
    var stop := Some(args[a]);
    NameFindsItsArgument(args, a);
    assert MandatoryFrom(args, a + 1) == -1;
    assert NextMandatoryIndex(args, stop, a) == -1;
    assert LastMandatoryIndex(JsSlice(args, 0, a)) == -1;
    assert IndexOfName(args, None) == -1;
    assert PrevMandatoryIndex(args, a) == -1;
    assert RestList(args, stop) == Offer(args, -1, -1);
    OfferWithoutNext(args, -1);
  }

  // ---------------------------------------------------------------------------------
  // removeNotSuggestedArgs
  // ---------------------------------------------------------------------------------

  /** The filter of `removeNotSuggestedArgs`: an argument stays a suggestion unless the
      words typed so far already used it up. A repeatable token always stays; a one-of
      group goes once any alternative was typed (case-insensitively); a block goes once
      its token (or, without one, its first argument's token in upper case) was typed,
      unless it is repeatable; anything else stays only if it has a token not yet typed. */
  predicate IsSuggested(typed: seq<string>, a: CommandArg)
  {
    if HasToken(a) && a.multiple then true
    else if a.kind == OneOf then
      !exists q | q in typed ::
        a.hasArguments && exists o | o in a.arguments :: o.token.Some? && Upper(o.token.value) == Upper(q)
    else if a.kind == Block then
      if HasToken(a) then a.token.value !in typed || a.multiple
      else
        ArgsOf(a) != [] && HasToken(ArgsOf(a)[0])
        && (Upper(ArgsOf(a)[0].token.value) !in typed || a.multiple)
    else HasToken(a) && a.token.value !in typed
  }

  /** `removeNotSuggestedArgs(args, commandArgs)`: the suggested arguments, in order. */
  function RemoveNotSuggestedArgs(typed: seq<string>, commandArgs: seq<CommandTree>): (r: seq<CommandTree>)
    ensures IsSubsequence(r, commandArgs)
    ensures forall k | 0 <= k < |r| :: IsSuggested(typed, r[k].arg)
    ensures forall k | 0 <= k < |commandArgs| && IsSuggested(typed, commandArgs[k].arg) :: commandArgs[k] in r
  {
    if commandArgs == [] then []
    else
      var tail := RemoveNotSuggestedArgs(typed, commandArgs[1..]);
      assert forall k | 1 <= k < |commandArgs| :: commandArgs[k] == commandArgs[1..][k - 1];
      if IsSuggested(typed, commandArgs[0].arg) then
        assert ([commandArgs[0]] + tail)[1..] == tail;
        [commandArgs[0]] + tail
      else tail
  }

  /** Every copy of a suggested argument is kept, and none of any other. */
  lemma {:induction false} RemoveNotSuggestedKeepsEveryCopy(typed: seq<string>, commandArgs: seq<CommandTree>)
    ensures var r := RemoveNotSuggestedArgs(typed, commandArgs);
      forall x :: multiset(r)[x] == if IsSuggested(typed, x.arg) then multiset(commandArgs)[x] else 0
  {
    if commandArgs != [] {
      RemoveNotSuggestedKeepsEveryCopy(typed, commandArgs[1..]);
      assert commandArgs == [commandArgs[0]] + commandArgs[1..];
    }
  }

  /** Filtering twice removes nothing more. */
  lemma {:induction false} RemoveNotSuggestedIsIdempotent(typed: seq<string>, commandArgs: seq<CommandTree>)
    ensures RemoveNotSuggestedArgs(typed, RemoveNotSuggestedArgs(typed, commandArgs))
            == RemoveNotSuggestedArgs(typed, commandArgs)
  {
    if commandArgs != [] {
      var tail := RemoveNotSuggestedArgs(typed, commandArgs[1..]);
      RemoveNotSuggestedIsIdempotent(typed, commandArgs[1..]);
      if IsSuggested(typed, commandArgs[0].arg) {
        assert ([commandArgs[0]] + tail)[1..] == tail;
      }
    }
  }

  /** With nothing typed, every argument with a token is suggested. */
  lemma {:induction false} NothingTypedKeepsTokens(commandArgs: seq<CommandTree>)
    requires forall k | 0 <= k < |commandArgs| :: HasToken(commandArgs[k].arg)
    ensures RemoveNotSuggestedArgs([], commandArgs) == commandArgs
  {
    if commandArgs != [] {
      NothingTypedKeepsTokens(commandArgs[1..]);
      assert [commandArgs[0]] + commandArgs[1..] == commandArgs;
    }
  }

  // ---------------------------------------------------------------------------------
  // fillArgsByType
  // ---------------------------------------------------------------------------------

  /** The entry a block without a token contributes: its first argument (or an empty
      node when it has none) made optional or repeatable when the block is, with the
      block as its parent. */
  function BlockHead(t: CommandTree): CommandTree
  {
    var first := ArgsOf(t.arg);
    if first == [] then
      CommandTree(CommandArg(None, Other, None, t.arg.optional, t.arg.multiple, false, []), Chain(t))
    else
      CommandTree(first[0].(optional := first[0].optional || t.arg.optional,
                            multiple := first[0].multiple || t.arg.multiple), Chain(t))
  }

  /** The entries one argument contributes: the alternatives of a one-of group without a
      token (when groups are unfolded), then the argument itself when it has a token, or
      else its head when it is a block. */
  function Expand(t: CommandTree, expandBlock: bool): seq<CommandTree>
  {
    var alternatives :=
      if expandBlock && t.arg.kind == OneOf && !HasToken(t.arg) then Attach(ArgsOf(t.arg), Chain(t)) else [];
    alternatives
    + (if HasToken(t.arg) then [t] else if t.arg.kind == Block then [BlockHead(t)] else [])
  }

  /** The result of `fillArgsByType(args, expandBlock)`: the entries of every argument,
      in order. */
  function FillArgs(args: seq<CommandTree>, expandBlock: bool): seq<CommandTree>
  {
    if args == [] then [] else FillArgs(args[..|args| - 1], expandBlock) + Expand(args[|args| - 1], expandBlock)
  }

  /** `fillArgsByType`, with the result built up in a loop. */
  method FillArgsByType(args: seq<CommandTree>, expandBlock: bool) returns (result: seq<CommandTree>)
    ensures result == FillArgs(args, expandBlock)
  {
    result := [];
    for i := 0 to |args|
      invariant result == FillArgs(args[..i], expandBlock)
    {
      assert args[..i + 1][..i] == args[..i];
      var currentArg := args[i];
      if expandBlock && currentArg.arg.kind == OneOf && !HasToken(currentArg.arg) {
        result := result + Attach(ArgsOf(currentArg.arg), Chain(currentArg));
      }
      if HasToken(currentArg.arg) {
        result := result + [currentArg];
        continue;
      }
      if currentArg.arg.kind == Block {
        result := result + [BlockHead(currentArg)];
      }
    }
    assert args[..|args|] == args;
  }

  lemma FillArgsNil(expandBlock: bool)
    ensures FillArgs([], expandBlock) == []
  {
  }

  /** Filling a list with one more argument adds that argument's entries. */
  lemma FillArgsSnoc(s: seq<CommandTree>, x: CommandTree, expandBlock: bool)
    ensures FillArgs(s + [x], expandBlock) == FillArgs(s, expandBlock) + Expand(x, expandBlock)
  {
    assert (s + [x])[..|s + [x]| - 1] == s;
  }

  /** Filling a list is filling its two halves one after the other. */
  lemma {:induction false} FillArgsConcat(a: seq<CommandTree>, b: seq<CommandTree>, expandBlock: bool)
    ensures FillArgs(a + b, expandBlock) == FillArgs(a, expandBlock) + FillArgs(b, expandBlock)
    decreases |b|
  {
    hide FillArgs, Expand;
    if b == [] {
      FillArgsNil(expandBlock);
      assert a + b == a;
    } else {
      var b' := b[..|b| - 1];
      var x := b[|b| - 1];
      assert b == b' + [x];
      assert a + b == (a + b') + [x];
      FillArgsSnoc(a + b', x, expandBlock);
      FillArgsSnoc(b', x, expandBlock);
      FillArgsConcat(a, b', expandBlock);
      var fa, fb', e := FillArgs(a, expandBlock), FillArgs(b', expandBlock), Expand(x, expandBlock);
      assert FillArgs(a + b, expandBlock) == (fa + fb') + e;
      assert FillArgs(b, expandBlock) == fb' + e;
      assert (fa + fb') + e == fa + (fb' + e);
    }
  }

  /** Arguments that all have a token are passed through unchanged. */
  lemma {:induction false} FillArgsKeepsTokenedArguments(args: seq<CommandTree>, expandBlock: bool)
    requires forall k | 0 <= k < |args| :: HasToken(args[k].arg)
    ensures FillArgs(args, expandBlock) == args
  {
    if args != [] {
      FillArgsKeepsTokenedArguments(args[..|args| - 1], expandBlock);
      assert args[..|args| - 1] + [args[|args| - 1]] == args;
    }
  }

  /** Every entry is either one of the given arguments or hangs directly below one. */
  lemma {:induction false} FillArgsEntriesComeFromArguments(args: seq<CommandTree>, expandBlock: bool)
    ensures forall e | e in FillArgs(args, expandBlock) ::
      e in args || exists t | t in args :: e.ancestors == Chain(t)
  {
    if args != [] {
      var init := args[..|args| - 1];
      var t := args[|args| - 1];
      FillArgsEntriesComeFromArguments(init, expandBlock);
      assert forall e | e in init :: e in args;
      forall e | e in Expand(t, expandBlock)
        ensures e in args || exists t' | t' in args :: e.ancestors == Chain(t')
      {
        if e != t {
          assert e.ancestors == Chain(t);
        }
      }
    }
  }

  // ---------------------------------------------------------------------------------
  // getAllRestArguments
  // ---------------------------------------------------------------------------------

  /** One group of `getAllRestArguments`: what `getRestArguments` offers at the level of
      `current`, less what was typed, unfolded by `fillArgsByType`. */
  function LevelGroup(current: Option<CommandTree>, stop: Option<CommandArg>, untilTokenArgs: seq<string>): seq<CommandTree>
  {
    FillArgs(RemoveNotSuggestedArgs(untilTokenArgs, GetRestArguments(current, stop)), true)
  }

  /** `getAllRestArguments(current, stopArgument, untilTokenArgs, skipLevel)`: one group of
      suggestions for the level of `current` (unless skipped) and one for each of its
      ancestors, nearest first, each with the level below as its stop. */
  function GetAllRestArguments(current: Option<CommandTree>, stop: Option<CommandArg>,
                               untilTokenArgs: seq<string>, skipLevel: bool): (r: seq<seq<CommandTree>>)
    ensures |r| == (if skipLevel then 0 else 1) + (if current.Some? then |current.value.ancestors| else 0)
    ensures !skipLevel ==> r[0] == LevelGroup(current, stop, untilTokenArgs)
    ensures current.Some? ==>
      var anc := current.value.ancestors;
      forall k | 0 <= k < |anc| ::
        r[(if skipLevel then 0 else 1) + k]
        == LevelGroup(Some(CommandTree(anc[k], anc[k + 1..])), Some(if k == 0 then current.value.arg else anc[k - 1]), untilTokenArgs)
    decreases if current.Some? then |current.value.ancestors| else 0
  {
    var own := if skipLevel then [] else [LevelGroup(current, stop, untilTokenArgs)];
    if current.Some? && current.value.ancestors != [] then
      var anc := current.value.ancestors;
      var rec := GetAllRestArguments(ParentOf(current.value), Some(current.value.arg), untilTokenArgs, false);
      assert forall k | 1 <= k < |anc| :: anc[1..][k - 1] == anc[k] && anc[1..][k..] == anc[k + 1..];
      own + rec
    else own
  }

  /** The last group comes from the outermost ancestor, with the node just below it as
      the stop. */
  lemma OutermostGroupIsTheRoot(current: CommandTree, stop: Option<CommandArg>,
                                untilTokenArgs: seq<string>, skipLevel: bool)
    requires current.ancestors != []
    ensures var r := GetAllRestArguments(Some(current), stop, untilTokenArgs, skipLevel);
      var n := |current.ancestors|;
      var below := if n == 1 then current.arg else current.ancestors[n - 2];
      r[|r| - 1] == LevelGroup(Some(CommandTree(current.ancestors[n - 1], [])), Some(below), untilTokenArgs)
  {
    var n := |current.ancestors|;
    assert current.ancestors[n..] == [];
  }

  // ---------------------------------------------------------------------------------
  // getArgumentSuggestions
  // ---------------------------------------------------------------------------------

  /** The count of mandatory arguments. */
  function CountMandatory(s: seq<CommandArg>): (r: nat)
    ensures r <= |s|
    ensures r == 0 <==> forall k | 0 <= k < |s| :: s[k].optional
  {
    if s == [] then 0
    else
      assert forall k | 1 <= k < |s| :: s[k] == s[1..][k - 1];
      (if s[0].optional then 0 else 1) + CountMandatory(s[1..])
  }

  /** No mandatory argument is left from `index` on exactly when all from there are optional. */
  lemma NoMandatoryLeft(rest: seq<CommandArg>, index: nat)
    ensures CountMandatory(JsSlice(rest, index, |rest|)) == 0 <==> forall k | index <= k < |rest| :: rest[k].optional
  {
    if index < |rest| {
      var tail := JsSlice(rest, index, |rest|);
      assert tail == rest[index..];
      assert forall k | index <= k < |rest| :: rest[k] == tail[k - index];
    }
  }

  /** `isOneOfArgument`: the stop is a one-of group, or a pure token whose parent is one. */
  predicate OneOfLike(stop: Option<CommandArg>, current: Option<CommandTree>)
  {
    stop.Some? &&
    (stop.value.kind == OneOf ||
     (stop.value.kind == PureToken && current.Some? && current.value.ancestors != []
      && current.value.ancestors[0].kind == OneOf))
  }

  /** `isPrevArgWasMandatory && stopArgument && !stopArgument.optional`. */
  predicate BetweenMandatory(rest: seq<CommandArg>, index: nat)
  {
    var prevArg := At(rest, index - 1);
    var stopArgument := At(rest, index);
    prevArg.Some? && !prevArg.value.optional && stopArgument.Some? && !stopArgument.value.optional
  }

  /** `isBlockHasParent`: `current` lists an argument with the (non-empty) name of the
      block the walk stopped in. */
  predicate BlockHasParent(current: Option<CommandTree>, parent: Option<CommandArg>)
  {
    current.Some? && current.value.arg.hasArguments && parent.Some?
    && parent.value.name.Some? && parent.value.name.value != ""
    && exists a | a in current.value.arg.arguments :: a.name == parent.value.name
  }

  /** `foundParent`: the block the walk stopped in, hung below `current` when `current`
      lists it, or else without a parent; with no such block, `current` itself. */
  function FoundParent(current: Option<CommandTree>, parent: Option<CommandArg>): Option<CommandTree>
  {
    if BlockHasParent(current, parent) then Some(CommandTree(parent.value, Chain(current.value)))
    else if parent.Some? then Some(CommandTree(parent.value, []))
    else current
  }

  /** `stopArgument ?? restArguments[0]`. */
  function LastArgument(rest: seq<CommandArg>, stopArgIndex: nat): Option<CommandArg>
  {
    if stopArgIndex < |rest| then At(rest, stopArgIndex) else At(rest, 0)
  }

  /** `isBlockComplete`: the walk ran past the end, and `current` is the argument it
      falls back to. */
  predicate IsBlockComplete(rest: seq<CommandArg>, stopArgIndex: nat, current: Option<CommandTree>)
  {
    stopArgIndex >= |rest| && TreeName(current) == ArgName(LastArgument(rest, stopArgIndex))
  }

  /** The suggestions of a walk that was not blocked and did not stop between two
      mandatory arguments. */
  function OpenSuggestions(found: StopResult, untilTokenArgs: seq<string>, current: Option<CommandTree>): Suggestions
  {
    var rest := found.restArguments;
    var append := GetAllRestArguments(FoundParent(current, found.parent), LastArgument(rest, found.stopArgIndex),
                                      untilTokenArgs, IsBlockComplete(rest, found.stopArgIndex, current));
    Suggestions(CountMandatory(JsSlice(rest, found.stopArgIndex, |rest|)) == 0, At(rest, found.stopArgIndex), false, append)
  }

  /** `getArgumentSuggestions({ tokenArgs, untilTokenArgs }, pastCommandArgs, current)`.
      A blocked walk suggests the alternatives of a one-of stop and blocks otherwise; a
      walk between two mandatory arguments suggests the next one if it can be typed as a
      token (or is a group) and blocks otherwise; any other walk suggests the optional
      arguments of every level from the stop outwards, and is complete when no mandatory
      argument is left. */
  function GetArgumentSuggestions(tokenArgs: seq<string>, untilTokenArgs: seq<string>,
                                  pastCommandArgs: seq<CommandArg>, current: Option<CommandTree>,
                                  env: Externals): (r: Result<Suggestions>)
    ensures r.RangeError? <==> FindStop(tokenArgs, pastCommandArgs, env).RangeError?
    ensures r.Ok? ==>
      var found := FindStop(tokenArgs, pastCommandArgs, env).value;
      var rest := found.restArguments;
      && r.value.stopArg == At(rest, found.stopArgIndex)
      && (r.value.isBlocked ==> r.value.append == [] && !r.value.isComplete)
      && (found.isBlocked ==>
            !r.value.isComplete && (r.value.isBlocked <==> !OneOfLike(r.value.stopArg, current)))
      && (!found.isBlocked && BetweenMandatory(rest, found.stopArgIndex) ==>
            !r.value.isComplete && (r.value.isBlocked <==> !HasToken(r.value.stopArg.value) && !OneOfLike(r.value.stopArg, current)))
      && (r.value.isComplete <==>
            !found.isBlocked && !BetweenMandatory(rest, found.stopArgIndex)
            && forall k | found.stopArgIndex <= k < |rest| :: rest[k].optional)
    ensures r.Ok? ==>
      var found := FindStop(tokenArgs, pastCommandArgs, env).value;
      var rest := found.restArguments;
      var stop := r.value.stopArg;
      && (found.isBlocked && OneOfLike(stop, current) ==> r.value.append == [Roots(ArgsOf(stop.value))])
      && (!found.isBlocked && BetweenMandatory(rest, found.stopArgIndex) && !r.value.isBlocked ==>
            r.value.append == [Roots(if OneOfLike(stop, current) then ArgsOf(stop.value) else [stop.value])])
      && (!found.isBlocked && !BetweenMandatory(rest, found.stopArgIndex) ==>
            !r.value.isBlocked &&
            r.value.append == GetAllRestArguments(FoundParent(current, found.parent),
                                                  LastArgument(rest, found.stopArgIndex), untilTokenArgs,
                                                  IsBlockComplete(rest, found.stopArgIndex, current)))
  {
    match FindStop(tokenArgs, pastCommandArgs, env)
    case RangeError => RangeError
    case Ok(found) =>
      var rest := found.restArguments;
      var stopArgument := At(rest, found.stopArgIndex);
      var isOneOfArgument := OneOfLike(stopArgument, current);
      if found.isBlocked then
        Ok(Suggestions(false, stopArgument, !isOneOfArgument,
                       if isOneOfArgument then [Roots(ArgsOf(stopArgument.value))] else []))
      else if BetweenMandatory(rest, found.stopArgIndex) then
        var isCanAppend := HasToken(stopArgument.value) || isOneOfArgument;
        Ok(Suggestions(false, stopArgument, !isCanAppend,
                       if isCanAppend then [Roots(if isOneOfArgument then ArgsOf(stopArgument.value) else [stopArgument.value])]
                       else []))
      else
        NoMandatoryLeft(rest, found.stopArgIndex);
        Ok(OpenSuggestions(found, untilTokenArgs, current))
  }

  // ---------------------------------------------------------------------------------
  // findCurrentArgument
  // ---------------------------------------------------------------------------------

  /** `args.findIndex((c) => c.token?.toLowerCase() === word.toLowerCase())`. */
  function TokenIndex(args: seq<CommandArg>, word: string): (r: int)
    ensures -1 <= r < |args|
    ensures r >= 0 ==> args[r].token.Some? && Lower(args[r].token.value) == Lower(word)
    ensures r >= 0 ==> forall j | 0 <= j < r :: !(args[j].token.Some? && Lower(args[j].token.value) == Lower(word))
    ensures r == -1 ==> forall j | 0 <= j < |args| :: !(args[j].token.Some? && Lower(args[j].token.value) == Lower(word))
  {
    if args == [] then -1
    else if args[0].token.Some? && Lower(args[0].token.value) == Lower(word) then 0
    else
      var t := TokenIndex(args[1..], word);
      assert forall j | 1 <= j < |args| :: args[j] == args[1..][j - 1];
      if t == -1 then -1 else t + 1
  }

  /** The word opens a block of `args` that has arguments of its own. */
  predicate OpensBlock(args: seq<CommandArg>, word: string)
  {
    var c := FindArgByToken(args, word);
    c.Some? && c.value.hasArguments && c.value.kind == Block
  }

  /** The word means something at this level: it opens a block or is an argument's token. */
  predicate Recognized(args: seq<CommandArg>, word: string)
  {
    OpensBlock(args, word) || TokenIndex(args, word) >= 0
  }

  /** A node's own arguments are shallower than any list holding it. */
  lemma BlockArgumentsAreShallower(args: seq<CommandArg>, c: CommandArg)
    requires c in args && c.kind == Block
    ensures MaxDepth(c.arguments) < MaxDepth(args)
  {
    var k :| 0 <= k < |args| && args[k] == c;
    MaxDepthBounds(args, k);
  }

  /** The answer once the typed words `pastArgs` start with the token of `args[tokenIndex]`:
      with a parent, the suggestions among the arguments from that one on, without one,
      for that argument alone; the parent reported is the given one or else the argument. */
  function TokenFound(args: seq<CommandArg>, tokenIndex: nat, pastArgs: seq<string>, untilTokenArgs: seq<string>,
                      parent: Option<CommandTree>, env: Externals): (r: Result<Option<FoundArgument>>)
    requires tokenIndex < |args|
    ensures r.Ok? ==>
      (r.value.Some? &&
       r.value.value.parent == if parent.Some? then parent.value else CommandTree(args[tokenIndex], []))
    ensures var s := GetArgumentSuggestions(pastArgs, untilTokenArgs,
                                            if parent.Some? then args[tokenIndex..] else [args[tokenIndex]], parent, env);
      (r.RangeError? <==> s.RangeError?) && (r.Ok? ==> r.value.value.suggestions == s.value)
  {
    var token := args[tokenIndex];
    var commandArgs := if parent.Some? then args[tokenIndex..] else [token];
    match GetArgumentSuggestions(pastArgs, untilTokenArgs, commandArgs, parent, env)
    case RangeError => RangeError
    case Ok(s) => Ok(Some(FoundArgument(s, if parent.Some? then parent.value else CommandTree(token, []))))
  }

  /** The loop of `findCurrentArgument` over the typed words `prev[..i]`, last first. */
  function ScanTyped(args: seq<CommandArg>, prev: seq<string>, i: nat, untilTokenArgs: seq<string>,
                     parent: Option<CommandTree>, env: Externals): Result<Option<FoundArgument>>
    requires i <= |prev|
    decreases MaxDepth(args), i
  {
    if i == 0 then Ok(None)
    else
      var arg := prev[i - 1];
      var currentArg := FindArgByToken(args, arg);
      if currentArg.Some? && currentArg.value.hasArguments && currentArg.value.kind == Block then
        BlockArgumentsAreShallower(args, currentArg.value);
        var currentWithParent := CommandTree(currentArg.value, ParentChain(parent));
        FindCurrentArgument(currentArg.value.arguments, prev[i - 1..], prev, Some(currentWithParent), env)
      else
        var tokenIndex := TokenIndex(args, arg);
        if tokenIndex >= 0 then TokenFound(args, tokenIndex, prev[i - 1..], untilTokenArgs, parent, env)
        else ScanTyped(args, prev, i - 1, untilTokenArgs, parent, env)
  }

  /** `findCurrentArgument(args, prev, untilTokenArgs, parent)`; `None` is `null`. */
  function FindCurrentArgument(args: seq<CommandArg>, prev: seq<string>, untilTokenArgs: seq<string>,
                               parent: Option<CommandTree>, env: Externals): Result<Option<FoundArgument>>
    decreases MaxDepth(args), |prev| + 1
  {
    ScanTyped(args, prev, |prev|, untilTokenArgs, parent, env)
  }

  /** What a scan over the words `prev[..i]` yields: nothing when none of them means
      anything at this level; a parent that extends the given one, or without a given one
      is rooted at an argument of `args`; and an answer whenever the last word is a token
      of an argument that opens no block. */
  ghost predicate ScanOutcome(args: seq<CommandArg>, prev: seq<string>, i: nat, parent: Option<CommandTree>,
                              r: Result<Option<FoundArgument>>)
    requires i <= |prev|
  {
    && ((forall j | 0 <= j < i :: !Recognized(args, prev[j])) ==> r == Ok(None))
    && (r.Ok? && r.value.Some? && parent.Some? ==>
          IsSuffix(Chain(parent.value), Chain(r.value.value.parent)))
    && (r.Ok? && r.value.Some? && parent.None? ==>
          Chain(r.value.value.parent)[|Chain(r.value.value.parent)| - 1] in args)
    && (i > 0 && TokenIndex(args, prev[i - 1]) >= 0 && !OpensBlock(args, prev[i - 1]) ==>
          r.RangeError? || r.value.Some?)
  }

  lemma {:induction false} ScanTypedOutcome(args: seq<CommandArg>, prev: seq<string>, i: nat, untilTokenArgs: seq<string>,
                                            parent: Option<CommandTree>, env: Externals)
    requires i <= |prev|
    ensures ScanOutcome(args, prev, i, parent, ScanTyped(args, prev, i, untilTokenArgs, parent, env))
    decreases MaxDepth(args), i, 1
  {
    hide GetArgumentSuggestions, FindStop;
    if i > 0 {
      if OpensBlock(args, prev[i - 1]) {
        DescendOutcome(args, prev, i, untilTokenArgs, parent, env);
      } else if TokenIndex(args, prev[i - 1]) < 0 {
        ScanTypedOutcome(args, prev, i - 1, untilTokenArgs, parent, env);
        assert !Recognized(args, prev[i - 1]);
      }
    }
  }

  /** The case of a word that opens a block: the scan goes on inside the block, with the
      block as the new parent. */
  lemma {:induction false} DescendOutcome(args: seq<CommandArg>, prev: seq<string>, i: nat, untilTokenArgs: seq<string>,
                                          parent: Option<CommandTree>, env: Externals)
    requires 0 < i <= |prev| && OpensBlock(args, prev[i - 1])
    ensures ScanOutcome(args, prev, i, parent, ScanTyped(args, prev, i, untilTokenArgs, parent, env))
    ensures var r := ScanTyped(args, prev, i, untilTokenArgs, parent, env);
      var block := CommandTree(FindArgByToken(args, prev[i - 1]).value, ParentChain(parent));
      r.Ok? && r.value.Some? ==> IsSuffix(Chain(block), Chain(r.value.value.parent))
    decreases MaxDepth(args), i, 0
  {
    hide GetArgumentSuggestions, FindStop, TokenFound, TokenIndex, FindArgByToken;
    var c := FindArgByToken(args, prev[i - 1]).value;
    BlockArgumentsAreShallower(args, c);
    var currentWithParent := CommandTree(c, ParentChain(parent));
    FindCurrentArgumentScanOutcome(c.arguments, prev[i - 1..], prev, Some(currentWithParent), env);
    var r := FindCurrentArgument(c.arguments, prev[i - 1..], prev, Some(currentWithParent), env);
    assert ScanTyped(args, prev, i, untilTokenArgs, parent, env) == r;
    assert Recognized(args, prev[i - 1]);
    if r.Ok? && r.value.Some? {
      ChainThroughBlock(c, parent, Chain(r.value.value.parent));
    }
  }

  /** A chain that ends with a block's chain ends with the chain of the block's parent,
      or, for a block without one, with the block itself. */
  lemma ChainThroughBlock(c: CommandArg, parent: Option<CommandTree>, inner: seq<CommandArg>)
    requires IsSuffix(Chain(CommandTree(c, ParentChain(parent))), inner)
    ensures parent.Some? ==> IsSuffix(Chain(parent.value), inner)
    ensures parent.None? ==> inner[|inner| - 1] == c
  {
    var outer := Chain(CommandTree(c, ParentChain(parent)));
    if parent.Some? {
      assert inner[|inner| - |outer| + 1..] == inner[|inner| - |outer|..][1..] == outer[1..];
    } else {
      assert inner[|inner| - 1] == outer[0];
    }
  }

  /** The last of the words `prev[..i]` that means something at this level, or -1. */
  function LastRecognized(args: seq<CommandArg>, prev: seq<string>, i: nat): (k: int)
    requires i <= |prev|
    ensures -1 <= k < i
    ensures k >= 0 ==> Recognized(args, prev[k])
    ensures forall j | k < j < i :: !Recognized(args, prev[j])
  {
    if i == 0 then -1
    else if Recognized(args, prev[i - 1]) then i - 1
    else
      var k := LastRecognized(args, prev, i - 1);
      assert forall j | k < j < i :: prev[j] == prev[i - 1] || k < j < i - 1;
      k
  }

  /** The answer the word `prev[k]` gives: inside the block it opens, the search starts
      over on the words from it on with the block as the parent; a token of `args` gives
      the suggestions from that argument on. */
  function Decide(args: seq<CommandArg>, prev: seq<string>, k: nat, untilTokenArgs: seq<string>,
                  parent: Option<CommandTree>, env: Externals): Result<Option<FoundArgument>>
    requires k < |prev|
  {
    if OpensBlock(args, prev[k]) then
      var c := FindArgByToken(args, prev[k]).value;
      FindCurrentArgument(c.arguments, prev[k..], prev, Some(CommandTree(c, ParentChain(parent))), env)
    else if TokenIndex(args, prev[k]) >= 0 then
      TokenFound(args, TokenIndex(args, prev[k]), prev[k..], untilTokenArgs, parent, env)
    else Ok(None)
  }

  /** The scan order of `findCurrentArgument`: the words after the last recognised one are
      passed over, and that word alone decides the answer; with no recognised word there
      is none. */
  lemma {:induction false} ScanAnswersFromLastRecognized(args: seq<CommandArg>, prev: seq<string>, i: nat,
                                                         untilTokenArgs: seq<string>, parent: Option<CommandTree>,
                                                         env: Externals)
    requires i <= |prev|
    ensures var k := LastRecognized(args, prev, i);
      ScanTyped(args, prev, i, untilTokenArgs, parent, env)
      == if k < 0 then Ok(None) else Decide(args, prev, k, untilTokenArgs, parent, env)
    decreases i
  {
    hide TokenFound, FindCurrentArgument, FindArgByToken, TokenIndex;
    if i > 0 && !Recognized(args, prev[i - 1]) {
      ScanAnswersFromLastRecognized(args, prev, i - 1, untilTokenArgs, parent, env);
    }
  }

  /** The outcome of a whole scan, for the recursion through blocks. */
  lemma {:induction false} FindCurrentArgumentScanOutcome(args: seq<CommandArg>, prev: seq<string>,
                                                          untilTokenArgs: seq<string>,
                                                          parent: Option<CommandTree>, env: Externals)
    ensures ScanOutcome(args, prev, |prev|, parent, FindCurrentArgument(args, prev, untilTokenArgs, parent, env))
    decreases MaxDepth(args), |prev| + 1
  {
    ScanTypedOutcome(args, prev, |prev|, untilTokenArgs, parent, env);
  }

  /** `findCurrentArgument` looks through the typed words from the last one backwards: the
      last word that means something at this level decides the answer (descending into a
      block it opens), and there is none when no word does; it always answers when the
      last word is a token that opens no block, and reports a parent that extends the
      given one or, without one, is rooted at an argument of `args`. */
  lemma FindCurrentArgumentOutcome(args: seq<CommandArg>, prev: seq<string>, untilTokenArgs: seq<string>,
                                   parent: Option<CommandTree>, env: Externals)
    ensures ScanOutcome(args, prev, |prev|, parent, FindCurrentArgument(args, prev, untilTokenArgs, parent, env))
    ensures var k := LastRecognized(args, prev, |prev|);
      FindCurrentArgument(args, prev, untilTokenArgs, parent, env)
      == if k < 0 then Ok(None) else Decide(args, prev, k, untilTokenArgs, parent, env)
  {
    FindCurrentArgumentScanOutcome(args, prev, untilTokenArgs, parent, env);
    ScanAnswersFromLastRecognized(args, prev, |prev|, untilTokenArgs, parent, env);
  }
}
