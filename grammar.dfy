/** The command grammar the workbench matches typed queries against: each node is a
    command argument, possibly with child arguments (a block or a one-of group). */
module Grammar {
  import opened JsBasics

  /** The argument `type`s the matcher tells apart; every other type, and a missing
      type, is `Other`. */
  datatype ArgType = PureToken | Block | OneOf | Other

  /** One grammar node (`IRedisCommand`). A field the grammar data leaves out is `None`;
      `optional` and `multiple` are `false` when absent. `hasArguments` says whether the
      node has an `arguments` array at all (an empty array is still one); when it is
      false, `arguments` is not looked at. */
  datatype CommandArg = CommandArg(
    name: Option<string>,
    kind: ArgType,
    token: Option<string>,
    optional: bool,
    multiple: bool,
    hasArguments: bool,
    arguments: seq<CommandArg>)

  /** A grammar node together with its `parent` back-references (`IRedisCommandTree`):
      `ancestors[0]` is the parent, `ancestors[1]` the grandparent, and so on. */
  datatype CommandTree = CommandTree(arg: CommandArg, ancestors: seq<CommandArg>)

  /** The node and all its ancestors, nearest first. */
  function Chain(t: CommandTree): seq<CommandArg>
  {
    [t.arg] + t.ancestors
  }

  /** The `parent` of a tree node, itself a tree node. */
  function ParentOf(t: CommandTree): Option<CommandTree>
  {
    if t.ancestors == [] then None else Some(CommandTree(t.ancestors[0], t.ancestors[1..]))
  }

  /** A `token` that is present and non-empty, i.e. truthy. */
  predicate HasToken(a: CommandArg)
  {
    a.token.Some? && a.token.value != ""
  }

  /** `a.arguments || []`. */
  function ArgsOf(a: CommandArg): seq<CommandArg>
  {
    if a.hasArguments then a.arguments else []
  }

  /** The object literal `{ type: PureToken, token }`. */
  function PureTokenArg(token: string): CommandArg
  {
    CommandArg(None, PureToken, Some(token), false, false, false, [])
  }

  /** Nesting depth; a block counts one more than other nodes so that a block's own
      arguments, with a pure token put in front, are shallower than the block. */
  function Depth(a: CommandArg): nat
    decreases a
  {
    (if a.kind == Block then 2 else 1) + MaxDepth(a.arguments)
  }

  function MaxDepth(s: seq<CommandArg>): nat
    decreases s
  {
    if s == [] then 0
    else
      var d := Depth(s[0]);
      var m := MaxDepth(s[1..]);
      if d < m then m else d
  }

  lemma {:induction false} MaxDepthBounds(s: seq<CommandArg>, k: nat)
    requires k < |s|
    ensures Depth(s[k]) <= MaxDepth(s)
    decreases k
  {
    if k > 0 {
      MaxDepthBounds(s[1..], k - 1);
    }
  }

  lemma {:induction false} MaxDepthConcat(a: seq<CommandArg>, b: seq<CommandArg>)
    ensures MaxDepth(a + b) == if MaxDepth(a) < MaxDepth(b) then MaxDepth(b) else MaxDepth(a)
    decreases |a|
  {
    if a != [] {
      assert (a + b)[1..] == a[1..] + b;
      MaxDepthConcat(a[1..], b);
    } else {
      assert a + b == b;
    }
  }

  /** `Array(n).fill(s).flat()`: `n` copies of `s` one after the other — the result opens
      with `s` and repeats itself every `|s|` entries. */
  function Tile(s: seq<CommandArg>, n: nat): (r: seq<CommandArg>)
    ensures |r| == n * |s|
    ensures n > 0 ==> r[..|s|] == s
    ensures forall k | 0 <= k < |r| - |s| :: r[k + |s|] == r[k]
    ensures MaxDepth(r) <= MaxDepth(s)
  {
    if n == 0 then []
    else
      var rest := Tile(s, n - 1);
      var r := s + rest;
      MaxDepthConcat(s, rest);
      assert r[..|s|] == s;
      assert forall k | 0 <= k < |r| - |s| :: r[k + |s|] == rest[k];
      r
  }

  /** The lookup condition of `findArgByToken`: a one-of group matches when one of its
      alternatives has the token, any other node when its first argument has it. */
  predicate OpensWith(c: CommandArg, arg: string)
  {
    if c.kind == OneOf then
      exists o | o in ArgsOf(c) :: o.token.Some? && Lower(o.token.value) == Lower(arg)
    else
      ArgsOf(c) != [] && ArgsOf(c)[0].token.Some? && Lower(ArgsOf(c)[0].token.value) == Lower(arg)
  }

  /** `findArgByToken`: the first node of `list` that the typed word `arg` opens. */
  function FindArgByToken(list: seq<CommandArg>, arg: string): (r: Option<CommandArg>)
    ensures r.None? <==> forall c | c in list :: !OpensWith(c, arg)
    ensures r.Some? ==>
      exists k | 0 <= k < |list| ::
        list[k] == r.value && OpensWith(list[k], arg) &&
        forall j | 0 <= j < k :: !OpensWith(list[j], arg)
  {
    if list == [] then None
    else if OpensWith(list[0], arg) then Some(list[0])
    else
      var r := FindArgByToken(list[1..], arg);
      assert forall j | 1 <= j < |list| :: list[j] == list[1..][j - 1];
      r
  }

  /** `addOwnTokenToArgs`: a node with arguments gets a pure token for its own name in
      front of them; a node without arguments is returned as it is. */
  function AddOwnTokenToArgs(token: string, command: CommandArg): (r: CommandArg)
    ensures r.hasArguments == command.hasArguments
    ensures r.(arguments := command.arguments) == command
    ensures command.hasArguments ==>
      |ArgsOf(r)| == |ArgsOf(command)| + 1 &&
      ArgsOf(r)[0] == PureTokenArg(token) &&
      ArgsOf(r)[1..] == ArgsOf(command)
    ensures !command.hasArguments ==> r == command
  {
    if command.hasArguments then command.(arguments := [PureTokenArg(token)] + command.arguments)
    else command
  }
}
