/**
 * Context.kt: the immutable contexts a command or a tab completion travels through
 * the node tree with. Each level of the tree looks at `args`, the arguments that
 * remain once the first `depth` of `origArgs` have been consumed.
 * The Bukkit sender, command and plugin objects are opaque handles here.
 */
module Context {
  import opened Wrappers

  /** An opaque reference to a Bukkit object (sender, command, plugin or player). */
  type Handle = nat

  /** Kotlin `a.sliceArray(from..a.lastIndex)` for `from >= 0`: empty once `from` passes the end. */
  function Slice(a: seq<string>, from: nat): (r: seq<string>)
    ensures |r| == if from < |a| then |a| - from else 0
    ensures forall i :: 0 <= i < |r| ==> r[i] == a[from + i]
  {
    if from < |a| then a[from..] else []
  }

  lemma SliceStep(a: seq<string>, n: nat)
    requires Slice(a, n) != []
    ensures Slice(a, n + 1) == Slice(a, n)[1..]
  {
  }

  /**
   * How far a context is from running out of arguments; it shrinks with every
   * `child()` of a context that still has arguments.
   */
  function ArgsRank(args: seq<string>, origArgs: seq<string>, depth: nat): nat {
    if args == [] then 0 else if depth < |origArgs| then |origArgs| - depth + 1 else 1
  }

  datatype CommandContext = CommandContext(
    sender: Handle, command: Handle, commandLabel: string,
    args: seq<string>, origArgs: seq<string>, depth: nat, plugin: Handle)
  {
    /** `subDepth(newDepth)`: the same command seen from level `newDepth`. */
    function SubDepth(newDepth: nat): (c: CommandContext)
      ensures c.depth == newDepth && c.args == Slice(origArgs, newDepth)
      ensures c.sender == sender && c.command == command && c.commandLabel == commandLabel
      ensures c.origArgs == origArgs && c.plugin == plugin
    {
      CommandContext(sender, command, commandLabel, Slice(origArgs, newDepth), origArgs, newDepth, plugin)
    }

    /** `child()`: one level further down. */
    function Child(): (c: CommandContext)
      ensures c == SubDepth(depth + 1)
    {
      SubDepth(depth + 1)
    }

    /** `args` are what is left of `origArgs` after `depth` arguments. */
    predicate WellFormed() {
      args == Slice(origArgs, depth)
    }

    function Rank(): nat {
      ArgsRank(args, origArgs, depth)
    }
  }

  /** The context the plugin builds for a typed command: all arguments, depth 0. */
  function RootCommand(sender: Handle, command: Handle, commandLabel: string, args: seq<string>, plugin: Handle): (c: CommandContext)
    ensures c.WellFormed() && c.depth == 0 && c.args == args
  {
    CommandContext(sender, command, commandLabel, args, args, 0, plugin)
  }

  /** Every `subDepth` context is well formed, and `child()` of one is the next `subDepth`. */
  lemma SubDepthChild(c: CommandContext, n: nat)
    ensures c.SubDepth(n).WellFormed()
    ensures c.SubDepth(n).Child() == c.SubDepth(n + 1)
  {
  }

  /** In a well-formed context, `child()` consumes exactly the first argument. */
  lemma CommandChildConsumes(c: CommandContext)
    requires c.WellFormed() && c.args != []
    ensures c.Child().WellFormed() && c.Child().args == c.args[1..]
  {
    SliceStep(c.origArgs, c.depth);
  }

  /** `child()` of a context with arguments left moves it closer to running out. */
  lemma CommandChildRank(c: CommandContext)
    requires c.args != []
    ensures c.Child().Rank() < c.Rank()
  {
  }

  datatype TabCompleteContext = TabCompleteContext(
    sender: Handle, command: Handle, alias: string,
    args: seq<string>, origArgs: seq<string>, depth: nat, plugin: Handle)
  {
    /** `child()`: arguments from `depth + 1` on; everything else but the depth is kept. */
    function Child(): (c: TabCompleteContext)
      ensures c.depth == depth + 1 && c.args == Slice(origArgs, depth + 1)
      ensures c.sender == sender && c.command == command && c.alias == alias
      ensures c.origArgs == origArgs && c.plugin == plugin
    {
      TabCompleteContext(sender, command, alias, Slice(origArgs, depth + 1), origArgs, depth + 1, plugin)
    }

    /** The context `child()` reaches after descending to level `d`. */
    function AtDepth(d: nat): (c: TabCompleteContext)
      ensures c.depth == d && c.args == Slice(origArgs, d)
      ensures c.sender == sender && c.command == command && c.alias == alias
      ensures c.origArgs == origArgs && c.plugin == plugin
    {
      TabCompleteContext(sender, command, alias, Slice(origArgs, d), origArgs, d, plugin)
    }

    predicate WellFormed() {
      args == Slice(origArgs, depth)
    }

    function Rank(): nat {
      ArgsRank(args, origArgs, depth)
    }
  }

  function RootTabComplete(sender: Handle, command: Handle, alias: string, args: seq<string>, plugin: Handle): (c: TabCompleteContext)
    ensures c.WellFormed() && c.depth == 0 && c.args == args
  {
    TabCompleteContext(sender, command, alias, args, args, 0, plugin)
  }

  /** `child()` is the next level, and descending from it reaches the same contexts. */
  lemma TabChildAtDepth(c: TabCompleteContext, d: nat)
    ensures c.Child() == c.AtDepth(c.depth + 1)
    ensures c.Child().AtDepth(d) == c.AtDepth(d)
  {
  }

  lemma TabChildConsumes(c: TabCompleteContext)
    requires c.WellFormed() && c.args != []
    ensures c.Child().WellFormed() && c.Child().args == c.args[1..]
  {
    SliceStep(c.origArgs, c.depth);
  }

  lemma TabChildRank(c: TabCompleteContext)
    requires c.args != []
    ensures c.Child().Rank() < c.Rank()
  {
  }

  /** `nameToPlayerOrNull`: a missing name is no player, and the server is not asked. */
  function NameToPlayerOrNull(name: Option<string>, getPlayer: string -> Option<Handle>): (r: Option<Handle>)
    ensures name.None? ==> r.None?
    ensures name.Some? ==> r == getPlayer(name.value)
  {
    if name.Some? then getPlayer(name.value) else None
  }

  datatype PlayerFailure = NoSuchPlayer(name: Option<string>)

  /** `nameToPlayer`: as above, but failing with "Player $name does not exist". */
  function NameToPlayer(name: Option<string>, getPlayer: string -> Option<Handle>): (r: Result<Handle, PlayerFailure>)
    ensures r.Ok? <==> name.Some? && getPlayer(name.value).Some?
    ensures r.Ok? ==> Some(r.value) == getPlayer(name.value)
    ensures r.Err? ==> r.error == NoSuchPlayer(name)
  {
    match NameToPlayerOrNull(name, getPlayer)
    case Some(p) => Ok(p)
    case None => Err(NoSuchPlayer(name))
  }
}
