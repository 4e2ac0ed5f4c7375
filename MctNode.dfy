/**
 * MctNode.kt: the command tree. Each node keeps its children in a sorted map keyed
 * by their lower-cased names; a command or a tab completion walks down the tree,
 * one argument per level, as long as the next argument names a child.
 * Launching a node's command on the plugin's coroutine scope is modelled as
 * naming the node and the context it would run with.
 */
module Nodes {
  import opened Wrappers
  import Text
  import opened Context

  /** Strictly increasing under Kotlin's `String.compareTo`, the order of `sortedMapOf()`. */
  predicate SortedKeys(keys: seq<string>) {
    forall i, j :: 0 <= i < j < |keys| ==> Text.LexLess(keys[i], keys[j])
  }

  /** Putting `k` into a sorted key list: added in its place unless already there. */
  function InsertSorted(keys: seq<string>, k: string): (r: seq<string>)
    requires SortedKeys(keys)
    ensures SortedKeys(r)
    ensures forall x :: x in r <==> x in keys || x == k
  {
    if keys == [] then [k]
    else if k == keys[0] then keys
    else if Text.LexLess(k, keys[0]) then
      assert forall j :: 0 <= j < |keys| ==> Text.LexLess(k, keys[j]) by {
        forall j | 0 <= j < |keys| ensures Text.LexLess(k, keys[j]) {
          if j > 0 { Text.LexLessTransitive(k, keys[0], keys[j]); }
        }
      }
      [k] + keys
    else
      Text.LexLessTotal(k, keys[0]);
      var rest := InsertSorted(keys[1..], k);
      assert forall x :: x in rest ==> Text.LexLess(keys[0], x);
      [keys[0]] + rest
  }

  /** The key `children()` files a node under: `name.toLowerCase(Locale.ENGLISH)`. */
  function Key(n: MctNode): string {
    Text.Lower(n.name)
  }

  /** `putAll(nodes.associateBy { key })`: each node in turn, a later one replacing an earlier one. */
  function PutAll(m: map<string, MctNode>, nodes: seq<MctNode>): map<string, MctNode>
    decreases |nodes|
  {
    if nodes == [] then m
    else
      var last := nodes[|nodes| - 1];
      PutAll(m, nodes[..|nodes| - 1])[Key(last) := last]
  }

  /**
   * After `children(nodes)` a key is present when it was before or names one of the
   * nodes, and it maps to the last node with that key, or else to what it mapped to.
   */
  lemma {:induction false} PutAllSpec(m: map<string, MctNode>, nodes: seq<MctNode>)
    ensures forall k :: k in PutAll(m, nodes) <==> k in m || exists i :: 0 <= i < |nodes| && Key(nodes[i]) == k
    ensures forall i :: 0 <= i < |nodes| && (forall j :: i < j < |nodes| ==> Key(nodes[j]) != Key(nodes[i])) ==>
      PutAll(m, nodes)[Key(nodes[i])] == nodes[i]
    ensures forall k :: k in m && (forall i :: 0 <= i < |nodes| ==> Key(nodes[i]) != k) ==> PutAll(m, nodes)[k] == m[k]
    decreases |nodes|
  {
    if nodes != [] {
      var init := nodes[..|nodes| - 1];
      PutAllSpec(m, init);
      assert forall i :: 0 <= i < |init| ==> init[i] == nodes[i];
      forall k | k in PutAll(m, nodes) ensures k in m || exists i :: 0 <= i < |nodes| && Key(nodes[i]) == k {
        if k != Key(nodes[|nodes| - 1]) {
          assert k in PutAll(m, init);
        }
      }
    }
  }

  /** Where the walk down the tree stops: the node, its depth and the arguments left there. */
  datatype Stop = Stop(node: MctNode, depth: nat, args: seq<string>)

  /** What `handleCommand` reports and which node's command, with which context, it launches. */
  datatype Handling = Handling(consumed: bool, launched: Option<(MctNode, CommandContext)>)

  class MctNode {
    const name: string
    /** The completions of an overriding `tabComplete` that answers a fixed list; None for the default. */
    const fixedTab: Option<seq<string>>
    /** `_children`: every child under its lower-cased name ... */
    var children: map<string, MctNode>
    /** ... and the keys in the map's sorted order. */
    var keys: seq<string>

    ghost predicate Valid()
      reads this
    {
      SortedKeys(keys) && forall k :: k in keys <==> k in children
    }

    /** `MctNode(name)`, with no children yet. */
    constructor (name: string, fixedTab: Option<seq<string>>)
      ensures this.name == name && this.fixedTab == fixedTab
      ensures children == map[] && keys == []
      ensures Valid()
    {
      this.name := name;
      this.fixedTab := fixedTab;
      children := map[];
      keys := [];
    }

    /** `children(vararg nodes)`. */
    method Children(nodes: seq<MctNode>)
      requires Valid()
      modifies this
      ensures Valid()
      ensures children == PutAll(old(children), nodes)
    {
      for i := 0 to |nodes|
        invariant Valid()
        invariant children == PutAll(old(children), nodes[..i])
      {
        assert nodes[..i + 1][..i] == nodes[..i];
        var key := Text.Lower(nodes[i].name);
        children := children[key := nodes[i]];
        keys := InsertSorted(keys, key);
      }
      assert nodes[..|nodes|] == nodes;
    }

    /**
     * The walk `handleCommand` and `handleTabComplete` share: while arguments remain and
     * the lower-cased first one names a child, descend into that child one level down.
     */
    function Descend(args: seq<string>, origArgs: seq<string>, depth: nat): (s: Stop)
      reads *
      ensures s.depth >= depth
      ensures s.depth == depth ==> s.node == this && s.args == args
      ensures s.depth > depth ==> s.args == Slice(origArgs, s.depth)
      ensures s.args != [] ==> Text.Lower(s.args[0]) !in s.node.children
      decreases ArgsRank(args, origArgs, depth)
    {
      if args == [] then Stop(this, depth, args)
      else
        var key := Text.Lower(args[0]);
        if key in children then
          children[key].Descend(Slice(origArgs, depth + 1), origArgs, depth + 1)
        else Stop(this, depth, args)
    }

    /** `handleCommand(context)` as written. */
    function HandleCommandAsWritten(c: CommandContext): (h: Handling)
      reads *
      ensures var s := Descend(c.args, c.origArgs, c.depth);
        h == if s.args == [] then Handling(false, None)
             else Handling(s.depth > 0, Some((s.node, if s.depth == c.depth then c else c.SubDepth(s.depth))))
      decreases c.Rank()
    {
      if c.args == [] then Handling(false, None)
      else
        var key := Text.Lower(c.args[0]);
        if key in children then
          CommandChildRank(c);
          SubDepthChild(c, c.depth + 1);
          assert Descend(c.args, c.origArgs, c.depth) == children[key].Descend(c.Child().args, c.origArgs, c.depth + 1);
          children[key].HandleCommandAsWritten(c.Child())
        else Handling(c.depth > 0, Some((this, c)))
    }

    /**
     * `handleCommand(context)` with a sub-command that has no arguments left
     * running its own command, as a root node with no arguments still does not.
     */
    function HandleCommand(c: CommandContext): (h: Handling)
      reads *
      ensures var s := Descend(c.args, c.origArgs, c.depth);
        h == if s.args == [] && s.depth == 0 then Handling(false, None)
             else Handling(s.depth > 0, Some((s.node, if s.depth == c.depth then c else c.SubDepth(s.depth))))
      decreases c.Rank()
    {
      if c.args == [] then
        if c.depth > 0 then Handling(true, Some((this, c))) else Handling(false, None)
      else
        var key := Text.Lower(c.args[0]);
        if key in children then
          CommandChildRank(c);
          SubDepthChild(c, c.depth + 1);
          assert Descend(c.args, c.origArgs, c.depth) == children[key].Descend(c.Child().args, c.origArgs, c.depth + 1);
          children[key].HandleCommand(c.Child())
        else Handling(c.depth > 0, Some((this, c)))
    }

    /** This node's own `tabComplete()`: the fixed list of an override, or the default filter. */
    function TabComplete(c: TabCompleteContext): (r: Option<seq<string>>)
      reads this
      ensures fixedTab.Some? ==> r == fixedTab
      ensures fixedTab.None? ==> r == DefaultTabComplete(keys, c.args)
    {
      if fixedTab.Some? then fixedTab else DefaultTabComplete(keys, c.args)
    }

    /** `handleTabComplete(context)`: the same walk, answered by the node it stops at. */
    function HandleTabComplete(c: TabCompleteContext): (r: Option<seq<string>>)
      reads *
      ensures var s := Descend(c.args, c.origArgs, c.depth);
        r == if s.args == [] then None
             else s.node.TabComplete(if s.depth == c.depth then c else c.AtDepth(s.depth))
      decreases c.Rank()
    {
      if c.args == [] then None
      else
        var key := Text.Lower(c.args[0]);
        if key in children then
          TabChildRank(c);
          var s := children[key].Descend(c.Child().args, c.origArgs, c.depth + 1);
          assert Descend(c.args, c.origArgs, c.depth) == s;
          TabChildAtDepth(c, s.depth);
          children[key].HandleTabComplete(c.Child())
        else TabComplete(c)
    }
  }

  /** Kotlin `keys.filter { it.startsWith(prefix, ignoreCase = true) }`. */
  function FilterPrefix(keys: seq<string>, prefix: string): (r: seq<string>)
    ensures forall k :: k in r <==> k in keys && Text.StartsWithIgnoreCase(k, prefix)
    ensures SortedKeys(keys) ==> SortedKeys(r)
  {
    if keys == [] then []
    else
      var rest := FilterPrefix(keys[1..], prefix);
      if Text.StartsWithIgnoreCase(keys[0], prefix) then
        assert SortedKeys(keys) ==> forall x :: x in rest ==> Text.LexLess(keys[0], x);
        [keys[0]] + rest
      else rest
  }

  /**
   * The default `tabComplete()`: no answer without children; every key, in order,
   * for a missing or empty first argument; otherwise the keys that start with it,
   * ignoring case, still in order.
   */
  function DefaultTabComplete(keys: seq<string>, args: seq<string>): (r: Option<seq<string>>)
    ensures r.None? <==> keys == []
    ensures r.Some? && (args == [] || args[0] == "") ==> r.value == keys
    ensures r.Some? && args != [] ==>
      forall k :: k in r.value <==> k in keys && Text.StartsWithIgnoreCase(k, args[0])
    ensures r.Some? && SortedKeys(keys) ==> SortedKeys(r.value)
  {
    if keys == [] then None
    else if args == [] || args[0] == "" then Some(keys)
    else Some(FilterPrefix(keys, args[0]))
  }

  /** A name without capitals is its own key. */
  lemma LowerOfLower(s: string)
    requires forall i :: 0 <= i < |s| ==> !('A' <= s[i] <= 'Z')
    ensures Text.Lower(s) == s
  {
  }

  /**
   * `/mct compass reset` reaches the `reset` node with no argument left, so as written
   * nothing is launched and the command reports failure; corrected, `reset` runs.
   */
  method ResetWithoutArguments() returns (root: MctNode, reset: MctNode, c: CommandContext)
    ensures c == RootCommand(0, 0, "mct", ["compass", "reset"], 0)
    ensures root.HandleCommandAsWritten(c) == Handling(false, None)
    ensures root.HandleCommand(c) == Handling(true, Some((reset, c.SubDepth(2))))
  {
    LowerOfLower("compass");
    LowerOfLower("follow");
    LowerOfLower("reset");
    reset := new MctNode("reset", None);
    var follow := new MctNode("follow", None);
    var compass := new MctNode("compass", None);
    compass.Children([follow, reset]);
    assert compass.children["reset"] == reset;
    root := new MctNode("mct", None);
    root.Children([compass]);
    assert root.children["compass"] == compass;
    c := RootCommand(0, 0, "mct", ["compass", "reset"], 0);
    var c1 := c.Child();
    assert c1.args == ["reset"];
    var c2 := c1.Child();
    assert c2.args == [] && c2 == c.SubDepth(2);
    assert reset.HandleCommandAsWritten(c2) == Handling(false, None);
    assert compass.HandleCommandAsWritten(c1) == Handling(false, None);
    assert reset.HandleCommand(c2) == Handling(true, Some((reset, c2)));
    assert compass.HandleCommand(c1) == Handling(true, Some((reset, c2)));
  }
}
