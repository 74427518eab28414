/** Pure helpers of the automatic quantization utilities (`_utils.py`): the
    module-dict key rewrite of a qualified name, the `HookType` enumeration and
    the two decisions of which hooks a call or a module needs, the membership
    test of a node's op type, and the edges `convert_quant_state_map_to_nodes`
    draws between the nodes it has created. */
module QuantUtils {
  import opened Results

  // ---------------------------------------------------------------------------
  // Module-dict keys

  /** Every `from` in `s` becomes `to`; every other character stays. */
  function Replace(s: string, from: char, to: char): (r: string)
    ensures |r| == |s|
    ensures forall i :: 0 <= i < |s| ==> r[i] == if s[i] == from then to else s[i]
  {
    if |s| == 0 then []
    else Replace(s[..|s| - 1], from, to) + [if s[|s| - 1] == from then to else s[|s| - 1]]
  }

  /** Lines 59-65: the empty name becomes a single space, and every '.' a ':'. */
  function FqnKey(fqn: string): (key: string)
    ensures fqn == "" ==> key == " "
    ensures fqn != "" ==> |key| == |fqn|
    ensures '.' !in key
  {
    Replace(if fqn == "" then " " else fqn, '.', ':')
  }

  /** The rewrite is undone by turning every ':' back into '.', for any
      non-empty name without a ':' of its own. */
  lemma FqnKeyRoundTrip(fqn: string)
    requires fqn != "" && ':' !in fqn
    ensures Replace(FqnKey(fqn), ':', '.') == fqn
  {
    var key := FqnKey(fqn);
    forall i | 0 <= i < |fqn|
      ensures Replace(key, ':', '.')[i] == fqn[i]
    {
      assert key[i] == if fqn[i] == '.' then ':' else fqn[i];
    }
  }

  /** Two names without ':' get the same key only if they are equal, or are
      the empty name and the single space. */
  lemma FqnKeyInjective(a: string, b: string)
    requires ':' !in a && ':' !in b
    requires FqnKey(a) == FqnKey(b)
    ensures a == b || (a == "" && b == " ") || (a == " " && b == "")
  {
    if a != "" && b != "" {
      FqnKeyRoundTrip(a);
      FqnKeyRoundTrip(b);
    } else if a == "" && b != "" {
      assert FqnKey(b)[0] == ' ';
    } else if a != "" && b == "" {
      assert FqnKey(a)[0] == ' ';
    }
  }

  // ---------------------------------------------------------------------------
  // Hook types

  /** The four names the `HookType` class declares (lines 67-86), in order. */
  datatype HookName = OpHooks | ModuleIoHooks | ArgDequants | NoHooks

  /** The value each name is declared with: `NONE` repeats the 2 of `ARG_DEQUANTS`. */
  function DeclaredValue(name: HookName): nat
  {
    match name
    case OpHooks => 0
    case ModuleIoHooks => 1
    case ArgDequants => 2
    case NoHooks => 2
  }

  const DeclarationOrder: seq<HookName> := [OpHooks, ModuleIoHooks, ArgDequants, NoHooks]

  /** The position of the first name in `names` declared with `value`. */
  function FirstWithValue(names: seq<HookName>, value: nat): (i: nat)
    requires exists j :: 0 <= j < |names| && DeclaredValue(names[j]) == value
    ensures i < |names| && DeclaredValue(names[i]) == value
    ensures forall j :: 0 <= j < i ==> DeclaredValue(names[j]) != value
  {
    if DeclaredValue(names[0]) == value then 0
    else 1 + FirstWithValue(names[1..], value)
  }

  /** The enumeration member a name denotes: a name whose value an earlier name
      already has is an alias of that earlier member. */
  function Member(name: HookName): (m: HookName)
    ensures DeclaredValue(m) == DeclaredValue(name)
  {
    assert DeclaredValue(DeclarationOrder[if name == NoHooks then 3 else if name == ArgDequants then 2
                                          else if name == ModuleIoHooks then 1 else 0]) == DeclaredValue(name);
    DeclarationOrder[FirstWithValue(DeclarationOrder, DeclaredValue(name))]
  }

  /** `HookType.NONE` is `HookType.ARG_DEQUANTS`; the other three names are
      distinct members. */
  lemma NoneAliasesArgDequants()
    ensures Member(NoHooks) == ArgDequants
    ensures Member(OpHooks) == OpHooks && Member(ModuleIoHooks) == ModuleIoHooks && Member(ArgDequants) == ArgDequants
  {
    assert DeclaredValue(DeclarationOrder[1]) == 1 && DeclaredValue(DeclarationOrder[2]) == 2;
    assert FirstWithValue(DeclarationOrder, 2) == 2;
    assert FirstWithValue(DeclarationOrder, 1) == 1;
  }

  /** What the hook decisions need to know about a module: whether it carries
      an `_auto_quant_state`, and its cached module hook type, if any. */
  datatype ModuleInfo = ModuleInfo(hasQState: bool, cachedHookType: Option<HookName>)

  predicate HasQState(parent: Option<ModuleInfo>)
  {
    parent.Some? && parent.value.hasQState
  }

  /** Lines 88-106. `needsHooks` is what the parent's quantization state answers
      when asked whether the current op needs hooks; it is asked only when the
      parent has such a state. */
  function TorchFunctionHookType(parent: Option<ModuleInfo>, needsHooks: bool): (h: HookName)
    ensures h == OpHooks <==> HasQState(parent) && needsHooks
    ensures h != OpHooks ==> h == ArgDequants
  {
    var parentHasQState := HasQState(parent);
    var needsOpHooks := parentHasQState && needsHooks;
    if needsOpHooks then Member(OpHooks)
    else if parentHasQState then Member(ArgDequants)
    else Member(NoHooks)
  }

  /** The answer of `get_module_hook_type` together with the current module as
      the call leaves it. */
  datatype ModuleHookDecision = ModuleHookDecision(hookType: HookName, updated: ModuleInfo)

  /** Lines 108-138: a cached answer is returned as it is; otherwise op hooks
      come first, then module I/O hooks for a module with its own state, then
      argument dequantization for a parent with state, and the answer is cached
      on the module. */
  function ModuleHookType(parent: Option<ModuleInfo>, cur: ModuleInfo, needsHooks: bool): (d: ModuleHookDecision)
    ensures cur.cachedHookType.Some? ==> d == ModuleHookDecision(cur.cachedHookType.value, cur)
    ensures cur.cachedHookType.None? ==> d.updated == cur.(cachedHookType := Some(d.hookType))
    ensures cur.cachedHookType.None? ==>
              && (d.hookType == OpHooks <==> HasQState(parent) && needsHooks)
              && (d.hookType == ModuleIoHooks <==> cur.hasQState && !(HasQState(parent) && needsHooks))
              && (d.hookType == ArgDequants <==> !cur.hasQState && !(HasQState(parent) && needsHooks))
              && d.hookType != NoHooks
  {
    if cur.cachedHookType.Some? then ModuleHookDecision(cur.cachedHookType.value, cur)
    else
      var parentHasQState := HasQState(parent);
      var needsOpHooks := parentHasQState && needsHooks;
      var needsIoHooks := cur.hasQState && !needsOpHooks;
      var needsArgDequants := parentHasQState && !needsOpHooks;
      var result :=
        if needsOpHooks then Member(OpHooks)
        else if needsIoHooks then Member(ModuleIoHooks)
        else if needsArgDequants then Member(ArgDequants)
        else Member(NoHooks);
      ModuleHookDecision(result, cur.(cachedHookType := Some(result)))
  }

  /** Asking twice gives the first answer and changes nothing more, whatever
      the parent answers the second time. */
  lemma ModuleHookTypeIdempotent(parent: Option<ModuleInfo>, cur: ModuleInfo, needsHooks: bool, needsHooksAgain: bool)
    ensures var first := ModuleHookType(parent, cur, needsHooks);
            ModuleHookType(parent, first.updated, needsHooksAgain) == first
  {
  }

  /** For a module without a state of its own and nothing cached, the module
      decision is the decision for a function call under the same parent. */
  lemma ModuleWithoutStateDecidesLikeFunction(parent: Option<ModuleInfo>, cur: ModuleInfo, needsHooks: bool)
    requires !cur.hasQState && cur.cachedHookType.None?
    ensures ModuleHookType(parent, cur, needsHooks).hookType == TorchFunctionHookType(parent, needsHooks)
  {
  }

  // ---------------------------------------------------------------------------
  // Nodes and edges

  /** A tensor info as the nodes hold it: `Missing` is a `None` entry, and
      infos compare by value. */
  datatype TensorInfo = Missing | Info(id: nat, origDtype: nat, inferredDtype: nat)

  /** A node of the graph `convert_quant_state_map_to_nodes` builds: an op node
      with its infos and edges (edges are positions in the node list), or the
      node standing for a module's outputs, which takes no part in the edges. */
  datatype Node =
    | OpNode(opType: string, inputs: seq<TensorInfo>, outputs: seq<TensorInfo>, preNodes: seq<nat>, postNodes: seq<nat>)
    | ParentNode(outputInfo: seq<TensorInfo>)

  /** Lines 246-250: the node's op type is one of `givenOps`. */
  method NodeInGivenOps(node: Node, givenOps: seq<string>) returns (r: bool)
    requires node.OpNode?
    ensures r <==> exists i :: 0 <= i < |givenOps| && givenOps[i] == node.opType
  {
    var i := 0;
    while i < |givenOps|
      invariant i <= |givenOps|
      invariant forall j :: 0 <= j < i ==> givenOps[j] != node.opType
    {
      if givenOps[i] == node.opType {
        return true;
      }
      i := i + 1;
    }
    return false;
  }

  /** How many of `infos` occur in `pool`. */
  function Hits(infos: seq<TensorInfo>, pool: seq<TensorInfo>): nat
  {
    if |infos| == 0 then 0
    else Hits(infos[..|infos| - 1], pool) + (if infos[|infos| - 1] in pool then 1 else 0)
  }

  function Repeat(j: nat, count: nat): (s: seq<nat>)
    ensures |s| == count && forall i :: 0 <= i < count ==> s[i] == j
  {
    seq(count, _ => j)
  }

  /** The infos of an op node on the side the edge search looks at. */
  function Side(node: Node, outputs: bool): seq<TensorInfo>
    requires node.OpNode?
  {
    if outputs then node.outputs else node.inputs
  }

  /** The edges from `infos` to the op nodes among the first `upto`: node `j`
      once for every info found on its `outputs` side, in node order. */
  function Links(nodes: seq<Node>, infos: seq<TensorInfo>, outputs: bool, upto: nat): seq<nat>
    requires upto <= |nodes|
  {
    if upto == 0 then []
    else Links(nodes, infos, outputs, upto - 1)
         + (if nodes[upto - 1].OpNode? then Repeat(upto - 1, Hits(infos, Side(nodes[upto - 1], outputs))) else [])
  }

  /** A node after the edge loop: an op node gains its predecessors (nodes
      producing one of its inputs) and successors (nodes consuming one of its
      outputs); a parent node is left alone. */
  function Connected(nodes: seq<Node>, c: nat): Node
    requires c < |nodes|
  {
    match nodes[c]
    case ParentNode(_) => nodes[c]
    case OpNode(_, inputs, outputs, preNodes, postNodes) =>
      nodes[c].(preNodes := preNodes + Links(nodes, inputs, true, |nodes|),
                postNodes := postNodes + Links(nodes, outputs, false, |nodes|))
  }

  /** Lines 237-243 for one pair: node `j` once for every info of `infos` in
      node `j`'s infos on the given side. */
  method MatchInfos(nodes: seq<Node>, j: nat, infos: seq<TensorInfo>, outputs: bool) returns (added: seq<nat>)
    requires j < |nodes| && nodes[j].OpNode?
    ensures added == Repeat(j, Hits(infos, Side(nodes[j], outputs)))
  {
    var pool := if outputs then nodes[j].outputs else nodes[j].inputs;
    added := [];
    var k := 0;
    while k < |infos|
      invariant k <= |infos|
      invariant added == Repeat(j, Hits(infos[..k], pool))
    {
      assert infos[..k + 1][..k] == infos[..k];
      if infos[k] in pool {
        added := added + [j];
      }
      k := k + 1;
    }
    assert infos[..k] == infos;
  }

  /** Lines 229-243 for one current node: every op node is tried in order. */
  method ConnectNode(nodes: seq<Node>, c: nat) returns (node: Node)
    requires c < |nodes|
    ensures node == Connected(nodes, c)
  {
    node := nodes[c];
    if node.ParentNode? {
      return;
    }
    var preNodes := node.preNodes;
    var postNodes := node.postNodes;
    var j := 0;
    while j < |nodes|
      invariant j <= |nodes|
      invariant preNodes == nodes[c].preNodes + Links(nodes, nodes[c].inputs, true, j)
      invariant postNodes == nodes[c].postNodes + Links(nodes, nodes[c].outputs, false, j)
    {
      if nodes[j].OpNode? {
        var pre := MatchInfos(nodes, j, nodes[c].inputs, true);
        var post := MatchInfos(nodes, j, nodes[c].outputs, false);
        preNodes := preNodes + pre;
        postNodes := postNodes + post;
      }
      j := j + 1;
    }
    node := node.(preNodes := preNodes, postNodes := postNodes);
  }

  /** Lines 229-244: the edge loop over every node. */
  method ConnectNodes(nodes: seq<Node>) returns (res: seq<Node>)
    ensures |res| == |nodes|
    ensures forall c :: 0 <= c < |nodes| ==> res[c] == Connected(nodes, c)
  {
    res := nodes;
    var c := 0;
    while c < |nodes|
      invariant c <= |nodes| && |res| == |nodes|
      invariant forall x :: 0 <= x < c ==> res[x] == Connected(nodes, x)
    {
      var node := ConnectNode(nodes, c);
      res := res[c := node];
      c := c + 1;
    }
  }

  /** `Hits` counts occurrences: it is positive exactly when some info of
      `infos` is in `pool`. */
  lemma {:induction false} HitsPositive(infos: seq<TensorInfo>, pool: seq<TensorInfo>)
    ensures Hits(infos, pool) > 0 <==> exists i :: 0 <= i < |infos| && infos[i] in pool
  {
    if |infos| > 0 {
      var init := infos[..|infos| - 1];
      HitsPositive(init, pool);
      if exists i :: 0 <= i < |init| && init[i] in pool {
        var i :| 0 <= i < |init| && init[i] in pool;
        assert infos[i] in pool;
      }
      if exists i :: 0 <= i < |infos| && infos[i] in pool {
        var i :| 0 <= i < |infos| && infos[i] in pool;
        if i < |init| {
          assert init[i] in pool;
        }
      }
    }
  }

  /** The edges to node `j` number exactly the infos found on its side, and
      there are none to parent nodes or to nodes from `upto` on. */
  lemma {:induction false} LinksCount(nodes: seq<Node>, infos: seq<TensorInfo>, outputs: bool, upto: nat, j: nat)
    requires upto <= |nodes|
    ensures multiset(Links(nodes, infos, outputs, upto))[j]
            == if j < upto && nodes[j].OpNode? then Hits(infos, Side(nodes[j], outputs)) else 0
  {
    if upto > 0 {
      LinksCount(nodes, infos, outputs, upto - 1, j);
      var last := if nodes[upto - 1].OpNode? then Repeat(upto - 1, Hits(infos, Side(nodes[upto - 1], outputs))) else [];
      assert Links(nodes, infos, outputs, upto) == Links(nodes, infos, outputs, upto - 1) + last;
      RepeatCount(upto - 1, |last|, j);
    }
  }

  /** A run of `j`s holds `count` copies of `j` and nothing else. */
  lemma {:induction false} RepeatCount(j: nat, count: nat, x: nat)
    ensures multiset(Repeat(j, count))[x] == if x == j then count else 0
  {
    if count > 0 {
      RepeatCount(j, count - 1, x);
      assert Repeat(j, count) == Repeat(j, count - 1) + [j];
    }
  }

  /** `s` is in non-decreasing order and every entry is below `bound`. */
  predicate Ascending(s: seq<nat>, bound: nat)
  {
    forall a, b :: 0 <= a < b < |s| ==> s[a] <= s[b] < bound
  }

  /** A run of `j`s after entries below `j` keeps the order. */
  lemma AscendingAppend(s: seq<nat>, j: nat, count: nat)
    requires Ascending(s, j) && forall a :: 0 <= a < |s| ==> s[a] < j
    ensures Ascending(s + Repeat(j, count), j + 1)
  {
  }

  /** The edges come in node order. */
  lemma {:induction false} LinksOrdered(nodes: seq<Node>, infos: seq<TensorInfo>, outputs: bool, upto: nat)
    requires upto <= |nodes|
    ensures Ascending(Links(nodes, infos, outputs, upto), upto)
  {
    if upto > 0 {
      LinksOrdered(nodes, infos, outputs, upto - 1);
      var init := Links(nodes, infos, outputs, upto - 1);
      forall a | 0 <= a < |init|
        ensures init[a] < upto - 1
      {
        assert init[a] in multiset(init);
        LinksCount(nodes, infos, outputs, upto - 1, init[a]);
      }
      var count := if nodes[upto - 1].OpNode? then Hits(infos, Side(nodes[upto - 1], outputs)) else 0;
      AscendingAppend(init, upto - 1, count);
      assert Links(nodes, infos, outputs, upto) == init + Repeat(upto - 1, count);
    }
  }

  /** The edges agree from both ends: `j` is a predecessor of `c` exactly when
      `c` is a successor of `j`, for any two op nodes. */
  lemma EdgesSymmetric(nodes: seq<Node>, c: nat, j: nat)
    requires c < |nodes| && j < |nodes| && nodes[c].OpNode? && nodes[j].OpNode?
    ensures j in Links(nodes, nodes[c].inputs, true, |nodes|) <==> c in Links(nodes, nodes[j].outputs, false, |nodes|)
  {
    var pre := Links(nodes, nodes[c].inputs, true, |nodes|);
    var post := Links(nodes, nodes[j].outputs, false, |nodes|);
    LinksCount(nodes, nodes[c].inputs, true, |nodes|, j);
    LinksCount(nodes, nodes[j].outputs, false, |nodes|, c);
    HitsPositive(nodes[c].inputs, nodes[j].outputs);
    HitsPositive(nodes[j].outputs, nodes[c].inputs);
    if exists i :: 0 <= i < |nodes[c].inputs| && nodes[c].inputs[i] in nodes[j].outputs {
      var i :| 0 <= i < |nodes[c].inputs| && nodes[c].inputs[i] in nodes[j].outputs;
      var o :| 0 <= o < |nodes[j].outputs| && nodes[j].outputs[o] == nodes[c].inputs[i];
      assert nodes[j].outputs[o] in nodes[c].inputs;
    }
    if exists o :: 0 <= o < |nodes[j].outputs| && nodes[j].outputs[o] in nodes[c].inputs {
      var o :| 0 <= o < |nodes[j].outputs| && nodes[j].outputs[o] in nodes[c].inputs;
      var i :| 0 <= i < |nodes[c].inputs| && nodes[c].inputs[i] == nodes[j].outputs[o];
      assert nodes[c].inputs[i] in nodes[j].outputs;
    }
    assert j in pre <==> j in multiset(pre);
    assert c in post <==> c in multiset(post);
  }
}
