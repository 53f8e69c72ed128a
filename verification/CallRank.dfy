/**
 * Acyclic calls. Well-formedness, import and evaluation are defined up to a bound on the nesting of calls. A rank that
 * goes down from every function to those it calls gives such a bound, and the bound does not matter.
 */
module CallRank {
  import opened Wrappers
  import opened OnnxModel
  import opened AttributeReferences
  import opened GraphSemantics
  import opened FreeNames
  import opened CallHygiene
  import opened SsaProgram
  import opened SymbolTable
  import opened GraphImport
  import opened ProperNames
  import opened ImportSuccess

  // ---------------------------------------------------------------- well-formed, however deep the calls go

  greatest predicate SoundNodes(t: Dispatch, k: Context, nodes: seq<Node>) {
    forall i :: 0 <= i < |nodes| ==> SoundNode(t, k, nodes[i])
  }

  /** Every call, at any depth of nested graphs, is sound. */
  greatest predicate SoundNode(t: Dispatch, k: Context, node: Node) {
    && (forall i :: 0 <= i < |node.attrs| && node.attrs[i].value.Subgraph? ==>
      SoundNodes(t, k, node.attrs[i].value.graph.nodes))
    && var target := t.resolve(k, node.domain, node.opType);
       target.Call? ==> SoundCall(t, k, node, target.f, target.fromSchema)
  }

  /** The call and its function fit, and so do the calls of the function's body, and so on. */
  greatest predicate SoundCall(t: Dispatch, k: Context, node: Node, f: Function, fromSchema: bool) {
    && CallFits(t, k, node, f, fromSchema)
    && SoundNodes(t, BodyContext(k, f, fromSchema), SubstNodes(f.nodes, CallAttrs(f, node.attrs)))
  }

  ghost predicate SoundGraph(t: Dispatch, k: Context, g: Graph, visible: set<Name>) {
    RefFreeNodes(g.nodes) && ProperGraph(g, visible) && SoundNodes(t, k, g.nodes)
  }

  // ---------------------------------------------------------------- ranks

  /** A rank for each function, by the context in which its body is read. */
  type Rank = (Context, Function) -> nat

  predicate NodesBelow(t: Dispatch, rank: Rank, k: Context, nodes: seq<Node>, r: nat)
    decreases nodes
  {
    nodes == [] || (NodeBelow(t, rank, k, nodes[0], r) && NodesBelow(t, rank, k, nodes[1..], r))
  }

  /** Every call in the node, at any depth of nested graphs, is of a function of lower rank. */
  predicate NodeBelow(t: Dispatch, rank: Rank, k: Context, node: Node, r: nat)
    decreases node
  {
    var target := t.resolve(k, node.domain, node.opType);
    && (target.Call? ==> rank(BodyContext(k, target.f, target.fromSchema), target.f) < r)
    && AttrsBelow(t, rank, k, node.attrs, r)
  }

  predicate AttrsBelow(t: Dispatch, rank: Rank, k: Context, attrs: seq<Attr>, r: nat)
    decreases attrs
  {
    attrs == [] || (ValueBelow(t, rank, k, attrs[0].value, r) && AttrsBelow(t, rank, k, attrs[1..], r))
  }

  predicate ValueBelow(t: Dispatch, rank: Rank, k: Context, v: AttrValue, r: nat)
    decreases v
  {
    v.Subgraph? ==> NodesBelow(t, rank, k, v.graph.nodes, r)
  }

  /**
   * The calls of the function's body, of its defaults and of the graphs passed to it, read in the body's context, are
   * of functions of lower rank.
   */
  predicate Descends(t: Dispatch, rank: Rank, k: Context, node: Node, f: Function, fromSchema: bool) {
    var k' := BodyContext(k, f, fromSchema);
    var r := rank(k', f);
    NodesBelow(t, rank, k', f.nodes, r) && AttrsBelow(t, rank, k', f.defaults, r) &&
      AttrsBelow(t, rank, k', node.attrs, r)
  }

  greatest predicate RankedNodes(t: Dispatch, rank: Rank, k: Context, nodes: seq<Node>) {
    forall i :: 0 <= i < |nodes| ==> RankedNode(t, rank, k, nodes[i])
  }

  /** Every call that is ever made descends. */
  greatest predicate RankedNode(t: Dispatch, rank: Rank, k: Context, node: Node) {
    && (forall i :: 0 <= i < |node.attrs| && node.attrs[i].value.Subgraph? ==>
      RankedNodes(t, rank, k, node.attrs[i].value.graph.nodes))
    && var target := t.resolve(k, node.domain, node.opType);
       target.Call? ==> RankedCall(t, rank, k, node, target.f, target.fromSchema)
  }

  greatest predicate RankedCall(t: Dispatch, rank: Rank, k: Context, node: Node, f: Function, fromSchema: bool) {
    && Descends(t, rank, k, node, f, fromSchema)
    && RankedNodes(t, rank, BodyContext(k, f, fromSchema), SubstNodes(f.nodes, CallAttrs(f, node.attrs)))
  }

  /** The call relation has no cycle. */
  ghost predicate Acyclic(t: Dispatch, k: Context, nodes: seq<Node>) {
    exists rank: Rank :: RankedNodes(t, rank, k, nodes)
  }

  // ---------------------------------------------------------------- the calls of an instantiated body

  lemma {:induction false} NodesHigher(t: Dispatch, rank: Rank, k: Context, nodes: seq<Node>, r: nat, s: nat)
    requires NodesBelow(t, rank, k, nodes, r) && r <= s
    ensures NodesBelow(t, rank, k, nodes, s)
    decreases nodes
  {
    if nodes != [] {
      AttrsHigher(t, rank, k, nodes[0].attrs, r, s);
      NodesHigher(t, rank, k, nodes[1..], r, s);
    }
  }

  lemma {:induction false} AttrsHigher(t: Dispatch, rank: Rank, k: Context, attrs: seq<Attr>, r: nat, s: nat)
    requires AttrsBelow(t, rank, k, attrs, r) && r <= s
    ensures AttrsBelow(t, rank, k, attrs, s)
    decreases attrs
  {
    if attrs != [] {
      if attrs[0].value.Subgraph? {
        NodesHigher(t, rank, k, attrs[0].value.graph.nodes, r, s);
      }
      AttrsHigher(t, rank, k, attrs[1..], r, s);
    }
  }

  ghost predicate MapBelow(t: Dispatch, rank: Rank, k: Context, am: AttrMap, r: nat) {
    forall x :: x in am ==> ValueBelow(t, rank, k, am[x], r)
  }

  lemma {:induction false} SubstNodesBelow(t: Dispatch, rank: Rank, k: Context, nodes: seq<Node>, am: AttrMap, r: nat)
    requires NodesBelow(t, rank, k, nodes, r) && MapBelow(t, rank, k, am, r)
    ensures NodesBelow(t, rank, k, SubstNodes(nodes, am), r)
    decreases nodes
  {
    if nodes != [] {
      SubstAttrsBelow(t, rank, k, nodes[0].attrs, am, r);
      SubstNodesBelow(t, rank, k, nodes[1..], am, r);
      var s := SubstNodes(nodes, am);
      assert s[0] == SubstNode(nodes[0], am) && s[1..] == SubstNodes(nodes[1..], am);
    }
  }

  lemma {:induction false} SubstAttrsBelow(t: Dispatch, rank: Rank, k: Context, attrs: seq<Attr>, am: AttrMap, r: nat)
    requires AttrsBelow(t, rank, k, attrs, r) && MapBelow(t, rank, k, am, r)
    ensures AttrsBelow(t, rank, k, SubstAttrs(attrs, am), r)
    decreases attrs
  {
    if attrs != [] {
      var a, rest := attrs[0], SubstAttrs(attrs[1..], am);
      SubstAttrsBelow(t, rank, k, attrs[1..], am, r);
      if a.refName == "" && a.value.Subgraph? {
        SubstNodesBelow(t, rank, k, a.value.graph.nodes, am, r);
      }
      if ValueOf(a, am).Some? {
        var b := Attr(a.name, "", if a.refName == "" then SubstValue(a.value, am) else am[a.refName]);
        assert SubstAttrs(attrs, am) == [b] + rest && ([b] + rest)[1..] == rest;
      }
    }
  }

  lemma {:induction false} AttrBelow(t: Dispatch, rank: Rank, k: Context, attrs: seq<Attr>, i: nat, r: nat)
    requires AttrsBelow(t, rank, k, attrs, r) && i < |attrs|
    ensures ValueBelow(t, rank, k, attrs[i].value, r)
  {
    if i > 0 {
      AttrBelow(t, rank, k, attrs[1..], i - 1, r);
    }
  }

  lemma {:induction false} ByNameIsAttr(attrs: seq<Attr>, x: Name) returns (i: nat)
    requires x in ByName(attrs)
    ensures i < |attrs| && attrs[i].value == ByName(attrs)[x]
  {
    i := |attrs| - 1;
    if attrs[i].name != x {
      i := ByNameIsAttr(attrs[..i], x);
    }
  }

  /** The instantiated body of a call that descends calls only functions of lower rank. */
  lemma InstanceBelow(t: Dispatch, rank: Rank, k: Context, node: Node, f: Function, fromSchema: bool)
    requires Descends(t, rank, k, node, f, fromSchema)
    ensures var k' := BodyContext(k, f, fromSchema);
      NodesBelow(t, rank, k', SubstNodes(f.nodes, CallAttrs(f, node.attrs)), rank(k', f))
  {
    var k', am := BodyContext(k, f, fromSchema), CallAttrs(f, node.attrs);
    var r := rank(k', f);
    forall x | x in am ensures ValueBelow(t, rank, k', am[x], r) {
      if x in ByName(node.attrs) {
        var i := ByNameIsAttr(node.attrs, x);
        AttrBelow(t, rank, k', node.attrs, i, r);
      } else {
        var i := ByNameIsAttr(f.defaults, x);
        AttrBelow(t, rank, k', f.defaults, i, r);
      }
    }
    SubstNodesBelow(t, rank, k', f.nodes, am, r);
  }

  // ---------------------------------------------------------------- a rank bounds the nesting of calls

  lemma {:induction false} RankedIsFormed(t: Dispatch, rank: Rank, k: Context, nodes: seq<Node>, r: nat)
    requires SoundNodes(t, k, nodes) && RankedNodes(t, rank, k, nodes) && NodesBelow(t, rank, k, nodes, r)
    ensures CallsFormed(t, r, k, nodes)
    decreases r, nodes, 0
  {
    forall i | 0 <= i < |nodes| ensures NodeCallsFormed(t, r, k, nodes[i]) {
      NodeIsBelow(t, rank, k, nodes, i, r);
      RankedNodeIsFormed(t, rank, k, nodes[i], r);
    }
  }

  lemma {:induction false} NodeIsBelow(t: Dispatch, rank: Rank, k: Context, nodes: seq<Node>, i: nat, r: nat)
    requires NodesBelow(t, rank, k, nodes, r) && i < |nodes|
    ensures NodeBelow(t, rank, k, nodes[i], r)
    decreases i
  {
    if i > 0 {
      NodeIsBelow(t, rank, k, nodes[1..], i - 1, r);
    }
  }

  lemma {:induction false} RankedNodeIsFormed(t: Dispatch, rank: Rank, k: Context, node: Node, r: nat)
    requires SoundNode(t, k, node) && RankedNode(t, rank, k, node) && NodeBelow(t, rank, k, node, r)
    ensures NodeCallsFormed(t, r, k, node)
    decreases r, node, 1
  {
    forall i | 0 <= i < |node.attrs| && node.attrs[i].value.Subgraph?
      ensures CallsFormed(t, r, k, node.attrs[i].value.graph.nodes)
    {
      AttrBelow(t, rank, k, node.attrs, i, r);
      RankedIsFormed(t, rank, k, node.attrs[i].value.graph.nodes, r);
    }
    var target := t.resolve(k, node.domain, node.opType);
    if target.Call? {
      var f := target.f;
      var k', body := BodyContext(k, f, target.fromSchema), SubstNodes(f.nodes, CallAttrs(f, node.attrs));
      assert RankedCall(t, rank, k, node, f, target.fromSchema) && SoundCall(t, k, node, f, target.fromSchema);
      InstanceBelow(t, rank, k, node, f, target.fromSchema);
      NodesHigher(t, rank, k', body, rank(k', f), r - 1);
      RankedIsFormed(t, rank, k', body, r - 1);
    }
  }

  /** One more than the highest rank called. */
  function BoundOfNodes(t: Dispatch, rank: Rank, k: Context, nodes: seq<Node>): (r: nat)
    ensures NodesBelow(t, rank, k, nodes, r)
    decreases nodes
  {
    if nodes == [] then 0
    else
      var a, b := BoundOfNode(t, rank, k, nodes[0]), BoundOfNodes(t, rank, k, nodes[1..]);
      var r := if a < b then b else a;
      NodeHigher(t, rank, k, nodes[0], a, r);
      NodesHigher(t, rank, k, nodes[1..], b, r);
      r
  }

  lemma {:induction false} NodeHigher(t: Dispatch, rank: Rank, k: Context, node: Node, r: nat, s: nat)
    requires NodeBelow(t, rank, k, node, r) && r <= s
    ensures NodeBelow(t, rank, k, node, s)
  {
    AttrsHigher(t, rank, k, node.attrs, r, s);
  }

  function BoundOfNode(t: Dispatch, rank: Rank, k: Context, node: Node): (r: nat)
    ensures NodeBelow(t, rank, k, node, r)
    decreases node
  {
    var target := t.resolve(k, node.domain, node.opType);
    var a := if target.Call? then rank(BodyContext(k, target.f, target.fromSchema), target.f) + 1 else 0;
    var b := BoundOfAttrs(t, rank, k, node.attrs);
    var r := if a < b then b else a;
    AttrsHigher(t, rank, k, node.attrs, b, r);
    r
  }

  function BoundOfAttrs(t: Dispatch, rank: Rank, k: Context, attrs: seq<Attr>): (r: nat)
    ensures AttrsBelow(t, rank, k, attrs, r)
    decreases attrs
  {
    if attrs == [] then 0
    else
      var a := if attrs[0].value.Subgraph? then BoundOfNodes(t, rank, k, attrs[0].value.graph.nodes) else 0;
      var b := BoundOfAttrs(t, rank, k, attrs[1..]);
      var r := if a < b then b else a;
      ValueHigher(t, rank, k, attrs[0].value, a, r);
      AttrsHigher(t, rank, k, attrs[1..], b, r);
      r
  }

  lemma {:induction false} ValueHigher(t: Dispatch, rank: Rank, k: Context, v: AttrValue, r: nat, s: nat)
    requires ValueBelow(t, rank, k, v, r) && r <= s
    ensures ValueBelow(t, rank, k, v, s)
  {
    if v.Subgraph? {
      NodesHigher(t, rank, k, v.graph.nodes, r, s);
    }
  }

  /** With acyclic calls, a graph that is sound however deep the calls go is well formed up to some nesting. */
  lemma AcyclicIsFormed(t: Dispatch, k: Context, g: Graph, visible: set<Name>) returns (d: nat)
    requires SoundGraph(t, k, g, visible) && Acyclic(t, k, g.nodes)
    ensures WellFormedGraph(t, d, k, g, visible)
  {
    var rank: Rank :| RankedNodes(t, rank, k, g.nodes);
    d := BoundOfNodes(t, rank, k, g.nodes);
    RankedIsFormed(t, rank, k, g.nodes, d);
    GraphFormedIff(t, d, k, g, visible);
  }

  // ---------------------------------------------------------------- a higher bound changes nothing

  lemma {:induction false} CallsDeeper(t: Dispatch, d: nat, k: Context, nodes: seq<Node>)
    requires CallsFormed(t, d, k, nodes)
    ensures CallsFormed(t, d + 1, k, nodes)
    decreases d, nodes, 0
  {
    forall i | 0 <= i < |nodes| ensures NodeCallsFormed(t, d + 1, k, nodes[i]) {
      NodeCallsDeeper(t, d, k, nodes[i]);
    }
  }

  lemma {:induction false} NodeCallsDeeper(t: Dispatch, d: nat, k: Context, node: Node)
    requires NodeCallsFormed(t, d, k, node)
    ensures NodeCallsFormed(t, d + 1, k, node)
    decreases d, node, 1
  {
    forall i | 0 <= i < |node.attrs| && node.attrs[i].value.Subgraph?
      ensures CallsFormed(t, d + 1, k, node.attrs[i].value.graph.nodes)
    {
      CallsDeeper(t, d, k, node.attrs[i].value.graph.nodes);
    }
    var target := t.resolve(k, node.domain, node.opType);
    if target.Call? {
      CallFormedDeeper(t, d, k, node, target.f, target.fromSchema);
    }
  }

  lemma {:induction false} CallFormedDeeper(t: Dispatch, d: nat, k: Context, node: Node, f: Function, fromSchema: bool)
    requires WellFormedCall(t, d, k, node, f, fromSchema)
    ensures WellFormedCall(t, d + 1, k, node, f, fromSchema)
    decreases d, node, 0
  {
    CallsDeeper(t, d - 1, BodyContext(k, f, fromSchema), SubstNodes(f.nodes, CallAttrs(f, node.attrs)));
  }

  lemma GraphFormedDeeper(t: Dispatch, d: nat, k: Context, g: Graph, visible: set<Name>)
    requires RefFreeNodes(g.nodes) && WellFormedGraph(t, d, k, g, visible)
    ensures WellFormedGraph(t, d + 1, k, g, visible)
  {
    GraphFormedIff(t, d, k, g, visible);
    CallsDeeper(t, d, k, g.nodes);
    GraphFormedIff(t, d + 1, k, g, visible);
  }
}
