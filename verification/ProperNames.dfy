/**
 * Code whose names are in order: every name that is read is visible, and no name is bound that is visible already. What
 * this takes for the body of a function when graphs are put into it is said of the body and the graphs separately.
 */
module ProperNames {
  import opened OnnxModel
  import opened AttributeReferences
  import opened GraphSemantics
  import opened FreeNames
  import opened SubstitutionMeaning

  /** The non-empty names are distinct and not yet visible. */
  predicate AreNew(names: seq<Name>, visible: set<Name>) {
    forall i :: 0 <= i < |names| && names[i] != "" ==>
      names[i] !in visible && forall j :: 0 <= j < i ==> names[j] != names[i]
  }

  /** Names visible inside a graph before its nodes. */
  function GraphNames(g: Graph, visible: set<Name>): set<Name> {
    var initializers := InitializerNames(g);
    visible + NameSet(initializers) + NameSet(ParameterNames(g.inputs, initializers))
  }

  predicate HeaderIsNew(g: Graph, visible: set<Name>) {
    var initializers := InitializerNames(g);
    var parameters := ParameterNames(g.inputs, initializers);
    && "" !in initializers && AreNew(initializers, visible)
    && "" !in parameters && AreNew(parameters, visible + NameSet(initializers))
  }

  predicate ProperNodes(nodes: seq<Node>, visible: set<Name>)
    decreases nodes, 0
  {
    nodes == [] ||
    (ProperNode(nodes[0], visible) && ProperNodes(nodes[1..], visible + NameSet(nodes[0].outputs)))
  }

  /** Inputs are visible, outputs are new, nested graphs are proper. */
  predicate ProperNode(node: Node, visible: set<Name>)
    decreases node, 1
  {
    && (forall x :: x in node.inputs && x != "" ==> x in visible)
    && AreNew(node.outputs, visible)
    && ProperAttrs(node.attrs, visible)
  }

  predicate ProperAttrs(attrs: seq<Attr>, visible: set<Name>)
    decreases attrs, 0
  {
    forall i :: 0 <= i < |attrs| && attrs[i].refName == "" && attrs[i].value.Subgraph? ==>
      ProperGraph(attrs[i].value.graph, visible)
  }

  predicate ProperGraph(g: Graph, visible: set<Name>)
    decreases g, 0
  {
    && HeaderIsNew(g, visible)
    && ProperNodes(g.nodes, GraphNames(g, visible))
    && forall x :: x in g.outputs ==> x in GraphNames(g, visible) + Defined(g.nodes)
  }

  // ---------------------------------------------------------------- names that do not matter

  lemma {:induction false} ProperAvoids(nodes: seq<Node>, visible: set<Name>, names: set<Name>)
    requires ProperNodes(nodes, visible) && names <= visible
    ensures NodesAvoid(nodes, names)
    decreases nodes, 0
  {
    if nodes != [] {
      NameSetMembers(nodes[0].outputs);
      ProperAttrsAvoid(nodes[0].attrs, visible, names);
      ProperAvoids(nodes[1..], visible + NameSet(nodes[0].outputs), names);
      assert forall i :: 1 <= i < |nodes| ==> nodes[i] == nodes[1..][i - 1];
    }
  }

  lemma {:induction false} ProperAttrsAvoid(attrs: seq<Attr>, visible: set<Name>, names: set<Name>)
    requires ProperAttrs(attrs, visible) && names <= visible
    ensures AttrsAvoid(attrs, names)
    decreases attrs, 0
  {
    forall i | 0 <= i < |attrs| && attrs[i].refName == "" && attrs[i].value.Subgraph?
      ensures GraphAvoids(attrs[i].value.graph, names)
    {
      ProperGraphAvoids(attrs[i].value.graph, visible, names);
    }
  }

  /** Proper code binds none of the names that are visible around it. */
  lemma {:induction false} ProperGraphAvoids(g: Graph, visible: set<Name>, names: set<Name>)
    requires ProperGraph(g, visible) && names <= visible
    ensures GraphAvoids(g, names)
    decreases g, 0
  {
    NameSetMembers(InitializerNames(g));
    NameSetMembers(ParameterNames(g.inputs, InitializerNames(g)));
    ProperAvoids(g.nodes, GraphNames(g, visible), names);
  }

  lemma {:induction false} ProperShrinks(nodes: seq<Node>, fewer: set<Name>, more: set<Name>)
    requires ProperNodes(nodes, more) && FreeInNodes(nodes) <= fewer <= more
    ensures ProperNodes(nodes, fewer)
    decreases nodes, 0
  {
    if nodes != [] {
      NameSetMembers(nodes[0].inputs);
      ProperAttrsShrink(nodes[0].attrs, fewer, more);
      var outs := NameSet(nodes[0].outputs);
      ProperShrinks(nodes[1..], fewer + outs, more + outs);
    }
  }

  lemma {:induction false} ProperAttrsShrink(attrs: seq<Attr>, fewer: set<Name>, more: set<Name>)
    requires ProperAttrs(attrs, more) && FreeInAttrs(attrs) <= fewer <= more
    ensures ProperAttrs(attrs, fewer)
    decreases attrs, 0
  {
    forall i | 0 <= i < |attrs| && attrs[i].refName == "" && attrs[i].value.Subgraph?
      ensures ProperGraph(attrs[i].value.graph, fewer)
    {
      AttrIsFree(attrs, i);
      ProperGraphShrinks(attrs[i].value.graph, fewer, more);
    }
  }

  /** A graph that is proper among some names is so among those of them that it captures. */
  lemma {:induction false} ProperGraphShrinks(g: Graph, fewer: set<Name>, more: set<Name>)
    requires ProperGraph(g, more) && FreeInGraph(g) <= fewer <= more
    ensures ProperGraph(g, fewer)
    decreases g, 0
  {
    ProperShrinks(g.nodes, GraphNames(g, fewer), GraphNames(g, more));
  }

  lemma AreNewAmongMore(names: seq<Name>, fewer: set<Name>, more: set<Name>, avoided: set<Name>)
    requires AreNew(names, fewer) && NameSet(names) !! avoided && more <= fewer + avoided
    ensures AreNew(names, more)
  {
    NameSetMembers(names);
    forall i | 0 <= i < |names| && names[i] != "" ensures names[i] !in more {
      assert names[i] in NameSet(names);
    }
  }

  lemma {:induction false} ProperGrows(nodes: seq<Node>, fewer: set<Name>, more: set<Name>, avoided: set<Name>)
    requires ProperNodes(nodes, fewer) && NodesAvoid(nodes, avoided) && fewer <= more <= fewer + avoided
    ensures ProperNodes(nodes, more)
    decreases nodes, 0
  {
    if nodes != [] {
      assert NodeAvoids(nodes[0], avoided);
      AreNewAmongMore(nodes[0].outputs, fewer, more, avoided);
      ProperAttrsGrow(nodes[0].attrs, fewer, more, avoided);
      assert forall i :: 0 <= i < |nodes[1..]| ==> nodes[1..][i] == nodes[i + 1];
      var outs := NameSet(nodes[0].outputs);
      ProperGrows(nodes[1..], fewer + outs, more + outs, avoided);
    }
  }

  lemma {:induction false} ProperAttrsGrow(attrs: seq<Attr>, fewer: set<Name>, more: set<Name>, avoided: set<Name>)
    requires ProperAttrs(attrs, fewer) && AttrsAvoid(attrs, avoided) && fewer <= more <= fewer + avoided
    ensures ProperAttrs(attrs, more)
    decreases attrs, 0
  {
    forall i | 0 <= i < |attrs| && attrs[i].refName == "" && attrs[i].value.Subgraph?
      ensures ProperGraph(attrs[i].value.graph, more)
    {
      ProperGraphGrows(attrs[i].value.graph, fewer, more, avoided);
    }
  }

  /** A graph that is proper among some names is so among more that it does not bind. */
  lemma {:induction false} ProperGraphGrows(g: Graph, fewer: set<Name>, more: set<Name>, avoided: set<Name>)
    requires ProperGraph(g, fewer) && GraphAvoids(g, avoided) && fewer <= more <= fewer + avoided
    ensures ProperGraph(g, more)
    decreases g, 0
  {
    var initializers := InitializerNames(g);
    AreNewAmongMore(initializers, fewer, more, avoided);
    AreNewAmongMore(ParameterNames(g.inputs, initializers), fewer + NameSet(initializers), more
      + NameSet(initializers), avoided);
    ProperGrows(g.nodes, GraphNames(g, fewer), GraphNames(g, more), avoided);
  }

  // ---------------------------------------------------------------- graphs put into a body

  predicate NodesFit(nodes: seq<Node>, am: AttrMap, visible: set<Name>)
    decreases nodes, 0
  {
    nodes == [] || (AttrsFit(nodes[0].attrs, am, visible) &&
      NodesFit(nodes[1..], am, visible + NameSet(nodes[0].outputs)))
  }

  /** Wherever an attribute refers to a graph, the graph binds none of the names that are visible there. */
  predicate AttrsFit(attrs: seq<Attr>, am: AttrMap, visible: set<Name>)
    decreases attrs, 1
  {
    forall i :: 0 <= i < |attrs| ==> AttrFits(attrs[i], am, visible)
  }

  predicate AttrFits(a: Attr, am: AttrMap, visible: set<Name>)
    decreases a, 0
  {
    if a.refName == "" then a.value.Subgraph? ==> NodesFit(a.value.graph.nodes, am, GraphNames(a.value.graph, visible))
    else a.refName in am && am[a.refName].Subgraph? ==> GraphAvoids(am[a.refName].graph, visible)
  }

  /** The graphs that are referred to are proper among the names they capture, and capture only names in the set. */
  ghost predicate ProperValues(am: AttrMap, refs: set<Name>, names: set<Name>) {
    forall r :: r in refs && r in am && am[r].Subgraph? ==>
      FreeInGraph(am[r].graph) <= names && ProperGraph(am[r].graph, FreeInGraph(am[r].graph))
  }

  /** A proper body stays proper when proper graphs that fit are put into it. */
  lemma {:induction false} InstanceIsProper(nodes: seq<Node>, am: AttrMap, visible: set<Name>, names: set<Name>)
    requires ProperNodes(nodes, visible) && NodesFit(nodes, am, visible)
    requires ProperValues(am, RefsInNodes(nodes), names) && names <= visible
    ensures ProperNodes(SubstNodes(nodes, am), visible)
    decreases nodes, 0
  {
    if nodes != [] {
      AttrsStayProper(nodes[0].attrs, am, visible, names);
      InstanceIsProper(nodes[1..], am, visible + NameSet(nodes[0].outputs), names);
      var s := SubstNodes(nodes, am);
      assert s[0] == SubstNode(nodes[0], am) && s[1..] == SubstNodes(nodes[1..], am);
    }
  }

  lemma {:induction false} AttrsStayProper(attrs: seq<Attr>, am: AttrMap, visible: set<Name>, names: set<Name>)
    requires ProperAttrs(attrs, visible) && AttrsFit(attrs, am, visible)
    requires ProperValues(am, RefsInAttrs(attrs), names) && names <= visible
    ensures ProperAttrs(SubstAttrs(attrs, am), visible)
    decreases attrs, 0
  {
    if attrs != [] {
      var a, rest := attrs[0], attrs[1..];
      assert forall i :: 0 <= i < |rest| ==> rest[i] == attrs[i + 1];
      AttrsStayProper(rest, am, visible, names);
      assert AttrFits(a, am, visible);
      if a.refName != "" && a.refName in am && am[a.refName].Subgraph? {
        var g := am[a.refName].graph;
        ProperGraphGrows(g, FreeInGraph(g), visible, visible);
      } else if a.refName == "" && a.value.Subgraph? {
        var g := a.value.graph;
        InstanceIsProper(g.nodes, am, GraphNames(g, visible), names);
        SubstGraphNames(g, am, visible);
      }
    }
  }

  lemma SubstGraphNames(g: Graph, am: AttrMap, visible: set<Name>)
    requires ProperGraph(g, visible) && ProperNodes(SubstNodes(g.nodes, am), GraphNames(g, visible))
    ensures ProperGraph(g.(nodes := SubstNodes(g.nodes, am)), visible)
  {
    var g' := g.(nodes := SubstNodes(g.nodes, am));
    assert InitializerNames(g') == InitializerNames(g);
    SubstKeepsDefined(g.nodes, am);
  }

  lemma {:induction false} SubstKeepsDefined(nodes: seq<Node>, am: AttrMap)
    ensures Defined(SubstNodes(nodes, am)) == Defined(nodes)
    decreases |nodes|
  {
    if nodes != [] {
      SubstKeepsDefined(nodes[1..], am);
      var s := SubstNodes(nodes, am);
      assert s[0] == SubstNode(nodes[0], am) && s[1..] == SubstNodes(nodes[1..], am);
    }
  }
}
