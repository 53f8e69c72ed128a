/**
 * When inlining keeps the names of passed graphs: both those that a graph captures from the caller and those that it
 * binds itself. The conditions can be read off the call and the function.
 */
module PassedNames {
  import opened Wrappers
  import opened OnnxModel
  import opened AttributeReferences
  import opened GraphSemantics
  import opened FreeNames
  import opened SubstitutionMeaning
  import opened ProperNames
  import opened CallHygiene
  import opened SsaProgram
  import opened SymbolTable
  import opened GraphImport
  import opened ImportSuccess
  import opened CapturedNames
  import opened ShadowedNames

  // ---------------------------------------------------------------- places of a body

  function NodeAt(nodes: seq<Node>, place: Place): Node
    requires IsPlace(nodes, place)
    decreases place
  {
    if place.Before? then nodes[place.node] else NodeAt(GraphAt(nodes, place).nodes, place.inner)
  }

  /**
   * The names visible at the place: those from outside, the outputs of earlier nodes, the heads of enclosing graphs.
   */
  function VisibleAt(nodes: seq<Node>, place: Place, visible: set<Name>): set<Name>
    requires IsPlace(nodes, place)
    decreases place
  {
    var before := visible + Defined(nodes[..place.node]);
    if place.Before? then before
    else VisibleAt(GraphAt(nodes, place).nodes, place.inner, GraphNames(GraphAt(nodes, place), before))
  }

  /** The attribute of the node at the place refers to a graph. */
  predicate RefersToGraph(nodes: seq<Node>, am: AttrMap, place: Place, j: nat) {
    && IsPlace(nodes, place) && j < |NodeAt(nodes, place).attrs|
    && var r := NodeAt(nodes, place).attrs[j].refName;
       r != "" && r in am && am[r].Subgraph?
  }

  function ReferredGraph(nodes: seq<Node>, am: AttrMap, place: Place, j: nat): Graph
    requires RefersToGraph(nodes, am, place, j)
  {
    am[NodeAt(nodes, place).attrs[j].refName].graph
  }

  ghost predicate FitsEverywhere(nodes: seq<Node>, am: AttrMap, visible: set<Name>) {
    forall place, j :: RefersToGraph(nodes, am, place, j) ==>
      GraphAvoids(ReferredGraph(nodes, am, place, j), VisibleAt(nodes, place, visible))
  }

  lemma {:induction false} FitsAtNode(nodes: seq<Node>, am: AttrMap, visible: set<Name>, i: nat)
    requires NodesFit(nodes, am, visible) && i < |nodes|
    ensures AttrsFit(nodes[i].attrs, am, visible + Defined(nodes[..i]))
    decreases i
  {
    if i > 0 {
      var outs := NameSet(nodes[0].outputs);
      FitsAtNode(nodes[1..], am, visible + outs, i - 1);
      assert nodes[..i][1..] == nodes[1..][..i - 1];
      assert visible + outs + Defined(nodes[1..][..i - 1]) == visible + Defined(nodes[..i]);
    } else {
      assert nodes[..0] == [] && visible + {} == visible;
    }
  }

  lemma {:induction false} FitsAtPlace(nodes: seq<Node>, am: AttrMap, visible: set<Name>, place: Place, j: nat)
    requires NodesFit(nodes, am, visible) && RefersToGraph(nodes, am, place, j)
    ensures GraphAvoids(ReferredGraph(nodes, am, place, j), VisibleAt(nodes, place, visible))
    decreases place
  {
    FitsAtNode(nodes, am, visible, place.node);
    var before := visible + Defined(nodes[..place.node]);
    if place.Before? {
      assert AttrFits(nodes[place.node].attrs[j], am, before);
    } else {
      assert AttrFits(nodes[place.node].attrs[place.attr], am, before);
      FitsAtPlace(GraphAt(nodes, place).nodes, am, GraphNames(GraphAt(nodes, place), before), place.inner, j);
    }
  }

  function Later(place: Place): Place { place.(node := place.node + 1) }

  lemma LaterIsPlace(nodes: seq<Node>, place: Place, visible: set<Name>)
    requires nodes != [] && IsPlace(nodes[1..], place)
    ensures IsPlace(nodes, Later(place)) && NodeAt(nodes, Later(place)) == NodeAt(nodes[1..], place)
    ensures VisibleAt(nodes, Later(place), visible) == VisibleAt(nodes[1..], place, visible + NameSet(nodes[0].outputs))
  {
    var front := nodes[..place.node + 1];
    assert front[0] == nodes[0] && front[1..] == nodes[1..][..place.node];
    assert visible + NameSet(nodes[0].outputs) + Defined(front[1..]) == visible + Defined(front);
  }

  lemma WithinIsPlace(nodes: seq<Node>, i: nat, j: nat, place: Place, visible: set<Name>)
    requires i < |nodes| && j < |nodes[i].attrs| && nodes[i].attrs[j].refName == "" && nodes[i].attrs[j].value.Subgraph?
    requires IsPlace(nodes[i].attrs[j].value.graph.nodes, place)
    ensures var g := nodes[i].attrs[j].value.graph;
      && IsPlace(nodes, Within(i, j, place)) && NodeAt(nodes, Within(i, j, place)) == NodeAt(g.nodes, place)
      && VisibleAt(nodes, Within(i, j, place), visible)
        == VisibleAt(g.nodes, place, GraphNames(g, visible + Defined(nodes[..i])))
  {
  }

  lemma {:induction false} EverywhereIsFit(nodes: seq<Node>, am: AttrMap, visible: set<Name>)
    requires FitsEverywhere(nodes, am, visible)
    ensures NodesFit(nodes, am, visible)
    decreases nodes
  {
    if nodes != [] {
      var rest, outs := nodes[1..], NameSet(nodes[0].outputs);
      forall place, j | RefersToGraph(rest, am, place, j)
        ensures GraphAvoids(ReferredGraph(rest, am, place, j), VisibleAt(rest, place, visible + outs))
      {
        LaterIsPlace(nodes, place, visible);
        assert RefersToGraph(nodes, am, Later(place), j);
      }
      EverywhereIsFit(rest, am, visible + outs);
      assert nodes[..0] == [] && visible + {} == visible;
      forall j | 0 <= j < |nodes[0].attrs| ensures AttrFits(nodes[0].attrs[j], am, visible) {
        FirstAttrFits(nodes, am, visible, j);
      }
    }
  }

  lemma {:induction false} FirstAttrFits(nodes: seq<Node>, am: AttrMap, visible: set<Name>, j: nat)
    requires nodes != [] && j < |nodes[0].attrs| && FitsEverywhere(nodes, am, visible)
    ensures AttrFits(nodes[0].attrs[j], am, visible)
    decreases nodes[0].attrs[j]
  {
    var a := nodes[0].attrs[j];
    assert nodes[..0] == [] && visible + {} == visible;
    if a.refName != "" {
      if a.refName in am && am[a.refName].Subgraph? {
        assert RefersToGraph(nodes, am, Before(0), j) && VisibleAt(nodes, Before(0), visible) == visible;
      }
    } else if a.value.Subgraph? {
      var g := a.value.graph;
      forall place, i | RefersToGraph(g.nodes, am, place, i)
        ensures GraphAvoids(ReferredGraph(g.nodes, am, place, i), VisibleAt(g.nodes, place, GraphNames(g, visible)))
      {
        WithinIsPlace(nodes, 0, j, place, visible);
        assert RefersToGraph(nodes, am, Within(0, j, place), i);
      }
      EverywhereIsFit(g.nodes, am, GraphNames(g, visible));
    }
  }

  /** Graphs fit into the body exactly if, at every reference to one, it binds none of the names visible there. */
  lemma FitIff(nodes: seq<Node>, am: AttrMap, visible: set<Name>)
    ensures NodesFit(nodes, am, visible) <==> FitsEverywhere(nodes, am, visible)
  {
    if NodesFit(nodes, am, visible) {
      forall place, j | RefersToGraph(nodes, am, place, j)
        ensures GraphAvoids(ReferredGraph(nodes, am, place, j), VisibleAt(nodes, place, visible))
      {
        FitsAtPlace(nodes, am, visible, place, j);
      }
    }
    if FitsEverywhere(nodes, am, visible) {
      EverywhereIsFit(nodes, am, visible);
    }
  }

  lemma {:induction false} VisibleGrows(nodes: seq<Node>, place: Place, visible: set<Name>)
    requires IsPlace(nodes, place)
    ensures visible <= VisibleAt(nodes, place, visible)
    decreases place
  {
    if place.Within? {
      var g := GraphAt(nodes, place);
      VisibleGrows(g.nodes, place.inner, GraphNames(g, visible + Defined(nodes[..place.node])));
    }
  }

  // ---------------------------------------------------------------- the importer at a place

  /**
   * `there` and `first` are the importer's table and next value when it comes to an attribute of the node at the place,
   * in the body with the attribute values put in.
   */
  ghost predicate ComesTo(t: Dispatch, d: nat, k: Context, scopes: Scopes, next: Id, nodes: seq<Node>, am: AttrMap,
                          place: Place, j: nat,
                          there: Scopes, first: Id)
    requires IsPlace(nodes, place)
    decreases place
  {
    var node := nodes[place.node];
    var e := ImportNodes(t, d, k, scopes, next, SubstNodes(nodes[..place.node], am));
    && e.Some?
    && match place
       case Before(_) =>
         && j <= |node.attrs| && there == e.value.result
         && BodyStart(t, d, k, there, e.value.next, node, SubstAttrs(node.attrs[..j], am)) == Some(first)
       case Within(_, attr, inner) =>
         var start := BodyStart(t, d, k, e.value.result, e.value.next, node, SubstAttrs(node.attrs[..attr], am));
         && start.Some?
         && var g := GraphAt(nodes, place);
         && var inside := EnterGraph(e.value.result, start.value, g);
         && inside.Some?
         && ComesTo(t, d, k, inside.value, FirstInside(start.value, g), g.nodes, am, inner, j, there, first)
  }

  /** In every run, the importer's table at a place has only names that are visible there. */
  lemma {:induction false} OnlyVisibleThere(t: Dispatch, d: nat, k: Context, scopes: Scopes, next: Id,
                                            nodes: seq<Node>, am: AttrMap,
                                            place: Place, j: nat, there: Scopes, first: Id, visible: set<Name>)
    requires scopes != [] && Bindings(scopes).Keys <= visible + {""}
    requires IsPlace(nodes, place) && ComesTo(t, d, k, scopes, next, nodes, am, place, j, there, first)
    ensures Bindings(there).Keys <= VisibleAt(nodes, place, visible) + {""}
    decreases place
  {
    var front := nodes[..place.node];
    NodesBind(t, d, k, scopes, next, SubstNodes(front, am), visible);
    SubstKeepsDefined(front, am);
    if place.Within? {
      var node, g := nodes[place.node], GraphAt(nodes, place);
      var e := ImportNodes(t, d, k, scopes, next, SubstNodes(front, am)).value;
      var start := BodyStart(t, d, k, e.result, e.next, node, SubstAttrs(node.attrs[..place.attr], am)).value;
      var inside := EnterGraph(e.result, start, g).value;
      EnterBinds(e.result, start, g, visible + Defined(front), inside);
      OnlyVisibleThere(t, d, k, inside, FirstInside(start, g), g.nodes, am, place.inner, j, there, first,
                       GraphNames(g, visible + Defined(front)));
    }
  }

  // ---------------------------------------------------------------- every place can be reached

  lemma {:induction false} ProperPrefix(nodes: seq<Node>, visible: set<Name>, n: nat)
    requires ProperNodes(nodes, visible) && n <= |nodes|
    ensures ProperNodes(nodes[..n], visible) && RefsInNodes(nodes[..n]) <= RefsInNodes(nodes)
    decreases n
  {
    if n > 0 {
      ProperPrefix(nodes[1..], visible + NameSet(nodes[0].outputs), n - 1);
      assert nodes[..n][0] == nodes[0] && nodes[..n][1..] == nodes[1..][..n - 1];
    }
  }

  lemma FewerValues(am: AttrMap, refs: set<Name>, names: set<Name>, refs': set<Name>, names': set<Name>)
    requires ProperValues(am, refs, names) && refs' <= refs && names <= names'
    ensures ProperValues(am, refs', names')
  {
  }

  /** Without functions, the importer comes to a node and to each of its attributes. */
  lemma ReachAttr(d: nat, k: Context, scopes: Scopes, next: Id, nodes: seq<Node>, am: AttrMap, own: set<Name>,
                  visible: set<Name>,
                  i: nat, j: nat) returns (e: Emitted<Scopes>, start: Id)
    requires IsTable(scopes, next, own, visible) && ProperNodes(nodes, visible) && own <= visible
    requires ProperValues(am, RefsInNodes(nodes), visible) && RefFreeMap(am) && i < |nodes| && j <= |nodes[i].attrs|
    ensures ImportNodes(NoFunctions(), d, k, scopes, next, SubstNodes(nodes[..i], am)) == Some(e)
    ensures BodyStart(NoFunctions(), d, k, e.result, e.next, nodes[i], SubstAttrs(nodes[i].attrs[..j], am))
         == Some(start)
    ensures IsTable(e.result, start, own + Defined(nodes[..i]), visible + Defined(nodes[..i]))
    ensures ProperNode(nodes[i], visible + Defined(nodes[..i])) && RefsInAttrs(nodes[i].attrs) <= RefsInNodes(nodes)
  {
    var front, names := nodes[..i], visible + Defined(nodes[..i]);
    ProperPrefix(nodes, visible, i);
    ProperAt(nodes, visible, i);
    NodeRefs(nodes, i);
    SubstKeepsDefined(front, am);
    FewerValues(am, RefsInNodes(nodes), visible, RefsInNodes(front), visible);
    InstanceEnters(front, am, own, visible, visible);
    NodesImportTo(d, k, scopes, next, SubstNodes(front, am), own, visible);
    e := ImportNodes(NoFunctions(), d, k, scopes, next, SubstNodes(front, am)).value;
    RefsInPrefix(nodes[i].attrs, j);
    FewerValues(am, RefsInNodes(nodes), visible, RefsInAttrs(nodes[i].attrs[..j]), names);
    AttrsOfInstanceEnter(nodes[i].attrs[..j], am, names, names);
    start := ReachBody(d, k, e.result, e.next, nodes[i], own + Defined(front), names,
                       SubstAttrs(nodes[i].attrs[..j], am));
  }

  /** Without functions, the importer comes to every place, with exactly the names visible there. */
  lemma {:induction false} PlaceIsReachable(d: nat, k: Context, scopes: Scopes, next: Id, nodes: seq<Node>,
                                            am: AttrMap, own: set<Name>,
                                            visible: set<Name>, place: Place, j: nat) returns (there: Scopes, first: Id)
    requires IsTable(scopes, next, own, visible) && ProperNodes(nodes, visible) && own <= visible
    requires ProperValues(am, RefsInNodes(nodes), visible) && RefFreeMap(am)
    requires IsPlace(nodes, place) && j < |NodeAt(nodes, place).attrs|
    ensures ComesTo(NoFunctions(), d, k, scopes, next, nodes, am, place, j, there, first)
    ensures Bindings(there).Keys == VisibleAt(nodes, place, visible) && TableBelow(there, first)
    decreases place
  {
    var i := place.node;
    match place
    case Before(_) =>
      var e, start := ReachAttr(d, k, scopes, next, nodes, am, own, visible, i, j);
      there, first := e.result, start;
    case Within(_, attr, inner) =>
      var e, start := ReachAttr(d, k, scopes, next, nodes, am, own, visible, i, attr);
      var g, names := GraphAt(nodes, place), visible + Defined(nodes[..i]);
      assert ProperAttrs(nodes[i].attrs, names) && ProperGraph(nodes[i].attrs[attr].value.graph, names);
      EnterTo(e.result, start, g, names);
      AttrRefs(nodes[i].attrs, attr);
      FewerValues(am, RefsInNodes(nodes), visible, RefsInNodes(g.nodes), GraphNames(g, names));
      assert names + HeaderNames(g) == GraphNames(g, names);
      there, first := PlaceIsReachable(d, k, EnterGraph(e.result, start, g).value, FirstInside(start, g), g.nodes, am,
                                       HeaderNames(g),
                                       GraphNames(g, names), inner, j);
  }

  // ---------------------------------------------------------------- the names of a call

  /** In every run of the importer, a graph that is put at the place keeps the names that it binds. */
  ghost predicate KeepsOwnAt(node: Node, f: Function, place: Place, j: nat)
    requires RefersToGraph(f.nodes, CallAttrs(f, node.attrs), place, j)
  {
    forall t: Dispatch, d: nat, k: Context, args: seq<Id>, params: Scopes, next: Id, there: Scopes, first: Id ::
      (&& |args| == |f.inputs| && EnterCall(node, f, args) == Some(params)
       && ComesTo(t, d, k, params, next, f.nodes, CallAttrs(f, node.attrs), place, j, there, first)) ==>
      KeepsOwn(t, d, k, there, first, ReferredGraph(f.nodes, CallAttrs(f, node.attrs), place, j))
  }

  /** Wherever the body refers to a graph, the graph keeps the names that it binds. */
  ghost predicate OwnNamesKept(node: Node, f: Function) {
    forall place, j :: RefersToGraph(f.nodes, CallAttrs(f, node.attrs), place, j) ==> KeepsOwnAt(node, f, place, j)
  }

  lemma EnteredParameters(node: Node, f: Function, args: seq<Id>, params: Scopes)
    requires |args| == |f.inputs| && EnterCall(node, f, args) == Some(params)
    ensures params != [] && Bindings(params).Keys <= NameSet(f.inputs) + {""}
  {
    AddAllOnlyAdds(Push([], CallScopeName(node, f)), f.inputs, args);
    BindingsOfLast(params);
    assert params[..|params| - 1] == [];
    NameSetMembers(f.inputs);
  }

  lemma FittingKeepsOwn(node: Node, f: Function, place: Place, j: nat)
    requires ProperValues(CallAttrs(f, node.attrs), RefsInNodes(f.nodes), NameSet(f.inputs))
    requires NodesFit(f.nodes, CallAttrs(f, node.attrs), NameSet(f.inputs)) &&
      RefersToGraph(f.nodes, CallAttrs(f, node.attrs), place, j)
    ensures KeepsOwnAt(node, f, place, j)
  {
    var am, visible := CallAttrs(f, node.attrs), VisibleAt(f.nodes, place, NameSet(f.inputs));
    var g := ReferredGraph(f.nodes, am, place, j);
    ReferredIsListed(f.nodes, am, place, j);
    FitsAtPlace(f.nodes, am, NameSet(f.inputs), place, j);
    VisibleGrows(f.nodes, place, NameSet(f.inputs));
    ProperGraphGrows(g, FreeInGraph(g), visible, visible);
    forall t: Dispatch, d: nat, k: Context, args: seq<Id>, params: Scopes, next: Id, there: Scopes, first: Id
      | |args| == |f.inputs| && EnterCall(node, f, args) == Some(params) &&
        ComesTo(t, d, k, params, next, f.nodes, am, place, j, there, first)
      ensures KeepsOwn(t, d, k, there, first, g)
    {
      EnteredParameters(node, f, args, params);
      OnlyVisibleThere(t, d, k, params, next, f.nodes, am, place, j, there, first, NameSet(f.inputs));
      ProperKeepsOwn(t, d, k, there, first, g, visible);
    }
  }

  lemma ProperKeepsOwn(t: Dispatch, d: nat, k: Context, scopes: Scopes, next: Id, g: Graph, visible: set<Name>)
    requires ProperGraph(g, visible) && Bindings(scopes).Keys <= visible + {""}
    ensures KeepsOwn(t, d, k, scopes, next, g)
  {
    forall site: Site, there: Scopes, x: Name
      | && IsSite(g, site) && TableAt(t, d, k, scopes, next, g, site, there) && x in NameSet(BoundAt(g, site))
        && there != [] && x in there[|there| - 1].names
      ensures FindsOwn(there, x)
    {
      ProperFindsOwn(t, d, k, scopes, next, g, visible, site, there, x);
    }
  }

  lemma {:induction false} ReferredIsListed(nodes: seq<Node>, am: AttrMap, place: Place, j: nat)
    requires RefersToGraph(nodes, am, place, j)
    ensures NodeAt(nodes, place).attrs[j].refName in RefsInNodes(nodes)
    decreases place
  {
    NodeRefs(nodes, place.node);
    if place.Before? {
      AttrRefs(nodes[place.node].attrs, j);
    } else {
      AttrRefs(nodes[place.node].attrs, place.attr);
      ReferredIsListed(GraphAt(nodes, place).nodes, am, place.inner, j);
    }
  }

  lemma KeptOwnFits(node: Node, f: Function, place: Place, j: nat)
    requires "" !in f.inputs && AreNew(f.inputs, {}) && ProperNodes(f.nodes, NameSet(f.inputs))
    requires ProperValues(CallAttrs(f, node.attrs), RefsInNodes(f.nodes), NameSet(f.inputs)) &&
      RefFreeMap(CallAttrs(f, node.attrs))
    requires RefersToGraph(f.nodes, CallAttrs(f, node.attrs), place, j) && KeepsOwnAt(node, f, place, j)
    ensures GraphAvoids(ReferredGraph(f.nodes, CallAttrs(f, node.attrs), place, j),
                        VisibleAt(f.nodes, place, NameSet(f.inputs)))
  {
    var am, n, k := CallAttrs(f, node.attrs), |f.inputs|, Context(map[], map[]);
    var g := ReferredGraph(f.nodes, am, place, j);
    var pushed := Push([], CallScopeName(node, f));
    PushTable([], CallScopeName(node, f), n, {});
    AddAllTo(pushed, f.inputs, 0, n, {}, {});
    var params := AddAll(pushed, f.inputs, Consecutive(0, n)).value;
    assert {} + NameSet(f.inputs) == NameSet(f.inputs) && EnterCall(node, f, Consecutive(0, n)) == Some(params);
    var there, first := PlaceIsReachable(0, k, params, n, f.nodes, am, NameSet(f.inputs), NameSet(f.inputs), place, j);
    ReferredIsListed(f.nodes, am, place, j);
    VisibleGrows(f.nodes, place, NameSet(f.inputs));
    ProperEnters(g, FreeInGraph(g), Bindings(there).Keys);
    KeptIsUnseen(0, k, there, first, g);
  }

  /**
   * For every call of a proper function: wherever the body refers to a graph, each name that the graph binds, at any
   * depth, stands for what it is bound to, in all runs of the importer, exactly if no graph binds a name that is
   * visible where it is put.
   */
  lemma OwnNamesIff(node: Node, f: Function)
    requires "" !in f.inputs && AreNew(f.inputs, {}) && ProperNodes(f.nodes, NameSet(f.inputs))
    requires RefFreeAttrs(node.attrs) && RefFreeAttrs(f.defaults)
    requires ProperValues(CallAttrs(f, node.attrs), RefsInNodes(f.nodes), NameSet(f.inputs))
    ensures OwnNamesKept(node, f) <==> NodesFit(f.nodes, CallAttrs(f, node.attrs), NameSet(f.inputs))
  {
    var am := CallAttrs(f, node.attrs);
    CallAttrsRefFree(f, node.attrs);
    if NodesFit(f.nodes, am, NameSet(f.inputs)) {
      forall place, j | RefersToGraph(f.nodes, am, place, j) ensures KeepsOwnAt(node, f, place, j) {
        FittingKeepsOwn(node, f, place, j);
      }
    }
    if OwnNamesKept(node, f) {
      forall place, j | RefersToGraph(f.nodes, am, place, j)
        ensures GraphAvoids(ReferredGraph(f.nodes, am, place, j), VisibleAt(f.nodes, place, NameSet(f.inputs)))
      {
        KeptOwnFits(node, f, place, j);
      }
      FitIff(f.nodes, am, NameSet(f.inputs));
    }
  }

  // ---------------------------------------------------------------- both kinds of names

  lemma {:induction false} ProperIsClosed(nodes: seq<Node>, visible: set<Name>)
    requires ProperNodes(nodes, visible)
    ensures ClosedNodes(nodes, visible)
    decreases nodes, 0
  {
    if nodes != [] {
      ProperNodeIsClosed(nodes[0], visible);
      ProperIsClosed(nodes[1..], visible + NameSet(nodes[0].outputs));
    }
  }

  lemma {:induction false} ProperNodeIsClosed(node: Node, visible: set<Name>)
    requires ProperNode(node, visible)
    ensures ClosedNode(node, visible)
    decreases node, 1
  {
    NameSetMembers(node.inputs);
    forall i | 0 <= i < |node.attrs| && node.attrs[i].refName == "" && node.attrs[i].value.Subgraph?
      ensures ClosedNodes(node.attrs[i].value.graph.nodes, visible + HeaderNames(node.attrs[i].value.graph))
    {
      var g := node.attrs[i].value.graph;
      assert ProperGraph(node.attrs[i].value.graph, visible);
      ProperIsClosed(g.nodes, GraphNames(g, visible));
      assert GraphNames(g, visible) == visible + HeaderNames(g);
    }
  }

  /** The graphs that the body refers to are proper by themselves, and the defaults among them capture nothing. */
  ghost predicate ProperGraphs(node: Node, f: Function) {
    var am := CallAttrs(f, node.attrs);
    forall r :: r in RefsInNodes(f.nodes) && r in am && am[r].Subgraph? ==>
      && ProperGraph(am[r].graph, FreeInGraph(am[r].graph)) && "" !in FreeInGraph(am[r].graph)
      && (r !in ByName(node.attrs) ==> FreeInGraph(am[r].graph) == {})
  }

  lemma PassedCapturesAreParameters(node: Node, f: Function)
    requires ProperGraphs(node, f) && CapturesPassed(node, f)
    ensures ProperValues(CallAttrs(f, node.attrs), RefsInNodes(f.nodes), NameSet(f.inputs))
  {
    var am := CallAttrs(f, node.attrs);
    NameSetMembers(f.inputs);
    forall r, x | r in RefsInNodes(f.nodes) && r in am && am[r].Subgraph? && x in FreeInGraph(am[r].graph)
      ensures x in NameSet(f.inputs) {
      NotEmptyRef(f.nodes, r);
      assert x in CapturedIn(node, f, r);
      assert PassedAsItself(node, f, x);
    }
  }

  lemma {:induction false} NotEmptyRef(nodes: seq<Node>, r: Name)
    requires r in RefsInNodes(nodes)
    ensures r != ""
    decreases nodes
  {
    if r in RefsInAttrs(nodes[0].attrs) {
      NotEmptyRefInAttrs(nodes[0].attrs, r);
    } else {
      NotEmptyRef(nodes[1..], r);
    }
  }

  lemma {:induction false} NotEmptyRefInAttrs(attrs: seq<Attr>, r: Name)
    requires r in RefsInAttrs(attrs)
    ensures r != ""
    decreases attrs
  {
    var a := attrs[0];
    if a.refName == "" && a.value.Subgraph? && r in RefsInNodes(a.value.graph.nodes) {
      NotEmptyRef(a.value.graph.nodes, r);
    } else if a.refName == "" || r != a.refName {
      NotEmptyRefInAttrs(attrs[1..], r);
    }
  }

  /**
   * For every call of a proper function with proper graphs: the graphs keep the names they capture and the names they
   * bind, wherever the body puts them and for all operators, exactly if each captured name is passed to the parameter
   * of that name and no graph binds a name that is visible where it is put.
   */
  lemma CallNamesIff(node: Node, f: Function, v0: Value, v1: Value)
    requires ProperParameters(f) && |node.inputs| <= |f.inputs| && v0 != v1
    requires ProperNodes(f.nodes, NameSet(f.inputs)) && ProperGraphs(node, f)
    requires RefFreeAttrs(node.attrs) && RefFreeAttrs(f.defaults)
    ensures CapturesKept(node, f) && OwnNamesKept(node, f) <==>
            CapturesPassed(node, f) && NodesFit(f.nodes, CallAttrs(f, node.attrs), NameSet(f.inputs))
  {
    ProperIsClosed(f.nodes, NameSet(f.inputs));
    ProperAvoids(f.nodes, NameSet(f.inputs), NameSet(f.inputs));
    CallCapturesIff(node, f, v0, v1);
    if CapturesPassed(node, f) {
      PassedCapturesAreParameters(node, f);
      OwnNamesIff(node, f);
    }
  }
}
