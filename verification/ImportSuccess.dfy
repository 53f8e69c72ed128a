/**
 * Well-formed graphs (closed, single assignment, no shadowing; function bodies likewise) and the proof that
 * importing them never fails and keeps the scope discipline.
 */
module ImportSuccess {
  import opened Wrappers
  import opened OnnxModel
  import opened AttributeReferences
  import opened GraphSemantics
  import opened FreeNames
  import opened SubstitutionMeaning
  import opened ProperNames
  import opened CallHygiene
  import opened SsaProgram
  import opened SymbolTable
  import opened GraphImport

  predicate WellFormedNodes(t: Dispatch, d: nat, k: Context, nodes: seq<Node>, visible: set<Name>)
    decreases d, nodes, 0
  {
    nodes == [] ||
    (WellFormedNode(t, d, k, nodes[0], visible) &&
     WellFormedNodes(t, d, k, nodes[1..], visible + NameSet(nodes[0].outputs)))
  }

  /** Inputs are visible, outputs are new, nested graphs and called functions are well formed. */
  predicate WellFormedNode(t: Dispatch, d: nat, k: Context, node: Node, visible: set<Name>)
    decreases d, node, 1
  {
    && (forall x :: x in node.inputs && x != "" ==> x in visible)
    && AreNew(node.outputs, visible)
    && (forall i :: 0 <= i < |node.attrs| && node.attrs[i].value.Subgraph? ==>
          WellFormedGraph(t, d, k, node.attrs[i].value.graph, visible))
    && var target := t.resolve(k, node.domain, node.opType);
       target.Call? ==> WellFormedCall(t, d, k, node, target.f, target.fromSchema)
  }

  predicate WellFormedGraph(t: Dispatch, d: nat, k: Context, g: Graph, visible: set<Name>)
    decreases d, g, 0
  {
    && HeaderIsNew(g, visible)
    && WellFormedNodes(t, d, k, g.nodes, GraphNames(g, visible))
    && forall x :: x in g.outputs ==> x in GraphNames(g, visible) + Defined(g.nodes)
  }

  /**
   * The caller names every output of the function, the body is proper and binds every one of them, passed graphs fit
   * in, and the functions that the body calls in turn are called well.
   */
  predicate WellFormedCall(t: Dispatch, d: nat, k: Context, node: Node, f: Function, fromSchema: bool)
    decreases d, node, 0
  {
    && d > 0
    && CallFits(t, k, node, f, fromSchema)
    && CallsFormed(t, d - 1, BodyContext(k, f, fromSchema), SubstNodes(f.nodes, CallAttrs(f, node.attrs)))
  }

  /** What a call and its function owe each other; all of it can be read off the call and the function. */
  predicate CallFits(t: Dispatch, k: Context, node: Node, f: Function, fromSchema: bool) {
    && |node.inputs| <= |f.inputs| && |node.outputs| == |f.outputs|
    && "" !in node.outputs && "" !in f.inputs && AreNew(f.inputs, {})
    && RefFreeAttrs(node.attrs) && RefFreeAttrs(f.defaults)
    && ProperNodes(f.nodes, NameSet(f.inputs)) && Hygienic(t, k, node, f, fromSchema)
    && forall x :: x in f.outputs ==> x in NameSet(f.inputs) + Defined(f.nodes)
  }

  predicate CallsFormed(t: Dispatch, d: nat, k: Context, nodes: seq<Node>)
    decreases d, nodes, 0
  {
    forall i :: 0 <= i < |nodes| ==> NodeCallsFormed(t, d, k, nodes[i])
  }

  /** Every call, at any depth of nested graphs, is well formed. */
  predicate NodeCallsFormed(t: Dispatch, d: nat, k: Context, node: Node)
    decreases d, node, 1
  {
    && (forall i :: 0 <= i < |node.attrs| && node.attrs[i].value.Subgraph? ==>
      CallsFormed(t, d, k, node.attrs[i].value.graph.nodes))
    && var target := t.resolve(k, node.domain, node.opType);
       target.Call? ==> WellFormedCall(t, d, k, node, target.f, target.fromSchema)
  }

  // ---------------------------------------------------------------- proper names and well-formed calls

  lemma {:induction false} FormedIff(t: Dispatch, d: nat, k: Context, nodes: seq<Node>, visible: set<Name>)
    requires RefFreeNodes(nodes)
    ensures WellFormedNodes(t, d, k, nodes, visible) <==> ProperNodes(nodes, visible) && CallsFormed(t, d, k, nodes)
    decreases nodes, 0
  {
    if nodes != [] {
      var rest := nodes[1..];
      assert forall i :: 0 <= i < |rest| ==> rest[i] == nodes[i + 1];
      assert forall i :: 1 <= i < |nodes| ==> nodes[i] == rest[i - 1];
      NodeFormedIff(t, d, k, nodes[0], visible);
      FormedIff(t, d, k, rest, visible + NameSet(nodes[0].outputs));
    }
  }

  lemma {:induction false} NodeFormedIff(t: Dispatch, d: nat, k: Context, node: Node, visible: set<Name>)
    requires RefFreeAttrs(node.attrs)
    ensures WellFormedNode(t, d, k, node, visible) <==> ProperNode(node, visible) && NodeCallsFormed(t, d, k, node)
    decreases node, 1
  {
    forall i | 0 <= i < |node.attrs| && node.attrs[i].value.Subgraph?
      ensures var g := node.attrs[i].value.graph;
        WellFormedGraph(t, d, k, g, visible) <==> ProperGraph(g, visible) && CallsFormed(t, d, k, g.nodes)
    {
      assert RefFreeValue(node.attrs[i].value);
      GraphFormedIff(t, d, k, node.attrs[i].value.graph, visible);
    }
  }

  /** Well-formed graphs are those whose names are proper and whose calls are well formed. */
  lemma {:induction false} GraphFormedIff(t: Dispatch, d: nat, k: Context, g: Graph, visible: set<Name>)
    requires RefFreeNodes(g.nodes)
    ensures WellFormedGraph(t, d, k, g, visible) <==> ProperGraph(g, visible) && CallsFormed(t, d, k, g.nodes)
    decreases g, 0
  {
    FormedIff(t, d, k, g.nodes, GraphNames(g, visible));
  }

  /** The instantiated body of a well-formed call is well formed among the parameters, and binds the outputs. */
  lemma BodyIsFormed(t: Dispatch, d: nat, k: Context, node: Node, f: Function, fromSchema: bool)
    requires WellFormedCall(t, d, k, node, f, fromSchema)
    ensures var body := SubstNodes(f.nodes, CallAttrs(f, node.attrs));
      && RefFreeNodes(body) && Defined(body) == Defined(f.nodes)
      && WellFormedNodes(t, d - 1, BodyContext(k, f, fromSchema), body, NameSet(f.inputs))
  {
    var am := CallAttrs(f, node.attrs);
    CallAttrsRefFree(f, node.attrs);
    SubstNodesRefFree(f.nodes, am);
    SubstKeepsDefined(f.nodes, am);
    HygienicInstance(t, k, node, f, fromSchema);
    FormedIff(t, d - 1, BodyContext(k, f, fromSchema), SubstNodes(f.nodes, am), NameSet(f.inputs));
  }

  // ---------------------------------------------------------------- the scope discipline

  /** Only the innermost scope has changed, and only by gaining some of the given names. */
  ghost predicate OnlyAdds(before: Scopes, after: Scopes, names: set<Name>) {
    && before != [] && |after| == |before|
    && var last := |before| - 1;
       && after[..last] == before[..last]
       && after[last].identifier == before[last].identifier
       && after[last].names.Keys <= before[last].names.Keys + names
       && before[last].names.Keys <= after[last].names.Keys
       && forall x :: x in before[last].names ==> after[last].names[x] == before[last].names[x]
  }

  /** Every visible name still stands for the same value. */
  lemma {:induction false} OnlyAddsKeeps(before: Scopes, after: Scopes, names: set<Name>, x: Name)
    requires OnlyAdds(before, after, names) && x in Bindings(before)
    ensures Lookup(after, x) == Lookup(before, x) && x in Bindings(after)
    decreases |before|
  {
    LookupIsBinding(before, x);
    LookupIsBinding(after, x);
    if |before| > 1 && x !in before[0].names {
      var a, b := before[1..], after[1..];
      assert after[0] == after[..|before| - 1][0] == before[0];
      assert a[..|a| - 1] == before[..|before| - 1][1..] && b[..|b| - 1] == after[..|before| - 1][1..];
      OnlyAddsKeeps(a, b, names, x);
    } else {
      assert |before| > 1 ==> after[0] == after[..|before| - 1][0] == before[0];
      assert |before| == 1 ==> before[1..] == [];
    }
  }

  lemma OnlyAddsTransitive(a: Scopes, b: Scopes, c: Scopes, xs: set<Name>, ys: set<Name>)
    requires OnlyAdds(a, b, xs) && OnlyAdds(b, c, ys)
    ensures OnlyAdds(a, c, xs + ys)
  {
  }

  lemma {:induction false} AddAllOnlyAdds(scopes: Scopes, names: seq<Name>, ids: seq<Id>)
    requires scopes != [] && |names| == |ids|
    ensures var r := AddAll(scopes, names, ids); r.Some? ==> OnlyAdds(scopes, r.value, set x | x in names)
    decreases |names|
  {
    if names != [] && AddAll(scopes, names, ids).Some? {
      var added := Add(scopes, names[0], ids[0]);
      AddAllOnlyAdds(added, names[1..], ids[1..]);
      assert OnlyAdds(scopes, added, {names[0]});
      assert names == [names[0]] + names[1..];
    }
  }

  lemma {:induction false} AddResultsOnlyAdds(scopes: Scopes, names: seq<Name>, first: Id)
    requires scopes != []
    ensures var r := AddResults(scopes, names, first); r.Some? ==> OnlyAdds(scopes, r.value, set x | x in names)
    decreases |names|
  {
    if names != [] && AddResults(scopes, names, first).Some? {
      assert names == [names[0]] + names[1..];
      if names[0] == "" {
        AddResultsOnlyAdds(scopes, names[1..], first + 1);
      } else {
        var added := Add(scopes, names[0], first);
        AddResultsOnlyAdds(added, names[1..], first + 1);
        assert OnlyAdds(scopes, added, {names[0]});
      }
    }
  }

  /** The innermost scope is visible. */
  lemma {:induction false} InnermostIsVisible(scopes: Scopes)
    requires scopes != []
    ensures scopes[|scopes| - 1].names.Keys <= Bindings(scopes).Keys
  {
    if |scopes| > 1 {
      InnermostIsVisible(scopes[1..]);
    }
  }

  lemma {:induction false} AddAllSucceeds(scopes: Scopes, names: seq<Name>, ids: seq<Id>)
    requires scopes != [] && |names| == |ids|
    requires "" !in names && AreNew(names, Bindings(scopes).Keys)
    ensures var r := AddAll(scopes, names, ids);
      r.Some? && r.value != [] && Bindings(r.value).Keys == Bindings(scopes).Keys + NameSet(names)
    decreases |names|
  {
    if names != [] {
      InnermostIsVisible(scopes);
      var added := Add(scopes, names[0], ids[0]);
      AddBindings(scopes, names[0], ids[0]);
      NewTail(names, Bindings(scopes).Keys);
      AddAllSucceeds(added, names[1..], ids[1..]);
    }
  }

  lemma {:induction false} AddResultsSucceeds(scopes: Scopes, names: seq<Name>, first: Id)
    requires scopes != [] && AreNew(names, Bindings(scopes).Keys)
    ensures var r := AddResults(scopes, names, first);
      r.Some? && r.value != [] && Bindings(r.value).Keys == Bindings(scopes).Keys + NameSet(names)
    decreases |names|
  {
    if names != [] {
      NewTail(names, Bindings(scopes).Keys);
      if names[0] == "" {
        AddResultsSucceeds(scopes, names[1..], first + 1);
      } else {
        InnermostIsVisible(scopes);
        AddBindings(scopes, names[0], first);
        AddResultsSucceeds(Add(scopes, names[0], first), names[1..], first + 1);
      }
    }
  }

  lemma NewTail(names: seq<Name>, visible: set<Name>)
    requires names != [] && AreNew(names, visible)
    ensures AreNew(names[1..], visible)
    ensures names[0] != "" ==> names[0] !in visible && AreNew(names[1..], visible + {names[0]})
  {
    var rest := names[1..];
    forall i | 0 <= i < |rest| && rest[i] != ""
      ensures rest[i] !in visible && rest[i] != names[0] && forall j :: 0 <= j < i ==> rest[j] != rest[i]
    {
      assert names[i + 1] == rest[i];
      assert forall j :: 0 <= j < i ==> names[j + 1] == rest[j];
    }
  }

  lemma EnterGraphOnlyAdds(scopes: Scopes, next: Id, g: Graph)
    ensures var r := EnterGraph(scopes, next, g);
      r.Some? ==> OnlyAdds(Push(scopes, GraphScope(g.name)), r.value,
                           (set x | x in InitializerNames(g))
                             + set x | x in ParameterNames(g.inputs, InitializerNames(g)))
  {
    var r := EnterGraph(scopes, next, g);
    if r.Some? {
      var names, ids := InitializerNames(g), Consecutive(next, |g.initializers|);
      var parameters := ParameterNames(g.inputs, names);
      var pushed := Push(scopes, GraphScope(g.name));
      AddAllOnlyAdds(pushed, names, ids);
      var scopes1 := AddAll(pushed, names, ids).value;
      AddAllOnlyAdds(scopes1, parameters, GraphArgs(next, g));
      OnlyAddsTransitive(pushed, scopes1, r.value, set x | x in names, set x | x in parameters);
    }
  }

  lemma LeaveCallOnlyAdds(scopes: Scopes, node: Node, f: Function, inside: Scopes)
    requires scopes != []
    ensures var r := LeaveCall(scopes, node, f, inside);
      r.Some? ==> OnlyAdds(scopes, r.value, set x | x in node.outputs)
  {
    var outputs := BoundValues(inside, f.outputs);
    if |outputs| <= |node.outputs| {
      var bound := node.outputs[..|outputs|];
      AddAllOnlyAdds(scopes, bound, outputs);
      assert (set x | x in bound) <= set x | x in node.outputs;
    }
  }

  /** Importing a node adds at most its outputs to the innermost scope, and leaves every other binding alone. */
  lemma NodeOnlyAdds(t: Dispatch, d: nat, k: Context, scopes: Scopes, next: Id, node: Node)
    requires scopes != []
    ensures var r := ImportNode(t, d, k, scopes, next, node);
      r.Some? ==> OnlyAdds(scopes, r.value.result, set x | x in node.outputs)
  {
    var r := ImportNode(t, d, k, scopes, next, node);
    if r.Some? {
      var target := t.resolve(k, node.domain, node.opType);
      if target.Call? {
        assert r == ImportCall(t, d, k, scopes, next, node, target.f, target.fromSchema);
        var args := Arguments(scopes, node, target.f, next).value;
        var params := EnterCall(node, target.f, args.result).value;
        var body := SubstNodes(target.f.nodes, CallAttrs(target.f, node.attrs));
        var inside := ImportNodes(t, d - 1, BodyContext(k, target.f, target.fromSchema), params, args.next,
                                  body).value.result;
        LeaveCallOnlyAdds(scopes, node, target.f, inside);
      } else {
        assert r == ImportOperation(t, d, k, scopes, next, node, target);
        AddResultsOnlyAdds(scopes, node.outputs, Operands(scopes, node.inputs, t.operands(target), next).next);
      }
    }
  }

  lemma NodeKeepsScopes(t: Dispatch, d: nat, k: Context, scopes: Scopes, next: Id, node: Node)
    requires scopes != []
    ensures var r := ImportNode(t, d, k, scopes, next, node); r.Some? ==> r.value.result != []
  {
    NodeOnlyAdds(t, d, k, scopes, next, node);
  }

  lemma {:induction false} NodesOnlyAdd(t: Dispatch, d: nat, k: Context, scopes: Scopes, next: Id, nodes: seq<Node>)
    requires scopes != []
    ensures var r := ImportNodes(t, d, k, scopes, next, nodes);
      r.Some? ==> OnlyAdds(scopes, r.value.result, set i, x | 0 <= i < |nodes| && x in nodes[i].outputs :: x)
    decreases |nodes|
  {
    var r := ImportNodes(t, d, k, scopes, next, nodes);
    if nodes != [] && r.Some? {
      var first := ImportNode(t, d, k, scopes, next, nodes[0]).value;
      NodeOnlyAdds(t, d, k, scopes, next, nodes[0]);
      NodesOnlyAdd(t, d, k, first.result, first.next, nodes[1..]);
      assert nodes == [nodes[0]] + nodes[1..];
    }
  }

  /** After the nodes of a graph, closing its scope gives back the table from before. */
  lemma GraphScopeCloses(t: Dispatch, d: nat, k: Context, scopes: Scopes, next: Id, g: Graph, inside: Scopes, start: Id)
    requires EnterGraph(scopes, next, g) == Some(inside)
    ensures inside != []
    ensures var r := ImportNodes(t, d, k, inside, start, g.nodes);
      r.Some? ==> var after := r.value.result;
        && after != [] && after[|after| - 1].identifier == GraphScope(g.name)
        && after[..|after| - 1] == scopes
  {
    EnterGraphOnlyAdds(scopes, next, g);
    NodesOnlyAdd(t, d, k, inside, start, g.nodes);
    var pushed := Push(scopes, GraphScope(g.name));
    assert pushed[..|pushed| - 1] == scopes;
  }

  lemma CallScopeCloses(t: Dispatch, d: nat, k: Context, node: Node, f: Function, args: seq<Id>, next: Id,
                        body: seq<Node>)
    requires |args| == |f.inputs| && EnterCall(node, f, args).Some?
    ensures var params := EnterCall(node, f, args).value;
      && params != []
      && var r := ImportNodes(t, d, k, params, next, body);
         r.Some? ==> var after := r.value.result; after != [] && after[|after| - 1].identifier == CallScopeName(node, f)
  {
    AddAllOnlyAdds(Push([], CallScopeName(node, f)), f.inputs, args);
    NodesOnlyAdd(t, d, k, EnterCall(node, f, args).value, next, body);
  }

  // ---------------------------------------------------------------- importing succeeds

  ghost predicate Imported(r: Option<Emitted<Scopes>>, names: set<Name>) {
    r.Some? && r.value.result != [] && Bindings(r.value.result).Keys == names
  }

  lemma {:induction false} NodesSucceed(t: Dispatch, d: nat, k: Context, scopes: Scopes, next: Id, nodes: seq<Node>,
                                        visible: set<Name>)
    requires scopes != [] && Bindings(scopes).Keys == visible
    requires WellFormedNodes(t, d, k, nodes, visible)
    ensures Imported(ImportNodes(t, d, k, scopes, next, nodes), visible + Defined(nodes))
    decreases d, nodes, 0
  {
    if nodes != [] {
      NodeSucceeds(t, d, k, scopes, next, nodes[0], visible);
      var first := ImportNode(t, d, k, scopes, next, nodes[0]).value;
      NodesSucceed(t, d, k, first.result, first.next, nodes[1..], visible + NameSet(nodes[0].outputs));
    }
  }

  lemma {:induction false} NodeSucceeds(t: Dispatch, d: nat, k: Context, scopes: Scopes, next: Id, node: Node,
                                        visible: set<Name>)
    requires scopes != [] && Bindings(scopes).Keys == visible
    requires WellFormedNode(t, d, k, node, visible)
    ensures Imported(ImportNode(t, d, k, scopes, next, node), visible + NameSet(node.outputs))
    decreases d, node, 2
  {
    var target := t.resolve(k, node.domain, node.opType);
    if target.Call? {
      CallSucceeds(t, d, k, scopes, next, node, target.f, target.fromSchema, visible);
    } else {
      var operands := Operands(scopes, node.inputs, t.operands(target), next);
      BodiesSucceed(t, d, k, scopes, operands.next + |node.outputs|, node.attrs, visible);
      AddResultsSucceeds(scopes, node.outputs, operands.next);
    }
  }

  lemma {:induction false} BodiesSucceed(t: Dispatch, d: nat, k: Context, scopes: Scopes, next: Id, attrs: seq<Attr>,
                                         visible: set<Name>)
    requires Bindings(scopes).Keys == visible
    requires forall i :: 0 <= i < |attrs| && attrs[i].value.Subgraph? ==>
      WellFormedGraph(t, d, k, attrs[i].value.graph, visible)
    ensures var r := ImportBodies(t, d, k, scopes, next, attrs); r.Some?
    decreases d, attrs, 0
  {
    if attrs != [] {
      if attrs[0].value.Data? {
        BodiesSucceed(t, d, k, scopes, next, attrs[1..], visible);
      } else {
        GraphSucceeds(t, d, k, scopes, next, attrs[0].value.graph, visible);
        var first := ImportGraph(t, d, k, scopes, next, attrs[0].value.graph).value;
        BodiesSucceed(t, d, k, scopes, first.next, attrs[1..], visible);
      }
    }
  }

  lemma {:induction false} GraphSucceeds(t: Dispatch, d: nat, k: Context, scopes: Scopes, next: Id, g: Graph,
                                         visible: set<Name>)
    requires Bindings(scopes).Keys == visible
    requires WellFormedGraph(t, d, k, g, visible)
    ensures var r := ImportGraph(t, d, k, scopes, next, g); r.Some?
    decreases d, g, 0
  {
    EnterGraphSucceeds(scopes, next, g, visible);
    var inside := EnterGraph(scopes, next, g).value;
    var start := next + |g.initializers| + |GraphArgs(next, g)|;
    NodesSucceed(t, d, k, inside, start, g.nodes, GraphNames(g, visible));
    FinishGraph(t, d, k, scopes, next, g, inside, GraphNames(g, visible) + Defined(g.nodes));
  }

  lemma FinishGraph(t: Dispatch, d: nat, k: Context, scopes: Scopes, next: Id, g: Graph, inside: Scopes,
                    names: set<Name>)
    requires EnterGraph(scopes, next, g) == Some(inside)
    requires var start := next + |g.initializers| + |GraphArgs(next, g)|;
      Imported(ImportNodes(t, d, k, inside, start, g.nodes), names)
    requires forall x :: x in g.outputs ==> x in names
    ensures var r := ImportGraph(t, d, k, scopes, next, g); r.Some?
  {
    var body := ImportNodes(t, d, k, inside, next + |g.initializers| + |GraphArgs(next, g)|, g.nodes).value;
    AllFound(body.result, g.outputs);
  }

  lemma EnterGraphSucceeds(scopes: Scopes, next: Id, g: Graph, visible: set<Name>)
    requires Bindings(scopes).Keys == visible && HeaderIsNew(g, visible)
    ensures var r := EnterGraph(scopes, next, g);
      r.Some? && r.value != [] && Bindings(r.value).Keys == GraphNames(g, visible)
  {
    PushKeepsBindings(scopes, GraphScope(g.name));
    var ids := Consecutive(next, |g.initializers|);
    AddAllSucceeds(Push(scopes, GraphScope(g.name)), InitializerNames(g), ids);
    var scopes1 := AddAll(Push(scopes, GraphScope(g.name)), InitializerNames(g), ids).value;
    AddAllSucceeds(scopes1, ParameterNames(g.inputs, InitializerNames(g)), GraphArgs(next, g));
  }

  lemma {:induction false} CallSucceeds(t: Dispatch, d: nat, k: Context, scopes: Scopes, next: Id, node: Node,
                                        f: Function, fromSchema: bool, visible: set<Name>)
    requires scopes != [] && Bindings(scopes).Keys == visible
    requires forall x :: x in node.inputs && x != "" ==> x in visible
    requires AreNew(node.outputs, visible)
    requires WellFormedCall(t, d, k, node, f, fromSchema)
    ensures Imported(ImportCall(t, d, k, scopes, next, node, f, fromSchema), visible + NameSet(node.outputs))
    decreases d, node, 1
  {
    var args, params := InlinedSucceeds(t, d, k, scopes, next, node, f, fromSchema);
    CallFinishes(t, d, k, scopes, next, node, f, fromSchema, args, params);
  }

  lemma {:induction false} InlinedSucceeds(t: Dispatch, d: nat, k: Context, scopes: Scopes, next: Id, node: Node,
                                           f: Function, fromSchema: bool)
      returns (args: Emitted<seq<Id>>, params: Scopes)
    requires forall x :: x in node.inputs && x != "" ==> x in Bindings(scopes)
    requires WellFormedCall(t, d, k, node, f, fromSchema)
    ensures Arguments(scopes, node, f, next) == Some(args) && EnterCall(node, f, args.result) == Some(params)
    ensures Imported(ImportNodes(t, d - 1, BodyContext(k, f, fromSchema), params, args.next,
                                 SubstNodes(f.nodes, CallAttrs(f, node.attrs))),
                     NameSet(f.inputs) + Defined(f.nodes))
    decreases d, node, 0
  {
    BodyIsFormed(t, d, k, node, f, fromSchema);
    ArgumentsSucceed(scopes, node, f, next);
    args := Arguments(scopes, node, f, next).value;
    EnterCallSucceeds(node, f, args.result);
    params := EnterCall(node, f, args.result).value;
    NodesSucceed(t, d - 1, BodyContext(k, f, fromSchema), params, args.next,
                 SubstNodes(f.nodes, CallAttrs(f, node.attrs)), NameSet(f.inputs));
  }

  lemma CallFinishes(t: Dispatch, d: nat, k: Context, scopes: Scopes, next: Id, node: Node, f: Function,
                     fromSchema: bool,
                   args: Emitted<seq<Id>>, params: Scopes)
    requires d > 0 && scopes != [] && |node.inputs| <= |f.inputs| && |node.outputs| == |f.outputs|
    requires "" !in node.outputs && AreNew(node.outputs, Bindings(scopes).Keys)
    requires Arguments(scopes, node, f, next) == Some(args) && EnterCall(node, f, args.result) == Some(params)
    requires forall x :: x in f.outputs ==> x in NameSet(f.inputs) + Defined(f.nodes)
    requires Imported(ImportNodes(t, d - 1, BodyContext(k, f, fromSchema), params, args.next,
                                  SubstNodes(f.nodes, CallAttrs(f, node.attrs))),
                      NameSet(f.inputs) + Defined(f.nodes))
    ensures Imported(ImportCall(t, d, k, scopes, next, node, f, fromSchema), Bindings(scopes).Keys
      + NameSet(node.outputs))
  {
    var inlined := ImportNodes(t, d - 1, BodyContext(k, f, fromSchema), params, args.next,
                               SubstNodes(f.nodes, CallAttrs(f, node.attrs))).value;
    LeaveCallSucceeds(scopes, node, f, inlined.result);
  }

  lemma LeaveCallSucceeds(scopes: Scopes, node: Node, f: Function, inside: Scopes)
    requires scopes != [] && |node.outputs| == |f.outputs|
    requires "" !in node.outputs && AreNew(node.outputs, Bindings(scopes).Keys)
    requires forall x :: x in f.outputs ==> x in Bindings(inside)
    ensures var r := LeaveCall(scopes, node, f, inside);
      r.Some? && r.value != [] && Bindings(r.value).Keys == Bindings(scopes).Keys + NameSet(node.outputs)
  {
    AllFound(inside, f.outputs);
    var outputs := BoundValues(inside, f.outputs);
    assert node.outputs[..|outputs|] == node.outputs;
    AddAllSucceeds(scopes, node.outputs, outputs);
  }

  lemma EnterCallSucceeds(node: Node, f: Function, args: seq<Id>)
    requires |args| == |f.inputs| && "" !in f.inputs && AreNew(f.inputs, {})
    ensures var r := EnterCall(node, f, args); r.Some? && r.value != [] && Bindings(r.value).Keys == NameSet(f.inputs)
  {
    PushKeepsBindings<Id>([], CallScopeName(node, f));
    AddAllSucceeds(Push([], CallScopeName(node, f)), f.inputs, args);
  }

  lemma ArgumentsSucceed(scopes: Scopes, node: Node, f: Function, next: Id)
    requires |node.inputs| <= |f.inputs|
    requires forall x :: x in node.inputs && x != "" ==> x in Bindings(scopes)
    ensures var r := Arguments(scopes, node, f, next); r.Some?
  {
    forall i | 0 <= i < |node.inputs| && node.inputs[i] != "" ensures Lookup(scopes, node.inputs[i]).Some? {
      LookupIsBinding(scopes, node.inputs[i]);
    }
  }

  lemma {:induction false} AllFound(scopes: Scopes, names: seq<Name>)
    requires forall x :: x in names ==> x in Bindings(scopes)
    ensures AllValues(scopes, names).Some? && |BoundValues(scopes, names)| == |names|
    decreases |names|
  {
    if names != [] {
      LookupIsBinding(scopes, names[0]);
      AllFound(scopes, names[1..]);
      assert forall i :: 1 <= i < |names| ==> names[i] == names[1..][i - 1];
    }
  }
}
