/**
 * The names of a function body are its own: renaming them, even to names that the caller uses, does not change the
 * program that inlining emits, as long as no graphs are passed to functions.
 */
module BodyRenaming {
  import opened Wrappers
  import opened OnnxModel
  import opened AttributeReferences
  import opened GraphSemantics
  import opened SsaProgram
  import opened SymbolTable
  import opened GraphImport

  /** A change of names, and the way back. */
  datatype Renaming = Renaming(to: Name -> Name, back: Name -> Name)

  /** Different names stay different, and only the empty name is empty. */
  ghost predicate IsRenaming(r: Renaming) {
    r.to("") == "" && forall x :: r.back(r.to(x)) == x
  }

  function Names(r: Renaming, names: seq<Name>): (s: seq<Name>)
    ensures |s| == |names|
  {
    if names == [] then [] else [r.to(names[0])] + Names(r, names[1..])
  }

  lemma NamesTail(r: Renaming, names: seq<Name>)
    requires names != []
    ensures Names(r, names)[1..] == Names(r, names[1..]) && Names(r, names)[0] == r.to(names[0])
  {
  }

  lemma {:induction false} NameAt(r: Renaming, names: seq<Name>, i: nat)
    requires i < |names|
    ensures Names(r, names)[i] == r.to(names[i])
  {
    if i > 0 {
      NameAt(r, names[1..], i - 1);
    }
  }

  lemma {:induction false} NamesPrefix(r: Renaming, names: seq<Name>, n: nat)
    requires n <= |names|
    ensures Names(r, names)[..n] == Names(r, names[..n])
    decreases n
  {
    if n > 0 {
      NamesPrefix(r, names[1..], n - 1);
      assert names[..n][1..] == names[1..][..n - 1];
    } else {
      assert names[..0] == [];
    }
  }

  function RenameNodes(r: Renaming, nodes: seq<Node>): (s: seq<Node>)
    ensures |s| == |nodes|
    decreases nodes
  {
    if nodes == [] then [] else [RenameNode(r, nodes[0])] + RenameNodes(r, nodes[1..])
  }

  function RenameNode(r: Renaming, node: Node): Node
    decreases node
  {
    node.(inputs := Names(r, node.inputs), outputs := Names(r, node.outputs), attrs := RenameAttrs(r, node.attrs))
  }

  function RenameAttrs(r: Renaming, attrs: seq<Attr>): (s: seq<Attr>)
    ensures |s| == |attrs|
    decreases attrs
  {
    if attrs == [] then [] else [RenameAttr(r, attrs[0])] + RenameAttrs(r, attrs[1..])
  }

  function RenameAttr(r: Renaming, a: Attr): (b: Attr)
    ensures b.name == a.name && b.refName == a.refName && (a.value.Data? ==> b == a) &&
      (a.value.Subgraph? ==> b.value.Subgraph?)
    decreases a
  {
    match a.value
    case Data(_) => a
    case Subgraph(g) => a.(value := Subgraph(RenameGraph(r, g)))
  }

  function RenameInitializers(r: Renaming, s: seq<Initializer>): (t: seq<Initializer>)
    ensures |t| == |s| && forall i :: 0 <= i < |s| ==> t[i] == s[i].(name := r.to(s[i].name))
  {
    seq(|s|, i requires 0 <= i < |s| => s[i].(name := r.to(s[i].name)))
  }

  function RenameGraph(r: Renaming, g: Graph): Graph
    decreases g
  {
    Graph(g.name, RenameInitializers(r, g.initializers), Names(r, g.inputs), RenameNodes(r, g.nodes),
          Names(r, g.outputs))
  }

  function RenameFunction(r: Renaming, f: Function): Function {
    f.(inputs := Names(r, f.inputs), outputs := Names(r, f.outputs), nodes := RenameNodes(r, f.nodes))
  }

  // ---------------------------------------------------------------- tables

  /** The same values under new names. */
  ghost predicate Renamed(r: Renaming, a: Scopes, b: Scopes) {
    |a| == |b| && forall i :: 0 <= i < |a| ==> RenamedScope(r, a[i], b[i])
  }

  ghost predicate RenamedScope(r: Renaming, a: Scope<Id>, b: Scope<Id>) {
    a.identifier == b.identifier && RenamedMap(r, a.names, b.names)
  }

  ghost predicate RenamedMap(r: Renaming, m: map<Name, Id>, n: map<Name, Id>) {
    forall x :: (x in m <==> r.to(x) in n) && (x in m ==> n[r.to(x)] == m[x])
  }

  lemma {:induction false} LookupRenamed(r: Renaming, a: Scopes, b: Scopes, x: Name)
    requires Renamed(r, a, b)
    ensures Lookup(a, x) == Lookup(b, r.to(x))
  {
    if a != [] {
      assert RenamedScope(r, a[0], b[0]);
      assert forall i :: 0 <= i < |a[1..]| ==> a[1..][i] == a[i + 1] && b[1..][i] == b[i + 1];
      LookupRenamed(r, a[1..], b[1..], x);
    }
  }

  lemma AddToMap(r: Renaming, m: map<Name, Id>, n: map<Name, Id>, x: Name, id: Id)
    requires IsRenaming(r) && RenamedMap(r, m, n)
    ensures RenamedMap(r, m[x := id], n[r.to(x) := id]) && (x in m <==> r.to(x) in n)
  {
    var m', n' := m[x := id], n[r.to(x) := id];
    forall y ensures (y in m' <==> r.to(y) in n') && (y in m' ==> n'[r.to(y)] == m'[y]) {
      assert r.back(r.to(y)) == y && r.back(r.to(x)) == x;
    }
  }

  lemma AddRenamed(r: Renaming, a: Scopes, b: Scopes, x: Name, id: Id)
    requires IsRenaming(r) && Renamed(r, a, b) && a != []
    ensures Renamed(r, Add(a, x, id), Add(b, r.to(x), id))
    ensures x in a[|a| - 1].names <==> r.to(x) in b[|b| - 1].names
  {
    var n := |a| - 1;
    assert RenamedScope(r, a[n], b[n]);
    AddToMap(r, a[n].names, b[n].names, x, id);
    var a', b' := Add(a, x, id), Add(b, r.to(x), id);
    forall i | 0 <= i < |a'| ensures RenamedScope(r, a'[i], b'[i]) {
      assert RenamedScope(r, a[i], b[i]);
    }
  }

  lemma PushRenamed(r: Renaming, a: Scopes, b: Scopes, identifier: ScopeId)
    requires Renamed(r, a, b)
    ensures Renamed(r, Push(a, identifier), Push(b, identifier))
  {
    var a', b' := Push(a, identifier), Push(b, identifier);
    forall i | 0 <= i < |a'| ensures RenamedScope(r, a'[i], b'[i]) {
      if i < |a| {
        assert RenamedScope(r, a[i], b[i]);
      }
    }
  }

  ghost predicate RenamedTables(r: Renaming, a: Option<Scopes>, b: Option<Scopes>) {
    if a.Some? then b.Some? && Renamed(r, a.value, b.value) else b.None?
  }

  lemma {:induction false} AddAllRenamed(r: Renaming, a: Scopes, b: Scopes, names: seq<Name>, ids: seq<Id>)
    requires IsRenaming(r) && Renamed(r, a, b) && |names| == |ids|
    ensures RenamedTables(r, AddAll(a, names, ids), AddAll(b, Names(r, names), ids))
    decreases |names|
  {
    if names != [] && a != [] {
      NamesTail(r, names);
      AddRenamed(r, a, b, names[0], ids[0]);
      AddAllRenamed(r, Add(a, names[0], ids[0]), Add(b, r.to(names[0]), ids[0]), names[1..], ids[1..]);
    }
  }

  lemma EmptyStaysEmpty(r: Renaming, x: Name)
    requires IsRenaming(r)
    ensures r.to(x) == "" <==> x == ""
  {
    assert r.back(r.to(x)) == x && r.back(r.to("")) == "";
  }

  lemma {:induction false} AddResultsRenamed(r: Renaming, a: Scopes, b: Scopes, names: seq<Name>, first: Id)
    requires IsRenaming(r) && Renamed(r, a, b)
    ensures RenamedTables(r, AddResults(a, names, first), AddResults(b, Names(r, names), first))
    decreases |names|
  {
    if names != [] {
      NamesTail(r, names);
      EmptyStaysEmpty(r, names[0]);
      if names[0] == "" {
        AddResultsRenamed(r, a, b, names[1..], first + 1);
      } else if a != [] {
        AddRenamed(r, a, b, names[0], first);
        AddResultsRenamed(r, Add(a, names[0], first), Add(b, r.to(names[0]), first), names[1..], first + 1);
      }
    }
  }

  lemma {:induction false} NodeInputsRenamed(r: Renaming, a: Scopes, b: Scopes, inputs: seq<Name>, next: Id)
    requires IsRenaming(r) && Renamed(r, a, b)
    ensures NodeInputs(a, inputs, next) == NodeInputs(b, Names(r, inputs), next)
    decreases |inputs|
  {
    if inputs != [] {
      NamesTail(r, inputs);
      EmptyStaysEmpty(r, inputs[0]);
      LookupRenamed(r, a, b, inputs[0]);
      NodeInputsRenamed(r, a, b, inputs[1..], if inputs[0] == "" then next + 1 else next);
    }
  }

  lemma OperandsRenamed(r: Renaming, a: Scopes, b: Scopes, inputs: seq<Name>, expected: int, next: Id)
    requires IsRenaming(r) && Renamed(r, a, b)
    ensures Operands(a, inputs, expected, next) == Operands(b, Names(r, inputs), expected, next)
  {
    NodeInputsRenamed(r, a, b, inputs, next);
  }

  lemma {:induction false} BoundValuesRenamed(r: Renaming, a: Scopes, b: Scopes, names: seq<Name>)
    requires Renamed(r, a, b)
    ensures BoundValues(a, names) == BoundValues(b, Names(r, names))
    decreases |names|
  {
    if names != [] {
      NamesTail(r, names);
      LookupRenamed(r, a, b, names[0]);
      BoundValuesRenamed(r, a, b, names[1..]);
    }
  }

  lemma AllValuesRenamed(r: Renaming, a: Scopes, b: Scopes, names: seq<Name>)
    requires Renamed(r, a, b)
    ensures AllValues(a, names) == AllValues(b, Names(r, names))
  {
    BoundValuesRenamed(r, a, b, names);
    forall i | 0 <= i < |names| ensures Lookup(a, names[i]) == Lookup(b, Names(r, names)[i]) {
      NameAt(r, names, i);
      LookupRenamed(r, a, b, names[i]);
    }
  }

  // ---------------------------------------------------------------- nodes and graphs

  /** Calls pass data only, at any depth. */
  predicate DataCalls(t: Dispatch, k: Context, nodes: seq<Node>)
    decreases nodes
  {
    nodes == [] || (DataCall(t, k, nodes[0]) && DataCalls(t, k, nodes[1..]))
  }

  predicate DataCall(t: Dispatch, k: Context, node: Node)
    decreases node
  {
    if t.resolve(k, node.domain, node.opType).Call? then OnlyData(node.attrs) else DataCallsIn(t, k, node.attrs)
  }

  predicate DataCallsIn(t: Dispatch, k: Context, attrs: seq<Attr>)
    decreases attrs
  {
    attrs == [] ||
    ((attrs[0].value.Subgraph? ==> DataCalls(t, k, attrs[0].value.graph.nodes)) && DataCallsIn(t, k, attrs[1..]))
  }

  predicate OnlyData(attrs: seq<Attr>) { forall i :: 0 <= i < |attrs| ==> attrs[i].value.Data? }

  lemma {:induction false} RenamedData(r: Renaming, attrs: seq<Attr>)
    requires OnlyData(attrs)
    ensures RenameAttrs(r, attrs) == attrs
  {
    if attrs != [] {
      RenamedData(r, attrs[1..]);
    }
  }

  lemma {:induction false} DataAttrsRenamed(r: Renaming, attrs: seq<Attr>)
    ensures DataAttrs(RenameAttrs(r, attrs), map[]) == DataAttrs(attrs, map[])
  {
    if attrs != [] {
      DataAttrsRenamed(r, attrs[1..]);
      assert RenameAttrs(r, attrs)[1..] == RenameAttrs(r, attrs[1..]);
    }
  }

  lemma {:induction false} RenamedAttrAt(r: Renaming, attrs: seq<Attr>, i: nat)
    requires i < |attrs|
    ensures RenameAttrs(r, attrs)[i] == RenameAttr(r, attrs[i])
  {
    if i > 0 {
      RenamedAttrAt(r, attrs[1..], i - 1);
    }
  }

  lemma {:induction false} BodyAttrsRenamed(r: Renaming, attrs: seq<Attr>, from: nat)
    requires from <= |attrs|
    ensures BodyAttrsFrom(RenameAttrs(r, attrs), map[], from) == BodyAttrsFrom(attrs, map[], from)
    decreases |attrs| - from
  {
    if from < |attrs| {
      BodyAttrsRenamed(r, attrs, from + 1);
      RenamedAttrAt(r, attrs, from);
    }
  }

  lemma CallOfRenamed(r: Renaming, target: Target, node: Node)
    ensures CallOf(target, RenameNode(r, node), map[]) == CallOf(target, node, map[])
  {
    DataAttrsRenamed(r, node.attrs);
    BodyAttrsRenamed(r, node.attrs, 0);
    AttrNamesRenamed(r, node.attrs, BodyAttrs(node.attrs, map[]));
  }

  lemma {:induction false} AttrNamesRenamed(r: Renaming, attrs: seq<Attr>, positions: seq<nat>)
    requires forall i :: 0 <= i < |positions| ==> positions[i] < |attrs|
    ensures AttrNames(RenameAttrs(r, attrs), positions) == AttrNames(attrs, positions)
    decreases |positions|
  {
    if positions != [] {
      RenamedAttrAt(r, attrs, positions[0]);
      AttrNamesRenamed(r, attrs, positions[1..]);
    }
  }

  lemma {:induction false} ParametersRenamed(r: Renaming, inputs: seq<Name>, initializers: seq<Name>)
    requires IsRenaming(r)
    ensures ParameterNames(Names(r, inputs), Names(r, initializers)) == Names(r, ParameterNames(inputs, initializers))
  {
    if inputs != [] {
      NamesTail(r, inputs);
      ParametersRenamed(r, inputs[1..], initializers);
      MemberRenamed(r, initializers, inputs[0]);
      var rest := ParameterNames(inputs[1..], initializers);
      assert ([inputs[0]] + rest)[1..] == rest;
    }
  }

  lemma {:induction false} MemberRenamed(r: Renaming, names: seq<Name>, x: Name)
    requires IsRenaming(r)
    ensures r.to(x) in Names(r, names) <==> x in names
  {
    if names != [] {
      MemberRenamed(r, names[1..], x);
      NamesTail(r, names);
      assert r.back(r.to(x)) == x && r.back(r.to(names[0])) == names[0];
      assert names == [names[0]] + names[1..];
    }
  }

  lemma {:induction false} InitializersRenamed(r: Renaming, s: seq<Initializer>, names: seq<Name>, names': seq<Name>)
    requires |names| == |names'| == |s| && forall i :: 0 <= i < |s| ==>
      names[i] == s[i].name && names'[i] == r.to(s[i].name)
    ensures names' == Names(r, names)
    decreases |s|
  {
    if s != [] {
      NamesTail(r, names);
      assert forall i :: 0 <= i < |s[1..]| ==>
        s[1..][i] == s[i + 1] && names[1..][i] == names[i + 1] && names'[1..][i] == names'[i + 1];
      InitializersRenamed(r, s[1..], names[1..], names'[1..]);
    }
  }

  lemma HeaderRenamed(r: Renaming, g: Graph)
    requires IsRenaming(r)
    ensures InitializerNames(RenameGraph(r, g)) == Names(r, InitializerNames(g))
    ensures var g' := RenameGraph(r, g);
      ParameterNames(g'.inputs, InitializerNames(g')) == Names(r, ParameterNames(g.inputs, InitializerNames(g)))
  {
    InitializersRenamed(r, g.initializers, InitializerNames(g), InitializerNames(RenameGraph(r, g)));
    ParametersRenamed(r, g.inputs, InitializerNames(g));
  }

  lemma EnterGraphRenamed(r: Renaming, a: Scopes, b: Scopes, next: Id, g: Graph)
    requires IsRenaming(r) && Renamed(r, a, b)
    ensures RenamedTables(r, EnterGraph(a, next, g), EnterGraph(b, next, RenameGraph(r, g)))
    ensures GraphArgs(next, RenameGraph(r, g)) == GraphArgs(next, g)
    ensures Constants(RenameGraph(r, g).initializers, next) == Constants(g.initializers, next)
  {
    HeaderRenamed(r, g);
    PushRenamed(r, a, b, GraphScope(g.name));
    var a1, b1 := Push(a, GraphScope(g.name)), Push(b, GraphScope(g.name));
    var names, ids := InitializerNames(g), Consecutive(next, |g.initializers|);
    AddAllRenamed(r, a1, b1, names, ids);
    if AddAll(a1, names, ids).Some? {
      AddAllRenamed(r, AddAll(a1, names, ids).value, AddAll(b1, Names(r, names), ids).value,
                    ParameterNames(g.inputs, names), GraphArgs(next, g));
    }
  }

  /** The same operations, and the same table under new names. */
  ghost predicate SameProgram(r: Renaming, a: Option<Emitted<Scopes>>, b: Option<Emitted<Scopes>>) {
    if a.Some? then b.Some? && a.value.ops == b.value.ops && a.value.next == b.value.next &&
      Renamed(r, a.value.result, b.value.result)
    else b.None?
  }

  lemma {:induction false} NodesRenamed(r: Renaming, t: Dispatch, d: nat, k: Context, a: Scopes, b: Scopes, next: Id,
                                        nodes: seq<Node>)
    requires IsRenaming(r) && Renamed(r, a, b) && DataCalls(t, k, nodes)
    ensures SameProgram(r, ImportNodes(t, d, k, a, next, nodes), ImportNodes(t, d, k, b, next, RenameNodes(r, nodes)))
    decreases nodes, 0
  {
    if nodes != [] {
      NodeRenamed(r, t, d, k, a, b, next, nodes[0]);
      assert RenameNodes(r, nodes)[1..] == RenameNodes(r, nodes[1..]);
      var first, first' := ImportNode(t, d, k, a, next, nodes[0]),
        ImportNode(t, d, k, b, next, RenameNode(r, nodes[0]));
      if first.Some? {
        NodesRenamed(r, t, d, k, first.value.result, first'.value.result, first.value.next, nodes[1..]);
      }
    }
  }

  lemma {:induction false} NodeRenamed(r: Renaming, t: Dispatch, d: nat, k: Context, a: Scopes, b: Scopes, next: Id,
                                       node: Node)
    requires IsRenaming(r) && Renamed(r, a, b) && DataCall(t, k, node)
    ensures SameProgram(r, ImportNode(t, d, k, a, next, node), ImportNode(t, d, k, b, next, RenameNode(r, node)))
    decreases node, 1
  {
    var target := t.resolve(k, node.domain, node.opType);
    if target.Call? {
      CallNodeRenamed(r, t, d, k, a, b, next, node, target.f, target.fromSchema);
    } else {
      OperationNodeRenamed(r, t, d, k, a, b, next, node, target);
    }
  }

  lemma {:induction false} OperationNodeRenamed(r: Renaming, t: Dispatch, d: nat, k: Context, a: Scopes, b: Scopes,
      next: Id, node: Node, target: Target)
    requires IsRenaming(r) && Renamed(r, a, b) && DataCallsIn(t, k, node.attrs)
    requires target == t.resolve(k, node.domain, node.opType) && !target.Call?
    ensures SameProgram(r, ImportNode(t, d, k, a, next, node), ImportNode(t, d, k, b, next, RenameNode(r, node)))
    decreases node, 0
  {
    BodiesRenamed(r, t, d, k, a, b, Operands(a, node.inputs, t.operands(target), next).next + |node.outputs|,
                  node.attrs);
    OperationRenamed(r, t, d, k, a, b, next, node, target);
  }

  lemma {:induction false} OperationRenamed(r: Renaming, t: Dispatch, d: nat, k: Context, a: Scopes, b: Scopes,
                                            next: Id, node: Node, target: Target)
    requires IsRenaming(r) && Renamed(r, a, b) && target == t.resolve(k, node.domain, node.opType) && !target.Call?
    requires var start := Operands(a, node.inputs, t.operands(target), next).next + |node.outputs|;
      ImportBodies(t, d, k, a, start, node.attrs) == ImportBodies(t, d, k, b, start, RenameAttrs(r, node.attrs))
    ensures SameProgram(r, ImportNode(t, d, k, a, next, node), ImportNode(t, d, k, b, next, RenameNode(r, node)))
  {
    var operands, bodies := PartsRenamed(r, t, d, k, a, b, next, node, target);
    ResultsRenamed(r, a, b, node, target, operands, bodies);
    OperationsTransport(r, t, d, k, a, b, next, node, RenameNode(r, node), target, operands, bodies);
  }

  /** The two nodes become the same operation. */
  ghost predicate SameOperation(t: Dispatch, d: nat, k: Context, a: Scopes, b: Scopes, next: Id, node: Node,
                                node': Node,
                                target: Target, operands: Emitted<seq<Id>>, bodies: Option<Emitted<seq<Region>>>) {
    && target == t.resolve(k, node.domain, node.opType) == t.resolve(k, node'.domain, node'.opType) && !target.Call?
    && operands == Operands(a, node.inputs, t.operands(target), next)
      == Operands(b, node'.inputs, t.operands(target), next)
    && bodies == ImportBodies(t, d, k, a, operands.next + |node.outputs|, node.attrs)
    && bodies == ImportBodies(t, d, k, b, operands.next + |node'.outputs|, node'.attrs)
  }

  lemma {:induction false} PartsRenamed(r: Renaming, t: Dispatch, d: nat, k: Context, a: Scopes, b: Scopes, next: Id,
                                        node: Node, target: Target)
      returns (operands: Emitted<seq<Id>>, bodies: Option<Emitted<seq<Region>>>)
    requires IsRenaming(r) && Renamed(r, a, b) && target == t.resolve(k, node.domain, node.opType) && !target.Call?
    requires var start := Operands(a, node.inputs, t.operands(target), next).next + |node.outputs|;
      ImportBodies(t, d, k, a, start, node.attrs) == ImportBodies(t, d, k, b, start, RenameAttrs(r, node.attrs))
    ensures SameOperation(t, d, k, a, b, next, node, RenameNode(r, node), target, operands, bodies)
  {
    operands := Operands(a, node.inputs, t.operands(target), next);
    bodies := ImportBodies(t, d, k, a, operands.next + |node.outputs|, node.attrs);
    OperandsRenamed(r, a, b, node.inputs, t.operands(target), next);
    RenamedNode(r, node);
  }

  lemma RenamedNode(r: Renaming, node: Node)
    ensures var node' := RenameNode(r, node);
      && node'.domain == node.domain && node'.opType == node.opType && node'.attrs == RenameAttrs(r, node.attrs)
      && node'.inputs == Names(r, node.inputs) && |node'.outputs| == |node.outputs|
  {
  }

  lemma {:induction false} OperationsTransport(r: Renaming, t: Dispatch, d: nat, k: Context, a: Scopes, b: Scopes,
      next: Id, node: Node, node': Node,
                                               target: Target, operands: Emitted<seq<Id>>,
                                                 bodies: Option<Emitted<seq<Region>>>)
    requires SameOperation(t, d, k, a, b, next, node, node', target, operands, bodies)
    requires SameProgram(r, NameResults(a, node, target, operands, bodies),
                         NameResults(b, node', target, operands, bodies))
    ensures SameProgram(r, ImportNode(t, d, k, a, next, node), ImportNode(t, d, k, b, next, node'))
  {
    OperationStep(t, d, k, a, next, node, target, operands, bodies);
    OperationStep(t, d, k, b, next, node', target, operands, bodies);
    Transport(r, NameResults(a, node, target, operands, bodies), NameResults(b, node', target, operands, bodies),
              ImportNode(t, d, k, a, next, node), ImportNode(t, d, k, b, next, node'));
  }

  lemma Transport(r: Renaming, a: Option<Emitted<Scopes>>, b: Option<Emitted<Scopes>>, a': Option<Emitted<Scopes>>,
                  b': Option<Emitted<Scopes>>)
    requires SameProgram(r, a, b) && a == a' && b == b'
    ensures SameProgram(r, a', b')
  {
  }

  lemma {:induction false} OperationStep(t: Dispatch, d: nat, k: Context, scopes: Scopes, next: Id, node: Node,
                                         target: Target,
                                         operands: Emitted<seq<Id>>, bodies: Option<Emitted<seq<Region>>>)
    requires target == t.resolve(k, node.domain, node.opType) && !target.Call?
    requires operands == Operands(scopes, node.inputs, t.operands(target), next)
    requires bodies == ImportBodies(t, d, k, scopes, operands.next + |node.outputs|, node.attrs)
    ensures ImportNode(t, d, k, scopes, next, node) == NameResults(scopes, node, target, operands, bodies)
  {
    OperationUnfolds(t, d, k, scopes, next, node, target);
  }

  lemma ResultsRenamed(r: Renaming, a: Scopes, b: Scopes, node: Node, target: Target, operands: Emitted<seq<Id>>,
                       bodies: Option<Emitted<seq<Region>>>)
    requires IsRenaming(r) && Renamed(r, a, b)
    ensures SameProgram(r, NameResults(a, node, target, operands, bodies),
                        NameResults(b, RenameNode(r, node), target, operands, bodies))
  {
    CallOfRenamed(r, target, node);
    AddResultsRenamed(r, a, b, node.outputs, operands.next);
  }

  lemma {:induction false} BodiesRenamed(r: Renaming, t: Dispatch, d: nat, k: Context, a: Scopes, b: Scopes, next: Id,
                                         attrs: seq<Attr>)
    requires IsRenaming(r) && Renamed(r, a, b) && DataCallsIn(t, k, attrs)
    ensures ImportBodies(t, d, k, a, next, attrs) == ImportBodies(t, d, k, b, next, RenameAttrs(r, attrs))
    decreases attrs, 0
  {
    if attrs != [] {
      assert RenameAttrs(r, attrs)[1..] == RenameAttrs(r, attrs[1..]);
      if attrs[0].value.Data? {
        BodiesRenamed(r, t, d, k, a, b, next, attrs[1..]);
      } else {
        GraphRenamed(r, t, d, k, a, b, next, attrs[0].value.graph);
        var first := ImportGraph(t, d, k, a, next, attrs[0].value.graph);
        if first.Some? {
          BodiesRenamed(r, t, d, k, a, b, first.value.next, attrs[1..]);
        }
      }
    }
  }

  lemma {:induction false} GraphRenamed(r: Renaming, t: Dispatch, d: nat, k: Context, a: Scopes, b: Scopes, next: Id,
                                        g: Graph)
    requires IsRenaming(r) && Renamed(r, a, b) && DataCalls(t, k, g.nodes)
    ensures ImportGraph(t, d, k, a, next, g) == ImportGraph(t, d, k, b, next, RenameGraph(r, g))
    decreases g, 0
  {
    EnterGraphRenamed(r, a, b, next, g);
    var inside, inside' := EnterGraph(a, next, g), EnterGraph(b, next, RenameGraph(r, g));
    if inside.Some? {
      var start := next + |g.initializers| + |GraphArgs(next, g)|;
      NodesRenamed(r, t, d, k, inside.value, inside'.value, start, g.nodes);
      var body, body' := ImportNodes(t, d, k, inside.value, start, g.nodes),
        ImportNodes(t, d, k, inside'.value, start, RenameNodes(r, g.nodes));
      if body.Some? {
        AllValuesRenamed(r, body.value.result, body'.value.result, g.outputs);
      }
    }
  }

  // ---------------------------------------------------------------- calls

  lemma {:induction false} CallNodeRenamed(r: Renaming, t: Dispatch, d: nat, k: Context, a: Scopes, b: Scopes,
                                           next: Id, node: Node, f: Function, fromSchema: bool)
    requires IsRenaming(r) && Renamed(r, a, b) && OnlyData(node.attrs) &&
      t.resolve(k, node.domain, node.opType) == Call(f, fromSchema)
    ensures SameProgram(r, ImportNode(t, d, k, a, next, node), ImportNode(t, d, k, b, next, RenameNode(r, node)))
  {
    CallFromRenamed(r, t, d, k, a, b, next, node, f, fromSchema);
    Transport(r, ImportCall(t, d, k, a, next, node, f, fromSchema),
              ImportCall(t, d, k, b, next, RenameNode(r, node), f, fromSchema),
              ImportNode(t, d, k, a, next, node), ImportNode(t, d, k, b, next, RenameNode(r, node)));
  }

  /** A call written in renamed code: the callee is not touched. */
  lemma CallFromRenamed(r: Renaming, t: Dispatch, d: nat, k: Context, a: Scopes, b: Scopes, next: Id, node: Node,
                        f: Function, fromSchema: bool)
    requires IsRenaming(r) && Renamed(r, a, b) && OnlyData(node.attrs)
    ensures SameProgram(r, ImportCall(t, d, k, a, next, node, f, fromSchema),
                        ImportCall(t, d, k, b, next, RenameNode(r, node), f, fromSchema))
  {
    RenamedData(r, node.attrs);
    ArgumentsRenamed(r, a, b, node, f, next);
    var args := Arguments(a, node, f, next);
    if d > 0 && args.Some? && EnterCall(node, f, args.value.result).Some? {
      var params := EnterCall(node, f, args.value.result).value;
      var inlined := ImportNodes(t, d - 1, BodyContext(k, f, fromSchema), params, args.value.next,
                                 SubstNodes(f.nodes, CallAttrs(f, node.attrs)));
      if inlined.Some? {
        LeaveCallRenamed(r, a, b, node, f, inlined.value.result);
      }
    }
  }

  lemma ArgumentsRenamed(r: Renaming, a: Scopes, b: Scopes, node: Node, f: Function, next: Id)
    requires IsRenaming(r) && Renamed(r, a, b)
    ensures Arguments(a, node, f, next) == Arguments(b, RenameNode(r, node), f, next)
  {
    OperandsRenamed(r, a, b, node.inputs, |f.inputs|, next);
    forall i | 0 <= i < |node.inputs|
      ensures Lookup(a, node.inputs[i]) == Lookup(b, Names(r, node.inputs)[i]) &&
        (node.inputs[i] == "" <==> Names(r, node.inputs)[i] == "")
    {
      NameAt(r, node.inputs, i);
      LookupRenamed(r, a, b, node.inputs[i]);
      EmptyStaysEmpty(r, node.inputs[i]);
    }
  }

  lemma LeaveCallRenamed(r: Renaming, a: Scopes, b: Scopes, node: Node, f: Function, inside: Scopes)
    requires IsRenaming(r) && Renamed(r, a, b)
    ensures RenamedTables(r, LeaveCall(a, node, f, inside), LeaveCall(b, RenameNode(r, node), f, inside))
  {
    var outputs := BoundValues(inside, f.outputs);
    if |outputs| <= |node.outputs| {
      NamesPrefix(r, node.outputs, |outputs|);
      AddAllRenamed(r, a, b, node.outputs[..|outputs|], outputs);
    }
  }

  predicate DataMap(am: AttrMap) { forall x :: x in am ==> am[x].Data? }

  lemma {:induction false} SubstRenamedNodes(r: Renaming, nodes: seq<Node>, am: AttrMap)
    requires DataMap(am)
    ensures SubstNodes(RenameNodes(r, nodes), am) == RenameNodes(r, SubstNodes(nodes, am))
    decreases nodes
  {
    if nodes != [] {
      SubstRenamedAttrs(r, nodes[0].attrs, am);
      SubstRenamedNodes(r, nodes[1..], am);
      assert RenameNodes(r, nodes)[1..] == RenameNodes(r, nodes[1..]);
      var s := SubstNodes(nodes, am);
      assert s[0] == SubstNode(nodes[0], am) && s[1..] == SubstNodes(nodes[1..], am);
    }
  }

  lemma {:induction false} SubstRenamedAttrs(r: Renaming, attrs: seq<Attr>, am: AttrMap)
    requires DataMap(am)
    ensures SubstAttrs(RenameAttrs(r, attrs), am) == RenameAttrs(r, SubstAttrs(attrs, am))
    decreases attrs
  {
    if attrs != [] {
      SubstRenamedAttrs(r, attrs[1..], am);
      assert RenameAttrs(r, attrs)[1..] == RenameAttrs(r, attrs[1..]);
      var a, rest := attrs[0], SubstAttrs(attrs[1..], am);
      if a.refName == "" && a.value.Subgraph? {
        var g := a.value.graph;
        SubstRenamedNodes(r, g.nodes, am);
        assert SubstValue(Subgraph(RenameGraph(r, g)), am)
          == Subgraph(RenameGraph(r, g.(nodes := SubstNodes(g.nodes, am))));
      }
      if ValueOf(a, am).Some? {
        var b := Attr(a.name, "", if a.refName == "" then SubstValue(a.value, am) else am[a.refName]);
        assert SubstAttrs(attrs, am) == [b] + rest;
        assert ([b] + rest)[1..] == rest;
      }
    }
  }

  /**
   * A function with its own names replaced by others is inlined to exactly the same program. So body names neither
   * capture caller names nor are captured by them.
   */
  lemma RenamingIsInvisible(r: Renaming, t: Dispatch, d: nat, k: Context, scopes: Scopes, next: Id, node: Node,
                            f: Function, fromSchema: bool)
    requires IsRenaming(r) && DataMap(CallAttrs(f, node.attrs))
    requires DataCalls(t, BodyContext(k, f, fromSchema), SubstNodes(f.nodes, CallAttrs(f, node.attrs)))
    ensures ImportCall(t, d, k, scopes, next, node, RenameFunction(r, f), fromSchema)
         == ImportCall(t, d, k, scopes, next, node, f, fromSchema)
  {
    var f', am := RenameFunction(r, f), CallAttrs(f, node.attrs);
    assert CallAttrs(f', node.attrs) == am;
    SubstRenamedNodes(r, f.nodes, am);
    var args := Arguments(scopes, node, f, next);
    if d > 0 && |node.inputs| <= |f.inputs| && |node.outputs| <= |f.outputs| && args.Some? {
      EnterCallRenamed(r, node, f, args.value.result);
      var params, params' := EnterCall(node, f, args.value.result), EnterCall(node, f', args.value.result);
      if params.Some? {
        var k', body := BodyContext(k, f, fromSchema), SubstNodes(f.nodes, am);
        NodesRenamed(r, t, d - 1, k', params.value, params'.value, args.value.next, body);
        var inlined, inlined' := ImportNodes(t, d - 1, k', params.value, args.value.next, body),
                                 ImportNodes(t, d - 1, k', params'.value, args.value.next, RenameNodes(r, body));
        if inlined.Some? {
          BoundValuesRenamed(r, inlined.value.result, inlined'.value.result, f.outputs);
        }
        CallInBoth(t, d, k, scopes, next, node, f, f', fromSchema, args.value);
      }
    }
  }

  /** What a call becomes with two functions whose bodies are imported to the same program. */
  lemma CallInBoth(t: Dispatch, d: nat, k: Context, scopes: Scopes, next: Id, node: Node, f: Function, f': Function,
                   fromSchema: bool, args: Emitted<seq<Id>>)
    requires d > 0 && |f.inputs| == |f'.inputs| && |f.outputs| == |f'.outputs| && f.opsets == f'.opsets
    requires Arguments(scopes, node, f, next) == Some(args) && Arguments(scopes, node, f', next) == Some(args)
    requires EnterCall(node, f, args.result).Some? && EnterCall(node, f', args.result).Some?
    requires var k' := BodyContext(k, f, fromSchema);
      var body, body' := SubstNodes(f.nodes, CallAttrs(f, node.attrs)), SubstNodes(f'.nodes, CallAttrs(f', node.attrs));
      var ra := ImportNodes(t, d - 1, k', EnterCall(node, f, args.result).value, args.next, body);
      var rb := ImportNodes(t, d - 1, k', EnterCall(node, f', args.result).value, args.next, body');
      && ra.Some? == rb.Some?
      && (ra.Some? ==> ra.value.ops == rb.value.ops && ra.value.next == rb.value.next &&
                       BoundValues(ra.value.result, f.outputs) == BoundValues(rb.value.result, f'.outputs))
    ensures ImportCall(t, d, k, scopes, next, node, f', fromSchema)
         == ImportCall(t, d, k, scopes, next, node, f, fromSchema)
  {
  }

  lemma EnterCallRenamed(r: Renaming, node: Node, f: Function, args: seq<Id>)
    requires IsRenaming(r) && |args| == |f.inputs|
    ensures RenamedTables(r, EnterCall(node, f, args), EnterCall(node, RenameFunction(r, f), args))
  {
    PushRenamed(r, [], [], CallScopeName(node, f));
    AddAllRenamed(r, Push([], CallScopeName(node, f)), Push([], CallScopeName(node, f)), f.inputs, args);
  }
}
