/**
 * What an emitted operation and an emitted region say, read off the node and the graph: the kind, data attributes and
 * regions of an operation in the order of the node's attributes, and the head of a region.
 */
module EmittedOperations {
  import opened Wrappers
  import opened OnnxModel
  import opened AttributeReferences
  import opened GraphSemantics
  import opened SsaProgram
  import opened SymbolTable
  import opened GraphImport
  import opened PassedOperators

  // ---------------------------------------------------------------- attributes, by position

  /** The positions are those chosen, each once and in order. */
  ghost predicate Selects(positions: seq<nat>, chosen: set<nat>) {
    && (forall i, j :: 0 <= i < j < |positions| ==> positions[i] < positions[j])
    && forall p :: p in positions <==> p in chosen
  }

  function DataPositions(attrs: seq<Attr>): set<nat> {
    set p: nat | p < |attrs| && attrs[p].value.Data?
  }

  function GraphPositions(attrs: seq<Attr>): set<nat> {
    set p: nat | p < |attrs| && attrs[p].value.Subgraph?
  }

  /** The pairs are name and payload of the attributes at the positions. */
  ghost predicate AreDataAt(data: seq<(Name, string)>, attrs: seq<Attr>, positions: seq<nat>) {
    && |data| == |positions|
    && forall i :: 0 <= i < |data| ==>
      && positions[i] < |attrs| && attrs[positions[i]].value == Data(data[i].1) && attrs[positions[i]].name == data[i].0
  }

  ghost predicate AreNamesAt(names: seq<Name>, attrs: seq<Attr>, positions: seq<nat>) {
    && |names| == |positions|
    && forall i :: 0 <= i < |names| ==> positions[i] < |attrs| && names[i] == attrs[positions[i]].name
  }

  /** `positions` moved behind a new first element, which is chosen or not. */
  function Behind(positions: seq<nat>, first: bool): seq<nat> {
    (if first then [0] else []) + seq(|positions|, i requires 0 <= i < |positions| => positions[i] + 1)
  }

  lemma SelectsBehind(positions: seq<nat>, chosen: set<nat>, first: bool, more: set<nat>)
    requires Selects(positions, chosen)
    requires forall p: nat :: p in more <==> if p == 0 then first else p - 1 in chosen
    ensures Selects(Behind(positions, first), more)
  {
    var moved, head := Behind(positions, first), if first then 1 else 0;
    forall p: nat ensures p in moved <==> p in more {
      if p in more && p > 0 {
        var i :| 0 <= i < |positions| && positions[i] == p - 1;
        assert moved[head + i] == p;
      }
      if p in moved {
        var i :| 0 <= i < |moved| && moved[i] == p;
        assert i >= head ==> positions[i - head] in positions;
      }
      assert first ==> moved[0] == 0;
    }
  }

  lemma {:induction false} DataAreListed(attrs: seq<Attr>) returns (positions: seq<nat>)
    requires RefFreeAttrs(attrs)
    ensures Selects(positions, DataPositions(attrs)) && AreDataAt(DataAttrs(attrs, map[]), attrs, positions)
  {
    if attrs == [] {
      positions := [];
    } else {
      var rest := DataAreListed(attrs[1..]);
      positions := Behind(rest, attrs[0].value.Data?);
      SelectsBehind(rest, DataPositions(attrs[1..]), attrs[0].value.Data?, DataPositions(attrs));
    }
  }

  /** The positions of the nested graphs are listed in order. */
  lemma {:induction false} BodiesAreListed(attrs: seq<Attr>, from: nat)
    requires RefFreeAttrs(attrs) && from <= |attrs|
    ensures Selects(BodyAttrsFrom(attrs, map[], from), set p: nat | from <= p < |attrs| && attrs[p].value.Subgraph?)
    decreases |attrs| - from
  {
    if from < |attrs| {
      BodiesAreListed(attrs, from + 1);
      var rest, all := BodyAttrsFrom(attrs, map[], from + 1), BodyAttrsFrom(attrs, map[], from);
      assert forall i :: 0 <= i < |rest| ==> rest[i] in rest;
      if IsBody(attrs[from], map[]) {
        assert all == [from] + rest;
      }
    }
  }

  lemma {:induction false} NamesAreListed(attrs: seq<Attr>, positions: seq<nat>)
    requires forall i :: 0 <= i < |positions| ==> positions[i] < |attrs|
    ensures AreNamesAt(AttrNames(attrs, positions), attrs, positions)
  {
    if positions != [] {
      NamesAreListed(attrs, positions[1..]);
    }
  }

  /** There is only one list of the chosen positions. */
  lemma {:induction false} SelectsOnce(a: seq<nat>, b: seq<nat>, chosen: set<nat>)
    requires Selects(a, chosen) && Selects(b, chosen)
    ensures a == b
    decreases |a|
  {
    if a == [] {
      FirstIsMember(b);
    } else {
      FirstIsMember(a);
      FirstIsMember(b);
      var rest := chosen - {a[0]};
      FirstIsLeast(a, chosen);
      FirstIsLeast(b, chosen);
      SelectsOnce(a[1..], b[1..], rest);
    }
  }

  lemma FirstIsMember(a: seq<nat>)
    ensures a == [] || a[0] in a
  {
  }

  lemma FirstIsLeast(a: seq<nat>, chosen: set<nat>)
    requires a != [] && Selects(a, chosen)
    ensures a[0] in chosen && forall p :: p in chosen ==> a[0] <= p
    ensures Selects(a[1..], chosen - {a[0]})
  {
    assert a == [a[0]] + a[1..] && a[0] in a;
  }

  // ---------------------------------------------------------------- operations

  /** The region is what the graph is imported to, at some count of values. */
  ghost predicate IsRegionOf(t: Dispatch, d: nat, k: Context, scopes: Scopes, region: Region, g: Graph) {
    exists first :: HasRegion(ImportGraph(t, d, k, scopes, first, g), region)
  }

  ghost predicate HasRegion(e: Option<Emitted<Region>>, region: Region) { e.Some? && e.value.result == region }

  ghost predicate IsRegionAt(t: Dispatch, d: nat, k: Context, scopes: Scopes, region: Region, attrs: seq<Attr>,
                             p: nat) {
    p < |attrs| && attrs[p].value.Subgraph? && IsRegionOf(t, d, k, scopes, region, attrs[p].value.graph)
  }

  ghost predicate AreRegionsAt(t: Dispatch, d: nat, k: Context, scopes: Scopes, regions: seq<Region>,
                               attrs: seq<Attr>, positions: seq<nat>) {
    && |regions| == |positions|
    && forall i :: 0 <= i < |regions| ==> IsRegionAt(t, d, k, scopes, regions[i], attrs, positions[i])
  }

  lemma {:induction false} RegionsAreListed(t: Dispatch, d: nat, k: Context, scopes: Scopes, next: Id, attrs: seq<Attr>)
      returns (positions: seq<nat>)
    requires ImportBodies(t, d, k, scopes, next, attrs).Some?
    ensures Selects(positions, GraphPositions(attrs))
    ensures AreRegionsAt(t, d, k, scopes, ImportBodies(t, d, k, scopes, next, attrs).value.result, attrs, positions)
    decreases |attrs|
  {
    if attrs == [] {
      positions := [];
    } else {
      var rest;
      var all := ImportBodies(t, d, k, scopes, next, attrs).value.result;
      if attrs[0].value.Data? {
        rest := RegionsAreListed(t, d, k, scopes, next, attrs[1..]);
        positions := Behind(rest, false);
        RegionsBehind(t, d, k, scopes, all, attrs, rest);
      } else {
        var first := ImportGraph(t, d, k, scopes, next, attrs[0].value.graph);
        var others := ImportBodies(t, d, k, scopes, first.value.next, attrs[1..]).value.result;
        rest := RegionsAreListed(t, d, k, scopes, first.value.next, attrs[1..]);
        positions := Behind(rest, true);
        assert HasRegion(first, first.value.result);
        RegionsInFront(t, d, k, scopes, first.value.result, others, attrs, rest);
      }
      SelectsBehind(rest, GraphPositions(attrs[1..]), attrs[0].value.Subgraph?, GraphPositions(attrs));
    }
  }

  lemma RegionBehind(t: Dispatch, d: nat, k: Context, scopes: Scopes, region: Region, attrs: seq<Attr>, p: nat)
    requires attrs != [] && IsRegionAt(t, d, k, scopes, region, attrs[1..], p)
    ensures IsRegionAt(t, d, k, scopes, region, attrs, p + 1)
  {
    assert attrs[1..][p] == attrs[p + 1];
  }

  lemma RegionsBehind(t: Dispatch, d: nat, k: Context, scopes: Scopes, rest: seq<Region>, attrs: seq<Attr>,
                      positions: seq<nat>)
    requires attrs != [] && AreRegionsAt(t, d, k, scopes, rest, attrs[1..], positions)
    ensures AreRegionsAt(t, d, k, scopes, rest, attrs, Behind(positions, false))
  {
    forall i | 0 <= i < |rest| ensures IsRegionAt(t, d, k, scopes, rest[i], attrs, Behind(positions, false)[i]) {
      RegionBehind(t, d, k, scopes, rest[i], attrs, positions[i]);
    }
  }

  lemma BehindZero(positions: seq<nat>)
    ensures Behind(positions, true) == [0] + Behind(positions, false)
  {
  }

  lemma RegionsInFront(t: Dispatch, d: nat, k: Context, scopes: Scopes, region: Region, rest: seq<Region>,
                       attrs: seq<Attr>, positions: seq<nat>)
    requires attrs != [] && IsRegionAt(t, d, k, scopes, region, attrs, 0)
    requires AreRegionsAt(t, d, k, scopes, rest, attrs[1..], positions)
    ensures AreRegionsAt(t, d, k, scopes, [region] + rest, attrs, Behind(positions, true))
  {
    RegionsBehind(t, d, k, scopes, rest, attrs, positions);
    BehindZero(positions);
    RegionInFront(t, d, k, scopes, region, rest, attrs, Behind(positions, false));
  }

  lemma RegionInFront(t: Dispatch, d: nat, k: Context, scopes: Scopes, region: Region, rest: seq<Region>,
                      attrs: seq<Attr>, positions: seq<nat>)
    requires IsRegionAt(t, d, k, scopes, region, attrs, 0) && AreRegionsAt(t, d, k, scopes, rest, attrs, positions)
    ensures AreRegionsAt(t, d, k, scopes, [region] + rest, attrs, [0] + positions)
  {
  }

  /** What the operation of a node is called: the handler's, or a custom operation with the node's own names. */
  ghost predicate IsKindOf(kind: OpKind, target: Target, node: Node) {
    match target
    case Regular(key) => kind == Standard(key)
    case Unknown => kind == Custom(node.opType, node.domain)
    case Call(_, _) => false
  }

  /**
   * The call holds the node's data attributes in order, then the node's name if it has one; it names the attributes
   * that are graphs in order, and has as many results as the node has outputs.
   */
  lemma CallSays(target: Target, node: Node) returns (data: seq<(Name, string)>, plain: seq<nat>, graphs: seq<nat>)
    requires RefFreeAttrs(node.attrs) && !target.Call?
    ensures var call := CallOf(target, node, map[]);
      && IsKindOf(call.kind, target, node) && call.results == |node.outputs|
      && call.data == (if node.name == "" then data else data + [("onnx_node_name", node.name)])
      && AreNamesAt(call.bodies, node.attrs, graphs)
    ensures Selects(plain, DataPositions(node.attrs)) && AreDataAt(data, node.attrs, plain)
    ensures Selects(graphs, GraphPositions(node.attrs))
  {
    data, graphs := DataAttrs(node.attrs, map[]), BodyAttrs(node.attrs, map[]);
    plain := DataAreListed(node.attrs);
    BodiesAreListed(node.attrs, 0);
    assert GraphPositions(node.attrs) == set p: nat | 0 <= p < |node.attrs| && node.attrs[p].value.Subgraph?;
    NamesAreListed(node.attrs, graphs);
  }

  /**
   * The emitted operation says so of the node, with its kind from the node's target, and has one region for each
   * attribute that is a graph, in order: what that graph is imported to.
   */
  lemma OperationSays(t: Dispatch, d: nat, k: Context, scopes: Scopes, next: Id, node: Node)
      returns (none: seq<Op>, op: Op, data: seq<(Name, string)>, plain: seq<nat>, graphs: seq<nat>)
    requires RefFreeAttrs(node.attrs) && !t.resolve(k, node.domain, node.opType).Call?
    requires ImportNode(t, d, k, scopes, next, node).Some?
    ensures ImportNode(t, d, k, scopes, next, node).value.ops == none + [op] && AllNone(none) && op.Operation?
    ensures IsKindOf(op.call.kind, t.resolve(k, node.domain, node.opType), node)
    ensures Selects(plain, DataPositions(node.attrs)) && AreDataAt(data, node.attrs, plain)
    ensures op.call.data == if node.name == "" then data else data + [("onnx_node_name", node.name)]
    ensures Selects(graphs, GraphPositions(node.attrs)) && AreNamesAt(op.call.bodies, node.attrs, graphs)
    ensures AreRegionsAt(t, d, k, scopes, op.regions, node.attrs, graphs) && op.call.results == |node.outputs|
  {
    var bodies, first;
    none, op, bodies, first := LastOperation(t, d, k, scopes, next, node);
    data, plain, graphs := CallSays(t.resolve(k, node.domain, node.opType), node);
    var positions := RegionsAreListed(t, d, k, scopes, first, node.attrs);
    SelectsOnce(graphs, positions, GraphPositions(node.attrs));
  }

  lemma LastOperation(t: Dispatch, d: nat, k: Context, scopes: Scopes, next: Id, node: Node)
      returns (none: seq<Op>, op: Op, bodies: Emitted<seq<Region>>, first: Id)
    requires !t.resolve(k, node.domain, node.opType).Call? && ImportNode(t, d, k, scopes, next, node).Some?
    ensures AllNone(none) && ImportNode(t, d, k, scopes, next, node).value.ops == none + [op]
    ensures op.Operation? && op.call == CallOf(t.resolve(k, node.domain, node.opType), node, map[])
    ensures op.regions == bodies.result && ImportBodies(t, d, k, scopes, first, node.attrs) == Some(bodies)
  {
    var expected := t.operands(t.resolve(k, node.domain, node.opType));
    op, bodies := EmittedOperation(t, d, k, scopes, next, node);
    OperandsEmitNone(scopes, node.inputs, expected, next);
    none := Operands(scopes, node.inputs, expected, next).ops;
    first := Operands(scopes, node.inputs, expected, next).next + |node.outputs|;
  }

  /** Nothing of the data attributes is lost: nodes that are called alike and have the same name have the same ones. */
  lemma SameCallSameData(target: Target, node: Node, target': Target, node': Node)
      returns (plain: seq<nat>, plain': seq<nat>)
    requires RefFreeAttrs(node.attrs) && RefFreeAttrs(node'.attrs) && !target.Call? && !target'.Call?
    requires CallOf(target, node, map[]) == CallOf(target', node', map[]) && node.name == node'.name
    ensures Selects(plain, DataPositions(node.attrs)) && Selects(plain', DataPositions(node'.attrs))
    ensures |plain| == |plain'|
    ensures forall i :: 0 <= i < |plain| ==>
      && plain[i] < |node.attrs| && plain'[i] < |node'.attrs|
      && node.attrs[plain[i]] == node'.attrs[plain'[i]]
  {
    var data, graphs, data', graphs';
    data, plain, graphs := CallSays(target, node);
    data', plain', graphs' := CallSays(target', node');
    var tail := if node.name == "" then [] else [("onnx_node_name", node.name)];
    assert data + tail == data' + tail;
    SameFront(data, data', tail);
  }

  lemma SameFront<T>(a: seq<T>, b: seq<T>, tail: seq<T>)
    requires a + tail == b + tail
    ensures a == b
  {
    assert |a| == |b|;
    assert a == (a + tail)[..|a|] && b == (b + tail)[..|b|];
  }

  // ---------------------------------------------------------------- the head of a region

  /** The inputs that no initializer has the name of. */
  function OpenInputs(g: Graph): set<nat> {
    set p: nat | p < |g.inputs| && forall i :: 0 <= i < |g.initializers| ==> g.initializers[i].name != g.inputs[p]
  }

  lemma {:induction false} ParametersAreListed(inputs: seq<Name>, initializers: seq<Name>)
      returns (positions: seq<nat>)
    ensures Selects(positions, set p: nat | p < |inputs| && inputs[p] !in initializers)
    ensures |ParameterNames(inputs, initializers)| == |positions|
    ensures forall i :: 0 <= i < |positions| ==>
      positions[i] < |inputs| && ParameterNames(inputs, initializers)[i] == inputs[positions[i]]
  {
    if inputs == [] {
      positions := [];
    } else {
      var rest := ParametersAreListed(inputs[1..], initializers);
      var first := inputs[0] !in initializers;
      positions := Behind(rest, first);
      var others := set p: nat | p < |inputs[1..]| && inputs[1..][p] !in initializers;
      var all := set p: nat | p < |inputs| && inputs[p] !in initializers;
      SelectsBehind(rest, others, first, all);
    }
  }

  /** Name `j` is bound to value `j` in the innermost scope, which keeps what it had; the other scopes stay. */
  lemma {:induction false} AddAllBinds(scopes: Scopes, names: seq<Name>, ids: seq<Id>, j: nat, x: Name)
    requires scopes != [] && |names| == |ids| && AddAll(scopes, names, ids).Some?
    ensures var r := AddAll(scopes, names, ids).value;
      && |r| == |scopes| && r[..|r| - 1] == scopes[..|r| - 1]
      && r[|r| - 1].identifier == scopes[|r| - 1].identifier
      && (j < |names| ==> names[j] in r[|r| - 1].names && r[|r| - 1].names[names[j]] == ids[j])
      && (x in scopes[|r| - 1].names ==> x in r[|r| - 1].names && r[|r| - 1].names[x] == scopes[|r| - 1].names[x])
    decreases |names|
  {
    if names != [] {
      AddAllBinds(Add(scopes, names[0], ids[0]), names[1..], ids[1..], if j == 0 then 0 else j - 1,
                  if j == 0 then names[0] else x);
      if j == 0 {
        AddAllBinds(Add(scopes, names[0], ids[0]), names[1..], ids[1..], 0, x);
      }
    }
  }

  /** The region's arguments are the open inputs, in order; its body begins with a constant for each initializer. */
  lemma RegionSays(t: Dispatch, d: nat, k: Context, scopes: Scopes, next: Id, g: Graph) returns (positions: seq<nat>)
    requires ImportGraph(t, d, k, scopes, next, g).Some?
    ensures Selects(positions, OpenInputs(g))
    ensures var region := ImportGraph(t, d, k, scopes, next, g).value.result;
      && |region.args| == |positions| && |region.body| >= |g.initializers|
      && forall i :: 0 <= i < |g.initializers| ==> region.body[i] == ConstantOp(next + i, g.initializers[i].tensor)
  {
    positions := ParametersAreListed(g.inputs, InitializerNames(g));
    InitializersNamed(g);
  }

  lemma InitializersNamed(g: Graph)
    ensures OpenInputs(g) == set p: nat | p < |g.inputs| && g.inputs[p] !in InitializerNames(g)
  {
    forall i | 0 <= i < |g.initializers| ensures g.initializers[i].name in InitializerNames(g) {
      assert InitializerNames(g)[i] == g.initializers[i].name;
    }
  }

  /** Inside a graph its initializers and open inputs are named, in a scope of their own around nothing else. */
  lemma HeadIsNamed(scopes: Scopes, next: Id, g: Graph, i: nat) returns (positions: seq<nat>)
    requires EnterGraph(scopes, next, g).Some?
    ensures Selects(positions, OpenInputs(g)) && |GraphArgs(next, g)| == |positions|
    ensures var inside := EnterGraph(scopes, next, g).value;
      && |inside| == |scopes| + 1 && inside[..|scopes|] == scopes && inside[|scopes|].identifier == GraphScope(g.name)
      && var names := inside[|scopes|].names;
      && (i < |g.initializers| ==> g.initializers[i].name in names && names[g.initializers[i].name] == next + i)
      && (i < |positions| ==>
        && positions[i] < |g.inputs| && g.inputs[positions[i]] in names
        && names[g.inputs[positions[i]]] == GraphArgs(next, g)[i])
  {
    var initializers, outer := InitializerNames(g), Push(scopes, GraphScope(g.name));
    var parameters, args := ParameterNames(g.inputs, initializers), GraphArgs(next, g);
    positions := ParametersAreListed(g.inputs, initializers);
    InitializersNamed(g);
    var x := if i < |initializers| then initializers[i] else "";
    AddAllBinds(outer, initializers, Consecutive(next, |g.initializers|), i, x);
    AddAllBinds(AddAll(outer, initializers, Consecutive(next, |g.initializers|)).value, parameters, args, i, x);
  }

  /** A body begins with a table of one scope, named after the node and the function, that holds the parameters. */
  lemma CallHeadIsNamed(node: Node, f: Function, args: seq<Id>, i: nat)
    requires |args| == |f.inputs| && EnterCall(node, f, args).Some?
    ensures var inside := EnterCall(node, f, args).value;
      && |inside| == 1 && inside[0].identifier == CallScope(node.name, node.opType, f.name)
      && (i < |args| ==> f.inputs[i] in inside[0].names && inside[0].names[f.inputs[i]] == args[i])
  {
    AddAllBinds(Push([], CallScope(node.name, node.opType, f.name)), f.inputs, args, i, "");
  }
}
