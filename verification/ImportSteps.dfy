/** The steps of an import, put together: for working out what becomes of a given node or graph. */
module ImportSteps {
  import opened Wrappers
  import opened OnnxModel
  import opened AttributeReferences
  import opened GraphSemantics
  import opened SsaProgram
  import opened SymbolTable
  import opened GraphImport

  lemma OperationSteps(t: Dispatch, d: nat, k: Context, scopes: Scopes, next: Id, node: Node, target: Target,
                       operands: Emitted<seq<Id>>, bodies: Emitted<seq<Region>>, after: Scopes)
    requires t.resolve(k, node.domain, node.opType) == target && !target.Call?
    requires Operands(scopes, node.inputs, t.operands(target), next) == operands
    requires ImportBodies(t, d, k, scopes, operands.next + |node.outputs|, node.attrs) == Some(bodies)
    requires AddResults(scopes, node.outputs, operands.next) == Some(after)
    ensures var op := Operation(CallOf(target, node, map[]), operands.result, bodies.result, operands.next);
      ImportNode(t, d, k, scopes, next, node) == Some(Emitted(after, bodies.next, operands.ops + [op]))
  {
  }

  lemma CallSteps(t: Dispatch, d: nat, k: Context, scopes: Scopes, next: Id, node: Node, f: Function, fromSchema: bool,
                  args: Emitted<seq<Id>>, params: Scopes, inlined: Emitted<Scopes>, after: Scopes)
    requires d > 0 && |node.inputs| <= |f.inputs| && |node.outputs| <= |f.outputs|
    requires Arguments(scopes, node, f, next) == Some(args) && EnterCall(node, f, args.result) == Some(params)
    requires ImportNodes(t, d - 1, BodyContext(k, f, fromSchema), params, args.next,
                         SubstNodes(f.nodes, CallAttrs(f, node.attrs)))
          == Some(inlined)
    requires LeaveCall(scopes, node, f, inlined.result) == Some(after)
    ensures ImportCall(t, d, k, scopes, next, node, f, fromSchema)
         == Some(Emitted(after, inlined.next, args.ops + inlined.ops))
  {
  }

  lemma GraphSteps(t: Dispatch, d: nat, k: Context, scopes: Scopes, next: Id, g: Graph, inside: Scopes,
                   body: Emitted<Scopes>,
                   returned: seq<Id>)
    requires EnterGraph(scopes, next, g) == Some(inside)
    requires ImportNodes(t, d, k, inside, next + |g.initializers| + |GraphArgs(next, g)|, g.nodes) == Some(body)
    requires AllValues(body.result, g.outputs) == Some(returned)
    ensures ImportGraph(t, d, k, scopes, next, g)
         == Some(Emitted(Region(GraphArgs(next, g), Constants(g.initializers, next) + body.ops, returned), body.next,
                         []))
  {
  }

  lemma SingleNode(t: Dispatch, d: nat, k: Context, scopes: Scopes, next: Id, node: Node, e: Emitted<Scopes>)
    requires ImportNode(t, d, k, scopes, next, node) == Some(e)
    ensures ImportNodes(t, d, k, scopes, next, [node]) == Some(e)
  {
    assert [node][1..] == [] && e.ops + [] == e.ops;
    assert ImportNodes(t, d, k, e.result, e.next, []) == Some(Emitted(e.result, e.next, []));
  }

  lemma FoundOne(scopes: Scopes, x: Name, id: Id)
    requires x in Bindings(scopes) && Bindings(scopes)[x] == id
    ensures BoundValues(scopes, [x]) == [id] && AllValues(scopes, [x]) == Some([id])
  {
    LookupIsBinding(scopes, x);
    assert [x][1..] == [] && BoundValues(scopes, []) == [] && [id] + [] == [id];
  }

  lemma NoOperands(scopes: Scopes, next: Id)
    ensures Operands(scopes, [], -1, next) == Emitted([], next, [])
  {
    assert NodeInputs(scopes, [], next) == Emitted([], next, []);
    assert NoneValues(0, next) == Emitted([], next, []);
    var operands := Operands(scopes, [], -1, next);
    assert operands.result == [] && operands.ops == [];
  }

  lemma OneResult(scopes: Scopes, x: Name, id: Id)
    requires x != "" && scopes != [] && x !in scopes[|scopes| - 1].names
    ensures AddResults(scopes, [x], id) == Some(Add(scopes, x, id)) &&
      AddAll(scopes, [x], [id]) == Some(Add(scopes, x, id))
  {
    assert [x][1..] == [] && [id][1..] == [];
  }

  /** An operation without inputs and with one output. */
  lemma PlainOperation(t: Dispatch, d: nat, k: Context, scopes: Scopes, next: Id, node: Node, target: Target, x: Name,
                       bodies: Emitted<seq<Region>>)
    requires t.resolve(k, node.domain, node.opType) == target && !target.Call? && t.operands(target) == -1
    requires node.inputs == [] && node.outputs == [x] && x != "" && scopes != [] && x !in scopes[|scopes| - 1].names
    requires ImportBodies(t, d, k, scopes, next + 1, node.attrs) == Some(bodies)
    ensures ImportNode(t, d, k, scopes, next, node)
         == Some(Emitted(Add(scopes, x, next), bodies.next,
                         [Operation(CallOf(target, node, map[]), [], bodies.result, next)]))
  {
    NoOperands(scopes, next);
    OneResult(scopes, x, next);
    OperationSteps(t, d, k, scopes, next, node, target, Emitted([], next, []), bodies, Add(scopes, x, next));
    var op := Operation(CallOf(target, node, map[]), [], bodies.result, next);
    assert [] + [op] == [op];
  }

  lemma NoArguments(scopes: Scopes, node: Node, f: Function, next: Id)
    requires node.inputs == [] && f.inputs == []
    ensures Arguments(scopes, node, f, next) == Some(Emitted([], next, []))
    ensures EnterCall(node, f, []) == Some(Push([], CallScopeName(node, f)))
  {
    assert NodeInputs(scopes, [], next) == Emitted([], next, []);
    assert NoneValues(0, next) == Emitted([], next, []);
    var operands := Operands(scopes, [], 0, next);
    assert operands.result == [] && operands.ops == [];
  }

  /** A call without arguments and with one output. */
  lemma PlainCall(t: Dispatch, d: nat, k: Context, scopes: Scopes, next: Id, node: Node, f: Function, z: Name, y: Name,
                  inlined: Emitted<Scopes>, id: Id)
    requires d > 0 && node.inputs == [] && f.inputs == [] && node.outputs == [z] && f.outputs == [y]
    requires z != "" && scopes != [] && z !in scopes[|scopes| - 1].names
    requires ImportNodes(t, d - 1, BodyContext(k, f, false), Push([], CallScopeName(node, f)), next,
                         SubstNodes(f.nodes, CallAttrs(f, node.attrs)))
          == Some(inlined)
    requires BoundValues(inlined.result, [y]) == [id]
    ensures ImportCall(t, d, k, scopes, next, node, f, false)
         == Some(Emitted(Add(scopes, z, id), inlined.next, inlined.ops))
  {
    NoArguments(scopes, node, f, next);
    OneResult(scopes, z, id);
    assert [z][..1] == [z] && [] + inlined.ops == inlined.ops;
    CallSteps(t, d, k, scopes, next, node, f, false, Emitted([], next, []), Push([], CallScopeName(node, f)), inlined,
              Add(scopes, z, id));
  }

  /** A graph without initializers and inputs, and with one output. */
  lemma PlainGraph(t: Dispatch, d: nat, k: Context, scopes: Scopes, next: Id, g: Graph, x: Name, body: Emitted<Scopes>,
                   id: Id)
    requires g.initializers == [] && g.inputs == [] && g.outputs == [x]
    requires ImportNodes(t, d, k, Push(scopes, GraphScope(g.name)), next, g.nodes) == Some(body)
    requires x in Bindings(body.result) && Bindings(body.result)[x] == id
    ensures ImportGraph(t, d, k, scopes, next, g) == Some(Emitted(Region([], body.ops, [id]), body.next, []))
  {
    var inside := Push(scopes, GraphScope(g.name));
    assert InitializerNames(g) == [] && GraphArgs(next, g) == [];
    assert EnterGraph(scopes, next, g) == Some(inside);
    FoundOne(body.result, x, id);
    assert Constants([], next) + body.ops == body.ops;
    GraphSteps(t, d, k, scopes, next, g, inside, body, [id]);
  }

  lemma TwoNodes(t: Dispatch, d: nat, k: Context, scopes: Scopes, next: Id, a: Node, b: Node, first: Emitted<Scopes>,
                 second: Emitted<Scopes>,
                 ops: seq<Op>)
    requires ImportNode(t, d, k, scopes, next, a) == Some(first) &&
      ImportNodes(t, d, k, first.result, first.next, [b]) == Some(second)
    requires first.ops + second.ops == ops
    ensures ImportNodes(t, d, k, scopes, next, [a, b]) == Some(Emitted(second.result, second.next, ops))
  {
    assert [a, b][1..] == [b];
  }
}
