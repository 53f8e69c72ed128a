/**
 * What the importer computes, as functions on values: from a graph to a program, through a scoped symbol table.
 * `None` stands for a failed assertion, or a dereferenced null pointer, of the importer.
 */
module GraphImport {
  import opened Wrappers
  import opened OnnxModel
  import opened AttributeReferences
  import opened GraphSemantics
  import opened SsaProgram
  import opened SymbolTable

  type Scopes = seq<Scope<Id>>

  /** Emitted operations, and the next unused value. */
  datatype Emitted<T> = Emitted(result: T, next: Id, ops: seq<Op>)

  // ---------------------------------------------------------------- binding names

  /** Adds bindings to the innermost scope, in which the names must be new. */
  function AddAll(scopes: Scopes, names: seq<Name>, ids: seq<Id>): (r: Option<Scopes>)
    requires |names| == |ids|
    decreases |names|
  {
    if names == [] then Some(scopes)
    else if scopes == [] || names[0] in scopes[|scopes| - 1].names then None
    else AddAll(Add(scopes, names[0], ids[0]), names[1..], ids[1..])
  }

  /** Binds the named results of an operation; an empty name is a placeholder. */
  function AddResults(scopes: Scopes, names: seq<Name>, first: Id): (r: Option<Scopes>)
    decreases |names|
  {
    if names == [] then Some(scopes)
    else if names[0] == "" then AddResults(scopes, names[1..], first + 1)
    else if scopes == [] || names[0] in scopes[|scopes| - 1].names then None
    else AddResults(Add(scopes, names[0], first), names[1..], first + 1)
  }

  // ---------------------------------------------------------------- reading names

  /** Input values of an operation: an omitted one is a fresh none value, a name that is not found is left out. */
  function NodeInputs(scopes: Scopes, inputs: seq<Name>, next: Id): (r: Emitted<seq<Id>>)
    ensures r.next >= next && |r.result| <= |inputs|
  {
    if inputs == [] then Emitted([], next, [])
    else if inputs[0] == "" then
      var rest := NodeInputs(scopes, inputs[1..], next + 1);
      Emitted([next] + rest.result, rest.next, [NoneOp(next)] + rest.ops)
    else
      var rest := NodeInputs(scopes, inputs[1..], next);
      match Lookup(scopes, inputs[0])
      case Some(id) => Emitted([id] + rest.result, rest.next, rest.ops)
      case None => rest
  }

  /** `n` fresh none values. */
  function NoneValues(n: nat, next: Id): (r: Emitted<seq<Id>>)
    ensures r.result == Consecutive(next, n) && r.next == next + n
  {
    Emitted(Consecutive(next, n), next + n, seq(n, i requires 0 <= i => NoneOp(next + i)))
  }

  function NotNegative(n: int): nat {
    if n < 0 then 0 else n
  }

  /** All operands of an operation: its inputs, and none values for omitted trailing ones. */
  function Operands(scopes: Scopes, inputs: seq<Name>, expected: int, next: Id): (r: Emitted<seq<Id>>)
    ensures r.next >= next
  {
    var given := NodeInputs(scopes, inputs, next);
    var padding := NoneValues(NotNegative(expected - |given.result|), given.next);
    Emitted(given.result + padding.result, padding.next, given.ops + padding.ops)
  }

  /** The argument values of a call, one per parameter: every non-empty name must be found. */
  function Arguments(scopes: Scopes, node: Node, f: Function, next: Id): (r: Option<Emitted<seq<Id>>>)
    ensures r.Some? ==> |r.value.result| == |f.inputs| && r.value.next >= next
  {
    var r := Operands(scopes, node.inputs, |f.inputs|, next);
    if |r.result| == |f.inputs| && forall i :: 0 <= i < |node.inputs| ==>
      node.inputs[i] == "" || Lookup(scopes, node.inputs[i]).Some?
    then Some(r)
    else None
  }

  /** The values of those names that are bound. */
  function BoundValues(scopes: Scopes, names: seq<Name>): (r: seq<Id>)
    ensures |r| <= |names|
  {
    if names == [] then []
    else
      var rest := BoundValues(scopes, names[1..]);
      match Lookup(scopes, names[0])
      case Some(id) => [id] + rest
      case None => rest
  }

  function AllValues(scopes: Scopes, names: seq<Name>): (r: Option<seq<Id>>) {
    if forall i :: 0 <= i < |names| ==> Lookup(scopes, names[i]).Some? then Some(BoundValues(scopes, names)) else None
  }

  // ---------------------------------------------------------------- graphs

  function Constants(initializers: seq<Initializer>, next: Id): (ops: seq<Op>)
    ensures |ops| == |initializers|
  {
    seq(|initializers|, i requires 0 <= i < |initializers| => ConstantOp(next + i, initializers[i].tensor))
  }

  function ImportNodes(t: Dispatch, d: nat, k: Context, scopes: Scopes, next: Id,
                       nodes: seq<Node>): (r: Option<Emitted<Scopes>>)
    ensures r.Some? ==> r.value.next >= next
    decreases d, nodes, 0
  {
    if nodes == [] then Some(Emitted(scopes, next, []))
    else
      match ImportNode(t, d, k, scopes, next, nodes[0])
      case None => None
      case Some(first) =>
        match ImportNodes(t, d, k, first.result, first.next, nodes[1..])
        case None => None
        case Some(rest) => Some(Emitted(rest.result, rest.next, first.ops + rest.ops))
  }

  function ImportNode(t: Dispatch, d: nat, k: Context, scopes: Scopes, next: Id,
                      node: Node): (r: Option<Emitted<Scopes>>)
    ensures r.Some? ==> r.value.next >= next
    decreases d, node, 2
  {
    var target := t.resolve(k, node.domain, node.opType);
    if target.Call? then ImportCall(t, d, k, scopes, next, node, target.f, target.fromSchema)
    else ImportOperation(t, d, k, scopes, next, node, target)
  }

  function ImportOperation(t: Dispatch, d: nat, k: Context, scopes: Scopes, next: Id, node: Node,
                           target: Target): (r: Option<Emitted<Scopes>>)
    ensures r.Some? ==> r.value.next >= next
    decreases d, node, 1
  {
    var operands := Operands(scopes, node.inputs, t.operands(target), next);
    NameResults(scopes, node, target, operands, ImportBodies(t, d, k, scopes, operands.next + |node.outputs|,
      node.attrs))
  }

  /** An operation in one step: operands, regions, results. */
  lemma OperationUnfolds(t: Dispatch, d: nat, k: Context, scopes: Scopes, next: Id, node: Node, target: Target)
    ensures var operands := Operands(scopes, node.inputs, t.operands(target), next);
      ImportOperation(t, d, k, scopes, next, node, target)
      == NameResults(scopes, node, target, operands,
                     ImportBodies(t, d, k, scopes, operands.next + |node.outputs|, node.attrs))
  {
  }

  /** The operation itself, once its operands and regions are there; its results get their names. */
  function NameResults(scopes: Scopes, node: Node, target: Target, operands: Emitted<seq<Id>>,
                       bodies: Option<Emitted<seq<Region>>>)
    : (r: Option<Emitted<Scopes>>)
    ensures r.Some? ==> bodies.Some? && r.value.next == bodies.value.next
  {
    if bodies.None? then None
    else
      match AddResults(scopes, node.outputs, operands.next)
      case None => None
      case Some(named) =>
        var op := Operation(CallOf(target, node, map[]), operands.result, bodies.value.result, operands.next);
        Some(Emitted(named, bodies.value.next, operands.ops + [op]))
  }

  /** The regions of an operation, one per graph attribute. */
  function ImportBodies(t: Dispatch, d: nat, k: Context, scopes: Scopes, next: Id,
                        attrs: seq<Attr>): (r: Option<Emitted<seq<Region>>>)
    ensures r.Some? ==> r.value.next >= next
    decreases d, attrs, 0
  {
    if attrs == [] then Some(Emitted([], next, []))
    else if attrs[0].value.Data? then ImportBodies(t, d, k, scopes, next, attrs[1..])
    else
      match ImportGraph(t, d, k, scopes, next, attrs[0].value.graph)
      case None => None
      case Some(first) =>
        match ImportBodies(t, d, k, scopes, first.next, attrs[1..])
        case None => None
        case Some(rest) => Some(Emitted([first.result] + rest.result, rest.next, []))
  }

  /** A new scope that holds the initializers and the parameters of a graph. */
  function EnterGraph(scopes: Scopes, next: Id, g: Graph): Option<Scopes> {
    match AddAll(Push(scopes, GraphScope(g.name)), InitializerNames(g), Consecutive(next, |g.initializers|))
    case None => None
    case Some(scopes1) => AddAll(scopes1, ParameterNames(g.inputs, InitializerNames(g)), GraphArgs(next, g))
  }

  function GraphArgs(next: Id, g: Graph): seq<Id> {
    Consecutive(next + |g.initializers|, |ParameterNames(g.inputs, InitializerNames(g))|)
  }

  /** A graph becomes a region: constants for its initializers, arguments for its other inputs, then its nodes. */
  function ImportGraph(t: Dispatch, d: nat, k: Context, scopes: Scopes, next: Id,
                       g: Graph): (r: Option<Emitted<Region>>)
    ensures r.Some? ==> r.value.next >= next
    decreases d, g, 0
  {
    var args := GraphArgs(next, g);
    match EnterGraph(scopes, next, g)
    case None => None
    case Some(inside) =>
      match ImportNodes(t, d, k, inside, next + |g.initializers| + |args|, g.nodes)
      case None => None
      case Some(body) =>
        match AllValues(body.result, g.outputs)
        case None => None
        case Some(returned) =>
          Some(Emitted(Region(args, Constants(g.initializers, next) + body.ops, returned), body.next, []))
  }

  function CallScopeName(node: Node, f: Function): ScopeId {
    CallScope(node.name, node.opType, f.name)
  }

  /** A table of its own that holds only the parameters of a function. */
  function EnterCall(node: Node, f: Function, args: seq<Id>): Option<Scopes>
    requires |args| == |f.inputs|
  {
    AddAll(Push([], CallScopeName(node, f)), f.inputs, args)
  }

  /** The bound outputs of the function are given the output names of the caller, in order. */
  function LeaveCall(scopes: Scopes, node: Node, f: Function, inside: Scopes): Option<Scopes> {
    var outputs := BoundValues(inside, f.outputs);
    if |outputs| > |node.outputs| then None else AddAll(scopes, node.outputs[..|outputs|], outputs)
  }

  /** A call is inlined: the attribute references of its body are replaced, and the nodes imported in the new table. */
  function ImportCall(t: Dispatch, d: nat, k: Context, scopes: Scopes, next: Id, node: Node, f: Function,
                      fromSchema: bool): (r: Option<Emitted<Scopes>>)
    ensures r.Some? ==> r.value.next >= next
    decreases d, node, 1
  {
    if d == 0 || |node.inputs| > |f.inputs| || |node.outputs| > |f.outputs| then None
    else
      match Arguments(scopes, node, f, next)
      case None => None
      case Some(args) =>
        match EnterCall(node, f, args.result)
        case None => None
        case Some(params) =>
          var body := SubstNodes(f.nodes, CallAttrs(f, node.attrs));
          match ImportNodes(t, d - 1, BodyContext(k, f, fromSchema), params, args.next, body)
          case None => None
          case Some(inlined) =>
            match LeaveCall(scopes, node, f, inlined.result)
            case None => None
            case Some(scopes') => Some(Emitted(scopes', inlined.next, args.ops + inlined.ops))
  }
}
