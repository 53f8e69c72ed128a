/**
 * Meaning of ONNX graphs, by name environments: a node reads the values of its input names and binds its
 * output names; a nested graph sees the names of the graphs around it; a function call evaluates the body in
 * an environment of its own that holds only the parameters. A graph that is passed to a function keeps the names
 * and operators of the place where it is written.
 */
module GraphSemantics {
  import opened Wrappers
  import opened OnnxModel
  import opened AttributeReferences
  import opened OpVersions

  /** Tensors and other run-time values. */
  type Value(!new, ==)

  type Env = map<Name, Value>

  // ---------------------------------------------------------------- operators

  datatype OpKind = Standard(key: HandlerKey) | Custom(functionName: string, domainName: string)

  /** All that an operator is told besides its input values. `bodies` names its nested graphs. */
  datatype OpCall = OpCall(kind: OpKind, data: seq<(Name, string)>, bodies: seq<Name>, results: nat)

  /**
   * An operator runs as a dialogue with its nested graphs: given its inputs and the answers so far, it asks
   * for one more evaluation of a nested graph, finishes, or faults. If, Loop and Scan are of this form.
   */
  datatype Step = Done(results: seq<Value>) | Ask(body: nat, args: seq<Value>) | Fault

  /** What is left open: the operators, the constants, the value of an omitted input, a bound on each dialogue. */
  datatype World = World(
    operator: (OpCall, seq<Value>, seq<seq<Value>>) -> Step,
    tensor: string -> Value,
    none: Value,
    fuel: nat)

  // ---------------------------------------------------------------- dispatch

  /** What a graph or function body may refer to: the opset per domain, and the model-local functions. */
  datatype Context = Context(opsets: map<string, int>, functions: map<string, Function>)

  /** How a node is treated: as an operator with a registered handler, a function call, or a custom operator. */
  datatype Target = Regular(key: HandlerKey) | Call(f: Function, fromSchema: bool) | Unknown

  /** How domain and operator name select the target, and how many operands a target expects (-1: any number). */
  datatype Dispatch = Dispatch(resolve: (Context, string, string) -> Target, operands: Target -> int)

  /** A schema's decomposition cannot see model-local functions; every body has its own opsets. */
  function BodyContext(k: Context, f: Function, fromSchema: bool): Context {
    Context(f.opsets, if fromSchema then map[] else k.functions)
  }

  // ---------------------------------------------------------------- helpers on values

  /** `vs` cut or padded with `none` to length `n`. */
  function Fit(vs: seq<Value>, n: nat, none: Value): (r: seq<Value>)
    ensures |r| == n
    ensures forall i :: 0 <= i < n ==> r[i] == if i < |vs| then vs[i] else none
  {
    seq(n, i requires 0 <= i => if i < |vs| then vs[i] else none)
  }

  /** Trailing omitted inputs are `none`; an operator of unknown arity (-1) gets what is there. */
  function PadInputs(vs: seq<Value>, expected: int, none: Value): seq<Value> {
    if expected <= |vs| then vs else Fit(vs, expected, none)
  }

  function EvalInputs(w: World, env: Env, inputs: seq<Name>): (r: Option<seq<Value>>)
    ensures r.Some? ==> |r.value| == |inputs|
  {
    if inputs == [] then Some([])
    else
      match EvalInputs(w, env, inputs[1..])
      case None => None
      case Some(rest) =>
        if inputs[0] == "" then Some([w.none] + rest)
        else if inputs[0] in env then Some([env[inputs[0]]] + rest)
        else None
  }

  /** Binds names to values in order; empty names are placeholders. */
  function BindAll(env: Env, names: seq<Name>, vs: seq<Value>): Env
    requires |names| == |vs|
    decreases |names|
  {
    if names == [] then env
    else BindAll(if names[0] == "" then env else env[names[0] := vs[0]], names[1..], vs[1..])
  }

  function ReadAll(env: Env, names: seq<Name>): (r: Option<seq<Value>>)
    ensures r.Some? ==> |r.value| == |names|
  {
    if names == [] then Some([])
    else
      match ReadAll(env, names[1..])
      case None => None
      case Some(rest) => if names[0] in env then Some([env[names[0]]] + rest) else None
  }

  // ---------------------------------------------------------------- attributes of a node

  /**
   * What an attribute of a call stands for inside the function's body: data, or a nested graph. The graph is asked
   * with the bound on call nesting that is left where it is used.
   */
  datatype Meaning = Plain(payload: string) | Nested(answer: (nat, seq<Value>) -> Option<seq<Value>>)

  type AttrEnv = map<Name, Meaning>

  function DataAttrs(attrs: seq<Attr>, ae: AttrEnv): seq<(Name, string)> {
    if attrs == [] then []
    else
      var a, rest := attrs[0], DataAttrs(attrs[1..], ae);
      if a.refName == "" then (if a.value.Data? then [(a.name, a.value.payload)] + rest else rest)
      else if a.refName in ae && ae[a.refName].Plain? then [(a.name, ae[a.refName].payload)] + rest
      else rest
  }

  predicate IsBody(a: Attr, ae: AttrEnv) {
    if a.refName == "" then a.value.Subgraph? else a.refName in ae && ae[a.refName].Nested?
  }

  /** Positions of the attributes that stand for nested graphs. */
  function BodyAttrs(attrs: seq<Attr>, ae: AttrEnv): (r: seq<nat>)
    ensures forall i :: 0 <= i < |r| ==> r[i] < |attrs| && IsBody(attrs[r[i]], ae)
  {
    BodyAttrsFrom(attrs, ae, 0)
  }

  function BodyAttrsFrom(attrs: seq<Attr>, ae: AttrEnv, from: nat): (r: seq<nat>)
    requires from <= |attrs|
    ensures forall i :: 0 <= i < |r| ==> r[i] < |attrs| && IsBody(attrs[r[i]], ae)
    decreases |attrs| - from
  {
    if from == |attrs| then []
    else
      var rest := BodyAttrsFrom(attrs, ae, from + 1);
      if IsBody(attrs[from], ae) then [from] + rest else rest
  }

  function NodeNameAttr(node: Node): seq<(Name, string)> {
    if node.name == "" then [] else [("onnx_node_name", node.name)]
  }

  function KindOf(target: Target, node: Node): OpKind {
    if target.Regular? then Standard(target.key) else Custom(node.opType, node.domain)
  }

  function CallOf(target: Target, node: Node, ae: AttrEnv): OpCall {
    OpCall(
      KindOf(target, node),
      DataAttrs(node.attrs, ae) + NodeNameAttr(node),
      AttrNames(node.attrs, BodyAttrs(node.attrs, ae)),
      |node.outputs|)
  }

  /** Names of the attributes at the given positions. */
  function AttrNames(attrs: seq<Attr>, positions: seq<nat>): seq<Name>
    requires forall i :: 0 <= i < |positions| ==> positions[i] < |attrs|
  {
    if positions == [] then [] else [attrs[positions[0]].name] + AttrNames(attrs, positions[1..])
  }

  // ---------------------------------------------------------------- evaluation

  /** `d` bounds the nesting of function calls. */
  function EvalNodes(w: World, t: Dispatch, d: nat, k: Context, nodes: seq<Node>, env: Env, ae: AttrEnv): Option<Env>
    decreases d, 2, nodes, 0, 0
  {
    if nodes == [] then Some(env)
    else
      match EvalNode(w, t, d, k, nodes[0], env, ae)
      case None => None
      case Some(env') => EvalNodes(w, t, d, k, nodes[1..], env', ae)
  }

  function EvalNode(w: World, t: Dispatch, d: nat, k: Context, node: Node, env: Env, ae: AttrEnv): Option<Env>
    decreases d, 2, node, 2, 0
  {
    var target := t.resolve(k, node.domain, node.opType);
    match EvalInputs(w, env, node.inputs)
    case None => None
    case Some(vs) =>
      if target.Call? then
        match EvalCall(w, t, d, k, node, target.f, target.fromSchema, vs, env, ae)
        case None => None
        case Some(results) => Some(BindAll(env, node.outputs, Fit(results, |node.outputs|, w.none)))
      else
        var inputs := PadInputs(vs, t.operands(target), w.none);
        match RunOp(w, t, d, k, node, CallOf(target, node, ae), inputs, env, ae, [], w.fuel)
        case None => None
        case Some(results) => Some(BindAll(env, node.outputs, Fit(results, |node.outputs|, w.none)))
  }

  /** Calling a function on argument values, from a place with the given names and attributes. */
  function EvalCall(w: World, t: Dispatch, d: nat, k: Context, node: Node, f: Function, fromSchema: bool,
                    args: seq<Value>, env: Env, ae: AttrEnv): Option<seq<Value>>
    decreases d, 2, node, 1, 0
  {
    if d == 0 || |args| > |f.inputs| || |node.outputs| > |f.outputs| then None
    else
      var params := BindAll(map[], f.inputs, Fit(args, |f.inputs|, w.none));
      var meanings := CallMeanings(w, t, d, k, node, f, fromSchema, env, ae);
      match EvalNodes(w, t, d - 1, BodyContext(k, f, fromSchema), f.nodes, params, meanings)
      case None => None
      case Some(env') => ReadAll(env', f.outputs)
  }

  /** A graph keeps the names, attributes and operators of the place where it is written. */
  function ValueMeaning(w: World, t: Dispatch, d: nat, k: Context, v: AttrValue, env: Env, ae: AttrEnv): Meaning
    decreases d, 0, v, 0
  {
    match v
    case Data(payload) => Plain(payload)
    case Subgraph(g) => Nested((d': nat, args) => if d' < d then EvalGraph(w, t, d', k, g, env, args, ae) else None)
  }

  /** What attributes stand for, by name; the last one of a name counts. */
  function Meanings(w: World, t: Dispatch, d: nat, k: Context, attrs: seq<Attr>, env: Env, ae: AttrEnv): AttrEnv
    decreases d, 0, attrs, 1
  {
    if attrs == [] then map[]
    else
      var last := attrs[|attrs| - 1];
      var front := Meanings(w, t, d, k, attrs[..|attrs| - 1], env, ae);
      if last.refName == "" then front[last.name := ValueMeaning(w, t, d, k, last.value, env, ae)]
      else if last.refName in ae then front[last.name := ae[last.refName]]
      else front
  }

  /**
   * The attributes of a call inside the body: declared ones given by the caller, in the caller's names, and defaults,
   * which see no names.
   */
  function CallMeanings(w: World, t: Dispatch, d: nat, k: Context, node: Node, f: Function, fromSchema: bool,
                        env: Env, ae: AttrEnv): AttrEnv
    decreases d, 1
  {
    Override(f.attributes, Meanings(w, t, d, k, node.attrs, env, ae),
             Meanings(w, t, d, BodyContext(k, f, fromSchema), f.defaults, map[], map[]))
  }

  function Override(declared: seq<Name>, caller: AttrEnv, defaults: AttrEnv): (r: AttrEnv)
    ensures forall x :: x in r <==> (x in declared && x in caller) || x in defaults
    ensures forall x :: x in r ==> r[x] == if x in caller then caller[x] else defaults[x]
  {
    map x | x in (set y | y in declared && y in caller) + defaults.Keys :: if x in caller then caller[x]
      else defaults[x]
  }

  /** Continues the dialogue of an operator with its nested graphs. */
  function RunOp(w: World, t: Dispatch, d: nat, k: Context, node: Node, call: OpCall, inputs: seq<Value>,
                 env: Env, ae: AttrEnv, answers: seq<seq<Value>>, fuel: nat): Option<seq<Value>>
    decreases d, 2, node, 1, fuel
  {
    match w.operator(call, inputs, answers)
    case Done(results) => Some(results)
    case Fault => None
    case Ask(body, args) =>
      if fuel == 0 || body >= |BodyAttrs(node.attrs, ae)| then None
      else
        match Answer(w, t, d, k, node, body, env, args, ae)
        case None => None
        case Some(vs) => RunOp(w, t, d, k, node, call, inputs, env, ae, answers + [vs], fuel - 1)
  }

  /** The answer of a nested graph, which may itself be given by an attribute reference. */
  function Answer(w: World, t: Dispatch, d: nat, k: Context, node: Node, body: nat, env: Env, args: seq<Value>,
                  ae: AttrEnv): Option<seq<Value>>
    requires body < |BodyAttrs(node.attrs, ae)|
    decreases d, 2, node, 0, 0
  {
    var attr := node.attrs[BodyAttrs(node.attrs, ae)[body]];
    if attr.refName == "" then EvalGraph(w, t, d, k, attr.value.graph, env, args, ae)
    else ae[attr.refName].answer(d, args)
  }

  function InitializerNames(g: Graph): seq<Name> {
    seq(|g.initializers|, i requires 0 <= i < |g.initializers| => g.initializers[i].name)
  }

  function InitializerValues(w: World, g: Graph): (r: seq<Value>)
    ensures |r| == |g.initializers|
  {
    seq(|g.initializers|, i requires 0 <= i < |g.initializers| => w.tensor(g.initializers[i].tensor))
  }

  /** The inputs that an argument must be given for: those without an initializer. */
  function ParameterNames(inputs: seq<Name>, initializers: seq<Name>): seq<Name> {
    if inputs == [] then []
    else if inputs[0] in initializers then ParameterNames(inputs[1..], initializers)
    else [inputs[0]] + ParameterNames(inputs[1..], initializers)
  }

  function EvalGraph(w: World, t: Dispatch, d: nat, k: Context, g: Graph, outer: Env, args: seq<Value>,
                     ae: AttrEnv): Option<seq<Value>>
    decreases d, 2, g, 0, 0
  {
    var parameters := ParameterNames(g.inputs, InitializerNames(g));
    if |args| != |parameters| then None
    else
      var env := BindAll(BindAll(outer, InitializerNames(g), InitializerValues(w, g)), parameters, args);
      match EvalNodes(w, t, d, k, g.nodes, env, ae)
      case None => None
      case Some(env') => ReadAll(env', g.outputs)
  }

  /** The environment inside a graph, before its nodes. */
  function GraphEnv(w: World, g: Graph, outer: Env, args: seq<Value>): Env
    requires |args| == |ParameterNames(g.inputs, InitializerNames(g))|
  {
    BindAll(BindAll(outer, InitializerNames(g), InitializerValues(w, g)),
            ParameterNames(g.inputs, InitializerNames(g)), args)
  }
}
