/**
 * The bound on the nesting of calls does not matter: where it is high enough, importing and evaluating with a higher
 * one give the same.
 */
module CallDepth {
  import opened Wrappers
  import opened OnnxModel
  import opened AttributeReferences
  import opened GraphSemantics
  import opened FreeNames
  import opened CallHygiene
  import opened CallRank
  import opened SsaProgram
  import opened SymbolTable
  import opened GraphImport
  import opened ProperNames
  import opened ImportSuccess
  import opened ImportCorrectness
  import opened FrontendImporter

  // ---------------------------------------------------------------- importing

  lemma {:induction false} DeeperNodes(t: Dispatch, d: nat, k: Context, scopes: Scopes, next: Id, nodes: seq<Node>)
    ensures var r := ImportNodes(t, d, k, scopes, next, nodes);
      r.Some? ==> ImportNodes(t, d + 1, k, scopes, next, nodes) == r
    decreases d, nodes, 0
  {
    if nodes != [] && ImportNodes(t, d, k, scopes, next, nodes).Some? {
      DeeperNode(t, d, k, scopes, next, nodes[0]);
      var first := ImportNode(t, d, k, scopes, next, nodes[0]).value;
      DeeperNodes(t, d, k, first.result, first.next, nodes[1..]);
    }
  }

  /** Once the bound on call nesting is high enough for the import to finish, raising it changes nothing. */
  lemma {:induction false} DeeperNode(t: Dispatch, d: nat, k: Context, scopes: Scopes, next: Id, node: Node)
    ensures var r := ImportNode(t, d, k, scopes, next, node);
      r.Some? ==> ImportNode(t, d + 1, k, scopes, next, node) == r
    decreases d, node, 1
  {
    var r := ImportNode(t, d, k, scopes, next, node);
    if r.Some? {
      var target := t.resolve(k, node.domain, node.opType);
      if target.Call? {
        CallParts(t, d, k, scopes, next, node, target.f, target.fromSchema, r.value);
        var args := Operands(scopes, node.inputs, |target.f.inputs|, next);
        DeeperNodes(t, d - 1, BodyContext(k, target.f, target.fromSchema),
                    EnterCall(node, target.f, args.result).value, args.next,
                    SubstNodes(target.f.nodes, CallAttrs(target.f, node.attrs)));
      } else {
        OperationParts(t, d, k, scopes, next, node, target, r.value);
        var operands := Operands(scopes, node.inputs, t.operands(target), next);
        DeeperBodies(t, d, k, scopes, operands.next + |node.outputs|, node.attrs);
      }
    }
  }

  lemma {:induction false} DeeperBodies(t: Dispatch, d: nat, k: Context, scopes: Scopes, next: Id, attrs: seq<Attr>)
    ensures var r := ImportBodies(t, d, k, scopes, next, attrs);
      r.Some? ==> ImportBodies(t, d + 1, k, scopes, next, attrs) == r
    decreases d, attrs, 0
  {
    if attrs != [] && ImportBodies(t, d, k, scopes, next, attrs).Some? {
      if attrs[0].value.Data? {
        DeeperBodies(t, d, k, scopes, next, attrs[1..]);
      } else {
        DeeperGraph(t, d, k, scopes, next, attrs[0].value.graph);
        DeeperBodies(t, d, k, scopes, ImportGraph(t, d, k, scopes, next, attrs[0].value.graph).value.next, attrs[1..]);
      }
    }
  }

  lemma {:induction false} DeeperGraph(t: Dispatch, d: nat, k: Context, scopes: Scopes, next: Id, g: Graph)
    ensures var r := ImportGraph(t, d, k, scopes, next, g); r.Some? ==> ImportGraph(t, d + 1, k, scopes, next, g) == r
    decreases d, g, 0
  {
    if ImportGraph(t, d, k, scopes, next, g).Some? {
      DeeperNodes(t, d, k, EnterGraph(scopes, next, g).value, next + |g.initializers| + |GraphArgs(next, g)|, g.nodes);
    }
  }

  // ---------------------------------------------------------------- evaluating

  lemma {:induction false} NodesSame(w: World, t: Dispatch, d: nat, k: Context, nodes: seq<Node>, env: Env)
    requires RefFreeNodes(nodes) && WellFormedNodes(t, d, k, nodes, env.Keys)
    ensures EvalNodes(w, t, d, k, nodes, env, map[]) == EvalNodes(w, t, d + 1, k, nodes, env, map[])
    decreases d, nodes, 0, 0
  {
    if nodes != [] {
      NodeSame(w, t, d, k, nodes[0], env);
      var results := NodeResults(w, t, d, k, nodes[0], env, map[]);
      if results.Some? {
        var next := EvalNode(w, t, d, k, nodes[0], env, map[]).value;
        BindAllKeys(env, nodes[0].outputs, Fit(results.value, |nodes[0].outputs|, w.none));
        NodesSame(w, t, d, k, nodes[1..], next);
      }
    }
  }

  lemma {:induction false} NodeSame(w: World, t: Dispatch, d: nat, k: Context, node: Node, env: Env)
    requires RefFreeAttrs(node.attrs) && WellFormedNode(t, d, k, node, env.Keys)
    ensures EvalNode(w, t, d, k, node, env, map[]) == EvalNode(w, t, d + 1, k, node, env, map[])
    decreases d, node, 3, 0
  {
    var target := t.resolve(k, node.domain, node.opType);
    var vs := EvalInputs(w, env, node.inputs);
    if vs.Some? {
      if target.Call? {
        CallSame(w, t, d, k, node, target.f, target.fromSchema, env, vs.value);
      } else {
        RunSame(w, t, d, k, node, CallOf(target, node, map[]), PadInputs(vs.value, t.operands(target), w.none), env,
                [], w.fuel);
      }
    }
  }

  lemma {:induction false} CallSame(w: World, t: Dispatch, d: nat, k: Context, node: Node, f: Function,
                                    fromSchema: bool, env: Env, vs: seq<Value>)
    requires RefFreeAttrs(node.attrs) && WellFormedCall(t, d, k, node, f, fromSchema) &&
      EvalInputs(w, env, node.inputs) == Some(vs)
    ensures EvalCall(w, t, d, k, node, f, fromSchema, vs, env, map[])
         == EvalCall(w, t, d + 1, k, node, f, fromSchema, vs, env, map[])
    decreases d, node, 2, 0
  {
    CallFormedDeeper(t, d, k, node, f, fromSchema);
    BodyIsFormed(t, d, k, node, f, fromSchema);
    WellFormedCallMeaning(w, t, d, k, node, f, fromSchema, env, vs);
    WellFormedCallMeaning(w, t, d + 1, k, node, f, fromSchema, env, vs);
    BindAllKeys(map[], f.inputs, Fit(vs, |f.inputs|, w.none));
    assert ParameterEnv(w, f, vs).Keys == NameSet(f.inputs);
    NodesSame(w, t, d - 1, BodyContext(k, f, fromSchema), SubstNodes(f.nodes, CallAttrs(f, node.attrs)),
              ParameterEnv(w, f, vs));
  }

  lemma {:induction false} RunSame(w: World, t: Dispatch, d: nat, k: Context, node: Node, call: OpCall,
                                   inputs: seq<Value>, env: Env,
                                   answers: seq<seq<Value>>, fuel: nat)
    requires RefFreeAttrs(node.attrs) && BodiesAreWellFormed(t, d, k, node.attrs, env.Keys)
    ensures RunOp(w, t, d, k, node, call, inputs, env, map[], answers, fuel)
         == RunOp(w, t, d + 1, k, node, call, inputs, env, map[], answers, fuel)
    decreases d, node, 1, fuel
  {
    var step := w.operator(call, inputs, answers);
    if step.Ask? && fuel > 0 && step.body < |BodyAttrs(node.attrs, map[])| {
      var attr := node.attrs[BodyAttrs(node.attrs, map[])[step.body]];
      assert attr.refName == "" && RefFreeValue(attr.value);
      GraphSame(w, t, d, k, attr.value.graph, env, step.args);
      var answer := Answer(w, t, d, k, node, step.body, env, step.args, map[]);
      RunAsks(w, t, d, k, node, call, inputs, env, map[], answers, fuel);
      RunAsks(w, t, d + 1, k, node, call, inputs, env, map[], answers, fuel);
      if answer.Some? {
        RunSame(w, t, d, k, node, call, inputs, env, answers + [answer.value], fuel - 1);
      }
    }
  }

  /** A graph that is well formed up to some nesting of calls means the same with any higher bound. */
  lemma {:induction false} GraphSame(w: World, t: Dispatch, d: nat, k: Context, g: Graph, outer: Env, args: seq<Value>)
    requires RefFreeNodes(g.nodes) && WellFormedGraph(t, d, k, g, outer.Keys)
    ensures EvalGraph(w, t, d, k, g, outer, args, map[]) == EvalGraph(w, t, d + 1, k, g, outer, args, map[])
    decreases d, g, 0, 0
  {
    var names, vs := InitializerNames(g), InitializerValues(w, g);
    var parameters := ParameterNames(g.inputs, names);
    if |args| == |parameters| {
      BindAllKeys(outer, names, vs);
      BindAllKeys(BindAll(outer, names, vs), parameters, args);
      NodesSame(w, t, d, k, g.nodes, BindAll(BindAll(outer, names, vs), parameters, args));
    }
  }

  /** Any two bounds under which a graph is well formed give it the same meaning. */
  lemma {:induction false} BoundsAgree(w: World, t: Dispatch, d: nat, d': nat, k: Context, g: Graph, outer: Env,
                                       args: seq<Value>)
    requires RefFreeNodes(g.nodes) && WellFormedGraph(t, d, k, g, outer.Keys) && d <= d'
    ensures WellFormedGraph(t, d', k, g, outer.Keys)
    ensures EvalGraph(w, t, d, k, g, outer, args, map[]) == EvalGraph(w, t, d', k, g, outer, args, map[])
    decreases d' - d
  {
    if d < d' {
      GraphSame(w, t, d, k, g, outer, args);
      GraphFormedDeeper(t, d, k, g, outer.Keys);
      BoundsAgree(w, t, d + 1, d', k, g, outer, args);
    }
  }
}
