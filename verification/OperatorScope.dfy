/** Two contexts that give every node of a graph the same target give the graph the same meaning. */
module OperatorScope {
  import opened Wrappers
  import opened OnnxModel
  import opened GraphSemantics
  import opened FreeNames

  predicate NodesAlike(t: Dispatch, k: Context, k': Context, nodes: seq<Node>)
    decreases nodes
  {
    forall i :: 0 <= i < |nodes| ==> NodeAlike(t, k, k', nodes[i])
  }

  /** The node has the same target in both contexts, a called body the same context, and nested graphs likewise. */
  predicate NodeAlike(t: Dispatch, k: Context, k': Context, node: Node)
    decreases node
  {
    var target := t.resolve(k, node.domain, node.opType);
    && target == t.resolve(k', node.domain, node.opType)
    && (target.Call? ==> BodyContext(k, target.f, target.fromSchema) == BodyContext(k', target.f, target.fromSchema))
    && AttrsAlike(t, k, k', node.attrs)
  }

  predicate AttrsAlike(t: Dispatch, k: Context, k': Context, attrs: seq<Attr>)
    decreases attrs
  {
    forall i :: 0 <= i < |attrs| && attrs[i].refName == "" && attrs[i].value.Subgraph? ==>
      NodesAlike(t, k, k', attrs[i].value.graph.nodes)
  }

  lemma {:induction false} NodesInBoth(w: World, t: Dispatch, d: nat, k: Context, k': Context, nodes: seq<Node>,
                                       env: Env, ae: AttrEnv)
    requires NodesAlike(t, k, k', nodes)
    ensures EvalNodes(w, t, d, k, nodes, env, ae) == EvalNodes(w, t, d, k', nodes, env, ae)
    decreases d, 2, nodes, 0, 0
  {
    if nodes != [] {
      NodeInBoth(w, t, d, k, k', nodes[0], env, ae);
      var r := EvalNode(w, t, d, k, nodes[0], env, ae);
      if r.Some? {
        assert forall i :: 0 <= i < |nodes[1..]| ==> nodes[1..][i] == nodes[i + 1];
        NodesInBoth(w, t, d, k, k', nodes[1..], r.value, ae);
      }
    }
  }

  lemma {:induction false} NodeInBoth(w: World, t: Dispatch, d: nat, k: Context, k': Context, node: Node, env: Env,
                                      ae: AttrEnv)
    requires NodeAlike(t, k, k', node)
    ensures EvalNode(w, t, d, k, node, env, ae) == EvalNode(w, t, d, k', node, env, ae)
    decreases d, 2, node, 3, 0
  {
    var target := t.resolve(k, node.domain, node.opType);
    var vs := EvalInputs(w, env, node.inputs);
    if vs.Some? {
      if target.Call? {
        CallInBoth(w, t, d, k, k', node, target.f, target.fromSchema, vs.value, env, ae);
      } else {
        RunInBoth(w, t, d, k, k', node, CallOf(target, node, ae), PadInputs(vs.value, t.operands(target), w.none), env,
                  ae, [], w.fuel);
      }
    }
  }

  lemma {:induction false} CallInBoth(w: World, t: Dispatch, d: nat, k: Context, k': Context, node: Node, f: Function,
                                      fromSchema: bool,
                   args: seq<Value>, env: Env, ae: AttrEnv)
    requires AttrsAlike(t, k, k', node.attrs) && BodyContext(k, f, fromSchema) == BodyContext(k', f, fromSchema)
    ensures EvalCall(w, t, d, k, node, f, fromSchema, args, env, ae)
         == EvalCall(w, t, d, k', node, f, fromSchema, args, env, ae)
    decreases d, 2, node, 2, 0
  {
    if d > 0 {
      var defaults := Meanings(w, t, d, BodyContext(k, f, fromSchema), f.defaults, map[], map[]);
      MeaningsInBoth(w, t, d, k, k', node.attrs, env, ae);
      SameAsItself(d - 1, defaults);
      OverrideLocal(d - 1, f.attributes, Meanings(w, t, d, k, node.attrs, env, ae),
                    Meanings(w, t, d, k', node.attrs, env, ae), defaults, defaults);
      CallFromMeanings(w, t, d, k, k', node, f, fromSchema, args, env, env, ae, ae);
    }
  }

  lemma {:induction false} MeaningsInBoth(w: World, t: Dispatch, d: nat, k: Context, k': Context, attrs: seq<Attr>,
                                          env: Env, ae: AttrEnv)
    requires AttrsAlike(t, k, k', attrs) && d > 0
    ensures SameMeanings(d - 1, Meanings(w, t, d, k, attrs, env, ae), Meanings(w, t, d, k', attrs, env, ae))
    decreases d, 1, attrs
  {
    if attrs != [] {
      var n := |attrs| - 1;
      var last := attrs[n];
      MeaningsInBoth(w, t, d, k, k', attrs[..n], env, ae);
      if last.refName == "" {
        if last.value.Subgraph? {
          forall d': nat, args: seq<Value> | d' <= d - 1
            ensures EvalGraph(w, t, d', k, last.value.graph, env, args, ae)
                 == EvalGraph(w, t, d', k', last.value.graph, env, args, ae)
          {
            GraphInBoth(w, t, d', k, k', last.value.graph, env, args, ae);
          }
        }
        assert SameMeaning(d - 1, ValueMeaning(w, t, d, k, last.value, env, ae),
                           ValueMeaning(w, t, d, k', last.value, env, ae));
      }
    }
  }

  lemma {:induction false} RunInBoth(w: World, t: Dispatch, d: nat, k: Context, k': Context, node: Node, call: OpCall,
                                     inputs: seq<Value>,
                  env: Env, ae: AttrEnv, answers: seq<seq<Value>>, fuel: nat)
    requires AttrsAlike(t, k, k', node.attrs)
    ensures RunOp(w, t, d, k, node, call, inputs, env, ae, answers, fuel)
         == RunOp(w, t, d, k', node, call, inputs, env, ae, answers, fuel)
    decreases d, 2, node, 1, fuel
  {
    var step := w.operator(call, inputs, answers);
    if step.Ask? && fuel > 0 && step.body < |BodyAttrs(node.attrs, ae)| {
      var attr := node.attrs[BodyAttrs(node.attrs, ae)[step.body]];
      if attr.refName == "" {
        GraphInBoth(w, t, d, k, k', attr.value.graph, env, step.args, ae);
      }
      var answer := Answer(w, t, d, k, node, step.body, env, step.args, ae);
      if answer.Some? {
        RunInBoth(w, t, d, k, k', node, call, inputs, env, ae, answers + [answer.value], fuel - 1);
      }
    }
  }

  lemma {:induction false} GraphInBoth(w: World, t: Dispatch, d: nat, k: Context, k': Context, g: Graph, outer: Env,
                                       args: seq<Value>, ae: AttrEnv)
    requires NodesAlike(t, k, k', g.nodes)
    ensures EvalGraph(w, t, d, k, g, outer, args, ae) == EvalGraph(w, t, d, k', g, outer, args, ae)
    decreases d, 2, g, 0, 0
  {
    var names, vs := InitializerNames(g), InitializerValues(w, g);
    var parameters := ParameterNames(g.inputs, names);
    if |args| == |parameters| {
      NodesInBoth(w, t, d, k, k', g.nodes, BindAll(BindAll(outer, names, vs), parameters, args), ae);
    }
  }
}
