/**
 * The names a graph reads from outside. What a graph computes depends on these names only, on what the attribute
 * references in it stand for, and on the targets of its nodes.
 */
module FreeNames {
  import opened Wrappers
  import opened OnnxModel
  import opened GraphSemantics

  function NameSet(names: seq<Name>): set<Name> {
    if names == [] then {} else (if names[0] == "" then {} else {names[0]}) + NameSet(names[1..])
  }

  function Defined(nodes: seq<Node>): set<Name> {
    if nodes == [] then {} else NameSet(nodes[0].outputs) + Defined(nodes[1..])
  }

  lemma {:induction false} NameSetMembers(names: seq<Name>)
    ensures forall x :: x in NameSet(names) <==> x in names && x != ""
    decreases |names|
  {
    if names != [] {
      NameSetMembers(names[1..]);
      assert forall x :: x in names <==> x == names[0] || x in names[1..];
    }
  }

  // ---------------------------------------------------------------- free names

  /** Names a node list reads from outside. */
  function FreeInNodes(nodes: seq<Node>): set<Name>
    decreases nodes, 0
  {
    if nodes == [] then {} else FreeInNode(nodes[0]) + (FreeInNodes(nodes[1..]) - NameSet(nodes[0].outputs))
  }

  function FreeInNode(node: Node): set<Name>
    decreases node, 1
  {
    NameSet(node.inputs) + FreeInAttrs(node.attrs)
  }

  function FreeInAttrs(attrs: seq<Attr>): set<Name>
    decreases attrs, 0
  {
    if attrs == [] then {}
    else
      (if attrs[0].refName == "" && attrs[0].value.Subgraph? then FreeInGraph(attrs[0].value.graph) else {}) +
      FreeInAttrs(attrs[1..])
  }

  /** Names of the initializers and parameters of a graph. */
  function HeaderNames(g: Graph): set<Name> {
    NameSet(InitializerNames(g)) + NameSet(ParameterNames(g.inputs, InitializerNames(g)))
  }

  function FreeInGraph(g: Graph): set<Name>
    decreases g, 0
  {
    (FreeInNodes(g.nodes) + ((set x | x in g.outputs) - Defined(g.nodes))) - HeaderNames(g)
  }

  lemma {:induction false} AttrIsFree(attrs: seq<Attr>, i: nat)
    requires i < |attrs| && attrs[i].refName == "" && attrs[i].value.Subgraph?
    ensures FreeInGraph(attrs[i].value.graph) <= FreeInAttrs(attrs)
    decreases |attrs|
  {
    if i > 0 {
      AttrIsFree(attrs[1..], i - 1);
    }
  }

  // ---------------------------------------------------------------- environments that agree

  /** The environments give the same values to the names. */
  ghost predicate AgreeOn(a: Env, b: Env, names: set<Name>) {
    forall x :: x in names ==> (x in a <==> x in b) && (x in a ==> a[x] == b[x])
  }

  ghost predicate AgreeAfter(a: Option<Env>, b: Option<Env>, names: set<Name>) {
    if a.Some? then b.Some? && AgreeOn(a.value, b.value, names) else b.None?
  }

  /** Two meanings that cannot be told apart with at most `d` nested calls. */
  ghost predicate SameMeaning(d: nat, m: Meaning, n: Meaning) {
    match m
    case Plain(payload) => n == Plain(payload)
    case Nested(_) => n.Nested? && forall d': nat, args: seq<Value> :: d' <= d ==>
      m.answer(d', args) == n.answer(d', args)
  }

  ghost predicate SameMeanings(d: nat, ae: AttrEnv, be: AttrEnv) {
    ae.Keys == be.Keys && forall x :: x in ae ==> SameMeaning(d, ae[x], be[x])
  }

  lemma {:induction false} InputsLocal(w: World, a: Env, b: Env, inputs: seq<Name>)
    requires AgreeOn(a, b, NameSet(inputs))
    ensures EvalInputs(w, a, inputs) == EvalInputs(w, b, inputs)
    decreases |inputs|
  {
    if inputs != [] {
      InputsLocal(w, a, b, inputs[1..]);
    }
  }

  lemma {:induction false} BindAllLocal(a: Env, b: Env, names: set<Name>, bound: seq<Name>, vs: seq<Value>)
    requires |bound| == |vs| && AgreeOn(a, b, names)
    ensures AgreeOn(BindAll(a, bound, vs), BindAll(b, bound, vs), names + NameSet(bound))
    decreases |bound|
  {
    if bound != [] {
      if bound[0] == "" {
        BindAllLocal(a, b, names, bound[1..], vs[1..]);
      } else {
        BindAllLocal(a[bound[0] := vs[0]], b[bound[0] := vs[0]], names + {bound[0]}, bound[1..], vs[1..]);
        assert names + {bound[0]} + NameSet(bound[1..]) == names + NameSet(bound);
      }
    }
  }

  lemma {:induction false} ReadAllLocal(a: Env, b: Env, names: seq<Name>)
    requires forall x :: x in names ==> (x in a <==> x in b) && (x in a ==> a[x] == b[x])
    ensures ReadAll(a, names) == ReadAll(b, names)
    decreases |names|
  {
    if names != [] {
      assert names[0] in names;
      ReadAllLocal(a, b, names[1..]);
    }
  }

  // ---------------------------------------------------------------- binding and reading

  lemma {:induction false} BindAllKeys(env: Env, names: seq<Name>, vs: seq<Value>)
    requires |names| == |vs|
    ensures BindAll(env, names, vs).Keys == env.Keys + NameSet(names)
    decreases |names|
  {
    if names != [] {
      BindAllKeys(if names[0] == "" then env else env[names[0] := vs[0]], names[1..], vs[1..]);
    }
  }

  lemma {:induction false} InputsBound(w: World, env: Env, inputs: seq<Name>)
    requires NameSet(inputs) <= env.Keys
    ensures EvalInputs(w, env, inputs).Some?
    decreases |inputs|
  {
    if inputs != [] {
      InputsBound(w, env, inputs[1..]);
    }
  }

  lemma ReadOne(env: Env, x: Name)
    ensures ReadAll(env, [x]) == if x in env then Some([env[x]]) else None
  {
    assert [x][1..] == [];
    assert ReadAll(env, []) == Some([]);
    assert x in env ==> [env[x]] + [] == [env[x]];
  }

  // ---------------------------------------------------------------- attributes that agree

  lemma {:induction false} DataAttrsLocal(d: nat, attrs: seq<Attr>, ae: AttrEnv, be: AttrEnv)
    requires SameMeanings(d, ae, be)
    ensures DataAttrs(attrs, ae) == DataAttrs(attrs, be)
  {
    if attrs != [] {
      DataAttrsLocal(d, attrs[1..], ae, be);
      var r := attrs[0].refName;
      assert r in ae ==> SameMeaning(d, ae[r], be[r]);
    }
  }

  lemma {:induction false} BodyAttrsLocal(d: nat, attrs: seq<Attr>, ae: AttrEnv, be: AttrEnv, from: nat)
    requires SameMeanings(d, ae, be) && from <= |attrs|
    ensures BodyAttrsFrom(attrs, ae, from) == BodyAttrsFrom(attrs, be, from)
    decreases |attrs| - from
  {
    if from < |attrs| {
      BodyAttrsLocal(d, attrs, ae, be, from + 1);
      var r := attrs[from].refName;
      assert r in ae ==> SameMeaning(d, ae[r], be[r]);
    }
  }

  lemma CallOfLocal(d: nat, target: Target, node: Node, ae: AttrEnv, be: AttrEnv)
    requires SameMeanings(d, ae, be)
    ensures CallOf(target, node, ae) == CallOf(target, node, be)
  {
    DataAttrsLocal(d, node.attrs, ae, be);
    BodyAttrsLocal(d, node.attrs, ae, be, 0);
  }

  lemma FewerCalls(d: nat, d': nat, ae: AttrEnv, be: AttrEnv)
    requires SameMeanings(d, ae, be) && d' <= d
    ensures SameMeanings(d', ae, be)
  {
    forall x | x in ae ensures SameMeaning(d', ae[x], be[x]) {
      assert SameMeaning(d, ae[x], be[x]);
    }
  }

  lemma OverrideLocal(d: nat, declared: seq<Name>, ae: AttrEnv, be: AttrEnv, defaults: AttrEnv, defaults': AttrEnv)
    requires SameMeanings(d, ae, be) && SameMeanings(d, defaults, defaults')
    ensures SameMeanings(d, Override(declared, ae, defaults), Override(declared, be, defaults'))
  {
  }

  lemma SameAsItself(d: nat, ae: AttrEnv)
    ensures SameMeanings(d, ae, ae)
  {
  }

  // ---------------------------------------------------------------- evaluation depends on the free names only

  lemma {:induction false} NodesLocal(w: World, t: Dispatch, d: nat, k: Context, nodes: seq<Node>, a: Env, b: Env,
                                      ae: AttrEnv, be: AttrEnv, names: set<Name>)
    requires FreeInNodes(nodes) <= names && AgreeOn(a, b, names) && SameMeanings(d, ae, be)
    ensures AgreeAfter(EvalNodes(w, t, d, k, nodes, a, ae), EvalNodes(w, t, d, k, nodes, b, be), names + Defined(nodes))
    decreases d, 2, nodes, 0, 0
  {
    if nodes != [] {
      NodeLocal(w, t, d, k, nodes[0], a, b, ae, be, names);
      var ra, rb := EvalNode(w, t, d, k, nodes[0], a, ae), EvalNode(w, t, d, k, nodes[0], b, be);
      if ra.Some? {
        var more := names + NameSet(nodes[0].outputs);
        NodesLocal(w, t, d, k, nodes[1..], ra.value, rb.value, ae, be, more);
        assert more + Defined(nodes[1..]) == names + Defined(nodes);
      }
    }
  }

  lemma {:induction false} NodeLocal(w: World, t: Dispatch, d: nat, k: Context, node: Node, a: Env, b: Env,
                                     ae: AttrEnv, be: AttrEnv, names: set<Name>)
    requires FreeInNode(node) <= names && AgreeOn(a, b, names) && SameMeanings(d, ae, be)
    ensures AgreeAfter(EvalNode(w, t, d, k, node, a, ae), EvalNode(w, t, d, k, node, b, be), names
      + NameSet(node.outputs))
    decreases d, 2, node, 4, 0
  {
    ResultsLocal(w, t, d, k, node, a, b, ae, be);
    var r := NodeResults(w, t, d, k, node, a, ae);
    if r.Some? {
      BindAllLocal(a, b, names, node.outputs, Fit(r.value, |node.outputs|, w.none));
    }
  }

  /** The values a node computes, before they are named. */
  function NodeResults(w: World, t: Dispatch, d: nat, k: Context, node: Node, env: Env,
                       ae: AttrEnv): Option<seq<Value>> {
    var target := t.resolve(k, node.domain, node.opType);
    match EvalInputs(w, env, node.inputs)
    case None => None
    case Some(vs) =>
      if target.Call? then EvalCall(w, t, d, k, node, target.f, target.fromSchema, vs, env, ae)
      else RunOp(w, t, d, k, node, CallOf(target, node, ae), PadInputs(vs, t.operands(target), w.none), env, ae, [],
                 w.fuel)
  }

  lemma {:induction false} ResultsLocal(w: World, t: Dispatch, d: nat, k: Context, node: Node, a: Env, b: Env,
                                        ae: AttrEnv, be: AttrEnv)
    requires AgreeOn(a, b, FreeInNode(node)) && SameMeanings(d, ae, be)
    ensures NodeResults(w, t, d, k, node, a, ae) == NodeResults(w, t, d, k, node, b, be)
    decreases d, 2, node, 3, 0
  {
    InputsLocal(w, a, b, node.inputs);
    var target := t.resolve(k, node.domain, node.opType);
    var vs := EvalInputs(w, a, node.inputs);
    if vs.Some? {
      if target.Call? {
        CallLocal(w, t, d, k, node, target.f, target.fromSchema, vs.value, a, b, ae, be);
      } else {
        CallOfLocal(d, target, node, ae, be);
        RunLocal(w, t, d, k, node, CallOf(target, node, ae), PadInputs(vs.value, t.operands(target), w.none), a, b, ae,
                 be, [], w.fuel);
      }
    }
  }

  lemma {:induction false} CallLocal(w: World, t: Dispatch, d: nat, k: Context, node: Node, f: Function,
                                     fromSchema: bool, args: seq<Value>,
                  a: Env, b: Env, ae: AttrEnv, be: AttrEnv)
    requires AgreeOn(a, b, FreeInAttrs(node.attrs)) && SameMeanings(d, ae, be)
    ensures EvalCall(w, t, d, k, node, f, fromSchema, args, a, ae)
         == EvalCall(w, t, d, k, node, f, fromSchema, args, b, be)
    decreases d, 2, node, 2, 0
  {
    if d > 0 {
      var defaults := Meanings(w, t, d, BodyContext(k, f, fromSchema), f.defaults, map[], map[]);
      MeaningsLocal(w, t, d, k, node.attrs, a, b, ae, be);
      SameAsItself(d - 1, defaults);
      OverrideLocal(d - 1, f.attributes, Meanings(w, t, d, k, node.attrs, a, ae),
                    Meanings(w, t, d, k, node.attrs, b, be), defaults, defaults);
      CallFromMeanings(w, t, d, k, k, node, f, fromSchema, args, a, b, ae, be);
    }
  }

  /** A call depends on what the attributes stand for in the body. */
  lemma {:induction false} CallFromMeanings(w: World, t: Dispatch, d: nat, k: Context, k': Context, node: Node,
                                            f: Function, fromSchema: bool,
                         args: seq<Value>, a: Env, b: Env, ae: AttrEnv, be: AttrEnv)
    requires d > 0 && BodyContext(k, f, fromSchema) == BodyContext(k', f, fromSchema)
    requires SameMeanings(d - 1, CallMeanings(w, t, d, k, node, f, fromSchema, a, ae),
                          CallMeanings(w, t, d, k', node, f, fromSchema, b, be))
    ensures EvalCall(w, t, d, k, node, f, fromSchema, args, a, ae)
         == EvalCall(w, t, d, k', node, f, fromSchema, args, b, be)
    decreases d, 2, node, 1, 0
  {
    if |args| <= |f.inputs| && |node.outputs| <= |f.outputs| {
      BodyLocal(w, t, d - 1, BodyContext(k, f, fromSchema), f, BindAll(map[], f.inputs, Fit(args, |f.inputs|, w.none)),
                CallMeanings(w, t, d, k, node, f, fromSchema, a, ae),
                  CallMeanings(w, t, d, k', node, f, fromSchema, b, be));
    }
  }

  /** Running a function's body depends on what its attributes stand for. */
  lemma {:induction false} BodyLocal(w: World, t: Dispatch, d: nat, k: Context, f: Function, params: Env, ae: AttrEnv,
                                     be: AttrEnv)
    requires SameMeanings(d, ae, be)
    ensures var ra, rb := EvalNodes(w, t, d, k, f.nodes, params, ae), EvalNodes(w, t, d, k, f.nodes, params, be);
      ra.Some? == rb.Some? && (ra.Some? ==> ReadAll(ra.value, f.outputs) == ReadAll(rb.value, f.outputs))
    decreases d, 2, f.nodes, 1, 0
  {
    var names := FreeInNodes(f.nodes) + set x | x in f.outputs;
    NodesLocal(w, t, d, k, f.nodes, params, params, ae, be, names);
    var ra, rb := EvalNodes(w, t, d, k, f.nodes, params, ae), EvalNodes(w, t, d, k, f.nodes, params, be);
    if ra.Some? {
      ReadAllLocal(ra.value, rb.value, f.outputs);
    }
  }

  lemma {:induction false} MeaningsLocal(w: World, t: Dispatch, d: nat, k: Context, attrs: seq<Attr>, a: Env, b: Env,
                                         ae: AttrEnv, be: AttrEnv)
    requires AgreeOn(a, b, FreeInAttrs(attrs)) && SameMeanings(d, ae, be) && d > 0
    ensures SameMeanings(d - 1, Meanings(w, t, d, k, attrs, a, ae), Meanings(w, t, d, k, attrs, b, be))
    decreases d, 1, attrs
  {
    if attrs != [] {
      var n := |attrs| - 1;
      var last := attrs[n];
      FreeInPrefix(attrs, n);
      MeaningsLocal(w, t, d, k, attrs[..n], a, b, ae, be);
      FewerCalls(d, d - 1, ae, be);
      if last.refName == "" {
        if last.value.Subgraph? {
          AttrIsFree(attrs, n);
          forall d': nat, args: seq<Value> | d' <= d - 1
            ensures EvalGraph(w, t, d', k, last.value.graph, a, args, ae)
                 == EvalGraph(w, t, d', k, last.value.graph, b, args, be)
          {
            FewerCalls(d, d', ae, be);
            GraphLocal(w, t, d', k, last.value.graph, a, b, ae, be, args);
          }
        }
        assert SameMeaning(d - 1, ValueMeaning(w, t, d, k, last.value, a, ae),
                           ValueMeaning(w, t, d, k, last.value, b, be));
      }
    }
  }

  lemma {:induction false} FreeInPrefix(attrs: seq<Attr>, n: nat)
    requires n <= |attrs|
    ensures FreeInAttrs(attrs[..n]) <= FreeInAttrs(attrs)
    decreases n
  {
    if n > 0 {
      FreeInPrefix(attrs[1..], n - 1);
      assert attrs[..n][1..] == attrs[1..][..n - 1];
    }
  }

  lemma RunAsks(w: World, t: Dispatch, d: nat, k: Context, node: Node, call: OpCall, inputs: seq<Value>, env: Env,
                ae: AttrEnv,
                answers: seq<seq<Value>>, fuel: nat)
    requires var step := w.operator(call, inputs, answers);
      step.Ask? && fuel > 0 && step.body < |BodyAttrs(node.attrs, ae)|
    ensures var step := w.operator(call, inputs, answers);
      var answer := Answer(w, t, d, k, node, step.body, env, step.args, ae);
      RunOp(w, t, d, k, node, call, inputs, env, ae, answers, fuel)
      == if answer.Some? then RunOp(w, t, d, k, node, call, inputs, env, ae, answers + [answer.value], fuel - 1)
        else None
  {
  }

  lemma {:induction false} RunLocal(w: World, t: Dispatch, d: nat, k: Context, node: Node, call: OpCall,
                                    inputs: seq<Value>, a: Env, b: Env,
                 ae: AttrEnv, be: AttrEnv, answers: seq<seq<Value>>, fuel: nat)
    requires AgreeOn(a, b, FreeInAttrs(node.attrs)) && SameMeanings(d, ae, be)
    ensures RunOp(w, t, d, k, node, call, inputs, a, ae, answers, fuel)
         == RunOp(w, t, d, k, node, call, inputs, b, be, answers, fuel)
    decreases d, 2, node, 1, fuel
  {
    var step := w.operator(call, inputs, answers);
    BodyAttrsLocal(d, node.attrs, ae, be, 0);
    if step.Ask? && fuel > 0 && step.body < |BodyAttrs(node.attrs, ae)| {
      AnswerLocal(w, t, d, k, node, step.body, a, b, ae, be, step.args);
      var answer := Answer(w, t, d, k, node, step.body, a, step.args, ae);
      RunAsks(w, t, d, k, node, call, inputs, a, ae, answers, fuel);
      RunAsks(w, t, d, k, node, call, inputs, b, be, answers, fuel);
      if answer.Some? {
        RunLocal(w, t, d, k, node, call, inputs, a, b, ae, be, answers + [answer.value], fuel - 1);
      }
    }
  }

  lemma {:induction false} AnswerLocal(w: World, t: Dispatch, d: nat, k: Context, node: Node, body: nat, a: Env,
                                       b: Env, ae: AttrEnv, be: AttrEnv, args: seq<Value>)
    requires AgreeOn(a, b, FreeInAttrs(node.attrs)) && SameMeanings(d, ae, be)
    requires BodyAttrs(node.attrs, ae) == BodyAttrs(node.attrs, be) && body < |BodyAttrs(node.attrs, ae)|
    ensures Answer(w, t, d, k, node, body, a, args, ae) == Answer(w, t, d, k, node, body, b, args, be)
    decreases d, 2, node, 0, 0
  {
    var i := BodyAttrs(node.attrs, ae)[body];
    var attr := node.attrs[i];
    if attr.refName == "" {
      AttrIsFree(node.attrs, i);
      GraphLocal(w, t, d, k, attr.value.graph, a, b, ae, be, args);
    } else {
      assert SameMeaning(d, ae[attr.refName], be[attr.refName]);
    }
  }

  lemma {:induction false} GraphLocal(w: World, t: Dispatch, d: nat, k: Context, g: Graph, a: Env, b: Env, ae: AttrEnv,
                                      be: AttrEnv, args: seq<Value>)
    requires AgreeOn(a, b, FreeInGraph(g)) && SameMeanings(d, ae, be)
    ensures EvalGraph(w, t, d, k, g, a, args, ae) == EvalGraph(w, t, d, k, g, b, args, be)
    decreases d, 2, g, 0, 0
  {
    var names, vs := InitializerNames(g), InitializerValues(w, g);
    var parameters := ParameterNames(g.inputs, names);
    if |args| == |parameters| {
      var free := FreeInGraph(g);
      BindAllLocal(a, b, free, names, vs);
      BindAllLocal(BindAll(a, names, vs), BindAll(b, names, vs), free + NameSet(names), parameters, args);
      var a', b' := BindAll(BindAll(a, names, vs), parameters, args), BindAll(BindAll(b, names, vs), parameters, args);
      var inside := free + NameSet(names) + NameSet(parameters);
      NodesLocal(w, t, d, k, g.nodes, a', b', ae, be, inside);
      var ra, rb := EvalNodes(w, t, d, k, g.nodes, a', ae), EvalNodes(w, t, d, k, g.nodes, b', be);
      if ra.Some? {
        assert forall x :: x in g.outputs ==> x in inside + Defined(g.nodes);
        ReadAllLocal(ra.value, rb.value, g.outputs);
      }
    }
  }
}
