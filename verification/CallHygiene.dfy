/**
 * Calls and the graphs passed to them. Inlining puts a passed graph into the function's body, among the body's names;
 * calling keeps the names of the place where the graph is written. The two agree for hygienic calls.
 */
module CallHygiene {
  import opened Wrappers
  import opened OnnxModel
  import opened AttributeReferences
  import opened GraphSemantics
  import opened FreeNames
  import opened OperatorScope
  import opened SubstitutionMeaning
  import opened ProperNames

  /** The caller passes the name to a parameter of the same name. */
  predicate PassedAsItself(node: Node, f: Function, x: Name) {
    exists i :: 0 <= i < |node.inputs| && i < |f.inputs| && f.inputs[i] == x && node.inputs[i] == x
  }

  /**
   * The graphs that the body refers to can be put there: what they capture are names that the caller passes under
   * their own names, what they bind is not visible where they are put, and their nodes have the same targets in the
   * body. A default captures nothing.
   */
  predicate Hygienic(t: Dispatch, k: Context, node: Node, f: Function, fromSchema: bool) {
    var am, given := CallAttrs(f, node.attrs), ByName(node.attrs);
    && (forall r :: r in RefsInNodes(f.nodes) && r in am && am[r].Subgraph? ==>
          && ProperGraph(am[r].graph, FreeInGraph(am[r].graph))
          && if r in given then
               (forall x :: x in FreeInGraph(am[r].graph) ==> PassedAsItself(node, f, x)) &&
               NodesAlike(t, k, BodyContext(k, f, fromSchema), am[r].graph.nodes)
             else FreeInGraph(am[r].graph) == {})
    && NodesFit(f.nodes, am, NameSet(f.inputs))
  }

  /** The environment of a function body before its nodes. */
  function ParameterEnv(w: World, f: Function, args: seq<Value>): Env {
    BindAll(map[], f.inputs, Fit(args, |f.inputs|, w.none))
  }

  // ---------------------------------------------------------------- what the attributes of a call stand for

  lemma {:induction false} MeaningsOfValues(w: World, t: Dispatch, d: nat, k: Context, attrs: seq<Attr>, env: Env,
                                            x: Name)
    requires forall i :: 0 <= i < |attrs| ==> attrs[i].refName == ""
    ensures var m := Meanings(w, t, d, k, attrs, env, map[]);
      (x in m <==> x in ByName(attrs)) && (x in m ==> m[x] == ValueMeaning(w, t, d, k, ByName(attrs)[x], env, map[]))
  {
    if attrs != [] {
      MeaningsOfValues(w, t, d, k, attrs[..|attrs| - 1], env, x);
    }
  }

  lemma CallMeaningsOfValues(w: World, t: Dispatch, d: nat, k: Context, node: Node, f: Function, fromSchema: bool,
                             env: Env, x: Name)
    requires RefFreeAttrs(node.attrs) && RefFreeAttrs(f.defaults)
    ensures var am, m := CallAttrs(f, node.attrs), CallMeanings(w, t, d, k, node, f, fromSchema, env, map[]);
      && (x in m <==> x in am)
      && (x in m ==> m[x] == if x in ByName(node.attrs) then ValueMeaning(w, t, d, k, am[x], env, map[])
                             else ValueMeaning(w, t, d, BodyContext(k, f, fromSchema), am[x], map[], map[]))
  {
    MeaningsOfValues(w, t, d, k, node.attrs, env, x);
    MeaningsOfValues(w, t, d, BodyContext(k, f, fromSchema), f.defaults, map[], x);
  }

  // ---------------------------------------------------------------- parameters

  lemma {:induction false} InputValue(w: World, env: Env, inputs: seq<Name>, i: nat)
    requires i < |inputs| && inputs[i] != "" && EvalInputs(w, env, inputs).Some?
    ensures inputs[i] in env && EvalInputs(w, env, inputs).value[i] == env[inputs[i]]
  {
    if i > 0 {
      InputValue(w, env, inputs[1..], i - 1);
    }
  }

  lemma {:induction false} BindFirst(env: Env, names: seq<Name>, vs: seq<Value>, i: nat)
    requires |names| == |vs| && i < |names| && names[i] != ""
    requires forall a, b :: 0 <= a < b < |names| ==> names[a] != names[b]
    ensures names[i] in BindAll(env, names, vs) && BindAll(env, names, vs)[names[i]] == vs[i]
    decreases |names|
  {
    if i > 0 {
      BindFirst(if names[0] == "" then env else env[names[0] := vs[0]], names[1..], vs[1..], i - 1);
    } else {
      var rest := names[1..];
      assert forall a :: 0 <= a < |rest| ==> rest[a] == names[a + 1];
      NameSetMembers(rest);
      BindAvoids(env[names[0] := vs[0]], rest, vs[1..], {names[0]});
    }
  }

  /** Names that are passed as themselves have the caller's values in the body. */
  lemma PassedNamesAgree(w: World, node: Node, f: Function, env: Env, names: set<Name>)
    requires EvalInputs(w, env, node.inputs).Some? && |node.inputs| <= |f.inputs|
    requires "" !in f.inputs && forall a, b :: 0 <= a < b < |f.inputs| ==> f.inputs[a] != f.inputs[b]
    requires forall x :: x in names ==> PassedAsItself(node, f, x)
    ensures AgreeOn(env, ParameterEnv(w, f, EvalInputs(w, env, node.inputs).value), names)
  {
    var args := EvalInputs(w, env, node.inputs).value;
    forall x | x in names ensures x in env && x in ParameterEnv(w, f, args) && env[x] == ParameterEnv(w, f, args)[x] {
      var i :| 0 <= i < |node.inputs| && i < |f.inputs| && f.inputs[i] == x && node.inputs[i] == x;
      assert f.inputs[i] in f.inputs;
      InputValue(w, env, node.inputs, i);
      BindFirst(map[], f.inputs, Fit(args, |f.inputs|, w.none), i);
    }
  }

  // ---------------------------------------------------------------- hygienic calls

  /** In the body of a hygienic call every passed graph means what it means to the caller. */
  lemma PassedGraphsStand(w: World, t: Dispatch, d: nat, k: Context, node: Node, f: Function, fromSchema: bool,
                          env: Env)
    requires d > 0 && RefFreeAttrs(node.attrs) && RefFreeAttrs(f.defaults) && Hygienic(t, k, node, f, fromSchema)
    requires EvalInputs(w, env, node.inputs).Some? && |node.inputs| <= |f.inputs|
    requires "" !in f.inputs && forall a, b :: 0 <= a < b < |f.inputs| ==> f.inputs[a] != f.inputs[b]
    ensures Stands(w, t, d - 1, BodyContext(k, f, fromSchema),
                   ParameterEnv(w, f, EvalInputs(w, env, node.inputs).value),
                   CallAttrs(f, node.attrs), CallMeanings(w, t, d, k, node, f, fromSchema, env, map[]),
                     RefsInNodes(f.nodes))
  {
    var k', params := BodyContext(k, f, fromSchema), ParameterEnv(w, f, EvalInputs(w, env, node.inputs).value);
    var am, ae := CallAttrs(f, node.attrs), CallMeanings(w, t, d, k, node, f, fromSchema, env, map[]);
    forall r | r in RefsInNodes(f.nodes)
      ensures (r in am <==> r in ae) && (r in am ==>
        SameMeaning(d - 1, ae[r], ValueMeaning(w, t, d, k', am[r], params, map[])))
    {
      CallMeaningsOfValues(w, t, d, k, node, f, fromSchema, env, r);
      if r in am && am[r].Subgraph? {
        PassedGraphStands(w, t, d, k, node, f, fromSchema, env, r);
      }
    }
  }

  lemma PassedGraphStands(w: World, t: Dispatch, d: nat, k: Context, node: Node, f: Function, fromSchema: bool,
                          env: Env, r: Name)
    requires d > 0 && Hygienic(t, k, node, f, fromSchema)
    requires EvalInputs(w, env, node.inputs).Some? && |node.inputs| <= |f.inputs|
    requires "" !in f.inputs && forall a, b :: 0 <= a < b < |f.inputs| ==> f.inputs[a] != f.inputs[b]
    requires r in RefsInNodes(f.nodes) && r in CallAttrs(f, node.attrs) && CallAttrs(f, node.attrs)[r].Subgraph?
    ensures var k', params := BodyContext(k, f, fromSchema), ParameterEnv(w, f, EvalInputs(w, env, node.inputs).value);
      var v := CallAttrs(f, node.attrs)[r];
      SameMeaning(d - 1, if r in ByName(node.attrs) then ValueMeaning(w, t, d, k, v, env, map[])
        else ValueMeaning(w, t, d, k', v, map[], map[]),
                  ValueMeaning(w, t, d, k', v, params, map[]))
  {
    var k', params := BodyContext(k, f, fromSchema), ParameterEnv(w, f, EvalInputs(w, env, node.inputs).value);
    var g := CallAttrs(f, node.attrs)[r].graph;
    if r in ByName(node.attrs) {
      PassedNamesAgree(w, node, f, env, FreeInGraph(g));
      forall d': nat, args: seq<Value> | d' <= d - 1
        ensures EvalGraph(w, t, d', k, g, env, args, map[]) == EvalGraph(w, t, d', k', g, params, args, map[])
      {
        GraphInBoth(w, t, d', k, k', g, env, args, map[]);
        GraphLocal(w, t, d', k', g, env, params, map[], map[], args);
      }
      SameAnswers(w, t, d - 1, k, g, env, map[], k', g, params, map[]);
    } else {
      forall d': nat, args: seq<Value> | d' <= d - 1
        ensures EvalGraph(w, t, d', k', g, map[], args, map[]) == EvalGraph(w, t, d', k', g, params, args, map[])
      {
        GraphLocal(w, t, d', k', g, map[], params, map[], map[], args);
      }
      SameAnswers(w, t, d - 1, k', g, map[], map[], k', g, params, map[]);
    }
  }

  /** The referenced graphs of a hygienic call are proper, and capture parameters only. */
  lemma CapturesAreParameters(t: Dispatch, k: Context, node: Node, f: Function, fromSchema: bool)
    requires Hygienic(t, k, node, f, fromSchema) && "" !in f.inputs
    ensures ProperValues(CallAttrs(f, node.attrs), RefsInNodes(f.nodes), NameSet(f.inputs))
    ensures CapturesWithin(CallAttrs(f, node.attrs), RefsInNodes(f.nodes), NameSet(f.inputs))
  {
    var am := CallAttrs(f, node.attrs);
    forall r, x | r in RefsInNodes(f.nodes) && r in am && am[r].Subgraph? && x in FreeInGraph(am[r].graph)
      ensures x in NameSet(f.inputs)
    {
      NameSetMembers(f.inputs);
      assert r in ByName(node.attrs) && PassedAsItself(node, f, x);
    }
  }

  /** The instantiated body of a hygienic call is as proper as the function's own body. */
  lemma HygienicInstance(t: Dispatch, k: Context, node: Node, f: Function, fromSchema: bool)
    requires Hygienic(t, k, node, f, fromSchema) && "" !in f.inputs && ProperNodes(f.nodes, NameSet(f.inputs))
    ensures ProperNodes(SubstNodes(f.nodes, CallAttrs(f, node.attrs)), NameSet(f.inputs))
  {
    CapturesAreParameters(t, k, node, f, fromSchema);
    InstanceIsProper(f.nodes, CallAttrs(f, node.attrs), NameSet(f.inputs), NameSet(f.inputs));
  }

  /** Calling a function hygienically is running its body with the passed attributes put in place. */
  lemma CallMeaning(w: World, t: Dispatch, d: nat, k: Context, node: Node, f: Function, fromSchema: bool, env: Env)
    requires RefFreeAttrs(node.attrs) && RefFreeAttrs(f.defaults) && d > 0
    requires EvalInputs(w, env, node.inputs).Some? && |node.inputs| <= |f.inputs| && |node.outputs| <= |f.outputs|
    requires "" !in f.inputs && forall a, b :: 0 <= a < b < |f.inputs| ==> f.inputs[a] != f.inputs[b]
    requires Hygienic(t, k, node, f, fromSchema) && NodesAvoid(f.nodes, NameSet(f.inputs))
    ensures var args := EvalInputs(w, env, node.inputs).value;
      EvalCall(w, t, d, k, node, f, fromSchema, args, env, map[]) ==
      match EvalNodes(w, t, d - 1, BodyContext(k, f, fromSchema), SubstNodes(f.nodes, CallAttrs(f, node.attrs)),
                      ParameterEnv(w, f, args), map[])
      case None => None
      case Some(env') => ReadAll(env', f.outputs)
  {
    var args := EvalInputs(w, env, node.inputs).value;
    PassedGraphsStand(w, t, d, k, node, f, fromSchema, env);
    CapturesAreParameters(t, k, node, f, fromSchema);
    NodesSubst(w, t, d - 1, BodyContext(k, f, fromSchema), f.nodes, ParameterEnv(w, f, args), CallAttrs(f, node.attrs),
               CallMeanings(w, t, d, k, node, f, fromSchema, env, map[]), NameSet(f.inputs));
  }
}
