/**
 * A model whose meaning inlining changes: a function's parameter has the name that a graph passed to the function
 * captures from its caller.
 */
module NameCapture {
  import opened Wrappers
  import opened OnnxModel
  import opened AttributeReferences
  import opened GraphSemantics
  import opened FreeNames
  import opened CallHygiene
  import opened SsaProgram
  import opened SymbolTable
  import opened GraphImport
  import opened ProperNames
  import opened ImportSuccess
  import opened ImportSteps

  /** The caller's x is passed in a graph; the function calls its own parameter x. */
  const PASSED := Graph("body", [], [], [], ["x"])
  const CALLER := Node("", "F", "local", ["a"], ["z"], [Attr("body", "", Subgraph(PASSED))])
  const BRANCH := Node("", "If", "", [], ["y"], [Attr("then_branch", "body", Data(""))])
  const F := Function("F", ["x"], ["y"], [BRANCH], ["body"], [], map[])
  const MAIN := Graph("main", [], ["x", "a"], [CALLER], ["z"])

  function OnlyF(): Dispatch {
    Dispatch((k, domain, op) => if op == "F" then Call(F, false) else Unknown, target => -1)
  }

  /** Operators that ask their first nested graph and return its answer. */
  function FirstAnswer(none: Value): World {
    World((call: OpCall, inputs: seq<Value>, answers: seq<seq<Value>>) => if answers
      == [] then Ask(0, []) else Done(answers[0]),
          tensor => none, none, 1)
  }

  lemma FirstAnswerRuns(none: Value, t: Dispatch, d: nat, k: Context, node: Node, call: OpCall, env: Env, ae: AttrEnv)
    requires BodyAttrs(node.attrs, ae) != []
    ensures RunOp(FirstAnswer(none), t, d, k, node, call, [], env, ae, [], 1)
         == Answer(FirstAnswer(none), t, d, k, node, 0, env, [], ae)
  {
    var w := FirstAnswer(none);
    var answer := Answer(w, t, d, k, node, 0, env, [], ae);
    assert w.operator(call, [], []) == Ask(0, []);
    if answer.Some? {
      assert [] + [answer.value] == [answer.value];
      assert w.operator(call, [], [answer.value]) == Done(answer.value);
    }
  }

  lemma BindOne(env: Env, x: Name, v: Value)
    requires x != ""
    ensures BindAll(env, [x], [v]) == env[x := v]
  {
    assert [x][1..] == [];
  }

  lemma PassedMeans(w: World, t: Dispatch, d: nat, k: Context, env: Env)
    ensures EvalGraph(w, t, d, k, PASSED, env, [], map[]) == ReadAll(env, ["x"])
  {
    assert InitializerNames(PASSED) == [];
  }

  /** Called, the function returns the caller's x. */
  lemma CalledMeans(none: Value, k: Context, env: Env, vs: seq<Value>)
    requires "x" in env && |vs| == 1
    ensures EvalCall(FirstAnswer(none), OnlyF(), 1, k, CALLER, F, false, vs, env, map[]) == Some([env["x"]])
  {
    var w, t := FirstAnswer(none), OnlyF();
    var k', params := BodyContext(k, F, false), ParameterEnv(w, F, vs);
    var ae := CallMeanings(w, t, 1, k, CALLER, F, false, env, map[]);
    CallMeaningsOfValues(w, t, 1, k, CALLER, F, false, env, "body");
    assert ByName(CALLER.attrs)["body"] == Subgraph(PASSED);
    assert "body" in F.attributes;
    assert ae["body"] == ValueMeaning(w, t, 1, k, Subgraph(PASSED), env, map[]);
    PassedMeans(w, t, 0, k, env);
    ReadOne(env, "x");
    assert BodyAttrsFrom(BRANCH.attrs, ae, 1) == [];
    assert BodyAttrs(BRANCH.attrs, ae) == [0];
    assert Answer(w, t, 0, k', BRANCH, 0, params, [], ae) == Some([env["x"]]);
    FirstAnswerRuns(none, t, 0, k', BRANCH, CallOf(Unknown, BRANCH, ae), params, ae);
    assert EvalInputs(w, params, []) == Some([]);
    var y := env["x"];
    assert Fit([y], 1, none) == [y];
    BindOne(params, "y", y);
    assert EvalNode(w, t, 0, k', BRANCH, params, ae) == Some(params["y" := y]);
    assert EvalNodes(w, t, 0, k', [BRANCH], params, ae) == Some(params["y" := y]);
    ReadOne(params["y" := y], "y");
  }

  /** Inside the function's table x is the argument, value 1; so the passed graph returns that. */
  lemma InlinedRegion(t: Dispatch, d: nat, k: Context, scopes: Scopes, next: Id)
    requires Bindings(scopes) == map["x" := 1]
    ensures ImportGraph(t, d, k, scopes, next, PASSED) == Some(Emitted(Region([], [], [1]), next, []))
  {
    var inside := Push(scopes, GraphScope("body"));
    PushKeepsBindings(scopes, GraphScope("body"));
    FoundOne(inside, "x", 1);
    assert InitializerNames(PASSED) == [];
    assert EnterGraph(scopes, next, PASSED) == Some(inside);
    assert GraphArgs(next, PASSED) == [] && Constants([], next) + [] == [];
    assert ImportNodes(t, d, k, inside, next, []) == Some(Emitted(inside, next, []));
  }

  /** The body after substitution. */
  lemma InlinedBody()
    ensures CallAttrs(F, CALLER.attrs) == map["body" := Subgraph(PASSED)]
    ensures SubstNodes(F.nodes, CallAttrs(F, CALLER.attrs))
         == [BRANCH.(attrs := [Attr("then_branch", "", Subgraph(PASSED))])]
  {
    var am := CallAttrs(F, CALLER.attrs);
    assert ByName(CALLER.attrs) == map["body" := Subgraph(PASSED)] by {
      assert CALLER.attrs[..0] == [];
    }
    assert ByName(F.defaults) == map[];
    assert "body" in F.attributes;
    assert am.Keys == {"body"};
    assert SubstAttrs([], am) == [] && BRANCH.attrs[1..] == [];
    assert SubstAttrs(BRANCH.attrs, am) == [Attr("then_branch", "", Subgraph(PASSED))];
    assert SubstNodes([], am) == [] && F.nodes[1..] == [];
  }

  const INLINED := BRANCH.(attrs := [Attr("then_branch", "", Subgraph(PASSED))])

  function BranchOp(): Op {
    Operation(CallOf(Unknown, INLINED, map[]), [], [Region([], [], [1])], 2)
  }

  lemma InlinedRegions(k: Context, scopes: Scopes)
    requires Bindings(scopes) == map["x" := 1]
    ensures ImportBodies(OnlyF(), 0, k, scopes, 3, INLINED.attrs) == Some(Emitted([Region([], [], [1])], 3, []))
  {
    InlinedRegion(OnlyF(), 0, k, scopes, 3);
    assert INLINED.attrs[1..] == [];
    assert ImportBodies(OnlyF(), 0, k, scopes, 3, []) == Some(Emitted([], 3, []));
    assert [Region([], [], [1])] + [] == [Region([], [], [1])];
  }

  lemma InlinedNode(k: Context, scopes: Scopes)
    requires scopes != [] && Bindings(scopes) == map["x" := 1] && "y" !in scopes[|scopes| - 1].names
    ensures ImportNode(OnlyF(), 0, k, scopes, 2, INLINED) == Some(Emitted(Add(scopes, "y", 2), 3, [BranchOp()]))
  {
    NoOperands(scopes, 2);
    InlinedRegions(k, scopes);
    OneResult(scopes, "y", 2);
    assert [] + [BranchOp()] == [BranchOp()];
    OperationSteps(OnlyF(), 0, k, scopes, 2, INLINED, Unknown, Emitted([], 2, []),
                   Emitted([Region([], [], [1])], 3, []), Add(scopes, "y", 2));
  }

  lemma CallerArguments(scopes: Scopes)
    requires Bindings(scopes) == map["x" := 0, "a" := 1]
    ensures Arguments(scopes, CALLER, F, 2) == Some(Emitted([1], 2, []))
  {
    LookupIsBinding(scopes, "a");
    assert ["a"][1..] == [];
    assert NodeInputs(scopes, [], 2) == Emitted([], 2, []);
    assert NodeInputs(scopes, ["a"], 2) == Emitted([1] + [], 2, []);
    assert NoneValues(0, 2) == Emitted([], 2, []);
    var args := Operands(scopes, ["a"], 1, 2);
    assert args.result == [1] && args.ops == [] && args.next == 2;
  }

  /** The parameter, the node of the body, and its output. */
  lemma InsideCall(k: Context, params: Scopes)
    requires params == Add(Push([], CallScopeName(CALLER, F)), "x", 1)
    ensures EnterCall(CALLER, F, [1]) == Some(params)
    ensures ImportNodes(OnlyF(), 0, k, params, 2, [INLINED]) == Some(Emitted(Add(params, "y", 2), 3, [BranchOp()]))
    ensures BoundValues(Add(params, "y", 2), ["y"]) == [2]
  {
    var own := Push([], CallScopeName(CALLER, F));
    OneResult(own, "x", 1);
    PushKeepsBindings<Id>([], CallScopeName(CALLER, F));
    AddBindings(own, "x", 1);
    InlinedNode(k, params);
    SingleNode(OnlyF(), 0, k, params, 2, INLINED, Emitted(Add(params, "y", 2), 3, [BranchOp()]));
    AddBindings(params, "y", 2);
    FoundOne(Add(params, "y", 2), "y", 2);
  }

  /** The call is imported as a branch that returns value 1, the caller's a. */
  lemma InlinedCall(k: Context, scopes: Scopes)
    requires scopes != [] && Bindings(scopes) == map["x" := 0, "a" := 1] && "z" !in scopes[|scopes| - 1].names
    ensures ImportCall(OnlyF(), 1, k, scopes, 2, CALLER, F, false)
         == Some(Emitted(Add(scopes, "z", 2), 3, [BranchOp()]))
  {
    CallerArguments(scopes);
    var params := Add(Push([], CallScopeName(CALLER, F)), "x", 1);
    var inside := Add(params, "y", 2);
    InsideCall(BodyContext(k, F, false), params);
    InlinedBody();
    OneResult(scopes, "z", 2);
    assert ["z"][..1] == ["z"] && [] + [BranchOp()] == [BranchOp()];
    CallSteps(OnlyF(), 1, k, scopes, 2, CALLER, F, false, Emitted([1], 2, []), params,
              Emitted(inside, 3, [BranchOp()]), Add(scopes, "z", 2));
  }

  lemma MainParameters()
    ensures InitializerNames(MAIN) == [] && ParameterNames(MAIN.inputs, []) == ["x", "a"]
  {
    assert ["x", "a"][1..] == ["a"] && ["a"][1..] == [];
    assert ParameterNames([], []) == [];
    assert ["a"] + [] == ["a"] && ["x"] + ["a"] == ["x", "a"];
  }

  lemma EnteredMain() returns (scopes: Scopes)
    ensures EnterGraph([], 0, MAIN) == Some(scopes) && GraphArgs(0, MAIN) == [0, 1]
    ensures |scopes| == 1 && scopes[0].names == map["x" := 0, "a" := 1] && Bindings(scopes) == map["x" := 0, "a" := 1]
  {
    MainParameters();
    var own := Push([], GraphScope("main"));
    var one := Add(own, "x", 0);
    scopes := Add(one, "a", 1);
    assert GraphArgs(0, MAIN) == [0, 1];
    assert ["x", "a"][1..] == ["a"] && [0, 1][1..] == [1] && ["a"][1..] == [] && [1][1..] == [];
    assert AddAll(one, ["a"], [1]) == Some(scopes);
    assert AddAll(own, ["x", "a"], [0, 1]) == Some(scopes);
    assert scopes[0].names == map["x" := 0, "a" := 1];
    assert scopes[1..] == [] && Bindings<Id>([]) == map[];
  }

  lemma MainNodes(k: Context, scopes: Scopes)
    requires scopes != [] && Bindings(scopes) == map["x" := 0, "a" := 1] && "z" !in scopes[|scopes| - 1].names
    ensures ImportNodes(OnlyF(), 1, k, scopes, 2, [CALLER]) == Some(Emitted(Add(scopes, "z", 2), 3, [BranchOp()]))
  {
    InlinedCall(k, scopes);
    SingleNode(OnlyF(), 1, k, scopes, 2, CALLER, Emitted(Add(scopes, "z", 2), 3, [BranchOp()]));
  }

  lemma ImportedMain(k: Context)
    ensures ImportGraph(OnlyF(), 1, k, [], 0, MAIN) == Some(Emitted(Region([0, 1], [BranchOp()], [2]), 3, []))
  {
    var scopes := EnteredMain();
    var after := Add(scopes, "z", 2);
    MainNodes(k, scopes);
    AddBindings(scopes, "z", 2);
    FoundOne(after, "z", 2);
    assert Constants([], 0) + [BranchOp()] == [BranchOp()];
    GraphSteps(OnlyF(), 1, k, [], 0, MAIN, scopes, Emitted(after, 3, [BranchOp()]), [2]);
  }

  /** The imported program returns its second argument. */
  lemma ExecutedMain(none: Value, x: Value, a: Value)
    ensures ExecRegion(FirstAnswer(none), Region([0, 1], [BranchOp()], [2]), map[], [x, a]) == Some([a])
  {
    var w, op := FirstAnswer(none), BranchOp();
    var store: Store := map[0 := x, 1 := a];
    assert Assign(map[], [0, 1], [x, a]) == store by {
      assert [0, 1][1..] == [1] && [x, a][1..] == [a] && [1][1..] == [] && [a][1..] == [];
    }
    var region := Region([], [], [1]);
    assert ExecRegion(w, region, store, []) == Some([a]) by {
      assert [1][1..] == [] && Fetch(store, []) == Some([]) && [a] + [] == [a];
    }
    assert w.operator(op.call, [], []) == Ask(0, []) && w.operator(op.call, [], [[a]]) == Done([a]);
    assert [] + [[a]] == [[a]];
    assert RunOperation(w, op, [], store, [[a]], 0) == Some([a]);
    assert RunOperation(w, op, [], store, [], 1) == Some([a]);
    assert Fetch(store, []) == Some([]);
    assert Fit([a], 1, none) == [a] && Consecutive(2, 1) == [2];
    assert [2][1..] == [] && [a][1..] == [];
    assert ExecOp(w, op, store) == Some(store[2 := a]);
    assert [op][1..] == [] && ExecOps(w, [op], store) == Some(store[2 := a]);
    assert Fetch(store[2 := a], []) == Some([]) && [a] + [] == [a];
  }

  lemma CalledMain(none: Value, k: Context, x: Value, a: Value)
    ensures EvalGraph(FirstAnswer(none), OnlyF(), 1, k, MAIN, map[], [x, a], map[]) == Some([x])
  {
    var w, t := FirstAnswer(none), OnlyF();
    var env: Env := map["x" := x, "a" := a];
    MainParameters();
    assert BindAll(map[], ["x", "a"], [x, a]) == env by {
      assert ["x", "a"][1..] == ["a"] && [x, a][1..] == [a];
      BindOne(map["x" := x], "a", a);
    }
    assert EvalInputs(w, env, ["a"]) == Some([a]) by {
      assert ["a"][1..] == [] && EvalInputs(w, env, []) == Some([]) && [a] + [] == [a];
    }
    CalledMeans(none, k, env, [a]);
    assert Fit([x], 1, none) == [x];
    BindOne(env, "z", x);
    assert EvalNode(w, t, 1, k, CALLER, env, map[]) == Some(env["z" := x]);
    assert [CALLER][1..] == [] && EvalNodes(w, t, 1, k, [CALLER], env, map[]) == Some(env["z" := x]);
    ReadOne(env["z" := x], "z");
  }

  /** The model's meaning is its first argument; the imported program returns the second. */
  lemma CaptureChangesMeaning(none: Value, k: Context, x: Value, a: Value)
    ensures var r := ImportGraph(OnlyF(), 1, k, [], 0, MAIN);
      && r.Some?
      && EvalGraph(FirstAnswer(none), OnlyF(), 1, k, MAIN, map[], [x, a], map[]) == Some([x])
      && ExecRegion(FirstAnswer(none), r.value.result, map[], [x, a]) == Some([a])
  {
    ImportedMain(k);
    ExecutedMain(none, x, a);
    CalledMain(none, k, x, a);
  }
}
