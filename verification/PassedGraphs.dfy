/**
 * Models whose meaning inlining changes although no captured name is involved: a function binds a name that a graph
 * passed to it binds too, or imports another operator set than its caller.
 */
module PassedGraphs {
  import opened Wrappers
  import opened OnnxModel
  import opened AttributeReferences
  import opened OpVersions
  import opened GraphSemantics
  import opened FreeNames
  import opened SubstitutionMeaning
  import opened OperatorScope
  import opened ProperNames
  import opened CallHygiene
  import opened SsaProgram
  import opened SymbolTable
  import opened GraphImport
  import opened ImportSuccess
  import opened ImportSteps
  import opened CapturedNames
  import NameCapture

  // ---------------------------------------------------------------- the models

  function Maker(x: Name, op: string): Node { Node("", op, "", [], [x], []) }

  /** A graph that binds x to what an operator makes, and returns it. */
  function Passed(x: Name, op: string): Graph { Graph("body", [], [], [Maker(x, op)], [x]) }

  function Caller(x: Name, op: string): Node { Node("", "F", "local", [], ["z"],
      [Attr("body", "", Subgraph(Passed(x, op)))]) }

  function Main(x: Name, op: string): Graph { Graph("main", [], [], [Caller(x, op)], ["z"]) }

  /** The function binds u before it runs the graph that is passed to it. */
  function F(opsets: map<string, int>): Function { Function("F", [], ["y"], [Maker("u", "Own"), NameCapture.BRANCH],
      ["body"], [], opsets) }

  /** One function, and one operator with a version for every operator set. */
  function Versioned(opsets: map<string, int>): Dispatch {
    Dispatch((k: Context, domain: string, op: string) =>
               if op == "F" then Call(F(opsets), false)
               else if op == "Op" then Regular(HandlerKey("Op", if "" in k.opsets then Some(k.opsets[""]) else None))
               else Unknown,
             target => -1)
  }

  /**
   * Operators without nested graphs make a value by their kind; others return what their first nested graph answers.
   */
  function Making(none: Value, made: OpKind -> Value): World {
    World((call: OpCall, inputs: seq<Value>, answers: seq<seq<Value>>) =>
            if call.bodies == [] then Done([made(call.kind)])
            else if answers == [] then Ask(0, [])
            else Done(answers[0]),
          tensor => none, none, 1)
  }

  function Kind(opsets: map<string, int>, k: Context, op: string): OpKind {
    KindOf(Versioned(opsets).resolve(k, "", op), Maker("", op))
  }

  // ---------------------------------------------------------------- what they mean

  lemma MakerMeans(none: Value, made: OpKind -> Value, opsets: map<string, int>, d: nat, k: Context, x: Name,
                   op: string, env: Env, ae: AttrEnv)
    requires x != "" && op != "F"
    ensures EvalNode(Making(none, made), Versioned(opsets), d, k, Maker(x, op), env, ae)
         == Some(env[x := made(Kind(opsets, k, op))])
  {
    var w, t, node, v := Making(none, made), Versioned(opsets), Maker(x, op), made(Kind(opsets, k, op));
    var call := CallOf(t.resolve(k, "", op), node, ae);
    assert BodyAttrs([], ae) == [] && AttrNames(node.attrs, []) == [];
    assert call.bodies == [] && call.kind == Kind(opsets, k, op);
    assert EvalInputs(w, env, []) == Some([]);
    assert RunOp(w, t, d, k, node, call, [], env, ae, [], 1) == Some([v]);
    assert Fit([v], 1, none) == [v];
    NameCapture.BindOne(env, x, v);
  }

  lemma OneNode(w: World, t: Dispatch, d: nat, k: Context, node: Node, env: Env, ae: AttrEnv, after: Env)
    requires EvalNode(w, t, d, k, node, env, ae) == Some(after)
    ensures EvalNodes(w, t, d, k, [node], env, ae) == Some(after)
  {
    assert [node][1..] == [];
    assert EvalNodes(w, t, d, k, [], after, ae) == Some(after);
  }

  /** The graph means what its operator makes in the caller's operator set. */
  lemma PassedMeans(none: Value, made: OpKind -> Value, opsets: map<string, int>, d: nat, k: Context, x: Name,
                    op: string, env: Env)
    requires x != "" && op != "F"
    ensures EvalGraph(Making(none, made), Versioned(opsets), d, k, Passed(x, op), env, [], map[])
         == Some([made(Kind(opsets, k, op))])
  {
    var w, t, v := Making(none, made), Versioned(opsets), made(Kind(opsets, k, op));
    assert InitializerNames(Passed(x, op)) == [];
    MakerMeans(none, made, opsets, d, k, x, op, env, map[]);
    OneNode(w, t, d, k, Maker(x, op), env, map[], env[x := v]);
    ReadOne(env[x := v], x);
  }

  lemma BranchMeans(none: Value, made: OpKind -> Value, opsets: map<string, int>, d: nat, k: Context, env: Env,
                    ae: AttrEnv, v: Value)
    requires "body" in ae && ae["body"].Nested? && ae["body"].answer(d, []) == Some([v])
    ensures EvalNode(Making(none, made), Versioned(opsets), d, k, NameCapture.BRANCH, env, ae) == Some(env["y" := v])
  {
    var w, t, call := Making(none, made), Versioned(opsets), CallOf(Unknown, NameCapture.BRANCH, ae);
    assert BodyAttrsFrom(NameCapture.BRANCH.attrs, ae, 1) == [];
    assert BodyAttrs(NameCapture.BRANCH.attrs, ae) == [0] && [0][1..] == [];
    assert AttrNames(NameCapture.BRANCH.attrs, []) == [];
    assert call.bodies == ["then_branch"];
    assert Answer(w, t, d, k, NameCapture.BRANCH, 0, env, [], ae) == Some([v]);
    assert [] + [[v]] == [[v]];
    assert w.operator(call, [], []) == Ask(0, []) && w.operator(call, [], [[v]]) == Done([v]);
    assert RunOp(w, t, d, k, NameCapture.BRANCH, call, [], env, ae, [[v]], 0) == Some([v]);
    assert RunOp(w, t, d, k, NameCapture.BRANCH, call, [], env, ae, [], 1) == Some([v]);
    assert EvalInputs(w, env, []) == Some([]);
    assert Fit([v], 1, none) == [v];
    NameCapture.BindOne(env, "y", v);
  }

  lemma CallAttributes(x: Name, op: string, opsets: map<string, int>)
    ensures CallAttrs(F(opsets), Caller(x, op).attrs) == map["body" := Subgraph(Passed(x, op))]
    ensures ByName(Caller(x, op).attrs) == map["body" := Subgraph(Passed(x, op))]
  {
    var node, f := Caller(x, op), F(opsets);
    assert ByName(node.attrs) == map["body" := Subgraph(Passed(x, op))] by {
      assert node.attrs[..0] == [];
    }
    assert ByName(f.defaults) == map[];
    assert "body" in f.attributes;
    assert CallAttrs(f, node.attrs).Keys == {"body"};
  }

  lemma CallerIsRefFree(x: Name, op: string)
    ensures RefFreeNodes(Passed(x, op).nodes) && RefFreeAttrs(Caller(x, op).attrs)
  {
    assert RefFreeAttrs(Maker(x, op).attrs);
    assert RefFreeNodes(Passed(x, op).nodes);
    assert RefFreeValue(Subgraph(Passed(x, op)));
  }

  /** Called, the function returns what the graph means to the caller. */
  lemma CalledMeans(none: Value, made: OpKind -> Value, opsets: map<string, int>, k: Context, x: Name, op: string,
                    env: Env)
    requires x != "" && op != "F"
    ensures EvalCall(Making(none, made), Versioned(opsets), 1, k, Caller(x, op), F(opsets), false, [], env, map[])
         == Some([made(Kind(opsets, k, op))])
  {
    var w, t, f := Making(none, made), Versioned(opsets), F(opsets);
    var k', v := BodyContext(k, f, false), made(Kind(opsets, k, op));
    var ae := CallMeanings(w, t, 1, k, Caller(x, op), f, false, env, map[]);
    CallAttributes(x, op, opsets);
    CallerIsRefFree(x, op);
    CallMeaningsOfValues(w, t, 1, k, Caller(x, op), f, false, env, "body");
    PassedMeans(none, made, opsets, 0, k, x, op, env);
    assert ae["body"].answer(0, []) == Some([v]);
    var own := made(Kind(opsets, k', "Own"));
    MakerMeans(none, made, opsets, 0, k', "u", "Own", map[], ae);
    var mid: Env := map["u" := own];
    BranchMeans(none, made, opsets, 0, k', mid, ae, v);
    OneNode(w, t, 0, k', NameCapture.BRANCH, mid, ae, mid["y" := v]);
    assert f.nodes[1..] == [NameCapture.BRANCH];
    assert EvalNodes(w, t, 0, k', f.nodes, map[], ae) == Some(mid["y" := v]);
    ReadOne(mid["y" := v], "y");
  }

  lemma MainMeans(none: Value, made: OpKind -> Value, opsets: map<string, int>, k: Context, x: Name, op: string)
    requires x != "" && op != "F"
    ensures EvalGraph(Making(none, made), Versioned(opsets), 1, k, Main(x, op), map[], [], map[])
         == Some([made(Kind(opsets, k, op))])
  {
    var w, t, v := Making(none, made), Versioned(opsets), made(Kind(opsets, k, op));
    CalledMeans(none, made, opsets, k, x, op, map[]);
    assert EvalInputs(w, map[], []) == Some([]);
    assert Fit([v], 1, none) == [v];
    NameCapture.BindOne(map[], "z", v);
    OneNode(w, t, 1, k, Caller(x, op), map[], map[], map["z" := v]);
    assert InitializerNames(Main(x, op)) == [];
    ReadOne(map["z" := v], "z");
  }

  // ---------------------------------------------------------------- what they are imported to

  function MakeOp(opsets: map<string, int>, k: Context, op: string, result: Id): Op {
    Operation(CallOf(Versioned(opsets).resolve(k, "", op), Maker("x", op), map[]), [], [], result)
  }

  lemma MakerImported(opsets: map<string, int>, d: nat, k: Context, scopes: Scopes, next: Id, x: Name, op: string)
    requires x != "" && op != "F" && scopes != [] && x !in scopes[|scopes| - 1].names
    ensures ImportNode(Versioned(opsets), d, k, scopes, next, Maker(x, op))
         == Some(Emitted(Add(scopes, x, next), next + 1, [MakeOp(opsets, k, op, next)]))
  {
    var t, node := Versioned(opsets), Maker(x, op);
    assert ImportBodies(t, d, k, scopes, next + 1, []) == Some(Emitted([], next + 1, []));
    SameCall(t.resolve(k, "", op), x, op);
    PlainOperation(t, d, k, scopes, next, node, t.resolve(k, "", op), x, Emitted([], next + 1, []));
  }

  lemma SameCall(target: Target, x: Name, op: string)
    ensures CallOf(target, Maker(x, op), map[]) == CallOf(target, Maker("x", op), map[])
  {
  }

  /** What the imported graph returns: the function's u, value 0, if that is the name, else what it makes itself. */
  function Returned(x: Name): Id { if x == "u" then 0 else 2 }

  function PassedRegion(opsets: map<string, int>, k: Context, x: Name, op: string): Region {
    Region([], [MakeOp(opsets, k, op, 2)], [Returned(x)])
  }

  lemma PassedNodes(opsets: map<string, int>, k: Context, inside: Scopes, x: Name, op: string)
    requires x != "" && op != "F" && inside != [] && x !in inside[|inside| - 1].names
    ensures ImportNodes(Versioned(opsets), 0, k, inside, 2, [Maker(x, op)])
         == Some(Emitted(Add(inside, x, 2), 3, [MakeOp(opsets, k, op, 2)]))
  {
    MakerImported(opsets, 0, k, inside, 2, x, op);
    SingleNode(Versioned(opsets), 0, k, inside, 2, Maker(x, op),
               Emitted(Add(inside, x, 2), 3, [MakeOp(opsets, k, op, 2)]));
  }

  lemma PassedTable(scopes: Scopes, x: Name, after: Scopes)
    requires Bindings(scopes) == map["u" := 0] && after == Add(Push(scopes, GraphScope("body")), x, 2)
    ensures x in Bindings(after) && Bindings(after)[x] == Returned(x)
  {
    PushKeepsBindings(scopes, GraphScope("body"));
    AddBindings(Push(scopes, GraphScope("body")), x, 2);
  }

  lemma PassedImported(opsets: map<string, int>, k: Context, scopes: Scopes, x: Name, op: string)
    requires x != "" && op != "F" && Bindings(scopes) == map["u" := 0]
    ensures ImportGraph(Versioned(opsets), 0, k, scopes, 2, Passed(x, op))
         == Some(Emitted(PassedRegion(opsets, k, x, op), 3, []))
  {
    var after := Add(Push(scopes, GraphScope("body")), x, 2);
    PassedNodes(opsets, k, Push(scopes, GraphScope("body")), x, op);
    PassedTable(scopes, x, after);
    PlainGraph(Versioned(opsets), 0, k, scopes, 2, Passed(x, op), x, Emitted(after, 3, [MakeOp(opsets, k, op, 2)]),
               Returned(x));
  }

  function Inlined(x: Name, op: string): Node { NameCapture.BRANCH.(attrs := [Attr("then_branch", "",
      Subgraph(Passed(x, op)))]) }

  function BranchOp(opsets: map<string, int>, k: Context, x: Name, op: string): Op {
    Operation(CallOf(Unknown, Inlined(x, op), map[]), [], [PassedRegion(opsets, k, x, op)], 1)
  }

  lemma BranchBodies(opsets: map<string, int>, k: Context, scopes: Scopes, x: Name, op: string)
    requires x != "" && op != "F" && Bindings(scopes) == map["u" := 0]
    ensures ImportBodies(Versioned(opsets), 0, k, scopes, 2, Inlined(x, op).attrs)
         == Some(Emitted([PassedRegion(opsets, k, x, op)], 3, []))
  {
    PassedImported(opsets, k, scopes, x, op);
    OneBody(Versioned(opsets), 0, k, scopes, 2, Inlined(x, op).attrs[0],
            Emitted(PassedRegion(opsets, k, x, op), 3, []));
  }

  lemma BranchImported(opsets: map<string, int>, k: Context, scopes: Scopes, x: Name, op: string)
    requires x != "" && op != "F" && scopes != [] && Bindings(scopes) == map["u" := 0] &&
      "y" !in scopes[|scopes| - 1].names
    ensures ImportNode(Versioned(opsets), 0, k, scopes, 1, Inlined(x, op))
         == Some(Emitted(Add(scopes, "y", 1), 3, [BranchOp(opsets, k, x, op)]))
  {
    BranchBodies(opsets, k, scopes, x, op);
    PlainOperation(Versioned(opsets), 0, k, scopes, 1, Inlined(x, op), Unknown, "y",
                   Emitted([PassedRegion(opsets, k, x, op)], 3, []));
  }

  lemma OneBody(t: Dispatch, d: nat, k: Context, scopes: Scopes, next: Id, attr: Attr, e: Emitted<Region>)
    requires attr.value.Subgraph? && ImportGraph(t, d, k, scopes, next, attr.value.graph) == Some(e)
    ensures ImportBodies(t, d, k, scopes, next, [attr]) == Some(Emitted([e.result], e.next, []))
  {
    assert [attr][1..] == [] && [e.result] + [] == [e.result];
    assert ImportBodies(t, d, k, scopes, e.next, []) == Some(Emitted([], e.next, []));
  }

  function BodyOps(opsets: map<string, int>, k: Context, x: Name, op: string): seq<Op> {
    [MakeOp(opsets, k, "Own", 0), BranchOp(opsets, k, x, op)]
  }

  /** The function's table once u is bound, and once y is. */
  lemma BodyTables(opsets: map<string, int>, own: Scopes, x: Name, op: string)
    requires own == Push([], CallScopeName(Caller(x, op), F(opsets)))
    ensures Bindings(Add(own, "u", 0)) == map["u" := 0] && "y" !in Add(own, "u", 0)[0].names
    ensures BoundValues(Add(Add(own, "u", 0), "y", 1), ["y"]) == [1]
  {
    PushKeepsBindings<Id>([], CallScopeName(Caller(x, op), F(opsets)));
    AddBindings(own, "u", 0);
    AddBindings(Add(own, "u", 0), "y", 1);
    FoundOne(Add(Add(own, "u", 0), "y", 1), "y", 1);
  }

  /** The body, with the graph put in, becomes the function's own operation and the branch. */
  lemma BodyImported(opsets: map<string, int>, k: Context, own: Scopes, x: Name, op: string)
    requires x != "" && op != "F" && own == Push([], CallScopeName(Caller(x, op), F(opsets)))
    ensures ImportNodes(Versioned(opsets), 0, k, own, 0, [Maker("u", "Own"), Inlined(x, op)])
         == Some(Emitted(Add(Add(own, "u", 0), "y", 1), 3, BodyOps(opsets, k, x, op)))
  {
    var t, mid := Versioned(opsets), Add(own, "u", 0);
    var first, second := Emitted(mid, 1, [MakeOp(opsets, k, "Own", 0)]),
      Emitted(Add(mid, "y", 1), 3, [BranchOp(opsets, k, x, op)]);
    MakerImported(opsets, 0, k, own, 0, "u", "Own");
    BranchNodes(opsets, k, own, x, op);
    BothOps(opsets, k, x, op);
    TwoNodes(t, 0, k, own, 0, Maker("u", "Own"), Inlined(x, op), first, second, BodyOps(opsets, k, x, op));
  }

  lemma BothOps(opsets: map<string, int>, k: Context, x: Name, op: string)
    ensures [MakeOp(opsets, k, "Own", 0)] + [BranchOp(opsets, k, x, op)] == BodyOps(opsets, k, x, op)
  {
  }

  lemma BranchNodes(opsets: map<string, int>, k: Context, own: Scopes, x: Name, op: string)
    requires x != "" && op != "F" && own == Push([], CallScopeName(Caller(x, op), F(opsets)))
    ensures ImportNodes(Versioned(opsets), 0, k, Add(own, "u", 0), 1, [Inlined(x, op)])
         == Some(Emitted(Add(Add(own, "u", 0), "y", 1), 3, [BranchOp(opsets, k, x, op)]))
  {
    var mid := Add(own, "u", 0);
    BodyTables(opsets, own, x, op);
    BranchImported(opsets, k, mid, x, op);
    SingleNode(Versioned(opsets), 0, k, mid, 1, Inlined(x, op),
               Emitted(Add(mid, "y", 1), 3, [BranchOp(opsets, k, x, op)]));
  }

  lemma InlinedBody(opsets: map<string, int>, x: Name, op: string)
    ensures SubstNodes(F(opsets).nodes, CallAttrs(F(opsets), Caller(x, op).attrs))
         == [Maker("u", "Own"), Inlined(x, op)]
  {
    var am := CallAttrs(F(opsets), Caller(x, op).attrs);
    CallAttributes(x, op, opsets);
    assert SubstAttrs([], am) == [] && NameCapture.BRANCH.attrs[1..] == [];
    assert SubstNode(NameCapture.BRANCH, am) == Inlined(x, op) && SubstNode(Maker("u", "Own"), am) == Maker("u", "Own");
    assert SubstNodes([], am) == [] && [NameCapture.BRANCH][1..] == [] && F(opsets).nodes[1..] == [NameCapture.BRANCH];
    assert SubstNodes([NameCapture.BRANCH], am) == [Inlined(x, op)];
  }

  lemma CallImported(opsets: map<string, int>, k: Context, scopes: Scopes, x: Name, op: string)
    requires x != "" && op != "F" && scopes != [] && "z" !in scopes[|scopes| - 1].names
    ensures ImportCall(Versioned(opsets), 1, k, scopes, 0, Caller(x, op), F(opsets), false)
         == Some(Emitted(Add(scopes, "z", 1), 3, BodyOps(opsets, BodyContext(k, F(opsets), false), x, op)))
  {
    var f, node := F(opsets), Caller(x, op);
    var own, ops := Push([], CallScopeName(node, f)), BodyOps(opsets, BodyContext(k, f, false), x, op);
    InlinedBody(opsets, x, op);
    BodyImported(opsets, BodyContext(k, f, false), own, x, op);
    BodyTables(opsets, own, x, op);
    PlainCall(Versioned(opsets), 1, k, scopes, 0, node, f, "z", "y", Emitted(Add(Add(own, "u", 0), "y", 1), 3, ops), 1);
  }

  function MainRegion(opsets: map<string, int>, k: Context, x: Name, op: string): Region {
    Region([], BodyOps(opsets, BodyContext(k, F(opsets), false), x, op), [1])
  }

  lemma MainNodes(opsets: map<string, int>, k: Context, scopes: Scopes, x: Name, op: string)
    requires x != "" && op != "F" && scopes != [] && "z" !in scopes[|scopes| - 1].names
    ensures ImportNodes(Versioned(opsets), 1, k, scopes, 0, [Caller(x, op)])
         == Some(Emitted(Add(scopes, "z", 1), 3, BodyOps(opsets, BodyContext(k, F(opsets), false), x, op)))
  {
    CallImported(opsets, k, scopes, x, op);
    CallNodeImported(opsets, k, scopes, x, op);
    SingleNode(Versioned(opsets), 1, k, scopes, 0, Caller(x, op),
               Emitted(Add(scopes, "z", 1), 3, BodyOps(opsets, BodyContext(k, F(opsets), false), x, op)));
  }

  lemma MainImported(opsets: map<string, int>, k: Context, x: Name, op: string)
    requires x != "" && op != "F"
    ensures ImportGraph(Versioned(opsets), 1, k, [], 0, Main(x, op))
         == Some(Emitted(MainRegion(opsets, k, x, op), 3, []))
  {
    var ops := BodyOps(opsets, BodyContext(k, F(opsets), false), x, op);
    var scopes := Push([], GraphScope("main"));
    PushKeepsBindings<Id>([], GraphScope("main"));
    MainNodes(opsets, k, scopes, x, op);
    AddBindings(scopes, "z", 1);
    PlainGraph(Versioned(opsets), 1, k, [], 0, Main(x, op), "z", Emitted(Add(scopes, "z", 1), 3, ops), 1);
  }

  lemma CallNodeImported(opsets: map<string, int>, k: Context, scopes: Scopes, x: Name, op: string)
    ensures ImportNode(Versioned(opsets), 1, k, scopes, 0, Caller(x, op))
         == ImportCall(Versioned(opsets), 1, k, scopes, 0, Caller(x, op), F(opsets), false)
  {
  }

  // ---------------------------------------------------------------- what the programs compute

  lemma MakeExecuted(none: Value, made: OpKind -> Value, opsets: map<string, int>, k: Context, op: string, result: Id,
                     store: Store)
    requires op != "F"
    ensures ExecOp(Making(none, made), MakeOp(opsets, k, op, result), store)
         == Some(store[result := made(Kind(opsets, k, op))])
  {
    var w, o, v := Making(none, made), MakeOp(opsets, k, op, result), made(Kind(opsets, k, op));
    assert BodyAttrs([], map[]) == [] && AttrNames([], []) == [];
    assert o.call.bodies == [] && o.call.kind == Kind(opsets, k, op) && o.call.results == 1;
    assert RunOperation(w, o, [], store, [], 1) == Some([v]);
    OneAssigned(none, store, result, v);
  }

  lemma OneAssigned(none: Value, store: Store, id: Id, v: Value)
    ensures Fetch(store, []) == Some([]) && Assign(store, Consecutive(id, 1), Fit([v], 1, none)) == store[id := v]
  {
    assert Fit([v], 1, none) == [v] && Consecutive(id, 1) == [id];
    assert [id][1..] == [] && [v][1..] == [];
  }

  lemma FetchOne(store: Store, id: Id)
    requires id in store
    ensures Fetch(store, [id]) == Some([store[id]])
  {
    assert [id][1..] == [] && Fetch(store, []) == Some([]) && [store[id]] + [] == [store[id]];
  }

  /** The value that the region of the passed graph returns. */
  function Answered(made: OpKind -> Value, opsets: map<string, int>, k: Context, x: Name, op: string): Value {
    if x == "u" then made(Kind(opsets, k, "Own")) else made(Kind(opsets, k, op))
  }

  lemma PassedExecuted(none: Value, made: OpKind -> Value, opsets: map<string, int>, k: Context, x: Name, op: string,
                       store: Store)
    requires op != "F" && store == map[0 := made(Kind(opsets, k, "Own"))]
    ensures ExecRegion(Making(none, made), PassedRegion(opsets, k, x, op), store, [])
         == Some([Answered(made, opsets, k, x, op)])
  {
    var w, o := Making(none, made), MakeOp(opsets, k, op, 2);
    MakeExecuted(none, made, opsets, k, op, 2, store);
    var after := store[2 := made(Kind(opsets, k, op))];
    assert [o][1..] == [] && ExecOps(w, [], after) == Some(after);
    assert Assign(store, [], []) == store;
    FetchOne(after, Returned(x));
  }

  lemma BranchExecuted(none: Value, made: OpKind -> Value, opsets: map<string, int>, k: Context, x: Name, op: string,
                       store: Store)
    requires op != "F" && store == map[0 := made(Kind(opsets, k, "Own"))]
    ensures ExecOp(Making(none, made), BranchOp(opsets, k, x, op), store)
         == Some(store[1 := Answered(made, opsets, k, x, op)])
  {
    var w, o, v := Making(none, made), BranchOp(opsets, k, x, op), Answered(made, opsets, k, x, op);
    PassedExecuted(none, made, opsets, k, x, op, store);
    InlinedCallOf(x, op);
    assert [] + [[v]] == [[v]];
    assert w.operator(o.call, [], []) == Ask(0, []) && w.operator(o.call, [], [[v]]) == Done([v]);
    assert RunOperation(w, o, [], store, [[v]], 0) == Some([v]);
    assert RunOperation(w, o, [], store, [], 1) == Some([v]);
    OneAssigned(none, store, 1, v);
  }

  lemma InlinedCallOf(x: Name, op: string)
    ensures CallOf(Unknown, Inlined(x, op), map[]).bodies == ["then_branch"] &&
      CallOf(Unknown, Inlined(x, op), map[]).results == 1
  {
    var attrs := Inlined(x, op).attrs;
    assert BodyAttrsFrom(attrs, map[], 1) == [];
    assert BodyAttrs(attrs, map[]) == [0] && [0][1..] == [];
    assert AttrNames(attrs, []) == [];
  }

  lemma MainExecuted(none: Value, made: OpKind -> Value, opsets: map<string, int>, k: Context, x: Name, op: string)
    requires op != "F"
    ensures ExecRegion(Making(none, made), MainRegion(opsets, k, x, op), map[], [])
         == Some([Answered(made, opsets, BodyContext(k, F(opsets), false), x, op)])
  {
    var w, k' := Making(none, made), BodyContext(k, F(opsets), false);
    var ops, v := BodyOps(opsets, k', x, op), Answered(made, opsets, k', x, op);
    var store: Store := map[0 := made(Kind(opsets, k', "Own"))];
    MakeExecuted(none, made, opsets, k', "Own", 0, map[]);
    BranchExecuted(none, made, opsets, k', x, op, store);
    var after := store[1 := v];
    assert ops[1..] == [ops[1]] && [ops[1]][1..] == [];
    assert ExecOps(w, [], after) == Some(after) && ExecOps(w, [ops[1]], store) == Some(after);
    assert ExecOps(w, ops, map[]) == Some(after);
    assert Assign(map[], [], []) == map[];
    FetchOne(after, 1);
  }

  // ---------------------------------------------------------------- the two ways to go wrong

  /**
   * A name that both the function and the passed graph bind. The graph captures nothing, and its operators mean the
   * same everywhere; yet the model returns what the graph makes, and the imported program what the function made.
   */
  lemma ShadowingChangesMeaning(none: Value, made: OpKind -> Value, k: Context)
    ensures var t, r := Versioned(map[]), ImportGraph(Versioned(map[]), 1, k, [], 0, Main("u", "Make"));
      && r.Some?
      && EvalGraph(Making(none, made), t, 1, k, Main("u", "Make"), map[], [], map[]) == Some([made(Custom("Make", ""))])
      && ExecRegion(Making(none, made), r.value.result, map[], []) == Some([made(Custom("Own", ""))])
    ensures CapturesPassed(Caller("u", "Make"), F(map[]))
    ensures NodesAlike(Versioned(map[]), k, BodyContext(k, F(map[]), false), Passed("u", "Make").nodes)
    ensures !NodesFit(F(map[]).nodes, CallAttrs(F(map[]), Caller("u", "Make").attrs), NameSet(F(map[]).inputs))
  {
    MainInlined(none, made, map[], k, "u", "Make");
    NothingCaptured("u", "Make", map[]);
    SameNameDoesNotFit("Make", map[]);
    MakeIsAlike(k, BodyContext(k, F(map[]), false));
  }

  /** The model means what the graph makes for the caller; the program returns what its region answers. */
  lemma MainInlined(none: Value, made: OpKind -> Value, opsets: map<string, int>, k: Context, x: Name, op: string)
    requires x != "" && op != "F"
    ensures var t, r := Versioned(opsets), ImportGraph(Versioned(opsets), 1, k, [], 0, Main(x, op));
      && r.Some?
      && EvalGraph(Making(none, made), t, 1, k, Main(x, op), map[], [], map[]) == Some([made(Kind(opsets, k, op))])
      && ExecRegion(Making(none, made), r.value.result, map[], [])
        == Some([Answered(made, opsets, BodyContext(k, F(opsets), false), x, op)])
  {
    MainMeans(none, made, opsets, k, x, op);
    MainImported(opsets, k, x, op);
    MainExecuted(none, made, opsets, k, x, op);
  }

  lemma MakeIsAlike(k: Context, k': Context)
    ensures NodesAlike(Versioned(map[]), k, k', Passed("u", "Make").nodes)
  {
    assert NodeAlike(Versioned(map[]), k, k', Maker("u", "Make"));
  }

  /**
   * An operator of another version. The graph captures nothing and binds a name of its own; yet the model returns what
   * version 7 makes, and the imported program what version 9 makes.
   */
  lemma VersionChangesMeaning(none: Value, made: OpKind -> Value, functions: map<string, Function>)
    ensures var opsets: map<string, int> := map["" := 9];
      var t, k := Versioned(opsets), Context(map["" := 7], functions);
      var r := ImportGraph(t, 1, k, [], 0, Main("v", "Op"));
      && r.Some?
      && EvalGraph(Making(none, made), t, 1, k, Main("v", "Op"), map[], [], map[])
        == Some([made(Standard(HandlerKey("Op", Some(7))))])
      && ExecRegion(Making(none, made), r.value.result, map[], []) == Some([made(Standard(HandlerKey("Op", Some(9))))])
      && CapturesPassed(Caller("v", "Op"), F(opsets))
      && NodesFit(F(opsets).nodes, CallAttrs(F(opsets), Caller("v", "Op").attrs), NameSet(F(opsets).inputs))
  {
    var opsets: map<string, int> := map["" := 9];
    var k := Context(map["" := 7], functions);
    MainInlined(none, made, opsets, k, "v", "Op");
    NothingCaptured("v", "Op", opsets);
    OtherNameFits("v", "Op", opsets);
  }

  lemma NothingCaptured(x: Name, op: string, opsets: map<string, int>)
    requires x != ""
    ensures FreeInGraph(Passed(x, op)) == {} && CapturesPassed(Caller(x, op), F(opsets))
  {
    var g := Passed(x, op);
    assert g.nodes[1..] == [] && [x][1..] == [];
    assert FreeInAttrs([]) == {} && NameSet([]) == {} && FreeInNodes([]) == {};
    assert FreeInNode(g.nodes[0]) == {};
    assert Defined(g.nodes) == {x} by {
      assert NameSet([x]) == {x} && Defined([]) == {};
    }
    CallAttributes(x, op, opsets);
  }

  lemma BodyOfF(am: AttrMap, opsets: map<string, int>)
    ensures NodesFit(F(opsets).nodes, am, {}) <==> AttrFits(NameCapture.BRANCH.attrs[0], am, {"u"})
  {
    var nodes := F(opsets).nodes;
    assert nodes[1..] == [NameCapture.BRANCH] && [NameCapture.BRANCH][1..] == [] && ["u"][1..] == [];
    assert NameSet(["u"]) == {"u"};
    assert NodesFit([], am, {"u"} + NameSet(NameCapture.BRANCH.outputs));
    assert NodesFit([NameCapture.BRANCH], am, {"u"}) <==> AttrsFit(NameCapture.BRANCH.attrs, am, {"u"});
    assert AttrsFit(NameCapture.BRANCH.attrs, am, {"u"}) <==> AttrFits(NameCapture.BRANCH.attrs[0], am, {"u"});
    assert {} + NameSet(nodes[0].outputs) == {"u"};
  }

  lemma MakerAvoids(x: Name, op: string, names: set<Name>)
    requires x != ""
    ensures GraphAvoids(Passed(x, op), names) <==> x !in names
  {
    var g := Passed(x, op);
    assert InitializerNames(g) == [] && HeaderNames(g) == {};
    assert NameSet([x]) == {x} by {
      assert [x][1..] == [];
    }
    assert NodeAvoids(g.nodes[0], names) <==> x !in names;
    assert NodesAvoid(g.nodes, names) <==> NodeAvoids(g.nodes[0], names);
  }

  lemma SameNameDoesNotFit(op: string, opsets: map<string, int>)
    ensures !NodesFit(F(opsets).nodes, CallAttrs(F(opsets), Caller("u", op).attrs), NameSet(F(opsets).inputs))
  {
    CallAttributes("u", op, opsets);
    BodyOfF(CallAttrs(F(opsets), Caller("u", op).attrs), opsets);
    MakerAvoids("u", op, {"u"});
  }

  lemma OtherNameFits(x: Name, op: string, opsets: map<string, int>)
    requires x != "" && x != "u"
    ensures NodesFit(F(opsets).nodes, CallAttrs(F(opsets), Caller(x, op).attrs), NameSet(F(opsets).inputs))
  {
    CallAttributes(x, op, opsets);
    BodyOfF(CallAttrs(F(opsets), Caller(x, op).attrs), opsets);
    MakerAvoids(x, op, {"u"});
  }
}
