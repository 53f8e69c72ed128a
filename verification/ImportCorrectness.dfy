/**
 * Importing preserves meaning: the emitted program computes what the graph computes, for every interpretation
 * of the operators.
 */
module ImportCorrectness {
  import opened Wrappers
  import opened OnnxModel
  import opened AttributeReferences
  import opened GraphSemantics
  import opened FreeNames
  import opened CallHygiene
  import opened SsaProgram
  import opened SymbolTable
  import opened GraphImport
  import opened ProperNames
  import opened ImportSuccess

  /** Every name resolves to a value of the program that holds what the name stands for. */
  ghost predicate Matches(scopes: Scopes, env: Env, store: Store) {
    var b := Bindings(scopes);
    b.Keys == env.Keys && forall x :: x in env ==> b[x] in store && store[b[x]] == env[x]
  }

  ghost predicate Below(store: Store, next: Id) {
    forall i :: i in store ==> i < next
  }

  ghost predicate Extends(before: Store, after: Store) {
    forall i :: i in before ==> i in after && after[i] == before[i]
  }

  ghost predicate Holds(store: Store, ids: seq<Id>, vs: seq<Value>) {
    |ids| == |vs| && forall i :: 0 <= i < |ids| ==> ids[i] in store && store[ids[i]] == vs[i]
  }

  /** The operations run from `before` to a store that extends it, below `next`. */
  ghost predicate RunsTo(w: World, ops: seq<Op>, before: Store, after: Store, next: Id) {
    ExecOps(w, ops, before) == Some(after) && Extends(before, after) && Below(after, next)
  }

  // ---------------------------------------------------------------- stores

  lemma {:induction false} FetchHolds(store: Store, ids: seq<Id>, vs: seq<Value>)
    requires Holds(store, ids, vs)
    ensures Fetch(store, ids) == Some(vs)
    decreases |ids|
  {
    if ids != [] {
      var ids', vs' := ids[1..], vs[1..];
      assert forall i :: 0 <= i < |ids'| ==> ids'[i] == ids[i + 1] && vs'[i] == vs[i + 1];
      FetchHolds(store, ids', vs');
      assert ids[0] in store && vs == [vs[0]] + vs';
    }
  }

  /** Assigning consecutive new values keeps the old ones. */
  lemma {:induction false} AssignNew(store: Store, first: Id, vs: seq<Value>)
    requires forall i :: i in store ==> i < first || i >= first + |vs|
    ensures var after := Assign(store, Consecutive(first, |vs|), vs);
      && Extends(store, after) && Holds(after, Consecutive(first, |vs|), vs)
      && forall i :: i in after <==> i in store || first <= i < first + |vs|
    decreases |vs|
  {
    if vs != [] {
      var ids := Consecutive(first, |vs|);
      assert ids[1..] == Consecutive(first + 1, |vs| - 1);
      var mid := store[first := vs[0]];
      AssignNew(mid, first + 1, vs[1..]);
      var after := Assign(store, ids, vs);
      assert after == Assign(mid, ids[1..], vs[1..]);
      assert first in mid;
      forall i | 0 <= i < |ids| ensures ids[i] in after && after[ids[i]] == vs[i] {
        if i > 0 {
          assert ids[1..][i - 1] == ids[i] && vs[1..][i - 1] == vs[i];
        }
      }
    }
  }

  lemma Sequentially(w: World, a: seq<Op>, b: seq<Op>, s0: Store, s1: Store, s2: Store, next1: Id, next2: Id)
    requires RunsTo(w, a, s0, s1, next1) && RunsTo(w, b, s1, s2, next2)
    ensures RunsTo(w, a + b, s0, s2, next2)
  {
    ExecConcat(w, a, b, s0);
  }

  lemma HoldsExtended(before: Store, after: Store, ids: seq<Id>, vs: seq<Value>)
    requires Holds(before, ids, vs) && Extends(before, after)
    ensures Holds(after, ids, vs)
  {
  }

  lemma MatchesExtended(scopes: Scopes, env: Env, before: Store, after: Store)
    requires Matches(scopes, env, before) && Extends(before, after)
    ensures Matches(scopes, env, after)
  {
  }

  // ---------------------------------------------------------------- operands

  lemma {:induction false} NodeInputsCorrect(w: World, scopes: Scopes, inputs: seq<Name>, next: Id, env: Env,
                                             store: Store)
      returns (after: Store, vs: seq<Value>)
    requires Matches(scopes, env, store) && Below(store, next)
    requires forall x :: x in inputs && x != "" ==> x in env
    ensures var r := NodeInputs(scopes, inputs, next);
      RunsTo(w, r.ops, store, after, r.next) && EvalInputs(w, env, inputs) == Some(vs) && Holds(after, r.result, vs)
    decreases |inputs|
  {
    if inputs == [] {
      after, vs := store, [];
    } else {
      var rest := inputs[1..];
      assert forall x :: x in rest ==> x in inputs;
      if inputs[0] == "" {
        var mid := store[next := w.none];
        MatchesExtended(scopes, env, store, mid);
        after, vs := NodeInputsCorrect(w, scopes, rest, next + 1, env, mid);
        var r := NodeInputs(scopes, rest, next + 1);
        NoneFirst(w, next, r.ops, store);
        assert next in mid;
        vs := [w.none] + vs;
        HoldsCons(after, next, r.result, w.none, vs[1..]);
      } else {
        LookupIsBinding(scopes, inputs[0]);
        assert inputs[0] in inputs && inputs[0] in env;
        var id := Bindings(scopes)[inputs[0]];
        assert store[id] == env[inputs[0]];
        after, vs := NodeInputsCorrect(w, scopes, rest, next, env, store);
        HoldsCons(after, id, NodeInputs(scopes, rest, next).result, env[inputs[0]], vs);
        vs := [env[inputs[0]]] + vs;
      }
    }
  }

  lemma NoneFirst(w: World, next: Id, ops: seq<Op>, store: Store)
    ensures ExecOps(w, [NoneOp(next)] + ops, store) == ExecOps(w, ops, store[next := w.none])
  {
    assert ([NoneOp(next)] + ops)[1..] == ops;
  }

  lemma HoldsCons(store: Store, id: Id, ids: seq<Id>, v: Value, vs: seq<Value>)
    requires Holds(store, ids, vs) && id in store && store[id] == v
    ensures Holds(store, [id] + ids, [v] + vs)
  {
  }

  lemma HoldsConcat(store: Store, ids: seq<Id>, vs: seq<Value>, ids': seq<Id>, vs': seq<Value>)
    requires Holds(store, ids, vs) && Holds(store, ids', vs')
    ensures Holds(store, ids + ids', vs + vs')
  {
  }

  lemma {:induction false} NoneValuesCorrect(w: World, n: nat, next: Id, store: Store) returns (after: Store)
    requires Below(store, next)
    ensures var r := NoneValues(n, next);
      RunsTo(w, r.ops, store, after, r.next) && Holds(after, r.result, Fit([], n, w.none))
    decreases n
  {
    if n == 0 {
      after := store;
    } else {
      var mid := store[next := w.none];
      after := NoneValuesCorrect(w, n - 1, next + 1, mid);
      var r, rest := NoneValues(n, next), NoneValues(n - 1, next + 1);
      assert r.ops == [NoneOp(next)] + rest.ops && r.result == [next] + rest.result;
      NoneFirst(w, next, rest.ops, store);
      assert next in mid;
      HoldsCons(after, next, rest.result, w.none, Fit([], n - 1, w.none));
      assert Fit([], n, w.none) == [w.none] + Fit([], n - 1, w.none);
    }
  }

  lemma OperandsCorrect(w: World, scopes: Scopes, inputs: seq<Name>, expected: int, next: Id, env: Env, store: Store)
      returns (after: Store, vs: seq<Value>)
    requires Matches(scopes, env, store) && Below(store, next)
    requires forall x :: x in inputs && x != "" ==> x in env
    ensures var r := Operands(scopes, inputs, expected, next);
      && RunsTo(w, r.ops, store, after, r.next)
      && EvalInputs(w, env, inputs) == Some(vs)
      && Holds(after, r.result, PadInputs(vs, expected, w.none))
  {
    var mid;
    mid, vs := NodeInputsCorrect(w, scopes, inputs, next, env, store);
    var given := NodeInputs(scopes, inputs, next);
    var n := NotNegative(expected - |given.result|);
    after := NoneValuesCorrect(w, n, given.next, mid);
    var padding := NoneValues(n, given.next);
    Sequentially(w, given.ops, padding.ops, store, mid, after, given.next, padding.next);
    HoldsExtended(mid, after, given.result, vs);
    HoldsConcat(after, given.result, vs, padding.result, Fit([], n, w.none));
    assert PadInputs(vs, expected, w.none) == vs + Fit([], n, w.none);
  }

  // ---------------------------------------------------------------- binding and reading names

  lemma BindOne(scopes: Scopes, env: Env, store: Store, name: Name, id: Id)
    requires scopes != [] && Matches(scopes, env, store) && name !in env && id in store
    ensures name !in scopes[|scopes| - 1].names
    ensures Matches(Add(scopes, name, id), env[name := store[id]], store)
  {
    InnermostIsVisible(scopes);
    AddBindings(scopes, name, id);
  }

  lemma {:induction false} AddAllMatches(scopes: Scopes, env: Env, store: Store, names: seq<Name>, ids: seq<Id>,
                                         vs: seq<Value>)
    requires scopes != [] && Matches(scopes, env, store)
    requires |names| == |ids| && Holds(store, ids, vs)
    requires "" !in names && AreNew(names, env.Keys)
    ensures var r := AddAll(scopes, names, ids); r.Some? && Matches(r.value, BindAll(env, names, vs), store)
    decreases |names|
  {
    if names != [] {
      assert names[0] in names;
      NewTail(names, env.Keys);
      BindOne(scopes, env, store, names[0], ids[0]);
      var ids', vs' := ids[1..], vs[1..];
      assert forall i :: 0 <= i < |ids'| ==> ids'[i] == ids[i + 1] && vs'[i] == vs[i + 1];
      var env' := env[names[0] := vs[0]];
      assert env'.Keys == env.Keys + {names[0]};
      AddAllMatches(Add(scopes, names[0], ids[0]), env', store, names[1..], ids', vs');
    }
  }

  lemma {:induction false} AddResultsMatches(scopes: Scopes, env: Env, store: Store, names: seq<Name>, first: Id,
                                             vs: seq<Value>)
    requires scopes != [] && Matches(scopes, env, store)
    requires |names| == |vs| && Holds(store, Consecutive(first, |vs|), vs)
    requires AreNew(names, env.Keys)
    ensures var r := AddResults(scopes, names, first); r.Some? && Matches(r.value, BindAll(env, names, vs), store)
    decreases |names|
  {
    if names != [] {
      NewTail(names, env.Keys);
      var ids, ids', vs' := Consecutive(first, |vs|), Consecutive(first + 1, |vs| - 1), vs[1..];
      assert forall i :: 0 <= i < |ids'| ==> ids'[i] == ids[i + 1] && vs'[i] == vs[i + 1];
      assert ids[0] == first;
      if names[0] == "" {
        AddResultsMatches(scopes, env, store, names[1..], first + 1, vs');
      } else {
        BindOne(scopes, env, store, names[0], first);
        var env' := env[names[0] := vs[0]];
        assert env'.Keys == env.Keys + {names[0]};
        AddResultsMatches(Add(scopes, names[0], first), env', store, names[1..], first + 1, vs');
      }
    }
  }

  lemma {:induction false} ReadCorrect(scopes: Scopes, env: Env, store: Store, names: seq<Name>)
      returns (vs: seq<Value>)
    requires Matches(scopes, env, store)
    requires forall x :: x in names ==> x in env
    ensures ReadAll(env, names) == Some(vs) && Holds(store, BoundValues(scopes, names), vs)
    decreases |names|
  {
    if names == [] {
      vs := [];
    } else {
      assert names[0] in names && forall x :: x in names[1..] ==> x in names;
      LookupIsBinding(scopes, names[0]);
      vs := ReadCorrect(scopes, env, store, names[1..]);
      HoldsCons(store, Bindings(scopes)[names[0]], BoundValues(scopes, names[1..]), env[names[0]], vs);
      vs := [env[names[0]]] + vs;
    }
  }

  // ---------------------------------------------------------------- graphs

  lemma {:induction false} ConstantsCorrect(w: World, initializers: seq<Initializer>, next: Id, vs: seq<Value>,
                                            store: Store)
    requires |vs| == |initializers| && forall i :: 0 <= i < |vs| ==> vs[i] == w.tensor(initializers[i].tensor)
    ensures ExecOps(w, Constants(initializers, next), store) == Some(Assign(store, Consecutive(next, |vs|), vs))
    decreases |initializers|
  {
    if initializers != [] {
      var rest := initializers[1..];
      var ops := Constants(initializers, next);
      assert ops[1..] == Constants(rest, next + 1);
      assert Consecutive(next, |vs|)[1..] == Consecutive(next + 1, |vs| - 1);
      assert ops[0] == ConstantOp(next, initializers[0].tensor);
      ConstantsCorrect(w, rest, next + 1, vs[1..], store[next := vs[0]]);
    }
  }

  /** Entering a region: constants and arguments are in place, and every name inside the graph resolves. */
  lemma EnterGraphCorrect(w: World, scopes: Scopes, next: Id, g: Graph, outer: Env, store: Store, args: seq<Value>)
      returns (inside: Store)
    requires Matches(scopes, outer, store) && Below(store, next) && HeaderIsNew(g, outer.Keys)
    requires |args| == |ParameterNames(g.inputs, InitializerNames(g))|
    ensures ExecOps(w, Constants(g.initializers, next), Assign(store, GraphArgs(next, g), args)) == Some(inside)
    ensures Below(inside, next + |g.initializers| + |args|)
    ensures var r := EnterGraph(scopes, next, g);
      r.Some? && r.value != [] && Matches(r.value, GraphEnv(w, g, outer, args), inside)
    ensures GraphEnv(w, g, outer, args).Keys == GraphNames(g, outer.Keys)
  {
    var names, vs := InitializerNames(g), InitializerValues(w, g);
    var parameters := ParameterNames(g.inputs, names);
    var n := |g.initializers|;
    AssignNew(store, next + n, args);
    var mid := Assign(store, GraphArgs(next, g), args);
    ConstantsCorrect(w, g.initializers, next, vs, mid);
    AssignNew(mid, next, vs);
    inside := Assign(mid, Consecutive(next, n), vs);
    HoldsExtended(mid, inside, GraphArgs(next, g), args);
    PushKeepsBindings(scopes, GraphScope(g.name));
    AddAllMatches(Push(scopes, GraphScope(g.name)), outer, inside, names, Consecutive(next, n), vs);
    BindAllKeys(outer, names, vs);
    EnterGraphSucceeds(scopes, next, g, outer.Keys);
    AddAllSucceeds(Push(scopes, GraphScope(g.name)), names, Consecutive(next, n));
    var scopes1 := AddAll(Push(scopes, GraphScope(g.name)), names, Consecutive(next, n)).value;
    AddAllMatches(scopes1, BindAll(outer, names, vs), inside, parameters, GraphArgs(next, g), args);
    BindAllKeys(BindAll(outer, names, vs), parameters, args);
  }

  /** What it means for emitted operations to simulate an evaluation that starts in a matching store. */
  ghost predicate Simulates(w: World, e: Emitted<Scopes>, store: Store, r: Option<Env>, after: Store) {
    match r
    case None => ExecOps(w, e.ops, store) == None
    case Some(env) => RunsTo(w, e.ops, store, after, e.next) && Matches(e.result, env, after)
  }

  lemma {:induction false} NodesCorrect(w: World, t: Dispatch, d: nat, k: Context, scopes: Scopes, next: Id,
                                        nodes: seq<Node>, env: Env, store: Store)
      returns (after: Store)
    requires scopes != [] && Matches(scopes, env, store) && Below(store, next)
    requires RefFreeNodes(nodes) && WellFormedNodes(t, d, k, nodes, env.Keys)
    ensures var e := ImportNodes(t, d, k, scopes, next, nodes);
      e.Some? && Simulates(w, e.value, store, EvalNodes(w, t, d, k, nodes, env, map[]), after)
    decreases d, nodes, 0, 0
  {
    NodesSucceed(t, d, k, scopes, next, nodes, env.Keys);
    if nodes == [] {
      after := store;
    } else {
      after := NodeCorrect(w, t, d, k, scopes, next, nodes[0], env, store);
      NodeSucceeds(t, d, k, scopes, next, nodes[0], env.Keys);
      var first := ImportNode(t, d, k, scopes, next, nodes[0]).value;
      var rest := ImportNodes(t, d, k, first.result, first.next, nodes[1..]).value;
      ExecConcat(w, first.ops, rest.ops, store);
      match EvalNode(w, t, d, k, nodes[0], env, map[]) {
        case None =>
        case Some(env') =>
          var mid := after;
          after := NodesCorrect(w, t, d, k, first.result, first.next, nodes[1..], env', mid);
      }
    }
  }

  lemma {:induction false} NodeCorrect(w: World, t: Dispatch, d: nat, k: Context, scopes: Scopes, next: Id, node: Node,
                                       env: Env, store: Store)
      returns (after: Store)
    requires scopes != [] && Matches(scopes, env, store) && Below(store, next)
    requires RefFreeAttrs(node.attrs) && WellFormedNode(t, d, k, node, env.Keys)
    ensures var e := ImportNode(t, d, k, scopes, next, node);
      e.Some? && Simulates(w, e.value, store, EvalNode(w, t, d, k, node, env, map[]), after)
    decreases d, node, 3, 0
  {
    var target := t.resolve(k, node.domain, node.opType);
    if target.Call? {
      after := CallCorrect(w, t, d, k, scopes, next, node, target.f, target.fromSchema, env, store);
    } else {
      after := OperationCorrect(w, t, d, k, scopes, next, node, target, env, store);
    }
  }

  lemma {:induction false} OperationCorrect(w: World, t: Dispatch, d: nat, k: Context, scopes: Scopes, next: Id,
                                            node: Node, target: Target, env: Env, store: Store)
      returns (after: Store)
    requires scopes != [] && Matches(scopes, env, store) && Below(store, next)
    requires RefFreeAttrs(node.attrs) && WellFormedNode(t, d, k, node, env.Keys)
    requires target == t.resolve(k, node.domain, node.opType) && !target.Call?
    ensures var e := ImportOperation(t, d, k, scopes, next, node, target);
      e.Some? && Simulates(w, e.value, store, EvalNode(w, t, d, k, node, env, map[]), after)
    decreases d, node, 2, 0
  {
    var expected := t.operands(target);
    var mid, vs := OperandsCorrect(w, scopes, node.inputs, expected, next, env, store);
    var operands := Operands(scopes, node.inputs, expected, next);
    var start := operands.next + |node.outputs|;
    BodiesSucceed(t, d, k, scopes, start, node.attrs, env.Keys);
    var bodies := ImportBodies(t, d, k, scopes, start, node.attrs).value;
    var call := CallOf(target, node, map[]);
    var op := Operation(call, operands.result, bodies.result, operands.next);
    var inputs := PadInputs(vs, expected, w.none);
    MatchesExtended(scopes, env, store, mid);
    RunCorrect(w, t, d, k, scopes, start, node, call, op, inputs, env, mid);
    var run := RunOp(w, t, d, k, node, call, inputs, env, map[], [], w.fuel);
    after := FinishOperation(w, scopes, node, target, operands, bodies, env, store, mid, inputs, run);
    EvalOperation(w, t, d, k, node, target, env, vs, run);
    OperationUnfolds(t, d, k, scopes, next, node, target);
  }

  lemma FinishOperation(w: World, scopes: Scopes, node: Node, target: Target, operands: Emitted<seq<Id>>,
                        bodies: Emitted<seq<Region>>,
                        env: Env, store: Store, mid: Store, inputs: seq<Value>, run: Option<seq<Value>>)
      returns (after: Store)
    requires scopes != [] && Matches(scopes, env, mid) && AreNew(node.outputs, env.Keys)
    requires RunsTo(w, operands.ops, store, mid, operands.next) && Holds(mid, operands.result, inputs)
    requires operands.next + |node.outputs| <= bodies.next
    requires run == RunOperation(w, Operation(CallOf(target, node, map[]), operands.result, bodies.result,
                                              operands.next), inputs, mid, [], w.fuel)
    ensures var e := NameResults(scopes, node, target, operands, Some(bodies));
      e.Some? && Simulates(w, e.value, store,
        if run.Some? then Some(BindAll(env, node.outputs, Fit(run.value, |node.outputs|, w.none))) else None, after)
  {
    var op := Operation(CallOf(target, node, map[]), operands.result, bodies.result, operands.next);
    var results := if run.Some? then run.value else [];
    after := ResultsCorrect(w, scopes, node.outputs, operands.next, env, mid, results);
    ExecOperation(w, operands.ops, op, store, mid, inputs, run);
  }

  lemma EvalOperation(w: World, t: Dispatch, d: nat, k: Context, node: Node, target: Target, env: Env, vs: seq<Value>,
                      run: Option<seq<Value>>)
    requires target == t.resolve(k, node.domain, node.opType) && !target.Call? &&
      EvalInputs(w, env, node.inputs) == Some(vs)
    requires run == RunOp(w, t, d, k, node, CallOf(target, node, map[]), PadInputs(vs, t.operands(target), w.none),
                          env, map[], [], w.fuel)
    ensures EvalNode(w, t, d, k, node, env, map[]) ==
      if run.Some? then Some(BindAll(env, node.outputs, Fit(run.value, |node.outputs|, w.none))) else None
  {
  }

  /** Running the operands and then the operation itself. */
  lemma ExecOperation(w: World, ops: seq<Op>, op: Op, store: Store, mid: Store, inputs: seq<Value>,
                      run: Option<seq<Value>>)
    requires ExecOps(w, ops, store) == Some(mid) && op.Operation?
    requires Holds(mid, op.operands, inputs) && run == RunOperation(w, op, inputs, mid, [], w.fuel)
    ensures ExecOps(w, ops + [op], store) ==
      if run.Some? then Some(Assign(mid, Consecutive(op.result, op.call.results),
                                    Fit(run.value, op.call.results, w.none))) else None
  {
    FetchHolds(mid, op.operands, inputs);
    ExecConcat(w, ops, [op], store);
    assert ExecOps(w, [op], mid) == ExecOp(w, op, mid);
  }

  /** Storing the results of an operation and naming them. */
  lemma ResultsCorrect(w: World, scopes: Scopes, names: seq<Name>, first: Id, env: Env, store: Store,
                       results: seq<Value>) returns (after: Store)
    requires scopes != [] && Matches(scopes, env, store) && Below(store, first) && AreNew(names, env.Keys)
    ensures after == Assign(store, Consecutive(first, |names|), Fit(results, |names|, w.none))
    ensures Extends(store, after) && Below(after, first + |names|)
    ensures var r := AddResults(scopes, names, first);
      r.Some? && Matches(r.value, BindAll(env, names, Fit(results, |names|, w.none)), after)
  {
    var fitted := Fit(results, |names|, w.none);
    AssignNew(store, first, fitted);
    after := Assign(store, Consecutive(first, |names|), fitted);
    MatchesExtended(scopes, env, store, after);
    AddResultsMatches(scopes, env, after, names, first, fitted);
  }

  /** The regions of the operation answer as the nested graphs of the node do. */
  ghost predicate RegionsAnswer(w: World, t: Dispatch, d: nat, k: Context, node: Node, op: Op, env: Env, store: Store) {
    && op.Operation? && |op.regions| == |BodyAttrs(node.attrs, map[])|
    && forall body: nat, args: seq<Value> :: body < |op.regions| ==>
         ExecRegion(w, op.regions[body], store, args) == Answer(w, t, d, k, node, body, env, args, map[])
  }

  /** An operation and a node whose questions get the same answers run alike. */
  lemma {:induction false} RunsAlike(w: World, t: Dispatch, d: nat, k: Context, node: Node, op: Op, inputs: seq<Value>,
                                     env: Env, store: Store,
                                     answers: seq<seq<Value>>, fuel: nat)
    requires RegionsAnswer(w, t, d, k, node, op, env, store)
    ensures RunOp(w, t, d, k, node, op.call, inputs, env, map[], answers, fuel)
         == RunOperation(w, op, inputs, store, answers, fuel)
    decreases fuel
  {
    var step := w.operator(op.call, inputs, answers);
    if step.Ask? && fuel > 0 && step.body < |op.regions| {
      var answer := Answer(w, t, d, k, node, step.body, env, step.args, map[]);
      assert ExecRegion(w, op.regions[step.body], store, step.args) == answer;
      if answer.Some? {
        RunsAlike(w, t, d, k, node, op, inputs, env, store, answers + [answer.value], fuel - 1);
      }
    }
  }

  /** The regions of an operation answer as the nested graphs do. */
  lemma {:induction false} RunCorrect(w: World, t: Dispatch, d: nat, k: Context, scopes: Scopes, next: Id, node: Node,
                                      call: OpCall, op: Op,
                   inputs: seq<Value>, env: Env, store: Store)
    requires Matches(scopes, env, store) && Below(store, next)
    requires RefFreeAttrs(node.attrs) && BodiesAreWellFormed(t, d, k, node.attrs, env.Keys)
    requires op.Operation? && op.call == call && AreRegionsOf(t, d, k, scopes, next, node.attrs, op.regions)
    ensures RunOp(w, t, d, k, node, call, inputs, env, map[], [], w.fuel)
         == RunOperation(w, op, inputs, store, [], w.fuel)
    decreases d, node, 1, 0
  {
    RegionForEachBody(t, d, k, scopes, next, node.attrs, op.regions);
    forall body: nat, args: seq<Value> | body < |op.regions|
      ensures ExecRegion(w, op.regions[body], store, args) == Answer(w, t, d, k, node, body, env, args, map[])
    {
      AnswerCorrect(w, t, d, k, scopes, next, node, op, body, env, store, args);
    }
    RunsAlike(w, t, d, k, node, op, inputs, env, store, [], w.fuel);
  }

  ghost predicate BodiesAreWellFormed(t: Dispatch, d: nat, k: Context, attrs: seq<Attr>, visible: set<Name>) {
    forall i :: 0 <= i < |attrs| && attrs[i].value.Subgraph? ==> WellFormedGraph(t, d, k, attrs[i].value.graph, visible)
  }

  ghost predicate AreRegionsOf(t: Dispatch, d: nat, k: Context, scopes: Scopes, next: Id, attrs: seq<Attr>,
                               regions: seq<Region>) {
    var bodies := ImportBodies(t, d, k, scopes, next, attrs);
    bodies.Some? && bodies.value.result == regions
  }

  lemma {:induction false} AnswerCorrect(w: World, t: Dispatch, d: nat, k: Context, scopes: Scopes, next: Id,
                                         node: Node, op: Op, body: nat,
                      env: Env, store: Store, args: seq<Value>)
    requires Matches(scopes, env, store) && Below(store, next)
    requires RefFreeAttrs(node.attrs) && BodiesAreWellFormed(t, d, k, node.attrs, env.Keys)
    requires op.Operation? && AreRegionsOf(t, d, k, scopes, next, node.attrs, op.regions)
    requires body < |op.regions| == |BodyAttrs(node.attrs, map[])| == |Graphs(node.attrs)|
    ensures ExecRegion(w, op.regions[body], store, args) == Answer(w, t, d, k, node, body, env, args, map[])
    decreases d, node, 0, 0
  {
    BodyGraphs(node.attrs, 0);
    assert node.attrs[0..] == node.attrs;
    var attr := node.attrs[BodyAttrs(node.attrs, map[])[body]];
    var next' := RegionAt(t, d, k, scopes, next, node.attrs, body);
    assert RefFreeValue(attr.value);
    GraphCorrect(w, t, d, k, scopes, next', attr.value.graph, env, store, args);
  }

  lemma RegionForEachBody(t: Dispatch, d: nat, k: Context, scopes: Scopes, next: Id, attrs: seq<Attr>,
                          regions: seq<Region>)
    requires RefFreeAttrs(attrs) && AreRegionsOf(t, d, k, scopes, next, attrs, regions)
    ensures |regions| == |BodyAttrs(attrs, map[])| == |Graphs(attrs)|
  {
    RegionCount(t, d, k, scopes, next, attrs);
    BodyGraphs(attrs, 0);
    assert attrs[0..] == attrs;
  }

  /** The nested graphs of a reference-free attribute list. */
  function Graphs(attrs: seq<Attr>): seq<Graph> {
    if attrs == [] then []
    else if attrs[0].value.Subgraph? then [attrs[0].value.graph] + Graphs(attrs[1..])
    else Graphs(attrs[1..])
  }

  lemma {:induction false} BodyGraphs(attrs: seq<Attr>, from: nat)
    requires from <= |attrs| && RefFreeAttrs(attrs)
    ensures var l, g := BodyAttrsFrom(attrs, map[], from), Graphs(attrs[from..]);
      |l| == |g| && forall i :: 0 <= i < |l| ==> attrs[l[i]].refName == "" && attrs[l[i]].value.graph == g[i]
    decreases |attrs| - from
  {
    if from < |attrs| {
      assert attrs[from..][1..] == attrs[from + 1..] && attrs[from..][0] == attrs[from];
      assert attrs[from].refName == "";
      BodyGraphs(attrs, from + 1);
    }
  }

  lemma {:induction false} RegionCount(t: Dispatch, d: nat, k: Context, scopes: Scopes, next: Id, attrs: seq<Attr>)
    requires ImportBodies(t, d, k, scopes, next, attrs).Some?
    ensures |ImportBodies(t, d, k, scopes, next, attrs).value.result| == |Graphs(attrs)|
    decreases |attrs|
  {
    if attrs != [] {
      if attrs[0].value.Data? {
        RegionCount(t, d, k, scopes, next, attrs[1..]);
      } else {
        RegionCount(t, d, k, scopes, ImportGraph(t, d, k, scopes, next, attrs[0].value.graph).value.next, attrs[1..]);
      }
    }
  }

  /** The value number at which the import of the `i`-th nested graph starts. */
  lemma {:induction false} RegionAt(t: Dispatch, d: nat, k: Context, scopes: Scopes, next: Id, attrs: seq<Attr>,
                                    i: nat) returns (next': Id)
    requires ImportBodies(t, d, k, scopes, next, attrs).Some?
    requires i < |Graphs(attrs)| == |ImportBodies(t, d, k, scopes, next, attrs).value.result|
    ensures next' >= next
    ensures var r := ImportGraph(t, d, k, scopes, next', Graphs(attrs)[i]);
      r.Some? && r.value.result == ImportBodies(t, d, k, scopes, next, attrs).value.result[i]
    decreases |attrs|
  {
    if attrs[0].value.Data? {
      next' := RegionAt(t, d, k, scopes, next, attrs[1..], i);
    } else if i == 0 {
      next' := next;
    } else {
      var first := ImportGraph(t, d, k, scopes, next, attrs[0].value.graph).value;
      next' := RegionAt(t, d, k, scopes, first.next, attrs[1..], i - 1);
    }
  }

  /** A nested graph and the region made from it give the same answers, wherever they are asked. */
  lemma {:induction false} GraphCorrect(w: World, t: Dispatch, d: nat, k: Context, scopes: Scopes, next: Id, g: Graph,
                                        outer: Env, store: Store, args: seq<Value>)
    requires Matches(scopes, outer, store) && Below(store, next)
    requires RefFreeNodes(g.nodes) && WellFormedGraph(t, d, k, g, outer.Keys)
    ensures var r := ImportGraph(t, d, k, scopes, next, g);
      r.Some? && ExecRegion(w, r.value.result, store, args) == EvalGraph(w, t, d, k, g, outer, args, map[])
    decreases d, g, 1, 0
  {
    GraphSucceeds(t, d, k, scopes, next, g, outer.Keys);
    if |args| == |ParameterNames(g.inputs, InitializerNames(g))| {
      var inside := EnterGraphCorrect(w, scopes, next, g, outer, store, args);
      var names := GraphNames(g, outer.Keys);
      assert forall x :: x in g.outputs ==> x in names + Defined(g.nodes);
      RegionCorrect(w, t, d, k, scopes, next, g, EnterGraph(scopes, next, g).value, outer, store, inside, args);
    }
  }

  lemma {:induction false} RegionCorrect(w: World, t: Dispatch, d: nat, k: Context, scopes: Scopes, next: Id, g: Graph,
                                         scopes': Scopes,
                      outer: Env, store: Store, inside: Store, args: seq<Value>)
    requires |args| == |ParameterNames(g.inputs, InitializerNames(g))|
    requires EnterGraph(scopes, next, g) == Some(scopes') && scopes' != []
    requires ExecOps(w, Constants(g.initializers, next), Assign(store, GraphArgs(next, g), args)) == Some(inside)
    requires var env := GraphEnv(w, g, outer, args);
      && Matches(scopes', env, inside) && Below(inside, next + |g.initializers| + |args|)
      && WellFormedNodes(t, d, k, g.nodes, env.Keys) && forall x :: x in g.outputs ==> x in env.Keys + Defined(g.nodes)
    requires RefFreeNodes(g.nodes) && ImportGraph(t, d, k, scopes, next, g).Some?
    ensures ExecRegion(w, ImportGraph(t, d, k, scopes, next, g).value.result, store, args)
         == EvalGraph(w, t, d, k, g, outer, args, map[])
    decreases d, g, 0, 0
  {
    var start := next + |g.initializers| + |GraphArgs(next, g)|;
    var body, after := GraphNodesCorrect(w, t, d, k, scopes', start, g, GraphEnv(w, g, outer, args), inside);
    FinishRegion(w, t, d, k, scopes, next, g, scopes', body, outer, store, inside, args, after);
  }

  lemma {:induction false} GraphNodesCorrect(w: World, t: Dispatch, d: nat, k: Context, scopes: Scopes, start: Id,
                                             g: Graph, env: Env, store: Store)
      returns (body: Emitted<Scopes>, after: Store)
    requires scopes != [] && Matches(scopes, env, store) && Below(store, start)
    requires RefFreeNodes(g.nodes) && WellFormedNodes(t, d, k, g.nodes, env.Keys)
    requires forall x :: x in g.outputs ==> x in env.Keys + Defined(g.nodes)
    ensures ImportNodes(t, d, k, scopes, start, g.nodes) == Some(body)
    ensures Simulates(w, body, store, EvalNodes(w, t, d, k, g.nodes, env, map[]), after)
    ensures forall x :: x in g.outputs ==> x in Bindings(body.result)
    decreases d, g.nodes, 1, 0
  {
    after := NodesCorrect(w, t, d, k, scopes, start, g.nodes, env, store);
    NodesSucceed(t, d, k, scopes, start, g.nodes, env.Keys);
    body := ImportNodes(t, d, k, scopes, start, g.nodes).value;
  }

  lemma FinishRegion(w: World, t: Dispatch, d: nat, k: Context, scopes: Scopes, next: Id, g: Graph, scopes': Scopes,
                     body: Emitted<Scopes>,
                     outer: Env, store: Store, inside: Store, args: seq<Value>, after: Store)
    requires |args| == |ParameterNames(g.inputs, InitializerNames(g))|
    requires EnterGraph(scopes, next, g) == Some(scopes') && ImportGraph(t, d, k, scopes, next, g).Some?
    requires ImportNodes(t, d, k, scopes', next + |g.initializers| + |GraphArgs(next, g)|, g.nodes) == Some(body)
    requires ExecOps(w, Constants(g.initializers, next), Assign(store, GraphArgs(next, g), args)) == Some(inside)
    requires Simulates(w, body, inside, EvalNodes(w, t, d, k, g.nodes, GraphEnv(w, g, outer, args), map[]), after)
    requires forall x :: x in g.outputs ==> x in Bindings(body.result)
    ensures ExecRegion(w, ImportGraph(t, d, k, scopes, next, g).value.result, store, args)
         == EvalGraph(w, t, d, k, g, outer, args, map[])
  {
    ImportedRegion(t, d, k, scopes, next, g, scopes', body);
    LeaveGraphCorrect(w, next, g, body, store, inside, args,
                      EvalNodes(w, t, d, k, g.nodes, GraphEnv(w, g, outer, args), map[]), after);
    EvalGraphEnds(w, t, d, k, g, outer, args);
  }

  lemma EvalGraphEnds(w: World, t: Dispatch, d: nat, k: Context, g: Graph, outer: Env, args: seq<Value>)
    requires |args| == |ParameterNames(g.inputs, InitializerNames(g))|
    ensures var r := EvalNodes(w, t, d, k, g.nodes, GraphEnv(w, g, outer, args), map[]);
      EvalGraph(w, t, d, k, g, outer, args, map[]) == if r.Some? then ReadAll(r.value, g.outputs) else None
  {
  }

  lemma ImportedRegion(t: Dispatch, d: nat, k: Context, scopes: Scopes, next: Id, g: Graph, scopes': Scopes,
                       body: Emitted<Scopes>)
    requires EnterGraph(scopes, next, g) == Some(scopes')
    requires ImportNodes(t, d, k, scopes', next + |g.initializers| + |GraphArgs(next, g)|, g.nodes) == Some(body)
    requires ImportGraph(t, d, k, scopes, next, g).Some?
    ensures ImportGraph(t, d, k, scopes, next, g).value.result ==
      Region(GraphArgs(next, g), Constants(g.initializers, next) + body.ops, BoundValues(body.result, g.outputs))
  {
  }

  lemma LeaveGraphCorrect(w: World, next: Id, g: Graph, body: Emitted<Scopes>, store: Store, inside: Store,
                          args: seq<Value>, r: Option<Env>, after: Store)
    requires |args| == |ParameterNames(g.inputs, InitializerNames(g))|
    requires ExecOps(w, Constants(g.initializers, next), Assign(store, GraphArgs(next, g), args)) == Some(inside)
    requires Simulates(w, body, inside, r, after)
    requires forall x :: x in g.outputs ==> x in Bindings(body.result)
    ensures ExecRegion(w, Region(GraphArgs(next, g), Constants(g.initializers, next) + body.ops,
                                 BoundValues(body.result, g.outputs)), store, args)
         == if r.Some? then ReadAll(r.value, g.outputs) else None
  {
    ExecConcat(w, Constants(g.initializers, next), body.ops, Assign(store, GraphArgs(next, g), args));
    if r.Some? {
      var vs := ReadCorrect(body.result, r.value, after, g.outputs);
      FetchHolds(after, BoundValues(body.result, g.outputs), vs);
    }
  }

  lemma EnterCallCorrect(w: World, scopes: Scopes, next: Id, node: Node, f: Function, env: Env, store: Store)
      returns (mid: Store, vs: seq<Value>)
    requires Matches(scopes, env, store) && Below(store, next)
    requires forall x :: x in node.inputs && x != "" ==> x in env
    requires |node.inputs| <= |f.inputs| && "" !in f.inputs && AreNew(f.inputs, {})
    ensures EvalInputs(w, env, node.inputs) == Some(vs)
    ensures var args := Arguments(scopes, node, f, next);
      && args.Some? && RunsTo(w, args.value.ops, store, mid, args.value.next)
      && var inside := EnterCall(node, f, args.value.result);
         inside.Some? && inside.value != [] && Matches(inside.value, ParameterEnv(w, f, vs), mid)
    ensures ParameterEnv(w, f, vs).Keys == NameSet(f.inputs)
  {
    mid, vs := OperandsCorrect(w, scopes, node.inputs, |f.inputs|, next, env, store);
    ArgumentsSucceed(scopes, node, f, next);
    var args := Arguments(scopes, node, f, next).value;
    var fitted := Fit(vs, |f.inputs|, w.none);
    assert PadInputs(vs, |f.inputs|, w.none) == fitted;
    PushKeepsBindings<Id>([], CallScopeName(node, f));
    AddAllMatches(Push([], CallScopeName(node, f)), map[], mid, f.inputs, args.result, fitted);
    BindAllKeys(map[], f.inputs, fitted);
    EnterCallSucceeds(node, f, args.result);
  }

  lemma LeaveCallCorrect(w: World, scopes: Scopes, node: Node, f: Function, inside: Scopes, env: Env, env': Env,
                         store: Store)
      returns (results: seq<Value>)
    requires scopes != [] && Matches(scopes, env, store) && Matches(inside, env', store)
    requires |node.outputs| == |f.outputs| && "" !in node.outputs && AreNew(node.outputs, env.Keys)
    requires forall x :: x in f.outputs ==> x in env'
    ensures ReadAll(env', f.outputs) == Some(results)
    ensures var r := LeaveCall(scopes, node, f, inside);
      r.Some? && Matches(r.value, BindAll(env, node.outputs, Fit(results, |node.outputs|, w.none)), store)
  {
    results := ReadCorrect(inside, env', store, f.outputs);
    var outputs := BoundValues(inside, f.outputs);
    assert node.outputs[..|outputs|] == node.outputs;
    assert Fit(results, |node.outputs|, w.none) == results;
    AddAllMatches(scopes, env, store, node.outputs, outputs, results);
  }

  /** Calling the function means running the inlined body on the argument values. */
  ghost predicate MeansInlined(w: World, t: Dispatch, d: nat, k: Context, node: Node, f: Function, fromSchema: bool,
                               env: Env, vs: seq<Value>) {
    && d > 0
    && EvalCall(w, t, d, k, node, f, fromSchema, vs, env, map[]) ==
       match EvalNodes(w, t, d - 1, BodyContext(k, f, fromSchema), SubstNodes(f.nodes, CallAttrs(f, node.attrs)),
                       ParameterEnv(w, f, vs), map[])
       case None => None
       case Some(env') => ReadAll(env', f.outputs)
  }

  lemma WellFormedCallMeaning(w: World, t: Dispatch, d: nat, k: Context, node: Node, f: Function, fromSchema: bool,
                              env: Env, vs: seq<Value>)
    requires RefFreeAttrs(node.attrs) && WellFormedCall(t, d, k, node, f, fromSchema)
    requires EvalInputs(w, env, node.inputs) == Some(vs)
    ensures MeansInlined(w, t, d, k, node, f, fromSchema, env, vs)
    ensures RefFreeNodes(SubstNodes(f.nodes, CallAttrs(f, node.attrs)))
  {
    CallAttrsRefFree(f, node.attrs);
    SubstNodesRefFree(f.nodes, CallAttrs(f, node.attrs));
    ProperAvoids(f.nodes, NameSet(f.inputs), NameSet(f.inputs));
    assert forall a, b :: 0 <= a < b < |f.inputs| ==> f.inputs[b] in f.inputs && f.inputs[a] != f.inputs[b];
    CallMeaning(w, t, d, k, node, f, fromSchema, env);
  }

  /**
   * Inlining a call: the caller's names are out of sight, and the results are those of calling the function, in
   * which the graphs passed to it keep the caller's names.
   */
  lemma {:induction false} CallCorrect(w: World, t: Dispatch, d: nat, k: Context, scopes: Scopes, next: Id, node: Node,
                                       f: Function, fromSchema: bool, env: Env, store: Store)
      returns (after: Store)
    requires scopes != [] && Matches(scopes, env, store) && Below(store, next)
    requires RefFreeAttrs(node.attrs) && WellFormedNode(t, d, k, node, env.Keys)
    requires t.resolve(k, node.domain, node.opType) == Call(f, fromSchema)
    ensures var e := ImportCall(t, d, k, scopes, next, node, f, fromSchema);
      e.Some? && Simulates(w, e.value, store, EvalNode(w, t, d, k, node, env, map[]), after)
    decreases d, node, 2, 0
  {
    var mid, vs := EnterCallCorrect(w, scopes, next, node, f, env, store);
    var args := Arguments(scopes, node, f, next).value;
    var scopes' := EnterCall(node, f, args.result).value;
    WellFormedCallMeaning(w, t, d, k, node, f, fromSchema, env, vs);
    after := BodyCorrect(w, t, d, k, scopes, node, f, fromSchema, env, mid, args.next, vs, scopes');
    FinishCall(w, t, d, k, scopes, next, node, f, fromSchema, env, store, mid, vs, args, scopes', after);
  }

  /** The inlined body, followed by naming its results in the caller's table. */
  lemma {:induction false} BodyCorrect(w: World, t: Dispatch, d: nat, k: Context, scopes: Scopes, node: Node,
                                       f: Function, fromSchema: bool, env: Env, mid: Store,
                    next: Id, vs: seq<Value>, scopes': Scopes) returns (after: Store)
    requires scopes != [] && Matches(scopes, env, mid) && Below(mid, next)
    requires scopes' != [] && Matches(scopes', ParameterEnv(w, f, vs), mid) &&
      ParameterEnv(w, f, vs).Keys == NameSet(f.inputs)
    requires WellFormedCall(t, d, k, node, f, fromSchema) && AreNew(node.outputs, env.Keys)
    requires RefFreeNodes(SubstNodes(f.nodes, CallAttrs(f, node.attrs)))
    ensures CallSimulated(w, t, d, k, scopes, node, f, fromSchema, env, mid, next, vs, scopes', after)
    decreases d, node, 1, 0
  {
    var body := SubstNodes(f.nodes, CallAttrs(f, node.attrs));
    var k', params := BodyContext(k, f, fromSchema), ParameterEnv(w, f, vs);
    BodyIsFormed(t, d, k, node, f, fromSchema);
    after := NodesCorrect(w, t, d - 1, k', scopes', next, body, params, mid);
    var inlined := ImportNodes(t, d - 1, k', scopes', next, body).value;
    NodesSucceed(t, d - 1, k', scopes', next, body, NameSet(f.inputs));
    LeaveCallSucceeds(scopes, node, f, inlined.result);
    var r := EvalNodes(w, t, d - 1, k', body, params, map[]);
    if r.Some? {
      MatchesExtended(scopes, env, mid, after);
      var results := LeaveCallCorrect(w, scopes, node, f, inlined.result, env, r.value, after);
    }
  }

  ghost predicate CallSimulated(w: World, t: Dispatch, d: nat, k: Context, scopes: Scopes, node: Node, f: Function,
                                fromSchema: bool, env: Env, mid: Store,
                                next: Id, vs: seq<Value>, scopes': Scopes, after: Store)
  {
    && d > 0
    && var body := SubstNodes(f.nodes, CallAttrs(f, node.attrs));
    && var inlined := ImportNodes(t, d - 1, BodyContext(k, f, fromSchema), scopes', next, body);
    && inlined.Some?
    && var named := LeaveCall(scopes, node, f, inlined.value.result);
    && named.Some?
    && match EvalNodes(w, t, d - 1, BodyContext(k, f, fromSchema), body, ParameterEnv(w, f, vs), map[])
       case None => ExecOps(w, inlined.value.ops, mid) == None
       case Some(env') =>
         && RunsTo(w, inlined.value.ops, mid, after, inlined.value.next)
         && var results := ReadAll(env', f.outputs);
         && results.Some?
         && Matches(named.value, BindAll(env, node.outputs, Fit(results.value, |node.outputs|, w.none)), after)
  }

  lemma FinishCall(w: World, t: Dispatch, d: nat, k: Context, scopes: Scopes, next: Id, node: Node, f: Function,
                   fromSchema: bool, env: Env, store: Store,
                   mid: Store, vs: seq<Value>, args: Emitted<seq<Id>>, scopes': Scopes, after: Store)
    requires t.resolve(k, node.domain, node.opType) == Call(f, fromSchema) && |node.inputs| <= |f.inputs| &&
      |node.outputs| <= |f.outputs|
    requires MeansInlined(w, t, d, k, node, f, fromSchema, env, vs)
    requires EvalInputs(w, env, node.inputs) == Some(vs) && Arguments(scopes, node, f, next) == Some(args)
    requires RunsTo(w, args.ops, store, mid, args.next) && EnterCall(node, f, args.result) == Some(scopes')
    requires CallSimulated(w, t, d, k, scopes, node, f, fromSchema, env, mid, args.next, vs, scopes', after)
    ensures var e := ImportCall(t, d, k, scopes, next, node, f, fromSchema);
      e.Some? && Simulates(w, e.value, store, EvalNode(w, t, d, k, node, env, map[]), after)
  {
    var body := SubstNodes(f.nodes, CallAttrs(f, node.attrs));
    var inlined := ImportNodes(t, d - 1, BodyContext(k, f, fromSchema), scopes', args.next, body).value;
    ExecConcat(w, args.ops, inlined.ops, store);
  }
}
