/**
 * Sorting preserves meaning: in single-assignment form, every topological order of the same nodes computes the
 * same values, provided that what nested graphs capture is there in time.
 */
module SortMeaning {
  import opened Wrappers
  import opened OnnxModel
  import opened GraphSemantics
  import opened FreeNames
  import opened ProperNames
  import opened ImportSuccess
  import TopologicalSort

  // ---------------------------------------------------------------- all orders compute the same

  /** A node list in single-assignment form that can run from the visible names. */
  predicate Runnable(nodes: seq<Node>, visible: set<Name>) {
    nodes == [] ||
    (FreeInNode(nodes[0]) <= visible && AreNew(nodes[0].outputs, visible) &&
     Runnable(nodes[1..], visible + NameSet(nodes[0].outputs)))
  }

  ghost predicate Submap(a: Env, b: Env) {
    forall x :: x in a ==> x in b && b[x] == a[x]
  }

  /** The final environment holds what the node computes in it. */
  ghost predicate Explains(w: World, t: Dispatch, d: nat, k: Context, final: Env, node: Node) {
    var r := NodeResults(w, t, d, k, node, final, map[]);
    r.Some? && Submap(BindAll(map[], node.outputs, Fit(r.value, |node.outputs|, w.none)), final)
  }

  lemma {:induction false} BindNew(env: Env, names: seq<Name>, vs: seq<Value>)
    requires |names| == |vs| && AreNew(names, env.Keys)
    ensures var after := BindAll(env, names, vs);
      && Submap(env, after) && after.Keys == env.Keys + NameSet(names)
      && forall i :: 0 <= i < |names| && names[i] != "" ==> names[i] in after && after[names[i]] == vs[i]
    decreases |names|
  {
    if names != [] {
      NewTail(names, env.Keys);
      var mid := if names[0] == "" then env else env[names[0] := vs[0]];
      assert mid.Keys == env.Keys + if names[0] == "" then {} else {names[0]};
      BindNew(mid, names[1..], vs[1..]);
      var after := BindAll(env, names, vs);
      forall i | 0 <= i < |names| && names[i] != "" ensures names[i] in after && after[names[i]] == vs[i] {
        if i > 0 {
          assert names[1..][i - 1] == names[i] && vs[1..][i - 1] == vs[i];
        } else {
          assert names[0] in mid;
        }
      }
    }
  }

  /** Binding new names on their own gives the part of the environment that they add. */
  lemma BindAlone(env: Env, names: seq<Name>, vs: seq<Value>, final: Env)
    requires |names| == |vs| && AreNew(names, env.Keys) && Submap(env, final)
    ensures Submap(BindAll(env, names, vs), final) <==> Submap(BindAll(map[], names, vs), final)
  {
    BindNew(env, names, vs);
    assert AreNew(names, {});
    BindNew(map[], names, vs);
    var a, b := BindAll(env, names, vs), BindAll(map[], names, vs);
    forall x | x in NameSet(names) ensures x in a && x in b && a[x] == b[x] {
      var i := IndexIn(names, x);
    }
  }

  lemma {:induction false} IndexIn(names: seq<Name>, x: Name) returns (i: nat)
    requires x in NameSet(names)
    ensures i < |names| && names[i] == x && x != ""
    decreases |names|
  {
    if names[0] == x && x != "" {
      i := 0;
    } else {
      i := IndexIn(names[1..], x);
      i := i + 1;
    }
  }

  lemma SubmapAgrees(a: Env, b: Env, names: set<Name>)
    requires Submap(a, b) && names <= a.Keys
    ensures AgreeOn(a, b, names)
  {
  }

  lemma FirstIsExplained(w: World, t: Dispatch, d: nat, k: Context, node: Node, env: Env, final: Env)
    requires FreeInNode(node) <= env.Keys && AreNew(node.outputs, env.Keys) && Submap(env, final)
    requires var r := NodeResults(w, t, d, k, node, env, map[]);
      r.Some? && Submap(BindAll(env, node.outputs, Fit(r.value, |node.outputs|, w.none)), final)
    ensures Explains(w, t, d, k, final, node)
  {
    SubmapAgrees(env, final, FreeInNode(node));
    ResultsLocal(w, t, d, k, node, env, final, map[], map[]);
    BindAlone(env, node.outputs, Fit(NodeResults(w, t, d, k, node, env, map[]).value, |node.outputs|, w.none), final);
  }

  /** A run ends in an environment that extends the first one and explains every node. */
  lemma {:induction false} RunExplains(w: World, t: Dispatch, d: nat, k: Context, nodes: seq<Node>, env: Env,
                                       final: Env)
    requires Runnable(nodes, env.Keys)
    requires EvalNodes(w, t, d, k, nodes, env, map[]) == Some(final)
    ensures Submap(env, final) && final.Keys == env.Keys + Defined(nodes)
    ensures forall i :: 0 <= i < |nodes| ==> Explains(w, t, d, k, final, nodes[i])
    decreases |nodes|
  {
    if nodes != [] {
      var node := nodes[0];
      var r := NodeResults(w, t, d, k, node, env, map[]);
      var vs := Fit(r.value, |node.outputs|, w.none);
      var mid := BindAll(env, node.outputs, vs);
      BindNew(env, node.outputs, vs);
      RunExplains(w, t, d, k, nodes[1..], mid, final);
      FirstIsExplained(w, t, d, k, node, env, final);
      assert forall i :: 1 <= i < |nodes| ==> nodes[i] == nodes[1..][i - 1];
    }
  }

  /** Conversely, nodes that an environment explains run to the part of it that they define. */
  lemma {:induction false} ExplainedRuns(w: World, t: Dispatch, d: nat, k: Context, nodes: seq<Node>, env: Env,
                                         final: Env)
    requires Runnable(nodes, env.Keys) && Submap(env, final)
    requires forall i :: 0 <= i < |nodes| ==> Explains(w, t, d, k, final, nodes[i])
    ensures var r := EvalNodes(w, t, d, k, nodes, env, map[]);
      r.Some? && Submap(r.value, final) && r.value.Keys == env.Keys + Defined(nodes)
    decreases |nodes|
  {
    if nodes != [] {
      var node := nodes[0];
      SubmapAgrees(env, final, FreeInNode(node));
      ResultsLocal(w, t, d, k, node, env, final, map[], map[]);
      var vs := Fit(NodeResults(w, t, d, k, node, final, map[]).value, |node.outputs|, w.none);
      var mid := BindAll(env, node.outputs, vs);
      BindNew(env, node.outputs, vs);
      BindAlone(env, node.outputs, vs, final);
      assert forall i :: 0 <= i < |nodes[1..]| ==> nodes[1..][i] == nodes[i + 1];
      ExplainedRuns(w, t, d, k, nodes[1..], mid, final);
    }
  }

  /** Two runnable arrangements of the same nodes have the same outcome. */
  lemma OrdersAgree(w: World, t: Dispatch, d: nat, k: Context, a: seq<Node>, b: seq<Node>, env: Env)
    requires Runnable(a, env.Keys) && Runnable(b, env.Keys)
    requires (forall x :: x in a <==> x in b) && Defined(a) == Defined(b)
    ensures EvalNodes(w, t, d, k, a, env, map[]) == EvalNodes(w, t, d, k, b, env, map[])
  {
    OutcomeCarriesOver(w, t, d, k, a, b, env);
    OutcomeCarriesOver(w, t, d, k, b, a, env);
  }

  lemma OutcomeCarriesOver(w: World, t: Dispatch, d: nat, k: Context, a: seq<Node>, b: seq<Node>, env: Env)
    requires Runnable(a, env.Keys) && Runnable(b, env.Keys)
    requires (forall x :: x in b ==> x in a) && Defined(a) == Defined(b)
    ensures var r := EvalNodes(w, t, d, k, a, env, map[]);
      r.Some? ==> EvalNodes(w, t, d, k, b, env, map[]) == r
  {
    var r := EvalNodes(w, t, d, k, a, env, map[]);
    if r.Some? {
      RunExplains(w, t, d, k, a, env, r.value);
      forall i | 0 <= i < |b| ensures Explains(w, t, d, k, r.value, b[i]) {
        assert b[i] in a;
      }
      ExplainedRuns(w, t, d, k, b, env, r.value);
      SubmapWithAllKeys(EvalNodes(w, t, d, k, b, env, map[]).value, r.value);
    }
  }

  lemma SubmapWithAllKeys(a: Env, b: Env)
    requires Submap(a, b) && a.Keys == b.Keys
    ensures a == b
  {
  }

  /** In every run of a runnable list, each node finds all its inputs. */
  lemma {:induction false} NeverUnbound(w: World, t: Dispatch, d: nat, k: Context, nodes: seq<Node>, env: Env, i: nat,
                                        reached: Env)
    requires Runnable(nodes, env.Keys) && i < |nodes|
    requires EvalNodes(w, t, d, k, nodes[..i], env, map[]) == Some(reached)
    ensures EvalInputs(w, reached, nodes[i].inputs).Some?
    decreases i
  {
    if i == 0 {
      InputsBound(w, env, nodes[0].inputs);
    } else {
      var prefix := nodes[..i];
      assert prefix[0] == nodes[0] && prefix[1..] == nodes[1..][..i - 1];
      var r := NodeResults(w, t, d, k, nodes[0], env, map[]);
      var mid := BindAll(env, nodes[0].outputs, Fit(r.value, |nodes[0].outputs|, w.none));
      BindNew(env, nodes[0].outputs, Fit(r.value, |nodes[0].outputs|, w.none));
      NeverUnbound(w, t, d, k, nodes[1..], mid, i - 1, reached);
    }
  }

  // ---------------------------------------------------------------- what sorting does to the meaning

  /** Output names are new and unique. */
  ghost predicate IsSingleAssignment(nodes: seq<Node>, visible: set<Name>) {
    && "" !in visible
    && TopologicalSort.UniqueOutputs(nodes)
    && forall i :: 0 <= i < |nodes| ==> AreNew(nodes[i].outputs, visible)
  }

  /** What the nested graphs of each node capture is visible or output by an earlier node. */
  predicate CapturesAreReady(nodes: seq<Node>, visible: set<Name>) {
    nodes == [] ||
    (FreeInAttrs(nodes[0].attrs) <= visible && CapturesAreReady(nodes[1..], visible + NameSet(nodes[0].outputs)))
  }

  /**
   * A sorted single-assignment list can run exactly when the captures, which sorting does not look at, are ready too.
   */
  lemma {:induction false} SortedIsRunnable(nodes: seq<Node>, visible: set<Name>)
    requires IsSingleAssignment(nodes, visible) && TopologicalSort.Sorted(visible + {""}, nodes)
    ensures Runnable(nodes, visible) <==> CapturesAreReady(nodes, visible)
    decreases |nodes|
  {
    if nodes != [] {
      var node, rest := nodes[0], nodes[1..];
      var outs := NameSet(node.outputs);
      NameSetMembers(node.outputs);
      NameSetMembers(node.inputs);
      forall x | x in node.inputs && x != "" ensures x in visible {
        assert x in nodes[0].inputs;
        assert !TopologicalSort.ProducedBefore(nodes, 0, x);
      }
      RestIsSingleAssignment(nodes, visible);
      SortedIsRunnable(rest, visible + outs);
    }
  }

  lemma RestIsSingleAssignment(nodes: seq<Node>, visible: set<Name>)
    requires nodes != [] && IsSingleAssignment(nodes, visible) && TopologicalSort.Sorted(visible + {""}, nodes)
    ensures IsSingleAssignment(nodes[1..], visible + NameSet(nodes[0].outputs))
    ensures TopologicalSort.Sorted(visible + NameSet(nodes[0].outputs) + {""}, nodes[1..])
  {
    var rest, more := nodes[1..], visible + NameSet(nodes[0].outputs);
    NameSetMembers(nodes[0].outputs);
    forall i | 0 <= i < |rest| ensures AreNew(rest[i].outputs, more) {
      assert rest[i] == nodes[i + 1];
      forall j | 0 <= j < |rest[i].outputs| && rest[i].outputs[j] != ""
        ensures rest[i].outputs[j] !in nodes[0].outputs {
        assert rest[i].outputs[j] in nodes[i + 1].outputs;
      }
    }
    forall i, x | 0 <= i < |rest| && x in rest[i].inputs && x !in more + {""}
      ensures TopologicalSort.ProducedBefore(rest, i, x)
    {
      assert x in nodes[i + 1].inputs;
      var p :| 0 <= p < i + 1 && x in nodes[p].outputs;
      assert p > 0 && x in rest[p - 1].outputs;
    }
    forall i, j, x | 0 <= i < |rest| && 0 <= j < |rest| && x != "" && x in rest[i].outputs && x in rest[j].outputs
      ensures i == j {
      assert x in nodes[i + 1].outputs && x in nodes[j + 1].outputs;
    }
  }

  lemma ReorderIsSingleAssignment(nodes: seq<Node>, order: seq<int>, visible: set<Name>)
    requires IsSingleAssignment(nodes, visible) && TopologicalSort.IsPermutation(order, |nodes|)
    ensures var r := TopologicalSort.Reorder(nodes, order);
      IsSingleAssignment(r, visible) && (forall x :: x in r <==> x in nodes) && Defined(r) == Defined(nodes)
  {
    var r := TopologicalSort.Reorder(nodes, order);
    TopologicalSort.ReorderKeepsUnique(nodes, order);
    TopologicalSort.ReorderMembers(nodes, order);
    DefinedIsMonotone(r, nodes);
    DefinedIsMonotone(nodes, r);
  }

  lemma {:induction false} DefinedIsMonotone(a: seq<Node>, b: seq<Node>)
    requires forall x :: x in a ==> x in b
    ensures Defined(a) <= Defined(b)
    decreases |a|
  {
    if a != [] {
      assert a[0] in a && forall x :: x in a[1..] ==> x in a;
      DefinedIsMonotone(a[1..], b);
      DefinesOutputs(b, a[0]);
    }
  }

  lemma {:induction false} DefinesOutputs(nodes: seq<Node>, node: Node)
    requires node in nodes
    ensures NameSet(node.outputs) <= Defined(nodes)
    decreases |nodes|
  {
    if nodes[0] != node {
      DefinesOutputs(nodes[1..], node);
    }
  }

  /** A node with a nested graph that returns x, and the node that outputs x. */
  const CAPTURED := Graph("body", [], [], [], ["x"])
  const READER := Node("r", "If", "", [], ["y"], [Attr("then_branch", "", Subgraph(CAPTURED))])
  const WRITER := Node("w", "Make", "", [], ["x"], [])

  /** Operators that call their nested graph, if any, once. */
  function CallOnce(none: Value): World {
    World((call: OpCall, _, answers) => if call.bodies == [] ||
      answers != [] then Done([none]) else Ask(0, []), _ => none, none, 1)
  }

  /**
   * Sorting does not see what nested graphs capture. Sorting succeeds on the reader followed by the writer and
   * leaves them in this order, which cannot run, though the other order can.
   */
  lemma SortIgnoresCaptures(none: Value, d: nat, k: Context)
    ensures TopologicalSort.IsSortOf({""}, [READER, WRITER], [READER, WRITER], [0, 1])
    ensures var t := Dispatch((_, _, _) => Unknown, _ => -1);
      && EvalNodes(CallOnce(none), t, d, k, [READER, WRITER], map[], map[]) == None
      && EvalNodes(CallOnce(none), t, d, k, [WRITER, READER], map[], map[]).Some?
  {
    var order := [0, 1];
    assert order[..0] == [] && order[..1] == [0];
    var t := Dispatch((_, _, _) => Unknown, _ => -1);
    ReaderResult(none, t, d, k, map[]);
    WriterResult(none, t, d, k, map[]);
    ReaderResult(none, t, d, k, map["x" := none]);
    var reached := EvalNode(CallOnce(none), t, d, k, READER, map["x" := none], map[]).value;
    assert EvalNodes(CallOnce(none), t, d, k, [READER], map["x" := none], map[]) == Some(reached);
    assert [WRITER, READER][1..] == [READER] && [READER][1..] == [];
  }

  lemma WriterResult(none: Value, t: Dispatch, d: nat, k: Context, env: Env)
    requires t.resolve(k, "", "Make") == Unknown && t.operands(Unknown) == -1
    ensures EvalNode(CallOnce(none), t, d, k, WRITER, env, map[]) == Some(env["x" := none])
  {
    var call := CallOf(Unknown, WRITER, map[]);
    assert call.bodies == [];
    assert RunOp(CallOnce(none), t, d, k, WRITER, call, [], env, map[], [], 1) == Some([none]);
    assert Fit([none], 1, none) == [none];
  }

  lemma ReaderResult(none: Value, t: Dispatch, d: nat, k: Context, env: Env)
    requires t.resolve(k, "", "If") == Unknown && t.operands(Unknown) == -1
    ensures EvalNode(CallOnce(none), t, d, k, READER, env, map[]).Some? <==> "x" in env
  {
    var w := CallOnce(none);
    var call := CallOf(Unknown, READER, map[]);
    assert BodyAttrsFrom(READER.attrs, map[], 1) == [];
    assert BodyAttrs(READER.attrs, map[]) == [0];
    assert AttrNames(READER.attrs, []) == [] && [0][1..] == [];
    assert call.bodies == ["then_branch"];
    assert EvalGraph(w, t, d, k, CAPTURED, env, [], map[]) == ReadAll(env, ["x"]) by {
      assert InitializerNames(CAPTURED) == [];
    }
    var answer := Answer(w, t, d, k, READER, 0, env, [], map[]);
    assert answer == ReadAll(env, ["x"]);
    ReadOne(env, "x");
    OneQuestion(w, t, d, k, READER, call, env, answer);
  }

  /** An operator that asks once and is done with any answer succeeds exactly if it gets one. */
  lemma OneQuestion(w: World, t: Dispatch, d: nat, k: Context, node: Node, call: OpCall, env: Env,
                    answer: Option<seq<Value>>)
    requires BodyAttrs(node.attrs, map[]) != [] && answer == Answer(w, t, d, k, node, 0, env, [], map[])
    requires w.operator(call, [], []) == Ask(0, [])
    requires answer.Some? ==> w.operator(call, [], [answer.value]).Done?
    ensures RunOp(w, t, d, k, node, call, [], env, map[], [], 1).Some? <==> answer.Some?
  {
    if answer.Some? {
      assert [] + [answer.value] == [answer.value];
      assert RunOp(w, t, d, k, node, call, [], env, map[], [answer.value], 0).Some?;
    }
  }
}
