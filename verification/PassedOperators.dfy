/**
 * The operators of a passed graph. Inlining resolves them in the function's context, where the operator sets and the
 * model functions are others than the caller's. What a graph is imported to tells its targets apart.
 */
module PassedOperators {
  import opened Wrappers
  import opened OnnxModel
  import opened AttributeReferences
  import opened GraphSemantics
  import opened OperatorScope
  import opened SsaProgram
  import opened SymbolTable
  import opened GraphImport

  // ---------------------------------------------------------------- alike graphs are imported alike

  lemma {:induction false} NodesImportAlike(t: Dispatch, d: nat, k: Context, k': Context, scopes: Scopes, next: Id,
                                            nodes: seq<Node>)
    requires NodesAlike(t, k, k', nodes) && RefFreeNodes(nodes)
    ensures ImportNodes(t, d, k, scopes, next, nodes) == ImportNodes(t, d, k', scopes, next, nodes)
    decreases nodes, 0
  {
    if nodes != [] {
      assert NodeAlike(t, k, k', nodes[0]);
      NodeImportsAlike(t, d, k, k', scopes, next, nodes[0]);
      var first := ImportNode(t, d, k, scopes, next, nodes[0]);
      if first.Some? {
        assert forall i :: 0 <= i < |nodes[1..]| ==> nodes[1..][i] == nodes[i + 1];
        NodesImportAlike(t, d, k, k', first.value.result, first.value.next, nodes[1..]);
      }
    }
  }

  lemma {:induction false} NodeImportsAlike(t: Dispatch, d: nat, k: Context, k': Context, scopes: Scopes, next: Id,
                                            node: Node)
    requires NodeAlike(t, k, k', node) && RefFreeAttrs(node.attrs)
    ensures ImportNode(t, d, k, scopes, next, node) == ImportNode(t, d, k', scopes, next, node)
    decreases node, 1
  {
    var target := t.resolve(k, node.domain, node.opType);
    if target.Call? {
      CallImportsAlike(t, d, k, k', scopes, next, node, target.f, target.fromSchema);
    } else {
      BodiesImportAlike(t, d, k, k', scopes, Operands(scopes, node.inputs, t.operands(target), next).next
        + |node.outputs|, node.attrs);
      OperationUnfolds(t, d, k, scopes, next, node, target);
      OperationUnfolds(t, d, k', scopes, next, node, target);
    }
  }

  lemma CallImportsAlike(t: Dispatch, d: nat, k: Context, k': Context, scopes: Scopes, next: Id, node: Node,
                         f: Function, fromSchema: bool)
    requires BodyContext(k, f, fromSchema) == BodyContext(k', f, fromSchema)
    ensures ImportCall(t, d, k, scopes, next, node, f, fromSchema)
         == ImportCall(t, d, k', scopes, next, node, f, fromSchema)
  {
  }

  lemma {:induction false} BodiesImportAlike(t: Dispatch, d: nat, k: Context, k': Context, scopes: Scopes, next: Id,
                                             attrs: seq<Attr>)
    requires AttrsAlike(t, k, k', attrs) && RefFreeAttrs(attrs)
    ensures ImportBodies(t, d, k, scopes, next, attrs) == ImportBodies(t, d, k', scopes, next, attrs)
    decreases attrs, 0
  {
    if attrs != [] {
      var rest := attrs[1..];
      assert forall i :: 0 <= i < |rest| ==> rest[i] == attrs[i + 1];
      if attrs[0].value.Data? {
        BodiesImportAlike(t, d, k, k', scopes, next, rest);
      } else {
        assert RefFreeValue(attrs[0].value);
        GraphImportsAlike(t, d, k, k', scopes, next, attrs[0].value.graph);
        var first := ImportGraph(t, d, k, scopes, next, attrs[0].value.graph);
        if first.Some? {
          BodiesImportAlike(t, d, k, k', scopes, first.value.next, rest);
        }
      }
    }
  }

  /** A graph whose operators have the same targets in both contexts is imported to the same region. */
  lemma {:induction false} GraphImportsAlike(t: Dispatch, d: nat, k: Context, k': Context, scopes: Scopes, next: Id,
                                             g: Graph)
    requires NodesAlike(t, k, k', g.nodes) && RefFreeNodes(g.nodes)
    ensures ImportGraph(t, d, k, scopes, next, g) == ImportGraph(t, d, k', scopes, next, g)
    decreases g, 0
  {
    var inside := EnterGraph(scopes, next, g);
    if inside.Some? {
      NodesImportAlike(t, d, k, k', inside.value, next + |g.initializers| + |GraphArgs(next, g)|, g.nodes);
    }
  }

  // ---------------------------------------------------------------- graphs that are imported alike are alike

  /** No node, at any depth, is a call. */
  predicate CallFree(t: Dispatch, k: Context, nodes: seq<Node>)
    decreases nodes
  {
    forall i :: 0 <= i < |nodes| ==> CallFreeNode(t, k, nodes[i])
  }

  predicate CallFreeNode(t: Dispatch, k: Context, node: Node)
    decreases node
  {
    && !t.resolve(k, node.domain, node.opType).Call?
    && forall j :: 0 <= j < |node.attrs| && node.attrs[j].value.Subgraph? ==>
      CallFree(t, k, node.attrs[j].value.graph.nodes)
  }

  ghost predicate AllNone(ops: seq<Op>) { forall i :: 0 <= i < |ops| ==> ops[i].NoneOp? }

  lemma {:induction false} InputsEmitNone(scopes: Scopes, inputs: seq<Name>, next: Id)
    ensures AllNone(NodeInputs(scopes, inputs, next).ops)
    decreases |inputs|
  {
    if inputs != [] {
      InputsEmitNone(scopes, inputs[1..], if inputs[0] == "" then next + 1 else next);
    }
  }

  lemma OperandsEmitNone(scopes: Scopes, inputs: seq<Name>, expected: int, next: Id)
    ensures AllNone(Operands(scopes, inputs, expected, next).ops)
  {
    InputsEmitNone(scopes, inputs, next);
  }

  /** The first operation that is not a none value can be read off a list of operations. */
  lemma FirstOperation(a: seq<Op>, op: Op, rest: seq<Op>, a': seq<Op>, op': Op, rest': seq<Op>)
    requires AllNone(a) && AllNone(a') && op.Operation? && op'.Operation?
    requires (a + [op]) + rest == (a' + [op']) + rest'
    ensures op == op' && rest == rest'
  {
    var all, all' := (a + [op]) + rest, (a' + [op']) + rest';
    assert all[|a|] == op && all'[|a'|] == op';
    assert forall i :: 0 <= i < |a| ==> all[i] == a[i];
    assert forall i :: 0 <= i < |a'| ==> all'[i] == a'[i];
    assert |a| == |a'|;
    assert rest == all[|a| + 1..] && rest' == all'[|a'| + 1..];
  }

  lemma SameKind(node: Node, a: Target, b: Target)
    requires !a.Call? && !b.Call? && CallOf(a, node, map[]) == CallOf(b, node, map[])
    ensures a == b
  {
    assert KindOf(a, node) == KindOf(b, node);
  }

  lemma {:induction false} SameOpsAreAlike(t: Dispatch, d: nat, k: Context, k': Context, scopes: Scopes, next: Id,
                                           nodes: seq<Node>)
    requires RefFreeNodes(nodes) && CallFree(t, k, nodes) && CallFree(t, k', nodes)
    requires var e, e' := ImportNodes(t, d, k, scopes, next, nodes), ImportNodes(t, d, k', scopes, next, nodes);
      e.Some? && e'.Some? && e.value.ops == e'.value.ops
    ensures NodesAlike(t, k, k', nodes)
    decreases nodes, 0
  {
    if nodes != [] {
      var rest := nodes[1..];
      assert forall i :: 0 <= i < |rest| ==> rest[i] == nodes[i + 1];
      assert CallFreeNode(t, k, nodes[0]) && CallFreeNode(t, k', nodes[0]);
      var a, a' := ImportNode(t, d, k, scopes, next, nodes[0]).value,
        ImportNode(t, d, k', scopes, next, nodes[0]).value;
      var b, b' := ImportNodes(t, d, k, a.result, a.next, rest).value,
        ImportNodes(t, d, k', a'.result, a'.next, rest).value;
      FirstIsAlike(t, d, k, k', scopes, next, nodes[0], b.ops, b'.ops);
      NodeImportsAlike(t, d, k, k', scopes, next, nodes[0]);
      SameOpsAreAlike(t, d, k, k', a.result, a.next, rest);
      assert forall i :: 1 <= i < |nodes| ==> nodes[i] == rest[i - 1];
    }
  }

  /**
   * If the whole lists of operations are the same, the first node has the same target, and so have its nested graphs.
   */
  lemma {:induction false} FirstIsAlike(t: Dispatch, d: nat, k: Context, k': Context, scopes: Scopes, next: Id,
                                        node: Node, rest: seq<Op>, rest': seq<Op>)
    requires RefFreeAttrs(node.attrs) && CallFreeNode(t, k, node) && CallFreeNode(t, k', node)
    requires var a, a' := ImportNode(t, d, k, scopes, next, node), ImportNode(t, d, k', scopes, next, node);
      a.Some? && a'.Some? && a.value.ops + rest == a'.value.ops + rest'
    ensures NodeAlike(t, k, k', node) && rest == rest'
    decreases node, 1
  {
    var target, target' := t.resolve(k, node.domain, node.opType), t.resolve(k', node.domain, node.opType);
    var operands, operands' := Operands(scopes, node.inputs, t.operands(target), next),
      Operands(scopes, node.inputs, t.operands(target'), next);
    var op, bodies := EmittedOperation(t, d, k, scopes, next, node);
    var op', bodies' := EmittedOperation(t, d, k', scopes, next, node);
    OperandsEmitNone(scopes, node.inputs, t.operands(target), next);
    OperandsEmitNone(scopes, node.inputs, t.operands(target'), next);
    FirstOperation(operands.ops, op, rest, operands'.ops, op', rest');
    SameKind(node, target, target');
    SameRegionsAreAlike(t, d, k, k', scopes, operands.next + |node.outputs|, node.attrs);
  }

  lemma EmittedOperation(t: Dispatch, d: nat, k: Context, scopes: Scopes, next: Id, node: Node)
      returns (op: Op, bodies: Emitted<seq<Region>>)
    requires !t.resolve(k, node.domain, node.opType).Call? && ImportNode(t, d, k, scopes, next, node).Some?
    ensures var target := t.resolve(k, node.domain, node.opType);
      var operands := Operands(scopes, node.inputs, t.operands(target), next);
      && op == Operation(CallOf(target, node, map[]), operands.result, bodies.result, operands.next)
      && ImportBodies(t, d, k, scopes, operands.next + |node.outputs|, node.attrs) == Some(bodies)
      && ImportNode(t, d, k, scopes, next, node).value.ops == operands.ops + [op]
  {
    var target := t.resolve(k, node.domain, node.opType);
    var operands := Operands(scopes, node.inputs, t.operands(target), next);
    OperationUnfolds(t, d, k, scopes, next, node, target);
    bodies := ImportBodies(t, d, k, scopes, operands.next + |node.outputs|, node.attrs).value;
    op := Operation(CallOf(target, node, map[]), operands.result, bodies.result, operands.next);
  }

  lemma {:induction false} SameRegionsAreAlike(t: Dispatch, d: nat, k: Context, k': Context, scopes: Scopes, next: Id,
      attrs: seq<Attr>)
    requires RefFreeAttrs(attrs)
    requires forall j :: 0 <= j < |attrs| && attrs[j].value.Subgraph? ==>
      CallFree(t, k, attrs[j].value.graph.nodes) && CallFree(t, k', attrs[j].value.graph.nodes)
    requires var b, b' := ImportBodies(t, d, k, scopes, next, attrs), ImportBodies(t, d, k', scopes, next, attrs);
      b.Some? && b'.Some? && b.value.result == b'.value.result
    ensures AttrsAlike(t, k, k', attrs)
    decreases attrs, 0
  {
    if attrs != [] {
      var rest := attrs[1..];
      assert forall i :: 0 <= i < |rest| ==> rest[i] == attrs[i + 1];
      assert forall i :: 1 <= i < |attrs| ==> attrs[i] == rest[i - 1];
      if attrs[0].value.Data? {
        SameRegionsAreAlike(t, d, k, k', scopes, next, rest);
      } else {
        var g := attrs[0].value.graph;
        assert RefFreeValue(attrs[0].value);
        var a, a' := ImportGraph(t, d, k, scopes, next, g).value, ImportGraph(t, d, k', scopes, next, g).value;
        var b, b' := ImportBodies(t, d, k, scopes, a.next, rest).value,
          ImportBodies(t, d, k', scopes, a'.next, rest).value;
        FirstRegion(a.result, b.result, a'.result, b'.result);
        SameRegionIsAlike(t, d, k, k', scopes, next, g);
        GraphImportsAlike(t, d, k, k', scopes, next, g);
        SameRegionsAreAlike(t, d, k, k', scopes, a.next, rest);
      }
    }
  }

  lemma FirstRegion(a: Region, rest: seq<Region>, a': Region, rest': seq<Region>)
    requires [a] + rest == [a'] + rest'
    ensures a == a' && rest == rest'
  {
    assert ([a] + rest)[0] == a && ([a'] + rest')[0] == a';
    assert ([a] + rest)[1..] == rest && ([a'] + rest')[1..] == rest';
  }

  lemma {:induction false} SameRegionIsAlike(t: Dispatch, d: nat, k: Context, k': Context, scopes: Scopes, next: Id,
                                             g: Graph)
    requires RefFreeNodes(g.nodes) && CallFree(t, k, g.nodes) && CallFree(t, k', g.nodes)
    requires var r, r' := ImportGraph(t, d, k, scopes, next, g), ImportGraph(t, d, k', scopes, next, g);
      r.Some? && r'.Some? && r.value.result == r'.value.result
    ensures NodesAlike(t, k, k', g.nodes)
    decreases g, 0
  {
    var inside, first := EnterGraph(scopes, next, g).value, next + |g.initializers| + |GraphArgs(next, g)|;
    var e, e' := ImportNodes(t, d, k, inside, first, g.nodes).value,
      ImportNodes(t, d, k', inside, first, g.nodes).value;
    var constants := Constants(g.initializers, next);
    assert (constants + e.ops)[|constants|..] == e.ops && (constants + e'.ops)[|constants|..] == e'.ops;
    SameOpsAreAlike(t, d, k, k', inside, first, g.nodes);
  }

  /**
   * For every graph without calls that can be imported: it is imported to the same program in both contexts exactly if
   * all its operators, at any depth, have the same targets in both.
   */
  lemma SameProgramIff(t: Dispatch, d: nat, k: Context, k': Context, scopes: Scopes, next: Id, g: Graph)
    requires RefFreeNodes(g.nodes) && CallFree(t, k, g.nodes) && CallFree(t, k', g.nodes)
    requires ImportGraph(t, d, k, scopes, next, g).Some?
    ensures ImportGraph(t, d, k, scopes, next, g) == ImportGraph(t, d, k', scopes, next, g) <==>
      NodesAlike(t, k, k', g.nodes)
  {
    if NodesAlike(t, k, k', g.nodes) {
      GraphImportsAlike(t, d, k, k', scopes, next, g);
    }
    if ImportGraph(t, d, k, scopes, next, g) == ImportGraph(t, d, k', scopes, next, g) {
      SameRegionIsAlike(t, d, k, k', scopes, next, g);
    }
  }
}
