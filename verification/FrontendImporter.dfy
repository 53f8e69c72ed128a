/**
 * The importer itself: an object whose symbol table, opset map, function map and insertion block are updated
 * while the nodes of a graph are visited.
 */
module FrontendImporter {
  import opened Wrappers
  import opened OnnxModel
  import opened AttributeReferences
  import opened OpVersions
  import opened GraphSemantics
  import opened OpDispatch
  import opened SsaProgram
  import opened SymbolTable
  import opened GraphImport
  import opened ProperNames
  import opened ImportSuccess

  /** The steps that make up the import of an operation. */
  lemma OperationParts(t: Dispatch, d: nat, k: Context, scopes: Scopes, next: Id, node: Node, target: Target,
                       e: Emitted<Scopes>)
    requires ImportOperation(t, d, k, scopes, next, node, target) == Some(e)
    ensures var operands := Operands(scopes, node.inputs, t.operands(target), next);
      var bodies := ImportBodies(t, d, k, scopes, operands.next + |node.outputs|, node.attrs);
      && bodies.Some? && AddResults(scopes, node.outputs, operands.next) == Some(e.result) &&
        e.next == bodies.value.next
      && e.ops == operands.ops + [Operation(CallOf(target, node, map[]), operands.result, bodies.value.result,
                                            operands.next)]
  {
  }

  /** The steps that make up the import of a call. */
  lemma CallParts(t: Dispatch, d: nat, k: Context, scopes: Scopes, next: Id, node: Node, f: Function, fromSchema: bool,
                  e: Emitted<Scopes>)
    requires ImportCall(t, d, k, scopes, next, node, f, fromSchema) == Some(e)
    ensures var args := Operands(scopes, node.inputs, |f.inputs|, next);
      var params := if |args.result| == |f.inputs| then EnterCall(node, f, args.result) else None;
      && d > 0 && params.Some?
      && var inlined := ImportNodes(t, d - 1, BodyContext(k, f, fromSchema), params.value, args.next,
                                    SubstNodes(f.nodes, CallAttrs(f, node.attrs)));
      && inlined.Some? && LeaveCall(scopes, node, f, inlined.value.result) == Some(e.result)
      && e.next == inlined.value.next && e.ops == args.ops + inlined.value.ops
  {
  }

  /** The import of the remaining nodes, after some operations, gives the whole. */
  ghost predicate Completes(t: Dispatch, d: nat, k: Context, scopes: Scopes, next: Id, nodes: seq<Node>, ops: seq<Op>,
                            e: Emitted<Scopes>) {
    var rest := ImportNodes(t, d, k, scopes, next, nodes);
    rest.Some? && rest.value.result == e.result && rest.value.next == e.next && ops + rest.value.ops == e.ops
  }

  lemma NextNode(t: Dispatch, d: nat, k: Context, scopes: Scopes, next: Id, nodes: seq<Node>, i: nat, ops: seq<Op>,
                 e: Emitted<Scopes>)
      returns (first: Emitted<Scopes>)
    requires i < |nodes| && Completes(t, d, k, scopes, next, nodes[i..], ops, e)
    ensures ImportNode(t, d, k, scopes, next, nodes[i]) == Some(first)
    ensures Completes(t, d, k, first.result, first.next, nodes[i + 1..], ops + first.ops, e)
  {
    assert nodes[i..][1..] == nodes[i + 1..];
    first := ImportNode(t, d, k, scopes, next, nodes[i]).value;
    var rest := ImportNodes(t, d, k, first.result, first.next, nodes[i + 1..]).value;
    assert ops + (first.ops + rest.ops) == (ops + first.ops) + rest.ops;
  }

  class Importer {
    const tables: ValidTables
    ghost const dispatch: Dispatch
    var symbols: SymbolMapping<Id>
    var opsetMap: map<string, int>
    var functions: map<string, Function>
    /** Operations emitted so far in the current block, and the next unused value. */
    var block: seq<Op>
    var next: Id

    constructor (tables: ValidTables, opsetMap: map<string, int>, functions: map<string, Function>)
      ensures this.tables == tables && this.opsetMap == opsetMap && this.functions == functions
      ensures dispatch == TableDispatch(tables)
      ensures fresh(symbols) && symbols.scopes == [] && block == [] && next == 0
    {
      dispatch := TableDispatch(tables);
      this.tables, this.opsetMap, this.functions := tables, opsetMap, functions;
      symbols := new SymbolMapping<Id>();
      block, next := [], 0;
    }

    /** The tables drive the dispatch, and default attribute values of functions are values, not references. */
    ghost predicate Valid()
      reads this
    {
      && (forall k, domain, op {:trigger Resolve(tables, k, domain, op)} ::
            dispatch.resolve(k, domain, op) == Resolve(tables, k, domain, op))
      && (forall target {:trigger ExpectedOperands(tables, target)} ::
            dispatch.operands(target) == ExpectedOperands(tables, target))
      && (forall x :: x in tables.schemaFunctions ==> RefFreeAttrs(tables.schemaFunctions[x].defaults))
      && (forall x :: x in functions ==> RefFreeAttrs(functions[x].defaults))
    }

    method CreateNoneValue() returns (value: Id)
      modifies this`block, this`next
      ensures value == old(next) && next == old(next) + 1 && block == old(block) + [NoneOp(value)]
    {
      value := next;
      block := block + [NoneOp(value)];
      next := next + 1;
    }

    method GetNodeInputs(inputs: seq<Name>) returns (values: seq<Id>)
      modifies this`block, this`next
      ensures var r := NodeInputs(symbols.scopes, inputs, old(next));
        values == r.result && next == r.next && block == old(block) + r.ops
    {
      values := [];
      ghost var all := NodeInputs(symbols.scopes, inputs, next);
      for i := 0 to |inputs|
        invariant var rest := NodeInputs(symbols.scopes, inputs[i..], next);
          && values + rest.result == all.result && rest.next == all.next
          && block + rest.ops == old(block) + all.ops
      {
        assert inputs[i..][1..] == inputs[i + 1..];
        if inputs[i] == "" {
          var none := CreateNoneValue();
          values := values + [none];
        } else {
          var found := symbols.GetByOnnxName(inputs[i]);
          match found {
            case Some(id) => values := values + [id];
            case None =>
          }
        }
      }
      assert inputs[|inputs|..] == [];
    }

    /** Appends none values until there are `expected` of them. */
    method PadWithNone(given: seq<Id>, expected: int) returns (values: seq<Id>)
      modifies this`block, this`next
      ensures var r := NoneValues(NotNegative(expected - |given|), old(next));
        values == given + r.result && next == r.next && block == old(block) + r.ops
    {
      values := given;
      var i := |given|;
      while i < expected
        invariant |given| <= i && (i <= expected || i == |given|)
        invariant var r := NoneValues(i - |given|, old(next));
          values == given + r.result && next == r.next && block == old(block) + r.ops
      {
        var none := CreateNoneValue();
        values := values + [none];
        i := i + 1;
      }
    }

    method GetOperands(inputs: seq<Name>, expected: int) returns (values: seq<Id>)
      modifies this`block, this`next
      ensures var r := Operands(symbols.scopes, inputs, expected, old(next));
        values == r.result && next == r.next && block == old(block) + r.ops
    {
      var given := GetNodeInputs(inputs);
      values := PadWithNone(given, expected);
    }

    method BindResults(outputs: seq<Name>, first: Id)
      requires symbols.scopes != [] && AddResults(symbols.scopes, outputs, first).Some?
      modifies symbols
      ensures Some(symbols.scopes) == AddResults(old(symbols.scopes), outputs, first)
    {
      for i := 0 to |outputs|
        invariant symbols.scopes != []
        invariant AddResults(symbols.scopes, outputs[i..], first + i) == AddResults(old(symbols.scopes), outputs, first)
      {
        assert outputs[i..][1..] == outputs[i + 1..];
        if outputs[i] != "" {
          symbols.AddMapping(outputs[i], first + i);
        }
      }
      assert outputs[|outputs|..] == [];
    }

    method BindAllNames(names: seq<Name>, ids: seq<Id>)
      requires symbols.scopes != [] && |names| == |ids| && AddAll(symbols.scopes, names, ids).Some?
      modifies symbols
      ensures Some(symbols.scopes) == AddAll(old(symbols.scopes), names, ids) && symbols.scopes != []
    {
      for i := 0 to |names|
        invariant symbols.scopes != []
        invariant AddAll(symbols.scopes, names[i..], ids[i..]) == AddAll(old(symbols.scopes), names, ids)
      {
        assert names[i..][1..] == names[i + 1..] && ids[i..][1..] == ids[i + 1..];
        symbols.AddMapping(names[i], ids[i]);
      }
      assert names[|names|..] == [];
    }

    method CollectBound(names: seq<Name>) returns (ids: seq<Id>)
      ensures ids == BoundValues(symbols.scopes, names)
    {
      ids := [];
      for i := 0 to |names|
        invariant ids + BoundValues(symbols.scopes, names[i..]) == BoundValues(symbols.scopes, names)
      {
        assert names[i..][1..] == names[i + 1..];
        var found := symbols.GetByOnnxName(names[i]);
        match found {
          case Some(id) => ids := ids + [id];
          case None =>
        }
      }
      assert names[|names|..] == [];
    }

    method GetImportVersionOfNode(node: Node) returns (version: Option<int>)
      ensures version == ImportVersion(tables, opsetMap, node.domain, node.opType)
    {
      if node.domain !in opsetMap || node.opType !in tables.supported || node.opType !in tables.history {
        return None;
      }
      version := GetImportVersion(tables.history[node.opType], tables.supported[node.opType], opsetMap[node.domain]);
    }

    /** A constant per initializer, bound to its name in the innermost scope. */
    method ImportInitializers(g: Graph)
      requires symbols.scopes != []
      requires AddAll(symbols.scopes, InitializerNames(g), Consecutive(next, |g.initializers|)).Some?
      modifies symbols, this`block, this`next
      ensures Some(symbols.scopes) == AddAll(old(symbols.scopes), InitializerNames(g),
                                             Consecutive(old(next), |g.initializers|))
      ensures block == old(block) + Constants(g.initializers, old(next)) && next == old(next) + |g.initializers|
      ensures symbols.scopes != []
    {
      var n := |g.initializers|;
      ghost var names, ids, ops := InitializerNames(g), Consecutive(next, n), Constants(g.initializers, next);
      for i := 0 to n
        invariant symbols.scopes != [] && next == old(next) + i && block == old(block) + ops[..i]
        invariant AddAll(symbols.scopes, names[i..], ids[i..]) == AddAll(old(symbols.scopes), names, ids)
      {
        assert names[i..][1..] == names[i + 1..] && ids[i..][1..] == ids[i + 1..];
        assert ops[..i + 1] == ops[..i] + [ConstantOp(next, g.initializers[i].tensor)];
        block := block + [ConstantOp(next, g.initializers[i].tensor)];
        symbols.AddMapping(g.initializers[i].name, next);
        next := next + 1;
      }
      assert names[n..] == [] && ops[..n] == ops;
    }

    method CollectParameters(inputs: seq<Name>, initializers: seq<Name>) returns (parameters: seq<Name>)
      ensures parameters == ParameterNames(inputs, initializers)
    {
      parameters := [];
      for i := 0 to |inputs|
        invariant parameters + ParameterNames(inputs[i..], initializers) == ParameterNames(inputs, initializers)
      {
        assert inputs[i..][1..] == inputs[i + 1..];
        if inputs[i] !in initializers {
          parameters := parameters + [inputs[i]];
        }
      }
      assert inputs[|inputs|..] == [];
    }

    /** Fresh block arguments for the inputs without an initializer, bound to their names. */
    method ImportArguments(g: Graph) returns (args: seq<Id>)
      requires symbols.scopes != []
      requires var names := ParameterNames(g.inputs, InitializerNames(g));
        AddAll(symbols.scopes, names, Consecutive(next, |names|)).Some?
      modifies symbols, this`next
      ensures var names := ParameterNames(g.inputs, InitializerNames(g));
        && args == Consecutive(old(next), |names|) && next == old(next) + |names|
        && Some(symbols.scopes) == AddAll(old(symbols.scopes), names, args)
    {
      var parameters := CollectParameters(g.inputs, InitializerNames(g));
      args := Consecutive(next, |parameters|);
      next := next + |parameters|;
      BindAllNames(parameters, args);
    }

    /** Opens the scope of a graph, with its initializers and arguments. */
    method OpenGraph(g: Graph) returns (args: seq<Id>)
      requires EnterGraph(symbols.scopes, next, g).Some?
      modifies symbols, this`block, this`next
      ensures Some(symbols.scopes) == EnterGraph(old(symbols.scopes), old(next), g)
      ensures args == GraphArgs(old(next), g) && next == old(next) + |g.initializers| + |args|
      ensures block == old(block) + Constants(g.initializers, old(next))
    {
      symbols.PushScope(GraphScope(g.name));
      ImportInitializers(g);
      args := ImportArguments(g);
    }

    /** The maps are as given, and the importer is in order. */
    ghost predicate In(k: Context)
      reads this
    {
      Valid() && k == Context(opsetMap, functions)
    }

    /**
     * Each of the following methods is given, as a ghost, the context `k` it runs in, the bound `d` on the nesting
     * of calls, and the result `e` that the importing function yields for the current table and value number.
     */
    method ImportGraph(g: Graph, ghost d: nat, ghost k: Context, ghost e: Emitted<Region>) returns (region: Region)
      requires In(k) && RefFreeNodes(g.nodes)
      requires GraphImport.ImportGraph(dispatch, d, k, symbols.scopes, next, g) == Some(e)
      modifies this, symbols
      ensures symbols == old(symbols) && In(k)
      ensures symbols.scopes == old(symbols.scopes) && block == old(block)
      ensures region == e.result && next == e.next
      decreases d, g, 0
    {
      var outerBlock := block;
      block := [];
      ghost var outer, first := symbols.scopes, next;
      var args := OpenGraph(g);
      ghost var inside, start := symbols.scopes, next;
      ghost var body := ImportNodes(dispatch, d, k, inside, start, g.nodes).value;
      GraphScopeCloses(dispatch, d, k, outer, first, g, inside, start);
      ImportNodeList(g.nodes, d, k, body);
      var returned := CollectBound(g.outputs);
      region := Region(args, block, returned);
      symbols.PopScope(GraphScope(g.name));
      block := outerBlock;
    }

    method ImportNodeList(nodes: seq<Node>, ghost d: nat, ghost k: Context, ghost e: Emitted<Scopes>)
      requires In(k) && RefFreeNodes(nodes) && symbols.scopes != []
      requires ImportNodes(dispatch, d, k, symbols.scopes, next, nodes) == Some(e)
      modifies this, symbols
      ensures symbols == old(symbols) && In(k)
      ensures symbols.scopes == e.result && next == e.next && block == old(block) + e.ops
      decreases d, nodes, 3
    {
      ghost var ops := [];
      for i := 0 to |nodes|
        invariant symbols == old(symbols) && In(k) && symbols.scopes != []
        invariant block == old(block) + ops && Completes(dispatch, d, k, symbols.scopes, next, nodes[i..], ops, e)
      {
        ghost var first := NextNode(dispatch, d, k, symbols.scopes, next, nodes, i, ops, e);
        NodeKeepsScopes(dispatch, d, k, symbols.scopes, next, nodes[i]);
        ImportNode(nodes[i], d, k, first);
        ops := ops + first.ops;
      }
      assert nodes[|nodes|..] == [];
    }

    method ImportNode(node: Node, ghost d: nat, ghost k: Context, ghost e: Emitted<Scopes>)
      requires In(k) && RefFreeAttrs(node.attrs) && symbols.scopes != []
      requires GraphImport.ImportNode(dispatch, d, k, symbols.scopes, next, node) == Some(e)
      modifies this, symbols
      ensures symbols == old(symbols) && In(k)
      ensures symbols.scopes == e.result && next == e.next && block == old(block) + e.ops
      decreases d, node, 2
    {
      ghost var target := Resolve(tables, k, node.domain, node.opType);
      var version := GetImportVersionOfNode(node);
      var key := HandlerKey(node.opType, version);
      if IsStandardDomain(node.domain) && key !in tables.decompose && key in tables.handlers {
        BuildOperation(node, Regular(key), d, k, e);
        return;
      }
      if node.domain in opsetMap && (node.opType, opsetMap[node.domain], node.domain) in tables.schemaFunctions {
        ImportFunctionCallNode(node, tables.schemaFunctions[(node.opType, opsetMap[node.domain], node.domain)], true,
                               d, k, e);
        return;
      }
      if FunctionId(node.domain, node.opType) in functions {
        ImportFunctionCallNode(node, functions[FunctionId(node.domain, node.opType)], false, d, k, e);
        return;
      }
      BuildOperation(node, Unknown, d, k, e);
    }

    method BuildOperation(node: Node, target: Target, ghost d: nat, ghost k: Context, ghost e: Emitted<Scopes>)
      requires In(k) && RefFreeAttrs(node.attrs) && symbols.scopes != []
      requires ImportOperation(dispatch, d, k, symbols.scopes, next, node, target) == Some(e)
      modifies this, symbols
      ensures symbols == old(symbols) && In(k)
      ensures symbols.scopes == e.result && next == e.next && block == old(block) + e.ops
      decreases d, node, 1
    {
      OperationParts(dispatch, d, k, symbols.scopes, next, node, target, e);
      var operands := GetOperands(node.inputs, ExpectedOperands(tables, target));
      var result := next;
      next := next + |node.outputs|;
      ghost var bodies := ImportBodies(dispatch, d, k, symbols.scopes, next, node.attrs).value;
      var regions := ImportRegions(node.attrs, d, k, bodies);
      block := block + [Operation(CallOf(target, node, map[]), operands, regions, result)];
      BindResults(node.outputs, result);
    }

    method ImportRegions(attrs: seq<Attr>, ghost d: nat, ghost k: Context, ghost e: Emitted<seq<Region>>)
      returns (regions: seq<Region>)
      requires In(k) && RefFreeAttrs(attrs)
      requires ImportBodies(dispatch, d, k, symbols.scopes, next, attrs) == Some(e)
      modifies this, symbols
      ensures symbols == old(symbols) && In(k)
      ensures symbols.scopes == old(symbols.scopes) && block == old(block)
      ensures regions == e.result && next == e.next
      decreases d, attrs, 0
    {
      regions := [];
      for i := 0 to |attrs|
        invariant symbols == old(symbols) && In(k)
        invariant symbols.scopes == old(symbols.scopes) && block == old(block)
        invariant var rest := ImportBodies(dispatch, d, k, symbols.scopes, next, attrs[i..]);
          rest.Some? && regions + rest.value.result == e.result && rest.value.next == e.next
      {
        assert attrs[i..][1..] == attrs[i + 1..];
        if attrs[i].value.Subgraph? {
          assert RefFreeValue(attrs[i].value);
          var g := attrs[i].value.graph;
          var region := ImportGraph(g, d, k, GraphImport.ImportGraph(dispatch, d, k, symbols.scopes, next, g).value);
          regions := regions + [region];
        }
      }
      assert attrs[|attrs|..] == [];
    }

    /**
     * Inlines a call: the caller's symbols, opsets and (for a schema function) model functions are moved aside
     * meanwhile.
     */
    method ImportFunctionCallNode(node: Node, f: Function, fromSchema: bool, ghost d: nat, ghost k: Context,
                                  ghost e: Emitted<Scopes>)
      requires In(k) && RefFreeAttrs(node.attrs) && RefFreeAttrs(f.defaults) && symbols.scopes != []
      requires ImportCall(dispatch, d, k, symbols.scopes, next, node, f, fromSchema) == Some(e)
      modifies this, symbols
      ensures symbols == old(symbols) && In(k)
      ensures symbols.scopes == e.result && next == e.next && block == old(block) + e.ops
      decreases d, node, 1
    {
      ghost var args := Operands(symbols.scopes, node.inputs, |f.inputs|, next);
      CallParts(dispatch, d, k, symbols.scopes, next, node, f, fromSchema, e);
      ghost var inlined := ImportNodes(dispatch, d - 1, BodyContext(k, f, fromSchema),
                                       EnterCall(node, f, args.result).value, args.next,
                                       SubstNodes(f.nodes, CallAttrs(f, node.attrs))).value;
      InlineCall(node, f, fromSchema, d - 1, k, args, inlined, e.result);
    }

    /** The arguments are collected, the body is imported, and its outputs get the caller's names. */
    method InlineCall(node: Node, f: Function, fromSchema: bool, ghost d: nat, ghost k: Context,
                      ghost args: Emitted<seq<Id>>,
                      ghost inlined: Emitted<Scopes>, ghost after: Scopes)
      requires In(k) && RefFreeAttrs(node.attrs) && RefFreeAttrs(f.defaults) && symbols.scopes != []
      requires args == Operands(symbols.scopes, node.inputs, |f.inputs|, next)
      requires |args.result| == |f.inputs| && EnterCall(node, f, args.result).Some?
      requires ImportNodes(dispatch, d, BodyContext(k, f, fromSchema), EnterCall(node, f, args.result).value, args.next,
                           SubstNodes(f.nodes, CallAttrs(f, node.attrs))) == Some(inlined)
      requires LeaveCall(symbols.scopes, node, f, inlined.result) == Some(after)
      modifies this, symbols
      ensures symbols == old(symbols) && In(k)
      ensures symbols.scopes == after && next == inlined.next && block == old(block) + args.ops + inlined.ops
      decreases d, SubstNodes(f.nodes, CallAttrs(f, node.attrs)), 7
    {
      var arguments := GetOperands(node.inputs, |f.inputs|);
      var outputs := InlineBody(node, f, fromSchema, arguments, d, k, inlined);
      BindAllNames(node.outputs[..|outputs|], outputs);
    }

    /** Imports the function's body with the call's attribute values in place. */
    method InlineBody(node: Node, f: Function, fromSchema: bool, args: seq<Id>, ghost d: nat, ghost k: Context,
                      ghost e: Emitted<Scopes>)
      returns (outputs: seq<Id>)
      requires In(k) && RefFreeAttrs(node.attrs) && RefFreeAttrs(f.defaults) && |args| == |f.inputs| &&
        EnterCall(node, f, args).Some?
      requires ImportNodes(dispatch, d, BodyContext(k, f, fromSchema), EnterCall(node, f, args).value, next,
                           SubstNodes(f.nodes, CallAttrs(f, node.attrs))) == Some(e)
      modifies this
      ensures symbols == old(symbols) && In(k)
      ensures outputs == BoundValues(e.result, f.outputs) && next == e.next && block == old(block) + e.ops
      decreases d, SubstNodes(f.nodes, CallAttrs(f, node.attrs)), 6
    {
      var body := InstantiateBody(node, f);
      outputs := ImportAside(node, f, fromSchema, args, body, d, k, e);
    }

    /** Saves the caller's context, imports the function body, and restores the context. */
    method ImportAside(node: Node, f: Function, fromSchema: bool, args: seq<Id>, body: seq<Node>, ghost d: nat,
                       ghost k: Context, ghost e: Emitted<Scopes>)
      returns (outputs: seq<Id>)
      requires In(k) && RefFreeNodes(body) && |args| == |f.inputs| && EnterCall(node, f, args).Some?
      requires ImportNodes(dispatch, d, BodyContext(k, f, fromSchema), EnterCall(node, f, args).value, next, body)
           == Some(e)
      modifies this
      ensures symbols == old(symbols) && In(k)
      ensures outputs == BoundValues(e.result, f.outputs) && next == e.next && block == old(block) + e.ops
      decreases d, body, 5
    {
      var callerFunctions, callerOpsetMap, callerScope := functions, opsetMap, symbols;
      if fromSchema {
        functions := map[];
      }
      opsetMap := f.opsets;
      outputs := ImportBody(node, f, args, body, d, BodyContext(k, f, fromSchema), e);
      functions, opsetMap, symbols := callerFunctions, callerOpsetMap, callerScope;
    }

    /** The nodes of a function with the attribute values of the call in place of references. */
    method InstantiateBody(node: Node, f: Function) returns (body: seq<Node>)
      requires RefFreeAttrs(node.attrs) && RefFreeAttrs(f.defaults)
      ensures body == SubstNodes(f.nodes, CallAttrs(f, node.attrs)) && RefFreeNodes(body)
    {
      var am := CollectCallAttrs(f, node.attrs);
      CallAttrsRefFree(f, node.attrs);
      body := ReplaceAttrRefsInNodes(f.nodes, am);
      SubstNodesRefFree(f.nodes, am);
    }

    /** Imports a function body in a symbol table of its own. */
    method ImportBody(node: Node, f: Function, args: seq<Id>, body: seq<Node>, ghost d: nat, ghost k: Context,
                      ghost e: Emitted<Scopes>)
      returns (outputs: seq<Id>)
      requires In(k) && RefFreeNodes(body) && |args| == |f.inputs| && EnterCall(node, f, args).Some?
      requires ImportNodes(dispatch, d, k, EnterCall(node, f, args).value, next, body) == Some(e)
      modifies this
      ensures In(k)
      ensures outputs == BoundValues(e.result, f.outputs) && next == e.next && block == old(block) + e.ops
      decreases d, body, 4
    {
      symbols := new SymbolMapping<Id>();
      symbols.PushScope(CallScopeName(node, f));
      BindAllNames(f.inputs, args);
      CallScopeCloses(dispatch, d, k, node, f, args, next, body);
      ImportNodeList(body, d, k, e);
      outputs := CollectBound(f.outputs);
      symbols.PopScope(CallScopeName(node, f));
    }
  }
}
