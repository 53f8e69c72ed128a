/** Importing a whole model: sorting if needed, then importing the main graph, and what the result computes. */
module ModelImport {
  import opened Wrappers
  import opened OnnxModel
  import opened AttributeReferences
  import opened GraphSemantics
  import opened FreeNames
  import opened OpDispatch
  import opened SsaProgram
  import opened SymbolTable
  import opened GraphImport
  import opened ProperNames
  import opened ImportSuccess
  import opened ImportCorrectness
  import opened CallRank
  import opened CallDepth
  import opened FrontendImporter
  import opened SortMeaning
  import opened SortCaptures
  import opened TopologicalSort

  // ---------------------------------------------------------------- what a graph means

  /** What a main graph evaluates to, under any bound on the nesting of calls that is high enough for it. */
  ghost predicate Means(w: World, t: Dispatch, k: Context, g: Graph, args: seq<Value>, r: Option<seq<Value>>) {
    exists d: nat :: WellFormedGraph(t, d, k, g, {}) && EvalGraph(w, t, d, k, g, map[], args, map[]) == r
  }

  lemma MeaningIsUnique(w: World, t: Dispatch, k: Context, g: Graph, args: seq<Value>, r: Option<seq<Value>>,
                        s: Option<seq<Value>>)
    requires RefFreeNodes(g.nodes) && Means(w, t, k, g, args, r) && Means(w, t, k, g, args, s)
    ensures r == s
  {
    var d: nat :| WellFormedGraph(t, d, k, g, {}) && EvalGraph(w, t, d, k, g, map[], args, map[]) == r;
    var e: nat :| WellFormedGraph(t, e, k, g, {}) && EvalGraph(w, t, e, k, g, map[], args, map[]) == s;
    var outer: Env := map[];
    assert outer.Keys == {};
    if d <= e {
      BoundsAgree(w, t, d, e, k, g, outer, args);
    } else {
      BoundsAgree(w, t, e, d, k, g, outer, args);
    }
  }

  /** The program computes what the graph computes, on all arguments and for all interpretations of the operators. */
  ghost predicate Computes(region: Region, t: Dispatch, k: Context, g: Graph) {
    forall w: World, args: seq<Value> :: Means(w, t, k, g, args, ExecRegion(w, region, map[], args))
  }

  // ---------------------------------------------------------------- importing

  /** Importing a well-formed main graph succeeds and preserves its meaning. */
  lemma ImportPreservesMeaning(t: Dispatch, d: nat, k: Context, g: Graph)
    requires RefFreeNodes(g.nodes) && WellFormedGraph(t, d, k, g, {})
    ensures var r := ImportGraph(t, d, k, [], 0, g); r.Some? && Computes(r.value.result, t, k, g)
  {
    GraphSucceeds(t, d, k, [], 0, g, {});
    var region := ImportGraph(t, d, k, [], 0, g).value.result;
    forall w: World, args: seq<Value> ensures Means(w, t, k, g, args, ExecRegion(w, region, map[], args)) {
      GraphCorrect(w, t, d, k, [], 0, g, map[], map[], args);
    }
  }

  /** The default attribute values of all functions are values, not references. */
  predicate DefaultsAreValues(tables: ValidTables, functions: map<string, Function>) {
    && (forall x :: x in tables.schemaFunctions ==> RefFreeAttrs(tables.schemaFunctions[x].defaults))
    && (forall x :: x in functions ==> RefFreeAttrs(functions[x].defaults))
  }

  method ImportFormed(tables: ValidTables, opsets: map<string, int>, functions: map<string, Function>, g: Graph,
                      ghost d: nat)
    returns (region: Region)
    requires RefFreeNodes(g.nodes) && DefaultsAreValues(tables, functions)
    requires WellFormedGraph(TableDispatch(tables), d, Context(opsets, functions), g, {})
    ensures Computes(region, TableDispatch(tables), Context(opsets, functions), g)
  {
    var importer := new Importer(tables, opsets, functions);
    ghost var k := Context(opsets, functions);
    ImportPreservesMeaning(importer.dispatch, d, k, g);
    region := importer.ImportGraph(g, d, k, ImportGraph(importer.dispatch, d, k, [], 0, g).value);
  }

  /** Imports a sound model whose functions do not call themselves, directly or through others. */
  method ImportModel(tables: ValidTables, opsets: map<string, int>, functions: map<string, Function>, g: Graph)
    returns (region: Region)
    requires DefaultsAreValues(tables, functions)
    requires SoundGraph(TableDispatch(tables), Context(opsets, functions), g, {})
    requires Acyclic(TableDispatch(tables), Context(opsets, functions), g.nodes)
    ensures Computes(region, TableDispatch(tables), Context(opsets, functions), g)
  {
    ghost var d := AcyclicIsFormed(TableDispatch(tables), Context(opsets, functions), g, {});
    region := ImportFormed(tables, opsets, functions, g, d);
  }

  // ---------------------------------------------------------------- graphs whose nodes are in any order

  /** The graph is sound but for the order of its nodes, and its functions do not call themselves. */
  ghost predicate SoundUnordered(t: Dispatch, k: Context, g: Graph) {
    var names := GraphNames(g, {});
    && RefFreeNodes(g.nodes) && HeaderIsNew(g, {})
    && IsSingleAssignment(g.nodes, names) && CapturesCovered(g.nodes, names)
    && (forall i :: 0 <= i < |g.nodes| ==> ProperAttrs(g.nodes[i].attrs, names + Defined(g.nodes)))
    && (forall x :: x in g.outputs ==> x in names + Defined(g.nodes))
    && SoundNodes(t, k, g.nodes) && Acyclic(t, k, g.nodes)
  }

  /** Nodes of the graph in an order in which every input is produced before it is read. */
  ghost predicate IsArrangement(g: Graph, order: seq<int>) {
    IsPermutation(order, |g.nodes|) && Sorted(GraphNames(g, {}) + {""}, Reorder(g.nodes, order))
  }

  ghost function Arranged(g: Graph, order: seq<int>): Graph
    requires IsPermutation(order, |g.nodes|)
  {
    g.(nodes := Reorder(g.nodes, order))
  }

  lemma {:induction false} RunnableIsProper(nodes: seq<Node>, visible: set<Name>, all: set<Name>)
    requires Runnable(nodes, visible) && visible + Defined(nodes) <= all
    requires forall i :: 0 <= i < |nodes| ==> ProperAttrs(nodes[i].attrs, all)
    ensures ProperNodes(nodes, visible)
    decreases |nodes|
  {
    if nodes != [] {
      NameSetMembers(nodes[0].inputs);
      ProperAttrsShrink(nodes[0].attrs, visible, all);
      assert forall i :: 0 <= i < |nodes[1..]| ==> nodes[1..][i] == nodes[i + 1];
      RunnableIsProper(nodes[1..], visible + NameSet(nodes[0].outputs), all);
    }
  }

  lemma ReorderIsRefFree(nodes: seq<Node>, order: seq<int>)
    requires RefFreeNodes(nodes) && IsPermutation(order, |nodes|)
    ensures RefFreeNodes(Reorder(nodes, order))
  {
  }

  /** One bound on the nesting of calls fits all arrangements of the nodes, and these are well formed. */
  lemma ArrangementsAreFormed(t: Dispatch, k: Context, g: Graph) returns (d: nat)
    requires SoundUnordered(t, k, g)
    ensures forall order :: IsArrangement(g, order) ==> WellFormedGraph(t, d, k, Arranged(g, order), {})
  {
    var rank: Rank :| RankedNodes(t, rank, k, g.nodes);
    d := BoundOfNodes(t, rank, k, g.nodes);
    RankedIsFormed(t, rank, k, g.nodes, d);
    forall order | IsArrangement(g, order) ensures WellFormedGraph(t, d, k, Arranged(g, order), {}) {
      ArrangementIsFormed(t, d, k, g, order);
    }
  }

  lemma ArrangementIsFormed(t: Dispatch, d: nat, k: Context, g: Graph, order: seq<int>)
    requires SoundUnordered(t, k, g) && IsArrangement(g, order) && CallsFormed(t, d, k, g.nodes)
    ensures WellFormedGraph(t, d, k, Arranged(g, order), {})
  {
    var names, arranged := GraphNames(g, {}), Arranged(g, order);
    CoveredRuns(g.nodes, names, order);
    ReorderIsSingleAssignment(g.nodes, order, names);
    ReorderIsRefFree(g.nodes, order);
    RunnableIsProper(arranged.nodes, names, names + Defined(g.nodes));
    assert InitializerNames(arranged) == InitializerNames(g);
    GraphFormedIff(t, d, k, arranged, {});
  }

  lemma ArrangementsMeanTheSame(w: World, t: Dispatch, d: nat, k: Context, g: Graph, a: seq<int>, b: seq<int>,
                                args: seq<Value>)
    requires IsSingleAssignment(g.nodes, GraphNames(g, {})) && CapturesCovered(g.nodes, GraphNames(g, {}))
    requires IsArrangement(g, a) && IsArrangement(g, b)
    ensures EvalGraph(w, t, d, k, Arranged(g, a), map[], args, map[])
         == EvalGraph(w, t, d, k, Arranged(g, b), map[], args, map[])
  {
    var first, second := Arranged(g, a), Arranged(g, b);
    assert InitializerNames(first) == InitializerNames(g) && InitializerNames(second) == InitializerNames(g);
    assert InitializerValues(w, first) == InitializerValues(w, g) &&
      InitializerValues(w, second) == InitializerValues(w, g);
    var initializers, vs := InitializerNames(g), InitializerValues(w, g);
    var parameters := ParameterNames(g.inputs, initializers);
    if |args| == |parameters| {
      var env := BindAll(BindAll(map[], initializers, vs), parameters, args);
      BindAllKeys(map[], initializers, vs);
      BindAllKeys(BindAll(map[], initializers, vs), parameters, args);
      assert env.Keys == GraphNames(g, {});
      ArrangementsAgree(w, t, d, k, g.nodes, a, b, env);
    }
  }

  /** A program for one arrangement of the nodes is a program for all of them. */
  lemma ComputesAll(region: Region, t: Dispatch, k: Context, g: Graph, a: seq<int>, b: seq<int>)
    requires SoundUnordered(t, k, g) && IsArrangement(g, a) && IsArrangement(g, b)
    requires Computes(region, t, k, Arranged(g, a))
    ensures Computes(region, t, k, Arranged(g, b))
  {
    var d := ArrangementsAreFormed(t, k, g);
    ReorderIsRefFree(g.nodes, a);
    forall w: World, args: seq<Value> ensures Means(w, t, k, Arranged(g, b), args, ExecRegion(w, region, map[], args)) {
      var r := EvalGraph(w, t, d, k, Arranged(g, a), map[], args, map[]);
      MeaningIsUnique(w, t, k, Arranged(g, a), args, ExecRegion(w, region, map[], args), r);
      ArrangementsMeanTheSame(w, t, d, k, g, a, b, args);
    }
  }

  // ---------------------------------------------------------------- sorting and importing

  lemma {:induction false} ParametersAndInitializers(inputs: seq<Name>, initializers: seq<Name>)
    ensures NameSet(inputs) + NameSet(initializers)
         == NameSet(initializers) + NameSet(ParameterNames(inputs, initializers))
    decreases |inputs|
  {
    if inputs != [] {
      NameSetMembers(initializers);
      ParametersAndInitializers(inputs[1..], initializers);
      var rest := ParameterNames(inputs[1..], initializers);
      assert ([inputs[0]] + rest)[1..] == rest;
    }
  }

  /** The names that sorting treats as known are those visible inside the main graph, and the empty one. */
  lemma KnownNamesOfGraph(g: Graph)
    ensures KnownNames(InitializerNames(g), g.inputs) == GraphNames(g, {}) + {""}
  {
    ParametersAndInitializers(g.inputs, InitializerNames(g));
    NameSetMembers(g.inputs);
    NameSetMembers(InitializerNames(g));
  }

  /** Sorting succeeds exactly if the nodes can be arranged. */
  lemma RefusedMeansNoArrangement(g: Graph, order: seq<int>)
    requires IsSingleAssignment(g.nodes, GraphNames(g, {}))
    requires forall p :: !IsOrder(Dependencies(GraphNames(g, {}) + {""}, g.nodes), p)
    ensures !IsArrangement(g, order)
  {
    if IsArrangement(g, order) {
      SortingIsOrder(GraphNames(g, {}) + {""}, g.nodes, order);
    }
  }

  /**
   * Sorts the nodes, if that is allowed and needed, and imports the graph. The result is a program that computes what
   * the graph computes, in whichever order one takes its nodes; there is none exactly if they cannot be ordered.
   */
  method SortAndImport(tables: ValidTables, opsets: map<string, int>, functions: map<string, Function>, g: Graph,
                       graph: GraphProto,
                       allowSorting: bool)
    returns (region: Option<Region>)
    requires graph.initializers == InitializerNames(g) && graph.inputs == g.inputs && graph.nodes[..] == g.nodes
    requires DefaultsAreValues(tables, functions)
    requires SoundUnordered(TableDispatch(tables), Context(opsets, functions), g)
    requires allowSorting || Sorted(GraphNames(g, {}) + {""}, g.nodes)
    modifies graph.nodes
    ensures region.Some? <==> exists order :: IsArrangement(g, order)
    ensures region.Some? ==> forall order :: IsArrangement(g, order) ==>
      Computes(region.value, TableDispatch(tables), Context(opsets, functions), Arranged(g, order))
  {
    ghost var t, k, order := TableDispatch(tables), Context(opsets, functions), Identity(|g.nodes|);
    KnownNamesOfGraph(g);
    ghost var d := ArrangementsAreFormed(t, k, g);
    var sorted := IsTopologicallySorted(graph.initializers, graph.inputs, graph.nodes[..]);
    if allowSorting && !sorted {
      var ok;
      ok, order := SortGraph(graph);
      if !ok {
        assert graph.nodes[..] == g.nodes && graph.Known() == GraphNames(g, {}) + {""};
        forall p ensures !IsArrangement(g, p) {
          RefusedMeansNoArrangement(g, p);
        }
        return None;
      }
      OrderSorts(GraphNames(g, {}) + {""}, g.nodes, order);
    } else {
      assert Reorder(g.nodes, order) == g.nodes;
    }
    assert IsArrangement(g, order) && graph.nodes[..] == Reorder(g.nodes, order);
    ReorderIsRefFree(g.nodes, order);
    var imported := ImportFormed(tables, opsets, functions, g.(nodes := graph.nodes[..]), d);
    forall p | IsArrangement(g, p) ensures Computes(imported, t, k, Arranged(g, p)) {
      ComputesAll(imported, t, k, g, order, p);
    }
    region := Some(imported);
  }
}
