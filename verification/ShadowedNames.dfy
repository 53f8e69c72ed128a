/**
 * The names that a passed graph binds itself. The importer searches scopes from the outermost inwards, so a name that
 * the graph binds is found only if it is not visible where the body puts the graph.
 */
module ShadowedNames {
  import opened Wrappers
  import opened OnnxModel
  import opened AttributeReferences
  import opened GraphSemantics
  import opened FreeNames
  import opened SubstitutionMeaning
  import opened ProperNames
  import opened CallHygiene
  import opened SsaProgram
  import opened SymbolTable
  import opened GraphImport
  import opened ImportSuccess
  import opened CapturedNames

  // ---------------------------------------------------------------- where a graph binds names

  /** Where names are bound: at the head of a graph, by one of its nodes, or within a graph of one of its nodes. */
  datatype Site = Head | Outputs(node: nat) | Deeper(node: nat, attr: nat, inner: Site)

  predicate IsSite(g: Graph, site: Site)
    decreases site
  {
    match site
    case Head => true
    case Outputs(i) => i < |g.nodes|
    case Deeper(i, j, inner) =>
      && i < |g.nodes| && j < |g.nodes[i].attrs|
      && g.nodes[i].attrs[j].refName == "" && g.nodes[i].attrs[j].value.Subgraph?
      && IsSite(g.nodes[i].attrs[j].value.graph, inner)
  }

  function BoundAt(g: Graph, site: Site): seq<Name>
    requires IsSite(g, site)
    decreases site
  {
    match site
    case Head => InitializerNames(g) + ParameterNames(g.inputs, InitializerNames(g))
    case Outputs(i) => g.nodes[i].outputs
    case Deeper(i, j, inner) => BoundAt(g.nodes[i].attrs[j].value.graph, inner)
  }

  ghost predicate BindsNone(g: Graph, names: set<Name>) {
    forall site :: IsSite(g, site) ==> NameSet(BoundAt(g, site)) !! names
  }

  lemma {:induction false} NameSetConcat(a: seq<Name>, b: seq<Name>)
    ensures NameSet(a + b) == NameSet(a) + NameSet(b)
  {
    NameSetMembers(a);
    NameSetMembers(b);
    NameSetMembers(a + b);
  }

  lemma {:induction false} AvoidedAt(g: Graph, names: set<Name>, site: Site)
    requires GraphAvoids(g, names) && IsSite(g, site)
    ensures NameSet(BoundAt(g, site)) !! names
    decreases site
  {
    match site
    case Head => NameSetConcat(InitializerNames(g), ParameterNames(g.inputs, InitializerNames(g)));
    case Outputs(i) => assert NodeAvoids(g.nodes[i], names);
    case Deeper(i, j, inner) =>
      assert NodeAvoids(g.nodes[i], names) && AttrsAvoid(g.nodes[i].attrs, names);
      assert GraphAvoids(g.nodes[i].attrs[j].value.graph, names);
      AvoidedAt(g.nodes[i].attrs[j].value.graph, names, inner);
  }

  /** A graph avoids names exactly if it binds none of them at any of its sites. */
  lemma {:induction false} AvoidsIff(g: Graph, names: set<Name>)
    ensures GraphAvoids(g, names) <==> BindsNone(g, names)
    decreases g
  {
    if GraphAvoids(g, names) {
      forall site | IsSite(g, site) ensures NameSet(BoundAt(g, site)) !! names {
        AvoidedAt(g, names, site);
      }
    }
    if BindsNone(g, names) {
      assert IsSite(g, Head);
      NameSetConcat(InitializerNames(g), ParameterNames(g.inputs, InitializerNames(g)));
      forall i | 0 <= i < |g.nodes| ensures NodeAvoids(g.nodes[i], names) {
        assert IsSite(g, Outputs(i)) && BoundAt(g, Outputs(i)) == g.nodes[i].outputs;
        forall j | 0 <= j < |g.nodes[i].attrs| && g.nodes[i].attrs[j].refName == "" &&
          g.nodes[i].attrs[j].value.Subgraph?
          ensures GraphAvoids(g.nodes[i].attrs[j].value.graph, names)
        {
          NestedBindsNone(g, names, i, j);
          AvoidsIff(g.nodes[i].attrs[j].value.graph, names);
        }
      }
    }
  }

  lemma NestedBindsNone(g: Graph, names: set<Name>, i: nat, j: nat)
    requires BindsNone(g, names) && i < |g.nodes| && j < |g.nodes[i].attrs|
    requires g.nodes[i].attrs[j].refName == "" && g.nodes[i].attrs[j].value.Subgraph?
    ensures BindsNone(g.nodes[i].attrs[j].value.graph, names)
  {
    var inner := g.nodes[i].attrs[j].value.graph;
    forall site | IsSite(inner, site) ensures NameSet(BoundAt(inner, site)) !! names {
      assert IsSite(g, Deeper(i, j, site)) && BoundAt(g, Deeper(i, j, site)) == BoundAt(inner, site);
    }
  }

  // ---------------------------------------------------------------- the importer's table at a site

  /** The next value when the importer comes to the graphs behind the first attributes of an operation. */
  function BodyStart(t: Dispatch, d: nat, k: Context, scopes: Scopes, next: Id, node: Node,
                     front: seq<Attr>): Option<Id> {
    var target := t.resolve(k, node.domain, node.opType);
    if target.Call? then None
    else
      match ImportBodies(t, d, k, scopes, Operands(scopes, node.inputs, t.operands(target), next).next
        + |node.outputs|, front)
      case None => None
      case Some(bodies) => Some(bodies.next)
  }

  function FirstInside(next: Id, g: Graph): Id { next + |g.initializers| + |GraphArgs(next, g)| }

  /** `there` is the table just after the names of the site are bound, when the import of the graph starts as given. */
  ghost predicate TableAt(t: Dispatch, d: nat, k: Context, scopes: Scopes, next: Id, g: Graph, site: Site,
                          there: Scopes)
    requires IsSite(g, site)
    decreases site
  {
    var inside := EnterGraph(scopes, next, g);
    && inside.Some?
    && match site
       case Head => there == inside.value
       case Outputs(i) =>
         var e := ImportNodes(t, d, k, inside.value, FirstInside(next, g), g.nodes[..i]);
         && e.Some?
         && var named := ImportNode(t, d, k, e.value.result, e.value.next, g.nodes[i]);
         && named.Some? && there == named.value.result
       case Deeper(i, j, inner) =>
         var e := ImportNodes(t, d, k, inside.value, FirstInside(next, g), g.nodes[..i]);
         && e.Some?
         && var start := BodyStart(t, d, k, e.value.result, e.value.next, g.nodes[i], g.nodes[i].attrs[..j]);
         && start.Some?
         && TableAt(t, d, k, e.value.result, start.value, g.nodes[i].attrs[j].value.graph, inner, there)
  }

  /** A name that has just been bound in the innermost scope is found there. */
  predicate FindsOwn(scopes: Scopes, x: Name) {
    scopes != [] && x in scopes[|scopes| - 1].names && Lookup(scopes, x) == Some(scopes[|scopes| - 1].names[x])
  }

  /** Wherever the graph binds a name, the name stands for what it was just bound to. */
  ghost predicate KeepsOwn(t: Dispatch, d: nat, k: Context, scopes: Scopes, next: Id, g: Graph) {
    forall site: Site, there: Scopes, x: Name ::
      (&& IsSite(g, site) && TableAt(t, d, k, scopes, next, g, site, there) && x in NameSet(BoundAt(g, site))
       && there != [] && x in there[|there| - 1].names) ==> FindsOwn(there, x)
  }

  // ---------------------------------------------------------------- names that are not visible are found

  lemma {:induction false} LookupOuter(outer: Scopes, more: Scopes, x: Name)
    ensures Lookup(outer + more, x) == if x in Bindings(outer) then Lookup(outer, x) else Lookup(more, x)
  {
    if outer == [] {
      assert outer + more == more;
    } else {
      assert (outer + more)[0] == outer[0] && (outer + more)[1..] == outer[1..] + more;
      LookupOuter(outer[1..], more, x);
    }
  }

  /** What is bound in the innermost scope is found if no outer scope has the name. */
  lemma InnermostIsFound(scopes: Scopes, x: Name)
    requires scopes != [] && x in scopes[|scopes| - 1].names && x !in Bindings(scopes[..|scopes| - 1])
    ensures FindsOwn(scopes, x)
  {
    var last := |scopes| - 1;
    LookupOuter(scopes[..last], [scopes[last]], x);
    assert scopes[..last] + [scopes[last]] == scopes;
  }

  /** Bindings of a table by its last scope. */
  lemma {:induction false} BindingsOfLast(scopes: Scopes)
    requires scopes != []
    ensures Bindings(scopes).Keys == Bindings(scopes[..|scopes| - 1]).Keys + scopes[|scopes| - 1].names.Keys
  {
    if |scopes| > 1 {
      BindingsOfLast(scopes[1..]);
      assert scopes[1..][..|scopes| - 2] == scopes[..|scopes| - 1][1..];
    } else {
      assert scopes[1..] == [];
    }
  }

  lemma NodesBind(t: Dispatch, d: nat, k: Context, scopes: Scopes, next: Id, nodes: seq<Node>, visible: set<Name>)
    requires scopes != [] && Bindings(scopes).Keys <= visible + {""}
    ensures var e := ImportNodes(t, d, k, scopes, next, nodes);
      e.Some? ==>
        && e.value.result != [] && e.value.result[..|e.value.result| - 1] == scopes[..|scopes| - 1]
        && Bindings(e.value.result).Keys <= visible + Defined(nodes) + {""}
  {
    NodesOnlyAdd(t, d, k, scopes, next, nodes);
    var e := ImportNodes(t, d, k, scopes, next, nodes);
    if e.Some? {
      BindingsOfLast(scopes);
      BindingsOfLast(e.value.result);
      OutputsAreDefined(nodes);
    }
  }

  lemma EnterBinds(scopes: Scopes, next: Id, g: Graph, visible: set<Name>, inside: Scopes)
    requires EnterGraph(scopes, next, g) == Some(inside) && Bindings(scopes).Keys <= visible + {""}
    ensures inside != [] && inside[..|inside| - 1] == scopes && Bindings(inside).Keys <= GraphNames(g, visible) + {""}
  {
    EnterGraphOnlyAdds(scopes, next, g);
    var pushed := Push(scopes, GraphScope(g.name));
    assert pushed[..|pushed| - 1] == scopes;
    BindingsOfLast(inside);
    NameSetMembers(InitializerNames(g));
    NameSetMembers(ParameterNames(g.inputs, InitializerNames(g)));
  }

  /** After some nodes of a graph the outer scopes are as before, and the names are those bound so far. */
  lemma InsideTable(t: Dispatch, d: nat, k: Context, scopes: Scopes, next: Id, g: Graph, n: nat, visible: set<Name>,
                    inside: Scopes)
    requires n <= |g.nodes| && EnterGraph(scopes, next, g) == Some(inside) && Bindings(scopes).Keys <= visible + {""}
    ensures var e := ImportNodes(t, d, k, inside, FirstInside(next, g), g.nodes[..n]);
      e.Some? ==>
        && e.value.result != [] && e.value.result[..|e.value.result| - 1] == scopes
        && Bindings(e.value.result).Keys <= GraphNames(g, visible) + Defined(g.nodes[..n]) + {""}
  {
    EnterBinds(scopes, next, g, visible, inside);
    NodesBind(t, d, k, inside, FirstInside(next, g), g.nodes[..n], GraphNames(g, visible));
  }

  lemma {:induction false} OutputsAreDefined(nodes: seq<Node>)
    ensures forall i, x :: 0 <= i < |nodes| && x in nodes[i].outputs && x != "" ==> x in Defined(nodes)
    decreases |nodes|
  {
    if nodes != [] {
      NameSetMembers(nodes[0].outputs);
      OutputsAreDefined(nodes[1..]);
      assert forall i :: 1 <= i < |nodes| ==> nodes[i] == nodes[1..][i - 1];
    }
  }

  lemma {:induction false} ProperAt(nodes: seq<Node>, visible: set<Name>, i: nat)
    requires ProperNodes(nodes, visible) && i < |nodes|
    ensures ProperNode(nodes[i], visible + Defined(nodes[..i]))
    decreases i
  {
    if i > 0 {
      ProperAt(nodes[1..], visible + NameSet(nodes[0].outputs), i - 1);
      assert nodes[..i][1..] == nodes[1..][..i - 1];
      assert visible + NameSet(nodes[0].outputs) + Defined(nodes[1..][..i - 1]) == visible + Defined(nodes[..i]);
    } else {
      assert nodes[..0] == [] && visible + {} == visible;
    }
  }

  lemma BoundIsUnseen(g: Graph, visible: set<Name>, site: Site, x: Name)
    requires ProperGraph(g, visible) && IsSite(g, site) && x in NameSet(BoundAt(g, site))
    ensures x !in visible && x != ""
  {
    ProperGraphAvoids(g, visible, visible);
    AvoidedAt(g, visible, site);
    NameSetMembers(BoundAt(g, site));
  }

  /** In a graph that is proper among the visible names, every name is found where it is bound. */
  lemma {:induction false} ProperFindsOwn(t: Dispatch, d: nat, k: Context, scopes: Scopes, next: Id, g: Graph,
                                          visible: set<Name>,
                                          site: Site, there: Scopes, x: Name)
    requires ProperGraph(g, visible) && Bindings(scopes).Keys <= visible + {""}
    requires IsSite(g, site) && TableAt(t, d, k, scopes, next, g, site, there) && x in NameSet(BoundAt(g, site))
    requires there != [] && x in there[|there| - 1].names
    ensures FindsOwn(there, x)
    decreases site
  {
    var inside := EnterGraph(scopes, next, g).value;
    match site
    case Head =>
      EnterBinds(scopes, next, g, visible, inside);
      BoundIsUnseen(g, visible, site, x);
      InnermostIsFound(there, x);
    case Outputs(i) =>
      InsideTable(t, d, k, scopes, next, g, i, visible, inside);
      var e := ImportNodes(t, d, k, inside, FirstInside(next, g), g.nodes[..i]).value;
      NodeOnlyAdds(t, d, k, e.result, e.next, g.nodes[i]);
      BoundIsUnseen(g, visible, site, x);
      InnermostIsFound(there, x);
    case Deeper(i, j, inner) =>
      InsideTable(t, d, k, scopes, next, g, i, visible, inside);
      ProperAt(g.nodes, GraphNames(g, visible), i);
      var e := ImportNodes(t, d, k, inside, FirstInside(next, g), g.nodes[..i]).value;
      var start := BodyStart(t, d, k, e.result, e.next, g.nodes[i], g.nodes[i].attrs[..j]).value;
      ProperFindsOwn(t, d, k, e.result, start, g.nodes[i].attrs[j].value.graph, GraphNames(g, visible)
        + Defined(g.nodes[..i]),
                     inner, there, x);
  }

  // ---------------------------------------------------------------- importing code that may shadow names

  predicate NodesEnter(nodes: seq<Node>, own: set<Name>, visible: set<Name>)
    decreases nodes, 0
  {
    nodes == [] ||
    (NodeEnters(nodes[0], own, visible) &&
     NodesEnter(nodes[1..], own + NameSet(nodes[0].outputs), visible + NameSet(nodes[0].outputs)))
  }

  /** The importer does not mind the node: its outputs are new in the innermost scope, its graphs find their outputs. */
  predicate NodeEnters(node: Node, own: set<Name>, visible: set<Name>)
    decreases node, 1
  {
    AreNew(node.outputs, own) && AttrsEnter(node.attrs, visible)
  }

  predicate AttrsEnter(attrs: seq<Attr>, visible: set<Name>)
    decreases attrs, 0
  {
    forall i :: 0 <= i < |attrs| && attrs[i].value.Subgraph? ==> GraphEnters(attrs[i].value.graph, visible)
  }

  predicate GraphEnters(g: Graph, visible: set<Name>)
    decreases g, 0
  {
    && HeaderIsNew(g, {})
    && NodesEnter(g.nodes, HeaderNames(g), visible + HeaderNames(g))
    && forall x :: x in g.outputs ==> x in visible + HeaderNames(g) + Defined(g.nodes)
  }

  /** A proper body, with proper graphs put into it, whether they fit or not. */
  lemma {:induction false} InstanceEnters(nodes: seq<Node>, am: AttrMap, own: set<Name>, proper: set<Name>,
                                          visible: set<Name>)
    requires ProperNodes(nodes, proper) && own <= proper <= visible
    requires ProperValues(am, RefsInNodes(nodes), visible) && RefFreeMap(am)
    ensures NodesEnter(SubstNodes(nodes, am), own, visible)
    decreases am != map[], nodes, 0
  {
    if nodes != [] {
      var outs := NameSet(nodes[0].outputs);
      AttrsOfInstanceEnter(nodes[0].attrs, am, proper, visible);
      InstanceEnters(nodes[1..], am, own + outs, proper + outs, visible + outs);
      var s := SubstNodes(nodes, am);
      assert s[0] == SubstNode(nodes[0], am) && s[1..] == SubstNodes(nodes[1..], am);
    }
  }

  lemma {:induction false} AttrsOfInstanceEnter(attrs: seq<Attr>, am: AttrMap, proper: set<Name>, visible: set<Name>)
    requires ProperAttrs(attrs, proper) && proper <= visible
    requires ProperValues(am, RefsInAttrs(attrs), visible) && RefFreeMap(am)
    ensures AttrsEnter(SubstAttrs(attrs, am), visible)
    decreases am != map[], attrs, 0
  {
    if attrs != [] {
      var a, rest := attrs[0], attrs[1..];
      assert forall i :: 0 <= i < |rest| ==> rest[i] == attrs[i + 1];
      AttrsOfInstanceEnter(rest, am, proper, visible);
      if a.refName != "" && a.refName in am && am[a.refName].Subgraph? {
        ProperEnters(am[a.refName].graph, FreeInGraph(am[a.refName].graph), visible);
      } else if a.refName == "" && a.value.Subgraph? {
        var g := a.value.graph;
        InstanceEnters(g.nodes, am, HeaderNames(g), GraphNames(g, proper), visible + HeaderNames(g));
        GraphOfInstanceEnters(g, am, proper, visible);
      }
    }
  }

  lemma GraphOfInstanceEnters(g: Graph, am: AttrMap, proper: set<Name>, visible: set<Name>)
    requires ProperGraph(g, proper) && proper <= visible
    requires NodesEnter(SubstNodes(g.nodes, am), HeaderNames(g), visible + HeaderNames(g))
    ensures GraphEnters(g.(nodes := SubstNodes(g.nodes, am)), visible)
  {
    var g' := g.(nodes := SubstNodes(g.nodes, am));
    assert InitializerNames(g') == InitializerNames(g);
    SubstKeepsDefined(g.nodes, am);
  }

  lemma {:induction false} ProperEnters(g: Graph, proper: set<Name>, visible: set<Name>)
    requires ProperGraph(g, proper) && RefFreeNodes(g.nodes) && proper <= visible
    ensures GraphEnters(g, visible)
    decreases false, g, 1
  {
    SubstNodesIdentity(g.nodes, map[]);
    InstanceEnters(g.nodes, map[], HeaderNames(g), GraphNames(g, proper), visible + HeaderNames(g));
    GraphOfInstanceEnters(g, map[], proper, visible);
    assert g.(nodes := SubstNodes(g.nodes, map[])) == g;
  }

  // ---------------------------------------------------------------- every site can be reached

  /** All values in the table are below the number. */
  ghost predicate TableBelow(scopes: Scopes, next: Id) {
    forall x :: x in Bindings(scopes) ==> Bindings(scopes)[x] < next
  }

  /** A table with the given innermost and visible names, and values below the number. */
  ghost predicate IsTable(scopes: Scopes, next: Id, own: set<Name>, visible: set<Name>) {
    scopes != [] && scopes[|scopes| - 1].names.Keys == own && Bindings(scopes).Keys == visible &&
      TableBelow(scopes, next)
  }

  /** The innermost names in the set stand for values from the number on. */
  ghost predicate OwnFrom(scopes: Scopes, names: set<Name>, first: Id) {
    scopes != [] && forall x :: x in names ==> x in scopes[|scopes| - 1].names && scopes[|scopes| - 1].names[x] >= first
  }

  lemma AddsTo(scopes: Scopes, x: Name, id: Id, next: Id, own: set<Name>, visible: set<Name>)
    requires IsTable(scopes, next, own, visible) && x !in own && id < next
    ensures IsTable(Add(scopes, x, id), next, own + {x}, visible + {x})
  {
    AddBindings(scopes, x, id);
  }

  lemma {:induction false} AddAllTo(scopes: Scopes, names: seq<Name>, first: Id, next: Id, own: set<Name>,
                                    visible: set<Name>)
    requires IsTable(scopes, next, own, visible) && "" !in names && AreNew(names, own) && first + |names| <= next
    ensures var r := AddAll(scopes, names, Consecutive(first, |names|));
      r.Some? && IsTable(r.value, next, own + NameSet(names), visible + NameSet(names))
    decreases |names|
  {
    if names == [] {
      assert own + {} == own && visible + {} == visible;
    } else {
      assert names[0] in names;
      AddsTo(scopes, names[0], first, next, own, visible);
      NewTail(names, own);
      assert Consecutive(first, |names|)[1..] == Consecutive(first + 1, |names| - 1);
      AddAllTo(Add(scopes, names[0], first), names[1..], first + 1, next, own + {names[0]}, visible + {names[0]});
      OneMore(own, names);
      OneMore(visible, names);
    }
  }

  lemma {:induction false} AddResultsTo(scopes: Scopes, names: seq<Name>, first: Id, next: Id, own: set<Name>,
                                        visible: set<Name>)
    requires IsTable(scopes, next, own, visible) && AreNew(names, own) && first + |names| <= next
    ensures var r := AddResults(scopes, names, first);
      r.Some? && IsTable(r.value, next, own + NameSet(names), visible + NameSet(names))
    decreases |names|
  {
    if names == [] {
      assert own + {} == own && visible + {} == visible;
    } else {
      NewTail(names, own);
      if names[0] == "" {
        AddResultsTo(scopes, names[1..], first + 1, next, own, visible);
      } else {
        AddsTo(scopes, names[0], first, next, own, visible);
        AddResultsTo(Add(scopes, names[0], first), names[1..], first + 1, next, own + {names[0]}, visible + {names[0]});
        OneMore(own, names);
        OneMore(visible, names);
      }
    }
  }

  lemma OneMore(others: set<Name>, names: seq<Name>)
    requires names != [] && names[0] != ""
    ensures others + {names[0]} + NameSet(names[1..]) == others + NameSet(names)
  {
  }

  lemma {:induction false} AddAllOwn(scopes: Scopes, names: seq<Name>, first: Id)
    requires scopes != [] && AddAll(scopes, names, Consecutive(first, |names|)).Some?
    ensures OwnFrom(AddAll(scopes, names, Consecutive(first, |names|)).value, NameSet(names), first)
    decreases |names|
  {
    if names != [] {
      var rest, added := Consecutive(first + 1, |names| - 1), Add(scopes, names[0], first);
      assert Consecutive(first, |names|)[1..] == rest;
      AddAllOwn(added, names[1..], first + 1);
      AddAllOnlyAdds(added, names[1..], rest);
    } else {
      assert AddAll(scopes, [], []) == Some(scopes);
    }
  }

  lemma {:induction false} AddResultsOwn(scopes: Scopes, names: seq<Name>, first: Id)
    requires scopes != [] && AddResults(scopes, names, first).Some?
    ensures OwnFrom(AddResults(scopes, names, first).value, NameSet(names), first)
    decreases |names|
  {
    if names != [] {
      if names[0] == "" {
        AddResultsOwn(scopes, names[1..], first + 1);
      } else {
        var added := Add(scopes, names[0], first);
        AddResultsOwn(added, names[1..], first + 1);
        AddResultsOnlyAdds(added, names[1..], first + 1);
      }
    }
  }

  lemma PushTable(scopes: Scopes, id: ScopeId, next: Id, visible: set<Name>)
    requires Bindings(scopes).Keys == visible && TableBelow(scopes, next)
    ensures IsTable(Push(scopes, id), next, {}, visible)
  {
    PushKeepsBindings(scopes, id);
  }

  lemma EnterTo(scopes: Scopes, next: Id, g: Graph, visible: set<Name>)
    requires Bindings(scopes).Keys == visible && TableBelow(scopes, next) && HeaderIsNew(g, {})
    ensures var r := EnterGraph(scopes, next, g);
      r.Some? && IsTable(r.value, FirstInside(next, g), HeaderNames(g), visible + HeaderNames(g))
  {
    var names := InitializerNames(g);
    var parameters := ParameterNames(g.inputs, names);
    PushTable(scopes, GraphScope(g.name), next, visible);
    EmptyMeansNew(g);
    var inside := HeaderTo(Push(scopes, GraphScope(g.name)), next, names, parameters, visible);
    EnteredBy(scopes, next, g, inside);
    assert FirstInside(next, g) == next + |names| + |parameters|;
  }

  lemma EmptyMeansNew(g: Graph)
    requires HeaderIsNew(g, {})
    ensures var names := InitializerNames(g);
      var parameters := ParameterNames(g.inputs, names);
      "" !in names && AreNew(names, {}) && "" !in parameters && AreNew(parameters, NameSet(names))
  {
    assert {} + NameSet(InitializerNames(g)) == NameSet(InitializerNames(g));
  }

  lemma EnteredBy(scopes: Scopes, next: Id, g: Graph, inside: Scopes)
    requires var names := InitializerNames(g);
      var parameters := ParameterNames(g.inputs, names);
      var mid := AddAll(Push(scopes, GraphScope(g.name)), names, Consecutive(next, |names|));
      mid.Some? && AddAll(mid.value, parameters, Consecutive(next + |names|, |parameters|)) == Some(inside)
    ensures EnterGraph(scopes, next, g) == Some(inside)
  {
  }

  lemma HeaderTo(pushed: Scopes, next: Id, names: seq<Name>, parameters: seq<Name>, visible: set<Name>)
      returns (inside: Scopes)
    requires IsTable(pushed, next, {}, visible) && "" !in names && AreNew(names, {})
    requires "" !in parameters && AreNew(parameters, NameSet(names))
    ensures var mid := AddAll(pushed, names, Consecutive(next, |names|));
      mid.Some? && AddAll(mid.value, parameters, Consecutive(next + |names|, |parameters|)) == Some(inside)
    ensures IsTable(inside, next + |names| + |parameters|, NameSet(names) + NameSet(parameters), visible
      + (NameSet(names) + NameSet(parameters)))
  {
    var first, end := next + |names|, next + |names| + |parameters|;
    LaterTable(pushed, next, end, {}, visible);
    AddAllTo(pushed, names, next, end, {}, visible);
    assert {} + NameSet(names) == NameSet(names);
    var mid := AddAll(pushed, names, Consecutive(next, |names|)).value;
    AddAllTo(mid, parameters, first, end, NameSet(names), visible + NameSet(names));
    inside := AddAll(mid, parameters, Consecutive(first, |parameters|)).value;
    assert visible + NameSet(names) + NameSet(parameters) == visible + (NameSet(names) + NameSet(parameters));
  }

  lemma LaterTable(scopes: Scopes, next: Id, later: Id, own: set<Name>, visible: set<Name>)
    requires IsTable(scopes, next, own, visible) && next <= later
    ensures IsTable(scopes, later, own, visible)
  {
  }

  /** The head of a graph stands for new values. */
  lemma EnterOwn(scopes: Scopes, next: Id, g: Graph, inside: Scopes)
    requires EnterGraph(scopes, next, g) == Some(inside)
    ensures OwnFrom(inside, HeaderNames(g), next)
  {
    var names, pushed := InitializerNames(g), Push(scopes, GraphScope(g.name));
    var parameters, ids := ParameterNames(g.inputs, names), Consecutive(next, |names|);
    var mid := AddAll(pushed, names, ids).value;
    AddAllOwn(pushed, names, next);
    AddAllOwn(mid, parameters, next + |names|);
    AddAllOnlyAdds(mid, parameters, GraphArgs(next, g));
    OwnFromBoth(mid, inside, NameSet(names), NameSet(parameters), (set x | x in parameters), next, next + |names|);
  }

  lemma OwnFromBoth(mid: Scopes, after: Scopes, names: set<Name>, more: set<Name>, added: set<Name>, next: Id,
                    first: Id)
    requires OwnFrom(mid, names, next) && OwnFrom(after, more, first) && next <= first && OnlyAdds(mid, after, added)
    ensures OwnFrom(after, names + more, next)
  {
  }

  lemma {:induction false} NodesImportTo(d: nat, k: Context, scopes: Scopes, next: Id, nodes: seq<Node>,
                                         own: set<Name>, visible: set<Name>)
    requires IsTable(scopes, next, own, visible) && NodesEnter(nodes, own, visible)
    ensures var r := ImportNodes(NoFunctions(), d, k, scopes, next, nodes);
      r.Some? && IsTable(r.value.result, r.value.next, own + Defined(nodes), visible + Defined(nodes))
    decreases nodes, 0
  {
    if nodes != [] {
      var outs := NameSet(nodes[0].outputs);
      NodeImportsTo(d, k, scopes, next, nodes[0], own, visible);
      var first := ImportNode(NoFunctions(), d, k, scopes, next, nodes[0]).value;
      NodesImportTo(d, k, first.result, first.next, nodes[1..], own + outs, visible + outs);
      assert own + outs + Defined(nodes[1..]) == own + Defined(nodes);
      assert visible + outs + Defined(nodes[1..]) == visible + Defined(nodes);
    } else {
      assert own + {} == own && visible + {} == visible;
    }
  }

  lemma {:induction false} NodeImportsTo(d: nat, k: Context, scopes: Scopes, next: Id, node: Node, own: set<Name>,
                                         visible: set<Name>)
    requires IsTable(scopes, next, own, visible) && NodeEnters(node, own, visible)
    ensures var r := ImportNode(NoFunctions(), d, k, scopes, next, node);
      && r.Some? && IsTable(r.value.result, r.value.next, own + NameSet(node.outputs), visible + NameSet(node.outputs))
      && OwnFrom(r.value.result, NameSet(node.outputs), next)
    decreases node, 1
  {
    var t := NoFunctions();
    var operands := Operands(scopes, node.inputs, -1, next);
    var start := operands.next + |node.outputs|;
    BodiesImportTo(d, k, scopes, start, node.attrs, visible);
    OperationUnfolds(t, d, k, scopes, next, node, Unknown);
    var bodies := ImportBodies(t, d, k, scopes, start, node.attrs).value;
    AddResultsTo(scopes, node.outputs, operands.next, bodies.next, own, visible);
    AddResultsOwn(scopes, node.outputs, operands.next);
  }

  lemma {:induction false} BodiesImportTo(d: nat, k: Context, scopes: Scopes, next: Id, attrs: seq<Attr>,
                                          visible: set<Name>)
    requires Bindings(scopes).Keys == visible && TableBelow(scopes, next) && AttrsEnter(attrs, visible)
    ensures var r := ImportBodies(NoFunctions(), d, k, scopes, next, attrs); r.Some?
    decreases attrs, 0
  {
    if attrs != [] {
      assert forall i :: 0 <= i < |attrs[1..]| ==> attrs[1..][i] == attrs[i + 1];
      if attrs[0].value.Data? {
        BodiesImportTo(d, k, scopes, next, attrs[1..], visible);
      } else {
        GraphImportsTo(d, k, scopes, next, attrs[0].value.graph, visible);
        var first := ImportGraph(NoFunctions(), d, k, scopes, next, attrs[0].value.graph).value;
        BodiesImportTo(d, k, scopes, first.next, attrs[1..], visible);
      }
    }
  }

  lemma {:induction false} GraphImportsTo(d: nat, k: Context, scopes: Scopes, next: Id, g: Graph, visible: set<Name>)
    requires Bindings(scopes).Keys == visible && TableBelow(scopes, next) && GraphEnters(g, visible)
    ensures var r := ImportGraph(NoFunctions(), d, k, scopes, next, g); r.Some?
    decreases g, 0
  {
    EnterTo(scopes, next, g, visible);
    var inside := EnterGraph(scopes, next, g).value;
    NodesImportTo(d, k, inside, FirstInside(next, g), g.nodes, HeaderNames(g), visible + HeaderNames(g));
    FinishGraph(NoFunctions(), d, k, scopes, next, g, inside, visible + HeaderNames(g) + Defined(g.nodes));
  }

  lemma {:induction false} EnterPrefix(nodes: seq<Node>, own: set<Name>, visible: set<Name>, n: nat)
    requires NodesEnter(nodes, own, visible) && n < |nodes|
    ensures NodesEnter(nodes[..n], own, visible)
    ensures NodeEnters(nodes[n], own + Defined(nodes[..n]), visible + Defined(nodes[..n]))
    decreases n
  {
    if n > 0 {
      var outs := NameSet(nodes[0].outputs);
      EnterPrefix(nodes[1..], own + outs, visible + outs, n - 1);
      var front := nodes[..n];
      assert front[0] == nodes[0] && front[1..] == nodes[1..][..n - 1];
      assert own + outs + Defined(front[1..]) == own + Defined(front);
      assert visible + outs + Defined(front[1..]) == visible + Defined(front);
    } else {
      assert nodes[..0] == [] && own + {} == own && visible + {} == visible;
    }
  }

  /** The import of the first nodes, and of the graphs of a node behind them that come before one of its attributes. */
  lemma ReachNode(d: nat, k: Context, scopes: Scopes, next: Id, nodes: seq<Node>, own: set<Name>, visible: set<Name>,
                  i: nat)
      returns (e: Emitted<Scopes>)
    requires IsTable(scopes, next, own, visible) && NodesEnter(nodes, own, visible) && i < |nodes|
    ensures ImportNodes(NoFunctions(), d, k, scopes, next, nodes[..i]) == Some(e) && e.next >= next
    ensures IsTable(e.result, e.next, own + Defined(nodes[..i]), visible + Defined(nodes[..i]))
    ensures e.result[..|e.result| - 1] == scopes[..|scopes| - 1]
    ensures NodeEnters(nodes[i], own + Defined(nodes[..i]), visible + Defined(nodes[..i]))
  {
    EnterPrefix(nodes, own, visible, i);
    NodesImportTo(d, k, scopes, next, nodes[..i], own, visible);
    NodesOnlyAdd(NoFunctions(), d, k, scopes, next, nodes[..i]);
    e := ImportNodes(NoFunctions(), d, k, scopes, next, nodes[..i]).value;
  }

  lemma ReachBody(d: nat, k: Context, scopes: Scopes, next: Id, node: Node, own: set<Name>, visible: set<Name>,
                  front: seq<Attr>)
      returns (start: Id)
    requires IsTable(scopes, next, own, visible) && AttrsEnter(front, visible)
    ensures BodyStart(NoFunctions(), d, k, scopes, next, node, front) == Some(start) && start >= next &&
      TableBelow(scopes, start)
  {
    var first := Operands(scopes, node.inputs, -1, next).next + |node.outputs|;
    BodiesImportTo(d, k, scopes, first, front, visible);
    start := ImportBodies(NoFunctions(), d, k, scopes, first, front).value.next;
  }

  lemma HeadIsReached(d: nat, k: Context, scopes: Scopes, next: Id, g: Graph, visible: set<Name>)
      returns (there: Scopes)
    requires Bindings(scopes).Keys == visible && TableBelow(scopes, next) && GraphEnters(g, visible)
    ensures TableAt(NoFunctions(), d, k, scopes, next, g, Head, there)
    ensures |scopes| < |there| && there[..|scopes|] == scopes && OwnFrom(there, NameSet(BoundAt(g, Head)), next)
  {
    EnterTo(scopes, next, g, visible);
    there := EnterGraph(scopes, next, g).value;
    EnterBinds(scopes, next, g, visible, there);
    EnterOwn(scopes, next, g, there);
    NameSetConcat(InitializerNames(g), ParameterNames(g.inputs, InitializerNames(g)));
  }

  /** The import up to a node of the graph. */
  lemma ReachInside(d: nat, k: Context, scopes: Scopes, next: Id, g: Graph, visible: set<Name>, i: nat)
      returns (inside: Scopes, e: Emitted<Scopes>, own: set<Name>, all: set<Name>)
    requires Bindings(scopes).Keys == visible && TableBelow(scopes, next) && GraphEnters(g, visible) && i < |g.nodes|
    ensures EnterGraph(scopes, next, g) == Some(inside)
    ensures ImportNodes(NoFunctions(), d, k, inside, FirstInside(next, g), g.nodes[..i]) == Some(e) && e.next >= next
    ensures IsTable(e.result, e.next, own, all) && NodeEnters(g.nodes[i], own, all)
    ensures |e.result| > 0 && e.result[..|e.result| - 1] == scopes
  {
    EnterTo(scopes, next, g, visible);
    inside := EnterGraph(scopes, next, g).value;
    EnterBinds(scopes, next, g, visible, inside);
    e := ReachNode(d, k, inside, FirstInside(next, g), g.nodes, HeaderNames(g), visible + HeaderNames(g), i);
    own, all := HeaderNames(g) + Defined(g.nodes[..i]), visible + HeaderNames(g) + Defined(g.nodes[..i]);
  }

  lemma OutputsAreReached(d: nat, k: Context, scopes: Scopes, next: Id, g: Graph, visible: set<Name>, i: nat)
      returns (there: Scopes)
    requires Bindings(scopes).Keys == visible && TableBelow(scopes, next) && GraphEnters(g, visible) && i < |g.nodes|
    ensures TableAt(NoFunctions(), d, k, scopes, next, g, Outputs(i), there)
    ensures |scopes| < |there| && there[..|scopes|] == scopes && OwnFrom(there, NameSet(BoundAt(g, Outputs(i))), next)
  {
    var inside, e, own, all := ReachInside(d, k, scopes, next, g, visible, i);
    NodeImportsTo(d, k, e.result, e.next, g.nodes[i], own, all);
    there := ImportNode(NoFunctions(), d, k, e.result, e.next, g.nodes[i]).value.result;
    NodeOnlyAdds(NoFunctions(), d, k, e.result, e.next, g.nodes[i]);
  }

  lemma DeeperTable(t: Dispatch, d: nat, k: Context, scopes: Scopes, next: Id, g: Graph, i: nat, j: nat, inner: Site,
                    inside: Scopes, e: Emitted<Scopes>, start: Id, there: Scopes)
    requires IsSite(g, Deeper(i, j, inner)) && EnterGraph(scopes, next, g) == Some(inside)
    requires ImportNodes(t, d, k, inside, FirstInside(next, g), g.nodes[..i]) == Some(e)
    requires BodyStart(t, d, k, e.result, e.next, g.nodes[i], g.nodes[i].attrs[..j]) == Some(start)
    requires TableAt(t, d, k, e.result, start, g.nodes[i].attrs[j].value.graph, inner, there)
    ensures TableAt(t, d, k, scopes, next, g, Deeper(i, j, inner), there)
  {
  }

  /**
   * Without functions every site is reached; there, the names just bound stand for new values in the innermost scope.
   */
  lemma {:induction false} SiteIsReached(d: nat, k: Context, scopes: Scopes, next: Id, g: Graph, visible: set<Name>,
                                         site: Site)
      returns (there: Scopes)
    requires Bindings(scopes).Keys == visible && TableBelow(scopes, next) && GraphEnters(g, visible) && IsSite(g, site)
    ensures TableAt(NoFunctions(), d, k, scopes, next, g, site, there)
    ensures |scopes| < |there| && there[..|scopes|] == scopes && OwnFrom(there, NameSet(BoundAt(g, site)), next)
    decreases site
  {
    match site
    case Head => there := HeadIsReached(d, k, scopes, next, g, visible);
    case Outputs(i) => there := OutputsAreReached(d, k, scopes, next, g, visible, i);
    case Deeper(i, j, inner) =>
      var inside, e, own, all := ReachInside(d, k, scopes, next, g, visible, i);
      var start := ReachBody(d, k, e.result, e.next, g.nodes[i], own, all, g.nodes[i].attrs[..j]);
      there := SiteIsReached(d, k, e.result, start, g.nodes[i].attrs[j].value.graph, all, inner);
      assert there[..|scopes|] == there[..|e.result|][..|scopes|];
      DeeperTable(NoFunctions(), d, k, scopes, next, g, i, j, inner, inside, e, start, there);
  }

  /** Without functions, a graph that keeps its own names binds none that is visible around it. */
  lemma KeptIsUnseen(d: nat, k: Context, scopes: Scopes, next: Id, g: Graph)
    requires TableBelow(scopes, next) && GraphEnters(g, Bindings(scopes).Keys)
    requires KeepsOwn(NoFunctions(), d, k, scopes, next, g)
    ensures GraphAvoids(g, Bindings(scopes).Keys)
  {
    forall site | IsSite(g, site) ensures NameSet(BoundAt(g, site)) !! Bindings(scopes).Keys {
      var there := SiteIsReached(d, k, scopes, next, g, Bindings(scopes).Keys, site);
      forall x | x in NameSet(BoundAt(g, site)) ensures x !in Bindings(scopes) {
        assert FindsOwn(there, x);
        LookupOuter(scopes, there[|scopes|..], x);
        LookupIsBinding(scopes, x);
        assert scopes + there[|scopes|..] == there;
      }
    }
    AvoidsIff(g, Bindings(scopes).Keys);
  }
}
