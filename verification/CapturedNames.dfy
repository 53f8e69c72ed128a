/**
 * The names of a passed graph, place by place: where the body of a function refers to a graph of the caller, a name
 * has the caller's value, for all operators, exactly if the caller passes it to a parameter of the same name. Taken
 * over all references of the body, this is the condition under which inlining keeps the caller's names.
 */
module CapturedNames {
  import opened Wrappers
  import opened OnnxModel
  import opened AttributeReferences
  import opened GraphSemantics
  import opened FreeNames
  import opened SubstitutionMeaning
  import opened CallHygiene

  /** A place in code: before a node, or in a graph that is an attribute of a node. */
  datatype Place = Before(node: nat) | Within(node: nat, attr: nat, inner: Place)

  predicate IsPlace(nodes: seq<Node>, place: Place)
    decreases place
  {
    place.node < |nodes| &&
    (place.Within? ==>
      var attrs := nodes[place.node].attrs;
      && place.attr < |attrs| && attrs[place.attr].refName == "" && attrs[place.attr].value.Subgraph?
      && IsPlace(attrs[place.attr].value.graph.nodes, place.inner))
  }

  function GraphAt(nodes: seq<Node>, place: Place): Graph
    requires IsPlace(nodes, place) && place.Within?
  {
    nodes[place.node].attrs[place.attr].value.graph
  }

  /** `there` is an environment in which the code at the place may run, when the code around it starts in `env`. */
  ghost predicate EnvAt(w: World, t: Dispatch, d: nat, k: Context, nodes: seq<Node>, env: Env, ae: AttrEnv,
                        place: Place, there: Env)
    requires IsPlace(nodes, place)
    decreases place
  {
    match place
    case Before(i) => EvalNodes(w, t, d, k, nodes[..i], env, ae) == Some(there)
    case Within(i, _, inner) =>
      var g := GraphAt(nodes, place);
      exists mid: Env, args: seq<Value> ::
        && EvalNodes(w, t, d, k, nodes[..i], env, ae) == Some(mid)
        && |args| == |ParameterNames(g.inputs, InitializerNames(g))|
        && EnvAt(w, t, d, k, g.nodes, GraphEnv(w, g, mid, args), ae, inner, there)
  }

  // ---------------------------------------------------------------- names that are not rebound keep their values

  lemma {:induction false} NodesKeep(w: World, t: Dispatch, d: nat, k: Context, nodes: seq<Node>, env: Env,
                                     ae: AttrEnv, names: set<Name>)
    requires NodesAvoid(nodes, names)
    ensures var r := EvalNodes(w, t, d, k, nodes, env, ae); r.Some? ==> AgreeOn(env, r.value, names)
    decreases |nodes|
  {
    if nodes != [] {
      NodeKeeps(w, t, d, k, nodes[0], env, ae, names);
      var r := EvalNode(w, t, d, k, nodes[0], env, ae);
      if r.Some? {
        assert forall i :: 0 <= i < |nodes[1..]| ==> nodes[1..][i] == nodes[i + 1];
        NodesKeep(w, t, d, k, nodes[1..], r.value, ae, names);
      }
    }
  }

  lemma {:induction false} PlaceKeeps(w: World, t: Dispatch, d: nat, k: Context, nodes: seq<Node>, env: Env,
                                      ae: AttrEnv, place: Place,
                                      there: Env, names: set<Name>)
    requires IsPlace(nodes, place) && NodesAvoid(nodes, names) && EnvAt(w, t, d, k, nodes, env, ae, place, there)
    ensures AgreeOn(env, there, names)
    decreases place
  {
    NodesKeep(w, t, d, k, nodes[..place.node], env, ae, names);
    if place.Within? {
      var g := GraphAt(nodes, place);
      assert NodeAvoids(nodes[place.node], names) && AttrsAvoid(nodes[place.node].attrs, names);
      assert GraphAvoids(nodes[place.node].attrs[place.attr].value.graph, names);
      var mid: Env, args: seq<Value> :|
        && EvalNodes(w, t, d, k, nodes[..place.node], env, ae) == Some(mid)
        && |args| == |ParameterNames(g.inputs, InitializerNames(g))|
        && EnvAt(w, t, d, k, g.nodes, GraphEnv(w, g, mid, args), ae, place.inner, there);
      var initializers, vs := InitializerNames(g), InitializerValues(w, g);
      BindAvoids(mid, initializers, vs, names);
      BindAvoids(BindAll(mid, initializers, vs), ParameterNames(g.inputs, initializers), args, names);
      PlaceKeeps(w, t, d, k, g.nodes, GraphEnv(w, g, mid, args), ae, place.inner, there, names);
    }
  }

  // ---------------------------------------------------------------- every place can be reached

  /** Operators without nested graphs: whatever they are given, all results are `v`. */
  function Constantly(v: Value): World {
    World((call: OpCall, inputs: seq<Value>, answers: seq<seq<Value>>) => Done([]), tensor => v, v, 0)
  }

  function NoFunctions(): Dispatch {
    Dispatch((k, domain, op) => Unknown, target => -1)
  }

  /** Code in which every node, at any depth, reads only names that are visible there. */
  predicate ClosedNodes(nodes: seq<Node>, visible: set<Name>)
    decreases nodes
  {
    nodes == [] || (ClosedNode(nodes[0], visible) && ClosedNodes(nodes[1..], visible + NameSet(nodes[0].outputs)))
  }

  predicate ClosedNode(node: Node, visible: set<Name>)
    decreases node
  {
    && NameSet(node.inputs) <= visible
    && forall i :: 0 <= i < |node.attrs| && node.attrs[i].refName == "" && node.attrs[i].value.Subgraph? ==>
         ClosedNodes(node.attrs[i].value.graph.nodes, visible + HeaderNames(node.attrs[i].value.graph))
  }

  /** The name is not bound, or it is bound to `v`. */
  ghost predicate AtMost(env: Env, x: Name, v: Value) { x in env ==> env[x] == v }

  lemma {:induction false} BindSame(env: Env, names: seq<Name>, vs: seq<Value>, x: Name, v: Value)
    requires |names| == |vs| && AtMost(env, x, v) && forall i :: 0 <= i < |vs| ==> vs[i] == v
    ensures AtMost(BindAll(env, names, vs), x, v) && BindAll(env, names, vs).Keys == env.Keys + NameSet(names)
    decreases |names|
  {
    if names != [] {
      assert forall i :: 0 <= i < |vs[1..]| ==> vs[1..][i] == vs[i + 1];
      BindSame(if names[0] == "" then env else env[names[0] := vs[0]], names[1..], vs[1..], x, v);
    }
  }

  lemma ConstantNode(v: Value, d: nat, k: Context, node: Node, env: Env, ae: AttrEnv, x: Name)
    requires NameSet(node.inputs) <= env.Keys && AtMost(env, x, v)
    ensures var r := EvalNode(Constantly(v), NoFunctions(), d, k, node, env, ae);
      r.Some? && AtMost(r.value, x, v) && r.value.Keys == env.Keys + NameSet(node.outputs)
  {
    InputsBound(Constantly(v), env, node.inputs);
    BindSame(env, node.outputs, Fit([], |node.outputs|, v), x, v);
  }

  lemma {:induction false} ConstantNodes(v: Value, d: nat, k: Context, nodes: seq<Node>, n: nat, env: Env, ae: AttrEnv,
                                         x: Name)
    requires n <= |nodes| && ClosedNodes(nodes, env.Keys) && AtMost(env, x, v)
    ensures var r := EvalNodes(Constantly(v), NoFunctions(), d, k, nodes[..n], env, ae);
      && r.Some? && AtMost(r.value, x, v)
      && (n < |nodes| ==> ClosedNode(nodes[n], r.value.Keys))
    decreases n
  {
    if n > 0 {
      ConstantNode(v, d, k, nodes[0], env, ae, x);
      var next := EvalNode(Constantly(v), NoFunctions(), d, k, nodes[0], env, ae).value;
      ConstantNodes(v, d, k, nodes[1..], n - 1, next, ae, x);
      assert nodes[..n][1..] == nodes[1..][..n - 1];
    }
  }

  lemma {:induction false} PlaceIsReached(v: Value, d: nat, k: Context, nodes: seq<Node>, env: Env, ae: AttrEnv,
                                          place: Place, x: Name)
      returns (there: Env)
    requires IsPlace(nodes, place) && ClosedNodes(nodes, env.Keys) && AtMost(env, x, v)
    ensures EnvAt(Constantly(v), NoFunctions(), d, k, nodes, env, ae, place, there) && AtMost(there, x, v)
    decreases place
  {
    var w, t := Constantly(v), NoFunctions();
    ConstantNodes(v, d, k, nodes, place.node, env, ae, x);
    var mid := EvalNodes(w, t, d, k, nodes[..place.node], env, ae).value;
    if place.Before? {
      there := mid;
    } else {
      var g := GraphAt(nodes, place);
      var initializers, vs := InitializerNames(g), InitializerValues(w, g);
      var parameters := ParameterNames(g.inputs, initializers);
      var args := Fit([], |parameters|, v);
      BindSame(mid, initializers, vs, x, v);
      BindSame(BindAll(mid, initializers, vs), parameters, args, x, v);
      assert mid.Keys + NameSet(initializers) + NameSet(parameters) == mid.Keys + HeaderNames(g);
      there := PlaceIsReached(v, d, k, g.nodes, GraphEnv(w, g, mid, args), ae, place.inner, x);
    }
  }

  // ---------------------------------------------------------------- the exact condition

  /** At the place, in every run of the body, the name has the value it has for the caller. */
  ghost predicate KeepsMeaning(node: Node, f: Function, place: Place, x: Name)
    requires IsPlace(f.nodes, place)
  {
    forall w: World, t: Dispatch, d: nat, k: Context, env: Env, ae: AttrEnv, there: Env ::
      x in env && EvalInputs(w, env, node.inputs).Some? &&
      EnvAt(w, t, d, k, f.nodes, ParameterEnv(w, f, EvalInputs(w, env, node.inputs).value), ae, place, there) ==>
        x in there && there[x] == env[x]
  }

  ghost predicate ProperParameters(f: Function) {
    "" !in f.inputs && forall a, b :: 0 <= a < b < |f.inputs| ==> f.inputs[a] != f.inputs[b]
  }

  lemma PassedKeepsMeaning(node: Node, f: Function, place: Place, x: Name)
    requires IsPlace(f.nodes, place) && ProperParameters(f) && |node.inputs| <= |f.inputs|
    requires NodesAvoid(f.nodes, NameSet(f.inputs)) && PassedAsItself(node, f, x)
    ensures KeepsMeaning(node, f, place, x)
  {
    forall w: World, t: Dispatch, d: nat, k: Context, env: Env, ae: AttrEnv, there: Env |
      x in env && EvalInputs(w, env, node.inputs).Some? &&
      EnvAt(w, t, d, k, f.nodes, ParameterEnv(w, f, EvalInputs(w, env, node.inputs).value), ae, place, there)
      ensures x in there && there[x] == env[x]
    {
      var params := ParameterEnv(w, f, EvalInputs(w, env, node.inputs).value);
      PassedNamesAgree(w, node, f, env, {x});
      NameSetMembers(f.inputs);
      PlaceKeeps(w, t, d, k, f.nodes, params, ae, place, there, NameSet(f.inputs));
    }
  }

  /** An environment in which only `x` has the value `v1`. */
  lemma {:induction false} OnlyX(inputs: seq<Name>, x: Name, v0: Value, v1: Value) returns (env: Env)
    requires x != ""
    ensures x in env && env[x] == v1 && NameSet(inputs) <= env.Keys && forall y :: y in env && y != x ==> env[y] == v0
  {
    if inputs == [] {
      env := map[x := v1];
    } else {
      env := OnlyX(inputs[1..], x, v0, v1);
      if inputs[0] != "" && inputs[0] != x {
        env := env[inputs[0] := v0];
      }
    }
  }

  lemma {:induction false} InputAtMost(w: World, env: Env, inputs: seq<Name>, x: Name, i: nat)
    requires i < |inputs| && inputs[i] != x && EvalInputs(w, env, inputs).Some?
    requires forall y :: y in env && y != x ==> env[y] == w.none
    ensures EvalInputs(w, env, inputs).value[i] == w.none
  {
    if i > 0 {
      InputAtMost(w, env, inputs[1..], x, i - 1);
    }
  }

  lemma {:induction false} ParameterAtMost(env: Env, names: seq<Name>, vs: seq<Value>, x: Name, v: Value)
    requires |names| == |vs| && AtMost(env, x, v) && forall i :: 0 <= i < |names| && names[i] == x ==> vs[i] == v
    ensures AtMost(BindAll(env, names, vs), x, v)
    decreases |names|
  {
    if names != [] {
      var rest, vs' := names[1..], vs[1..];
      assert forall i :: 0 <= i < |rest| ==> rest[i] == names[i + 1] && vs'[i] == vs[i + 1];
      ParameterAtMost(if names[0] == "" then env else env[names[0] := vs[0]], rest, vs', x, v);
    }
  }

  /** A name that is not passed as itself has another value, or none, in some run. */
  lemma OtherwiseLost(node: Node, f: Function, place: Place, x: Name, v0: Value, v1: Value)
    requires IsPlace(f.nodes, place) && |node.inputs| <= |f.inputs| && ClosedNodes(f.nodes, NameSet(f.inputs))
    requires v0 != v1 && x != "" && !PassedAsItself(node, f, x)
    ensures !KeepsMeaning(node, f, place, x)
  {
    var w, t := Constantly(v0), NoFunctions();
    var k := Context(map[], map[]);
    var env := OnlyX(node.inputs, x, v0, v1);
    InputsBound(w, env, node.inputs);
    var args := EvalInputs(w, env, node.inputs).value;
    var fitted := Fit(args, |f.inputs|, v0);
    var params := ParameterEnv(w, f, args);
    forall i | 0 <= i < |f.inputs| && f.inputs[i] == x ensures fitted[i] == v0 {
      if i < |args| {
        InputAtMost(w, env, node.inputs, x, i);
      }
    }
    ParameterAtMost(map[], f.inputs, fitted, x, v0);
    BindAllKeys(map[], f.inputs, fitted);
    assert params.Keys == NameSet(f.inputs);
    var there := PlaceIsReached(v0, 0, k, f.nodes, params, map[], place, x);
    assert EnvAt(w, t, 0, k, f.nodes, params, map[], place, there);
  }

  /**
   * For every place of a body that does not rebind its parameters: a captured name has the caller's value there, for
   * all operators and all values, exactly if the caller passes it to the parameter of the same name.
   */
  lemma CapturedNameIff(node: Node, f: Function, place: Place, x: Name, v0: Value, v1: Value)
    requires IsPlace(f.nodes, place) && ProperParameters(f) && |node.inputs| <= |f.inputs|
    requires NodesAvoid(f.nodes, NameSet(f.inputs)) && ClosedNodes(f.nodes, NameSet(f.inputs))
    requires v0 != v1 && x != ""
    ensures KeepsMeaning(node, f, place, x) <==> PassedAsItself(node, f, x)
  {
    if PassedAsItself(node, f, x) {
      PassedKeepsMeaning(node, f, place, x);
    } else {
      OtherwiseLost(node, f, place, x, v0, v1);
    }
  }

  // ---------------------------------------------------------------- all references of a body

  /** The node at the place refers to the attribute. */
  predicate RefersAt(nodes: seq<Node>, place: Place, r: Name)
    requires IsPlace(nodes, place)
    decreases place
  {
    match place
    case Before(i) => exists j :: 0 <= j < |nodes[i].attrs| && nodes[i].attrs[j].refName == r
    case Within(_, _, inner) => RefersAt(GraphAt(nodes, place).nodes, inner, r)
  }

  lemma {:induction false} NodeRefs(nodes: seq<Node>, i: nat)
    requires i < |nodes|
    ensures RefsInAttrs(nodes[i].attrs) <= RefsInNodes(nodes)
  {
    if i > 0 {
      NodeRefs(nodes[1..], i - 1);
    }
  }

  lemma {:induction false} ReferredIsRef(nodes: seq<Node>, place: Place, r: Name)
    requires IsPlace(nodes, place) && RefersAt(nodes, place, r) && r != ""
    ensures r in RefsInNodes(nodes)
    decreases place
  {
    var attrs := nodes[place.node].attrs;
    NodeRefs(nodes, place.node);
    match place
    case Before(i) =>
      var j :| 0 <= j < |attrs| && attrs[j].refName == r;
      AttrRefs(attrs, j);
    case Within(_, attr, inner) =>
      AttrRefs(attrs, attr);
      ReferredIsRef(GraphAt(nodes, place).nodes, inner, r);
  }

  lemma {:induction false} RefHasPlace(nodes: seq<Node>, r: Name) returns (place: Place)
    requires r in RefsInNodes(nodes)
    ensures IsPlace(nodes, place) && RefersAt(nodes, place, r)
    decreases nodes
  {
    if r in RefsInAttrs(nodes[0].attrs) {
      place := RefHasPlaceInAttrs(nodes, nodes[0].attrs, 0, r);
    } else {
      var later := RefHasPlace(nodes[1..], r);
      place := later.(node := later.node + 1);
    }
  }

  lemma {:induction false} RefHasPlaceInAttrs(nodes: seq<Node>, attrs: seq<Attr>, from: nat, r: Name)
      returns (place: Place)
    requires nodes != [] && from <= |nodes[0].attrs| && attrs == nodes[0].attrs[from..] && r in RefsInAttrs(attrs)
    ensures IsPlace(nodes, place) && RefersAt(nodes, place, r)
    decreases attrs
  {
    var a := attrs[0];
    assert a == nodes[0].attrs[from];
    if a.refName == r {
      place := Before(0);
    } else if a.refName == "" && a.value.Subgraph? && r in RefsInNodes(a.value.graph.nodes) {
      var inner := RefHasPlace(a.value.graph.nodes, r);
      place := Within(0, from, inner);
    } else {
      place := RefHasPlaceInAttrs(nodes, attrs[1..], from + 1, r);
    }
  }

  /** The name is captured by a graph that the caller passes under the name `r`. */
  predicate IsCaptured(node: Node, f: Function, r: Name, x: Name) {
    var am := CallAttrs(f, node.attrs);
    r != "" && x != "" && r in am && r in ByName(node.attrs) && am[r].Subgraph? && x in FreeInGraph(am[r].graph)
  }

  /** Wherever the body refers to a passed graph, the names that the graph captures have the caller's values. */
  ghost predicate CapturesKept(node: Node, f: Function) {
    forall place, r, x :: IsPlace(f.nodes, place) && RefersAt(f.nodes, place, r) && IsCaptured(node, f, r, x) ==>
      KeepsMeaning(node, f, place, x)
  }

  /** The captured names of the passed graphs that the body refers to are passed as themselves. */
  predicate CapturesPassed(node: Node, f: Function) {
    forall r :: r in RefsInNodes(f.nodes) ==> forall x | x in CapturedIn(node, f, r) :: PassedAsItself(node, f, x)
  }

  function CapturedIn(node: Node, f: Function, r: Name): (names: set<Name>)
    ensures forall x :: x in names <==> IsCaptured(node, f, r, x)
  {
    var am := CallAttrs(f, node.attrs);
    if r != "" && r in am && r in ByName(node.attrs) && am[r].Subgraph? then set x | x in FreeInGraph(am[r].graph) &&
      x != ""
    else {}
  }

  /**
   * For every call: in all runs, with all operators, the passed graphs keep the caller's names wherever the body puts
   * them, exactly if every name they capture is passed to the parameter of that name.
   */
  lemma CallCapturesIff(node: Node, f: Function, v0: Value, v1: Value)
    requires ProperParameters(f) && |node.inputs| <= |f.inputs| && v0 != v1
    requires NodesAvoid(f.nodes, NameSet(f.inputs)) && ClosedNodes(f.nodes, NameSet(f.inputs))
    ensures CapturesKept(node, f) <==> CapturesPassed(node, f)
  {
    if CapturesPassed(node, f) {
      forall place, r, x | IsPlace(f.nodes, place) && RefersAt(f.nodes, place, r) && IsCaptured(node, f, r, x)
        ensures KeepsMeaning(node, f, place, x)
      {
        ReferredIsRef(f.nodes, place, r);
        assert x in CapturedIn(node, f, r);
        CapturedNameIff(node, f, place, x, v0, v1);
      }
    }
    if CapturesKept(node, f) {
      forall r, x | r in RefsInNodes(f.nodes) && x in CapturedIn(node, f, r) ensures PassedAsItself(node, f, x) {
        var place := RefHasPlace(f.nodes, r);
        CapturedNameIff(node, f, place, x, v0, v1);
      }
    }
  }
}
