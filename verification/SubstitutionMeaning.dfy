/**
 * Attribute references may be read through an attribute environment or substituted away. The meaning is the same
 * as long as the names that substituted graphs capture mean the same at the place of the reference.
 */
module SubstitutionMeaning {
  import opened Wrappers
  import opened OnnxModel
  import opened AttributeReferences
  import opened GraphSemantics
  import opened FreeNames

  // ---------------------------------------------------------------- references and bound names

  /** The attributes that code refers to, at any depth. */
  function RefsInNodes(nodes: seq<Node>): set<Name>
    decreases nodes
  {
    if nodes == [] then {} else RefsInAttrs(nodes[0].attrs) + RefsInNodes(nodes[1..])
  }

  function RefsInAttrs(attrs: seq<Attr>): set<Name>
    decreases attrs
  {
    if attrs == [] then {}
    else
      var a := attrs[0];
      (if a.refName != "" then {a.refName} else if a.value.Subgraph? then RefsInNodes(a.value.graph.nodes) else {}) +
      RefsInAttrs(attrs[1..])
  }

  lemma {:induction false} AttrRefs(attrs: seq<Attr>, i: nat)
    requires i < |attrs|
    ensures attrs[i].refName != "" ==> attrs[i].refName in RefsInAttrs(attrs)
    ensures attrs[i].refName == "" && attrs[i].value.Subgraph? ==>
      RefsInNodes(attrs[i].value.graph.nodes) <= RefsInAttrs(attrs)
  {
    if i > 0 {
      AttrRefs(attrs[1..], i - 1);
    }
  }

  lemma {:induction false} RefsInPrefix(attrs: seq<Attr>, n: nat)
    requires n <= |attrs|
    ensures RefsInAttrs(attrs[..n]) <= RefsInAttrs(attrs)
    decreases n
  {
    if n > 0 {
      RefsInPrefix(attrs[1..], n - 1);
      assert attrs[..n][1..] == attrs[1..][..n - 1];
    }
  }

  /** Code that binds none of the names, at any depth. */
  predicate NodesAvoid(nodes: seq<Node>, names: set<Name>)
    decreases nodes
  {
    forall i :: 0 <= i < |nodes| ==> NodeAvoids(nodes[i], names)
  }

  predicate NodeAvoids(node: Node, names: set<Name>)
    decreases node
  {
    NameSet(node.outputs) !! names && AttrsAvoid(node.attrs, names)
  }

  predicate AttrsAvoid(attrs: seq<Attr>, names: set<Name>)
    decreases attrs
  {
    forall i :: 0 <= i < |attrs| && attrs[i].refName == "" && attrs[i].value.Subgraph? ==>
      GraphAvoids(attrs[i].value.graph, names)
  }

  predicate GraphAvoids(g: Graph, names: set<Name>)
    decreases g
  {
    HeaderNames(g) !! names && NodesAvoid(g.nodes, names)
  }

  // ---------------------------------------------------------------- attribute values that stand for meanings

  /** At this place, each referenced attribute means what its value, put in its place, would mean. */
  ghost predicate Stands(w: World, t: Dispatch, d: nat, k: Context, env: Env, am: AttrMap, ae: AttrEnv,
                         refs: set<Name>) {
    forall x :: x in refs ==>
      (x in am <==> x in ae) && (x in am ==> SameMeaning(d, ae[x], ValueMeaning(w, t, d + 1, k, am[x], env, map[])))
  }

  /** The referenced graphs capture only the given names. */
  ghost predicate CapturesWithin(am: AttrMap, refs: set<Name>, names: set<Name>) {
    forall x :: x in refs && x in am && am[x].Subgraph? ==> FreeInGraph(am[x].graph) <= names
  }

  lemma StandsFewer(w: World, t: Dispatch, d: nat, d': nat, k: Context, env: Env, am: AttrMap, ae: AttrEnv,
                    refs: set<Name>, refs': set<Name>)
    requires Stands(w, t, d, k, env, am, ae, refs) && d' <= d && refs' <= refs
    ensures Stands(w, t, d', k, env, am, ae, refs')
  {
    forall x | x in refs' && x in am ensures SameMeaning(d', ae[x], ValueMeaning(w, t, d' + 1, k, am[x], env, map[])) {
      assert SameMeaning(d, ae[x], ValueMeaning(w, t, d + 1, k, am[x], env, map[]));
    }
  }

  lemma SameAnswers(w: World, t: Dispatch, d: nat, k: Context, g: Graph, env: Env, ae: AttrEnv, k': Context, g': Graph,
                    env': Env, ae': AttrEnv)
    requires forall d': nat, args: seq<Value> :: d' <= d ==>
      EvalGraph(w, t, d', k, g, env, args, ae) == EvalGraph(w, t, d', k', g', env', args, ae')
    ensures SameMeaning(d, ValueMeaning(w, t, d + 1, k, Subgraph(g), env, ae),
                        ValueMeaning(w, t, d + 1, k', Subgraph(g'), env', ae'))
  {
    var m, n := ValueMeaning(w, t, d + 1, k, Subgraph(g), env, ae),
      ValueMeaning(w, t, d + 1, k', Subgraph(g'), env', ae');
    forall d': nat, args: seq<Value> | d' <= d ensures m.answer(d', args) == n.answer(d', args) {
      assert EvalGraph(w, t, d', k, g, env, args, ae) == EvalGraph(w, t, d', k', g', env', args, ae');
    }
  }

  /** Names other than the captured ones do not matter. */
  lemma StandsElsewhere(w: World, t: Dispatch, d: nat, k: Context, env: Env, env': Env, am: AttrMap, ae: AttrEnv,
                        refs: set<Name>, names: set<Name>)
    requires Stands(w, t, d, k, env, am, ae, refs) && CapturesWithin(am, refs, names) && AgreeOn(env, env', names)
    ensures Stands(w, t, d, k, env', am, ae, refs)
  {
    forall x | x in refs && x in am ensures SameMeaning(d, ae[x], ValueMeaning(w, t, d + 1, k, am[x], env', map[])) {
      assert SameMeaning(d, ae[x], ValueMeaning(w, t, d + 1, k, am[x], env, map[]));
      if am[x].Subgraph? {
        var g := am[x].graph;
        forall d': nat, args: seq<Value> | d' <= d
          ensures EvalGraph(w, t, d', k, g, env, args, map[]) == EvalGraph(w, t, d', k, g, env', args, map[])
        {
          GraphLocal(w, t, d', k, g, env, env', map[], map[], args);
        }
        SameAnswers(w, t, d, k, g, env, map[], k, g, env', map[]);
      }
    }
  }

  lemma {:induction false} BindAvoids(env: Env, bound: seq<Name>, vs: seq<Value>, names: set<Name>)
    requires |bound| == |vs| && NameSet(bound) !! names
    ensures AgreeOn(env, BindAll(env, bound, vs), names)
    decreases |bound|
  {
    if bound != [] {
      BindAvoids(if bound[0] == "" then env else env[bound[0] := vs[0]], bound[1..], vs[1..], names);
    }
  }

  // ---------------------------------------------------------------- the attributes of one node

  /** One attribute after substitution. */
  function SubstAttr(a: Attr, am: AttrMap): Attr
    requires ValueOf(a, am).Some?
  {
    Attr(a.name, "", if a.refName == "" then SubstValue(a.value, am) else am[a.refName])
  }

  lemma {:induction false} SubstAttrsLast(attrs: seq<Attr>, am: AttrMap)
    requires attrs != []
    ensures var n := |attrs| - 1;
      SubstAttrs(attrs, am) ==
        SubstAttrs(attrs[..n], am) + if ValueOf(attrs[n], am).Some? then [SubstAttr(attrs[n], am)] else []
  {
    var n := |attrs| - 1;
    if n > 0 {
      SubstAttrsLast(attrs[1..], am);
      assert attrs[1..][..n - 1] == attrs[..n][1..];
    } else {
      assert attrs[1..] == [] && attrs[..n] == [];
    }
  }

  /** Each reference finds an attribute of the same form on both sides. */
  ghost predicate SameForm(am: AttrMap, ae: AttrEnv, refs: set<Name>) {
    forall x :: x in refs ==>
      (x in am <==> x in ae) &&
      (x in am ==> if am[x].Data? then ae[x] == Plain(am[x].payload) else ae[x].Nested?)
  }

  lemma StandsForm(w: World, t: Dispatch, d: nat, k: Context, env: Env, am: AttrMap, ae: AttrEnv, refs: set<Name>)
    requires Stands(w, t, d, k, env, am, ae, refs)
    ensures SameForm(am, ae, refs)
  {
    forall x | x in refs && x in am ensures if am[x].Data? then ae[x] == Plain(am[x].payload) else ae[x].Nested? {
      assert SameMeaning(d, ae[x], ValueMeaning(w, t, d + 1, k, am[x], env, map[]));
    }
  }

  lemma {:induction false} DataAttrsSubst(attrs: seq<Attr>, am: AttrMap, ae: AttrEnv)
    requires SameForm(am, ae, RefsInAttrs(attrs))
    ensures DataAttrs(attrs, ae) == DataAttrs(SubstAttrs(attrs, am), map[])
  {
    if attrs != [] {
      DataAttrsSubst(attrs[1..], am, ae);
      AttrRefs(attrs, 0);
      if ValueOf(attrs[0], am).Some? {
        var rest := SubstAttrs(attrs[1..], am);
        assert SubstAttrs(attrs, am) == [SubstAttr(attrs[0], am)] + rest;
        assert SubstAttrs(attrs, am)[1..] == rest;
      }
    }
  }

  lemma {:induction false} BodyAttrsShift(a: Attr, attrs: seq<Attr>, from: nat)
    requires from <= |attrs|
    ensures var l, r := BodyAttrsFrom([a] + attrs, map[], from + 1), BodyAttrsFrom(attrs, map[], from);
      |l| == |r| && forall i :: 0 <= i < |l| ==> l[i] == r[i] + 1
    decreases |attrs| - from
  {
    var s := [a] + attrs;
    if from < |attrs| {
      BodyAttrsShift(a, attrs, from + 1);
      var l, r := BodyAttrsFrom(s, map[], from + 2), BodyAttrsFrom(attrs, map[], from + 1);
      assert s[from + 1] == attrs[from];
      assert BodyAttrsFrom(s, map[], from + 1) == if IsBody(attrs[from], map[]) then [from + 1] + l else l;
      assert BodyAttrsFrom(attrs, map[], from) == if IsBody(attrs[from], map[]) then [from] + r else r;
    }
  }

  /** The attributes of `s` at positions `r` are, in order, those of `attrs` at positions `l` after substitution. */
  ghost predicate Correspond(attrs: seq<Attr>, am: AttrMap, l: seq<nat>, s: seq<Attr>, r: seq<nat>) {
    && |l| == |r|
    && forall i :: 0 <= i < |l| ==>
         l[i] < |attrs| && r[i] < |s| && ValueOf(attrs[l[i]], am).Some? && s[r[i]] == SubstAttr(attrs[l[i]], am)
  }

  lemma CorrespondCons(attrs: seq<Attr>, am: AttrMap, from: nat, l: seq<nat>, a: Attr, rest: seq<Attr>, r: seq<nat>,
                       shifted: seq<nat>)
    requires from < |attrs| && ValueOf(attrs[from], am).Some? && a == SubstAttr(attrs[from], am)
    requires Correspond(attrs, am, l, rest, r)
    requires |shifted| == |r| && forall i :: 0 <= i < |r| ==> shifted[i] == r[i] + 1
    ensures Correspond(attrs, am, l, [a] + rest, shifted)
    ensures Correspond(attrs, am, [from] + l, [a] + rest, [0] + shifted)
  {
    var s := [a] + rest;
    forall i | 0 <= i < |l|
      ensures l[i] < |attrs| && shifted[i] < |s| && ValueOf(attrs[l[i]], am).Some?
      ensures s[shifted[i]] == SubstAttr(attrs[l[i]], am)
    {
      assert s[shifted[i]] == rest[r[i]];
    }
    var l', r' := [from] + l, [0] + shifted;
    forall i | 0 <= i < |l'|
      ensures l'[i] < |attrs| && r'[i] < |s| && ValueOf(attrs[l'[i]], am).Some? &&
        s[r'[i]] == SubstAttr(attrs[l'[i]], am)
    {
      if i > 0 {
        assert l'[i] == l[i - 1] && r'[i] == shifted[i - 1];
      }
    }
  }

  lemma {:induction false} BodyAttrsSubst(attrs: seq<Attr>, am: AttrMap, ae: AttrEnv, from: nat)
    requires from <= |attrs| && SameForm(am, ae, RefsInAttrs(attrs))
    ensures var s := SubstAttrs(attrs[from..], am);
      Correspond(attrs, am, BodyAttrsFrom(attrs, ae, from), s, BodyAttrs(s, map[]))
    decreases |attrs| - from
  {
    if from < |attrs| {
      BodyAttrsSubst(attrs, am, ae, from + 1);
      AttrRefs(attrs, from);
      assert attrs[from..][1..] == attrs[from + 1..];
      if ValueOf(attrs[from], am).Some? {
        var a, rest := SubstAttr(attrs[from], am), SubstAttrs(attrs[from + 1..], am);
        assert SubstAttrs(attrs[from..], am) == [a] + rest;
        BodyAttrsShift(a, rest, 0);
        CorrespondCons(attrs, am, from, BodyAttrsFrom(attrs, ae, from + 1), a, rest,
                       BodyAttrs(rest, map[]), BodyAttrsFrom([a] + rest, map[], 1));
      }
    }
  }

  lemma CallOfSubst(target: Target, node: Node, am: AttrMap, ae: AttrEnv)
    requires SameForm(am, ae, RefsInAttrs(node.attrs))
    ensures CallOf(target, node, ae) == CallOf(target, SubstNode(node, am), map[])
  {
    DataAttrsSubst(node.attrs, am, ae);
    BodyAttrsSubst(node.attrs, am, ae, 0);
    assert node.attrs[0..] == node.attrs;
    var s := SubstAttrs(node.attrs, am);
    AttrNamesSubst(node.attrs, am, BodyAttrs(node.attrs, ae), s, BodyAttrs(s, map[]));
  }

  lemma SameBodyCount(node: Node, am: AttrMap, ae: AttrEnv)
    requires SameForm(am, ae, RefsInAttrs(node.attrs))
    ensures |BodyAttrs(SubstNode(node, am).attrs, map[])| == |BodyAttrs(node.attrs, ae)|
  {
    BodyAttrsSubst(node.attrs, am, ae, 0);
    assert node.attrs[0..] == node.attrs;
  }

  lemma {:induction false} AttrNamesSubst(attrs: seq<Attr>, am: AttrMap, l: seq<nat>, s: seq<Attr>, r: seq<nat>)
    requires Correspond(attrs, am, l, s, r)
    ensures AttrNames(attrs, l) == AttrNames(s, r)
    decreases |l|
  {
    if l != [] {
      assert forall i :: 0 <= i < |l[1..]| ==> l[1..][i] == l[i + 1] && r[1..][i] == r[i + 1];
      AttrNamesSubst(attrs, am, l[1..], s, r[1..]);
    }
  }

  // ---------------------------------------------------------------- evaluation

  lemma {:induction false} NodesSubst(w: World, t: Dispatch, d: nat, k: Context, nodes: seq<Node>, env: Env,
                                      am: AttrMap, ae: AttrEnv, names: set<Name>)
    requires Stands(w, t, d, k, env, am, ae, RefsInNodes(nodes))
    requires CapturesWithin(am, RefsInNodes(nodes), names) && NodesAvoid(nodes, names)
    ensures EvalNodes(w, t, d, k, nodes, env, ae) == EvalNodes(w, t, d, k, SubstNodes(nodes, am), env, map[])
    decreases d, 2, nodes, 0, 0
  {
    if nodes != [] {
      NodeSubst(w, t, d, k, nodes[0], env, am, ae, names);
      assert SubstNodes(nodes, am)[1..] == SubstNodes(nodes[1..], am);
      var r := EvalNode(w, t, d, k, nodes[0], env, ae);
      if r.Some? {
        NodeKeeps(w, t, d, k, nodes[0], env, ae, names);
        StandsElsewhere(w, t, d, k, env, r.value, am, ae, RefsInNodes(nodes), names);
        assert forall i :: 0 <= i < |nodes[1..]| ==> nodes[1..][i] == nodes[i + 1];
        NodesSubst(w, t, d, k, nodes[1..], r.value, am, ae, names);
      }
    }
  }

  /** A node changes only the names it outputs. */
  lemma NodeKeeps(w: World, t: Dispatch, d: nat, k: Context, node: Node, env: Env, ae: AttrEnv, names: set<Name>)
    requires NameSet(node.outputs) !! names
    ensures var r := EvalNode(w, t, d, k, node, env, ae); r.Some? ==> AgreeOn(env, r.value, names)
  {
    var results := NodeResults(w, t, d, k, node, env, ae);
    if results.Some? {
      BindAvoids(env, node.outputs, Fit(results.value, |node.outputs|, w.none), names);
    }
  }

  lemma {:induction false} NodeSubst(w: World, t: Dispatch, d: nat, k: Context, node: Node, env: Env, am: AttrMap,
                                     ae: AttrEnv, names: set<Name>)
    requires Stands(w, t, d, k, env, am, ae, RefsInAttrs(node.attrs))
    requires CapturesWithin(am, RefsInAttrs(node.attrs), names) && NodeAvoids(node, names)
    ensures EvalNode(w, t, d, k, node, env, ae) == EvalNode(w, t, d, k, SubstNode(node, am), env, map[])
    decreases d, 2, node, 3, 0
  {
    var target := t.resolve(k, node.domain, node.opType);
    var vs := EvalInputs(w, env, node.inputs);
    if vs.Some? {
      if target.Call? {
        CallSubst(w, t, d, k, node, target.f, target.fromSchema, vs.value, env, am, ae, names);
      } else {
        StandsForm(w, t, d, k, env, am, ae, RefsInAttrs(node.attrs));
        CallOfSubst(target, node, am, ae);
        OpSubst(w, t, d, k, node, CallOf(target, node, ae), PadInputs(vs.value, t.operands(target), w.none), env, am,
                ae, names, [], w.fuel);
      }
    }
  }

  lemma {:induction false} CallSubst(w: World, t: Dispatch, d: nat, k: Context, node: Node, f: Function,
                                     fromSchema: bool, args: seq<Value>,
                  env: Env, am: AttrMap, ae: AttrEnv, names: set<Name>)
    requires Stands(w, t, d, k, env, am, ae, RefsInAttrs(node.attrs))
    requires CapturesWithin(am, RefsInAttrs(node.attrs), names) && AttrsAvoid(node.attrs, names)
    ensures EvalCall(w, t, d, k, node, f, fromSchema, args, env, ae)
         == EvalCall(w, t, d, k, SubstNode(node, am), f, fromSchema, args, env, map[])
    decreases d, 2, node, 2, 0
  {
    if d > 0 && |args| <= |f.inputs| && |node.outputs| <= |f.outputs| {
      var k', params := BodyContext(k, f, fromSchema), BindAll(map[], f.inputs, Fit(args, |f.inputs|, w.none));
      var node' := SubstNode(node, am);
      var defaults := Meanings(w, t, d, k', f.defaults, map[], map[]);
      MeaningsSubst(w, t, d, k, node.attrs, env, am, ae, names);
      SameAsItself(d - 1, defaults);
      OverrideLocal(d - 1, f.attributes, Meanings(w, t, d, k, node.attrs, env, ae),
                    Meanings(w, t, d, k, node'.attrs, env, map[]), defaults, defaults);
      BodyLocal(w, t, d - 1, k', f, params, CallMeanings(w, t, d, k, node, f, fromSchema, env, ae),
                CallMeanings(w, t, d, k, node', f, fromSchema, env, map[]));
    }
  }

  /** What a call passes on: an attribute of the caller, or a graph that refers to such attributes. */
  lemma {:induction false} MeaningsSubst(w: World, t: Dispatch, d: nat, k: Context, attrs: seq<Attr>, env: Env,
                                         am: AttrMap, ae: AttrEnv, names: set<Name>)
    requires d > 0 && Stands(w, t, d, k, env, am, ae, RefsInAttrs(attrs))
    requires CapturesWithin(am, RefsInAttrs(attrs), names) && AttrsAvoid(attrs, names)
    ensures SameMeanings(d - 1, Meanings(w, t, d, k, attrs, env, ae),
                         Meanings(w, t, d, k, SubstAttrs(attrs, am), env, map[]))
    decreases d, 1, attrs
  {
    if attrs != [] {
      var n := |attrs| - 1;
      var last := attrs[n];
      RefsInPrefix(attrs, n);
      AttrRefs(attrs, n);
      MeaningsSubst(w, t, d, k, attrs[..n], env, am, ae, names);
      SubstAttrsLast(attrs, am);
      if ValueOf(last, am).Some? {
        LastMeaningSubst(w, t, d, k, attrs, env, am, ae, names);
        AddMeaning(w, t, d, k, attrs, env, ae, SubstAttrs(attrs[..n], am), SubstAttr(last, am));
      } else {
        assert SubstAttrs(attrs, am) == SubstAttrs(attrs[..n], am);
      }
    }
  }

  lemma AddMeaning(w: World, t: Dispatch, d: nat, k: Context, attrs: seq<Attr>, env: Env, ae: AttrEnv,
                   front: seq<Attr>, a: Attr)
    requires d > 0 && attrs != [] && a.refName == "" && a.name == attrs[|attrs| - 1].name
    requires SameMeanings(d - 1, Meanings(w, t, d, k, attrs[..|attrs| - 1], env, ae),
                          Meanings(w, t, d, k, front, env, map[]))
    requires var last := attrs[|attrs| - 1];
      && (last.refName != "" ==> last.refName in ae)
      && SameMeaning(d - 1, if last.refName == "" then ValueMeaning(w, t, d, k, last.value, env, ae)
        else ae[last.refName],
                     ValueMeaning(w, t, d, k, a.value, env, map[]))
    ensures SameMeanings(d - 1, Meanings(w, t, d, k, attrs, env, ae), Meanings(w, t, d, k, front + [a], env, map[]))
  {
    var n, s := |attrs| - 1, front + [a];
    var before, after := Meanings(w, t, d, k, attrs[..n], env, ae), Meanings(w, t, d, k, front, env, map[]);
    var l := if attrs[n].refName == "" then ValueMeaning(w, t, d, k, attrs[n].value, env, ae) else ae[attrs[n].refName];
    var r := ValueMeaning(w, t, d, k, a.value, env, map[]);
    LastMeaning(w, t, d, k, attrs[..n], attrs[n], env, ae);
    LastMeaning(w, t, d, k, front, a, env, map[]);
    assert attrs[..n] + [attrs[n]] == attrs;
    OneMoreMeaning(d - 1, before, after, a.name, l, r);
  }

  lemma LastMeaning(w: World, t: Dispatch, d: nat, k: Context, front: seq<Attr>, a: Attr, env: Env, ae: AttrEnv)
    requires a.refName != "" ==> a.refName in ae
    ensures Meanings(w, t, d, k, front + [a], env, ae)
         == Meanings(w, t, d, k, front, env, ae)[a.name :=
              if a.refName == "" then ValueMeaning(w, t, d, k, a.value, env, ae) else ae[a.refName]]
  {
    var s := front + [a];
    assert s[..|s| - 1] == front && s[|s| - 1] == a;
  }

  lemma OneMoreMeaning(d: nat, ae: AttrEnv, be: AttrEnv, x: Name, l: Meaning, r: Meaning)
    requires SameMeanings(d, ae, be) && SameMeaning(d, l, r)
    ensures SameMeanings(d, ae[x := l], be[x := r])
  {
    var ae', be' := ae[x := l], be[x := r];
    forall y | y in ae' ensures SameMeaning(d, ae'[y], be'[y]) {
      assert y != x ==> SameMeaning(d, ae[y], be[y]);
    }
  }

  lemma {:induction false} LastMeaningSubst(w: World, t: Dispatch, d: nat, k: Context, attrs: seq<Attr>, env: Env,
                                            am: AttrMap, ae: AttrEnv, names: set<Name>)
    requires d > 0 && attrs != [] && ValueOf(attrs[|attrs| - 1], am).Some?
    requires Stands(w, t, d, k, env, am, ae, RefsInAttrs(attrs))
    requires CapturesWithin(am, RefsInAttrs(attrs), names) && AttrsAvoid(attrs, names)
    ensures var last := attrs[|attrs| - 1];
      && (last.refName != "" ==> last.refName in ae)
      && SameMeaning(d - 1, if last.refName == "" then ValueMeaning(w, t, d, k, last.value, env, ae)
        else ae[last.refName],
                     ValueMeaning(w, t, d, k, SubstAttr(last, am).value, env, map[]))
    decreases d, 0, attrs
  {
    var last := attrs[|attrs| - 1];
    AttrRefs(attrs, |attrs| - 1);
    if last.refName != "" {
      assert SameMeaning(d, ae[last.refName], ValueMeaning(w, t, d + 1, k, am[last.refName], env, map[]));
    } else if last.value.Subgraph? {
      var g := last.value.graph;
      forall d': nat, args: seq<Value> | d' <= d - 1
        ensures EvalGraph(w, t, d', k, g, env, args, ae)
             == EvalGraph(w, t, d', k, g.(nodes := SubstNodes(g.nodes, am)), env, args, map[])
      {
        StandsFewer(w, t, d, d', k, env, am, ae, RefsInAttrs(attrs), RefsInNodes(g.nodes));
        GraphSubst(w, t, d', k, g, env, args, am, ae, names);
      }
      SameAnswers(w, t, d - 1, k, g, env, ae, k, g.(nodes := SubstNodes(g.nodes, am)), env, map[]);
    }
  }

  lemma {:induction false} OpSubst(w: World, t: Dispatch, d: nat, k: Context, node: Node, call: OpCall,
                                   inputs: seq<Value>,
                env: Env, am: AttrMap, ae: AttrEnv, names: set<Name>, answers: seq<seq<Value>>, fuel: nat)
    requires Stands(w, t, d, k, env, am, ae, RefsInAttrs(node.attrs))
    requires CapturesWithin(am, RefsInAttrs(node.attrs), names) && AttrsAvoid(node.attrs, names)
    ensures RunOp(w, t, d, k, node, call, inputs, env, ae, answers, fuel)
         == RunOp(w, t, d, k, SubstNode(node, am), call, inputs, env, map[], answers, fuel)
    decreases d, 2, node, 1, fuel
  {
    var step := w.operator(call, inputs, answers);
    StandsForm(w, t, d, k, env, am, ae, RefsInAttrs(node.attrs));
    SameBodyCount(node, am, ae);
    if step.Ask? && fuel > 0 && step.body < |BodyAttrs(node.attrs, ae)| {
      AnswerSubst(w, t, d, k, node, step.body, env, step.args, am, ae, names);
      var answer := Answer(w, t, d, k, node, step.body, env, step.args, ae);
      if answer.Some? {
        OpSubst(w, t, d, k, node, call, inputs, env, am, ae, names, answers + [answer.value], fuel - 1);
      }
    }
  }

  lemma {:induction false} AnswerSubst(w: World, t: Dispatch, d: nat, k: Context, node: Node, body: nat, env: Env,
                                       args: seq<Value>,
                    am: AttrMap, ae: AttrEnv, names: set<Name>)
    requires Stands(w, t, d, k, env, am, ae, RefsInAttrs(node.attrs)) && SameForm(am, ae, RefsInAttrs(node.attrs))
    requires CapturesWithin(am, RefsInAttrs(node.attrs), names) && AttrsAvoid(node.attrs, names)
    requires body < |BodyAttrs(node.attrs, ae)| == |BodyAttrs(SubstNode(node, am).attrs, map[])|
    ensures Answer(w, t, d, k, node, body, env, args, ae)
         == Answer(w, t, d, k, SubstNode(node, am), body, env, args, map[])
    decreases d, 2, node, 0, 0
  {
    BodyAttrsSubst(node.attrs, am, ae, 0);
    assert node.attrs[0..] == node.attrs;
    var i := BodyAttrs(node.attrs, ae)[body];
    var attr := node.attrs[i];
    AttrRefs(node.attrs, i);
    if attr.refName == "" {
      StandsFewer(w, t, d, d, k, env, am, ae, RefsInAttrs(node.attrs), RefsInNodes(attr.value.graph.nodes));
      GraphSubst(w, t, d, k, attr.value.graph, env, args, am, ae, names);
    } else {
      assert SameMeaning(d, ae[attr.refName], ValueMeaning(w, t, d + 1, k, am[attr.refName], env, map[]));
    }
  }

  lemma {:induction false} GraphSubst(w: World, t: Dispatch, d: nat, k: Context, g: Graph, outer: Env, args: seq<Value>,
                   am: AttrMap, ae: AttrEnv, names: set<Name>)
    requires Stands(w, t, d, k, outer, am, ae, RefsInNodes(g.nodes))
    requires CapturesWithin(am, RefsInNodes(g.nodes), names) && GraphAvoids(g, names)
    ensures EvalGraph(w, t, d, k, g, outer, args, ae)
         == EvalGraph(w, t, d, k, g.(nodes := SubstNodes(g.nodes, am)), outer, args, map[])
    decreases d, 2, g, 0, 0
  {
    var g' := g.(nodes := SubstNodes(g.nodes, am));
    assert InitializerNames(g') == InitializerNames(g) && InitializerValues(w, g') == InitializerValues(w, g);
    var initializers, vs := InitializerNames(g), InitializerValues(w, g);
    var parameters := ParameterNames(g.inputs, initializers);
    if |args| == |parameters| {
      var mid := BindAll(outer, initializers, vs);
      var env := BindAll(mid, parameters, args);
      BindAvoids(outer, initializers, vs, names);
      BindAvoids(mid, parameters, args, names);
      StandsElsewhere(w, t, d, k, outer, env, am, ae, RefsInNodes(g.nodes), names);
      NodesSubst(w, t, d, k, g.nodes, env, am, ae, names);
    }
  }
}
