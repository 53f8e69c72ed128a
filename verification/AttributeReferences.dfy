/**
 * Attribute references: inside a function body an attribute may refer to an attribute of the call.
 * `replaceAttrRefs` substitutes the referenced values, at every depth of nested graphs.
 */
module AttributeReferences {
  import opened Wrappers
  import opened OnnxModel

  type AttrMap = map<Name, AttrValue>

  /** What an attribute stands for under a map of attribute values; nothing if it refers to a missing one. */
  function ValueOf(a: Attr, am: AttrMap): Option<AttrValue> {
    if a.refName == "" then Some(a.value)
    else if a.refName in am then Some(am[a.refName])
    else None
  }

  // ---------------------------------------------------------------- reference freedom

  predicate RefFreeAttrs(attrs: seq<Attr>)
    decreases attrs
  {
    forall i :: 0 <= i < |attrs| ==> attrs[i].refName == "" && RefFreeValue(attrs[i].value)
  }

  predicate RefFreeValue(v: AttrValue)
    decreases v
  {
    v.Subgraph? ==> RefFreeNodes(v.graph.nodes)
  }

  predicate RefFreeNodes(nodes: seq<Node>)
    decreases nodes
  {
    forall i :: 0 <= i < |nodes| ==> RefFreeAttrs(nodes[i].attrs)
  }

  ghost predicate RefFreeMap(am: AttrMap) {
    forall x :: x in am ==> RefFreeValue(am[x])
  }

  // ---------------------------------------------------------------- substitution

  function SubstNodes(nodes: seq<Node>, am: AttrMap): (r: seq<Node>)
    ensures |r| == |nodes|
    decreases nodes
  {
    if nodes == [] then [] else [SubstNode(nodes[0], am)] + SubstNodes(nodes[1..], am)
  }

  function SubstNode(node: Node, am: AttrMap): (r: Node)
    ensures r == node.(attrs := r.attrs)
    decreases node
  {
    node.(attrs := SubstAttrs(node.attrs, am))
  }

  function SubstAttrs(attrs: seq<Attr>, am: AttrMap): seq<Attr>
    decreases attrs
  {
    if attrs == [] then []
    else
      var rest := SubstAttrs(attrs[1..], am);
      if attrs[0].refName == "" then [attrs[0].(value := SubstValue(attrs[0].value, am))] + rest
      else if attrs[0].refName in am then [Attr(attrs[0].name, "", am[attrs[0].refName])] + rest
      else rest
  }

  function SubstValue(v: AttrValue, am: AttrMap): AttrValue
    decreases v
  {
    match v
    case Data(_) => v
    case Subgraph(g) => Subgraph(g.(nodes := SubstNodes(g.nodes, am)))
  }

  /** With reference-free values, no reference is left at any depth. */
  lemma {:induction false} SubstNodesRefFree(nodes: seq<Node>, am: AttrMap)
    requires RefFreeMap(am)
    ensures RefFreeNodes(SubstNodes(nodes, am))
    decreases nodes
  {
    if nodes != [] {
      SubstAttrsRefFree(nodes[0].attrs, am);
      SubstNodesRefFree(nodes[1..], am);
    }
  }

  lemma {:induction false} SubstAttrsRefFree(attrs: seq<Attr>, am: AttrMap)
    requires RefFreeMap(am)
    ensures RefFreeAttrs(SubstAttrs(attrs, am))
    decreases attrs
  {
    if attrs != [] {
      SubstAttrsRefFree(attrs[1..], am);
      if attrs[0].refName == "" && attrs[0].value.Subgraph? {
        SubstNodesRefFree(attrs[0].value.graph.nodes, am);
      }
    }
  }

  /** Reference-free code is not changed. */
  lemma {:induction false} SubstNodesIdentity(nodes: seq<Node>, am: AttrMap)
    requires RefFreeNodes(nodes)
    ensures SubstNodes(nodes, am) == nodes
    decreases nodes
  {
    if nodes != [] {
      SubstAttrsIdentity(nodes[0].attrs, am);
      SubstNodesIdentity(nodes[1..], am);
    }
  }

  lemma {:induction false} SubstAttrsIdentity(attrs: seq<Attr>, am: AttrMap)
    requires RefFreeAttrs(attrs)
    ensures SubstAttrs(attrs, am) == attrs
    decreases attrs
  {
    if attrs != [] {
      SubstAttrsIdentity(attrs[1..], am);
      if attrs[0].value.Subgraph? {
        SubstNodesIdentity(attrs[0].value.graph.nodes, am);
      }
    }
  }

  /** The loop state of the replacement: a finished part, and a rest still as in the original list. */
  ghost predicate PartlyReplaced(original: seq<Attr>, am: AttrMap, attributes: seq<Attr>, i: nat, seen: nat) {
    && i <= |attributes| && seen <= |original|
    && attributes[i..] == original[seen..]
    && attributes[..i] + SubstAttrs(original[seen..], am) == SubstAttrs(original, am)
  }

  lemma KeepAttr(original: seq<Attr>, am: AttrMap, attributes: seq<Attr>, i: nat, seen: nat, v: AttrValue)
    requires PartlyReplaced(original, am, attributes, i, seen) && i < |attributes|
    requires seen < |original| && ValueOf(original[seen], am).Some?
    requires v == if original[seen].refName == "" then SubstValue(original[seen].value, am)
      else am[original[seen].refName]
    ensures PartlyReplaced(original, am, attributes[i := Attr(original[seen].name, "", v)], i + 1, seen + 1)
  {
    var a := Attr(original[seen].name, "", v);
    var after := attributes[i := a];
    assert original[seen..][1..] == original[seen + 1..];
    assert after[i + 1..] == attributes[i..][1..];
    assert after[..i + 1] == attributes[..i] + [a];
    assert SubstAttrs(original[seen..], am) == [a] + SubstAttrs(original[seen + 1..], am);
  }

  lemma EraseAttr(original: seq<Attr>, am: AttrMap, attributes: seq<Attr>, i: nat, seen: nat)
    requires PartlyReplaced(original, am, attributes, i, seen) && i < |attributes|
    requires seen < |original| && ValueOf(original[seen], am).None?
    ensures PartlyReplaced(original, am, attributes[..i] + attributes[i + 1..], i, seen + 1)
  {
    var after := attributes[..i] + attributes[i + 1..];
    assert original[seen..][1..] == original[seen + 1..];
    assert after[i..] == attributes[i..][1..];
    assert after[..i] == attributes[..i];
  }

  /** In-place replacement in one node: referenced values are copied under the old name, dangling references erased. */
  method ReplaceAttrRefs(node: Node, am: AttrMap) returns (r: Node)
    requires RefFreeMap(am)
    ensures r == SubstNode(node, am)
    decreases !RefFreeAttrs(node.attrs), node
  {
    var attributes := node.attrs;
    var i := 0;
    ghost var seen := 0;
    while i < |attributes|
      invariant 0 <= i && 0 <= seen && PartlyReplaced(node.attrs, am, attributes, i, seen)
      decreases |attributes| - i
    {
      var attr := attributes[i];
      assert attr == attributes[i..][0] == node.attrs[seen];
      var v := attr.value;
      if attr.refName != "" {
        if attr.refName in am {
          v := am[attr.refName];
          assert !RefFreeAttrs(node.attrs) && RefFreeValue(v);
        } else {
          EraseAttr(node.attrs, am, attributes, i, seen);
          attributes := attributes[..i] + attributes[i + 1..];
          seen := seen + 1;
          continue;
        }
      }
      if v.Subgraph? {
        assert RefFreeAttrs(node.attrs) ==> RefFreeValue(v);
        var nodes := ReplaceAttrRefsInNodes(v.graph.nodes, am);
        if attr.refName != "" {
          SubstNodesIdentity(v.graph.nodes, am);
        }
        v := Subgraph(v.graph.(nodes := nodes));
      }
      KeepAttr(node.attrs, am, attributes, i, seen, v);
      attributes := attributes[i := Attr(attr.name, "", v)];
      i := i + 1;
      seen := seen + 1;
    }
    assert node.attrs[seen..] == [] && attributes == attributes[..i];
    r := node.(attrs := attributes);
  }

  method ReplaceAttrRefsInNodes(nodes: seq<Node>, am: AttrMap) returns (r: seq<Node>)
    requires RefFreeMap(am)
    ensures r == SubstNodes(nodes, am)
    decreases !RefFreeNodes(nodes), nodes
  {
    r := [];
    for i := 0 to |nodes|
      invariant |r| == i
      invariant r + SubstNodes(nodes[i..], am) == SubstNodes(nodes, am)
    {
      assert nodes[i..][1..] == nodes[i + 1..];
      var n := ReplaceAttrRefs(nodes[i], am);
      assert SubstNodes(nodes[i..], am) == [n] + SubstNodes(nodes[i + 1..], am);
      r := r + [n];
    }
    assert nodes[|nodes|..] == [];
  }

  // ---------------------------------------------------------------- attributes of a call

  /** Attributes by name; the last one wins. */
  function ByName(attrs: seq<Attr>): AttrMap {
    if attrs == [] then map[]
    else
      var last := attrs[|attrs| - 1];
      ByName(attrs[..|attrs| - 1])[last.name := last.value]
  }

  /**
   * The attribute map of a call: declared attributes given by the caller, and defaults the caller does not override.
   */
  function CallAttrs(f: Function, attrs: seq<Attr>): (am: AttrMap)
    ensures forall x :: x in am <==> (x in f.attributes && x in ByName(attrs)) || x in ByName(f.defaults)
    ensures forall x :: x in am && x in ByName(attrs) ==> am[x] == ByName(attrs)[x]
    ensures forall x :: x in am && x !in ByName(attrs) ==> am[x] == ByName(f.defaults)[x]
  {
    var caller := ByName(attrs);
    var defaults := ByName(f.defaults);
    var declared := set x | x in f.attributes && x in caller;
    map x | x in declared + defaults.Keys :: if x in caller then caller[x] else defaults[x]
  }

  method IndexByName(attrs: seq<Attr>) returns (m: AttrMap)
    ensures m == ByName(attrs)
  {
    m := map[];
    for i := 0 to |attrs|
      invariant m == ByName(attrs[..i])
    {
      assert attrs[..i + 1][..i] == attrs[..i];
      m := m[attrs[i].name := attrs[i].value];
    }
    assert attrs[..|attrs|] == attrs;
  }

  method CollectDeclared(names: seq<Name>, caller: AttrMap) returns (am: AttrMap)
    ensures am.Keys == set x | x in names && x in caller
    ensures forall x :: x in am ==> am[x] == caller[x]
  {
    am := map[];
    for i := 0 to |names|
      invariant am.Keys == set x | x in names[..i] && x in caller
      invariant forall x :: x in am ==> am[x] == caller[x]
    {
      assert names[..i + 1] == names[..i] + [names[i]];
      if names[i] in caller {
        am := am[names[i] := caller[names[i]]];
      }
    }
    assert names[..|names|] == names;
  }

  method CollectCallAttrs(f: Function, attrs: seq<Attr>) returns (am: AttrMap)
    ensures am == CallAttrs(f, attrs)
  {
    var caller := IndexByName(attrs);
    am := CollectDeclared(f.attributes, caller);
    ghost var declared := am;
    for i := 0 to |f.defaults|
      invariant am.Keys == declared.Keys + ByName(f.defaults[..i]).Keys
      invariant forall x :: x in am && x in caller ==> am[x] == caller[x]
      invariant forall x :: x in am && x !in caller ==> am[x] == ByName(f.defaults[..i])[x]
    {
      assert f.defaults[..i + 1][..i] == f.defaults[..i];
      var attr := f.defaults[i];
      if attr.name in caller {
        am := am[attr.name := caller[attr.name]];
      } else {
        am := am[attr.name := attr.value];
      }
    }
    assert f.defaults[..|f.defaults|] == f.defaults;
  }

  lemma {:induction false} ByNameRefFree(attrs: seq<Attr>)
    requires RefFreeAttrs(attrs)
    ensures RefFreeMap(ByName(attrs))
  {
    if attrs != [] {
      ByNameRefFree(attrs[..|attrs| - 1]);
    }
  }

  lemma CallAttrsRefFree(f: Function, attrs: seq<Attr>)
    requires RefFreeAttrs(attrs) && RefFreeAttrs(f.defaults)
    ensures RefFreeMap(CallAttrs(f, attrs))
  {
    ByNameRefFree(attrs);
    ByNameRefFree(f.defaults);
  }
}
