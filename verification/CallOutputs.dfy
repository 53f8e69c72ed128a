/**
 * The outputs of a function call. The values that the function's outputs are bound to are collected without gaps and
 * given the caller's output names in order.
 */
module CallOutputs {
  import opened Wrappers
  import opened OnnxModel
  import opened AttributeReferences
  import opened GraphSemantics
  import opened FreeNames
  import opened Compaction
  import opened SsaProgram
  import opened SymbolTable
  import opened GraphImport
  import opened ProperNames
  import opened ImportSuccess
  import opened ImportSteps

  /** What the names stand for, where they stand for something. */
  function FoundValues(scopes: Scopes, names: seq<Name>): (r: seq<Option<Id>>)
    ensures |r| == |names|
  {
    seq(|names|, i requires 0 <= i < |names| => Lookup(scopes, names[i]))
  }

  lemma {:induction false} BoundValuesAreCompact(scopes: Scopes, names: seq<Name>)
    ensures BoundValues(scopes, names) == Compact(FoundValues(scopes, names))
    decreases |names|
  {
    if names != [] {
      BoundValuesAreCompact(scopes, names[1..]);
      assert FoundValues(scopes, names)[1..] == FoundValues(scopes, names[1..]);
    }
  }

  // ---------------------------------------------------------------- each output under its name

  /** A table that binds new names has the given values for them, and the old ones for all other names. */
  lemma {:induction false} AddAllFinds(scopes: Scopes, names: seq<Name>, ids: seq<Id>, x: Name)
    requires scopes != [] && |names| == |ids| && "" !in names && AreNew(names, Bindings(scopes).Keys)
    ensures AddAll(scopes, names, ids).Some?
    ensures var after := AddAll(scopes, names, ids).value;
      && (x !in names ==> Lookup(after, x) == Lookup(scopes, x))
      && forall i :: 0 <= i < |names| && names[i] == x ==> Lookup(after, x) == Some(ids[i])
    decreases |names|
  {
    if names != [] {
      var name, id := names[0], ids[0];
      InnermostIsVisible(scopes);
      AddBindings(scopes, name, id);
      NewTail(names, Bindings(scopes).Keys);
      var added := Add(scopes, name, id);
      LookupIsBinding(scopes, x);
      LookupIsBinding(added, x);
      AddAllFinds(added, names[1..], ids[1..], x);
      assert names == [name] + names[1..];
      forall i | 0 <= i < |names| && names[i] == x ensures Lookup(AddAll(scopes, names, ids).value, x) == Some(ids[i]) {
        if i > 0 {
          assert names[1..][i - 1] == x && ids[1..][i - 1] == ids[i];
        } else {
          assert AreNew(names[1..], Bindings(scopes).Keys + {x});
        }
      }
    }
  }

  /** Every output that the function binds reaches the name that the caller gives at the same position. */
  ghost predicate OutputsArrive(node: Node, f: Function, inside: Scopes, after: Scopes) {
    forall i :: 0 <= i < |f.outputs| && Lookup(inside, f.outputs[i]).Some? ==>
      i < |node.outputs| && Lookup(after, node.outputs[i]) == Lookup(inside, f.outputs[i])
  }

  lemma ArriveIffAligned(scopes: Scopes, node: Node, f: Function, inside: Scopes, after: Scopes)
    requires scopes != [] && "" !in node.outputs && AreNew(node.outputs, Bindings(scopes).Keys)
    requires LeaveCall(scopes, node, f, inside) == Some(after)
    ensures OutputsArrive(node, f, inside, after) <==> Aligned(FoundValues(inside, f.outputs))
  {
    BoundValuesAreCompact(inside, f.outputs);
    var values := BoundValues(inside, f.outputs);
    var bound := node.outputs[..|values|];
    forall i | 0 <= i < |node.outputs|
      ensures Lookup(after, node.outputs[i]) == if i < |values| then Some(values[i]) else None
    {
      AddAllFinds(scopes, bound, values, node.outputs[i]);
      if i < |values| {
        assert bound[i] == node.outputs[i];
      } else {
        assert node.outputs[i] != "" && node.outputs[i] !in bound;
        LookupIsBinding(scopes, node.outputs[i]);
      }
    }
    if OutputsArrive(node, f, inside, after) {
      forall i | 0 <= i < |f.outputs| && FoundValues(inside, f.outputs)[i].Some?
        ensures i < |values| && values[i] == FoundValues(inside, f.outputs)[i].value
      {
        assert Lookup(after, node.outputs[i]) == Lookup(inside, f.outputs[i]);
      }
    }
    if Aligned(FoundValues(inside, f.outputs)) {
      forall i | 0 <= i < |f.outputs| && Lookup(inside, f.outputs[i]).Some?
        ensures i < |node.outputs| && Lookup(after, node.outputs[i]) == Lookup(inside, f.outputs[i])
      {
        assert FoundValues(inside, f.outputs)[i].Some?;
      }
    }
  }

  /** No output that the function leaves unbound comes before one that it binds. */
  ghost predicate NoGaps(f: Function) {
    forall i, j :: 0 <= i < j < |f.outputs| && f.outputs[j] in Binds(f) ==> f.outputs[i] in Binds(f)
  }

  /** The names of a function's parameters and of its nodes' outputs. */
  function Binds(f: Function): set<Name> {
    NameSet(f.inputs) + Defined(f.nodes)
  }

  lemma GapsAgree(f: Function, found: seq<Option<Id>>)
    requires |found| == |f.outputs| && forall i :: 0 <= i < |found| ==> (found[i].Some? <==> f.outputs[i] in Binds(f))
    ensures GapFree(found) <==> NoGaps(f)
  {
  }

  /**
   * For every call that is imported: each output that the function binds reaches the caller's name at its position
   * exactly if, in the function as written, no unbound output comes before a bound one.
   */
  lemma CallOutputsArriveIff(t: Dispatch, d: nat, k: Context, scopes: Scopes, next: Id, node: Node, f: Function,
                             fromSchema: bool,
                             args: Emitted<seq<Id>>, params: Scopes, inlined: Emitted<Scopes>, e: Emitted<Scopes>)
    requires scopes != [] && "" !in node.outputs && AreNew(node.outputs, Bindings(scopes).Keys)
    requires "" !in f.inputs && AreNew(f.inputs, {})
    requires ImportCall(t, d, k, scopes, next, node, f, fromSchema) == Some(e) && d > 0
    requires Arguments(scopes, node, f, next) == Some(args) && EnterCall(node, f, args.result) == Some(params)
    requires var k', body := BodyContext(k, f, fromSchema), SubstNodes(f.nodes, CallAttrs(f, node.attrs));
      && WellFormedNodes(t, d - 1, k', body, NameSet(f.inputs))
      && ImportNodes(t, d - 1, k', params, args.next, body) == Some(inlined)
    ensures OutputsArrive(node, f, inlined.result, e.result) <==> NoGaps(f)
  {
    var k', body := BodyContext(k, f, fromSchema), SubstNodes(f.nodes, CallAttrs(f, node.attrs));
    EnterCallSucceeds(node, f, args.result);
    NodesSucceed(t, d - 1, k', params, args.next, body, NameSet(f.inputs));
    SubstKeepsDefined(f.nodes, CallAttrs(f, node.attrs));
    assert Bindings(inlined.result).Keys == Binds(f);
    var found := FoundValues(inlined.result, f.outputs);
    forall i | 0 <= i < |f.outputs| ensures found[i].Some? <==> f.outputs[i] in Binds(f) {
      LookupIsBinding(inlined.result, f.outputs[i]);
    }
    ArriveIffAligned(scopes, node, f, inlined.result, e.result);
    AlignedIff(found);
    GapsAgree(f, found);
  }

  // ---------------------------------------------------------------- a value under the wrong name

  /** A function that binds only the second of its outputs. */
  const MAKE_B := Node("", "Make", "", [], ["b"], [])
  const SECOND := Function("Second", [], ["a", "b"], [MAKE_B], [], [], map[])
  const CALL_SECOND := Node("", "Second", "local", [], ["p", "q"], [])

  lemma SecondIsImported(t: Dispatch, k: Context, scopes: Scopes, next: Id)
    requires t.resolve(BodyContext(k, SECOND, false), "", "Make") == Unknown && t.operands(Unknown) == -1
    requires scopes != [] && Bindings(scopes) == map[]
    ensures ImportCall(t, 1, k, scopes, next, CALL_SECOND, SECOND, false)
         == Some(Emitted(Add(scopes, "p", next), next + 1, [Operation(CallOf(Unknown, MAKE_B, map[]), [], [], next)]))
  {
    var params, op := Push([], CallScopeName(CALL_SECOND, SECOND)),
      Operation(CallOf(Unknown, MAKE_B, map[]), [], [], next);
    var inside, after := Add(params, "b", next), Add(scopes, "p", next);
    PadNothing(scopes, next);
    MakeBIsUnchanged();
    MakeBIsImported(t, BodyContext(k, SECOND, false), params, next);
    SecondIsBound(params, next);
    FirstGetsIt(scopes, inside, next);
    CallSteps(t, 1, k, scopes, next, CALL_SECOND, SECOND, false, Emitted([], next, []), params,
              Emitted(inside, next + 1, [op]), after);
    assert [] + [op] == [op];
  }

  /**
   * The caller's first output gets the value of the function's second one, and the caller's second output gets none.
   */
  lemma OutputIsMisplaced(t: Dispatch, k: Context, scopes: Scopes, next: Id)
    requires t.resolve(BodyContext(k, SECOND, false), "", "Make") == Unknown && t.operands(Unknown) == -1
    requires scopes != [] && Bindings(scopes) == map[]
    ensures var r := ImportCall(t, 1, k, scopes, next, CALL_SECOND, SECOND, false);
      && r.Some? && r.value.ops == [Operation(CallOf(Unknown, MAKE_B, map[]), [], [], next)]
      && Lookup(r.value.result, "p") == Some(next) && Lookup(r.value.result, "q") == None
    ensures !NoGaps(SECOND)
  {
    SecondIsImported(t, k, scopes, next);
    InnermostIsVisible(scopes);
    AddBindings(scopes, "p", next);
    LookupIsBinding(Add(scopes, "p", next), "p");
    LookupIsBinding(Add(scopes, "p", next), "q");
    SecondHasGap();
  }

  lemma MakeBIsImported(t: Dispatch, k: Context, params: Scopes, next: Id)
    requires t.resolve(k, "", "Make") == Unknown && t.operands(Unknown) == -1 &&
      params == Push([], CallScopeName(CALL_SECOND, SECOND))
    ensures ImportNodes(t, 0, k, params, next, [MAKE_B])
         == Some(Emitted(Add(params, "b", next), next + 1, [Operation(CallOf(Unknown, MAKE_B, map[]), [], [], next)]))
  {
    var op := Operation(CallOf(Unknown, MAKE_B, map[]), [], [], next);
    NoOperands(params, next);
    OneResult(params, "b", next);
    assert ImportBodies(t, 0, k, params, next + 1, []) == Some(Emitted([], next + 1, []));
    OperationSteps(t, 0, k, params, next, MAKE_B, Unknown, Emitted([], next, []), Emitted([], next + 1, []),
                   Add(params, "b", next));
    assert [] + [op] == [op];
    SingleNode(t, 0, k, params, next, MAKE_B, Emitted(Add(params, "b", next), next + 1, [op]));
  }

  lemma FirstGetsIt(scopes: Scopes, inside: Scopes, next: Id)
    requires scopes != [] && Bindings(scopes) == map[] && BoundValues(inside, ["a", "b"]) == [next]
    ensures LeaveCall(scopes, CALL_SECOND, SECOND, inside) == Some(Add(scopes, "p", next))
  {
    InnermostIsVisible(scopes);
    OneResult(scopes, "p", next);
    assert CALL_SECOND.outputs[..1] == ["p"];
  }

  lemma PadNothing(scopes: Scopes, next: Id)
    ensures Arguments(scopes, CALL_SECOND, SECOND, next) == Some(Emitted([], next, []))
    ensures EnterCall(CALL_SECOND, SECOND, []) == Some(Push([], CallScopeName(CALL_SECOND, SECOND)))
  {
    assert NodeInputs(scopes, [], next) == Emitted([], next, []);
    assert NoneValues(0, next) == Emitted([], next, []);
    var operands := Operands(scopes, [], 0, next);
    assert operands.result == [] && operands.ops == [];
  }

  lemma MakeBIsUnchanged()
    ensures SubstNodes(SECOND.nodes, CallAttrs(SECOND, CALL_SECOND.attrs)) == [MAKE_B]
  {
    var am := CallAttrs(SECOND, CALL_SECOND.attrs);
    assert SubstAttrs([], am) == [];
    assert SubstNode(MAKE_B, am) == MAKE_B;
    assert [MAKE_B][1..] == [];
  }

  lemma SecondIsBound(params: Scopes, next: Id)
    requires params == Push([], CallScopeName(CALL_SECOND, SECOND))
    ensures BoundValues(Add(params, "b", next), ["a", "b"]) == [next]
  {
    var inside := Add(params, "b", next);
    AddBindings(params, "b", next);
    PushKeepsBindings<Id>([], CallScopeName(CALL_SECOND, SECOND));
    LookupIsBinding(inside, "a");
    FoundOne(inside, "b", next);
    assert ["a", "b"][1..] == ["b"];
  }

  lemma SecondHasGap()
    ensures !NoGaps(SECOND)
  {
    assert Defined([MAKE_B]) == {"b"} by {
      assert [MAKE_B][1..] == [] && ["b"][1..] == [];
    }
    assert SECOND.outputs[0] !in Binds(SECOND) && SECOND.outputs[1] in Binds(SECOND);
  }
}
