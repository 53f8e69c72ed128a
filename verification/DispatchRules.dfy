/**
 * How a node is dispatched, rule by rule: which domains use the registered handlers, which version's handler that is,
 * and in what order functions are tried otherwise.
 */
module DispatchRules {
  import opened Wrappers
  import opened OnnxModel
  import opened GraphSemantics
  import opened OpVersions
  import opened OpDispatch

  // ---------------------------------------------------------------- registered handlers

  /** `v` is the newest version in the history that is not above the opset, or the oldest one if all are. */
  ghost predicate IsNewestUpTo(history: seq<int>, opset: int, v: int) {
    && v in history
    && (if exists h :: h in history && h <= opset
        then v <= opset && forall h :: h in history && h <= opset ==> h <= v
        else forall h :: h in history ==> v <= h)
  }

  /** The generated handlers are there, and among them is one for every version the importer can select. */
  ghost predicate IsCovered(t: ValidTables, schemas: seq<Schema>, start: nat, op: string) {
    && op != "" && op in t.supported && op in t.history && Registered(schemas) <= t.handlers
    && Descending(t.history[op]) && Descending(t.supported[op])
    && IsBlock(schemas, start, op, t.supported[op][..FoundPrefix(t.history[op], t.supported[op])])
    && t.supported[op][0] in t.history[op]
    && forall w, h :: w in t.supported[op] && w !in t.history[op] && h in t.history[op] ==> w < h
  }

  lemma NewestUpTo(history: seq<int>, opset: int)
    requires |history| > 0 && Descending(history)
    ensures IsNewestUpTo(history, opset, NewestValid(history, opset))
  {
    NewestValidIsGreatest(history, opset);
    var n := |history| - 1;
    assert history[n] in history;
    forall h | h in history ensures history[n] <= h {
      var i :| 0 <= i <= n && history[i] == h;
      assert i < n ==> history[i] > history[n];
    }
  }

  /**
   * In the three standard domains an operator that is not to be decomposed is imported by the handler of the selected
   * version: the least supported one that is not older than the newest version up to the graph's opset. The newest
   * supported version has no suffix. An operator that is to be decomposed is not.
   */
  lemma StandardIsRegular(t: ValidTables, k: Context, schemas: seq<Schema>, start: nat, domain: string, op: string)
      returns (valid: int, selected: int)
    requires IsCovered(t, schemas, start, op) && domain in k.opsets
    requires domain == "" || domain == "ai.onnx" || domain == "ai.onnx.ml"
    ensures IsNewestUpTo(t.history[op], k.opsets[domain], valid) && IsLeastFrom(t.supported[op], valid, selected)
    ensures var key := HandlerKey(op, if selected == t.supported[op][0] then None else Some(selected));
      if key in t.decompose then !TableDispatch(t).resolve(k, domain, op).Regular?
      else TableDispatch(t).resolve(k, domain, op) == Regular(key)
  {
    var history, supported, opset := t.history[op], t.supported[op], k.opsets[domain];
    valid, selected := NewestValid(history, opset), SelectedVersion(history, supported, opset);
    NewestUpTo(history, opset);
    SelectionIsLeast(history, supported, opset);
    SelectedIsRegistered(schemas, start, op, history, supported, opset);
  }

  /** Without an opset for the domain, or without version information, the handler has no suffix. */
  lemma UnversionedIsNewest(t: ValidTables, k: Context, domain: string, op: string)
    requires domain !in k.opsets || op !in t.supported || op !in t.history
    requires domain == "" || domain == "ai.onnx" || domain == "ai.onnx.ml"
    requires HandlerKey(op, None) in t.handlers
    ensures var target := TableDispatch(t).resolve(k, domain, op);
      if HandlerKey(op, None) in t.decompose then !target.Regular? else target == Regular(HandlerKey(op, None))
  {
  }

  /**
   * Operator sets are looked up by the literal domain. Where one is given for the default domain "" but none for
   * "ai.onnx", its other name, an operator is dispatched alike under both names exactly if the version that the
   * operator set makes valid is newer than all supported ones but the newest.
   */
  lemma AliasIsAlikeIff(t: ValidTables, k: Context, schemas: seq<Schema>, start: nat, op: string) returns (valid: int)
    requires IsCovered(t, schemas, start, op) && "" in k.opsets && "ai.onnx" !in k.opsets
    requires forall v :: HandlerKey(op, v) !in t.decompose
    ensures IsNewestUpTo(t.history[op], k.opsets[""], valid)
    ensures TableDispatch(t).resolve(k, "", op) == TableDispatch(t).resolve(k, "ai.onnx", op) <==>
      forall s :: s in t.supported[op] && s != t.supported[op][0] ==> s < valid
  {
    var history, supported, opset := t.history[op], t.supported[op], k.opsets[""];
    var selected;
    valid, selected := StandardIsRegular(t, k, schemas, start, "", op);
    NewestIsRegistered(t, schemas, start, op);
    UnversionedIsNewest(t, k, "ai.onnx", op);
    forall s | s in supported && s != supported[0] ensures s < supported[0] {
      var i :| 0 <= i < |supported| && supported[i] == s;
      assert supported[0] > supported[i];
    }
  }

  lemma NewestIsRegistered(t: ValidTables, schemas: seq<Schema>, start: nat, op: string)
    requires IsCovered(t, schemas, start, op)
    ensures HandlerKey(op, None) in t.handlers
  {
    BlockKeys(schemas, start, op, t.supported[op][..FoundPrefix(t.history[op], t.supported[op])], None);
  }

  /** In all other domains no handler is used, and a regular target expects the operands that the table says. */
  lemma RegularIsStandard(t: ValidTables, k: Context, domain: string, op: string)
    ensures var target := TableDispatch(t).resolve(k, domain, op);
      target.Regular? ==>
        && (domain == "" || domain == "ai.onnx" || domain == "ai.onnx.ml")
        && target.key.op == op && target.key in t.handlers && target.key !in t.decompose
        && TableDispatch(t).operands(target) == if target.key in t.operands then t.operands[target.key] else -1
    ensures var target := TableDispatch(t).resolve(k, domain, op);
      !target.Regular? ==> TableDispatch(t).operands(target) == -1
  {
  }

  // ---------------------------------------------------------------- functions

  /**
   * What has no handler is a function of the schema at the domain's opset, else the function of that domain and name in
   * the model, and unknown exactly if there is neither.
   */
  lemma FunctionsAreTried(t: ValidTables, k: Context, domain: string, op: string)
    requires !TableDispatch(t).resolve(k, domain, op).Regular?
    ensures var target := TableDispatch(t).resolve(k, domain, op);
      var hasSchema := domain in k.opsets && (op, k.opsets[domain], domain) in t.schemaFunctions;
      var hasModel := domain + ":" + op in k.functions;
      && (hasSchema ==> target == Call(t.schemaFunctions[(op, k.opsets[domain], domain)], true))
      && (!hasSchema && hasModel ==> target == Call(k.functions[domain + ":" + op], false))
      && (target == Unknown <==> !hasSchema && !hasModel)
  {
  }

  /**
   * In the body of a function the operator sets are the function's own. A schema's function sees none of the model's
   * functions: where the model's function is called in the body of another one of the model, it is unknown there.
   */
  lemma BodiesSeeFunctions(t: ValidTables, k: Context, f: Function, domain: string, op: string)
    ensures var inModel := TableDispatch(t).resolve(BodyContext(k, f, false), domain, op);
      var inSchema := TableDispatch(t).resolve(BodyContext(k, f, true), domain, op);
      && !(inSchema.Call? && !inSchema.fromSchema)
      && inModel == TableDispatch(t).resolve(Context(f.opsets, k.functions), domain, op)
      && (if inModel.Call? && !inModel.fromSchema
          then domain + ":" + op in k.functions && inModel.f == k.functions[domain + ":" + op] && inSchema == Unknown
          else inSchema == inModel)
  {
  }

  // ---------------------------------------------------------------- identifiers

  /** A model function is called by exactly the nodes of its domain and name, if neither contains a colon. */
  lemma {:induction false} IdentifierIsUnique(domain: string, op: string, domain': string, op': string)
    requires ':' !in domain && ':' !in domain'
    ensures FunctionId(domain, op) == FunctionId(domain', op') <==> domain == domain' && op == op'
  {
    if FunctionId(domain, op) == FunctionId(domain', op') {
      var id, id' := domain + ":" + op, domain' + ":" + op';
      assert id[|domain|] == ':' && id'[|domain'|] == ':';
      assert forall i :: 0 <= i < |domain| ==> id[i] == domain[i];
      assert forall i :: 0 <= i < |domain'| ==> id'[i] == domain'[i];
      assert |domain| == |domain'|;
      assert domain == id[..|domain|] && domain' == id'[..|domain'|];
      assert op == id[|domain| + 1..] && op' == id'[|domain'| + 1..];
    }
  }

  // ---------------------------------------------------------------- the model's functions

  datatype Declared = Declared(domain: string, f: Function)

  /** The model's functions by identifier. A function whose identifier is taken is not entered. */
  method GetModelLocalFunctions(declared: seq<Declared>) returns (byId: map<string, Function>)
    ensures IndexesFunctions(byId, declared)
  {
    byId := map[];
    for n := 0 to |declared|
      invariant IndexesFunctions(byId, declared[..n])
    {
      var id := FunctionId(declared[n].domain, declared[n].f.name);
      IndexesNext(byId, declared[..n], declared[n]);
      if id !in byId {
        byId := byId[id := declared[n].f];
      }
      assert declared[..n] + [declared[n]] == declared[..n + 1];
    }
    assert declared[..|declared|] == declared;
  }

  ghost predicate HasId(d: Declared, id: string) { FunctionId(d.domain, d.f.name) == id }

  /** Function `i` is the first one that has the identifier. */
  ghost predicate IsFirstWith(declared: seq<Declared>, id: string, i: nat) {
    i < |declared| && HasId(declared[i], id) && forall j :: 0 <= j < i ==> !HasId(declared[j], id)
  }

  ghost predicate NoneWith(declared: seq<Declared>, id: string) {
    forall j :: 0 <= j < |declared| ==> !HasId(declared[j], id)
  }

  ghost predicate StandsFor(byId: map<string, Function>, declared: seq<Declared>, id: string) {
    if id in byId then exists i: nat :: IsFirstWith(declared, id, i) && byId[id] == declared[i].f
    else NoneWith(declared, id)
  }

  /** Every identifier stands for the first function that has it. */
  ghost predicate IndexesFunctions(byId: map<string, Function>, declared: seq<Declared>) {
    forall id :: StandsFor(byId, declared, id)
  }

  lemma IndexesNext(byId: map<string, Function>, declared: seq<Declared>, d: Declared)
    requires IndexesFunctions(byId, declared)
    ensures var id := FunctionId(d.domain, d.f.name);
      IndexesFunctions(if id in byId then byId else byId[id := d.f], declared + [d])
  {
    var id, all := FunctionId(d.domain, d.f.name), declared + [d];
    var byId' := if id in byId then byId else byId[id := d.f];
    forall other ensures StandsFor(byId', all, other) {
      assert StandsFor(byId, declared, other);
      if other in byId {
        var i: nat :| IsFirstWith(declared, other, i) && byId[other] == declared[i].f;
        assert IsFirstWith(all, other, i);
      } else if other == id {
        assert IsFirstWith(all, other, |declared|);
      }
    }
  }

  /** The function of the model that a node of the domain and name calls. */
  ghost predicate IsFirstOf(declared: seq<Declared>, i: nat, domain: string, op: string) {
    && i < |declared| && declared[i].domain == domain && declared[i].f.name == op
    && forall j :: 0 <= j < i ==> !(declared[j].domain == domain && declared[j].f.name == op)
  }

  /**
   * If no domain contains a colon: a node that has neither a handler nor a schema's function calls the first function
   * of the model with its domain and name, and is unknown exactly if there is none.
   */
  lemma ModelFunctionsAreCalled(t: ValidTables, k: Context, declared: seq<Declared>, domain: string, op: string)
    requires IndexesFunctions(k.functions, declared) && !TableDispatch(t).resolve(k, domain, op).Regular?
    requires domain !in k.opsets || (op, k.opsets[domain], domain) !in t.schemaFunctions
    requires ':' !in domain && forall i :: 0 <= i < |declared| ==> ':' !in declared[i].domain
    ensures var target := TableDispatch(t).resolve(k, domain, op);
      if target == Unknown then forall i :: 0 <= i < |declared| ==>
        !(declared[i].domain == domain && declared[i].f.name == op)
      else exists i: nat :: IsFirstOf(declared, i, domain, op) && target == Call(declared[i].f, false)
  {
    var id := FunctionId(domain, op);
    FunctionsAreTried(t, k, domain, op);
    forall i | 0 <= i < |declared|
      ensures HasId(declared[i], id) <==> declared[i].domain == domain && declared[i].f.name == op
    {
      IdentifierIsUnique(declared[i].domain, declared[i].f.name, domain, op);
    }
    assert StandsFor(k.functions, declared, id);
    if id in k.functions {
      var i: nat :| IsFirstWith(declared, id, i) && k.functions[id] == declared[i].f;
      assert IsFirstOf(declared, i, domain, op);
    }
  }

  /** With a colon in a domain, a node can call a function of another domain and name. */
  lemma ColonsCollide(t: ValidTables, k: Context, f: Function)
    requires f.name == "c" && IndexesFunctions(k.functions, [Declared("a:b", f)]) && "a" !in k.opsets
    ensures TableDispatch(t).resolve(k, "a", "b:c") == Call(f, false)
  {
    var declared, id := [Declared("a:b", f)], FunctionId("a", "b:c");
    assert "a:b" + ":" + "c" == "a" + ":" + "b:c";
    assert HasId(declared[0], id) && StandsFor(k.functions, declared, id);
    assert k.functions[id] == f;
    FunctionsAreTried(t, k, "a", "b:c");
  }
}
