/** The importer's dispatch tables. */
module OpDispatch {
  import opened Wrappers
  import opened OnnxModel
  import opened OpVersions
  import opened GraphSemantics

  datatype Tables = Tables(
    handlers: set<HandlerKey>,
    decompose: set<HandlerKey>,
    supported: map<string, seq<int>>,
    history: map<string, seq<int>>,
    schemaFunctions: map<(string, int, string), Function>,
    operands: map<HandlerKey, int>)
  {
    ghost predicate Valid() {
      && (forall op :: op in supported ==> |supported[op]| > 0)
      && (forall op :: op in history ==> |history[op]| > 0)
    }
  }

  type ValidTables = t: Tables | t.Valid() witness Tables({}, {}, map[], map[], map[], map[])

  function ImportVersion(t: ValidTables, opsets: map<string, int>, domain: string, op: string): Option<int> {
    if domain in opsets && op in t.supported && op in t.history then
      VersionSuffix(t.history[op], t.supported[op], opsets[domain])
    else None
  }

  predicate IsStandardDomain(domain: string) {
    domain == "" || domain == "ai.onnx" || domain == "ai.onnx.ml"
  }

  function FunctionId(domain: string, op: string): string {
    domain + ":" + op
  }

  /** A handler is used for standard domains only; then schema functions, then model-local functions are tried. */
  function Resolve(t: ValidTables, k: Context, domain: string, op: string): Target {
    var key := HandlerKey(op, ImportVersion(t, k.opsets, domain, op));
    if IsStandardDomain(domain) && key !in t.decompose && key in t.handlers then Regular(key)
    else if domain in k.opsets && (op, k.opsets[domain], domain) in t.schemaFunctions then
      Call(t.schemaFunctions[(op, k.opsets[domain], domain)], true)
    else if FunctionId(domain, op) in k.functions then Call(k.functions[FunctionId(domain, op)], false)
    else Unknown
  }

  function ExpectedOperands(t: ValidTables, target: Target): int {
    if target.Regular? && target.key in t.operands then t.operands[target.key] else -1
  }

  function TableDispatch(t: ValidTables): Dispatch {
    Dispatch((k, domain, op) => Resolve(t, k, domain, op), target => ExpectedOperands(t, target))
  }
}
