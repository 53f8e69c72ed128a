/** The emitted program: operations in static single assignment form, with nested regions, and its meaning. */
module SsaProgram {
  import opened Wrappers
  import opened OnnxModel
  import opened GraphSemantics

  /** A value of the program. The results of an operation are numbered consecutively. */
  type Id = nat

  datatype Op =
    | NoneOp(result: Id)
    | ConstantOp(result: Id, tensor: string)
    | Operation(call: OpCall, operands: seq<Id>, regions: seq<Region>, result: Id)

  datatype Region = Region(args: seq<Id>, body: seq<Op>, returned: seq<Id>)

  type Store = map<Id, Value>

  function Fetch(store: Store, ids: seq<Id>): (r: Option<seq<Value>>)
    ensures r.Some? ==> |r.value| == |ids|
  {
    if ids == [] then Some([])
    else
      match Fetch(store, ids[1..])
      case None => None
      case Some(rest) => if ids[0] in store then Some([store[ids[0]]] + rest) else None
  }

  function Assign(store: Store, ids: seq<Id>, vs: seq<Value>): Store
    requires |ids| == |vs|
    decreases |ids|
  {
    if ids == [] then store else Assign(store[ids[0] := vs[0]], ids[1..], vs[1..])
  }

  function Consecutive(first: Id, n: nat): (ids: seq<Id>)
    ensures |ids| == n
    ensures forall i :: 0 <= i < n ==> ids[i] == first + i
  {
    seq(n, i requires 0 <= i => first + i)
  }

  function ExecOps(w: World, ops: seq<Op>, store: Store): Option<Store>
    decreases ops, 0
  {
    if ops == [] then Some(store)
    else
      match ExecOp(w, ops[0], store)
      case None => None
      case Some(store') => ExecOps(w, ops[1..], store')
  }

  function ExecOp(w: World, op: Op, store: Store): Option<Store>
    decreases op, w.fuel + 1
  {
    match op
    case NoneOp(result) => Some(store[result := w.none])
    case ConstantOp(result, tensor) => Some(store[result := w.tensor(tensor)])
    case Operation(call, operands, _, result) =>
      match Fetch(store, operands)
      case None => None
      case Some(vs) =>
        match RunOperation(w, op, vs, store, [], w.fuel)
        case None => None
        case Some(results) => Some(Assign(store, Consecutive(result, call.results), Fit(results, call.results, w.none)))
  }

  function RunOperation(w: World, op: Op, inputs: seq<Value>, store: Store, answers: seq<seq<Value>>,
                        fuel: nat): Option<seq<Value>>
    requires op.Operation?
    decreases op, fuel
  {
    match w.operator(op.call, inputs, answers)
    case Done(results) => Some(results)
    case Fault => None
    case Ask(body, args) =>
      if fuel == 0 || body >= |op.regions| then None
      else
        match ExecRegion(w, op.regions[body], store, args)
        case None => None
        case Some(vs) => RunOperation(w, op, inputs, store, answers + [vs], fuel - 1)
  }

  /** A region sees the values of the program around it. */
  function ExecRegion(w: World, region: Region, store: Store, args: seq<Value>): Option<seq<Value>>
    decreases region, 0
  {
    if |args| != |region.args| then None
    else
      match ExecOps(w, region.body, Assign(store, region.args, args))
      case None => None
      case Some(store') => Fetch(store', region.returned)
  }

  lemma {:induction false} ExecConcat(w: World, a: seq<Op>, b: seq<Op>, store: Store)
    ensures ExecOps(w, a + b, store) ==
      match ExecOps(w, a, store)
      case None => None
      case Some(store') => ExecOps(w, b, store')
    decreases a
  {
    if a == [] {
      assert a + b == b;
    } else {
      assert (a + b)[1..] == a[1..] + b;
      match ExecOp(w, a[0], store) {
        case None =>
        case Some(store') => ExecConcat(w, a[1..], b, store');
      }
    }
  }
}
