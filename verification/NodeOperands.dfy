/**
 * The inputs of an operation. A name that is not found is left out without notice, so that later operands move; an
 * omitted input, with an empty name, keeps its place by a none value.
 */
module NodeOperands {
  import opened Wrappers
  import opened OnnxModel
  import opened Compaction
  import opened SsaProgram
  import opened SymbolTable
  import opened GraphImport

  function Omitted(inputs: seq<Name>): (n: nat) {
    if inputs == [] then 0 else (if inputs[0] == "" then 1 else 0) + Omitted(inputs[1..])
  }

  /**
   * The value that each input should stand for: the next none value if it is omitted, else what its name is bound to.
   */
  function InputValues(scopes: Scopes, inputs: seq<Name>, next: Id): (r: seq<Option<Id>>)
    ensures |r| == |inputs|
    decreases |inputs|
  {
    if inputs == [] then []
    else if inputs[0] == "" then [Some(next)] + InputValues(scopes, inputs[1..], next + 1)
    else [Lookup(scopes, inputs[0])] + InputValues(scopes, inputs[1..], next)
  }

  /** The i-th of them depends on its name, and on how many inputs before it are omitted. */
  lemma {:induction false} InputValueAt(scopes: Scopes, inputs: seq<Name>, next: Id, i: nat)
    requires i < |inputs|
    ensures InputValues(scopes, inputs, next)[i]
         == if inputs[i] == "" then Some(next + Omitted(inputs[..i])) else Lookup(scopes, inputs[i])
    decreases i
  {
    if i == 0 {
      assert inputs[..0] == [];
    } else {
      InputValueAt(scopes, inputs[1..], if inputs[0] == "" then next + 1 else next, i - 1);
      assert inputs[..i][1..] == inputs[1..][..i - 1];
    }
  }

  lemma {:induction false} NodeInputsAreCompact(scopes: Scopes, inputs: seq<Name>, next: Id)
    ensures NodeInputs(scopes, inputs, next).result == Compact(InputValues(scopes, inputs, next))
    decreases |inputs|
  {
    if inputs != [] {
      var more := if inputs[0] == "" then next + 1 else next;
      NodeInputsAreCompact(scopes, inputs[1..], more);
      assert InputValues(scopes, inputs, next)[1..] == InputValues(scopes, inputs[1..], more);
    }
  }

  predicate IsGiven(scopes: Scopes, x: Name) {
    x == "" || x in Bindings(scopes)
  }

  /** Each input that is there is the operand at its own position. */
  ghost predicate PositionsKept(scopes: Scopes, inputs: seq<Name>, next: Id) {
    var operands := NodeInputs(scopes, inputs, next).result;
    forall i :: 0 <= i < |inputs| && IsGiven(scopes, inputs[i]) ==>
      i < |operands| && InputValues(scopes, inputs, next)[i] == Some(operands[i])
  }

  /**
   * An operation has an operand for every input exactly if every non-empty name is visible. The operands are at the
   * positions of their inputs exactly if no unknown name comes before another input.
   */
  lemma OperandPositionsIff(scopes: Scopes, inputs: seq<Name>, next: Id)
    ensures |NodeInputs(scopes, inputs, next).result| == |inputs| <==>
            forall i :: 0 <= i < |inputs| ==> IsGiven(scopes, inputs[i])
    ensures PositionsKept(scopes, inputs, next) <==>
            forall i, j :: 0 <= i < j < |inputs| && IsGiven(scopes, inputs[j]) ==> IsGiven(scopes, inputs[i])
  {
    var found := InputValues(scopes, inputs, next);
    NodeInputsAreCompact(scopes, inputs, next);
    forall i | 0 <= i < |inputs| ensures found[i].Some? <==> IsGiven(scopes, inputs[i]) {
      InputValueAt(scopes, inputs, next, i);
      LookupIsBinding(scopes, inputs[i]);
    }
    CompleteIff(found);
    AlignedIff(found);
    PositionsAreAligned(scopes, inputs, next);
  }

  lemma PositionsAreAligned(scopes: Scopes, inputs: seq<Name>, next: Id)
    requires NodeInputs(scopes, inputs, next).result == Compact(InputValues(scopes, inputs, next))
    requires forall i :: 0 <= i < |inputs| ==> (InputValues(scopes, inputs, next)[i].Some? <==>
      IsGiven(scopes, inputs[i]))
    ensures PositionsKept(scopes, inputs, next) <==> Aligned(InputValues(scopes, inputs, next))
  {
  }
}
