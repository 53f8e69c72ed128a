/**
 * The def-use colouring of printed MLIR: lines of one colour are independent of each other, so that they may be
 * matched in any order.
 */
module LineColouring {

  type Name = string

  /** A line that defines a value from operands, or any other line. */
  datatype Line = Def(name: Name, operands: seq<Name>) | NoDef(operands: seq<Name>)

  /** The names the script finds in a defining line; its own definition is one of them. */
  function Uses(line: Line): seq<Name> { if line.Def? then [line.name] + line.operands else line.operands }

  datatype State = State(defSet: seq<Name>, colours: seq<int>, current: int)

  const START: State := State([], [], 0)

  predicate Meets(names: seq<Name>, defSet: seq<Name>) {
    exists i :: 0 <= i < |names| && names[i] in defSet
  }

  function Step(s: State, line: Line): State {
    if line.NoDef? then State([], s.colours + [s.current + 1], s.current + 2)
    else if Meets(Uses(line), s.defSet) then State([line.name], s.colours + [s.current + 1], s.current + 1)
    else State(s.defSet + [line.name], s.colours + [s.current], s.current)
  }

  /** The state after all lines. */
  function Run(lines: seq<Line>): State {
    if lines == [] then START else Step(Run(lines[..|lines| - 1]), lines[|lines| - 1])
  }

  function Colours(lines: seq<Line>): seq<int> { Run(lines).colours }

  // ---------------------------------------------------------------- the script

  /** The script's globals. */
  class Colouring {
    var defSet: seq<Name>
    var lineColour: seq<int>
    var current: int

    ghost function Value(): State
      reads this
    {
      State(defSet, lineColour, current)
    }

    constructor ()
      ensures Value() == START
    {
      defSet, lineColour, current := [], [], 0;
    }

    method ProcessDefUseChains(line: Line)
      modifies this
      ensures Value() == Step(old(Value()), line)
    {
      if line.NoDef? {
        defSet := [];
        current := current + 1;
        lineColour := lineColour + [current];
        current := current + 1;
        return;
      }
      var uses := Uses(line);
      for i := 0 to |uses|
        invariant Value() == old(Value())
        invariant forall k :: 0 <= k < i ==> uses[k] !in defSet
      {
        if uses[i] in defSet {
          defSet := [line.name];
          current := current + 1;
          lineColour := lineColour + [current];
          return;
        }
      }
      defSet := defSet + [line.name];
      lineColour := lineColour + [current];
    }
  }

  method ColourLines(lines: seq<Line>) returns (colours: seq<int>)
    ensures colours == Colours(lines)
  {
    var c := new Colouring();
    for i := 0 to |lines|
      invariant c.Value() == Run(lines[..i])
      invariant fresh(c)
    {
      assert lines[..i + 1][..i] == lines[..i];
      c.ProcessDefUseChains(lines[i]);
    }
    assert lines[..|lines|] == lines;
    colours := c.lineColour;
  }

  // ---------------------------------------------------------------- what every run keeps

  lemma {:induction false} OneColourEach(lines: seq<Line>)
    ensures |Colours(lines)| == |lines|
  {
    if lines != [] {
      OneColourEach(lines[..|lines| - 1]);
    }
  }

  /** A longer text keeps the colours of its beginning. */
  lemma LastColour(lines: seq<Line>)
    requires lines != []
    ensures |Colours(lines)| == |lines| && Colours(lines)[..|lines| - 1] == Colours(lines[..|lines| - 1])
  {
    OneColourEach(lines[..|lines| - 1]);
  }

  lemma {:induction false} PrefixColours(lines: seq<Line>, n: nat)
    requires n <= |lines|
    ensures |Colours(lines)| == |lines| && Colours(lines[..n]) == Colours(lines)[..n]
  {
    OneColourEach(lines);
    OneColourEach(lines[..n]);
    if n < |lines| {
      var m := |lines| - 1;
      PrefixColours(lines[..m], n);
      assert lines[..m][..n] == lines[..n];
      LastColour(lines);
      assert Colours(lines)[..n] == Colours(lines)[..m][..n];
    } else {
      assert lines[..n] == lines;
    }
  }

  /** No colour is above the current one, and only a defining line has the current one. */
  lemma {:induction false} ColourBound(lines: seq<Line>, i: nat)
    requires i < |lines|
    ensures |Colours(lines)| == |lines| && Colours(lines)[i] <= Run(lines).current
    ensures lines[i].NoDef? ==> Colours(lines)[i] < Run(lines).current
  {
    OneColourEach(lines);
    var m := |lines| - 1;
    OneColourEach(lines[..m]);
    if i < m {
      ColourBound(lines[..m], i);
    }
  }

  /** The colour of a line is the one given when the script came to it. */
  lemma ColourOf(lines: seq<Line>, j: nat)
    requires j < |lines|
    ensures |Colours(lines)| == |lines| && |Run(lines[..j]).colours| == j
    ensures Colours(lines)[j] == Step(Run(lines[..j]), lines[j]).colours[j]
  {
    PrefixColours(lines, j + 1);
    OneColourEach(lines[..j]);
    assert lines[..j + 1][..j] == lines[..j];
  }

  /** The definition set holds exactly what the lines of the current colour define. */
  lemma {:induction false} CurrentIsInDefSet(lines: seq<Line>, i: nat)
    requires i < |lines| && |Colours(lines)| == |lines|
    requires Colours(lines)[i] == Run(lines).current && lines[i].Def?
    ensures lines[i].name in Run(lines).defSet
  {
    var m := |lines| - 1;
    OneColourEach(lines[..m]);
    if i < m {
      ColourBound(lines[..m], i);
      CurrentIsInDefSet(lines[..m], i);
    }
  }

  lemma {:induction false} DefSetIsCurrent(lines: seq<Line>, x: Name) returns (i: nat)
    requires x in Run(lines).defSet
    ensures |Colours(lines)| == |lines| && i < |lines| && Colours(lines)[i] == Run(lines).current
    ensures lines[i].Def? && lines[i].name == x
  {
    var m := |lines| - 1;
    OneColourEach(lines);
    OneColourEach(lines[..m]);
    var s := Run(lines[..m]);
    if !Meets(Uses(lines[m]), s.defSet) && x in s.defSet {
      i := DefSetIsCurrent(lines[..m], x);
    } else {
      i := m;
    }
  }

  // ---------------------------------------------------------------- the colours of every text

  /** Colours never go down; so the lines of one colour are contiguous. */
  lemma ColoursAscend(lines: seq<Line>, i: nat, j: nat)
    requires i <= j < |lines|
    ensures |Colours(lines)| == |lines| && Colours(lines)[i] <= Colours(lines)[j]
  {
    ColourOf(lines, j);
    if i < j {
      ColourOf(lines, i);
      PrefixColours(lines, j);
      ColourBound(lines[..j], i);
    }
  }

  lemma ColoursAreContiguous(lines: seq<Line>, i: nat, j: nat, k: nat)
    requires i <= j <= k < |lines| && |Colours(lines)| == |lines| && Colours(lines)[i] == Colours(lines)[k]
    ensures Colours(lines)[j] == Colours(lines)[i]
  {
    ColoursAscend(lines, i, j);
    ColoursAscend(lines, j, k);
  }

  /** Lines of one colour both define something, and the later one neither uses nor redefines the earlier one. */
  lemma SameColourIsIndependent(lines: seq<Line>, i: nat, j: nat)
    requires i < j < |lines| && |Colours(lines)| == |lines| && Colours(lines)[i] == Colours(lines)[j]
    ensures lines[i].Def? && lines[j].Def? && lines[i].name !in Uses(lines[j])
  {
    var before := lines[..j];
    ColourOf(lines, j);
    PrefixColours(lines, j);
    ColourBound(before, i);
    assert before[i] == lines[i] && Colours(before)[i] == Colours(lines)[i];
    CurrentIsInDefSet(before, i);
  }

  lemma NoDefIsAlone(lines: seq<Line>, i: nat, j: nat)
    requires i < |lines| && j < |lines| && i != j && lines[i].NoDef?
    ensures |Colours(lines)| == |lines| && Colours(lines)[i] != Colours(lines)[j]
  {
    OneColourEach(lines);
    if Colours(lines)[i] == Colours(lines)[j] {
      SameColourIsIndependent(lines, if i < j then i else j, if i < j then j else i);
    }
  }

  /** A new colour starts only where it must: neighbours share a colour exactly when nothing separates them. */
  lemma ColourIsMaximal(lines: seq<Line>, i: nat)
    requires i + 1 < |lines|
    ensures |Colours(lines)| == |lines|
    ensures Colours(lines)[i] == Colours(lines)[i + 1] <==>
      lines[i].Def? && lines[i + 1].Def? &&
      forall k :: 0 <= k <= i && Colours(lines)[k] == Colours(lines)[i] && lines[k].Def? ==>
        lines[k].name !in Uses(lines[i + 1])
  {
    OneColourEach(lines);
    if Colours(lines)[i] == Colours(lines)[i + 1] {
      SameColourIsIndependent(lines, i, i + 1);
      forall k | 0 <= k <= i && Colours(lines)[k] == Colours(lines)[i] && lines[k].Def?
        ensures lines[k].name !in Uses(lines[i + 1])
      {
        SameColourIsIndependent(lines, k, i + 1);
      }
    } else if lines[i].Def? && lines[i + 1].Def? {
      var k := SeparatedBy(lines, i);
    }
  }

  lemma SeparatedBy(lines: seq<Line>, i: nat) returns (k: nat)
    requires i + 1 < |lines| && |Colours(lines)| == |lines| && Colours(lines)[i] != Colours(lines)[i + 1]
    requires lines[i].Def? && lines[i + 1].Def?
    ensures k <= i && Colours(lines)[k] == Colours(lines)[i] && lines[k].Def? && lines[k].name in Uses(lines[i + 1])
  {
    var before := lines[..i + 1];
    assert before[..i] == lines[..i];
    ColourOf(lines, i + 1);
    ColourOf(lines, i);
    ColourOf(before, i);
    PrefixColours(lines, i + 1);
    var u :| 0 <= u < |Uses(lines[i + 1])| && Uses(lines[i + 1])[u] in Run(before).defSet;
    k := DefSetIsCurrent(before, Uses(lines[i + 1])[u]);
    assert Colours(before)[k] == Colours(lines)[k] && before[k] == lines[k];
  }

  // ---------------------------------------------------------------- reordering

  predicate Defines(line: Line, x: Name) { line.Def? && line.name == x }

  /** The last line before position `n` that defines the name, or -1. */
  function LastDef(lines: seq<Line>, n: nat, x: Name): (i: int)
    requires n <= |lines|
    ensures -1 <= i < n && (i >= 0 ==> Defines(lines[i], x))
    ensures forall k :: i < k < n ==> !Defines(lines[k], x)
  {
    if n == 0 then -1
    else if Defines(lines[n - 1], x) then n - 1
    else LastDef(lines, n - 1, x)
  }

  lemma LastDefIs(lines: seq<Line>, n: nat, x: Name, i: int)
    requires n <= |lines| && -1 <= i < n && (i >= 0 ==> Defines(lines[i], x))
    requires forall k :: i < k < n ==> !Defines(lines[k], x)
    ensures LastDef(lines, n, x) == i
  {
  }

  /** Position `k` of the new text holds line `order[k]`. */
  function Rearranged(lines: seq<Line>, order: seq<nat>): (r: seq<Line>)
    requires forall k :: 0 <= k < |order| ==> order[k] < |lines|
    ensures |r| == |order| && forall k :: 0 <= k < |order| ==> r[k] == lines[order[k]]
  {
    seq(|order|, k requires 0 <= k < |order| => lines[order[k]])
  }

  /** A permutation of the lines that stays within colours. */
  ghost predicate WithinColours(lines: seq<Line>, order: seq<nat>) {
    && |order| == |lines| == |Colours(lines)|
    && (forall k :: 0 <= k < |order| ==> order[k] < |lines|)
    && (forall i, j :: 0 <= i < j < |order| ==> order[i] != order[j])
    && (forall i :: 0 <= i < |lines| ==> i in order)
    && forall k :: 0 <= k < |order| ==> Colours(lines)[order[k]] == Colours(lines)[k]
  }

  /** In the new text, every line reads each of its operands from the same line as in the old one. */
  ghost predicate SameReads(lines: seq<Line>, order: seq<nat>)
    requires |order| == |lines| && forall k :: 0 <= k < |order| ==> order[k] < |lines|
  {
    forall b, x :: 0 <= b < |order| && x in lines[order[b]].operands ==>
      var a := LastDef(Rearranged(lines, order), b, x);
      LastDef(lines, order[b], x) == if a < 0 then -1 else order[a]
  }

  /** No line defines an operand of an earlier line of its colour. */
  ghost predicate NoLateDefinition(lines: seq<Line>) {
    |Colours(lines)| == |lines| &&
    forall i, j :: 0 <= i < j < |lines| && Colours(lines)[i] == Colours(lines)[j] && lines[j].Def? ==>
      lines[j].name !in lines[i].operands
  }

  /** Among the lines of one colour, only the line itself defines what it reads. */
  lemma NoOtherDefinition(lines: seq<Line>, u: nat, v: nat, x: Name)
    requires NoLateDefinition(lines) && u < |lines| && v < |lines| && u != v && Colours(lines)[u] == Colours(lines)[v]
    requires x in lines[u].operands
    ensures !Defines(lines[v], x)
  {
    if v < u {
      SameColourIsIndependent(lines, v, u);
    }
  }

  /** Lines of one colour define different names. */
  lemma DefinesOnce(lines: seq<Line>, u: nat, v: nat, x: Name)
    requires u < v < |lines| && |Colours(lines)| == |lines| && Colours(lines)[u] == Colours(lines)[v] &&
      Defines(lines[u], x)
    ensures !Defines(lines[v], x)
  {
    SameColourIsIndependent(lines, u, v);
  }

  lemma LowerColourIsEarlier(lines: seq<Line>, i: nat, j: nat)
    requires i < |lines| && j < |lines| && |Colours(lines)| == |lines| && Colours(lines)[i] < Colours(lines)[j]
    ensures i < j
  {
    if j <= i {
      ColoursAscend(lines, j, i);
    }
  }

  /** A definition of an operand that stands before the reader in the new text did so in the old one. */
  lemma DefinitionWasEarlier(lines: seq<Line>, order: seq<nat>, a: nat, b: nat, x: Name)
    requires NoLateDefinition(lines) && WithinColours(lines, order) && a < b < |order|
    requires x in lines[order[b]].operands && Defines(lines[order[a]], x)
    ensures order[a] < order[b]
  {
    ColoursAscend(lines, a, b);
    if Colours(lines)[a] == Colours(lines)[b] {
      NoOtherDefinition(lines, order[b], order[a], x);
    } else {
      LowerColourIsEarlier(lines, order[a], order[b]);
    }
  }

  /** The line that is read in the old text comes before the reader in the new text, and no other definition between. */
  lemma StillLast(lines: seq<Line>, order: seq<nat>, b: nat, x: Name, a: nat)
    requires NoLateDefinition(lines) && WithinColours(lines, order) && b < |order| && a < |order|
    requires x in lines[order[b]].operands && order[a] == LastDef(lines, order[b], x)
    ensures a < b && LastDef(Rearranged(lines, order), b, x) == a
  {
    var u, v := order[b], order[a];
    ColoursAscend(lines, v, u);
    if Colours(lines)[v] == Colours(lines)[u] {
      NoOtherDefinition(lines, u, v, x);
    }
    LowerColourIsEarlier(lines, a, b);
    forall k | a < k < b ensures !Defines(lines[order[k]], x) {
      if Defines(lines[order[k]], x) {
        DefinitionWasEarlier(lines, order, k, b, x);
        assert order[k] < v;
        ColoursAscend(lines, order[k], v);
        ColoursAscend(lines, a, k);
        DefinesOnce(lines, order[k], v, x);
      }
    }
    LastDefIs(Rearranged(lines, order), b, x, a);
  }

  lemma KeepsReads(lines: seq<Line>, order: seq<nat>)
    requires NoLateDefinition(lines) && WithinColours(lines, order)
    ensures SameReads(lines, order)
  {
    var r := Rearranged(lines, order);
    forall b, x | 0 <= b < |order| && x in lines[order[b]].operands
      ensures var a := LastDef(r, b, x); LastDef(lines, order[b], x) == if a < 0 then -1 else order[a]
    {
      var v := LastDef(lines, order[b], x);
      if v >= 0 {
        assert v in order;
        var a :| 0 <= a < |order| && order[a] == v;
        StillLast(lines, order, b, x, a);
      } else {
        forall a | 0 <= a < b ensures !Defines(r[a], x) {
          if Defines(r[a], x) {
            DefinitionWasEarlier(lines, order, a, b, x);
          }
        }
        LastDefIs(r, b, x, -1);
      }
    }
  }

  /** The text with two lines exchanged. */
  function Exchange(n: nat, i: nat, j: nat): (order: seq<nat>)
    requires i < j < n
    ensures |order| == n && order[i] == j && order[j] == i && forall k :: 0 <= k < n && k != i && k != j ==>
      order[k] == k
  {
    seq(n, k requires 0 <= k < n => if k == i then j else if k == j then i else k)
  }

  lemma ExchangeStaysWithin(lines: seq<Line>, i: nat, j: nat)
    requires i < j < |lines| && |Colours(lines)| == |lines| && Colours(lines)[i] == Colours(lines)[j]
    ensures WithinColours(lines, Exchange(|lines|, i, j))
  {
    var order := Exchange(|lines|, i, j);
    forall k | 0 <= k < |lines| ensures k in order {
      assert order[if k == i then j else if k == j then i else k] == k;
    }
  }

  /** Exchanging a line with a later definition of its operand changes what it reads. */
  lemma ExchangeChangesRead(lines: seq<Line>, i: nat, j: nat)
    requires i < j < |lines| && |Colours(lines)| == |lines| && Colours(lines)[i] == Colours(lines)[j]
    requires lines[j].Def? && lines[j].name in lines[i].operands
    ensures WithinColours(lines, Exchange(|lines|, i, j)) && !SameReads(lines, Exchange(|lines|, i, j))
  {
    var order, x := Exchange(|lines|, i, j), lines[j].name;
    ExchangeStaysWithin(lines, i, j);
    forall k | i < k < j ensures !Defines(lines[order[k]], x) {
      ColoursAreContiguous(lines, i, k, j);
      SameColourIsIndependent(lines, k, j);
      assert Uses(lines[j])[0] == x;
    }
    LastDefIs(Rearranged(lines, order), j, x, i);
    assert LastDef(lines, order[j], x) < i;
  }

  /**
   * For every text: however its lines are rearranged within their colours, each line reads every operand from the same
   * line as before, exactly if no line defines an operand of an earlier line of its colour.
   */
  lemma RearrangingKeepsReadsIff(lines: seq<Line>)
    ensures (forall order :: WithinColours(lines, order) ==> SameReads(lines, order)) <==> NoLateDefinition(lines)
  {
    OneColourEach(lines);
    if NoLateDefinition(lines) {
      forall order | WithinColours(lines, order) ensures SameReads(lines, order) {
        KeepsReads(lines, order);
      }
    } else {
      var i, j :| 0 <= i < j < |lines| && Colours(lines)[i] == Colours(lines)[j] && lines[j].Def? &&
                  lines[j].name in lines[i].operands;
      ExchangeChangesRead(lines, i, j);
    }
  }

  /**
   * Between two lines without a definition, no line defines an operand of an earlier one. Text of several functions is
   * like this, also if each defines and reads the same names.
   */
  ghost predicate TidyBlocks(lines: seq<Line>) {
    forall i, j :: 0 <= i < j < |lines| && (forall k :: i <= k <= j ==> lines[k].Def?) ==>
      lines[j].name !in lines[i].operands
  }

  /** Text with tidy blocks may be matched in any order within colours. */
  lemma TidyBlocksKeepReads(lines: seq<Line>, order: seq<nat>)
    requires TidyBlocks(lines) && WithinColours(lines, order)
    ensures SameReads(lines, order)
  {
    OneColourEach(lines);
    forall i, j | 0 <= i < j < |lines| && Colours(lines)[i] == Colours(lines)[j] && lines[j].Def?
      ensures lines[j].name !in lines[i].operands
    {
      forall k | i <= k <= j ensures lines[k].Def? {
        ColoursAreContiguous(lines, i, k, j);
        if lines[k].NoDef? {
          NoDefIsAlone(lines, k, if k == i then j else i);
        }
      }
    }
    RearrangingKeepsReadsIff(lines);
  }

  /** Text that is not SSA: a line may share its colour with a later redefinition of its operand. */
  lemma RedefinitionSharesColour()
    ensures var lines := [Def("x", []), Def("y", ["x"]), Def("x", [])];
      Colours(lines) == [0, 1, 1] && !NoLateDefinition(lines)
  {
    var a, b := Def("x", []), Def("y", ["x"]);
    assert [a][..0] == [] && [a, b][..1] == [a] && [a, b, a][..2] == [a, b];
    assert Run([a]) == State(["x"], [0], 0);
    assert Uses(b)[1] == "x";
    assert Run([a, b]) == State(["y"], [0, 1], 1);
    assert Uses(a) == ["x"];
    var lines := [a, b, a];
    assert Colours(lines)[1] == Colours(lines)[2] && lines[2].name in lines[1].operands;
  }
}
