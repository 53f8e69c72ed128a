/**
 * Where the counts per program counter come from, said of the listing's lines alone: which frames enclose a line, which
 * lines are inside the marker, and which program counters are counted at an offset.
 */
module OffsetPlaces {
  import opened OffsetCounts

  // ---------------------------------------------------------------- enclosing lines

  function DepthAt(lines: seq<Line>, i: nat): nat
    requires i < |lines|
  {
    lines[i].frame.depth
  }

  /** The frame of line j is still open at position n: every line in between is deeper. */
  ghost predicate IsOpenAt(lines: seq<Line>, j: nat, n: nat) {
    j < n <= |lines| && forall m :: j < m < n ==> DepthAt(lines, m) > DepthAt(lines, j)
  }

  /** The frame of line j encloses that of line i: everything behind j, up to i, is deeper than j. */
  ghost predicate Encloses(lines: seq<Line>, j: nat, i: nat) {
    j < i < |lines| && forall m :: j < m <= i ==> DepthAt(lines, m) > DepthAt(lines, j)
  }

  /** The line, or one that encloses it, is the marker. */
  ghost predicate InMarker(lines: seq<Line>, i: nat, t: Target)
    requires i < |lines|
  {
    || lines[i].frame.key.symbol == t.marker
    || exists j: nat :: Encloses(lines, j, i) && lines[j].frame.key.symbol == t.marker
  }

  /** The line is counted: it is inside the marker, and its frame is one of the model. */
  ghost predicate IsCounted(lines: seq<Line>, i: nat, t: Target)
    requires i < |lines|
  {
    InMarker(lines, i, t) && lines[i].frame.key.binary == t.so
  }

  /** Program counters of the model's frames among the first `n` lines that enclose line i, the innermost first. */
  ghost function OuterPcs(lines: seq<Line>, i: nat, n: nat, t: Target): seq<int>
    requires n <= |lines|
  {
    if n == 0 then []
    else
      (if Encloses(lines, n - 1, i) && lines[n - 1].frame.key.binary == t.so then lines[n - 1].pcs else [])
      + OuterPcs(lines, i, n - 1, t)
  }

  // ---------------------------------------------------------------- the scan's stack, by positions

  ghost predicate ArePositions(lines: seq<Line>, open: seq<nat>) {
    forall a :: 0 <= a < |open| ==> open[a] < |lines|
  }

  ghost function Kept(lines: seq<Line>, open: seq<nat>, depth: nat): (r: seq<nat>)
    requires ArePositions(lines, open)
    ensures |r| <= |open| && r == open[..|r|]
  {
    if open == [] || DepthAt(lines, open[|open| - 1]) < depth then open else Kept(lines, open[..|open| - 1], depth)
  }

  /** The open lines before position n. */
  ghost function Positions(lines: seq<Line>, n: nat): (r: seq<nat>)
    requires n <= |lines|
    ensures forall a :: 0 <= a < |r| ==> r[a] < n
  {
    if n == 0 then [] else Kept(lines, Positions(lines, n - 1), DepthAt(lines, n - 1)) + [n - 1]
  }

  /** Positions and depths grow along the list. */
  ghost predicate Ascends(lines: seq<Line>, open: seq<nat>) {
    && ArePositions(lines, open)
    && forall a, b :: 0 <= a < b < |open| ==> open[a] < open[b] && DepthAt(lines, open[a]) < DepthAt(lines, open[b])
  }

  lemma {:induction false} KeptAre(lines: seq<Line>, open: seq<nat>, depth: nat, p: nat)
    requires Ascends(lines, open)
    ensures Ascends(lines, Kept(lines, open, depth))
    ensures p in Kept(lines, open, depth) <==> p in open && DepthAt(lines, p) < depth
  {
    if open != [] {
      var n := |open| - 1;
      if DepthAt(lines, open[n]) < depth {
        if p in open {
          var a :| 0 <= a < |open| && open[a] == p;
          assert a < n ==> DepthAt(lines, open[a]) < DepthAt(lines, open[n]);
        }
      } else {
        assert open == open[..n] + [open[n]];
        KeptAre(lines, open[..n], depth, p);
      }
    }
  }

  lemma {:induction false} PositionsAscend(lines: seq<Line>, n: nat)
    requires n <= |lines|
    ensures Ascends(lines, Positions(lines, n))
  {
    if n > 0 {
      var depth := DepthAt(lines, n - 1);
      var kept := Kept(lines, Positions(lines, n - 1), depth);
      PositionsAscend(lines, n - 1);
      KeptAre(lines, Positions(lines, n - 1), depth, 0);
      forall a | 0 <= a < |kept| ensures kept[a] < n - 1 && DepthAt(lines, kept[a]) < depth {
        KeptAre(lines, Positions(lines, n - 1), depth, kept[a]);
        assert kept[a] in kept;
      }
    }
  }

  lemma OpenNext(lines: seq<Line>, p: nat, n: nat)
    requires 0 < n <= |lines|
    ensures IsOpenAt(lines, p, n) <==>
      p == n - 1 || (IsOpenAt(lines, p, n - 1) && DepthAt(lines, p) < DepthAt(lines, n - 1))
  {
  }

  lemma LastOrBefore(front: seq<nat>, last: nat, p: nat)
    ensures p in front + [last] <==> p in front || p == last
  {
  }

  /** The open lines are those behind which everything is deeper. */
  lemma {:induction false} PositionsAreOpen(lines: seq<Line>, n: nat, p: nat)
    requires n <= |lines|
    ensures p in Positions(lines, n) <==> IsOpenAt(lines, p, n)
  {
    if n > 0 {
      PositionsAscend(lines, n - 1);
      PositionsAreOpen(lines, n - 1, p);
      KeptAre(lines, Positions(lines, n - 1), DepthAt(lines, n - 1), p);
      OpenNext(lines, p, n);
      LastOrBefore(Kept(lines, Positions(lines, n - 1), DepthAt(lines, n - 1)), n - 1, p);
    }
  }

  /** What is kept for a line are the lines that enclose it. */
  lemma KeptEnclose(lines: seq<Line>, i: nat, p: nat)
    requires i < |lines|
    ensures Ascends(lines, Kept(lines, Positions(lines, i), DepthAt(lines, i)))
    ensures p in Kept(lines, Positions(lines, i), DepthAt(lines, i)) <==> Encloses(lines, p, i)
  {
    PositionsAscend(lines, i);
    PositionsAreOpen(lines, i, p);
    KeptAre(lines, Positions(lines, i), DepthAt(lines, i), p);
  }

  /** One of the first `n` positions is a marker. */
  ghost predicate MarkerAmong(lines: seq<Line>, open: seq<nat>, n: nat, t: Target)
    requires ArePositions(lines, open) && n <= |open|
  {
    exists a :: 0 <= a < n && lines[open[a]].frame.key.symbol == t.marker
  }

  /** The stack entries stand for the lines at the positions, and know whether the marker is at or outside them. */
  ghost predicate Mirrors(stack: seq<Open>, lines: seq<Line>, open: seq<nat>, t: Target) {
    && |stack| == |open| && ArePositions(lines, open)
    && forall q :: 0 <= q < |stack| ==>
      && stack[q].depth == DepthAt(lines, open[q]) && stack[q].offsets == Offsets(lines[open[q]], t)
      && (stack[q].inside <==> MarkerAmong(lines, open, q + 1, t))
  }

  lemma MarkerInFront(lines: seq<Line>, open: seq<nat>, n: nat, m: nat, t: Target)
    requires ArePositions(lines, open) && n <= m <= |open|
    ensures MarkerAmong(lines, open[..m], n, t) <==> MarkerAmong(lines, open, n, t)
  {
    assert forall a :: 0 <= a < n ==> open[..m][a] == open[a];
  }

  lemma FrontMirrors(stack: seq<Open>, lines: seq<Line>, open: seq<nat>, m: nat, t: Target)
    requires Mirrors(stack, lines, open, t) && m <= |stack|
    ensures Mirrors(stack[..m], lines, open[..m], t)
  {
    forall q | 0 <= q < m
      ensures stack[..m][q].depth == DepthAt(lines, open[..m][q]) &&
        stack[..m][q].offsets == Offsets(lines[open[..m][q]], t)
      ensures stack[..m][q].inside <==> MarkerAmong(lines, open[..m], q + 1, t)
    {
      MarkerInFront(lines, open, q + 1, m, t);
    }
  }

  lemma {:induction false} PopMirrors(stack: seq<Open>, lines: seq<Line>, open: seq<nat>, depth: nat, t: Target)
    requires Mirrors(stack, lines, open, t)
    ensures Mirrors(PopTo(stack, depth), lines, Kept(lines, open, depth), t)
    decreases |stack|
  {
    if stack != [] && stack[|stack| - 1].depth >= depth {
      var n := |stack| - 1;
      FrontMirrors(stack, lines, open, n, t);
      PopMirrors(stack[..n], lines, open[..n], depth, t);
    }
  }

  lemma PushMirrors(stack: seq<Open>, lines: seq<Line>, open: seq<nat>, i: nat, t: Target)
    requires Mirrors(stack, lines, open, t) && i < |lines|
    ensures Mirrors(stack + [Entered(stack, lines[i], t)], lines, open + [i], t)
  {
    var stack', open' := stack + [Entered(stack, lines[i], t)], open + [i];
    var n := |stack|;
    assert open'[..n] == open && stack'[..n] == stack;
    forall q | 0 <= q <= n ensures stack'[q].inside <==> MarkerAmong(lines, open', q + 1, t) {
      if q < n {
        MarkerInFront(lines, open', q + 1, n, t);
      } else {
        MarkerInFront(lines, open', n, n, t);
        MarkerNext(lines, open', n, t);
      }
    }
  }

  lemma MarkerNext(lines: seq<Line>, open: seq<nat>, n: nat, t: Target)
    requires ArePositions(lines, open) && n < |open|
    ensures MarkerAmong(lines, open, n + 1, t) <==>
      MarkerAmong(lines, open, n, t) || lines[open[n]].frame.key.symbol == t.marker
  {
  }

  lemma {:induction false} StackMirrors(lines: seq<Line>, n: nat, t: Target)
    requires n <= |lines|
    ensures Mirrors(StackAfter([], lines[..n], t), lines, Positions(lines, n), t)
  {
    if n > 0 {
      StackMirrors(lines, n - 1, t);
      NextLine(lines, n - 1, t);
      PopMirrors(StackAfter([], lines[..n - 1], t), lines, Positions(lines, n - 1), DepthAt(lines, n - 1), t);
      PushMirrors(OpenFor(lines, n - 1, t), lines, Kept(lines, Positions(lines, n - 1), DepthAt(lines, n - 1)), n - 1,
                  t);
    }
  }

  /** The open frames when line i is read. */
  ghost function OpenFor(lines: seq<Line>, i: nat, t: Target): seq<Open>
    requires i < |lines|
  {
    PopTo(StackAfter([], lines[..i], t), DepthAt(lines, i))
  }

  lemma NextLine(lines: seq<Line>, i: nat, t: Target)
    requires i < |lines|
    ensures LeavesFrom([], lines[..i + 1], t) == LeavesFrom([], lines[..i], t)
      + LineLeaves(OpenFor(lines, i, t), lines[i], t)
    ensures StackAfter([], lines[..i + 1], t) == OpenFor(lines, i, t) + [Entered(OpenFor(lines, i, t), lines[i], t)]
  {
    var one := [lines[i]];
    assert lines[..i + 1] == lines[..i] + one && one[1..] == [];
    LeavesConcat([], lines[..i], one, t);
    var stack := StackAfter([], lines[..i], t);
    assert LeavesFrom(stack, one, t) == LineLeaves(OpenFor(lines, i, t), lines[i], t) + [];
  }

  lemma OpenMirrors(lines: seq<Line>, i: nat, t: Target)
    requires i < |lines|
    ensures Mirrors(OpenFor(lines, i, t), lines, Kept(lines, Positions(lines, i), DepthAt(lines, i)), t)
  {
    StackMirrors(lines, i, t);
    PopMirrors(StackAfter([], lines[..i], t), lines, Positions(lines, i), DepthAt(lines, i), t);
  }

  /** The scan takes a line to be inside the marker exactly if it is, or is enclosed by, the marker. */
  lemma InsideIsInMarker(lines: seq<Line>, i: nat, t: Target)
    requires i < |lines|
    ensures Entered(OpenFor(lines, i, t), lines[i], t).inside <==> InMarker(lines, i, t)
  {
    var open, kept := OpenFor(lines, i, t), Kept(lines, Positions(lines, i), DepthAt(lines, i));
    OpenMirrors(lines, i, t);
    assert IsInside(open) <==> MarkerAmong(lines, kept, |kept|, t);
    if MarkerAmong(lines, kept, |kept|, t) {
      var a :| 0 <= a < |kept| && lines[kept[a]].frame.key.symbol == t.marker;
      KeptEnclose(lines, i, kept[a]);
    }
    if j: nat :| Encloses(lines, j, i) && lines[j].frame.key.symbol == t.marker {
      KeptEnclose(lines, i, j);
      var a :| 0 <= a < |kept| && kept[a] == j;
    }
  }

  // ---------------------------------------------------------------- the ancestors of a leaf

  /** Each offset is the program counter less the load address. */
  ghost predicate Relocated(offsets: seq<int>, pcs: seq<int>, base: int) {
    |offsets| == |pcs| && forall k :: 0 <= k < |pcs| ==> offsets[k] + base == pcs[k]
  }

  lemma OffsetsRelocate(l: Line, t: Target)
    ensures Relocated(Offsets(l, t), if l.frame.key.binary == t.so then l.pcs else [], t.base)
  {
  }

  lemma RelocatedConcat(a: seq<int>, a': seq<int>, b: seq<int>, b': seq<int>, base: int)
    requires Relocated(a, a', base) && Relocated(b, b', base)
    ensures Relocated(a + b, a' + b', base)
  {
  }

  /** The first `q` kept positions account for all enclosing lines below position `n`. */
  lemma {:induction false} AncestorsAre(open: seq<Open>, lines: seq<Line>, kept: seq<nat>, i: nat, q: nat, n: nat,
                                        t: Target)
    requires Mirrors(open, lines, kept, t) && Ascends(lines, kept) && q <= |open| && n <= |lines|
    requires forall p :: p in kept <==> Encloses(lines, p, i)
    requires forall p :: p in kept[..q] <==> p in kept && p < n
    ensures Relocated(Ancestors(open[..q]), OuterPcs(lines, i, n, t), t.base)
    decreases n
  {
    if n == 0 {
      NoneBelowZero(kept[..q]);
    } else if q > 0 && kept[q - 1] == n - 1 {
      WithoutLast(lines, kept, q, n);
      assert kept[q - 1] in kept;
      AncestorsAre(open, lines, kept, i, q - 1, n - 1, t);
      assert open[..q][..q - 1] == open[..q - 1];
      OffsetsRelocate(lines[n - 1], t);
      RelocatedConcat(open[q - 1].offsets, if lines[n - 1].frame.key.binary == t.so then lines[n - 1].pcs else [],
                      Ancestors(open[..q - 1]), OuterPcs(lines, i, n - 1, t), t.base);
    } else {
      BelowIs(lines, kept, q, n);
      AncestorsAre(open, lines, kept, i, q, n - 1, t);
    }
  }

  lemma WithoutLast(lines: seq<Line>, kept: seq<nat>, q: nat, n: nat)
    requires Ascends(lines, kept) && 0 < q <= |kept| && kept[q - 1] == n - 1
    requires forall p :: p in kept[..q] <==> p in kept && p < n
    ensures forall p :: p in kept[..q - 1] <==> p in kept && p < n - 1
  {
    assert kept[..q] == kept[..q - 1] + [kept[q - 1]];
    forall p ensures p in kept[..q - 1] <==> p in kept && p < n - 1 {
      if p in kept[..q - 1] {
        var a :| 0 <= a < q - 1 && kept[a] == p;
        assert kept[a] < kept[q - 1];
      }
    }
  }

  /** Position n - 1 is not kept, so the kept positions below n are those below n - 1. */
  lemma BelowIs(lines: seq<Line>, kept: seq<nat>, q: nat, n: nat)
    requires Ascends(lines, kept) && q <= |kept| && n > 0 && (q > 0 ==> kept[q - 1] != n - 1)
    requires forall p :: p in kept[..q] <==> p in kept && p < n
    ensures forall p :: p in kept[..q] <==> p in kept && p < n - 1
  {
    var front := kept[..q];
    if n - 1 in front {
      var a :| 0 <= a < q && kept[a] == n - 1;
      LastIsGreatest(lines, kept, q, a, n);
    }
    assert n - 1 !in front;
  }

  lemma NoneBelowZero(positions: seq<nat>)
    requires forall p :: p in positions ==> p < 0
    ensures positions == []
  {
    FirstIsThere(positions);
  }

  lemma FirstIsThere(positions: seq<nat>)
    ensures positions == [] || positions[0] in positions
  {
  }

  lemma LastIsGreatest(lines: seq<Line>, kept: seq<nat>, q: nat, a: nat, n: nat)
    requires Ascends(lines, kept) && a < q <= |kept| && kept[a] == n - 1 && forall p :: p in kept[..q] ==> p < n
    ensures a == q - 1
  {
    assert kept[..q][q - 1] in kept[..q];
    AtMostLast(lines, kept, a, q - 1);
  }

  lemma AtMostLast(lines: seq<Line>, kept: seq<nat>, a: nat, b: nat)
    requires Ascends(lines, kept) && a <= b < |kept|
    ensures kept[a] < kept[b] || a == b
  {
  }

  lemma OpenAncestors(lines: seq<Line>, i: nat, t: Target)
    requires i < |lines|
    ensures Relocated(Ancestors(OpenFor(lines, i, t)), OuterPcs(lines, i, i, t), t.base)
  {
    var open, kept := OpenFor(lines, i, t), Kept(lines, Positions(lines, i), DepthAt(lines, i));
    OpenMirrors(lines, i, t);
    KeptEnclose(lines, i, 0);
    forall p ensures p in kept <==> Encloses(lines, p, i) {
      if p >= 0 {
        KeptEnclose(lines, i, p);
      }
    }
    assert kept[..|open|] == kept && open[..|open|] == open;
    AncestorsAre(open, lines, kept, i, |open|, i, t);
  }

  // ---------------------------------------------------------------- the leaves, place by place

  /** A place in the listing: a line, and which of its program counters. */
  datatype Place = Place(line: nat, pc: nat)

  /** The program counters of the counted lines among the first `n`, in order. */
  ghost function CountedPlaces(lines: seq<Line>, n: nat, t: Target): seq<Place>
    requires n <= |lines|
  {
    if n == 0 then []
    else CountedPlaces(lines, n - 1, t) + if IsCounted(lines, n - 1, t) then PlacesOf(n - 1, |lines[n - 1].pcs|) else []
  }

  ghost function PlacesOf(i: nat, pcs: nat): seq<Place> {
    seq(pcs, p requires 0 <= p < pcs => Place(i, p))
  }

  /**
   * The leaf is what is counted at a place: its offset is the program counter less the load address, its count an equal
   * part of the line's with the remainder at the first place, and its ancestors are the program counters of the model's
   * frames around the line, the innermost first.
   */
  ghost predicate IsLeafOf(leaf: OpSpans.Leaf, lines: seq<Line>, at: Place, t: Target) {
    && at.line < |lines| && at.pc < |lines[at.line].pcs|
    && var l := lines[at.line];
    && leaf.offset + t.base == l.pcs[at.pc]
    && leaf.count == l.frame.count / |l.pcs| + (if at.pc == 0 then l.frame.count % |l.pcs| else 0)
    && Relocated(leaf.ancestors, OuterPcs(lines, at.line, at.line, t), t.base)
  }

  lemma ShareIs(count: nat, n: nat, p: nat)
    requires n > 0
    ensures Share(count, n, p) == count / n + if p == 0 then count % n else 0
  {
  }

  lemma LineLeavesAre(lines: seq<Line>, i: nat, p: nat, t: Target)
    requires i < |lines|
    ensures var leaves := LineLeaves(OpenFor(lines, i, t), lines[i], t);
      && (IsCounted(lines, i, t) ==> |leaves| == |lines[i].pcs|)
      && (IsCounted(lines, i, t) && p < |leaves| ==> IsLeafOf(leaves[p], lines, Place(i, p), t))
      && (!IsCounted(lines, i, t) ==> leaves == [])
  {
    InsideIsInMarker(lines, i, t);
    OpenAncestors(lines, i, t);
    if IsCounted(lines, i, t) && p < |lines[i].pcs| {
      ShareIs(lines[i].frame.count, |lines[i].pcs|, p);
    }
  }

  ghost predicate AreLeavesOf(leaves: seq<OpSpans.Leaf>, lines: seq<Line>, places: seq<Place>, t: Target) {
    |leaves| == |places| && forall k :: 0 <= k < |leaves| ==> IsLeafOf(leaves[k], lines, places[k], t)
  }

  lemma LeavesOfBoth(a: seq<OpSpans.Leaf>, b: seq<OpSpans.Leaf>, lines: seq<Line>, p: seq<Place>, q: seq<Place>,
                     t: Target)
    requires AreLeavesOf(a, lines, p, t) && AreLeavesOf(b, lines, q, t)
    ensures AreLeavesOf(a + b, lines, p + q, t)
  {
  }

  /** The scan makes one leaf for each program counter of each counted line, in order. */
  lemma {:induction false} LeavesAre(lines: seq<Line>, n: nat, t: Target)
    requires n <= |lines|
    ensures AreLeavesOf(LeavesFrom([], lines[..n], t), lines, CountedPlaces(lines, n, t), t)
  {
    if n > 0 {
      LeavesAre(lines, n - 1, t);
      NextLine(lines, n - 1, t);
      var line := LineLeaves(OpenFor(lines, n - 1, t), lines[n - 1], t);
      var places := if IsCounted(lines, n - 1, t) then PlacesOf(n - 1, |lines[n - 1].pcs|) else [];
      LineLeavesAre(lines, n - 1, 0, t);
      forall p | 0 <= p < |line| ensures IsLeafOf(line[p], lines, places[p], t) {
        LineLeavesAre(lines, n - 1, p, t);
      }
      LeavesOfBoth(LeavesFrom([], lines[..n - 1], t), line, lines, CountedPlaces(lines, n - 1, t), places, t);
    }
  }

  // ---------------------------------------------------------------- the counts, offset by offset

  /** The part of the line's count that its first `n` program counters put at `pc`. */
  function CountAtPc(l: Line, n: nat, pc: int): nat
    requires n <= |l.pcs|
  {
    if n == 0 then 0
    else
      CountAtPc(l, n - 1, pc)
      + if l.pcs[n - 1] == pc then l.frame.count / |l.pcs| + (if n == 1 then l.frame.count % |l.pcs| else 0) else 0
  }

  /** What the counted lines among the first `n` put at `pc`. */
  ghost function CountedAt(lines: seq<Line>, n: nat, pc: int, t: Target): nat
    requires n <= |lines|
  {
    if n == 0 then 0
    else
      CountedAt(lines, n - 1, pc, t)
      + if IsCounted(lines, n - 1, t) then CountAtPc(lines[n - 1], |lines[n - 1].pcs|, pc) else 0
  }

  lemma {:induction false} WeightConcat(a: seq<OpSpans.Leaf>, b: seq<OpSpans.Leaf>, o: int)
    ensures WeightAtOffset(a + b, o) == WeightAtOffset(a, o) + WeightAtOffset(b, o)
    decreases |b|
  {
    if b == [] {
      assert a + b == a;
    } else {
      var n := |b| - 1;
      assert (a + b)[..|a| + n] == a + b[..n];
      WeightConcat(a, b[..n], o);
    }
  }

  lemma {:induction false} LineWeights(lines: seq<Line>, i: nat, n: nat, o: int, t: Target)
    requires i < |lines| && IsCounted(lines, i, t) && n <= |lines[i].pcs|
    requires n <= |LineLeaves(OpenFor(lines, i, t), lines[i], t)|
    ensures WeightAtOffset(LineLeaves(OpenFor(lines, i, t), lines[i], t)[..n], o) == CountAtPc(lines[i], n, o + t.base)
  {
    if n > 0 {
      var leaves := LineLeaves(OpenFor(lines, i, t), lines[i], t);
      assert leaves[..n][..n - 1] == leaves[..n - 1];
      LineWeights(lines, i, n - 1, o, t);
      LineLeavesAre(lines, i, n - 1, t);
    }
  }

  lemma LineWeight(lines: seq<Line>, i: nat, o: int, t: Target)
    requires i < |lines|
    ensures WeightAtOffset(LineLeaves(OpenFor(lines, i, t), lines[i], t), o)
         == if IsCounted(lines, i, t) then CountAtPc(lines[i], |lines[i].pcs|, o + t.base) else 0
  {
    var leaves := LineLeaves(OpenFor(lines, i, t), lines[i], t);
    LineLeavesAre(lines, i, 0, t);
    if IsCounted(lines, i, t) {
      LineWeights(lines, i, |lines[i].pcs|, o, t);
      assert leaves[..|leaves|] == leaves;
    }
  }

  lemma NextWeight(lines: seq<Line>, n: nat, o: int, t: Target)
    requires n < |lines|
    ensures WeightAtOffset(LeavesFrom([], lines[..n + 1], t), o) == WeightAtOffset(LeavesFrom([], lines[..n], t), o)
      + if IsCounted(lines, n, t) then CountAtPc(lines[n], |lines[n].pcs|, o + t.base) else 0
  {
    NextLine(lines, n, t);
    WeightConcat(LeavesFrom([], lines[..n], t), LineLeaves(OpenFor(lines, n, t), lines[n], t), o);
    LineWeight(lines, n, o, t);
  }

  lemma {:induction false} WeightsAre(lines: seq<Line>, n: nat, o: int, t: Target)
    requires n <= |lines|
    ensures WeightAtOffset(LeavesFrom([], lines[..n], t), o) == CountedAt(lines, n, o + t.base, t)
  {
    if n == 0 {
      assert LeavesFrom([], lines[..0], t) == [];
    } else {
      var m := n - 1;
      WeightsAre(lines, m, o, t);
      NextWeight(lines, m, o, t);
      assert lines[..m + 1] == lines[..n];
    }
  }

  /** Some counted line among the first `n` has the program counter. */
  ghost predicate HasPc(lines: seq<Line>, n: nat, pc: int, t: Target)
    requires n <= |lines|
  {
    exists i: nat :: i < n && IsCounted(lines, i, t) && pc in lines[i].pcs
  }

  ghost predicate IsPcAt(lines: seq<Line>, at: Place, pc: int) {
    at.line < |lines| && at.pc < |lines[at.line].pcs| && lines[at.line].pcs[at.pc] == pc
  }

  ghost predicate PcAmong(lines: seq<Line>, places: seq<Place>, pc: int) {
    exists k :: 0 <= k < |places| && IsPcAt(lines, places[k], pc)
  }

  lemma PcInBoth(lines: seq<Line>, a: seq<Place>, b: seq<Place>, pc: int)
    ensures PcAmong(lines, a + b, pc) <==> PcAmong(lines, a, pc) || PcAmong(lines, b, pc)
  {
    if k :| 0 <= k < |b| && IsPcAt(lines, b[k], pc) {
      assert (a + b)[|a| + k] == b[k];
    }
    if k :| 0 <= k < |a| && IsPcAt(lines, a[k], pc) {
      assert (a + b)[k] == a[k];
    }
  }

  lemma PcOfLine(lines: seq<Line>, i: nat, pc: int)
    requires i < |lines|
    ensures PcAmong(lines, PlacesOf(i, |lines[i].pcs|), pc) <==> pc in lines[i].pcs
  {
    if p :| 0 <= p < |lines[i].pcs| && lines[i].pcs[p] == pc {
      assert IsPcAt(lines, PlacesOf(i, |lines[i].pcs|)[p], pc);
    }
  }

  lemma {:induction false} PlacesHavePc(lines: seq<Line>, n: nat, pc: int, t: Target)
    requires n <= |lines|
    ensures HasPc(lines, n, pc, t) <==> PcAmong(lines, CountedPlaces(lines, n, t), pc)
  {
    if n > 0 {
      PlacesHavePc(lines, n - 1, pc, t);
      PcOfLine(lines, n - 1, pc);
      var places := if IsCounted(lines, n - 1, t) then PlacesOf(n - 1, |lines[n - 1].pcs|) else [];
      PcInBoth(lines, CountedPlaces(lines, n - 1, t), places, pc);
      assert HasPc(lines, n, pc, t) <==>
        HasPc(lines, n - 1, pc, t) || (IsCounted(lines, n - 1, t) && pc in lines[n - 1].pcs);
    }
  }

  ghost predicate HasOffset(leaves: seq<OpSpans.Leaf>, o: int) {
    exists k :: 0 <= k < |leaves| && leaves[k].offset == o
  }

  /** Leaves are at an offset exactly if their places have its program counter. */
  lemma OffsetsAre(leaves: seq<OpSpans.Leaf>, lines: seq<Line>, places: seq<Place>, o: int, t: Target)
    requires AreLeavesOf(leaves, lines, places, t)
    ensures HasOffset(leaves, o) <==> PcAmong(lines, places, o + t.base)
  {
    if k :| 0 <= k < |leaves| && leaves[k].offset == o {
      assert IsLeafOf(leaves[k], lines, places[k], t);
      assert IsPcAt(lines, places[k], o + t.base);
    }
    if k :| 0 <= k < |places| && IsPcAt(lines, places[k], o + t.base) {
      assert IsLeafOf(leaves[k], lines, places[k], t);
    }
  }

  lemma OffsetsHavePc(leaves: seq<OpSpans.Leaf>, lines: seq<Line>, n: nat, places: seq<Place>, o: int, t: Target)
    requires n <= |lines| && AreLeavesOf(leaves, lines, places, t)
    requires HasPc(lines, n, o + t.base, t) <==> PcAmong(lines, places, o + t.base)
    ensures HasOffset(leaves, o) <==> HasPc(lines, n, o + t.base, t)
  {
    OffsetsAre(leaves, lines, places, o, t);
  }

  lemma AllOffsets(lines: seq<Line>, o: int, t: Target)
    ensures HasOffset(LeavesFrom([], lines[..|lines|], t), o) <==> HasPc(lines, |lines|, o + t.base, t)
  {
    var leaves, places := LeavesFrom([], lines[..|lines|], t), CountedPlaces(lines, |lines|, t);
    LeavesAre(lines, |lines|, t);
    PlacesHavePc(lines, |lines|, o + t.base, t);
    OffsetsHavePc(leaves, lines, |lines|, places, o, t);
  }

  lemma CountsOfLeaves(counts: map<int, nat>, leaves: seq<OpSpans.Leaf>, o: int)
    requires Histogram(counts, leaves)
    ensures o in counts <==> HasOffset(leaves, o)
    ensures o in counts ==> counts[o] == WeightAtOffset(leaves, o)
  {
  }

  lemma AllLines(lines: seq<Line>)
    ensures lines[..|lines|] == lines
  {
  }

  /**
   * The result of the scan: offsets are the program counters of the model's frames inside the marker less the load
   * address, and the count at each is the sum of the parts that its program counter gets from those frames.
   */
  lemma CountsAre(counts: map<int, nat>, leaves: seq<OpSpans.Leaf>, lines: seq<Line>, t: Target, o: int)
    requires Histogram(counts, leaves) && leaves == LeavesFrom([], lines, t)
    ensures o in counts <==> HasPc(lines, |lines|, o + t.base, t)
    ensures o in counts ==> counts[o] == CountedAt(lines, |lines|, o + t.base, t)
  {
    AllLines(lines);
    AllOffsets(lines, o, t);
    WeightsAre(lines, |lines|, o, t);
    CountsOfLeaves(counts, leaves, o);
  }
}
