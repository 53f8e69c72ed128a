/**
 * Counts per program counter inside the marker: the scan over the listed call tree that spreads the count of every
 * frame of the model over the frame's program counters, and what its counts add up to.
 */
module OffsetCounts {
  import opened CallTree
  import OpSpans

  /** A line of the listing with its program counters. */
  datatype Line = Line(frame: Frame, pcs: seq<int>)

  /** An open frame: whether it is inside the marker, and its offsets in the model. */
  datatype Open = Open(depth: nat, inside: bool, offsets: seq<int>)

  /** The model's load address and name, and the marker. */
  datatype Target = Target(base: int, so: string, marker: string)

  // ---------------------------------------------------------------- what the scan computes

  function PopTo(stack: seq<Open>, depth: nat): (r: seq<Open>)
    ensures |r| <= |stack| && r == stack[..|r|] && (r != [] ==> r[|r| - 1].depth < depth)
  {
    if stack == [] || stack[|stack| - 1].depth < depth then stack else PopTo(stack[..|stack| - 1], depth)
  }

  function IsInside(stack: seq<Open>): bool { stack != [] && stack[|stack| - 1].inside }

  /** Offsets of a frame of the model; other frames have none. */
  function Offsets(l: Line, t: Target): seq<int> {
    if l.frame.key.binary == t.so then seq(|l.pcs|, i requires 0 <= i < |l.pcs| => l.pcs[i] - t.base) else []
  }

  function Entered(open: seq<Open>, l: Line, t: Target): Open {
    Open(l.frame.depth, IsInside(open) || l.frame.key.symbol == t.marker, Offsets(l, t))
  }

  /** Offsets of the open frames, the innermost frame first. */
  function Ancestors(open: seq<Open>): seq<int> {
    if open == [] then [] else open[|open| - 1].offsets + Ancestors(open[..|open| - 1])
  }

  /** The count divided evenly; the first program counter gets the remainder. */
  function Share(count: nat, n: nat, i: nat): nat
    requires n > 0
  {
    count / n + if i == 0 then count - count / n * n else 0
  }

  function LineLeaves(open: seq<Open>, l: Line, t: Target): seq<OpSpans.Leaf> {
    var e := Entered(open, l, t);
    var n := |e.offsets|;
    if !e.inside || n == 0 then []
    else seq(n, i requires 0 <= i < n => OpSpans.Leaf(e.offsets[i], Share(l.frame.count, n, i), Ancestors(open)))
  }

  /** All leaves, in the order in which the scan comes to them. */
  function LeavesFrom(stack: seq<Open>, lines: seq<Line>, t: Target): seq<OpSpans.Leaf>
    decreases |lines|
  {
    if lines == [] then []
    else
      var open := PopTo(stack, lines[0].frame.depth);
      LineLeaves(open, lines[0], t) + LeavesFrom(open + [Entered(open, lines[0], t)], lines[1..], t)
  }

  function WeightAtOffset(leaves: seq<OpSpans.Leaf>, offset: int): nat {
    if leaves == [] then 0
    else
      var last := leaves[|leaves| - 1];
      WeightAtOffset(leaves[..|leaves| - 1], offset) + if last.offset == offset then last.count else 0
  }

  /** The counts hold, for each offset of a leaf, the weight of the leaves there. */
  ghost predicate Histogram(counts: map<int, nat>, leaves: seq<OpSpans.Leaf>) {
    && (forall o :: o in counts <==> exists i :: 0 <= i < |leaves| && leaves[i].offset == o)
    && forall o :: o in counts ==> counts[o] == WeightAtOffset(leaves, o)
  }

  // ---------------------------------------------------------------- the scan

  method ExtractOffsetCounts(parsed: seq<Line>, t: Target) returns (counts: map<int, nat>, leaves: seq<OpSpans.Leaf>)
    ensures leaves == LeavesFrom([], parsed, t) && Histogram(counts, leaves)
  {
    counts, leaves := map[], [];
    var stack: seq<Open> := [];
    for i := 0 to |parsed|
      invariant leaves + LeavesFrom(stack, parsed[i..], t) == LeavesFrom([], parsed, t)
      invariant Histogram(counts, leaves)
    {
      var f := parsed[i];
      assert parsed[i..][0] == f && parsed[i..][1..] == parsed[i + 1..];
      ghost var before := stack;
      var open := CloseFramesTo(stack, f.frame.depth);
      var entry := Entered(open, f, t);
      stack := open + [entry];
      ghost var found := leaves;
      if entry.inside && entry.offsets != [] {
        var chain := AncestorChain(open);
        counts, leaves := Spread(f.frame.count, entry.offsets, chain, counts, leaves);
      }
      assert leaves == found + LineLeaves(open, f, t);
      Regroup(found, LineLeaves(open, f, t), LeavesFrom(stack, parsed[i + 1..], t));
    }
    assert parsed[|parsed|..] == [];
  }

  lemma Regroup(a: seq<OpSpans.Leaf>, b: seq<OpSpans.Leaf>, c: seq<OpSpans.Leaf>)
    ensures (a + b) + c == a + (b + c)
  {
  }

  method CloseFramesTo(stack: seq<Open>, depth: nat) returns (open: seq<Open>)
    ensures open == PopTo(stack, depth)
  {
    open := stack;
    while open != [] && open[|open| - 1].depth >= depth
      invariant PopTo(open, depth) == PopTo(stack, depth)
    {
      open := open[..|open| - 1];
    }
  }

  method AncestorChain(open: seq<Open>) returns (chain: seq<int>)
    ensures chain == Ancestors(open)
  {
    chain := [];
    var i := |open|;
    assert open[..i] == open;
    while i > 0
      invariant 0 <= i <= |open| && chain + Ancestors(open[..i]) == Ancestors(open)
    {
      i := i - 1;
      assert open[..i + 1][..i] == open[..i];
      chain := chain + open[i].offsets;
    }
  }

  /** Adds a leaf for each offset. */
  method Spread(count: nat, offsets: seq<int>, chain: seq<int>, counts: map<int, nat>, leaves: seq<OpSpans.Leaf>)
    returns (counts': map<int, nat>, leaves': seq<OpSpans.Leaf>)
    requires offsets != [] && Histogram(counts, leaves)
    ensures leaves' == leaves + seq(|offsets|, i requires 0 <= i < |offsets| => OpSpans.Leaf(offsets[i],
      Share(count, |offsets|, i), chain))
    ensures Histogram(counts', leaves')
  {
    var n := |offsets|;
    ghost var all := seq(n, i requires 0 <= i < n => OpSpans.Leaf(offsets[i], Share(count, n, i), chain));
    counts', leaves' := counts, leaves;
    var share := count / n;
    var rest := count - share * n;
    for i := 0 to n
      invariant leaves' == leaves + all[..i] && Histogram(counts', leaves')
    {
      var weight := share + if i == 0 then rest else 0;
      var leaf := OpSpans.Leaf(offsets[i], weight, chain);
      HistogramGrows(counts', leaves', leaf);
      counts' := counts'[offsets[i] := (if offsets[i] in counts' then counts'[offsets[i]] else 0) + weight];
      assert all[..i + 1] == all[..i] + [leaf];
      leaves' := leaves' + [leaf];
    }
    assert all[..n] == all;
  }

  lemma HistogramGrows(counts: map<int, nat>, leaves: seq<OpSpans.Leaf>, leaf: OpSpans.Leaf)
    requires Histogram(counts, leaves)
    ensures Histogram(counts[leaf.offset := (if leaf.offset in counts then counts[leaf.offset] else 0) + leaf.count],
                      leaves + [leaf])
  {
    var all := leaves + [leaf];
    assert all[..|leaves|] == leaves && all[|leaves|] == leaf;
    forall o ensures (exists i :: 0 <= i < |all| && all[i].offset == o) <==> o in counts || o == leaf.offset {
      if o in counts {
        var i :| 0 <= i < |leaves| && leaves[i].offset == o;
        assert all[i].offset == o;
      }
    }
    if leaf.offset !in counts {
      NoWeight(leaves, leaf.offset);
    }
  }

  lemma {:induction false} NoWeight(leaves: seq<OpSpans.Leaf>, offset: int)
    requires forall i :: 0 <= i < |leaves| ==> leaves[i].offset != offset
    ensures WeightAtOffset(leaves, offset) == 0
  {
    if leaves != [] {
      NoWeight(leaves[..|leaves| - 1], offset);
    }
  }

  // ---------------------------------------------------------------- what the counts add up to

  function TotalOf(leaves: seq<OpSpans.Leaf>): nat {
    if leaves == [] then 0 else leaves[0].count + TotalOf(leaves[1..])
  }

  lemma {:induction false} TotalConcat(a: seq<OpSpans.Leaf>, b: seq<OpSpans.Leaf>)
    ensures TotalOf(a + b) == TotalOf(a) + TotalOf(b)
  {
    if a == [] {
      assert a + b == b;
    } else {
      assert (a + b)[1..] == a[1..] + b;
      TotalConcat(a[1..], b);
    }
  }

  lemma {:induction false} EqualShares(leaves: seq<OpSpans.Leaf>, share: nat)
    requires forall i :: 0 <= i < |leaves| ==> leaves[i].count == share
    ensures TotalOf(leaves) == share * |leaves|
  {
    if leaves != [] {
      EqualShares(leaves[1..], share);
    }
  }

  /** However many program counters a frame has, its count is handed out once. */
  lemma LineTotal(open: seq<Open>, l: Line, t: Target)
    ensures TotalOf(LineLeaves(open, l, t)) == if Entered(open, l, t).inside &&
      Offsets(l, t) != [] then l.frame.count else 0
  {
    var leaves, n := LineLeaves(open, l, t), |Offsets(l, t)|;
    if leaves != [] {
      EqualShares(leaves[1..], l.frame.count / n);
      ShareSum(l.frame.count, n);
    }
  }

  lemma ShareSum(count: nat, n: nat)
    requires n > 0
    ensures Share(count, n, 0) + count / n * (n - 1) == count
  {
    assert count / n * n == count / n * (n - 1) + count / n;
  }

  /** Counts of the model's frames of a forest that are inside the marker. */
  ghost function InsideTotal(kids: seq<Tree>, inside: bool, t: Target): nat
    decreases kids
  {
    if kids == [] then 0
    else
      var here := inside || kids[0].key.symbol == t.marker;
      (if here && kids[0].key.binary == t.so then kids[0].count else 0)
      + InsideTotal(kids[0].kids, here, t) + InsideTotal(kids[1..], inside, t)
  }

  /** The number of frames of the model at or below the topmost marker of a stack, read from the root. */
  function ModelFrames(path: seq<Key>, inside: bool, t: Target): nat {
    if path == [] then 0
    else
      var here := inside || path[0].symbol == t.marker;
      (if here && path[0].binary == t.so then 1 else 0) + ModelFrames(path[1..], here, t)
  }

  /** Every stack counts as often as it has such frames. */
  ghost function FrameWeight(stacks: seq<Stack>, t: Target): nat {
    if stacks == [] then 0
    else
      var last := stacks[|stacks| - 1];
      FrameWeight(stacks[..|stacks| - 1], t) + last.weight * ModelFrames(Reverse(last.frames), false, t)
  }

  lemma {:induction false} InsideConcat(a: seq<Tree>, b: seq<Tree>, inside: bool, t: Target)
    ensures InsideTotal(a + b, inside, t) == InsideTotal(a, inside, t) + InsideTotal(b, inside, t)
    decreases |a|
  {
    if a == [] {
      assert a + b == b;
    } else {
      assert (a + b)[1..] == a[1..] + b;
      InsideConcat(a[1..], b, inside, t);
    }
  }

  lemma InsideOne(tree: Tree, inside: bool, t: Target)
    ensures var here := inside || tree.key.symbol == t.marker;
      InsideTotal([tree], inside, t) == (if here && tree.key.binary == t.so then tree.count else 0)
        + InsideTotal(tree.kids, here, t)
  {
    assert [tree][1..] == [];
  }

  /** Adding a stack adds its weight once for each of its model frames inside the marker. */
  lemma {:induction false} InsertInside(kids: seq<Tree>, path: seq<Key>, weight: nat, inside: bool, t: Target)
    ensures InsideTotal(Insert(kids, path, weight), inside, t)
         == InsideTotal(kids, inside, t) + weight * ModelFrames(path, inside, t)
    decreases |path|
  {
    if path != [] {
      var i, here := Find(kids, path[0]), inside || path[0].symbol == t.marker;
      var more := weight * ModelFrames(path[1..], here, t);
      Distribute(weight, here && path[0].binary == t.so, ModelFrames(path[1..], here, t));
      if i < |kids| {
        InsertInside(kids[i].kids, path[1..], weight, here, t);
        InsertExisting(kids, path, weight, inside, t, more);
      } else {
        InsertInside([], path[1..], weight, here, t);
        InsertMissing(kids, path, weight, inside, t, more);
      }
    }
  }

  lemma InsertExisting(kids: seq<Tree>, path: seq<Key>, weight: nat, inside: bool, t: Target, more: nat)
    requires path != [] && Find(kids, path[0]) < |kids|
    requires var kid, here := kids[Find(kids, path[0])], inside || path[0].symbol == t.marker;
      InsideTotal(Insert(kid.kids, path[1..], weight), here, t) == InsideTotal(kid.kids, here, t) + more
    ensures var own := (inside || path[0].symbol == t.marker) && path[0].binary == t.so;
      InsideTotal(Insert(kids, path, weight), inside, t)
        == InsideTotal(kids, inside, t) + (if own then weight else 0) + more
  {
    var i := Find(kids, path[0]);
    var kid, tree := kids[i], Tree(kids[i].count + weight, path[0], Insert(kids[i].kids, path[1..], weight));
    var a, b := kids[..i], kids[i + 1..];
    assert kids == a + ([kid] + b) && Insert(kids, path, weight) == a + ([tree] + b);
    InsideThree(a, kid, b, inside, t);
    InsideThree(a, tree, b, inside, t);
  }

  lemma InsertMissing(kids: seq<Tree>, path: seq<Key>, weight: nat, inside: bool, t: Target, more: nat)
    requires path != [] && Find(kids, path[0]) == |kids|
    requires InsideTotal(Insert([], path[1..], weight), inside || path[0].symbol == t.marker, t) == more
    ensures var own := (inside || path[0].symbol == t.marker) && path[0].binary == t.so;
      InsideTotal(Insert(kids, path, weight), inside, t)
        == InsideTotal(kids, inside, t) + (if own then weight else 0) + more
  {
    var tree := Tree(weight, path[0], Insert([], path[1..], weight));
    InsideConcat(kids, [tree], inside, t);
    InsideOne(tree, inside, t);
  }

  lemma InsideThree(a: seq<Tree>, tree: Tree, b: seq<Tree>, inside: bool, t: Target)
    ensures var here := inside || tree.key.symbol == t.marker;
      InsideTotal(a + ([tree] + b), inside, t) == InsideTotal(a, inside, t) + InsideTotal(b, inside, t)
        + (if here && tree.key.binary == t.so then tree.count else 0) + InsideTotal(tree.kids, here, t)
  {
    InsideConcat(a, [tree] + b, inside, t);
    InsideConcat([tree], b, inside, t);
    InsideOne(tree, inside, t);
  }

  lemma Distribute(weight: nat, own: bool, rest: nat)
    ensures weight * ((if own then 1 else 0) + rest) == (if own then weight else 0) + weight * rest
  {
  }

  lemma {:induction false} TreeInside(stacks: seq<Stack>, t: Target)
    ensures InsideTotal(Build(stacks), false, t) == FrameWeight(stacks, t)
    decreases |stacks|
  {
    if stacks != [] {
      var init, last := stacks[..|stacks| - 1], stacks[|stacks| - 1];
      TreeInside(init, t);
      InsertInside(Build(init), Reverse(last.frames), last.weight, false, t);
    }
  }

  // ---------------------------------------------------------------- scanning a listing

  /** The open frames after some lines. */
  function StackAfter(stack: seq<Open>, lines: seq<Line>, t: Target): seq<Open>
    decreases |lines|
  {
    if lines == [] then stack
    else
      var open := PopTo(stack, lines[0].frame.depth);
      StackAfter(open + [Entered(open, lines[0], t)], lines[1..], t)
  }

  lemma {:induction false} LeavesConcat(stack: seq<Open>, a: seq<Line>, b: seq<Line>, t: Target)
    ensures LeavesFrom(stack, a + b, t) == LeavesFrom(stack, a, t) + LeavesFrom(StackAfter(stack, a, t), b, t)
    ensures StackAfter(stack, a + b, t) == StackAfter(StackAfter(stack, a, t), b, t)
    decreases |a|
  {
    if a == [] {
      assert a + b == b;
    } else {
      assert (a + b)[1..] == a[1..] + b;
      var open := PopTo(stack, a[0].frame.depth);
      var pushed := open + [Entered(open, a[0], t)];
      LeavesConcat(pushed, a[1..], b, t);
      Regroup(LineLeaves(open, a[0], t), LeavesFrom(pushed, a[1..], t),
              LeavesFrom(StackAfter(pushed, a[1..], t), b, t));
    }
  }

  lemma {:induction false} PopTwice(stack: seq<Open>, deep: nat, depth: nat)
    requires depth <= deep
    ensures PopTo(PopTo(stack, deep), depth) == PopTo(stack, depth)
  {
    if stack != [] && stack[|stack| - 1].depth >= deep {
      PopTwice(stack[..|stack| - 1], deep, depth);
    }
  }

  /** The lines list the frames, each with some program counter. */
  ghost predicate Lists(lines: seq<Line>, frames: seq<Frame>) {
    |lines| == |frames| && forall i :: 0 <= i < |lines| ==> lines[i].frame == frames[i] && lines[i].pcs != []
  }

  lemma ListsParts(lines: seq<Line>, a: seq<Frame>, b: seq<Frame>)
    requires Lists(lines, a + b)
    ensures lines == lines[..|a|] + lines[|a|..] && Lists(lines[..|a|], a) && Lists(lines[|a|..], b)
  {
    assert forall i :: 0 <= i < |b| ==> (a + b)[|a| + i] == b[i];
  }

  /**
   * Scanning the lines of a forest hands out the counts of its model frames inside the marker, and closes the forest.
   */
  lemma {:induction false} ScanInside(stack: seq<Open>, lines: seq<Line>, kids: seq<Tree>, depth: nat, t: Target)
    requires Lists(lines, List(kids, depth))
    ensures TotalOf(LeavesFrom(stack, lines, t)) == InsideTotal(kids, IsInside(PopTo(stack, depth)), t)
    ensures PopTo(StackAfter(stack, lines, t), depth) == PopTo(stack, depth)
    decreases kids, 0
  {
    if kids != [] {
      var first := ListTree(kids[0], depth);
      ListsParts(lines, first, List(kids[1..], depth));
      var a, b := lines[..|first|], lines[|first|..];
      ScanTreeInside(stack, a, kids[0], depth, t);
      ScanInside(StackAfter(stack, a, t), b, kids[1..], depth, t);
      LeavesConcat(stack, a, b, t);
      TotalConcat(LeavesFrom(stack, a, t), LeavesFrom(StackAfter(stack, a, t), b, t));
    }
  }

  lemma {:induction false} ScanTreeInside(stack: seq<Open>, lines: seq<Line>, tree: Tree, depth: nat, t: Target)
    requires Lists(lines, ListTree(tree, depth))
    ensures var here := IsInside(PopTo(stack, depth)) || tree.key.symbol == t.marker;
      TotalOf(LeavesFrom(stack, lines, t)) == (if here && tree.key.binary == t.so then tree.count else 0)
        + InsideTotal(tree.kids, here, t)
    ensures PopTo(StackAfter(stack, lines, t), depth) == PopTo(stack, depth)
    decreases tree, 1
  {
    var open, rest := PopTo(stack, depth), lines[1..];
    ListsParts(lines, [Frame(depth, tree.count, tree.key)], List(tree.kids, depth + 1));
    assert lines[0].frame == Frame(depth, tree.count, tree.key) && lines[0].pcs != [];
    var entry := Entered(open, lines[0], t);
    FirstLine(stack, lines, depth, t);
    TopIsOpen(open, entry, depth);
    ScanInside(open + [entry], rest, tree.kids, depth + 1, t);
    LineTotal(open, lines[0], t);
    PopTwice(StackAfter(open + [entry], rest, t), depth + 1, depth);
  }

  lemma FirstLine(stack: seq<Open>, lines: seq<Line>, depth: nat, t: Target)
    requires lines != [] && lines[0].frame.depth == depth
    ensures var open := PopTo(stack, depth);
      var pushed := open + [Entered(open, lines[0], t)];
      && TotalOf(LeavesFrom(stack, lines, t)) == TotalOf(LineLeaves(open, lines[0], t))
        + TotalOf(LeavesFrom(pushed, lines[1..], t))
      && StackAfter(stack, lines, t) == StackAfter(pushed, lines[1..], t)
  {
    var open := PopTo(stack, depth);
    TotalConcat(LineLeaves(open, lines[0], t), LeavesFrom(open + [Entered(open, lines[0], t)], lines[1..], t));
  }

  lemma TopIsOpen(open: seq<Open>, entry: Open, depth: nat)
    requires entry.depth == depth && (open == [] || open[|open| - 1].depth < depth)
    ensures PopTo(open + [entry], depth + 1) == open + [entry] && IsInside(open + [entry]) == entry.inside
    ensures PopTo(open + [entry], depth) == open
  {
    PopPushed(open, entry, depth);
  }

  lemma PopPushed(open: seq<Open>, entry: Open, depth: nat)
    requires entry.depth == depth && (open == [] || open[|open| - 1].depth < depth)
    ensures PopTo(open + [entry], depth) == open
  {
    assert (open + [entry])[..|open|] == open;
  }

  /**
   * For all stacks: whatever program counters the frames have, the counts add up to the weight of every stack times the
   * number of its model frames at or below the topmost marker.
   */
  lemma OffsetCountsAddUp(stacks: seq<Stack>, lines: seq<Line>, t: Target)
    requires Lists(lines, List(Build(stacks), 1))
    ensures TotalOf(LeavesFrom([], lines, t)) == FrameWeight(stacks, t)
  {
    ScanInside([], lines, Build(stacks), 1, t);
    TreeInside(stacks, t);
  }

  // ---------------------------------------------------------------- compared with the samples inside the marker

  lemma {:induction false} OutsideHasNone(path: seq<Key>, t: Target)
    requires forall i :: 0 <= i < |path| ==> path[i].symbol != t.marker
    ensures ModelFrames(path, false, t) == 0
  {
    if path != [] {
      assert forall i :: 0 <= i < |path[1..]| ==> path[1..][i] == path[i + 1];
      OutsideHasNone(path[1..], t);
    }
  }

  /** Every stack through the marker has a frame of the model at or below it. */
  ghost predicate AllInModel(stacks: seq<Stack>, t: Target) {
    forall i :: 0 <= i < |stacks| && Contains(stacks[i], t.marker) ==>
      ModelFrames(Reverse(stacks[i].frames), false, t) >= 1
  }

  ghost predicate OnceInModel(stacks: seq<Stack>, t: Target) {
    forall i :: 0 <= i < |stacks| && Contains(stacks[i], t.marker) && stacks[i].weight > 0 ==>
      ModelFrames(Reverse(stacks[i].frames), false, t) == 1
  }

  lemma StackCounts(s: Stack, t: Target)
    ensures !Contains(s, t.marker) ==> ModelFrames(Reverse(s.frames), false, t) == 0
  {
    if !Contains(s, t.marker) {
      OutsideHasNone(Reverse(s.frames), t);
    }
  }

  /**
   * If every stack through the marker has a frame of the model there, the counts are at least the weight of the samples
   * inside the marker, and equal it exactly if each of those stacks has only one.
   */
  lemma {:induction false} CountsAreSamplesIff(stacks: seq<Stack>, t: Target)
    requires AllInModel(stacks, t)
    ensures FrameWeight(stacks, t) >= WeightInMarker(stacks, t.marker)
    ensures FrameWeight(stacks, t) == WeightInMarker(stacks, t.marker) <==> OnceInModel(stacks, t)
    decreases |stacks|
  {
    if stacks != [] {
      var n := |stacks| - 1;
      var init, last := stacks[..n], stacks[n];
      CountsAreSamplesIff(init, t);
      StackCounts(last, t);
      assert OnceInModel(stacks, t) <==> OnceInModel(init, t) && OnceInModel([last], t) by {
        assert forall i :: 0 <= i < n ==> init[i] == stacks[i];
        assert [last][0] == last;
      }
      AtLeastOnce(last.weight, ModelFrames(Reverse(last.frames), false, t));
      assert OnceInModel([last], t) <==> (Contains(last, t.marker) && last.weight > 0 ==>
        ModelFrames(Reverse(last.frames), false, t) == 1) by {
        assert [last][0] == last;
      }
    }
  }

  lemma AtLeastOnce(weight: nat, frames: nat)
    ensures frames >= 1 ==> weight * frames >= weight && (weight * frames == weight <==> weight == 0 || frames == 1)
    ensures frames == 0 ==> weight * frames == 0
  {
    if frames >= 2 {
      assert weight * frames == weight + weight * (frames - 1);
      assert weight * (frames - 1) >= weight;
    }
  }
}
