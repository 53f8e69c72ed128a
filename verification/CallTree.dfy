/**
 * The profiler's call tree: raw stacks are merged into a tree, the tree is listed in preorder with depths, and
 * scans over that list with an explicit stack recover counts of the raw stacks.
 */
module CallTree {
  import opened Collections

  datatype Key = Key(symbol: string, binary: string)

  /** A recorded stack, leaf first, seen `weight` times. */
  datatype Stack = Stack(weight: nat, frames: seq<Key>)

  /** A tree node; its count covers all stacks that pass through it. */
  datatype Tree = Tree(count: nat, key: Key, kids: seq<Tree>)

  /** One line of the preorder listing. */
  datatype Frame = Frame(depth: nat, count: nat, key: Key)

  // ---------------------------------------------------------------- building the tree

  function Reverse<T>(s: seq<T>): (r: seq<T>)
    ensures |r| == |s|
    ensures forall i :: 0 <= i < |s| ==> r[i] == s[|s| - 1 - i]
  {
    if s == [] then [] else Reverse(s[1..]) + [s[0]]
  }

  /** Position of the child with the given key, or the number of children. */
  function Find(kids: seq<Tree>, key: Key): (i: nat)
    ensures i <= |kids|
    ensures i < |kids| ==> kids[i].key == key
  {
    if kids == [] then 0 else if kids[0].key == key then 0 else 1 + Find(kids[1..], key)
  }

  /** Adds one stack, root first. New children go to the end. */
  function Insert(kids: seq<Tree>, path: seq<Key>, weight: nat): seq<Tree>
    decreases |path|
  {
    if path == [] then kids
    else
      var i := Find(kids, path[0]);
      if i < |kids| then
        kids[i := Tree(kids[i].count + weight, path[0], Insert(kids[i].kids, path[1..], weight))]
      else
        kids + [Tree(weight, path[0], Insert([], path[1..], weight))]
  }

  function Build(stacks: seq<Stack>): seq<Tree> {
    if stacks == [] then []
    else
      var last := stacks[|stacks| - 1];
      Insert(Build(stacks[..|stacks| - 1]), Reverse(last.frames), last.weight)
  }

  function List(kids: seq<Tree>, depth: nat): seq<Frame>
    decreases kids, 0
  {
    if kids == [] then [] else ListTree(kids[0], depth) + List(kids[1..], depth)
  }

  function ListTree(t: Tree, depth: nat): seq<Frame>
    decreases t, 1
  {
    [Frame(depth, t.count, t.key)] + List(t.kids, depth + 1)
  }

  method StacksToFrames(stacks: seq<Stack>) returns (frames: seq<Frame>)
    ensures frames == List(Build(stacks), 1)
  {
    var root: seq<Tree> := [];
    for i := 0 to |stacks|
      invariant root == Build(stacks[..i])
    {
      assert stacks[..i + 1][..i] == stacks[..i];
      root := Insert(root, Reverse(stacks[i].frames), stacks[i].weight);
    }
    assert stacks[..|stacks|] == stacks;
    frames := List(root, 1);
  }

  // ---------------------------------------------------------------- what a tree says about the stacks

  function CountSum(kids: seq<Tree>): nat {
    if kids == [] then 0 else kids[0].count + CountSum(kids[1..])
  }

  /** No node counts less than its children together. */
  ghost predicate Consistent(kids: seq<Tree>)
    decreases kids
  {
    kids == [] || (CountSum(kids[0].kids) <= kids[0].count && Consistent(kids[0].kids) && Consistent(kids[1..]))
  }

  /** Weight of the stacks that end at a node whose path, from the root, satisfies `q`. */
  ghost function LeafWeight(kids: seq<Tree>, path: seq<Key>, q: seq<Key> -> bool): int
    decreases kids
  {
    if kids == [] then 0
    else
      var here := path + [kids[0].key];
      (if q(here) then kids[0].count - CountSum(kids[0].kids) else 0)
      + LeafWeight(kids[0].kids, here, q) + LeafWeight(kids[1..], path, q)
  }

  /** Weight of the raw stacks that satisfy `q`, read from the root. */
  ghost function RawWeight(stacks: seq<Stack>, q: seq<Key> -> bool): nat {
    if stacks == [] then 0
    else
      var last := stacks[|stacks| - 1];
      RawWeight(stacks[..|stacks| - 1], q) + if last.frames != [] && q(Reverse(last.frames)) then last.weight else 0
  }

  lemma {:induction false} CountSumConcat(a: seq<Tree>, b: seq<Tree>)
    ensures CountSum(a + b) == CountSum(a) + CountSum(b)
    decreases |a|
  {
    if a == [] {
      assert a + b == b;
    } else {
      assert (a + b)[1..] == a[1..] + b;
      CountSumConcat(a[1..], b);
    }
  }

  lemma {:induction false} LeafWeightConcat(a: seq<Tree>, b: seq<Tree>, path: seq<Key>, q: seq<Key> -> bool)
    ensures LeafWeight(a + b, path, q) == LeafWeight(a, path, q) + LeafWeight(b, path, q)
    decreases |a|
  {
    if a == [] {
      assert a + b == b;
    } else {
      assert (a + b)[1..] == a[1..] + b;
      LeafWeightConcat(a[1..], b, path, q);
    }
  }

  lemma {:induction false} ConsistentConcat(a: seq<Tree>, b: seq<Tree>)
    ensures Consistent(a + b) <==> Consistent(a) && Consistent(b)
    decreases |a|
  {
    if a == [] {
      assert a + b == b;
    } else {
      assert (a + b)[1..] == a[1..] + b;
      ConsistentConcat(a[1..], b);
    }
  }

  lemma One(t: Tree, path: seq<Key>, q: seq<Key> -> bool)
    ensures CountSum([t]) == t.count
    ensures Consistent([t]) <==> CountSum(t.kids) <= t.count && Consistent(t.kids)
    ensures LeafWeight([t], path, q) ==
      (if q(path + [t.key]) then t.count - CountSum(t.kids) else 0) + LeafWeight(t.kids, path + [t.key], q)
  {
    assert [t][1..] == [];
  }

  /** Replacing one child changes the sums by the difference between the two. */
  lemma ReplaceKid(kids: seq<Tree>, i: nat, t: Tree, path: seq<Key>, q: seq<Key> -> bool)
    requires i < |kids| && Consistent(kids) && t.key == kids[i].key
    requires CountSum(t.kids) <= t.count && Consistent(t.kids)
    ensures Consistent(kids[i := t])
    ensures CountSum(kids[i].kids) <= kids[i].count && Consistent(kids[i].kids)
    ensures CountSum(kids[i := t]) == CountSum(kids) + t.count - kids[i].count
    ensures LeafWeight(kids[i := t], path, q) == LeafWeight(kids, path, q)
      + (if q(path + [t.key]) then t.count - CountSum(t.kids) - kids[i].count + CountSum(kids[i].kids) else 0)
      + LeafWeight(t.kids, path + [t.key], q) - LeafWeight(kids[i].kids, path + [t.key], q)
  {
    var a, b := kids[..i], kids[i + 1..];
    assert kids == a + [kids[i]] + b && kids[i := t] == a + [t] + b;
    ConcatThree(a, kids[i], b, path, q);
    ConcatThree(a, t, b, path, q);
  }

  lemma {:induction false} KidIsConsistent(kids: seq<Tree>, i: nat)
    requires i < |kids| && Consistent(kids)
    ensures CountSum(kids[i].kids) <= kids[i].count && Consistent(kids[i].kids)
  {
    if i > 0 {
      KidIsConsistent(kids[1..], i - 1);
    }
  }

  lemma AppendKid(kids: seq<Tree>, t: Tree, path: seq<Key>, q: seq<Key> -> bool)
    requires Consistent(kids) && CountSum(t.kids) <= t.count && Consistent(t.kids)
    ensures Consistent(kids + [t])
    ensures CountSum(kids + [t]) == CountSum(kids) + t.count
    ensures LeafWeight(kids + [t], path, q) == LeafWeight(kids, path, q)
      + (if q(path + [t.key]) then t.count - CountSum(t.kids) else 0) + LeafWeight(t.kids, path + [t.key], q)
  {
    CountSumConcat(kids, [t]);
    LeafWeightConcat(kids, [t], path, q);
    ConsistentConcat(kids, [t]);
    One(t, path, q);
  }

  /** Adding a stack adds its weight at the end of its path, and nowhere else. */
  lemma {:induction false} InsertAdds(kids: seq<Tree>, path: seq<Key>, weight: nat, prefix: seq<Key>,
                                      q: seq<Key> -> bool)
    requires Consistent(kids)
    ensures Consistent(Insert(kids, path, weight))
    ensures CountSum(Insert(kids, path, weight)) == CountSum(kids) + (if path == [] then 0 else weight)
    ensures LeafWeight(Insert(kids, path, weight), prefix, q) ==
      LeafWeight(kids, prefix, q) + (if path != [] && q(prefix + path) then weight else 0)
    decreases |path|
  {
    if path != [] {
      var i := Find(kids, path[0]);
      var here, rest := prefix + [path[0]], path[1..];
      PathSplit(prefix, path, q);
      if i < |kids| {
        KidIsConsistent(kids, i);
        InsertAdds(kids[i].kids, rest, weight, here, q);
        var t := Tree(kids[i].count + weight, path[0], Insert(kids[i].kids, rest, weight));
        ReplaceKid(kids, i, t, prefix, q);
        assert Insert(kids, path, weight) == kids[i := t];
      } else {
        InsertAdds([], rest, weight, here, q);
        var t := Tree(weight, path[0], Insert([], rest, weight));
        AppendKid(kids, t, prefix, q);
        assert Insert(kids, path, weight) == kids + [t];
      }
    }
  }

  lemma PathSplit(prefix: seq<Key>, path: seq<Key>, q: seq<Key> -> bool)
    requires path != []
    ensures q(prefix + path) == q(prefix + [path[0]] + path[1..])
    ensures path[1..] == [] ==> q(prefix + path) == q(prefix + [path[0]])
  {
    assert prefix + path == prefix + [path[0]] + path[1..];
    assert path[1..] == [] ==> prefix + path == prefix + [path[0]];
  }

  lemma ConcatThree(a: seq<Tree>, t: Tree, b: seq<Tree>, path: seq<Key>, q: seq<Key> -> bool)
    ensures CountSum(a + [t] + b) == CountSum(a) + t.count + CountSum(b)
    ensures Consistent(a + [t] + b) <==>
      Consistent(a) && CountSum(t.kids) <= t.count && Consistent(t.kids) && Consistent(b)
    ensures LeafWeight(a + [t] + b, path, q) == LeafWeight(a, path, q) + LeafWeight(b, path, q)
      + (if q(path + [t.key]) then t.count - CountSum(t.kids) else 0) + LeafWeight(t.kids, path + [t.key], q)
  {
    CountSumConcat(a + [t], b);
    CountSumConcat(a, [t]);
    LeafWeightConcat(a + [t], b, path, q);
    LeafWeightConcat(a, [t], path, q);
    ConsistentConcat(a + [t], b);
    ConsistentConcat(a, [t]);
    One(t, path, q);
  }

  /** The tree answers every question about where stacks end as the raw stacks do. */
  lemma {:induction false} TreeRefinesStacks(stacks: seq<Stack>, q: seq<Key> -> bool)
    ensures Consistent(Build(stacks)) && LeafWeight(Build(stacks), [], q) == RawWeight(stacks, q)
    decreases |stacks|
  {
    if stacks != [] {
      var init, last := stacks[..|stacks| - 1], stacks[|stacks| - 1];
      TreeRefinesStacks(init, q);
      InsertAdds(Build(init), Reverse(last.frames), last.weight, [], q);
      assert [] + Reverse(last.frames) == Reverse(last.frames);
    }
  }

  // ---------------------------------------------------------------- scanning the listing

  /** An open frame of the scan: its count, the counts of its children so far, and whether it is inside the marker. */
  datatype Entry<K> = Entry(depth: nat, count: nat, key: K, childSum: nat, inside: bool)

  /** Open frames, closed frames in the order they were closed, and the counts of frames that entered the marker. */
  datatype State<K> = State(stack: seq<Entry<K>>, closed: seq<Entry<K>>, entered: nat)

  /** What is counted per frame, and which frames start the part of interest. */
  datatype View<!K> = View(key: Key -> K, starts: Key -> bool)

  function Top<K>(stack: seq<Entry<K>>): Entry<K>
    requires stack != []
  {
    stack[|stack| - 1]
  }

  function Pop<K>(stack: seq<Entry<K>>): seq<Entry<K>>
    requires stack != []
  {
    stack[..|stack| - 1]
  }

  function TopInside<K>(stack: seq<Entry<K>>): bool {
    stack != [] && Top(stack).inside
  }

  function AddToTop<K>(stack: seq<Entry<K>>, n: nat): seq<Entry<K>> {
    if stack == [] then [] else Pop(stack) + [Top(stack).(childSum := Top(stack).childSum + n)]
  }

  /** Closes the open frames at `depth` and deeper. */
  function CloseTo<K>(s: State<K>, depth: nat): State<K>
    decreases |s.stack|
  {
    if s.stack == [] || Top(s.stack).depth < depth then s
    else CloseTo(State(Pop(s.stack), s.closed + [Top(s.stack)], s.entered), depth)
  }

  function Visit<K>(s: State<K>, f: Frame, v: View<K>): State<K> {
    var c := CloseTo(s, f.depth);
    var parentIn := TopInside(c.stack);
    State(
      AddToTop(c.stack, f.count) + [Entry(f.depth, f.count, v.key(f.key), 0, parentIn || v.starts(f.key))],
      c.closed,
      c.entered + if v.starts(f.key) && !parentIn then f.count else 0)
  }

  function Scan<K>(s: State<K>, frames: seq<Frame>, v: View<K>): State<K>
    decreases |frames|
  {
    if frames == [] then s else Scan(Visit(s, frames[0], v), frames[1..], v)
  }

  /** The closed frames of a forest, children before parents. */
  ghost function Records<K>(kids: seq<Tree>, depth: nat, inside: bool, v: View<K>): seq<Entry<K>>
    decreases kids
  {
    if kids == [] then []
    else
      var t := kids[0];
      var here := inside || v.starts(t.key);
      Records(t.kids, depth + 1, here, v)
      + [Entry(depth, t.count, v.key(t.key), CountSum(t.kids), here)]
      + Records(kids[1..], depth, inside, v)
  }

  /** Counts of the topmost frames that start the part of interest. */
  ghost function Entered<K>(kids: seq<Tree>, inside: bool, v: View<K>): nat
    decreases kids
  {
    if kids == [] then 0
    else
      var t := kids[0];
      (if v.starts(t.key) && !inside then t.count else 0)
      + Entered(t.kids, inside || v.starts(t.key), v) + Entered(kids[1..], inside, v)
  }

  lemma {:induction false} CloseTwice<K>(s: State<K>, a: nat, b: nat)
    requires b <= a
    ensures CloseTo(CloseTo(s, a), b) == CloseTo(s, b)
    decreases |s.stack|
  {
    if s.stack != [] && Top(s.stack).depth >= a {
      CloseTwice(State(Pop(s.stack), s.closed + [Top(s.stack)], s.entered), a, b);
    }
  }

  lemma {:induction false} ScanConcat<K>(s: State<K>, a: seq<Frame>, b: seq<Frame>, v: View<K>)
    ensures Scan(s, a + b, v) == Scan(Scan(s, a, v), b, v)
    decreases |a|
  {
    if a == [] {
      assert a + b == b;
    } else {
      assert (a + b)[1..] == a[1..] + b;
      ScanConcat(Visit(s, a[0], v), a[1..], b, v);
    }
  }

  lemma ListHead(kids: seq<Tree>, depth: nat)
    requires kids != []
    ensures List(kids, depth) != [] && List(kids, depth)[0] == Frame(depth, kids[0].count, kids[0].key)
  {
    var first := ListTree(kids[0], depth);
    assert List(kids, depth) == first + List(kids[1..], depth);
    assert first[0] == Frame(depth, kids[0].count, kids[0].key);
  }

  /** Closing before the next frame of the same depth makes no difference. */
  lemma ScanAfterClose<K>(s: State<K>, kids: seq<Tree>, depth: nat, v: View<K>)
    ensures CloseTo(Scan(CloseTo(s, depth), List(kids, depth), v), depth)
         == CloseTo(Scan(s, List(kids, depth), v), depth)
  {
    CloseTwice(s, depth, depth);
    if kids != [] {
      ListHead(kids, depth);
      var frames := List(kids, depth);
      assert Visit(CloseTo(s, depth), frames[0], v) == Visit(s, frames[0], v);
    }
  }

  /** The state after a forest has been scanned and closed. */
  ghost function After<K>(s: State<K>, kids: seq<Tree>, depth: nat, v: View<K>): State<K> {
    State(AddToTop(s.stack, CountSum(kids)),
          s.closed + Records(kids, depth, TopInside(s.stack), v),
          s.entered + Entered(kids, TopInside(s.stack), v))
  }

  ghost function AfterTree<K>(s: State<K>, t: Tree, depth: nat, v: View<K>): State<K> {
    var inside := TopInside(s.stack);
    State(AddToTop(s.stack, t.count), s.closed + TreeRecords(t, depth, inside, v),
          s.entered + (if v.starts(t.key) && !inside then t.count else 0)
            + Entered(t.kids, inside || v.starts(t.key), v))
  }

  lemma AfterCons<K>(s: State<K>, kids: seq<Tree>, depth: nat, v: View<K>)
    requires kids != []
    ensures After(AfterTree(s, kids[0], depth, v), kids[1..], depth, v) == After(s, kids, depth, v)
  {
    var t, rest, inside := kids[0], kids[1..], TopInside(s.stack);
    AddTwice(s.stack, t.count, CountSum(rest));
    Append(s.closed, TreeRecords(t, depth, inside, v), Records(rest, depth, inside, v));
  }

  /** Scanning the listing of a forest closes exactly its frames, and adds its counts to the frame around it. */
  lemma {:induction false} ScanForest<K>(s: State<K>, kids: seq<Tree>, depth: nat, v: View<K>)
    requires s.stack == [] || Top(s.stack).depth < depth
    ensures CloseTo(Scan(s, List(kids, depth), v), depth) == After(s, kids, depth, v)
    decreases kids, 0
  {
    if kids == [] {
      assert AddToTop(s.stack, 0) == s.stack;
      assert s.closed + Records<K>([], depth, TopInside(s.stack), v) == s.closed;
    } else {
      var t, rest := kids[0], kids[1..];
      ScanTree(s, t, depth, v);
      AddTwice(s.stack, t.count, 0);
      ScanForest(AfterTree(s, t, depth, v), rest, depth, v);
      AfterCons(s, kids, depth, v);
      calc {
        CloseTo(Scan(s, List(kids, depth), v), depth);
        { ScanConcat(s, ListTree(t, depth), List(rest, depth), v); }
        CloseTo(Scan(Scan(s, ListTree(t, depth), v), List(rest, depth), v), depth);
        { ScanAfterClose(Scan(s, ListTree(t, depth), v), rest, depth, v); }
        CloseTo(Scan(AfterTree(s, t, depth, v), List(rest, depth), v), depth);
      }
    }
  }

  lemma Append<T>(a: seq<T>, b: seq<T>, c: seq<T>)
    ensures a + b + c == a + (b + c)
  {
  }

  /** The closed frames of one tree. */
  ghost function TreeRecords<K>(t: Tree, depth: nat, inside: bool, v: View<K>): seq<Entry<K>> {
    var here := inside || v.starts(t.key);
    Records(t.kids, depth + 1, here, v) + [Entry(depth, t.count, v.key(t.key), CountSum(t.kids), here)]
  }

  lemma AddTwice<K>(stack: seq<Entry<K>>, a: nat, b: nat)
    ensures AddToTop(AddToTop(stack, a), b) == AddToTop(stack, a + b)
    ensures TopInside(AddToTop(stack, a)) == TopInside(stack)
    ensures stack != [] ==> AddToTop(stack, a) != [] && Top(AddToTop(stack, a)).depth == Top(stack).depth
    ensures stack == [] ==> AddToTop(stack, a) == []
  {
  }

  lemma {:induction false} ScanTree<K>(s: State<K>, t: Tree, depth: nat, v: View<K>)
    requires s.stack == [] || Top(s.stack).depth < depth
    ensures CloseTo(Scan(s, ListTree(t, depth), v), depth) == AfterTree(s, t, depth, v)
    decreases t, 1
  {
    var pushed := Visit(s, Frame(depth, t.count, t.key), v);
    var frames := List(t.kids, depth + 1);
    assert ListTree(t, depth)[1..] == frames;
    CloseLast(s, pushed, t, depth, v);
    ScanForest(pushed, t.kids, depth + 1, v);
    CloseTwice(Scan(pushed, frames, v), depth + 1, depth);
    assert ListTree(t, depth)[0] == Frame(depth, t.count, t.key);
  }

  lemma CloseOne<K>(below: seq<Entry<K>>, last: Entry<K>, closed: seq<Entry<K>>, entered: nat, depth: nat)
    requires below == [] || Top(below).depth < depth
    requires last.depth == depth
    ensures CloseTo(State(below + [last], closed, entered), depth) == State(below, closed + [last], entered)
  {
    var stack := below + [last];
    assert Pop(stack) == below && Top(stack) == last;
  }

  lemma AddToLast<K>(below: seq<Entry<K>>, last: Entry<K>, n: nat)
    ensures AddToTop(below + [last], n) == below + [last.(childSum := last.childSum + n)]
    ensures Top(below + [last]) == last
  {
    assert Pop(below + [last]) == below;
  }

  /** Closing the frame of a tree whose children are closed. */
  lemma CloseLast<K>(s: State<K>, pushed: State<K>, t: Tree, depth: nat, v: View<K>)
    requires s.stack == [] || Top(s.stack).depth < depth
    requires pushed == Visit(s, Frame(depth, t.count, t.key), v)
    ensures pushed.stack != [] && Top(pushed.stack).depth < depth + 1
    ensures CloseTo(After(pushed, t.kids, depth + 1, v), depth) == AfterTree(s, t, depth, v)
  {
    var inside := TopInside(s.stack);
    var here := inside || v.starts(t.key);
    var entry := Entry(depth, t.count, v.key(t.key), 0, here);
    var below := AddToTop(s.stack, t.count);
    AddTwice(s.stack, t.count, 0);
    var records, entered := Records(t.kids, depth + 1, here, v), pushed.entered + Entered(t.kids, here, v);
    assert pushed.stack == below + [entry] && pushed.closed == s.closed;
    AddToLast(below, entry, CountSum(t.kids));
    var full := entry.(childSum := CountSum(t.kids));
    assert After(pushed, t.kids, depth + 1, v) == State(below + [full], s.closed + records, entered);
    CloseOne(below, full, s.closed + records, entered, depth);
    Append(s.closed, records, [full]);
  }

  // ---------------------------------------------------------------- counting the closed frames

  function Leaf<K>(e: Entry<K>): int {
    e.count - e.childSum
  }

  function Get<K>(m: map<K, nat>, k: K): nat {
    if k in m then m[k] else 0
  }

  /** Counts per key: every closed frame inside the part of interest adds what its children did not take. */
  function Tally<K>(closed: seq<Entry<K>>): map<K, nat> {
    if closed == [] then map[]
    else
      var e := closed[|closed| - 1];
      Close(Tally(closed[..|closed| - 1]), e)
  }

  function Close<K>(counts: map<K, nat>, e: Entry<K>): map<K, nat> {
    if e.inside && Leaf(e) > 0 then counts[e.key := Get(counts, e.key) + Leaf(e)] else counts
  }

  function Start<K>(): State<K> {
    State([], [], 0)
  }

  /** Pops and closes the open frames at `depth` and deeper. */
  method CloseFrames<K(==)>(path: seq<Entry<K>>, tallied: map<K, nat>, depth: nat, ghost done: seq<Entry<K>>,
                            ghost entered: nat)
    returns (stack: seq<Entry<K>>, counts: map<K, nat>, ghost closed: seq<Entry<K>>)
    requires tallied == Tally(done)
    ensures State(stack, closed, entered) == CloseTo(State(path, done, entered), depth)
    ensures counts == Tally(closed)
  {
    stack, counts, closed := path, tallied, done;
    while stack != [] && Top(stack).depth >= depth
      invariant counts == Tally(closed)
      invariant CloseTo(State(stack, closed, entered), depth) == CloseTo(State(path, done, entered), depth)
      decreases |stack|
    {
      TallyAppend(closed, Top(stack));
      counts := Close(counts, Top(stack));
      closed := closed + [Top(stack)];
      stack := Pop(stack);
    }
  }

  lemma TallyAppend<K>(closed: seq<Entry<K>>, e: Entry<K>)
    ensures Tally(closed + [e]) == Close(Tally(closed), e)
  {
    assert (closed + [e])[..|closed + [e]| - 1] == closed;
  }

  method CountLeaves<K(==)>(frames: seq<Frame>, v: View<K>) returns (counts: map<K, nat>)
    ensures counts == Tally(CloseTo(Scan(Start(), frames, v), 0).closed)
  {
    counts := map[];
    var stack: seq<Entry<K>> := [];
    ghost var closed: seq<Entry<K>> := [];
    ghost var entered: nat := 0;
    for i := 0 to |frames|
      invariant counts == Tally(closed)
      invariant Scan(State(stack, closed, entered), frames[i..], v) == Scan(Start(), frames, v)
    {
      var f := frames[i];
      assert frames[i..][1..] == frames[i + 1..];
      stack, counts, closed := CloseFrames(stack, counts, f.depth, closed, entered);
      var inside := TopInside(stack) || v.starts(f.key);
      entered := entered + if v.starts(f.key) && !TopInside(stack) then f.count else 0;
      stack := AddToTop(stack, f.count) + [Entry(f.depth, f.count, v.key(f.key), 0, inside)];
    }
    assert frames[|frames|..] == [];
    stack, counts, closed := CloseFrames(stack, counts, 0, closed, entered);
  }

  function BinaryView(): View<string> {
    View((k: Key) => k.binary, (k: Key) => true)
  }

  function MarkerView(marker: string): View<Key> {
    View((k: Key) => k, (k: Key) => k.symbol == marker)
  }

  method ExtractInsideMarkerCount(frames: seq<Frame>, marker: string) returns (total: nat)
    ensures total == Scan(Start(), frames, MarkerView(marker)).entered
  {
    total := 0;
    var stack: seq<(nat, bool)> := [];
    ghost var v := MarkerView(marker);
    ghost var st: State<Key> := Start();
    for i := 0 to |frames|
      invariant total == st.entered && Outlines(stack, st.stack)
      invariant Scan(st, frames[i..], v) == Scan(Start(), frames, v)
    {
      var f := frames[i];
      assert frames[i..][1..] == frames[i + 1..];
      stack := PopOutline(stack, f.depth, st);
      VisitOutline(stack, st, f, marker);
      var parentIn := stack != [] && stack[|stack| - 1].1;
      var isMarker := f.key.symbol == marker;
      if isMarker && !parentIn {
        total := total + f.count;
      }
      stack := stack + [(f.depth, parentIn || isMarker)];
      st := Visit(st, f, v);
    }
    assert frames[|frames|..] == [];
  }

  method PopOutline(outline: seq<(nat, bool)>, depth: nat, ghost s: State<Key>) returns (stack: seq<(nat, bool)>)
    requires Outlines(outline, s.stack)
    ensures Outlines(stack, CloseTo(s, depth).stack) && CloseTo(s, depth).entered == s.entered
  {
    stack := outline;
    ghost var st := s;
    while stack != [] && stack[|stack| - 1].0 >= depth
      invariant Outlines(stack, st.stack) && st.entered == s.entered
      invariant CloseTo(st, depth) == CloseTo(s, depth)
      decreases |stack|
    {
      stack := stack[..|stack| - 1];
      st := State(Pop(st.stack), st.closed + [Top(st.stack)], st.entered);
    }
  }

  /** The marker scan keeps only depth and flag of each open frame. */
  ghost predicate Outlines<K>(outline: seq<(nat, bool)>, stack: seq<Entry<K>>) {
    |outline| == |stack| && forall i :: 0 <= i < |stack| ==> outline[i] == (stack[i].depth, stack[i].inside)
  }

  lemma VisitOutline(outline: seq<(nat, bool)>, s: State<Key>, f: Frame, marker: string)
    requires Outlines(outline, CloseTo(s, f.depth).stack)
    ensures var parentIn := outline != [] && outline[|outline| - 1].1;
      var isMarker := f.key.symbol == marker;
      var after := Visit(s, f, MarkerView(marker));
      && Outlines(outline + [(f.depth, parentIn || isMarker)], after.stack)
      && after.entered == CloseTo(s, f.depth).entered + if isMarker && !parentIn then f.count else 0
  {
    var c := CloseTo(s, f.depth);
    assert Outlines(outline, AddToTop(c.stack, f.count));
  }

  // ---------------------------------------------------------------- counts of the listing are counts of the tree

  /** Some frame of the path starts the part of interest. */
  ghost predicate Started<K>(v: View<K>, path: seq<Key>) {
    exists i :: 0 <= i < |path| && v.starts(path[i])
  }

  ghost function KeyShare<K>(e: Entry<K>, k: K): int {
    if e.inside && e.key == k then Leaf(e) else 0
  }

  ghost function KeyWeight<K>(closed: seq<Entry<K>>, k: K): int {
    if closed == [] then 0
    else KeyWeight(closed[..|closed| - 1], k) + KeyShare(closed[|closed| - 1], k)
  }

  ghost predicate NonNegative<K>(closed: seq<Entry<K>>) {
    forall i :: 0 <= i < |closed| ==> Leaf(closed[i]) >= 0
  }

  lemma {:induction false} TallyIsWeight<K>(closed: seq<Entry<K>>, k: K)
    requires NonNegative(closed)
    ensures Get(Tally(closed), k) == KeyWeight(closed, k)
    ensures k in Tally(closed) <==> KeyWeight(closed, k) > 0
    decreases |closed|
  {
    if closed != [] {
      TallyIsWeight(closed[..|closed| - 1], k);
      assert Leaf(closed[|closed| - 1]) >= 0;
    }
  }

  lemma {:induction false} KeyWeightConcat<K>(a: seq<Entry<K>>, b: seq<Entry<K>>, k: K)
    ensures KeyWeight(a + b, k) == KeyWeight(a, k) + KeyWeight(b, k)
    decreases |b|
  {
    if b == [] {
      assert a + b == a;
    } else {
      assert (a + b)[..|a + b| - 1] == a + b[..|b| - 1];
      KeyWeightConcat(a, b[..|b| - 1], k);
    }
  }

  /** Stacks that end at key `k` in the part of interest. */
  ghost function EndsAt<K>(v: View<K>, k: K): seq<Key> -> bool {
    path => path != [] && v.key(path[|path| - 1]) == k && Started(v, path)
  }

  ghost function Reaches<K>(v: View<K>): seq<Key> -> bool {
    path => Started(v, path)
  }

  lemma StartedExtend<K>(v: View<K>, path: seq<Key>, key: Key)
    ensures Started(v, path + [key]) <==> Started(v, path) || v.starts(key)
  {
    var more := path + [key];
    if i :| 0 <= i < |path| && v.starts(path[i]) {
      assert more[i] == path[i];
    }
    if v.starts(key) {
      assert more[|path|] == key;
    }
  }

  lemma KeyWeightParts<K>(a: seq<Entry<K>>, e: Entry<K>, b: seq<Entry<K>>, k: K)
    ensures KeyWeight(a + [e] + b, k) == KeyWeight(a, k) + KeyShare(e, k) + KeyWeight(b, k)
    ensures NonNegative(a) && Leaf(e) >= 0 && NonNegative(b) ==> NonNegative(a + [e] + b)
  {
    KeyWeightConcat(a + [e], b, k);
    KeyWeightConcat(a, [e], k);
    assert [e][..0] == [];
  }

  lemma {:induction false} RecordsWeight<K>(kids: seq<Tree>, depth: nat, path: seq<Key>, v: View<K>, k: K)
    requires Consistent(kids)
    ensures KeyWeight(Records(kids, depth, Started(v, path), v), k) == LeafWeight(kids, path, EndsAt(v, k))
    ensures NonNegative(Records(kids, depth, Started(v, path), v))
    decreases kids
  {
    if kids != [] {
      var t, rest := kids[0], kids[1..];
      var more := path + [t.key];
      var here := Started(v, more);
      StartedExtend(v, path, t.key);
      RecordsWeight(t.kids, depth + 1, more, v, k);
      RecordsWeight(rest, depth, path, v, k);
      var entry := Entry(depth, t.count, v.key(t.key), CountSum(t.kids), here);
      KeyWeightParts(Records(t.kids, depth + 1, here, v), entry, Records(rest, depth, Started(v, path), v), k);
      assert EndsAt(v, k)(more) <==> v.key(t.key) == k && here;
    }
  }

  /** Counting marker frames once, at their topmost occurrence, counts the stacks that contain one. */
  lemma {:induction false} EnteredWeight<K>(kids: seq<Tree>, path: seq<Key>, v: View<K>)
    requires Consistent(kids)
    ensures if Started(v, path)
      then Entered(kids, true, v) == 0 && LeafWeight(kids, path, Reaches(v)) == CountSum(kids)
      else Entered(kids, false, v) == LeafWeight(kids, path, Reaches(v))
    decreases kids
  {
    if kids != [] {
      var t := kids[0];
      StartedExtend(v, path, t.key);
      EnteredWeight(t.kids, path + [t.key], v);
      EnteredWeight(kids[1..], path, v);
    }
  }

  // -------------------------------------------------------------- the counts of the profiler are counts of raw stacks

  /** The frames closed by a whole scan of a tree, and what was counted on entering the marker. */
  lemma WholeScan<K>(kids: seq<Tree>, v: View<K>)
    ensures CloseTo(Scan(Start(), List(kids, 1), v), 0).closed == Records(kids, 1, false, v)
    ensures Scan(Start(), List(kids, 1), v).entered == Entered(kids, false, v)
  {
    var s := Scan<K>(Start(), List(kids, 1), v);
    ScanForest<K>(Start(), kids, 1, v);
    CloseTwice(s, 1, 0);
    EnteredKept(s, 1);
    assert After<K>(Start(), kids, 1, v).closed == Records(kids, 1, false, v);
  }

  lemma {:induction false} EnteredKept<K>(s: State<K>, depth: nat)
    ensures CloseTo(s, depth).entered == s.entered
    decreases |s.stack|
  {
    if s.stack != [] && Top(s.stack).depth >= depth {
      EnteredKept(State(Pop(s.stack), s.closed + [Top(s.stack)], s.entered), depth);
    }
  }

  ghost predicate Contains(s: Stack, marker: string) {
    exists i :: 0 <= i < |s.frames| && s.frames[i].symbol == marker
  }

  /** Weight of the stacks whose leaf lies in the binary. */
  ghost function WeightInBinary(stacks: seq<Stack>, binary: string): nat {
    if stacks == [] then 0
    else
      var s := stacks[|stacks| - 1];
      WeightInBinary(stacks[..|stacks| - 1], binary) + if s.frames != [] &&
        s.frames[0].binary == binary then s.weight else 0
  }

  /** Weight of the stacks that contain the marker. */
  ghost function WeightInMarker(stacks: seq<Stack>, marker: string): nat {
    if stacks == [] then 0
    else
      var s := stacks[|stacks| - 1];
      WeightInMarker(stacks[..|stacks| - 1], marker) + if Contains(s, marker) then s.weight else 0
  }

  /** Weight of the stacks that contain the marker and end at the key. */
  ghost function WeightInMarkerAt(stacks: seq<Stack>, marker: string, key: Key): nat {
    if stacks == [] then 0
    else
      var s := stacks[|stacks| - 1];
      WeightInMarkerAt(stacks[..|stacks| - 1], marker, key) + if Contains(s, marker) &&
        s.frames[0] == key then s.weight else 0
  }

  lemma StartedIsContains(s: Stack, marker: string)
    ensures Started(MarkerView(marker), Reverse(s.frames)) <==> Contains(s, marker)
  {
    var n, path := |s.frames|, Reverse(s.frames);
    if i :| 0 <= i < n && s.frames[i].symbol == marker {
      assert path[n - 1 - i].symbol == marker;
    }
    if i :| 0 <= i < n && MarkerView(marker).starts(path[i]) {
      assert s.frames[n - 1 - i].symbol == marker;
    }
  }

  lemma {:induction false} RawInBinary(stacks: seq<Stack>, binary: string)
    ensures RawWeight(stacks, EndsAt(BinaryView(), binary)) == WeightInBinary(stacks, binary)
    decreases |stacks|
  {
    if stacks != [] {
      RawInBinary(stacks[..|stacks| - 1], binary);
      var s := stacks[|stacks| - 1];
      var path := Reverse(s.frames);
      if s.frames != [] {
        assert BinaryView().starts(path[0]);
        assert EndsAt(BinaryView(), binary)(path) <==> s.frames[0].binary == binary;
      }
    }
  }

  lemma {:induction false} RawInMarker(stacks: seq<Stack>, marker: string)
    ensures RawWeight(stacks, Reaches(MarkerView(marker))) == WeightInMarker(stacks, marker)
    decreases |stacks|
  {
    if stacks != [] {
      RawInMarker(stacks[..|stacks| - 1], marker);
      StartedIsContains(stacks[|stacks| - 1], marker);
    }
  }

  lemma {:induction false} RawInMarkerAt(stacks: seq<Stack>, marker: string, key: Key)
    ensures RawWeight(stacks, EndsAt(MarkerView(marker), key)) == WeightInMarkerAt(stacks, marker, key)
    decreases |stacks|
  {
    if stacks != [] {
      RawInMarkerAt(stacks[..|stacks| - 1], marker, key);
      StartedIsContains(stacks[|stacks| - 1], marker);
    }
  }

  /** The counts that `CountLeaves` computes from the listing of the merged stacks. */
  ghost function LeafCounts<K>(stacks: seq<Stack>, v: View<K>): map<K, nat> {
    Tally(CloseTo(Scan(Start(), List(Build(stacks), 1), v), 0).closed)
  }

  lemma LeafCountsAreRaw<K>(stacks: seq<Stack>, v: View<K>, k: K)
    ensures Get(LeafCounts(stacks, v), k) == RawWeight(stacks, EndsAt(v, k))
    ensures k in LeafCounts(stacks, v) <==> RawWeight(stacks, EndsAt(v, k)) > 0
  {
    var kids := Build(stacks);
    WholeScan(kids, v);
    TreeRefinesStacks(stacks, EndsAt(v, k));
    assert !Started(v, []);
    RecordsWeight(kids, 1, [], v, k);
    TallyIsWeight(Records(kids, 1, false, v), k);
  }

  /** Each binary is given exactly the weight of the raw stacks whose leaf lies in it. */
  lemma BinaryCountsRefineStacks(stacks: seq<Stack>, binary: string)
    ensures Get(LeafCounts(stacks, BinaryView()), binary) == WeightInBinary(stacks, binary)
    ensures binary in LeafCounts(stacks, BinaryView()) <==> WeightInBinary(stacks, binary) > 0
  {
    LeafCountsAreRaw(stacks, BinaryView(), binary);
    RawInBinary(stacks, binary);
  }

  /** The marker total is the weight of the raw stacks that contain the marker, however often. */
  lemma MarkerCountRefinesStacks(stacks: seq<Stack>, marker: string)
    ensures Scan(Start(), List(Build(stacks), 1), MarkerView(marker)).entered == WeightInMarker(stacks, marker)
  {
    var v := MarkerView(marker);
    WholeScan(Build(stacks), v);
    TreeRefinesStacks(stacks, Reaches(v));
    assert !Started(v, []);
    EnteredWeight(Build(stacks), [], v);
    RawInMarker(stacks, marker);
  }

  /** Inside the marker, each symbol is given exactly the weight of the raw stacks through the marker that end at it. */
  lemma MarkerLeavesRefineStacks(stacks: seq<Stack>, marker: string, key: Key)
    ensures Get(LeafCounts(stacks, MarkerView(marker)), key) == WeightInMarkerAt(stacks, marker, key)
  {
    LeafCountsAreRaw(stacks, MarkerView(marker), key);
    RawInMarkerAt(stacks, marker, key);
  }

  // ---------------------------------------------------------------- totals

  /** Sum of the counts of the listed keys. */
  function SumOver<K>(counts: map<K, nat>, keys: seq<K>): nat {
    if keys == [] then 0 else Get(counts, keys[0]) + SumOver(counts, keys[1..])
  }

  ghost function NonEmptyWeight(stacks: seq<Stack>): nat {
    if stacks == [] then 0
    else NonEmptyWeight(stacks[..|stacks| - 1]) + if stacks[|stacks| - 1].frames != [] then stacks[|stacks| - 1].weight
      else 0
  }

  ghost function SumInBinaries(stacks: seq<Stack>, binaries: seq<string>): nat {
    if binaries == [] then 0 else WeightInBinary(stacks, binaries[0]) + SumInBinaries(stacks, binaries[1..])
  }

  ghost function SumInMarkerAt(stacks: seq<Stack>, marker: string, keys: seq<Key>): nat {
    if keys == [] then 0 else WeightInMarkerAt(stacks, marker, keys[0]) + SumInMarkerAt(stacks, marker, keys[1..])
  }

  /** Adding a stack adds its weight to the sum if its leaf is listed, which it is at most once. */
  lemma {:induction false} SumInBinariesStep(stacks: seq<Stack>, s: Stack, binaries: seq<string>)
    requires Distinct(binaries)
    ensures SumInBinaries(stacks + [s], binaries) ==
      SumInBinaries(stacks, binaries) + if s.frames != [] && s.frames[0].binary in binaries then s.weight else 0
    decreases |binaries|
  {
    assert (stacks + [s])[..|stacks + [s]| - 1] == stacks;
    if binaries != [] {
      SumInBinariesStep(stacks, s, binaries[1..]);
      if s.frames != [] {
        assert s.frames[0].binary in binaries <==>
          s.frames[0].binary == binaries[0] || s.frames[0].binary in binaries[1..];
        assert binaries[0] !in binaries[1..];
      }
    }
  }

  lemma {:induction false} SumInMarkerStep(stacks: seq<Stack>, s: Stack, marker: string, keys: seq<Key>)
    requires Distinct(keys)
    ensures SumInMarkerAt(stacks + [s], marker, keys) ==
      SumInMarkerAt(stacks, marker, keys) + if Contains(s, marker) && s.frames[0] in keys then s.weight else 0
    decreases |keys|
  {
    assert (stacks + [s])[..|stacks + [s]| - 1] == stacks;
    if keys != [] {
      SumInMarkerStep(stacks, s, marker, keys[1..]);
      if Contains(s, marker) {
        assert s.frames[0] in keys <==> s.frames[0] == keys[0] || s.frames[0] in keys[1..];
        assert keys[0] !in keys[1..];
      }
    }
  }

  lemma {:induction false} AllInBinaries(stacks: seq<Stack>, binaries: seq<string>)
    requires Distinct(binaries)
    requires forall s :: s in stacks && s.frames != [] ==> s.frames[0].binary in binaries
    ensures SumInBinaries(stacks, binaries) == NonEmptyWeight(stacks)
    decreases |stacks|
  {
    if stacks == [] {
      NothingToSum(binaries);
    } else {
      var init, s := stacks[..|stacks| - 1], stacks[|stacks| - 1];
      assert stacks == init + [s];
      AllInBinaries(init, binaries);
      SumInBinariesStep(init, s, binaries);
    }
  }

  lemma {:induction false} NothingToSum(binaries: seq<string>)
    ensures SumInBinaries([], binaries) == 0
    decreases |binaries|
  {
    if binaries != [] {
      NothingToSum(binaries[1..]);
    }
  }

  lemma {:induction false} AllInMarker(stacks: seq<Stack>, marker: string, keys: seq<Key>)
    requires Distinct(keys)
    requires forall s :: s in stacks && Contains(s, marker) ==> s.frames[0] in keys
    ensures SumInMarkerAt(stacks, marker, keys) == WeightInMarker(stacks, marker)
    decreases |stacks|
  {
    if stacks == [] {
      NothingInMarker(marker, keys);
    } else {
      var init, s := stacks[..|stacks| - 1], stacks[|stacks| - 1];
      assert stacks == init + [s];
      AllInMarker(init, marker, keys);
      SumInMarkerStep(init, s, marker, keys);
    }
  }

  lemma {:induction false} NothingInMarker(marker: string, keys: seq<Key>)
    ensures SumInMarkerAt([], marker, keys) == 0
    decreases |keys|
  {
    if keys != [] {
      NothingInMarker(marker, keys[1..]);
    }
  }

  /** The counts per binary sum to the weight of all non-empty stacks. */
  lemma {:induction false} BinaryCountsSum(stacks: seq<Stack>, binaries: seq<string>)
    requires Distinct(binaries)
    requires forall s :: s in stacks && s.frames != [] ==> s.frames[0].binary in binaries
    ensures SumOver(LeafCounts(stacks, BinaryView()), binaries) == NonEmptyWeight(stacks)
  {
    SumOverBinaries(stacks, binaries);
    AllInBinaries(stacks, binaries);
  }

  lemma {:induction false} SumOverBinaries(stacks: seq<Stack>, binaries: seq<string>)
    ensures SumOver(LeafCounts(stacks, BinaryView()), binaries) == SumInBinaries(stacks, binaries)
    decreases |binaries|
  {
    if binaries != [] {
      BinaryCountsRefineStacks(stacks, binaries[0]);
      SumOverBinaries(stacks, binaries[1..]);
    }
  }

  /** The leaf counts inside the marker, before the cut to the top ones, sum to the marker total. */
  lemma MarkerLeavesSum(stacks: seq<Stack>, marker: string, keys: seq<Key>)
    requires Distinct(keys)
    requires forall s :: s in stacks && Contains(s, marker) ==> s.frames[0] in keys
    ensures SumOver(LeafCounts(stacks, MarkerView(marker)), keys)
         == Scan(Start(), List(Build(stacks), 1), MarkerView(marker)).entered
  {
    SumOverMarker(stacks, marker, keys);
    AllInMarker(stacks, marker, keys);
    MarkerCountRefinesStacks(stacks, marker);
  }

  lemma {:induction false} SumOverMarker(stacks: seq<Stack>, marker: string, keys: seq<Key>)
    ensures SumOver(LeafCounts(stacks, MarkerView(marker)), keys) == SumInMarkerAt(stacks, marker, keys)
    decreases |keys|
  {
    if keys != [] {
      MarkerLeavesRefineStacks(stacks, marker, keys[0]);
      SumOverMarker(stacks, marker, keys[1..]);
    }
  }
}
