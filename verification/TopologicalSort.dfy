/**
 * Graph sorting: `IsTopologicallySorted` and `SortGraph`, which reorders the nodes of a graph in place into
 * the lexicographically smallest topological order (Kahn's algorithm with a min-ordered ready set).
 */
module TopologicalSort {
  import opened Wrappers
  import opened Collections
  import opened OnnxModel

  function Elems<T>(s: seq<T>): set<T> {
    set x | x in s
  }

  ghost predicate IsPermutation(order: seq<int>, n: nat) {
    && |order| == n
    && Distinct(order)
    && forall k :: 0 <= k < n ==> 0 <= order[k] < n
  }

  // ---------------------------------------------------------------- orders of a dependency relation

  /** `preds[v]` lists, with multiplicity, the nodes that `v` depends on. `v` may run once all of them are done. */
  ghost predicate Ready(preds: seq<seq<int>>, done: set<int>, v: int) {
    && 0 <= v < |preds|
    && v !in done
    && forall p :: p in preds[v] ==> p in done
  }

  ghost predicate IsOrderPrefix(preds: seq<seq<int>>, order: seq<int>) {
    forall k :: 0 <= k < |order| ==> Ready(preds, Elems(order[..k]), order[k])
  }

  /** A complete order in which every node comes after everything it depends on. */
  ghost predicate IsOrder(preds: seq<seq<int>>, order: seq<int>) {
    |order| == |preds| && IsOrderPrefix(preds, order)
  }

  /** Each element is the smallest node that was ready at its turn. */
  ghost predicate IsGreedy(preds: seq<seq<int>>, order: seq<int>) {
    && IsOrderPrefix(preds, order)
    && forall k, w :: 0 <= k < |order| && Ready(preds, Elems(order[..k]), w) ==> order[k] <= w
  }

  ghost predicate LexLeq(a: seq<int>, b: seq<int>) {
    a == b || exists k :: 0 <= k < |a| && k < |b| && a[..k] == b[..k] && a[k] < b[k]
  }

  /** Of two sequences only equal ones precede each other, so there is at most one least order. */
  lemma LexLeqBothWays(a: seq<int>, b: seq<int>)
    ensures LexLeq(a, b) && LexLeq(b, a) <==> a == b
  {
    forall k, m | 0 <= m < k <= |a| && k <= |b| && a[..k] == b[..k] ensures a[m] == b[m] {
      assert a[..k][m] == a[m] && b[..k][m] == b[m];
    }
  }

  lemma PrefixIsDistinct(preds: seq<seq<int>>, order: seq<int>)
    requires IsOrderPrefix(preds, order)
    ensures Distinct(order)
    ensures forall k :: 0 <= k < |order| ==> 0 <= order[k] < |preds|
  {
    forall i, j | 0 <= i < j < |order| ensures order[i] != order[j] {
      assert Ready(preds, Elems(order[..j]), order[j]);
      assert order[..j][i] in Elems(order[..j]);
    }
  }

  lemma {:induction false} DistinctCardinality<T>(s: seq<T>)
    requires Distinct(s)
    ensures |Elems(s)| == |s|
  {
    if s == [] {
      assert Elems(s) == {};
    } else {
      var init := s[..|s| - 1];
      DistinctCardinality(init);
      assert s == init + [s[|s| - 1]];
      assert Elems(s) == Elems(init) + {s[|s| - 1]};
    }
  }

  /** A set of `k` numbers below `n`, with `k == n`, holds them all. */
  lemma {:induction false} FullRange(s: set<int>, n: nat)
    requires forall x :: x in s ==> 0 <= x < n
    ensures |s| <= n
    ensures |s| == n ==> forall v :: 0 <= v < n ==> v in s
  {
    if n > 0 {
      var rest := s - {n - 1};
      FullRange(rest, n - 1);
      assert s == if n - 1 in s then rest + {n - 1} else rest;
    } else {
      assert forall x :: x !in s;
      assert s == {};
    }
  }

  lemma PermutationIsOnto(order: seq<int>, n: nat)
    requires IsPermutation(order, n)
    ensures forall v :: 0 <= v < n ==> v in order
  {
    DistinctCardinality(order);
    FullRange(Elems(order), n);
    assert forall v :: v in Elems(order) ==> v in order;
  }

  /** A valid order stays inside any set that no further node can join. */
  lemma {:induction false} StuckSetAbsorbsOrder(preds: seq<seq<int>>, done: set<int>, order: seq<int>)
    requires IsOrderPrefix(preds, order)
    requires forall v :: !Ready(preds, done, v)
    ensures Elems(order) <= done
  {
    if order != [] {
      var k := |order| - 1;
      var init := order[..k];
      assert forall i :: 0 <= i < k ==> init[..i] == order[..i] && init[i] == order[i];
      StuckSetAbsorbsOrder(preds, done, init);
      assert Ready(preds, Elems(init), order[k]);
      assert !Ready(preds, done, order[k]);
      assert order == init + [order[k]];
    }
  }

  /** If the greedy loop gets stuck early then the relation has no complete order at all. */
  lemma StuckMeansNoOrder(preds: seq<seq<int>>, prefix: seq<int>, order: seq<int>)
    requires IsOrderPrefix(preds, prefix) && |prefix| < |preds|
    requires forall v :: !Ready(preds, Elems(prefix), v)
    ensures !IsOrder(preds, order)
  {
    if IsOrder(preds, order) {
      StuckSetAbsorbsOrder(preds, Elems(prefix), order);
      PrefixIsDistinct(preds, prefix);
      PrefixIsDistinct(preds, order);
      DistinctCardinality(prefix);
      DistinctCardinality(order);
      SubsetCardinality(Elems(order), Elems(prefix));
    }
  }

  lemma {:induction false} FirstDifference(a: seq<int>, b: seq<int>, k: nat) returns (d: nat)
    requires |a| == |b| && k <= |a| && a[..k] == b[..k]
    ensures d <= |a| && a[..d] == b[..d]
    ensures if d == |a| then a == b else a[d] != b[d]
    decreases |a| - k
  {
    if k == |a| {
      assert a == a[..k] && b == b[..k];
      d := k;
    } else if a[k] == b[k] {
      assert a[..k + 1] == a[..k] + [a[k]] && b[..k + 1] == b[..k] + [b[k]];
      d := FirstDifference(a, b, k + 1);
    } else {
      d := k;
    }
  }

  /** The greedy order is the lexicographically smallest of all orders. */
  lemma GreedyIsLexSmallest(preds: seq<seq<int>>, greedy: seq<int>, other: seq<int>)
    requires IsGreedy(preds, greedy) && |greedy| == |preds|
    requires IsOrder(preds, other)
    ensures LexLeq(greedy, other)
  {
    var d := FirstDifference(greedy, other, 0);
    if d < |greedy| {
      assert Ready(preds, Elems(greedy[..d]), other[d]);
    }
  }

  function Identity(n: nat): (order: seq<int>)
    ensures |order| == n && forall k :: 0 <= k < n ==> order[k] == k
  {
    seq(n, k => k)
  }

  /** If the nodes are already in order, greedy selection picks them in the order given. */
  lemma {:induction false} GreedyKeepsOrder(preds: seq<seq<int>>, greedy: seq<int>, k: nat)
    requires IsGreedy(preds, greedy) && |greedy| == |preds| && k <= |preds|
    requires IsOrder(preds, Identity(|preds|))
    ensures greedy[..k] == Identity(|preds|)[..k]
  {
    if k > 0 {
      var id := Identity(|preds|);
      var m := k - 1;
      GreedyKeepsOrder(preds, greedy, m);
      assert Ready(preds, Elems(id[..m]), id[m]);
      assert Ready(preds, Elems(greedy[..m]), greedy[m]);
      forall i | 0 <= i < m ensures i in Elems(greedy[..m]) {
        assert greedy[..m][i] == id[i] == i;
      }
      assert greedy[m] <= id[m];
      assert greedy[m] == m;
      assert greedy[..k] == greedy[..m] + [greedy[m]] && id[..k] == id[..m] + [id[m]];
    }
  }

  // ---------------------------------------------------------------- from names to dependencies

  /** Index of the last node that outputs `name`, or -1: the entry that ends up in the name-to-node map. */
  function LastProducer(nodes: seq<Node>, name: Name): (r: int)
    ensures -1 <= r < |nodes|
    ensures r >= 0 ==> name in nodes[r].outputs
    ensures forall i :: r < i < |nodes| ==> name !in nodes[i].outputs
  {
    if nodes == [] then -1
    else if name in nodes[|nodes| - 1].outputs then |nodes| - 1
    else LastProducer(nodes[..|nodes| - 1], name)
  }

  /** The producers of those `inputs` that are not known from the start, in order and with repetition. */
  function Producers(known: set<Name>, nodes: seq<Node>, inputs: seq<Name>): seq<int> {
    if inputs == [] then []
    else
      var last := inputs[|inputs| - 1];
      var rest := Producers(known, nodes, inputs[..|inputs| - 1]);
      if last in known then rest else rest + [LastProducer(nodes, last)]
  }

  function Dependencies(known: set<Name>, nodes: seq<Node>): (preds: seq<seq<int>>)
    ensures |preds| == |nodes|
    ensures forall v :: 0 <= v < |nodes| ==> preds[v] == Producers(known, nodes, nodes[v].inputs)
  {
    seq(|nodes|, v requires 0 <= v < |nodes| => Producers(known, nodes, nodes[v].inputs))
  }

  lemma {:induction false} ProducersMembership(known: set<Name>, nodes: seq<Node>, inputs: seq<Name>)
    ensures forall x :: x in inputs && x !in known ==> LastProducer(nodes, x) in Producers(known, nodes, inputs)
    ensures forall p :: p in Producers(known, nodes, inputs) ==>
      exists x :: x in inputs && x !in known && LastProducer(nodes, x) == p
  {
    if inputs != [] {
      var init := inputs[..|inputs| - 1];
      ProducersMembership(known, nodes, init);
      assert inputs == init + [inputs[|inputs| - 1]];
    }
  }

  /** Names a node may read at the start: graph inputs, initializers and the empty (omitted) name. */
  function KnownNames(initializers: seq<Name>, inputs: seq<Name>): set<Name> {
    Elems(initializers) + Elems(inputs) + {""}
  }

  /** Every input of every node is known or an output of an earlier node. */
  ghost predicate Sorted(known: set<Name>, nodes: seq<Node>) {
    forall i, x :: 0 <= i < |nodes| && x in nodes[i].inputs ==> x in known || ProducedBefore(nodes, i, x)
  }

  ghost predicate ProducedBefore(nodes: seq<Node>, i: int, x: Name)
    requires i <= |nodes|
  {
    exists p :: 0 <= p < i && x in nodes[p].outputs
  }

  /** Single assignment: no two nodes output the same non-empty name. */
  ghost predicate UniqueOutputs(nodes: seq<Node>) {
    forall i, j, x :: 0 <= i < |nodes| && 0 <= j < |nodes| && x != "" && x in nodes[i].outputs && x in nodes[j].outputs
      ==> i == j
  }

  function Reorder<T>(nodes: seq<T>, order: seq<int>): (r: seq<T>)
    requires forall k :: 0 <= k < |order| ==> 0 <= order[k] < |nodes|
    ensures |r| == |order|
    ensures forall k :: 0 <= k < |order| ==> r[k] == nodes[order[k]]
  {
    seq(|order|, k requires 0 <= k < |order| => nodes[order[k]])
  }

  /** An order of the dependencies sorts the nodes. */
  lemma OrderSorts(known: set<Name>, nodes: seq<Node>, order: seq<int>)
    requires IsOrder(Dependencies(known, nodes), order)
    ensures IsPermutation(order, |nodes|)
    ensures Sorted(known, Reorder(nodes, order))
  {
    var preds := Dependencies(known, nodes);
    PrefixIsDistinct(preds, order);
    var sorted := Reorder(nodes, order);
    forall k, x | 0 <= k < |sorted| && x in sorted[k].inputs && x !in known
      ensures ProducedBefore(sorted, k, x)
    {
      var v := order[k];
      assert Ready(preds, Elems(order[..k]), v);
      ProducersMembership(known, nodes, nodes[v].inputs);
      var p := LastProducer(nodes, x);
      assert p in preds[v] && p in order[..k];
      var q :| 0 <= q < k && order[q] == p;
      assert 0 <= p && x in sorted[q].outputs;
    }
  }

  /** With unique output names, every permutation that sorts the nodes is an order of the dependencies. */
  lemma SortingIsOrder(known: set<Name>, nodes: seq<Node>, order: seq<int>)
    requires "" in known && UniqueOutputs(nodes)
    requires IsPermutation(order, |nodes|) && Sorted(known, Reorder(nodes, order))
    ensures IsOrder(Dependencies(known, nodes), order)
  {
    var preds := Dependencies(known, nodes);
    var sorted := Reorder(nodes, order);
    forall k | 0 <= k < |order| ensures Ready(preds, Elems(order[..k]), order[k]) {
      var v := order[k];
      ProducersMembership(known, nodes, nodes[v].inputs);
      forall p | p in preds[v] ensures p in order[..k] {
        var x :| x in nodes[v].inputs && x !in known && LastProducer(nodes, x) == p;
        assert x in sorted[k].inputs;
        assert ProducedBefore(sorted, k, x);
        var q :| 0 <= q < k && x in sorted[q].outputs;
        assert x in nodes[order[q]].outputs && x != "";
        assert p >= order[q];
        assert p == order[q];
        assert order[..k][q] == p;
      }
    }
  }

  // ---------------------------------------------------------------- the program

  method IsTopologicallySorted(initializers: seq<Name>, inputs: seq<Name>, nodes: seq<Node>) returns (sorted: bool)
    ensures sorted <==> Sorted(Elems(initializers) + Elems(inputs), nodes)
  {
    var start := Elems(initializers) + Elems(inputs);
    var visited := start;
    for i := 0 to |nodes|
      invariant Sorted(start, nodes[..i])
      invariant forall x :: x in visited <==> x in start || ProducedBefore(nodes, i, x)
    {
      var node := nodes[i];
      for j := 0 to |node.inputs|
        invariant forall k :: 0 <= k < j ==> node.inputs[k] in visited
      {
        if node.inputs[j] !in visited {
          assert node.inputs[j] in nodes[i].inputs;
          return false;
        }
      }
      visited := visited + Elems(node.outputs);
      ghost var seen, more := nodes[..i], nodes[..i + 1];
      forall k, x | 0 <= k < i + 1 && x in more[k].inputs && x !in start
        ensures ProducedBefore(more, k, x)
      {
        if k < i {
          assert x in seen[k].inputs;
          var p :| 0 <= p < k && x in seen[p].outputs;
          assert x in more[p].outputs;
        } else {
          var p :| 0 <= p < i && x in nodes[p].outputs;
          assert x in more[p].outputs;
        }
      }
    }
    assert nodes[..|nodes|] == nodes;
    return true;
  }

  function Count(s: seq<int>, x: int): nat {
    multiset(s)[x]
  }

  /** Occurrences in `s` of nodes that are not done. */
  function Missing(s: seq<int>, done: set<int>): nat {
    if s == [] then 0
    else Missing(s[..|s| - 1], done) + if s[|s| - 1] in done then 0 else 1
  }

  lemma {:induction false} MissingZero(s: seq<int>, done: set<int>)
    ensures Missing(s, done) == 0 <==> forall p :: p in s ==> p in done
  {
    if s != [] {
      MissingZero(s[..|s| - 1], done);
      assert forall p :: p in s <==> p in s[..|s| - 1] || p == s[|s| - 1];
    }
  }

  lemma {:induction false} MissingAfter(s: seq<int>, done: set<int>, u: int)
    requires u !in done
    ensures Missing(s, done + {u}) == Missing(s, done) - Count(s, u)
  {
    if s != [] {
      MissingAfter(s[..|s| - 1], done, u);
      assert s == s[..|s| - 1] + [s[|s| - 1]];
    }
  }

  lemma {:induction false} MissingNone(s: seq<int>)
    ensures Missing(s, {}) == |s|
  {
    if s != [] {
      MissingNone(s[..|s| - 1]);
    }
  }

  /** `users` is the converse of `preds`, with the same multiplicities. */
  ghost predicate IsConverse(preds: seq<seq<int>>, users: seq<seq<int>>) {
    && |users| == |preds|
    && (forall u, v :: 0 <= u < |users| && 0 <= v < |preds| ==> Count(users[u], v) == Count(preds[v], u))
    && (forall u, v :: 0 <= u < |users| && v in users[u] ==> 0 <= v < |preds|)
    && (forall v, p :: 0 <= v < |preds| && p in preds[v] ==> 0 <= p < |preds|)
  }

  ghost predicate IsReadySet(preds: seq<seq<int>>, order: seq<int>, ready: multiset<int>) {
    forall v :: ready[v] == if Ready(preds, Elems(order), v) then 1 else 0
  }

  /** The smallest of the nodes below `n` in the list, if there is one. */
  method FirstOf(nodeList: multiset<int>, n: nat) returns (u: Option<int>)
    ensures u.Some? ==> 0 <= u.value < n && u.value in nodeList && forall w :: 0 <= w < u.value ==> w !in nodeList
    ensures u.None? ==> forall w :: 0 <= w < n ==> w !in nodeList
  {
    for i := 0 to n
      invariant forall w :: 0 <= w < i ==> w !in nodeList
    {
      if i in nodeList {
        return Some(i);
      }
    }
    return None;
  }

  /** What `inDegrees` and the ready set hold after `j` of the users of `u` have been visited. */
  ghost predicate PartlyReleased(preds: seq<seq<int>>, users: seq<int>, j: nat, done: set<int>, u: int,
                                 inDegrees: seq<int>, ready: multiset<int>)
    requires j <= |users|
  {
    && |inDegrees| == |preds|
    && (forall v :: 0 <= v < |preds| ==> inDegrees[v] == Missing(preds[v], done) - Count(users[..j], v))
    && (forall v :: ready[v] ==
          if 0 <= v < |preds| && v !in done && v != u && inDegrees[v] == 0 then 1 else 0)
  }

  method InitiallyReady(ghost preds: seq<seq<int>>, inDegrees: array<int>) returns (nodeList: multiset<int>)
    requires inDegrees.Length == |preds|
    requires forall v :: 0 <= v < |preds| ==> inDegrees[v] == |preds[v]|
    ensures IsReadySet(preds, [], nodeList)
  {
    nodeList := multiset{};
    for i := 0 to inDegrees.Length
      invariant forall v :: nodeList[v] == if 0 <= v < i && inDegrees[v] == 0 then 1 else 0
    {
      if inDegrees[i] == 0 {
        nodeList := nodeList + multiset{i};
      }
    }
    forall v ensures nodeList[v] == if Ready(preds, Elems<int>([]), v) then 1 else 0 {
      if 0 <= v < |preds| {
        MissingNone(preds[v]);
        MissingZero(preds[v], {});
        assert Elems<int>([]) == {};
      }
    }
  }

  /** Visits the users of `u`: decrements their in-degrees and adds those that reach zero to the ready set. */
  method ReleaseUsers(ghost preds: seq<seq<int>>, ghost users: seq<seq<int>>, usersOfU: seq<int>, ghost done: set<int>,
                      ghost u: int, inDegrees: array<int>, ready: multiset<int>)
    returns (nodeList: multiset<int>)
    requires IsConverse(preds, users) && 0 <= u < |users| && usersOfU == users[u] && u !in done
    requires forall w :: w in done && 0 <= w < |preds| ==> forall p :: p in preds[w] ==> p in done
    requires forall p :: p in preds[u] ==> p in done
    requires PartlyReleased(preds, usersOfU, 0, done, u, inDegrees[..], ready)
    modifies inDegrees
    ensures PartlyReleased(preds, usersOfU, |usersOfU|, done, u, inDegrees[..], nodeList)
  {
    nodeList := ready;
    for j := 0 to |usersOfU|
      invariant PartlyReleased(preds, usersOfU, j, done, u, inDegrees[..], nodeList)
    {
      var v := usersOfU[j];
      ReleaseStep(preds, users, done, u, j);
      ghost var before, listBefore := inDegrees[..], nodeList;
      inDegrees[v] := inDegrees[v] - 1;
      if inDegrees[v] == 0 {
        nodeList := nodeList + multiset{v};
      }
      assert inDegrees[..] == before[v := before[v] - 1];
    }
  }

  /** The state of Kahn's loop: remaining in-degrees, and the nodes that are ready. */
  ghost predicate KahnState(preds: seq<seq<int>>, order: seq<int>, inDegrees: seq<int>, ready: multiset<int>) {
    && IsReadySet(preds, order, ready)
    && |inDegrees| == |preds|
    && forall v :: 0 <= v < |preds| ==> inDegrees[v] == Missing(preds[v], Elems(order))
  }

  lemma KahnStart(preds: seq<seq<int>>, inDegrees: seq<int>, ready: multiset<int>)
    requires |inDegrees| == |preds| && IsReadySet(preds, [], ready)
    requires forall v :: 0 <= v < |preds| ==> inDegrees[v] == |preds[v]|
    ensures KahnState(preds, [], inDegrees, ready)
  {
    forall v | 0 <= v < |preds| ensures inDegrees[v] == Missing(preds[v], Elems<int>([])) {
      MissingNone(preds[v]);
      assert Elems<int>([]) == {};
    }
  }

  /** Moves the ready node `u` to the end of the order. */
  method TakeNode(ghost preds: seq<seq<int>>, users: seq<seq<int>>, inDegrees: array<int>, ghost order: seq<int>,
                  u: int, ready: multiset<int>)
    returns (nodeList: multiset<int>)
    requires IsConverse(preds, users) && IsOrderPrefix(preds, order)
    requires KahnState(preds, order, inDegrees[..], ready) && u in ready
    modifies inDegrees
    ensures KahnState(preds, order + [u], inDegrees[..], nodeList)
  {
    ghost var done := Elems(order);
    ReadyIsWaitingForNone(preds, order, u, ready, inDegrees[..]);
    nodeList := ReleaseUsers(preds, users, users[u], done, u, inDegrees, ready - multiset{u});
    AllReleased(preds, users, done, u, inDegrees[..], nodeList);
    assert Elems(order + [u]) == done + {u};
  }

  /** Kahn's loop. */
  method KahnOrder(ghost preds: seq<seq<int>>, users: seq<seq<int>>, inDegrees: array<int>) returns (topOrder: seq<int>)
    requires IsConverse(preds, users)
    requires inDegrees.Length == |users|
    requires forall v :: 0 <= v < |preds| ==> inDegrees[v] == |preds[v]|
    modifies inDegrees
    ensures IsGreedy(preds, topOrder)
    ensures |topOrder| <= |preds|
    ensures forall v :: !Ready(preds, Elems(topOrder), v)
  {
    var nodeList := InitiallyReady(preds, inDegrees);
    topOrder := [];
    KahnStart(preds, inDegrees[..], nodeList);
    var first := FirstOf(nodeList, |users|);
    while first.Some?
      invariant IsGreedy(preds, topOrder) && |topOrder| <= |preds|
      invariant KahnState(preds, topOrder, inDegrees[..], nodeList)
      invariant first.Some? ==> first.value in nodeList && forall w :: 0 <= w < first.value ==> w !in nodeList
      invariant first.None? ==> forall w :: 0 <= w < |preds| ==> w !in nodeList
      decreases |preds| - |topOrder|
    {
      var u := first.value;
      SmallestIsNext(preds, topOrder, u, nodeList);
      nodeList := TakeNode(preds, users, inDegrees, topOrder, u, nodeList);
      topOrder := topOrder + [u];
      first := FirstOf(nodeList, |users|);
    }
    forall v ensures !Ready(preds, Elems(topOrder), v) {
      assert nodeList[v] == if Ready(preds, Elems(topOrder), v) then 1 else 0;
    }
  }

  lemma SmallestIsNext(preds: seq<seq<int>>, order: seq<int>, u: int, ready: multiset<int>)
    requires IsGreedy(preds, order) && IsReadySet(preds, order, ready)
    requires u in ready && forall w :: 0 <= w < u ==> w !in ready
    ensures IsGreedy(preds, order + [u]) && |order| < |preds|
  {
    forall w | Ready(preds, Elems(order), w) ensures u <= w {
      assert ready[w] == 1;
    }
    ExtendGreedy(preds, order, u);
  }

  lemma ReadyIsWaitingForNone(preds: seq<seq<int>>, order: seq<int>, u: int, ready: multiset<int>, inDegrees: seq<int>)
    requires IsOrderPrefix(preds, order) && IsReadySet(preds, order, ready)
    requires u in ready
    requires |inDegrees| == |preds|
    requires forall v :: 0 <= v < |preds| ==> inDegrees[v] == Missing(preds[v], Elems(order))
    ensures Ready(preds, Elems(order), u)
    ensures forall w :: Ready(preds, Elems(order), w) ==> w in ready
    ensures forall w :: w in Elems(order) && 0 <= w < |preds| ==> forall p :: p in preds[w] ==> p in Elems(order)
    ensures PartlyReleased(preds, [], 0, Elems(order), u, inDegrees, ready - multiset{u})
  {
    forall w | w in Elems(order) && 0 <= w < |preds| ensures forall p :: p in preds[w] ==> p in Elems(order) {
      var k :| 0 <= k < |order| && order[k] == w;
      assert Ready(preds, Elems(order[..k]), w);
    }
    forall v ensures (ready - multiset{u})[v] ==
        if 0 <= v < |preds| && v !in Elems(order) && v != u && inDegrees[v] == 0 then 1 else 0 {
      if 0 <= v < |preds| {
        MissingZero(preds[v], Elems(order));
      }
    }
  }

  lemma AllReleased(preds: seq<seq<int>>, users: seq<seq<int>>, done: set<int>, u: int,
                    inDegrees: seq<int>, ready: multiset<int>)
    requires IsConverse(preds, users) && 0 <= u < |users| && u !in done
    requires PartlyReleased(preds, users[u], |users[u]|, done, u, inDegrees, ready)
    ensures forall v :: 0 <= v < |preds| ==> inDegrees[v] == Missing(preds[v], done + {u})
    ensures forall v :: ready[v] == if Ready(preds, done + {u}, v) then 1 else 0
  {
    assert users[u][..|users[u]|] == users[u];
    forall v ensures 0 <= v < |preds| ==> inDegrees[v] == Missing(preds[v], done + {u})
             ensures ready[v] == if Ready(preds, done + {u}, v) then 1 else 0 {
      if 0 <= v < |preds| {
        MissingAfter(preds[v], done, u);
        MissingZero(preds[v], done + {u});
      }
    }
  }

  lemma ExtendGreedy(preds: seq<seq<int>>, order: seq<int>, u: int)
    requires IsGreedy(preds, order) && Ready(preds, Elems(order), u)
    requires forall w :: Ready(preds, Elems(order), w) ==> u <= w
    ensures IsGreedy(preds, order + [u])
    ensures |order| < |preds|
    ensures Elems(order + [u]) == Elems(order) + {u}
  {
    var more := order + [u];
    assert forall k :: 0 <= k < |order| ==> more[..k] == order[..k];
    assert more[..|order|] == order;
    PrefixIsDistinct(preds, more);
    DistinctCardinality(more);
    FullRange(Elems(more), |preds|);
  }

  /** The next user in the list is waiting, and not done. */
  lemma ReleaseStep(preds: seq<seq<int>>, users: seq<seq<int>>, done: set<int>, u: int, j: nat)
    requires IsConverse(preds, users)
    requires 0 <= u < |users| && j < |users[u]| && u !in done
    requires forall w :: w in done && 0 <= w < |preds| ==> forall p :: p in preds[w] ==> p in done
    requires forall p :: p in preds[u] ==> p in done
    ensures var v := users[u][j];
      && 0 <= v < |preds| && v !in done && v != u
      && Missing(preds[v], done) - Count(users[u][..j], v) > 0
    ensures forall v :: Count(users[u][..j + 1], v) == Count(users[u][..j], v) + if v == users[u][j] then 1 else 0
  {
    var v := users[u][j];
    assert v in users[u];
    assert users[u][..j + 1] == users[u][..j] + [v];
    assert users[u] == users[u][..j + 1] + users[u][j + 1..];
    assert Count(users[u], v) == Count(users[u][..j + 1], v) + Count(users[u][j + 1..], v);
    assert Count(preds[v], u) > 0;
    MissingAfter(preds[v], done, u);
  }

  /** The graph as `SortGraph` sees it; its node list is reordered in place. */
  class GraphProto {
    const initializers: seq<Name>
    const inputs: seq<Name>
    const nodes: array<Node>

    constructor (initializers: seq<Name>, inputs: seq<Name>, nodes: array<Node>)
      ensures this.initializers == initializers && this.inputs == inputs && this.nodes == nodes
    {
      this.initializers, this.inputs, this.nodes := initializers, inputs, nodes;
    }

    ghost function Known(): set<Name> {
      KnownNames(initializers, inputs)
    }
  }

  /** The map from output names to the nodes that output them; later nodes overwrite earlier ones. */
  function ProducerIndex(nodes: seq<Node>): map<Name, int> {
    if nodes == [] then map[]
    else
      var n := |nodes| - 1;
      IndexOutputs(ProducerIndex(nodes[..n]), nodes[n].outputs, n)
  }

  function IndexOutputs(m: map<Name, int>, outputs: seq<Name>, index: int): map<Name, int> {
    if outputs == [] then m
    else IndexOutputs(m, outputs[..|outputs| - 1], index)[outputs[|outputs| - 1] := index]
  }

  lemma {:induction false} IndexOutputsEntry(m: map<Name, int>, outputs: seq<Name>, index: int, x: Name)
    ensures var r := IndexOutputs(m, outputs, index);
      && (x in r <==> x in m || x in outputs)
      && (x in r ==> r[x] == if x in outputs then index else m[x])
    decreases |outputs|
  {
    if outputs != [] {
      var init := outputs[..|outputs| - 1];
      IndexOutputsEntry(m, init, index, x);
      assert outputs == init + [outputs[|outputs| - 1]];
    }
  }

  lemma {:induction false} ProducerIndexIsLast(nodes: seq<Node>, x: Name)
    ensures x in ProducerIndex(nodes) <==> LastProducer(nodes, x) >= 0
    ensures x in ProducerIndex(nodes) ==> ProducerIndex(nodes)[x] == LastProducer(nodes, x)
  {
    if nodes != [] {
      var n := |nodes| - 1;
      ProducerIndexIsLast(nodes[..n], x);
      IndexOutputsEntry(ProducerIndex(nodes[..n]), nodes[n].outputs, n, x);
    }
  }

  method IndexProducers(nodes: seq<Node>) returns (origIndex: map<Name, int>)
    ensures origIndex == ProducerIndex(nodes)
  {
    origIndex := map[];
    for index := 0 to |nodes|
      invariant origIndex == ProducerIndex(nodes[..index])
    {
      var outputs := nodes[index].outputs;
      ghost var before := origIndex;
      for j := 0 to |outputs|
        invariant origIndex == IndexOutputs(before, outputs[..j], index)
      {
        origIndex := origIndex[outputs[j] := index];
        assert outputs[..j + 1][..j] == outputs[..j];
      }
      assert outputs[..|outputs|] == outputs;
      assert nodes[..index + 1][..index] == nodes[..index];
    }
    assert nodes[..|nodes|] == nodes;
  }

  /** Every unknown input has a producer. */
  ghost predicate Closed(known: set<Name>, nodes: seq<Node>) {
    forall v, x :: 0 <= v < |nodes| && x in nodes[v].inputs && x !in known ==> LastProducer(nodes, x) >= 0
  }

  /** How often `v` is listed as a user of `u`, once the first `index` nodes and `j` inputs of the next are visited. */
  function UsesSoFar(known: set<Name>, nodes: seq<Node>, index: nat, j: nat, u: int, v: int): nat
    requires 0 <= v < |nodes| && index <= |nodes| && (index < |nodes| ==> j <= |nodes[index].inputs|)
  {
    if v < index then Count(Producers(known, nodes, nodes[v].inputs), u)
    else if v == index then Count(Producers(known, nodes, nodes[v].inputs[..j]), u)
    else 0
  }

  ghost predicate AreUsesSoFar(known: set<Name>, nodes: seq<Node>, index: nat, j: nat, users: seq<seq<int>>)
    requires index <= |nodes| && (index < |nodes| ==> j <= |nodes[index].inputs|)
  {
    && |users| == |nodes|
    && (forall u, v :: 0 <= u < |nodes| && v in users[u] ==> 0 <= v < |nodes|)
    && (forall u, v :: 0 <= u < |nodes| && 0 <= v < |nodes| ==>
          Count(users[u], v) == UsesSoFar(known, nodes, index, j, u, v))
  }

  lemma SkipInput(known: set<Name>, nodes: seq<Node>, index: nat, j: nat, users: seq<seq<int>>)
    requires index < |nodes| && j < |nodes[index].inputs| && nodes[index].inputs[j] in known
    requires AreUsesSoFar(known, nodes, index, j, users)
    ensures AreUsesSoFar(known, nodes, index, j + 1, users)
  {
    var inputs := nodes[index].inputs;
    assert inputs[..j + 1][..j] == inputs[..j];
    assert Producers(known, nodes, inputs[..j + 1]) == Producers(known, nodes, inputs[..j]);
  }

  lemma AddUse(known: set<Name>, nodes: seq<Node>, index: nat, j: nat, users: seq<seq<int>>, after: seq<seq<int>>)
    requires index < |nodes| && j < |nodes[index].inputs| && nodes[index].inputs[j] !in known
    requires AreUsesSoFar(known, nodes, index, j, users)
    requires LastProducer(nodes, nodes[index].inputs[j]) >= 0
    requires var p := LastProducer(nodes, nodes[index].inputs[j]); after == users[p := users[p] + [index]]
    ensures AreUsesSoFar(known, nodes, index, j + 1, after)
  {
    var inputs := nodes[index].inputs;
    var p := LastProducer(nodes, inputs[j]);
    assert inputs[..j + 1][..j] == inputs[..j];
    assert Producers(known, nodes, inputs[..j + 1]) == Producers(known, nodes, inputs[..j]) + [p];
    forall u, v | 0 <= u < |nodes| && 0 <= v < |nodes|
      ensures Count(after[u], v) == UsesSoFar(known, nodes, index, j + 1, u, v)
    {
      assert Count(users[u], v) == UsesSoFar(known, nodes, index, j, u, v);
    }
  }

  lemma NextNode(known: set<Name>, nodes: seq<Node>, index: nat, users: seq<seq<int>>)
    requires index < |nodes| && AreUsesSoFar(known, nodes, index, |nodes[index].inputs|, users)
    ensures AreUsesSoFar(known, nodes, index + 1, 0, users)
  {
    var inputs := nodes[index].inputs;
    assert inputs[..|inputs|] == inputs;
  }

  lemma UsesAreConverse(known: set<Name>, nodes: seq<Node>, users: seq<seq<int>>)
    requires AreUsesSoFar(known, nodes, |nodes|, 0, users) && Closed(known, nodes)
    ensures IsConverse(Dependencies(known, nodes), users)
  {
    var preds := Dependencies(known, nodes);
    forall v, p | 0 <= v < |preds| && p in preds[v] ensures 0 <= p < |preds| {
      ProducersMembership(known, nodes, nodes[v].inputs);
    }
    assert forall u, v :: 0 <= u < |users| && 0 <= v < |preds| ==>
      Count(users[u], v) == UsesSoFar(known, nodes, |nodes|, 0, u, v);
  }

  method AddUsesOf(known: set<Name>, nodes: seq<Node>, origIndex: map<Name, int>, index: nat, before: seq<seq<int>>)
    returns (ok: bool, users: seq<seq<int>>)
    requires origIndex == ProducerIndex(nodes)
    requires index < |nodes| && AreUsesSoFar(known, nodes, index, 0, before)
    ensures ok ==> AreUsesSoFar(known, nodes, index + 1, 0, users)
    ensures ok <==> forall x :: x in nodes[index].inputs && x !in known ==> LastProducer(nodes, x) >= 0
  {
    var inputs := nodes[index].inputs;
    users := before;
    for j := 0 to |inputs|
      invariant AreUsesSoFar(known, nodes, index, j, users)
      invariant forall k :: 0 <= k < j && inputs[k] !in known ==> LastProducer(nodes, inputs[k]) >= 0
    {
      var input := inputs[j];
      ProducerIndexIsLast(nodes, input);
      if input in known {
        SkipInput(known, nodes, index, j, users);
        continue;
      }
      if input !in origIndex {
        return false, users;
      }
      var p := origIndex[input];
      AddUse(known, nodes, index, j, users, users[p := users[p] + [index]]);
      users := users[p := users[p] + [index]];
    }
    NextNode(known, nodes, index, users);
    return true, users;
  }

  method BuildUsers(known: set<Name>, nodes: seq<Node>, origIndex: map<Name, int>)
    returns (ok: bool, users: seq<seq<int>>)
    requires origIndex == ProducerIndex(nodes)
    ensures ok <==> Closed(known, nodes)
    ensures ok ==> IsConverse(Dependencies(known, nodes), users)
  {
    users := seq(|nodes|, _ => []);
    for index := 0 to |nodes|
      invariant AreUsesSoFar(known, nodes, index, 0, users)
      invariant forall v, x :: 0 <= v < index && x in nodes[v].inputs && x !in known ==> LastProducer(nodes, x) >= 0
    {
      var found;
      found, users := AddUsesOf(known, nodes, origIndex, index, users);
      if !found {
        return false, users;
      }
    }
    UsesAreConverse(known, nodes, users);
    return true, users;
  }

  method CountInDegrees(known: set<Name>, nodes: seq<Node>) returns (inDegrees: array<int>)
    ensures fresh(inDegrees) && inDegrees.Length == |nodes|
    ensures forall v :: 0 <= v < |nodes| ==> inDegrees[v] == |Dependencies(known, nodes)[v]|
  {
    inDegrees := new int[|nodes|](_ => 0);
    for index := 0 to |nodes|
      invariant forall v :: 0 <= v < index ==> inDegrees[v] == |Producers(known, nodes, nodes[v].inputs)|
      invariant forall v :: index <= v < |nodes| ==> inDegrees[v] == 0
    {
      var inputs := nodes[index].inputs;
      for j := 0 to |inputs|
        invariant forall v :: 0 <= v < index ==> inDegrees[v] == |Producers(known, nodes, nodes[v].inputs)|
        invariant forall v :: index < v < |nodes| ==> inDegrees[v] == 0
        invariant inDegrees[index] == |Producers(known, nodes, inputs[..j])|
      {
        assert inputs[..j + 1][..j] == inputs[..j];
        if inputs[j] !in known {
          inDegrees[index] := inDegrees[index] + 1;
        }
      }
      assert inputs[..|inputs|] == inputs;
    }
  }

  /** `a` is `start` rearranged by `cur`, whose inverse is `position`. */
  ghost predicate Tracks<T>(start: seq<T>, a: seq<T>, cur: seq<int>, position: seq<int>) {
    && |a| == |start| == |cur| == |position|
    && (forall k :: 0 <= k < |a| ==> 0 <= cur[k] < |a| && a[k] == start[cur[k]] && position[cur[k]] == k)
    && (forall v :: 0 <= v < |a| ==> 0 <= position[v] < |a| && cur[position[v]] == v)
  }

  function Swap<T>(s: seq<T>, i: nat, j: nat): (r: seq<T>)
    requires i < |s| && j < |s|
    ensures |r| == |s|
    ensures forall k :: 0 <= k < |s| ==> r[k] == s[if k == i then j else if k == j then i else k]
  {
    s[i := s[j]][j := s[i]]
  }

  lemma SwapTracks<T>(start: seq<T>, a: seq<T>, cur: seq<int>, position: seq<int>, i: nat, j: nat)
    requires Tracks(start, a, cur, position) && i < |a| && j < |a|
    ensures Tracks(start, Swap(a, i, j), Swap(cur, i, j), Swap(position, cur[i], cur[j]))
  {
  }

  lemma StartTracks<T>(start: seq<T>)
    ensures Tracks(start, start, Identity(|start|), Identity(|start|))
  {
  }

  /** Brings the elements into the given order by swaps, tracking in `curOrder` where each one came from. */
  method ApplyOrder<T>(a: array<T>, topOrder: seq<int>)
    requires IsPermutation(topOrder, a.Length)
    modifies a
    ensures a[..] == Reorder(old(a[..]), topOrder)
  {
    var n := a.Length;
    ghost var start := a[..];
    var curOrder := new int[n](i => i);
    ghost var position := Identity(n);
    assert curOrder[..] == Identity(n);
    StartTracks(start);
    for resIndex := 0 to n
      invariant Tracks(start, a[..], curOrder[..], position)
      invariant forall k :: 0 <= k < resIndex ==> curOrder[k] == topOrder[k]
    {
      if topOrder[resIndex] == curOrder[resIndex] {
        continue;
      }
      position := PlaceNext(a, curOrder, topOrder, resIndex, start, position);
    }
    assert forall k :: 0 <= k < n ==> curOrder[..][k] == topOrder[k];
  }

  /** Finds the element that belongs at `resIndex` among the later ones, and swaps it into place. */
  method PlaceNext<T>(a: array<T>, curOrder: array<int>, topOrder: seq<int>, resIndex: nat, ghost start: seq<T>,
                      ghost position: seq<int>)
    returns (ghost newPosition: seq<int>)
    requires IsPermutation(topOrder, a.Length) && resIndex < a.Length && a.Length == curOrder.Length
    requires a != curOrder
    requires Tracks(start, a[..], curOrder[..], position)
    requires forall k :: 0 <= k < resIndex ==> curOrder[k] == topOrder[k]
    requires topOrder[resIndex] != curOrder[resIndex]
    modifies a, curOrder
    ensures Tracks(start, a[..], curOrder[..], newPosition)
    ensures forall k :: 0 <= k <= resIndex ==> curOrder[k] == topOrder[k]
  {
    ghost var target := position[topOrder[resIndex]];
    assert curOrder[..][target] == topOrder[resIndex];
    assert target > resIndex;
    newPosition := position;
    for search := resIndex + 1 to a.Length
      invariant search <= target
      invariant a[..] == old(a[..]) && curOrder[..] == old(curOrder[..])
    {
      if topOrder[resIndex] == curOrder[search] {
        ghost var was, cur := a[..], curOrder[..];
        SwapTracks(start, was, cur, position, resIndex, search);
        newPosition := Swap(position, cur[resIndex], cur[search]);
        a[resIndex], a[search] := a[search], a[resIndex];
        curOrder[search], curOrder[resIndex] := curOrder[resIndex], curOrder[search];
        assert a[..] == Swap(was, resIndex, search) && curOrder[..] == Swap(cur, resIndex, search);
        return;
      }
    }
  }

  /** `after` is `before` rearranged by the lexicographically smallest topological order. */
  ghost predicate IsSortOf(known: set<Name>, before: seq<Node>, after: seq<Node>, order: seq<int>) {
    && IsPermutation(order, |before|)
    && IsGreedy(Dependencies(known, before), order)
    && after == Reorder(before, order)
  }

  method SortGraph(graph: GraphProto) returns (ok: bool, ghost order: seq<int>)
    modifies graph.nodes
    ensures ok ==> IsSortOf(graph.Known(), old(graph.nodes[..]), graph.nodes[..], order)
    ensures !ok ==> graph.nodes[..] == old(graph.nodes[..])
    ensures !ok ==> forall p :: !IsOrder(Dependencies(graph.Known(), graph.nodes[..]), p)
  {
    var nodes := graph.nodes[..];
    var origIndex := IndexProducers(nodes);
    var known := KnownNames(graph.initializers, graph.inputs);
    order := [];
    var closed, users := BuildUsers(known, nodes, origIndex);
    if !closed {
      forall p ensures !IsOrder(Dependencies(known, nodes), p) {
        if IsOrder(Dependencies(known, nodes), p) {
          OrderImpliesClosed(known, nodes, p);
        }
      }
      return false, order;
    }
    var inDegrees := CountInDegrees(known, nodes);
    ghost var preds := Dependencies(known, nodes);
    var topOrder := KahnOrder(preds, users, inDegrees);
    if |topOrder| != |nodes| {
      forall p ensures !IsOrder(preds, p) {
        StuckMeansNoOrder(preds, topOrder, p);
      }
      return false, order;
    }
    PrefixIsDistinct(preds, topOrder);
    ApplyOrder(graph.nodes, topOrder);
    return true, topOrder;
  }

  lemma OrderImpliesClosed(known: set<Name>, nodes: seq<Node>, order: seq<int>)
    requires IsOrder(Dependencies(known, nodes), order)
    ensures Closed(known, nodes)
  {
    var preds := Dependencies(known, nodes);
    PrefixIsDistinct(preds, order);
    PermutationIsOnto(order, |preds|);
    forall v, x | 0 <= v < |nodes| && x in nodes[v].inputs && x !in known ensures LastProducer(nodes, x) >= 0 {
      assert v in order;
      var k :| 0 <= k < |order| && order[k] == v;
      assert Ready(preds, Elems(order[..k]), v);
      ProducersMembership(known, nodes, nodes[v].inputs);
      assert LastProducer(nodes, x) in order[..k];
    }
  }

  // ---------------------------------------------------------------- what sorting promises

  /** A successful sort leaves a sorted permutation that precedes every other one lexicographically. */
  lemma SortIsLeastSorted(known: set<Name>, before: seq<Node>, after: seq<Node>, order: seq<int>, other: seq<int>)
    requires IsSortOf(known, before, after, order)
    ensures Sorted(known, after)
    ensures multiset(after) == multiset(before)
    ensures ("" in known && UniqueOutputs(before) && IsPermutation(other, |before|)
             && Sorted(known, Reorder(before, other))) ==> LexLeq(order, other)
  {
    OrderSorts(known, before, order);
    ReorderKeepsElements(before, order);
    if "" in known && UniqueOutputs(before) && IsPermutation(other, |before|) && Sorted(known, Reorder(before, other)) {
      SortingIsOrder(known, before, other);
      GreedyIsLexSmallest(Dependencies(known, before), order, other);
    }
  }

  /** Sorting succeeds exactly when some arrangement of the nodes is sorted. */
  lemma SortableIffOrdered(known: set<Name>, nodes: seq<Node>)
    requires "" in known && UniqueOutputs(nodes)
    ensures (exists p :: IsOrder(Dependencies(known, nodes), p)) <==>
            (exists p :: IsPermutation(p, |nodes|) && Sorted(known, Reorder(nodes, p)))
  {
    if p :| IsOrder(Dependencies(known, nodes), p) {
      OrderSorts(known, nodes, p);
    }
    if p :| IsPermutation(p, |nodes|) && Sorted(known, Reorder(nodes, p)) {
      SortingIsOrder(known, nodes, p);
    }
  }

  /** Whoever produces an input for the last time does so before it is read. */
  ghost predicate ReadsLastProducers(known: set<Name>, nodes: seq<Node>) {
    forall v, x :: 0 <= v < |nodes| && x in nodes[v].inputs && x !in known ==> 0 <= LastProducer(nodes, x) < v
  }

  /**
   * Sorting succeeds and leaves every node in its place exactly when no input is output again by its reader or a later
   * node.
   */
  lemma SortKeepsOrderIff(known: set<Name>, nodes: seq<Node>)
    ensures IsSortOf(known, nodes, nodes, Identity(|nodes|)) <==> ReadsLastProducers(known, nodes)
  {
    var preds, id := Dependencies(known, nodes), Identity(|nodes|);
    if IsSortOf(known, nodes, nodes, id) {
      forall v, x | 0 <= v < |nodes| && x in nodes[v].inputs && x !in known ensures 0 <= LastProducer(nodes, x) < v {
        assert Ready(preds, Elems(id[..v]), id[v]);
        ProducersMembership(known, nodes, nodes[v].inputs);
        assert LastProducer(nodes, x) in id[..v];
      }
    }
    if ReadsLastProducers(known, nodes) {
      IdentityIsOrder(known, nodes);
      forall k, u | 0 <= u < k <= |id| ensures u in Elems(id[..k]) {
        assert id[..k][u] == u;
      }
      assert Reorder(nodes, id) == nodes;
    }
  }

  lemma IdentityIsOrder(known: set<Name>, nodes: seq<Node>)
    requires ReadsLastProducers(known, nodes)
    ensures IsOrder(Dependencies(known, nodes), Identity(|nodes|))
  {
    var preds, id := Dependencies(known, nodes), Identity(|nodes|);
    forall v | 0 <= v < |nodes| ensures Ready(preds, Elems(id[..v]), id[v]) {
      ProducersMembership(known, nodes, nodes[v].inputs);
      forall p | p in preds[v] ensures p in id[..v] {
        assert id[..v][p] == p;
      }
    }
  }

  /** A sorted graph in single-assignment form is left as it is. */
  lemma SortKeepsSorted(known: set<Name>, nodes: seq<Node>, after: seq<Node>, order: seq<int>)
    requires "" in known && UniqueOutputs(nodes) && Sorted(known, nodes)
    requires IsSortOf(known, nodes, after, order)
    ensures after == nodes
  {
    forall v, x | 0 <= v < |nodes| && x in nodes[v].inputs && x !in known ensures 0 <= LastProducer(nodes, x) < v {
      assert ProducedBefore(nodes, v, x);
    }
    IdentityIsOrder(known, nodes);
    GreedyKeepsOrder(Dependencies(known, nodes), order, |nodes|);
    assert order == order[..|nodes|] && Identity(|nodes|) == Identity(|nodes|)[..|nodes|];
  }

  /** Sorting twice is sorting once. */
  lemma SortIsIdempotent(known: set<Name>, nodes: seq<Node>, once: seq<Node>, order1: seq<int>, twice: seq<Node>,
                         order2: seq<int>)
    requires "" in known && UniqueOutputs(nodes)
    requires IsSortOf(known, nodes, once, order1) && IsSortOf(known, once, twice, order2)
    ensures twice == once
  {
    SortIsLeastSorted(known, nodes, once, order1, order1);
    ReorderKeepsUnique(nodes, order1);
    SortKeepsSorted(known, once, twice, order2);
  }

  lemma ReorderKeepsUnique(nodes: seq<Node>, order: seq<int>)
    requires IsPermutation(order, |nodes|) && UniqueOutputs(nodes)
    ensures UniqueOutputs(Reorder(nodes, order))
  {
    var r := Reorder(nodes, order);
    forall i, j, x | 0 <= i < |r| && 0 <= j < |r| && x != "" && x in r[i].outputs && x in r[j].outputs
      ensures i == j
    {
      assert order[i] == order[j];
    }
  }

  lemma ReorderMembers<T>(nodes: seq<T>, order: seq<int>)
    requires IsPermutation(order, |nodes|)
    ensures forall x :: x in Reorder(nodes, order) <==> x in nodes
  {
    var r := Reorder(nodes, order);
    forall x | x in nodes ensures x in r {
      var v :| 0 <= v < |nodes| && nodes[v] == x;
      assert v in order by { PermutationIsOnto(order, |nodes|); }
      var k :| 0 <= k < |order| && order[k] == v;
      assert r[k] == x;
    }
  }

  lemma DropLargest(order: seq<int>, n: nat, k: nat)
    requires IsPermutation(order, n + 1) && k < |order| && order[k] == n
    ensures IsPermutation(order[..k] + order[k + 1..], n)
  {
    var rest := order[..k] + order[k + 1..];
    forall i | 0 <= i < |rest| ensures 0 <= rest[i] < n && rest[i] == order[if i < k then i else i + 1] {
      assert order[if i < k then i else i + 1] != order[k];
    }
  }

  lemma ReorderSplit<T>(init: seq<T>, last: T, a: seq<int>, b: seq<int>)
    requires forall i :: 0 <= i < |a| ==> 0 <= a[i] < |init|
    requires forall i :: 0 <= i < |b| ==> 0 <= b[i] < |init|
    ensures Reorder(init, a + b) == Reorder(init, a) + Reorder(init, b)
    ensures Reorder(init + [last], a + [|init|] + b) == Reorder(init, a) + [last] + Reorder(init, b)
  {
  }

  lemma ReorderStep<T>(nodes: seq<T>, order: seq<int>, n: nat, k: nat)
    requires |nodes| == n + 1 && k < |order| && order[k] == n
    requires forall i :: 0 <= i < |order| && i != k ==> 0 <= order[i] < n
    requires var rest := order[..k] + order[k + 1..]; forall i :: 0 <= i < |rest| ==> 0 <= rest[i] < n
    ensures multiset(Reorder(nodes, order)) ==
            multiset(Reorder(nodes[..n], order[..k] + order[k + 1..])) + multiset{nodes[n]}
  {
    var a, b := order[..k], order[k + 1..];
    ReorderSplit(nodes[..n], nodes[n], a, b);
    assert order == a + [n] + b && nodes == nodes[..n] + [nodes[n]];
  }

  lemma {:induction false} ReorderKeepsElements<T>(nodes: seq<T>, order: seq<int>)
    requires IsPermutation(order, |nodes|)
    ensures multiset(Reorder(nodes, order)) == multiset(nodes)
    decreases |nodes|
  {
    if nodes == [] {
      assert Reorder(nodes, order) == nodes;
    } else {
      var n := |nodes| - 1;
      assert n in order by { PermutationIsOnto(order, |nodes|); }
      var k :| 0 <= k < |order| && order[k] == n;
      DropLargest(order, n, k);
      ReorderKeepsElements(nodes[..n], order[..k] + order[k + 1..]);
      ReorderStep(nodes, order, n, k);
      assert nodes == nodes[..n] + [nodes[n]];
    }
  }

  lemma SingleProducer(known: set<Name>, nodes: seq<Node>, x: Name)
    ensures Producers(known, nodes, [x]) == if x in known then [] else [LastProducer(nodes, x)]
  {
    assert [x][..0] == [];
  }

  /** Without single assignment, the result of a sort can fail to be sortable: x is output twice below. */
  lemma ResortCanFail()
    ensures var a := Node("a", "A", "", ["y"], ["x"], []);
      var b := Node("b", "B", "", [], ["x"], []);
      var c := Node("c", "C", "", ["x"], ["y"], []);
      && IsSortOf({""}, [a, b, c], [b, c, a], [1, 2, 0])
      && forall p :: !IsOrder(Dependencies({""}, [b, c, a]), p)
  {
    var a := Node("a", "A", "", ["y"], ["x"], []);
    var b := Node("b", "B", "", [], ["x"], []);
    var c := Node("c", "C", "", ["x"], ["y"], []);
    var nodes, once, order := [a, b, c], [b, c, a], [1, 2, 0];
    ThreeDependencies(nodes, 2, 1);
    ThreeDependencies(once, 1, 2);
    assert Dependencies({""}, nodes) == [[2], [], [1]];
    ChainIsGreedy(Dependencies({""}, nodes));
    assert Reorder(nodes, order) == once;
    var again := Dependencies({""}, once);
    assert again[1] == [2] && again[2] == [1];
    forall p ensures !IsOrder(again, p) {
      CycleHasNoOrder(again, p);
    }
  }

  /** Who reads x depends on its last producer, who reads y on the other one. */
  lemma ThreeDependencies(nodes: seq<Node>, y: nat, x: nat)
    requires |nodes| == 3 && y < 3 && x < 3 && nodes[y].outputs == ["y"]
    requires forall i :: 0 <= i < 3 && i != y ==> nodes[i].outputs == ["x"]
    requires nodes[x].outputs == ["x"] && forall i :: x < i < 3 ==> nodes[i].outputs == ["y"]
    ensures forall v :: 0 <= v < 3 && nodes[v].inputs == ["y"] ==> Dependencies({""}, nodes)[v] == [y]
    ensures forall v :: 0 <= v < 3 && nodes[v].inputs == ["x"] ==> Dependencies({""}, nodes)[v] == [x]
    ensures forall v :: 0 <= v < 3 && nodes[v].inputs == [] ==> Dependencies({""}, nodes)[v] == []
  {
    SingleProducer({""}, nodes, "x");
    SingleProducer({""}, nodes, "y");
    assert "y" in nodes[y].outputs && "x" in nodes[x].outputs;
    assert LastProducer(nodes, "y") == y && LastProducer(nodes, "x") == x;
  }

  lemma ChainIsGreedy(preds: seq<seq<int>>)
    requires preds == [[2], [], [1]]
    ensures IsGreedy(preds, [1, 2, 0])
  {
    var order := [1, 2, 0];
    assert order[..0] == [] && order[..1] == [1] && order[..2] == [1, 2];
    assert 2 in preds[0] && 1 in preds[2];
  }

  lemma CycleHasNoOrder(preds: seq<seq<int>>, p: seq<int>)
    requires |preds| == 3 && preds[1] == [2] && preds[2] == [1]
    ensures !IsOrder(preds, p)
  {
    assert 2 in preds[1] && 1 in preds[2];
    if IsOrder(preds, p) {
      StuckSetAbsorbsOrder(preds, {0}, p);
      PrefixIsDistinct(preds, p);
      DistinctCardinality(p);
      SubsetCardinality(Elems(p), {0});
    }
  }
}
