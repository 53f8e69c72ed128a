/**
 * Captured names and sorting. Sorting looks only at the inputs of nodes. All its possible results can run exactly if
 * every captured name is known from the start or comes from a node that its reader depends on through inputs.
 */
module SortCaptures {
  import opened OnnxModel
  import opened GraphSemantics
  import opened FreeNames
  import opened ProperNames
  import opened ImportSuccess
  import opened TopologicalSort
  import opened SortMeaning

  // ---------------------------------------------------------------- transitive dependencies

  /** Each element of the path depends directly on the next one. */
  ghost predicate IsPath(preds: seq<seq<int>>, path: seq<int>) {
    forall i :: 0 <= i < |path| - 1 ==> 0 <= path[i] < |preds| && path[i + 1] in preds[path[i]]
  }

  ghost predicate Joins(preds: seq<seq<int>>, path: seq<int>, v: int, p: int) {
    |path| > 1 && IsPath(preds, path) && path[0] == v && path[|path| - 1] == p
  }

  ghost predicate DependsOn(preds: seq<seq<int>>, v: int, p: int) {
    exists path :: Joins(preds, path, v, p)
  }

  lemma ReadyHas(preds: seq<seq<int>>, placed: seq<int>, v: int, p: int)
    requires 0 <= v < |preds| && Ready(preds, Elems(placed), v) && p in preds[v]
    ensures p in placed
  {
  }

  /** In every order, a node comes after all that it depends on. */
  lemma {:induction false} PathGoesBack(preds: seq<seq<int>>, order: seq<int>, path: seq<int>, k: nat)
    requires IsOrder(preds, order) && IsPath(preds, path) && |path| > 1 && k < |order| && order[k] == path[0]
    ensures path[|path| - 1] in order[..k]
    decreases |path|
  {
    var v, p := path[0], path[1];
    assert p in preds[v];
    ReadyHas(preds, order[..k], v, p);
    var j :| 0 <= j < k && order[j] == path[1];
    if |path| > 2 {
      var rest := path[1..];
      assert forall i :: 0 <= i < |rest| ==> rest[i] == path[i + 1];
      PathGoesBack(preds, order, rest, j);
      assert order[..j] == order[..k][..j];
    }
  }

  lemma DependsOnMore(preds: seq<seq<int>>, v: int, u: int, p: int)
    requires DependsOn(preds, v, u) && 0 <= u < |preds| && p in preds[u]
    ensures DependsOn(preds, v, p)
  {
    var path :| Joins(preds, path, v, u);
    var more := path + [p];
    assert forall i :: 0 <= i < |more| - 1 ==> more[i] == path[i];
    assert Joins(preds, more, v, p);
  }

  lemma DependsDirectly(preds: seq<seq<int>>, v: int, p: int)
    requires 0 <= v < |preds| && p in preds[v]
    ensures DependsOn(preds, v, p)
  {
    assert Joins(preds, [v, p], v, p);
  }

  // ---------------------------------------------------------------- moving a closed set of nodes to the front

  /** The elements of an order that belong to the set, or that do not. */
  ghost function Part(order: seq<int>, s: set<int>, inside: bool): seq<int> {
    if order == [] then []
    else
      var n := |order| - 1;
      Part(order[..n], s, inside) + if (order[n] in s) == inside then [order[n]] else []
  }

  lemma {:induction false} PartMembers(order: seq<int>, s: set<int>, inside: bool, x: int)
    ensures x in Part(order, s, inside) <==> x in order && (x in s) == inside
  {
    if order != [] {
      var n := |order| - 1;
      PartMembers(order[..n], s, inside, x);
      assert order == order[..n] + [order[n]];
    }
  }

  lemma {:induction false} PartSizes(order: seq<int>, s: set<int>)
    ensures |Part(order, s, true)| + |Part(order, s, false)| == |order|
  {
    if order != [] {
      PartSizes(order[..|order| - 1], s);
    }
  }

  ghost predicate IsClosed(preds: seq<seq<int>>, s: set<int>) {
    forall u, p :: u in s && 0 <= u < |preds| && p in preds[u] ==> p in s
  }

  lemma PrefixGrows(preds: seq<seq<int>>, order: seq<int>, v: int)
    requires IsOrderPrefix(preds, order) && Ready(preds, Elems(order), v)
    ensures IsOrderPrefix(preds, order + [v])
  {
    var more := order + [v];
    forall k | 0 <= k < |more| ensures Ready(preds, Elems(more[..k]), more[k]) {
      if k < |order| {
        assert more[..k] == order[..k];
        assert Ready(preds, Elems(order[..k]), order[k]);
      } else {
        assert more[..k] == order;
      }
    }
  }

  lemma PrefixOfPrefix(preds: seq<seq<int>>, order: seq<int>, n: nat)
    requires IsOrderPrefix(preds, order) && n <= |order|
    ensures IsOrderPrefix(preds, order[..n])
  {
    forall k | 0 <= k < n ensures Ready(preds, Elems(order[..n][..k]), order[..n][k]) {
      assert order[..n][..k] == order[..k];
      assert Ready(preds, Elems(order[..k]), order[k]);
    }
  }

  lemma {:induction false} InsideIsOrder(preds: seq<seq<int>>, order: seq<int>, s: set<int>)
    requires IsOrderPrefix(preds, order) && IsClosed(preds, s)
    ensures IsOrderPrefix(preds, Part(order, s, true))
  {
    if order != [] {
      var n := |order| - 1;
      PrefixOfPrefix(preds, order, n);
      InsideIsOrder(preds, order[..n], s);
      if order[n] in s {
        assert Ready(preds, Elems(order[..n]), order[n]);
        var front := Part(order[..n], s, true);
        forall p | p in preds[order[n]] ensures p in front {
          PartMembers(order[..n], s, true, p);
        }
        PartMembers(order[..n], s, true, order[n]);
        PrefixGrows(preds, front, order[n]);
      } else {
        assert Part(order, s, true) == Part(order[..n], s, true);
      }
    }
  }

  lemma {:induction false} FrontedIsOrder(preds: seq<seq<int>>, order: seq<int>, s: set<int>, n: nat)
    requires IsOrderPrefix(preds, order) && IsClosed(preds, s) && n <= |order|
    ensures IsOrderPrefix(preds, Part(order, s, true) + Part(order[..n], s, false))
    decreases n
  {
    var front := Part(order, s, true);
    InsideIsOrder(preds, order, s);
    if n == 0 {
      assert order[..0] == [] && front + [] == front;
    } else {
      var v, m := order[n - 1], n - 1;
      FrontedIsOrder(preds, order, s, m);
      assert order[..n][..m] == order[..m] && order[..n][m] == v;
      var back := Part(order[..m], s, false);
      if v !in s {
        assert Ready(preds, Elems(order[..m]), v);
        forall p | p in preds[v] ensures p in front + back {
          assert p in order[..m];
          PartMembers(order, s, true, p);
          PartMembers(order[..m], s, false, p);
        }
        PartMembers(order, s, true, v);
        PartMembers(order[..m], s, false, v);
        PrefixGrows(preds, front + back, v);
        assert front + back + [v] == front + (back + [v]);
      } else {
        assert back + [] == back;
      }
    }
  }

  /** Any order can be changed so that the elements of a closed set come first. */
  lemma Fronted(preds: seq<seq<int>>, order: seq<int>, s: set<int>) returns (fronted: seq<int>)
    requires IsOrder(preds, order) && IsClosed(preds, s)
    ensures IsOrder(preds, fronted) && fronted == Part(order, s, true) + Part(order, s, false)
  {
    fronted := Part(order, s, true) + Part(order, s, false);
    assert order[..|order|] == order;
    FrontedIsOrder(preds, order, s, |order|);
    PartSizes(order, s);
  }

  // ---------------------------------------------------------------- when captures are ready

  lemma {:induction false} ReadyAt(nodes: seq<Node>, visible: set<Name>, i: nat, x: Name)
    requires CapturesAreReady(nodes, visible) && i < |nodes| && x in FreeInAttrs(nodes[i].attrs)
    ensures x in visible || exists j :: 0 <= j < i && x in NameSet(nodes[j].outputs)
    decreases i
  {
    if i > 0 {
      ReadyAt(nodes[1..], visible + NameSet(nodes[0].outputs), i - 1, x);
      if x !in visible && x !in NameSet(nodes[0].outputs) {
        var j :| 0 <= j < i - 1 && x in NameSet(nodes[1..][j].outputs);
        assert x in NameSet(nodes[j + 1].outputs);
      }
    }
  }

  lemma {:induction false} ReadyEverywhere(nodes: seq<Node>, visible: set<Name>)
    requires forall i, x :: 0 <= i < |nodes| && x in FreeInAttrs(nodes[i].attrs) ==>
      x in visible || exists j :: 0 <= j < i && x in NameSet(nodes[j].outputs)
    ensures CapturesAreReady(nodes, visible)
    decreases |nodes|
  {
    if nodes != [] {
      var rest, more := nodes[1..], visible + NameSet(nodes[0].outputs);
      forall i, x | 0 <= i < |rest| && x in FreeInAttrs(rest[i].attrs)
        ensures x in more || exists j :: 0 <= j < i && x in NameSet(rest[j].outputs)
      {
        assert rest[i] == nodes[i + 1];
        if x !in more {
          var j :| 0 <= j < i + 1 && x in NameSet(nodes[j].outputs);
          assert rest[j - 1] == nodes[j];
        }
      }
      ReadyEverywhere(rest, more);
    }
  }

  /** Every captured name is visible, or an output of a node that its reader depends on through inputs. */
  ghost predicate CapturesCovered(nodes: seq<Node>, visible: set<Name>) {
    forall v, x :: 0 <= v < |nodes| && x in FreeInAttrs(nodes[v].attrs) ==>
      x in visible || IsCovered(nodes, visible, v, x)
  }

  ghost predicate IsCovered(nodes: seq<Node>, visible: set<Name>, v: int, x: Name) {
    exists p :: 0 <= p < |nodes| && x in NameSet(nodes[p].outputs) &&
      DependsOn(Dependencies(visible + {""}, nodes), v, p)
  }

  lemma CoveredIsReady(nodes: seq<Node>, visible: set<Name>, order: seq<int>)
    requires CapturesCovered(nodes, visible) && IsOrder(Dependencies(visible + {""}, nodes), order)
    ensures IsPermutation(order, |nodes|) && CapturesAreReady(Reorder(nodes, order), visible)
  {
    var preds := Dependencies(visible + {""}, nodes);
    OrderSorts(visible + {""}, nodes, order);
    var sorted := Reorder(nodes, order);
    forall i, x | 0 <= i < |sorted| && x in FreeInAttrs(sorted[i].attrs)
      ensures x in visible || exists j :: 0 <= j < i && x in NameSet(sorted[j].outputs)
    {
      var v := order[i];
      if x !in visible {
        assert IsCovered(nodes, visible, v, x);
        var p :| 0 <= p < |nodes| && x in NameSet(nodes[p].outputs) && DependsOn(preds, v, p);
        var path :| Joins(preds, path, v, p);
        PathGoesBack(preds, order, path, i);
        var j :| 0 <= j < i && order[j] == p;
        assert x in NameSet(sorted[j].outputs);
      }
    }
    ReadyEverywhere(sorted, visible);
  }

  /** If a captured name is not covered, some sorted arrangement reads it too early. */
  lemma UncoveredCanFail(nodes: seq<Node>, visible: set<Name>, order: seq<int>, v: int, x: Name) returns (bad: seq<int>)
    requires IsOrder(Dependencies(visible + {""}, nodes), order)
    requires 0 <= v < |nodes| && x in FreeInAttrs(nodes[v].attrs) && x !in visible && !IsCovered(nodes, visible, v, x)
    ensures IsOrder(Dependencies(visible + {""}, nodes), bad)
    ensures IsPermutation(bad, |nodes|) && !CapturesAreReady(Reorder(nodes, bad), visible)
  {
    var preds := Dependencies(visible + {""}, nodes);
    var before := set u | 0 <= u < |nodes| && DependsOn(preds, v, u);
    OrderSorts(visible + {""}, nodes, order);
    PermutationIsOnto(order, |nodes|);
    DependenciesAreNodes(preds, order);
    forall u, p | u in before && 0 <= u < |preds| && p in preds[u] ensures p in before {
      DependsOnMore(preds, v, u, p);
    }
    bad := Fronted(preds, order, before + {v}) by {
      forall p | p in preds[v] ensures p in before {
        DependsDirectly(preds, v, p);
      }
    }
    OrderSorts(visible + {""}, nodes, bad);
    PermutationIsOnto(bad, |nodes|);
    assert v in bad;
    var k :| 0 <= k < |bad| && bad[k] == v;
    var sorted := Reorder(nodes, bad);
    if CapturesAreReady(sorted, visible) {
      ReadyAt(sorted, visible, k, x);
      var j :| 0 <= j < k && x in NameSet(sorted[j].outputs);
      EarlierIsNeeded(preds, order, before, v, bad, j, k);
      assert IsCovered(nodes, visible, v, x);
    }
  }

  lemma DependenciesAreNodes(preds: seq<seq<int>>, order: seq<int>)
    requires IsOrder(preds, order) && forall v :: 0 <= v < |preds| ==> v in order
    ensures forall u, p :: 0 <= u < |preds| && p in preds[u] ==> 0 <= p < |preds|
  {
    PrefixIsDistinct(preds, order);
    forall u, p | 0 <= u < |preds| && p in preds[u] ensures 0 <= p < |preds| {
      assert u in order;
      var k :| 0 <= k < |order| && order[k] == u;
      assert Ready(preds, Elems(order[..k]), u);
      assert p in order[..k];
    }
  }

  lemma InFirstOrSecond(a: seq<int>, b: seq<int>, k: nat)
    requires k < |a + b|
    ensures k < |a| || (a + b)[k] in b
  {
  }

  /** After moving, only what `v` depends on stands before it. */
  lemma EarlierIsNeeded(preds: seq<seq<int>>, order: seq<int>, before: set<int>, v: int, bad: seq<int>, j: nat, k: nat)
    requires IsOrder(preds, order) && IsOrder(preds, bad) && j < k < |bad| && bad[k] == v
    requires bad == Part(order, before + {v}, true) + Part(order, before + {v}, false)
    requires forall u :: u in before ==> DependsOn(preds, v, u)
    ensures DependsOn(preds, v, bad[j])
  {
    var front := Part(order, before + {v}, true);
    PartMembers(order, before + {v}, false, v);
    InFirstOrSecond(front, Part(order, before + {v}, false), k);
    assert bad[j] == front[j] && front[j] in front;
    PartMembers(order, before + {v}, true, bad[j]);
    PrefixIsDistinct(preds, bad);
  }

  /**
   * For a single-assignment graph that can be sorted: every sorted arrangement of its nodes can run exactly if every
   * captured name is visible or comes from a node that its reader depends on through inputs.
   */
  lemma AllArrangementsRunIff(nodes: seq<Node>, visible: set<Name>, some: seq<int>)
    requires IsSingleAssignment(nodes, visible)
    requires IsPermutation(some, |nodes|) && Sorted(visible + {""}, Reorder(nodes, some))
    ensures (forall order :: IsPermutation(order, |nodes|) && Sorted(visible + {""}, Reorder(nodes, order)) ==>
               Runnable(Reorder(nodes, order), visible))
        <==> CapturesCovered(nodes, visible)
  {
    var known := visible + {""};
    if CapturesCovered(nodes, visible) {
      forall order | IsPermutation(order, |nodes|) && Sorted(known, Reorder(nodes, order))
        ensures Runnable(Reorder(nodes, order), visible)
      {
        CoveredRuns(nodes, visible, order);
      }
    } else {
      var v, x :| 0 <= v < |nodes| && x in FreeInAttrs(nodes[v].attrs) && x !in visible &&
        !IsCovered(nodes, visible, v, x);
      SortingIsOrder(known, nodes, some);
      var bad := UncoveredCanFail(nodes, visible, some, v, x);
      OrderSorts(known, nodes, bad);
      ReorderIsSingleAssignment(nodes, bad, visible);
      SortedIsRunnable(Reorder(nodes, bad), visible);
    }
  }

  /** A sorted arrangement of a single-assignment graph can run if the captured names are covered. */
  lemma CoveredRuns(nodes: seq<Node>, visible: set<Name>, order: seq<int>)
    requires IsSingleAssignment(nodes, visible) && CapturesCovered(nodes, visible)
    requires IsPermutation(order, |nodes|) && Sorted(visible + {""}, Reorder(nodes, order))
    ensures Runnable(Reorder(nodes, order), visible)
  {
    SortingIsOrder(visible + {""}, nodes, order);
    CoveredIsReady(nodes, visible, order);
    ReorderIsSingleAssignment(nodes, order, visible);
    SortedIsRunnable(Reorder(nodes, order), visible);
  }

  /** All sorted arrangements of a single-assignment graph with covered captures run to the same outcome. */
  lemma ArrangementsAgree(w: World, t: Dispatch, d: nat, k: Context, nodes: seq<Node>, a: seq<int>, b: seq<int>,
                          env: Env)
    requires IsSingleAssignment(nodes, env.Keys) && CapturesCovered(nodes, env.Keys)
    requires IsPermutation(a, |nodes|) && Sorted(env.Keys + {""}, Reorder(nodes, a))
    requires IsPermutation(b, |nodes|) && Sorted(env.Keys + {""}, Reorder(nodes, b))
    ensures EvalNodes(w, t, d, k, Reorder(nodes, a), env, map[]) == EvalNodes(w, t, d, k, Reorder(nodes, b), env, map[])
  {
    CoveredRuns(nodes, env.Keys, a);
    CoveredRuns(nodes, env.Keys, b);
    ReorderIsSingleAssignment(nodes, a, env.Keys);
    ReorderIsSingleAssignment(nodes, b, env.Keys);
    OrdersAgree(w, t, d, k, Reorder(nodes, a), Reorder(nodes, b), env);
  }

  /**
   * A successful sort of a single-assignment graph can run, and it has the same outcome as every other sorted
   * arrangement of the nodes.
   */
  lemma SortPreservesMeaning(w: World, t: Dispatch, d: nat, k: Context, before: seq<Node>, after: seq<Node>,
                             order: seq<int>, other: seq<int>, env: Env)
    requires IsSingleAssignment(before, env.Keys) && CapturesCovered(before, env.Keys)
    requires IsSortOf(env.Keys + {""}, before, after, order)
    requires IsPermutation(other, |before|) && Sorted(env.Keys + {""}, Reorder(before, other))
    ensures Runnable(after, env.Keys)
    ensures EvalNodes(w, t, d, k, after, env, map[]) == EvalNodes(w, t, d, k, Reorder(before, other), env, map[])
  {
    OrderSorts(env.Keys + {""}, before, order);
    CoveredRuns(before, env.Keys, order);
    ArrangementsAgree(w, t, d, k, before, order, other, env);
  }
}
