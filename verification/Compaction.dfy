/**
 * Collecting what is found and leaving out what is not. The importer does so with the inputs of operations and with the
 * outputs of calls, and then goes by position.
 */
module Compaction {
  import opened Wrappers

  /** The found values, without gaps. */
  function Compact<T>(found: seq<Option<T>>): (r: seq<T>)
    ensures |r| <= |found|
  {
    if found == [] then []
    else (if found[0].Some? then [found[0].value] else []) + Compact(found[1..])
  }

  /** Every value is still at its position. */
  ghost predicate Aligned<T>(found: seq<Option<T>>) {
    forall i :: 0 <= i < |found| && found[i].Some? ==> i < |Compact(found)| && Compact(found)[i] == found[i].value
  }

  /** Nothing missing comes before something found. */
  ghost predicate GapFree<T>(found: seq<Option<T>>) {
    forall i, j :: 0 <= i < j < |found| && found[j].Some? ==> found[i].Some?
  }

  lemma {:induction false} CompleteIff<T>(found: seq<Option<T>>)
    ensures |Compact(found)| == |found| <==> forall i :: 0 <= i < |found| ==> found[i].Some?
  {
    if found != [] {
      CompleteIff(found[1..]);
      assert forall i :: 0 <= i < |found[1..]| ==> found[1..][i] == found[i + 1];
      assert forall i :: 1 <= i < |found| ==> found[i] == found[1..][i - 1];
    }
  }

  lemma {:induction false} FewAreFound<T>(found: seq<Option<T>>, n: nat)
    requires n <= |found| && forall i :: n <= i < |found| ==> found[i].None?
    ensures |Compact(found)| <= n
    decreases |found|
  {
    if found != [] {
      var rest := found[1..];
      assert forall i :: 0 <= i < |rest| ==> rest[i] == found[i + 1];
      FewAreFound(rest, if n == 0 then 0 else n - 1);
    }
  }

  lemma {:induction false} GapCosts<T>(found: seq<Option<T>>, gap: nat, n: nat)
    requires gap < n <= |found| && found[gap].None? && forall i :: n <= i < |found| ==> found[i].None?
    ensures |Compact(found)| < n
    decreases |found|
  {
    var rest := found[1..];
    assert forall i :: 0 <= i < |rest| ==> rest[i] == found[i + 1];
    if gap == 0 {
      FewAreFound(rest, n - 1);
    } else {
      GapCosts(rest, gap - 1, n - 1);
    }
  }

  /** The last value found after a gap would lie beyond the collected values. */
  lemma {:induction false} NothingAfterGap<T>(found: seq<Option<T>>, gap: nat, n: nat)
    requires Aligned(found) && gap < n <= |found| && found[gap].None?
    requires forall i :: n <= i < |found| ==> found[i].None?
    ensures forall i :: gap <= i < |found| ==> found[i].None?
    decreases n
  {
    if n > gap + 1 {
      GapCosts(found, gap, n);
      assert found[n - 1].None?;
      NothingAfterGap(found, gap, n - 1);
    }
  }

  lemma {:induction false} FrontIsAligned<T>(found: seq<Option<T>>)
    requires GapFree(found)
    ensures Aligned(found)
  {
    if found != [] {
      var rest := found[1..];
      assert forall i :: 0 <= i < |rest| ==> rest[i] == found[i + 1];
      FrontIsAligned(rest);
      forall i | 0 <= i < |found| && found[i].Some?
        ensures i < |Compact(found)| && Compact(found)[i] == found[i].value {
        if i > 0 {
          assert found[0].Some? && rest[i - 1] == found[i];
          assert Compact(found)[i] == Compact(rest)[i - 1];
        }
      }
    }
  }

  /** Positions are kept exactly if nothing missing comes before something found. */
  lemma AlignedIff<T>(found: seq<Option<T>>)
    ensures Aligned(found) <==> GapFree(found)
  {
    if GapFree(found) {
      FrontIsAligned(found);
    }
    if Aligned(found) {
      forall i, j | 0 <= i < j < |found| && found[j].Some? ensures found[i].Some? {
        if found[i].None? {
          NothingAfterGap(found, i, |found|);
        }
      }
    }
  }
}
