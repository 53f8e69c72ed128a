/**
 * Operator versions: which version of an operator the importer picks for a graph opset, and which
 * versioned import handlers the generator registers.
 */
module OpVersions {
  import opened Wrappers
  import opened OnnxModel

  /** Name of an import handler: the operator alone for the newest supported version, else operator and version. */
  datatype HandlerKey = HandlerKey(op: string, version: Option<int>)

  ghost predicate Descending(s: seq<int>) {
    forall i, j :: 0 <= i < j < |s| ==> s[i] > s[j]
  }

  /** The first entry (newest first) not above `opset`; the last entry if there is none. */
  function NewestValid(history: seq<int>, opset: int): (r: int)
    requires |history| > 0
    ensures r in history
  {
    if history[0] <= opset || |history| == 1 then history[0] else NewestValid(history[1..], opset)
  }

  /**
   * Searching from the oldest of the first `n` supported versions: the first one at or above `v`, other than the
   * newest.
   */
  function OldestAtLeast(supported: seq<int>, n: nat, v: int): (r: Option<int>)
    requires 0 < |supported| && n <= |supported|
    ensures r.Some? ==> r.value in supported[..n] && r.value >= v && r.value != supported[0]
  {
    if n == 0 then None
    else if supported[n - 1] >= v && supported[n - 1] != supported[0] then Some(supported[n - 1])
    else OldestAtLeast(supported, n - 1, v)
  }

  /** The version suffix of the handler to use; `None` stands for the newest supported version. */
  function VersionSuffix(history: seq<int>, supported: seq<int>, opset: int): (r: Option<int>)
    requires |history| > 0 && |supported| > 0
    ensures r.Some? ==> r.value in supported && r.value != supported[0]
  {
    var v := NewestValid(history, opset);
    if v >= supported[0] then None else OldestAtLeast(supported, |supported|, v)
  }

  function SelectedVersion(history: seq<int>, supported: seq<int>, opset: int): (r: int)
    requires |history| > 0 && |supported| > 0
    ensures r in supported
  {
    match VersionSuffix(history, supported, opset)
    case None => supported[0]
    case Some(v) => v
  }

  method GetImportVersion(history: seq<int>, supported: seq<int>, opset: int) returns (suffix: Option<int>)
    requires |history| > 0 && |supported| > 0
    ensures suffix == VersionSuffix(history, supported, opset)
  {
    var newestValid := history[|history| - 1];
    for i := 0 to |history|
      invariant newestValid == history[|history| - 1]
      invariant i < |history| ==> NewestValid(history, opset) == NewestValid(history[i..], opset)
      invariant i == |history| ==> NewestValid(history, opset) == newestValid
    {
      assert history[i..][1..] == history[i + 1..];
      if history[i] <= opset {
        newestValid := history[i];
        break;
      }
    }
    if newestValid >= supported[0] {
      return None;
    }
    var n := |supported|;
    while n > 0
      invariant 0 <= n <= |supported|
      invariant OldestAtLeast(supported, |supported|, newestValid) == OldestAtLeast(supported, n, newestValid)
    {
      if supported[n - 1] >= newestValid && supported[n - 1] != supported[0] {
        return Some(supported[n - 1]);
      }
      n := n - 1;
    }
    return None;
  }

  // ---------------------------------------------------------------- what the selection means

  lemma {:induction false} NewestValidIsGreatest(history: seq<int>, opset: int)
    requires |history| > 0 && Descending(history)
    ensures var r := NewestValid(history, opset);
      if history[|history| - 1] <= opset
      then r <= opset && forall h :: h in history && h <= opset ==> h <= r
      else r == history[|history| - 1]
  {
    if history[0] <= opset || |history| == 1 {
    } else {
      NewestValidIsGreatest(history[1..], opset);
      assert history == [history[0]] + history[1..];
    }
  }

  lemma {:induction false} OldestAtLeastIsLeast(supported: seq<int>, n: nat, v: int)
    requires 0 < |supported| && n <= |supported| && Descending(supported)
    ensures match OldestAtLeast(supported, n, v)
      case Some(r) => forall s :: s in supported[..n] && s >= v ==> r <= s
      case None => forall s :: s in supported[..n] && s != supported[0] ==> s < v
    decreases n
  {
    if n > 0 {
      assert supported[..n] == supported[..n - 1] + [supported[n - 1]];
      if supported[n - 1] >= v && supported[n - 1] != supported[0] {
      } else {
        OldestAtLeastIsLeast(supported, n - 1, v);
      }
    }
  }

  /** `r` is the least supported version at or above `v`, or the newest supported one if all are below. */
  ghost predicate IsLeastFrom(supported: seq<int>, v: int, r: int)
    requires |supported| > 0
  {
    && r in supported
    && (if v <= supported[0] then r >= v && forall s :: s in supported && s >= v ==> r <= s else r == supported[0])
  }

  lemma SelectionIsLeast(history: seq<int>, supported: seq<int>, opset: int)
    requires |history| > 0 && |supported| > 0 && Descending(history) && Descending(supported)
    ensures IsLeastFrom(supported, NewestValid(history, opset), SelectedVersion(history, supported, opset))
  {
    OldestAtLeastIsLeast(supported, |supported|, NewestValid(history, opset));
    assert supported[..|supported|] == supported;
  }

  /** The selected version is determined by this. */
  lemma LeastIsUnique(supported: seq<int>, v: int, r: int, r': int)
    requires |supported| > 0 && IsLeastFrom(supported, v, r) && IsLeastFrom(supported, v, r')
    ensures r == r'
  {
  }

  /** Versions that are all supported are selected as they are; a compatible one is skipped for a newer one. */
  lemma SelectionExamples()
    ensures Descending([10, 9, 7]) && Descending([10, 7]) && Descending([5, 3])
    ensures SelectedVersion([5, 3], [5, 3], 3) == 3 && SelectedVersion([5, 3], [5, 3], 4) == 3
    ensures SelectedVersion([5, 3], [5, 3], 5) == 5
    ensures SelectedVersion([10, 9, 7], [10, 7], 7) == 7 && SelectedVersion([10, 9, 7], [10, 7], 8) == 7
    ensures SelectedVersion([10, 9, 7], [10, 7], 9) == 10 && SelectedVersion([10, 9, 7], [10, 7], 10) == 10
  {
    forall opset ensures SelectedVersion([5, 3], [5, 3], opset) == if opset >= 5 then 5 else 3 {
      SelectionIsLeast([5, 3], [5, 3], opset);
      NewestValidIsGreatest([5, 3], opset);
    }
    forall opset ensures SelectedVersion([10, 9, 7], [10, 7], opset) == if opset >= 9 then 10 else 7 {
      SelectionIsLeast([10, 9, 7], [10, 7], opset);
      NewestValidIsGreatest([10, 9, 7], opset);
    }
  }

  lemma SelectionIsMonotone(history: seq<int>, supported: seq<int>, opset1: int, opset2: int)
    requires |history| > 0 && |supported| > 0 && Descending(history) && Descending(supported)
    requires opset1 <= opset2
    ensures SelectedVersion(history, supported, opset1) <= SelectedVersion(history, supported, opset2)
  {
    NewestValidIsGreatest(history, opset1);
    NewestValidIsGreatest(history, opset2);
    SelectionIsLeast(history, supported, opset1);
    SelectionIsLeast(history, supported, opset2);
  }

  /** Every schema version is the newest valid one for some graph opset. */
  lemma {:induction false} EveryVersionIsReached(history: seq<int>, h: int)
    requires |history| > 0 && Descending(history) && h in history
    ensures NewestValid(history, h) == h
  {
    NewestValidIsGreatest(history, h);
  }

  // ---------------------------------------------------------------- the generator

  /** The schemas generated for one operator: the history is scanned newest first for the wanted versions, in turn. */
  method ScanVersions(history: seq<int>, wanted: seq<int>) returns (found: bool, processed: seq<int>)
    requires |wanted| > 0 && Descending(history) && Descending(wanted)
    ensures found <==> processed != []
    ensures processed <= wanted
    ensures forall w :: w in processed ==> w in history
    ensures |processed| < |wanted| ==> wanted[|processed|] !in history
  {
    found := false;
    processed := [];
    var counter := 0;
    for i := 0 to |history|
      invariant 0 <= counter < |wanted| && processed == wanted[..counter]
      invariant found <==> processed != []
      invariant forall w :: w in processed ==> w in history[..i]
      invariant wanted[counter] !in history[..i]
    {
      if history[i] == wanted[counter] {
        processed := processed + [history[i]];
        found := true;
        counter := counter + 1;
        if |wanted| == counter {
          break;
        }
        forall k | 0 <= k <= i ensures history[k] != wanted[counter] {
          assert history[k] >= history[i];
        }
      }
    }
  }

  /** Number of leading elements of `wanted` found in `history`. */
  function FoundPrefix(history: seq<int>, wanted: seq<int>): (n: nat)
    ensures n <= |wanted|
    ensures forall i :: 0 <= i < n ==> wanted[i] in history
    ensures n < |wanted| ==> wanted[n] !in history
  {
    if wanted == [] || wanted[0] !in history then 0 else 1 + FoundPrefix(history, wanted[1..])
  }

  lemma ScanFindsPrefix(history: seq<int>, wanted: seq<int>, processed: seq<int>)
    requires processed <= wanted
    requires forall w :: w in processed ==> w in history
    requires |processed| < |wanted| ==> wanted[|processed|] !in history
    ensures processed == wanted[..FoundPrefix(history, wanted)]
  {
    var n := FoundPrefix(history, wanted);
    forall i | 0 <= i < |processed| ensures wanted[i] in history {
      assert wanted[i] == processed[i];
    }
    assert |processed| == n;
  }

  datatype Schema = Schema(op: string, version: int)

  /** Handlers registered for the generated schemas: versioned when the previous schema has the same operator name. */
  function Registered(schemas: seq<Schema>): set<HandlerKey> {
    set i | 0 <= i < |schemas| :: KeyAt(schemas, i)
  }

  function KeyAt(schemas: seq<Schema>, i: nat): HandlerKey
    requires i < |schemas|
  {
    var previous := if i == 0 then "" else schemas[i - 1].op;
    HandlerKey(schemas[i].op, if previous == schemas[i].op then Some(schemas[i].version) else None)
  }

  method RegisterHandlers(schemas: seq<Schema>) returns (handlers: set<HandlerKey>)
    ensures handlers == Registered(schemas)
  {
    handlers := {};
    var previousName := "";
    for i := 0 to |schemas|
      invariant previousName == if i == 0 then "" else schemas[i - 1].op
      invariant handlers == set k | 0 <= k < i :: KeyAt(schemas, k)
    {
      var withVersion := previousName == schemas[i].op;
      var key := HandlerKey(schemas[i].op, if withVersion then Some(schemas[i].version) else None);
      assert key == KeyAt(schemas, i);
      handlers := handlers + {key};
      previousName := schemas[i].op;
    }
  }

  /** The schemas of one operator form one block of the generated list. */
  ghost predicate IsBlock(schemas: seq<Schema>, start: nat, op: string, versions: seq<int>) {
    && start + |versions| <= |schemas|
    && (forall i :: 0 <= i < |schemas| ==> (schemas[i].op == op <==> start <= i < start + |versions|))
    && (forall i :: 0 <= i < |versions| ==> schemas[start + i].version == versions[i])
  }

  /** The selector's handler for an operator at a graph opset. */
  function SelectedKey(op: string, history: seq<int>, supported: seq<int>, opset: int): HandlerKey
    requires |history| > 0 && |supported| > 0
  {
    HandlerKey(op, VersionSuffix(history, supported, opset))
  }

  lemma BlockKeys(schemas: seq<Schema>, start: nat, op: string, versions: seq<int>, version: Option<int>)
    requires op != "" && IsBlock(schemas, start, op, versions)
    ensures HandlerKey(op, version) in Registered(schemas) <==>
      match version
      case None => versions != []
      case Some(v) => versions != [] && v in versions[1..]
  {
    match version
    case None =>
      if versions != [] {
        assert KeyAt(schemas, start) == HandlerKey(op, None);
      }
    case Some(v) =>
      if versions != [] && v in versions[1..] {
        var i :| 0 <= i < |versions[1..]| && versions[1..][i] == v;
        assert schemas[start + i].op == op && schemas[start + i + 1].op == op;
        assert schemas[start + (i + 1)].version == versions[i + 1];
        assert KeyAt(schemas, start + i + 1) == HandlerKey(op, version);
      }
      if HandlerKey(op, version) in Registered(schemas) {
        var k :| 0 <= k < |schemas| && KeyAt(schemas, k) == HandlerKey(op, version);
        assert schemas[k].op == op && k > 0 && schemas[k - 1].op == op;
        assert schemas[start + (k - start)].version == versions[k - start];
        assert versions[1..][k - start - 1] == v;
      }
  }

  /**
   * The generated table has a handler for every name the selector can return, exactly when the newest
   * supported version is in the schema history and every supported version missing from the history is
   * older than the whole history.
   */
  lemma GeneratorCoversSelector(schemas: seq<Schema>, start: nat, op: string, history: seq<int>, supported: seq<int>)
    requires op != "" && |history| > 0 && |supported| > 0 && Descending(history) && Descending(supported)
    requires IsBlock(schemas, start, op, supported[..FoundPrefix(history, supported)])
    ensures (forall opset :: SelectedKey(op, history, supported, opset) in Registered(schemas)) <==>
      && supported[0] in history
      && forall w, h :: w in supported && w !in history && h in history ==> w < h
  {
    var n := FoundPrefix(history, supported);
    var versions := supported[..n];
    if supported[0] in history && forall w, h :: w in supported && w !in history && h in history ==> w < h {
      forall opset ensures SelectedKey(op, history, supported, opset) in Registered(schemas) {
        SelectedIsRegistered(schemas, start, op, history, supported, opset);
      }
    }
    if forall opset :: SelectedKey(op, history, supported, opset) in Registered(schemas) {
      assert SelectedKey(op, history, supported, 0) in Registered(schemas);
      BlockKeys(schemas, start, op, versions, VersionSuffix(history, supported, 0));
      assert n > 0 && supported[0] in history;
      forall w, h | w in supported && w !in history && h in history ensures w < h {
        assert SelectedKey(op, history, supported, h) in Registered(schemas);
        RegisteredIsNewer(schemas, start, op, history, supported, w, h);
      }
    }
  }

  lemma SelectedIsRegistered(schemas: seq<Schema>, start: nat, op: string, history: seq<int>, supported: seq<int>,
                             opset: int)
    requires op != "" && |history| > 0 && |supported| > 0 && Descending(history) && Descending(supported)
    requires IsBlock(schemas, start, op, supported[..FoundPrefix(history, supported)])
    requires supported[0] in history
    requires forall w, h :: w in supported && w !in history && h in history ==> w < h
    ensures SelectedKey(op, history, supported, opset) in Registered(schemas)
  {
    var n := FoundPrefix(history, supported);
    var suffix := VersionSuffix(history, supported, opset);
    BlockKeys(schemas, start, op, supported[..n], suffix);
    SelectionIsLeast(history, supported, opset);
    if suffix.Some? {
      var i :| 0 <= i < |supported| && supported[i] == suffix.value;
      assert i > 0;
      if n < |supported| {
        assert supported[n] < NewestValid(history, opset);
      }
      assert i < n;
      assert supported[..n][1..][i - 1] == suffix.value;
    }
  }

  lemma RegisteredIsNewer(schemas: seq<Schema>, start: nat, op: string, history: seq<int>, supported: seq<int>, w: int,
                          h: int)
    requires op != "" && |history| > 0 && |supported| > 0 && Descending(history) && Descending(supported)
    requires IsBlock(schemas, start, op, supported[..FoundPrefix(history, supported)])
    requires FoundPrefix(history, supported) > 0
    requires w in supported && w !in history && h in history
    requires SelectedKey(op, history, supported, h) in Registered(schemas)
    ensures w < h
  {
    var n := FoundPrefix(history, supported);
    EveryVersionIsReached(history, h);
    SelectionIsLeast(history, supported, h);
    BlockKeys(schemas, start, op, supported[..n], VersionSuffix(history, supported, h));
    var c := SelectedVersion(history, supported, h);
    assert c in supported[..n];
    var i :| 0 <= i < n && supported[i] == c;
    var j :| 0 <= j < |supported| && supported[j] == w;
    assert j >= n;
    assert w < c;
  }
}
