/**
 * Operator spans of the profiled code: markers are sorted and paired into spans, a binary-search index finds the
 * span of an address, and samples are attributed to operators.
 */
module OpSpans {

  import opened Wrappers
  import SampleDump

  /** A begin or end marker: a named range of addresses. */
  datatype Marker = Marker(name: string, low: int, high: int)

  /** An operator's code: its body is [body, end). */
  datatype Span = Span(op: string, node: string, begin: int, end: int, body: int)

  const PREFIX_LENGTH: nat := 7

  // ---------------------------------------------------------------- stable sort

  /** Puts `x` behind every element whose key is not greater. */
  function InsertBy<T>(sorted: seq<T>, x: T, key: T -> int): seq<T> {
    var n := |sorted|;
    if n == 0 || key(sorted[n - 1]) <= key(x) then sorted + [x]
    else InsertBy(sorted[..n - 1], x, key) + [sorted[n - 1]]
  }

  function SortBy<T>(s: seq<T>, key: T -> int): seq<T> {
    if s == [] then [] else InsertBy(SortBy(s[..|s| - 1], key), s[|s| - 1], key)
  }

  ghost predicate SortedBy<T(!new)>(s: seq<T>, key: T -> int) {
    forall i, j :: 0 <= i < j < |s| ==> key(s[i]) <= key(s[j])
  }

  lemma {:induction false} InsertKeepsElements<T>(sorted: seq<T>, x: T, key: T -> int)
    ensures multiset(InsertBy(sorted, x, key)) == multiset(sorted) + multiset{x}
  {
    var n := |sorted|;
    if n > 0 && key(sorted[n - 1]) > key(x) {
      InsertKeepsElements(sorted[..n - 1], x, key);
      assert sorted == sorted[..n - 1] + [sorted[n - 1]];
    }
  }

  lemma {:induction false} InsertKeepsSorted<T(!new)>(sorted: seq<T>, x: T, key: T -> int)
    requires SortedBy(sorted, key)
    ensures SortedBy(InsertBy(sorted, x, key), key)
  {
    var n := |sorted|;
    if n > 0 && key(sorted[n - 1]) > key(x) {
      var last, front := sorted[n - 1], InsertBy(sorted[..n - 1], x, key);
      InsertKeepsSorted(sorted[..n - 1], x, key);
      InsertKeepsElements(sorted[..n - 1], x, key);
      forall i | 0 <= i < |front| ensures key(front[i]) <= key(last) {
        assert front[i] in multiset(front);
        assert front[i] == x || front[i] in sorted[..n - 1];
      }
    }
  }

  /** Sorting yields the same elements in the order of their keys. */
  lemma {:induction false} SortSorts<T(!new)>(s: seq<T>, key: T -> int)
    ensures SortedBy(SortBy(s, key), key) && multiset(SortBy(s, key)) == multiset(s)
  {
    if s != [] {
      var n := |s| - 1;
      SortSorts(s[..n], key);
      InsertKeepsSorted(SortBy(s[..n], key), s[n], key);
      InsertKeepsElements(SortBy(s[..n], key), s[n], key);
      assert s == s[..n] + [s[n]];
    }
  }

  /** A symmetric relation that holds between all elements of a list still does after sorting it. */
  ghost predicate Pairwise<T(!new)>(s: seq<T>, related: (T, T) -> bool) {
    forall i, j :: 0 <= i < |s| && 0 <= j < |s| && i != j ==> related(s[i], s[j])
  }

  lemma {:induction false} InsertKeepsPairwise<T(!new)>(sorted: seq<T>, x: T, key: T -> int, related: (T, T) -> bool)
    requires Pairwise(sorted, related)
    requires forall i :: 0 <= i < |sorted| ==> related(sorted[i], x) && related(x, sorted[i])
    ensures Pairwise(InsertBy(sorted, x, key), related)
  {
    var n := |sorted|;
    if n > 0 && key(sorted[n - 1]) > key(x) {
      var last, front := sorted[n - 1], InsertBy(sorted[..n - 1], x, key);
      InsertKeepsPairwise(sorted[..n - 1], x, key, related);
      InsertKeepsElements(sorted[..n - 1], x, key);
      forall i | 0 <= i < |front| ensures related(front[i], last) && related(last, front[i]) {
        assert front[i] in multiset(front);
        assert front[i] == x || front[i] in sorted[..n - 1];
      }
    }
  }

  lemma {:induction false} SortKeepsPairwise<T(!new)>(s: seq<T>, key: T -> int, related: (T, T) -> bool)
    requires Pairwise(s, related)
    ensures Pairwise(SortBy(s, key), related)
  {
    if s != [] {
      var n := |s| - 1;
      var front := SortBy(s[..n], key);
      SortKeepsPairwise(s[..n], key, related);
      SortSorts(s[..n], key);
      forall i | 0 <= i < |front| ensures related(front[i], s[n]) && related(s[n], front[i]) {
        assert front[i] in multiset(s[..n]);
      }
      InsertKeepsPairwise(front, s[n], key, related);
    }
  }

  // ---------------------------------------------------------------- pairing markers

  function LowOf(m: Marker): int { m.low }

  function BodyOf(s: Span): int { s.body }

  function Payload(name: string): string {
    if |name| < PREFIX_LENGTH then "" else name[PREFIX_LENGTH..]
  }

  /** Position of the first colon, or the length. */
  function Colon(s: string): (i: nat)
    ensures i <= |s| && ':' !in s[..i] && (i < |s| ==> s[i] == ':')
  {
    if s == "" || s[0] == ':' then 0
    else
      var i := 1 + Colon(s[1..]);
      assert s[..i] == [s[0]] + s[1..][..i - 1];
      i
  }

  /** A marker whose payload is an operator and a node, separated by a colon. */
  predicate Named(m: Marker) { ':' in Payload(m.name) }

  function OpName(payload: string): string { payload[..Colon(payload)] }

  function NodeName(payload: string): string {
    if Colon(payload) < |payload| then payload[Colon(payload) + 1..] else ""
  }

  function SpanOf(a: Marker, b: Marker): Span {
    Span(OpName(Payload(a.name)), NodeName(Payload(a.name)), a.low, b.low, a.high)
  }

  /** The two names are the payload, cut at its first colon. */
  lemma NamesOfPayload(payload: string)
    requires ':' in payload
    ensures payload == OpName(payload) + ":" + NodeName(payload) && ':' !in OpName(payload)
  {
    assert Colon(payload) < |payload| by {
      assert payload[..|payload|] == payload;
    }
  }

  datatype Pairing = Pairing(spans: seq<Span>, unpaired: nat)

  function Pair(subs: seq<Marker>): Pairing {
    if subs == [] then Pairing([], 0)
    else if |subs| > 1 && subs[1].name == subs[0].name then
      var rest := Pair(subs[2..]);
      if Named(subs[0]) then Pairing([SpanOf(subs[0], subs[1])] + rest.spans, rest.unpaired)
      else Pairing(rest.spans, rest.unpaired + 2)
    else
      var rest := Pair(subs[1..]);
      Pairing(rest.spans, rest.unpaired + 1)
  }

  method ExtractOpSpans(markers: seq<Marker>) returns (spans: seq<Span>, unpaired: nat)
    ensures Pairing(spans, unpaired) == Pair(SortBy(markers, LowOf))
    ensures 2 * |spans| + unpaired == |markers|
  {
    var subs := SortBy(markers, LowOf);
    SortSorts(markers, LowOf);
    assert |subs| == |multiset(subs)| == |markers|;
    spans, unpaired := PairMarkers(subs);
  }

  method PairMarkers(subs: seq<Marker>) returns (spans: seq<Span>, unpaired: nat)
    ensures Pairing(spans, unpaired) == Pair(subs)
    ensures 2 * |spans| + unpaired == |subs|
  {
    spans, unpaired := [], 0;
    var i := 0;
    assert subs[0..] == subs;
    while i < |subs|
      invariant i <= |subs|
      invariant Pair(subs) == Continued(Pairing(spans, unpaired), Pair(subs[i..]))
      invariant 2 * |spans| + unpaired == i
    {
      var a := subs[i];
      ghost var before := Pairing(spans, unpaired);
      if i + 1 < |subs| && subs[i + 1].name == a.name {
        PairTakesTwo(subs, i, before);
        if !Named(a) {
          unpaired := unpaired + 2;
        } else {
          spans := spans + [SpanOf(a, subs[i + 1])];
        }
        i := i + 2;
      } else {
        PairSkipsOne(subs, i, before);
        unpaired := unpaired + 1;
        i := i + 1;
      }
    }
  }

  ghost function Continued(p: Pairing, q: Pairing): Pairing { Pairing(p.spans + q.spans, p.unpaired + q.unpaired) }

  lemma PairTakesTwo(subs: seq<Marker>, i: nat, before: Pairing)
    requires i + 1 < |subs| && subs[i + 1].name == subs[i].name
    ensures Continued(before, Pair(subs[i..]))
         == Continued(if Named(subs[i]) then Pairing(before.spans + [SpanOf(subs[i], subs[i + 1])], before.unpaired)
                      else Pairing(before.spans, before.unpaired + 2),
                      Pair(subs[i + 2..]))
  {
    assert subs[i..][2..] == subs[i + 2..];
    var rest := Pair(subs[i + 2..]).spans;
    var span := SpanOf(subs[i], subs[i + 1]);
    assert before.spans + ([span] + rest) == (before.spans + [span]) + rest;
  }

  lemma PairSkipsOne(subs: seq<Marker>, i: nat, before: Pairing)
    requires i < |subs| && !(i + 1 < |subs| && subs[i + 1].name == subs[i].name)
    ensures Continued(before, Pair(subs[i..]))
         == Continued(Pairing(before.spans, before.unpaired + 1), Pair(subs[i + 1..]))
  {
    assert subs[i..][1..] == subs[i + 1..];
  }

  /** Every span lies between two neighbouring markers of one name. */
  lemma {:induction false} SpanComesFromPair(subs: seq<Marker>, k: nat) returns (i: nat)
    requires k < |Pair(subs).spans|
    ensures i + 1 < |subs| && subs[i].name == subs[i + 1].name && Named(subs[i])
    ensures Pair(subs).spans[k] == SpanOf(subs[i], subs[i + 1])
  {
    if |subs| > 1 && subs[1].name == subs[0].name {
      if !Named(subs[0]) {
        i := SpanComesFromPair(subs[2..], k);
        i := i + 2;
      } else if k == 0 {
        i := 0;
      } else {
        i := SpanComesFromPair(subs[2..], k - 1);
        i := i + 2;
      }
    } else {
      i := SpanComesFromPair(subs[1..], k);
      i := i + 1;
    }
  }

  /** One execution of an operator's code: its begin marker and its end marker. */
  datatype Invocation = Invocation(begin: Marker, end: Marker)

  ghost predicate WellMarked(v: Invocation) { v.begin.name == v.end.name && Named(v.begin) }

  function Marks(code: seq<Invocation>): seq<Marker> {
    if code == [] then [] else [code[0].begin, code[0].end] + Marks(code[1..])
  }

  lemma FirstIsRecovered(code: seq<Invocation>)
    requires code != [] && WellMarked(code[0])
    ensures var rest := Pair(Marks(code[1..]));
      Pair(Marks(code)) == Pairing([SpanOf(code[0].begin, code[0].end)] + rest.spans, rest.unpaired)
  {
    var marks := Marks(code);
    assert marks[0] == code[0].begin && marks[1] == code[0].end && marks[2..] == Marks(code[1..]);
  }

  /** The spans between begin and end of each invocation. */
  function SpansOf(code: seq<Invocation>): (r: seq<Span>)
    ensures |r| == |code| && forall i :: 0 <= i < |code| ==> r[i] == SpanOf(code[i].begin, code[i].end)
  {
    if code == [] then [] else [SpanOf(code[0].begin, code[0].end)] + SpansOf(code[1..])
  }

  /** Code whose operators follow each other is recovered span by span, and nothing stays unpaired. */
  lemma {:induction false} PairsAreRecovered(code: seq<Invocation>)
    requires forall i :: 0 <= i < |code| ==> WellMarked(code[i])
    ensures Pair(Marks(code)) == Pairing(SpansOf(code), 0)
  {
    if code != [] {
      assert forall i :: 0 <= i < |code[1..]| ==> code[1..][i] == code[i + 1];
      PairsAreRecovered(code[1..]);
      FirstIsRecovered(code);
    }
  }

  /** The name of the markers of an operator's invocation. */
  function MarkerName(op: string, node: string): string { "__omip:" + op + ":" + node }

  lemma {:induction false} ColonBehind(op: string, rest: string)
    requires ':' !in op
    ensures Colon(op + ":" + rest) == |op|
  {
    if op == [] {
      assert op + ":" + rest == ":" + rest;
    } else {
      assert (op + ":" + rest)[1..] == op[1..] + ":" + rest && op[0] != ':';
      assert forall c :: c in op[1..] ==> c in op;
      ColonBehind(op[1..], rest);
    }
  }

  /** Two markers of an operator's invocation give a span with its operator and node, from one marker to the other. */
  lemma MarkedSpan(op: string, node: string, low: int, high: int, low': int, high': int)
    requires ':' !in op
    ensures var a, b := Marker(MarkerName(op, node), low, high), Marker(MarkerName(op, node), low', high');
      Named(a) && SpanOf(a, b) == Span(op, node, low, low', high)
  {
    var payload := op + ":" + node;
    assert MarkerName(op, node)[PREFIX_LENGTH..] == payload;
    ColonBehind(op, node);
    assert payload[|op|] == ':' && payload[..|op|] == op && payload[|op| + 1..] == node;
  }

  /** An invocation of an operator: its names, and the addresses of its two markers. */
  datatype Run = Run(op: string, node: string, low: int, high: int, low': int, high': int)

  function MarksOf(run: Run): Invocation {
    Invocation(Marker(MarkerName(run.op, run.node), run.low, run.high),
               Marker(MarkerName(run.op, run.node), run.low', run.high'))
  }

  /** Whole code of such invocations, one behind the other, gives exactly their spans. */
  lemma RunsAreRecovered(runs: seq<Run>, code: seq<Invocation>)
    requires |code| == |runs|
    requires forall i :: 0 <= i < |runs| ==> ':' !in runs[i].op && code[i] == MarksOf(runs[i])
    ensures Pair(Marks(code)).unpaired == 0 && |Pair(Marks(code)).spans| == |runs|
    ensures forall i :: 0 <= i < |runs| ==>
      Pair(Marks(code)).spans[i] == Span(runs[i].op, runs[i].node, runs[i].low, runs[i].low', runs[i].high)
  {
    forall i | 0 <= i < |runs|
      ensures WellMarked(code[i])
      ensures SpanOf(code[i].begin, code[i].end) == Span(runs[i].op, runs[i].node, runs[i].low, runs[i].low',
        runs[i].high)
    {
      MarkedSpan(runs[i].op, runs[i].node, runs[i].low, runs[i].high, runs[i].low', runs[i].high');
    }
    PairsAreRecovered(code);
  }

  // ---------------------------------------------------------------- the order of spans

  /** The one that begins first ends before the other begins. */
  predicate MarkersApart(a: Marker, b: Marker) { (a.low <= b.low ==> a.high <= b.low) &&
      (b.low <= a.low ==> b.high <= a.low) }

  /** Every marker ends at or behind its begin, as the reader of the debug information ensures. */
  ghost predicate ForwardMarkers(markers: seq<Marker>) { forall i :: 0 <= i < |markers| ==>
      markers[i].low <= markers[i].high }

  ghost predicate DisjointMarkers(markers: seq<Marker>) { ForwardMarkers(markers) && Pairwise(markers, MarkersApart) }

  /** Each span ends before the bodies of all later ones. */
  ghost predicate Follow(spans: seq<Span>) { forall i, j :: 0 <= i < j < |spans| ==> spans[i].end <= spans[j].body }

  /** Spans one behind the other; they may touch, and be empty. */
  ghost predicate Tidy(spans: seq<Span>) { Follow(spans) && forall i :: 0 <= i < |spans| ==>
      spans[i].body <= spans[i].end }

  lemma {:induction false} PairFollows(subs: seq<Marker>, from: int)
    requires SortedBy(subs, LowOf) && ForwardMarkers(subs) && (subs == [] || from <= subs[0].low)
    ensures var spans := Pair(subs).spans; Follow(spans) && forall i :: 0 <= i < |spans| ==> from <= spans[i].body
  {
    if subs != [] {
      if |subs| > 1 && subs[1].name == subs[0].name {
        var rest := Pair(subs[2..]).spans;
        assert LowOf(subs[0]) <= LowOf(subs[1]);
        if |subs| > 2 {
          assert LowOf(subs[1]) <= LowOf(subs[2]);
        }
        PairFollows(subs[2..], subs[1].low);
        if Named(subs[0]) {
          FollowCons(SpanOf(subs[0], subs[1]), rest);
        }
      } else {
        if |subs| > 1 {
          assert LowOf(subs[0]) <= LowOf(subs[1]);
        }
        PairFollows(subs[1..], subs[0].low);
      }
    }
  }

  lemma FollowCons(first: Span, rest: seq<Span>)
    requires Follow(rest) && forall i :: 0 <= i < |rest| ==> first.end <= rest[i].body
    ensures Follow([first] + rest)
  {
  }

  /** Whether markers overlap or not: every extracted span ends before the bodies of those behind it. */
  lemma ExtractedSpansFollow(markers: seq<Marker>)
    requires ForwardMarkers(markers)
    ensures Follow(Pair(SortBy(markers, LowOf)).spans)
  {
    var subs := SortBy(markers, LowOf);
    SortSorts(markers, LowOf);
    forall i | 0 <= i < |subs| ensures subs[i].low <= subs[i].high {
      assert subs[i] in multiset(markers);
    }
    PairFollows(subs, if subs == [] then 0 else subs[0].low);
  }

  /** Markers that do not overlap, in any order, give spans one behind the other. */
  lemma DisjointMarkersGiveTidySpans(markers: seq<Marker>)
    requires DisjointMarkers(markers)
    ensures Tidy(Pair(SortBy(markers, LowOf)).spans)
  {
    var subs := SortBy(markers, LowOf);
    ExtractedSpansFollow(markers);
    SortSorts(markers, LowOf);
    SortKeepsPairwise(markers, LowOf, MarkersApart);
    var spans := Pair(subs).spans;
    forall k | 0 <= k < |spans| ensures spans[k].body <= spans[k].end {
      var i := SpanComesFromPair(subs, k);
      assert LowOf(subs[i]) <= LowOf(subs[i + 1]) && MarkersApart(subs[i], subs[i + 1]);
    }
  }

  // ---------------------------------------------------------------- the binary-search index

  /** The number of spans, of a list in body order, whose body starts at or before `addr`. */
  function Started(spans: seq<Span>, addr: int): (r: nat)
    ensures r <= |spans| && (r > 0 ==> spans[r - 1].body <= addr)
  {
    var n := |spans|;
    if n == 0 || spans[n - 1].body <= addr then n else Started(spans[..n - 1], addr)
  }

  function Lookup(spans: seq<Span>, addr: int): Option<string> {
    var r := Started(spans, addr);
    if r == 0 || addr >= spans[r - 1].end then None else Some(spans[r - 1].op)
  }

  /** The operator of an address: a lookup in the spans ordered by their bodies. */
  function OpAt(spans: seq<Span>, addr: int): Option<string> { Lookup(SortBy(spans, BodyOf), addr) }

  /** `bisect.bisect_right` over the bodies. */
  method BisectRight(sorted: seq<Span>, addr: int) returns (lo: nat)
    requires SortedBy(sorted, BodyOf)
    ensures lo == Started(sorted, addr)
  {
    lo := 0;
    var hi := |sorted|;
    while lo < hi
      invariant lo <= hi <= |sorted|
      invariant forall i :: 0 <= i < lo ==> sorted[i].body <= addr
      invariant forall i :: hi <= i < |sorted| ==> sorted[i].body > addr
    {
      var mid := (lo + hi) / 2;
      assert forall i :: 0 <= i < mid ==> BodyOf(sorted[i]) <= BodyOf(sorted[mid]);
      assert forall i :: mid < i < |sorted| ==> BodyOf(sorted[mid]) <= BodyOf(sorted[i]);
      if addr < sorted[mid].body { hi := mid; } else { lo := mid + 1; }
    }
    StartedIs(sorted, addr, lo);
  }

  method LookupOp(sorted: seq<Span>, addr: int) returns (op: Option<string>)
    requires SortedBy(sorted, BodyOf)
    ensures op == Lookup(sorted, addr)
  {
    var r := BisectRight(sorted, addr);
    if r == 0 || addr >= sorted[r - 1].end { op := None; } else { op := Some(sorted[r - 1].op); }
  }

  lemma {:induction false} StartedIs(spans: seq<Span>, addr: int, r: nat)
    requires r <= |spans| && forall i :: 0 <= i < r ==> spans[i].body <= addr
    requires forall i :: r <= i < |spans| ==> spans[i].body > addr
    ensures Started(spans, addr) == r
  {
    if r < |spans| {
      StartedIs(spans[..|spans| - 1], addr, r);
    }
  }

  predicate Covers(s: Span, addr: int) { s.body <= addr < s.end }

  /** A linear scan: the first span that covers the address. */
  function Scan(spans: seq<Span>, addr: int): Option<string> {
    if spans == [] then None
    else if Covers(spans[0], addr) then Some(spans[0].op)
    else Scan(spans[1..], addr)
  }

  lemma {:induction false} ScanFinds(spans: seq<Span>, addr: int, i: nat)
    requires i < |spans| && Covers(spans[i], addr) && forall j :: 0 <= j < i ==> !Covers(spans[j], addr)
    ensures Scan(spans, addr) == Some(spans[i].op)
  {
    if i > 0 {
      ScanFinds(spans[1..], addr, i - 1);
    }
  }

  /** For every list of spans, what the index finds does cover the address. */
  lemma LookupIsSound(spans: seq<Span>, addr: int) returns (k: nat)
    requires OpAt(spans, addr).Some?
    ensures k < |spans| && Covers(spans[k], addr) && OpAt(spans, addr) == Some(spans[k].op)
  {
    var sorted := SortBy(spans, BodyOf);
    SortSorts(spans, BodyOf);
    var s := sorted[Started(sorted, addr) - 1];
    assert s in multiset(spans);
    k :| 0 <= k < |spans| && spans[k] == s;
  }

  lemma {:induction false} ScanIff(spans: seq<Span>, addr: int)
    ensures Scan(spans, addr).Some? <==> exists i :: 0 <= i < |spans| && Covers(spans[i], addr)
  {
    if spans != [] {
      ScanIff(spans[1..], addr);
      assert forall i :: 1 <= i < |spans| ==> spans[i] == spans[1..][i - 1];
      assert forall i :: 0 <= i < |spans[1..]| ==> spans[1..][i] == spans[i + 1];
    }
  }

  lemma ScanSorted(spans: seq<Span>, addr: int)
    ensures Scan(SortBy(spans, BodyOf), addr).Some? <==> Scan(spans, addr).Some?
  {
    var sorted := SortBy(spans, BodyOf);
    SortSorts(spans, BodyOf);
    ScanIff(spans, addr);
    ScanIff(sorted, addr);
    forall i | 0 <= i < |spans| && Covers(spans[i], addr)
      ensures exists j :: 0 <= j < |sorted| && Covers(sorted[j], addr) {
      assert spans[i] in multiset(sorted);
    }
    forall j | 0 <= j < |sorted| && Covers(sorted[j], addr)
      ensures exists i :: 0 <= i < |spans| && Covers(spans[i], addr) {
      assert sorted[j] in multiset(spans);
    }
  }

  // ---------------------------------------------------------------- when the index finds what a scan finds

  function Max(a: int, b: int): int { if a < b then b else a }

  /** In body order, span j still goes on where span k is over, and span k is the last one started there. */
  predicate Hides(sorted: seq<Span>, j: int, k: int) {
    0 <= j < k < |sorted| &&
    var from := Max(sorted[k].body, sorted[k].end);
    from < sorted[j].end && (k + 1 < |sorted| ==> from < sorted[k + 1].body)
  }

  ghost predicate NothingHidden(sorted: seq<Span>) { forall j, k :: !Hides(sorted, j, k) }

  lemma HiddenIsMissed(sorted: seq<Span>, j: int, k: int)
    requires SortedBy(sorted, BodyOf) && Hides(sorted, j, k)
    ensures var addr := Max(sorted[k].body, sorted[k].end); Covers(sorted[j], addr) && Lookup(sorted, addr) == None
  {
    var addr := Max(sorted[k].body, sorted[k].end);
    forall i | 0 <= i < k + 1 ensures sorted[i].body <= addr {
      assert i < k ==> BodyOf(sorted[i]) <= BodyOf(sorted[k]);
    }
    forall i | k + 1 <= i < |sorted| ensures sorted[i].body > addr {
      assert k + 1 < i ==> BodyOf(sorted[k + 1]) <= BodyOf(sorted[i]);
    }
    StartedIs(sorted, addr, k + 1);
  }

  lemma {:induction false} StartedCounts(sorted: seq<Span>, addr: int, i: nat)
    requires SortedBy(sorted, BodyOf) && i < |sorted|
    ensures i < Started(sorted, addr) <==> sorted[i].body <= addr
  {
    var n := |sorted| - 1;
    if sorted[n].body > addr {
      if i < n {
        StartedCounts(sorted[..n], addr, i);
      }
    } else {
      assert i < n ==> BodyOf(sorted[i]) <= BodyOf(sorted[n]);
    }
  }

  lemma MissedIsHidden(sorted: seq<Span>, addr: int, j: nat)
    requires SortedBy(sorted, BodyOf) && j < |sorted| && Covers(sorted[j], addr) && Lookup(sorted, addr) == None
    ensures Hides(sorted, j, Started(sorted, addr) - 1)
  {
    var r := Started(sorted, addr);
    StartedCounts(sorted, addr, j);
    if r < |sorted| {
      StartedCounts(sorted, addr, r);
    }
  }

  /**
   * For every list of spans: the index finds a span wherever a scan does exactly if no span is hidden by a later one.
   */
  lemma LookupFindsIff(spans: seq<Span>)
    ensures (forall addr :: Scan(spans, addr).Some? ==> OpAt(spans, addr).Some?) <==>
      NothingHidden(SortBy(spans, BodyOf))
  {
    var sorted := SortBy(spans, BodyOf);
    SortSorts(spans, BodyOf);
    if forall addr :: Scan(spans, addr).Some? ==> OpAt(spans, addr).Some? {
      forall j, k ensures !Hides(sorted, j, k) {
        if Hides(sorted, j, k) {
          var addr := Max(sorted[k].body, sorted[k].end);
          HiddenIsMissed(sorted, j, k);
          ScanIff(sorted, addr);
          ScanSorted(spans, addr);
        }
      }
    }
    if NothingHidden(sorted) {
      forall addr | Scan(spans, addr).Some? ensures OpAt(spans, addr).Some? {
        ScanSorted(spans, addr);
        ScanIff(sorted, addr);
        var j :| 0 <= j < |sorted| && Covers(sorted[j], addr);
        if OpAt(spans, addr).None? {
          MissedIsHidden(sorted, addr, j);
        }
      }
    }
  }

  /** Spans that follow each other do not share an address. */
  lemma FollowingScan(spans: seq<Span>, addr: int, k: nat)
    requires Follow(spans) && k < |spans| && Covers(spans[k], addr)
    ensures Scan(spans, addr) == Some(spans[k].op)
  {
    ScanFinds(spans, addr, k);
  }

  /** For all extracted spans: the index agrees with a scan everywhere exactly if no span is hidden. */
  lemma ExtractedLookupIff(markers: seq<Marker>)
    requires ForwardMarkers(markers)
    ensures var spans := Pair(SortBy(markers, LowOf)).spans;
      (forall addr :: OpAt(spans, addr) == Scan(spans, addr)) <==> NothingHidden(SortBy(spans, BodyOf))
  {
    var spans := Pair(SortBy(markers, LowOf)).spans;
    ExtractedSpansFollow(markers);
    LookupFindsIff(spans);
    forall addr | OpAt(spans, addr).Some? ensures OpAt(spans, addr) == Scan(spans, addr) {
      var k := LookupIsSound(spans, addr);
      FollowingScan(spans, addr, k);
    }
    if NothingHidden(SortBy(spans, BodyOf)) {
      forall addr ensures OpAt(spans, addr) == Scan(spans, addr) {
        assert Scan(spans, addr).Some? ==> OpAt(spans, addr).Some?;
      }
    }
  }

  lemma {:induction false} SortedStays<T(!new)>(s: seq<T>, key: T -> int)
    requires SortedBy(s, key)
    ensures SortBy(s, key) == s
  {
    if s != [] {
      var n := |s| - 1;
      SortedStays(s[..n], key);
      assert n > 0 ==> s[..n][n - 1] == s[n - 1] && key(s[n - 1]) <= key(s[n]);
      assert s == s[..n] + [s[n]];
    }
  }

  /** Spans one behind the other, touching or not, are in body order already, and none is hidden. */
  lemma TidyIsSorted(spans: seq<Span>)
    requires Tidy(spans)
    ensures SortBy(spans, BodyOf) == spans && NothingHidden(spans)
  {
    forall i, j | 0 <= i < j < |spans| ensures BodyOf(spans[i]) <= BodyOf(spans[j]) {
      assert spans[i].end <= spans[j].body;
    }
    SortedStays(spans, BodyOf);
    forall j, k ensures !Hides(spans, j, k) {
      assert 0 <= j < k < |spans| ==> spans[j].end <= spans[k].body;
    }
  }

  /** Among spans one behind the other, the index finds the one that covers the address. */
  lemma LookupIsComplete(spans: seq<Span>, addr: int, k: nat)
    requires Tidy(spans) && k < |spans| && Covers(spans[k], addr)
    ensures OpAt(spans, addr) == Some(spans[k].op)
  {
    TidyIsSorted(spans);
    forall j | 0 <= j < k + 1 ensures spans[j].body <= addr {
      assert j < k ==> spans[j].body <= spans[j].end <= spans[k].body;
    }
    forall j | k + 1 <= j < |spans| ensures spans[j].body > addr {
      assert spans[k].end <= spans[j].body;
    }
    StartedIs(spans, addr, k + 1);
  }

  /** Markers that do not overlap give spans on which the index agrees with a scan at every address. */
  lemma ExtractedLookupIsScan(markers: seq<Marker>, addr: int)
    requires DisjointMarkers(markers)
    ensures var spans := Pair(SortBy(markers, LowOf)).spans; OpAt(spans, addr) == Scan(spans, addr)
  {
    DisjointMarkersGiveTidySpans(markers);
    TidyIsSorted(Pair(SortBy(markers, LowOf)).spans);
    ExtractedLookupIff(markers);
  }

  /** Two operators a and b with two markers each. The first marker of a reaches beyond its second one. */
  function Overlapping(a: string, b: string): seq<Marker> {
    [Marker(a, 0, 10), Marker(a, 1, 2), Marker(b, 3, 4), Marker(b, 20, 21)]
  }

  /**
   * Overlapping markers can hide a span: the body of a begins behind its end, in the middle of b's body, and from
   * there on b is no longer found.
   */
  lemma OverlapHides(a: string, b: string)
    requires a != b && ':' in Payload(a) && ':' in Payload(b)
    ensures ForwardMarkers(Overlapping(a, b))
    ensures var spans := Pair(SortBy(Overlapping(a, b), LowOf)).spans;
      Scan(spans, 12) == Some(OpName(Payload(b))) && OpAt(spans, 12) == None
  {
    OverlappingGives(a, b);
    InvertedHides(SpanOf(Marker(a, 0, 10), Marker(a, 1, 2)), SpanOf(Marker(b, 3, 4), Marker(b, 20, 21)));
  }

  lemma OverlappingGives(a: string, b: string)
    requires a != b && ':' in Payload(a) && ':' in Payload(b)
    ensures ForwardMarkers(Overlapping(a, b))
    ensures Pair(SortBy(Overlapping(a, b), LowOf)).spans
         == [SpanOf(Marker(a, 0, 10), Marker(a, 1, 2)), SpanOf(Marker(b, 3, 4), Marker(b, 20, 21))]
  {
    OverlapSpans(Overlapping(a, b));
  }

  lemma OverlapSpans(markers: seq<Marker>)
    requires |markers| == 4 && markers[0].name == markers[1].name && markers[2].name == markers[3].name
    requires Named(markers[0]) && Named(markers[2])
    requires markers[0].low <= markers[1].low <= markers[2].low <= markers[3].low
    ensures Pair(SortBy(markers, LowOf)).spans == [SpanOf(markers[0], markers[1]), SpanOf(markers[2], markers[3])]
  {
    SortedStays(markers, LowOf);
    OverlapPairs(markers);
  }

  lemma InvertedHides(first: Span, second: Span)
    requires first.body == 10 && first.end == 1 && second.body == 4 && second.end == 20
    ensures Scan([first, second], 12) == Some(second.op) && OpAt([first, second], 12) == None
  {
    assert Covers(second, 12) && !Covers(first, 12);
    ScanFinds([first, second], 12, 1);
    SwapSorts(first, second);
    StartedIs([second, first], 12, 2);
  }

  lemma OverlapPairs(markers: seq<Marker>)
    requires |markers| == 4 && markers[0].name == markers[1].name && markers[2].name == markers[3].name
    requires Named(markers[0]) && Named(markers[2])
    ensures Pair(markers).spans == [SpanOf(markers[0], markers[1]), SpanOf(markers[2], markers[3])]
  {
    var rest := markers[2..];
    assert rest[2..] == [];
    assert Pair(rest).spans == [SpanOf(markers[2], markers[3])];
  }

  lemma SwapSorts(first: Span, second: Span)
    requires second.body < first.body
    ensures SortBy([first, second], BodyOf) == [second, first]
  {
    assert [first][..0] == [] && [first, second][..1] == [first];
    assert SortBy([first], BodyOf) == [first];
    assert InsertBy([], second, BodyOf) == [second];
  }

  // ---------------------------------------------------------------- attribution

  /** A weighted sample and the operator it is credited to. */
  datatype Item = Item(offset: int, count: nat, op: Option<string>)

  datatype Totals = Totals(
    perOp: map<string, nat>, perOpOffsets: map<string, map<int, nat>>, attributed: nat, unattributed: nat)

  function Weight(items: seq<Item>): nat {
    if items == [] then 0 else Weight(items[..|items| - 1]) + items[|items| - 1].count
  }

  function WeightOf(items: seq<Item>, op: Option<string>): nat {
    if items == [] then 0
    else
      var last := items[|items| - 1];
      WeightOf(items[..|items| - 1], op) + if last.op == op then last.count else 0
  }

  function WeightAt(items: seq<Item>, op: string, offset: int): nat {
    if items == [] then 0
    else
      var last := items[|items| - 1];
      WeightAt(items[..|items| - 1], op, offset) + if last.op == Some(op) &&
        last.offset == offset then last.count else 0
  }

  predicate Credits(items: seq<Item>, op: string) { exists i :: 0 <= i < |items| && items[i].op == Some(op) }

  predicate CreditsAt(items: seq<Item>, op: string, offset: int) {
    exists i :: 0 <= i < |items| && items[i].op == Some(op) && items[i].offset == offset
  }

  /** The totals of a list of items, operator by operator and offset by offset. */
  ghost predicate Tallies(t: Totals, items: seq<Item>) {
    t.attributed + t.unattributed == Weight(items) && t.unattributed == WeightOf(items, None) &&
    TalliesOps(t, items) && TalliesOffsets(t, items)
  }

  ghost predicate TalliesOps(t: Totals, items: seq<Item>) {
    (forall op :: op in t.perOp <==> Credits(items, op)) &&
    (forall op :: op in t.perOp ==> t.perOp[op] == WeightOf(items, Some(op)))
  }

  ghost predicate TalliesOffsets(t: Totals, items: seq<Item>) {
    (forall op :: op in t.perOpOffsets <==> Credits(items, op)) &&
    (forall op, o :: op in t.perOpOffsets ==> (o in t.perOpOffsets[op] <==> CreditsAt(items, op, o))) &&
    (forall op, o :: op in t.perOpOffsets && o in t.perOpOffsets[op] ==>
      t.perOpOffsets[op][o] == WeightAt(items, op, o))
  }

  lemma {:induction false} NoCredit(items: seq<Item>, op: string)
    requires !Credits(items, op)
    ensures WeightOf(items, Some(op)) == 0
  {
    if items != [] {
      var n := |items| - 1;
      assert forall i :: 0 <= i < n ==> items[..n][i] == items[i];
      NoCredit(items[..n], op);
      assert items[n].op != Some(op);
    }
  }

  lemma {:induction false} NoCreditAt(items: seq<Item>, op: string, offset: int)
    requires !CreditsAt(items, op, offset)
    ensures WeightAt(items, op, offset) == 0
  {
    if items != [] {
      var n := |items| - 1;
      assert forall i :: 0 <= i < n ==> items[..n][i] == items[i];
      NoCreditAt(items[..n], op, offset);
      assert !(items[n].op == Some(op) && items[n].offset == offset);
    }
  }

  lemma CreditsGrow(items: seq<Item>, item: Item, op: string, offset: int)
    ensures Credits(items + [item], op) <==> Credits(items, op) || item.op == Some(op)
    ensures CreditsAt(items + [item], op, offset) <==>
      CreditsAt(items, op, offset) || (item.op == Some(op) && item.offset == offset)
    ensures WeightOf(items + [item], Some(op))
         == WeightOf(items, Some(op)) + if item.op == Some(op) then item.count else 0
    ensures WeightAt(items + [item], op, offset)
         == WeightAt(items, op, offset) + if item.op == Some(op) && item.offset == offset then item.count else 0
  {
    var all := items + [item];
    assert all[..|all| - 1] == items && all[|items|] == item;
    assert forall i :: 0 <= i < |items| ==> all[i] == items[i];
  }

  lemma TallyGrows(t: Totals, items: seq<Item>, item: Item)
    requires Tallies(t, items)
    ensures Weight(items + [item]) == Weight(items) + item.count
    ensures WeightOf(items + [item], None) == WeightOf(items, None) + if item.op.None? then item.count else 0
    ensures forall op :: Credits(items + [item], op) <==> op in t.perOp || item.op == Some(op)
    ensures forall op, o :: CreditsAt(items + [item], op, o) <==>
      (op in t.perOpOffsets && o in t.perOpOffsets[op]) || (item.op == Some(op) && item.offset == o)
    ensures forall op ::
      WeightOf(items + [item], Some(op)) == ValueOf(t, op) + if item.op == Some(op) then item.count else 0
    ensures forall op, o ::
      WeightAt(items + [item], op, o) == ValueAt(t, op, o) +
        if item.op == Some(op) && item.offset == o then item.count else 0
  {
    var all := items + [item];
    assert all[..|all| - 1] == items && all[|items|] == item;
    forall op ensures Credits(all, op) <==> op in t.perOp || item.op == Some(op) {
      CreditsGrow(items, item, op, 0);
    }
    forall op, o
      ensures CreditsAt(all, op, o) <==>
        (op in t.perOpOffsets && o in t.perOpOffsets[op]) || (item.op == Some(op) && item.offset == o)
    {
      CreditsGrow(items, item, op, o);
      CreditedSomewhere(items, op, o);
    }
    forall op
      ensures WeightOf(all, Some(op)) == ValueOf(t, op) + if item.op == Some(op) then item.count else 0
    {
      CreditsGrow(items, item, op, 0);
      if op !in t.perOp { NoCredit(items, op); }
    }
    forall op, o
      ensures WeightAt(all, op, o) == ValueAt(t, op, o) +
        if item.op == Some(op) && item.offset == o then item.count else 0
    {
      CreditsGrow(items, item, op, o);
      CreditedSomewhere(items, op, o);
      if op !in t.perOpOffsets || o !in t.perOpOffsets[op] { NoCreditAt(items, op, o); }
    }
  }

  function ValueOf(t: Totals, op: string): nat { if op in t.perOp then t.perOp[op] else 0 }

  function ValueAt(t: Totals, op: string, o: int): nat {
    if op in t.perOpOffsets && o in t.perOpOffsets[op] then t.perOpOffsets[op][o] else 0
  }

  lemma CreditedSomewhere(items: seq<Item>, op: string, offset: int)
    ensures CreditsAt(items, op, offset) ==> Credits(items, op)
  {
  }

  /** Credits one item. */
  function Credit(t: Totals, item: Item): Totals {
    if item.op.None? then t.(unattributed := t.unattributed + item.count)
    else
      var op := item.op.value;
      var d: map<int, nat> := if op in t.perOpOffsets then t.perOpOffsets[op] else map[];
      Totals(t.perOp[op := ValueOf(t, op) + item.count],
             t.perOpOffsets[op := d[item.offset := ValueAt(t, op, item.offset) + item.count]],
             t.attributed + item.count, t.unattributed)
  }

  function Tally(items: seq<Item>): Totals {
    if items == [] then NO_TOTALS else Credit(Tally(items[..|items| - 1]), items[|items| - 1])
  }

  lemma CreditTalliesOps(t: Totals, item: Item, items: seq<Item>)
    requires Tallies(t, items)
    ensures TalliesOps(Credit(t, item), items + [item])
  {
    TallyGrows(t, items, item);
  }

  lemma CreditTalliesOffsets(t: Totals, item: Item, items: seq<Item>)
    requires Tallies(t, items)
    ensures TalliesOffsets(Credit(t, item), items + [item])
  {
    TallyGrows(t, items, item);
  }

  lemma CreditTallies(t: Totals, item: Item, items: seq<Item>)
    requires Tallies(t, items)
    ensures Tallies(Credit(t, item), items + [item])
  {
    TallyGrows(t, items, item);
    CreditTalliesOps(t, item, items);
    CreditTalliesOffsets(t, item, items);
  }

  /** Crediting items one after the other gives their totals. */
  lemma {:induction false} TallyIsExact(items: seq<Item>)
    ensures Tallies(Tally(items), items)
  {
    if items != [] {
      var n := |items| - 1;
      TallyIsExact(items[..n]);
      CreditTallies(Tally(items[..n]), items[n], items[..n]);
      assert items == items[..n] + [items[n]];
    }
  }

  const NO_TOTALS: Totals := Totals(map[], map[], 0, 0)

  const AFTER_BIT: nat := 2

  predicate IsAfter(tag: nat) { tag / AFTER_BIT % 2 == 1 }

  /** Mode 1: the runtime's own markers. */
  function MarkedItem(s: SampleDump.Resolved): Item {
    Item(s.offset, 1, if IsAfter(s.tag) then None else s.op)
  }

  function MarkedItems(samples: seq<SampleDump.Resolved>): seq<Item> {
    if samples == [] then [] else MarkedItems(samples[..|samples| - 1]) + [MarkedItem(samples[|samples| - 1])]
  }

  lemma TallyNext(items: seq<Item>, item: Item)
    ensures Tally(items + [item]) == Credit(Tally(items), item)
  {
    assert (items + [item])[..|items|] == items;
  }

  method AttributeMarked(samples: seq<SampleDump.Resolved>) returns (t: Totals)
    ensures t == Tally(MarkedItems(samples))
  {
    t := NO_TOTALS;
    for i := 0 to |samples|
      invariant t == Tally(MarkedItems(samples[..i]))
    {
      assert samples[..i + 1][..i] == samples[..i];
      TallyNext(MarkedItems(samples[..i]), MarkedItem(samples[i]));
      t := Credit(t, MarkedItem(samples[i]));
    }
    assert samples[..|samples|] == samples;
  }

  /** A leaf of the recorded call stacks; ancestors are listed from the leaf's caller outwards. */
  datatype Leaf = Leaf(offset: int, count: nat, ancestors: seq<int>)

  function FirstHit(sorted: seq<Span>, load: int, offsets: seq<int>): Option<string> {
    if offsets == [] then None
    else if Lookup(sorted, offsets[0] + load).Some? then Lookup(sorted, offsets[0] + load)
    else FirstHit(sorted, load, offsets[1..])
  }

  /** Mode 2: the innermost frame that lies in a span, the leaf first. */
  function LeafItem(sorted: seq<Span>, load: int, leaf: Leaf): Item {
    Item(leaf.offset, leaf.count, FirstHit(sorted, load, [leaf.offset] + leaf.ancestors))
  }

  /** The leaf, then its ancestors. */
  method WalkAncestors(sorted: seq<Span>, load: int, leaf: Leaf) returns (op: Option<string>)
    requires SortedBy(sorted, BodyOf)
    ensures op == LeafItem(sorted, load, leaf).op
  {
    op := LookupOp(sorted, leaf.offset + load);
    HitOrRest(sorted, load, [leaf.offset] + leaf.ancestors, 0);
    assert ([leaf.offset] + leaf.ancestors)[1..] == leaf.ancestors;
    if op.None? {
      op := WalkUp(sorted, load, leaf.ancestors);
    }
  }

  method WalkUp(sorted: seq<Span>, load: int, offsets: seq<int>) returns (op: Option<string>)
    requires SortedBy(sorted, BodyOf)
    ensures op == FirstHit(sorted, load, offsets)
  {
    for i := 0 to |offsets|
      invariant FirstHit(sorted, load, offsets) == FirstHit(sorted, load, offsets[i..])
    {
      HitOrRest(sorted, load, offsets, i);
      op := LookupOp(sorted, offsets[i] + load);
      if op.Some? { return; }
    }
    op := None;
  }

  lemma HitOrRest(sorted: seq<Span>, load: int, offsets: seq<int>, i: nat)
    requires i < |offsets|
    ensures var hit := Lookup(sorted, offsets[i] + load);
      FirstHit(sorted, load, offsets[i..]) == if hit.Some? then hit else FirstHit(sorted, load, offsets[i + 1..])
    ensures offsets[0..] == offsets
  {
    assert offsets[i..][1..] == offsets[i + 1..];
  }

  function LeafItems(sorted: seq<Span>, load: int, leaves: seq<Leaf>): seq<Item> {
    if leaves == [] then []
    else LeafItems(sorted, load, leaves[..|leaves| - 1]) + [LeafItem(sorted, load, leaves[|leaves| - 1])]
  }

  method AttributeLeaves(spans: seq<Span>, load: int, leaves: seq<Leaf>) returns (t: Totals)
    ensures t == Tally(LeafItems(SortBy(spans, BodyOf), load, leaves))
  {
    var sorted := SortBy(spans, BodyOf);
    SortSorts(spans, BodyOf);
    t := NO_TOTALS;
    for i := 0 to |leaves|
      invariant t == Tally(LeafItems(sorted, load, leaves[..i]))
    {
      assert leaves[..i + 1][..i] == leaves[..i];
      var op := WalkAncestors(sorted, load, leaves[i]);
      TallyNext(LeafItems(sorted, load, leaves[..i]), LeafItem(sorted, load, leaves[i]));
      t := Credit(t, Item(leaves[i].offset, leaves[i].count, op));
    }
    assert leaves[..|leaves|] == leaves;
  }

  /** An entry of the offset histogram. */
  datatype Count = Count(offset: int, count: nat)

  function SpatialItem(sorted: seq<Span>, load: int, c: Count): Item {
    Item(c.offset, c.count, Lookup(sorted, c.offset + load))
  }

  function SpatialItems(sorted: seq<Span>, load: int, counts: seq<Count>): seq<Item> {
    if counts == [] then []
    else SpatialItems(sorted, load, counts[..|counts| - 1]) + [SpatialItem(sorted, load, counts[|counts| - 1])]
  }

  /** Mode 3: only the spans. The histogram is given in the order in which it yields its entries. */
  method AttributeSpatially(spans: seq<Span>, load: int, counts: seq<Count>) returns (t: Totals)
    ensures t == Tally(SpatialItems(SortBy(spans, BodyOf), load, counts))
  {
    SortSorts(spans, BodyOf);
    t := AttributeSorted(SortBy(spans, BodyOf), load, counts);
  }

  method AttributeSorted(sorted: seq<Span>, load: int, counts: seq<Count>) returns (t: Totals)
    requires SortedBy(sorted, BodyOf)
    ensures t == Tally(SpatialItems(sorted, load, counts))
  {
    t := NO_TOTALS;
    for i := 0 to |counts|
      invariant t == Tally(SpatialItems(sorted, load, counts[..i]))
    {
      assert counts[..i + 1][..i] == counts[..i];
      var op := LookupOp(sorted, counts[i].offset + load);
      TallyNext(SpatialItems(sorted, load, counts[..i]), SpatialItem(sorted, load, counts[i]));
      t := Credit(t, Item(counts[i].offset, counts[i].count, op));
    }
    assert counts[..|counts|] == counts;
  }

  /** What is credited: the runtime's markers if there are any, else the call stacks, else the spans alone. */
  ghost function ItemsOf(counts: seq<Count>, spans: seq<Span>, load: int, ordered: Option<seq<SampleDump.Resolved>>,
                         leaves: Option<seq<Leaf>>): seq<Item>
  {
    if ordered.Some? then MarkedItems(ordered.value)
    else if leaves.Some? then LeafItems(SortBy(spans, BodyOf), load, leaves.value)
    else SpatialItems(SortBy(spans, BodyOf), load, counts)
  }

  // ---------------------------------------------------------------- what is credited, sample by sample

  /** The runtime's markers: an operator is running unless the sample has none or bit 1 of its tag is set. */
  predicate IsRunning(s: SampleDump.Resolved, op: string) { s.op == Some(op) && s.tag / 2 % 2 == 0 }

  /** The number of samples that are taken while the operator is running. */
  function RunningSamples(samples: seq<SampleDump.Resolved>, op: string): nat {
    if samples == [] then 0
    else
      var n := |samples| - 1;
      RunningSamples(samples[..n], op) + if IsRunning(samples[n], op) then 1 else 0
  }

  function RunningSamplesAt(samples: seq<SampleDump.Resolved>, op: string, offset: int): nat {
    if samples == [] then 0
    else
      var n := |samples| - 1;
      RunningSamplesAt(samples[..n], op, offset)
      + if IsRunning(samples[n], op) && samples[n].offset == offset then 1 else 0
  }

  /** The number of samples in which no operator is running. */
  function IdleSamples(samples: seq<SampleDump.Resolved>): nat {
    if samples == [] then 0
    else
      var n := |samples| - 1;
      IdleSamples(samples[..n]) + if samples[n].op == None || samples[n].tag / 2 % 2 == 1 then 1 else 0
  }

  lemma {:induction false} MarkedWeights(samples: seq<SampleDump.Resolved>, op: string, offset: int)
    ensures WeightOf(MarkedItems(samples), Some(op)) == RunningSamples(samples, op)
    ensures WeightAt(MarkedItems(samples), op, offset) == RunningSamplesAt(samples, op, offset)
    ensures WeightOf(MarkedItems(samples), None) == IdleSamples(samples)
    ensures Weight(MarkedItems(samples)) == |samples|
  {
    if samples != [] {
      var n := |samples| - 1;
      var front, last := MarkedItems(samples[..n]), MarkedItem(samples[n]);
      MarkedWeights(samples[..n], op, offset);
      assert (front + [last])[..|front|] == front;
    }
  }

  /** The operators that the offsets lie in. */
  function OpsAt(spans: seq<Span>, load: int, offsets: seq<int>): (r: seq<Option<string>>)
    ensures |r| == |offsets| && forall i :: 0 <= i < |r| ==> r[i] == OpAt(spans, offsets[i] + load)
  {
    seq(|offsets|, i requires 0 <= i < |offsets| => OpAt(spans, offsets[i] + load))
  }

  ghost predicate IsFirst(found: seq<Option<string>>, op: string) {
    exists i :: 0 <= i < |found| && found[i] == Some(op) && forall j :: 0 <= j < i ==> found[j] == None
  }

  ghost predicate IsNowhere(found: seq<Option<string>>) {
    forall i :: 0 <= i < |found| ==> found[i] == None
  }

  function FirstOf(found: seq<Option<string>>): Option<string> {
    if found == [] then None else if found[0].Some? then found[0] else FirstOf(found[1..])
  }

  lemma {:induction false} FirstOfIs(found: seq<Option<string>>, op: string)
    ensures FirstOf(found) == Some(op) <==> IsFirst(found, op)
    ensures FirstOf(found) == None <==> IsNowhere(found)
  {
    if found != [] && found[0] == None {
      FirstOfIs(found[1..], op);
      if IsFirst(found, op) {
        var i :| 0 <= i < |found| && found[i] == Some(op) && forall j :: 0 <= j < i ==> found[j] == None;
        assert found[1..][i - 1] == Some(op) && forall j :: 0 <= j < i - 1 ==> found[1..][j] == found[j + 1];
      }
      if i :| 0 <= i < |found[1..]| && found[1..][i] == Some(op) && forall j :: 0 <= j < i ==> found[1..][j] == None {
        assert found[i + 1] == Some(op) && forall j :: 1 <= j < i + 1 ==> found[j] == found[1..][j - 1];
      }
      assert forall i :: 1 <= i < |found| ==> found[i] == found[1..][i - 1];
      assert forall i :: 0 <= i < |found[1..]| ==> found[1..][i] == found[i + 1];
    }
  }

  lemma {:induction false} FirstHitIsFirstOf(sorted: seq<Span>, load: int, offsets: seq<int>,
                                             found: seq<Option<string>>)
    requires |found| == |offsets| && forall i :: 0 <= i < |found| ==> found[i] == Lookup(sorted, offsets[i] + load)
    ensures FirstHit(sorted, load, offsets) == FirstOf(found)
    decreases |offsets|
  {
    if offsets != [] {
      FirstHitIsFirstOf(sorted, load, offsets[1..], found[1..]);
    }
  }

  lemma FirstHitIsFirst(spans: seq<Span>, load: int, offsets: seq<int>)
    ensures FirstHit(SortBy(spans, BodyOf), load, offsets) == FirstOf(OpsAt(spans, load, offsets))
  {
    FirstHitIsFirstOf(SortBy(spans, BodyOf), load, offsets, OpsAt(spans, load, offsets));
  }

  /** The operator of the first of the offsets that lies in a span. */
  ghost predicate FirstIn(spans: seq<Span>, load: int, offsets: seq<int>, op: string) {
    IsFirst(OpsAt(spans, load, offsets), op)
  }

  ghost predicate NoneIn(spans: seq<Span>, load: int, offsets: seq<int>) {
    IsNowhere(OpsAt(spans, load, offsets))
  }

  lemma FirstHitIs(spans: seq<Span>, load: int, offsets: seq<int>, op: string)
    ensures FirstHit(SortBy(spans, BodyOf), load, offsets) == Some(op) <==> FirstIn(spans, load, offsets, op)
    ensures FirstHit(SortBy(spans, BodyOf), load, offsets) == None <==> NoneIn(spans, load, offsets)
  {
    FirstHitIsFirst(spans, load, offsets);
    FirstOfIs(OpsAt(spans, load, offsets), op);
  }

  /** The weight of the leaves whose operator, from the leaf outwards, is the given one. */
  ghost function LeafWeight(spans: seq<Span>, load: int, leaves: seq<Leaf>, op: string): nat {
    if leaves == [] then 0
    else
      var n := |leaves| - 1;
      LeafWeight(spans, load, leaves[..n], op)
      + if FirstIn(spans, load, [leaves[n].offset] + leaves[n].ancestors, op) then leaves[n].count else 0
  }

  ghost function LeafWeightAt(spans: seq<Span>, load: int, leaves: seq<Leaf>, op: string, offset: int): nat {
    if leaves == [] then 0
    else
      var n := |leaves| - 1;
      var here := leaves[n].offset == offset && FirstIn(spans, load, [leaves[n].offset] + leaves[n].ancestors, op);
      LeafWeightAt(spans, load, leaves[..n], op, offset) + if here then leaves[n].count else 0
  }

  /** The weight of the leaves that lie in no span, with all their ancestors. */
  ghost function LeafWeightOutside(spans: seq<Span>, load: int, leaves: seq<Leaf>): nat {
    if leaves == [] then 0
    else
      var n := |leaves| - 1;
      LeafWeightOutside(spans, load, leaves[..n])
      + if NoneIn(spans, load, [leaves[n].offset] + leaves[n].ancestors) then leaves[n].count else 0
  }

  lemma {:induction false} LeafWeights(spans: seq<Span>, load: int, leaves: seq<Leaf>, op: string, offset: int)
    ensures var items := LeafItems(SortBy(spans, BodyOf), load, leaves);
      && WeightOf(items, Some(op)) == LeafWeight(spans, load, leaves, op)
      && WeightAt(items, op, offset) == LeafWeightAt(spans, load, leaves, op, offset)
      && WeightOf(items, None) == LeafWeightOutside(spans, load, leaves)
  {
    if leaves != [] {
      var n := |leaves| - 1;
      var sorted, leaf := SortBy(spans, BodyOf), leaves[n];
      LeafWeights(spans, load, leaves[..n], op, offset);
      FirstHitIs(spans, load, [leaf.offset] + leaf.ancestors, op);
      WeightsNext(LeafItems(sorted, load, leaves[..n]), LeafItem(sorted, load, leaf), op, offset);
    }
  }

  lemma WeightsNext(items: seq<Item>, item: Item, op: string, offset: int)
    ensures WeightOf(items + [item], Some(op)) == WeightOf(items, Some(op)) + if item.op
         == Some(op) then item.count else 0
    ensures WeightOf(items + [item], None) == WeightOf(items, None) + if item.op == None then item.count else 0
    ensures WeightAt(items + [item], op, offset)
         == WeightAt(items, op, offset) + if item.op == Some(op) && item.offset == offset then item.count else 0
  {
    assert (items + [item])[..|items|] == items;
  }

  /** The weight of the counted offsets at which the spans have the operator, or none. */
  ghost function SpanWeight(counts: seq<Count>, spans: seq<Span>, load: int, op: Option<string>): nat {
    if counts == [] then 0
    else
      var n := |counts| - 1;
      SpanWeight(counts[..n], spans, load, op)
      + if OpAt(spans, counts[n].offset + load) == op then counts[n].count else 0
  }

  ghost function SpanWeightAt(counts: seq<Count>, spans: seq<Span>, load: int, op: string, offset: int): nat {
    if counts == [] then 0
    else
      var n := |counts| - 1;
      var here := counts[n].offset == offset && OpAt(spans, counts[n].offset + load) == Some(op);
      SpanWeightAt(counts[..n], spans, load, op, offset) + if here then counts[n].count else 0
  }

  lemma {:induction false} SpanWeights(counts: seq<Count>, spans: seq<Span>, load: int, op: string, offset: int)
    ensures var items := SpatialItems(SortBy(spans, BodyOf), load, counts);
      && WeightOf(items, Some(op)) == SpanWeight(counts, spans, load, Some(op))
      && WeightAt(items, op, offset) == SpanWeightAt(counts, spans, load, op, offset)
      && WeightOf(items, None) == SpanWeight(counts, spans, load, None)
  {
    if counts != [] {
      var n, sorted := |counts| - 1, SortBy(spans, BodyOf);
      SpanWeights(counts[..n], spans, load, op, offset);
      WeightsNext(SpatialItems(sorted, load, counts[..n]), SpatialItem(sorted, load, counts[n]), op, offset);
    }
  }

  /** What the totals credit to an operator, at all offsets and at one. */
  ghost predicate Gives(t: Totals, op: string, offset: int, total: nat, there: nat) {
    && (if op in t.perOp then t.perOp[op] else 0) == total
    && (if op in t.perOpOffsets && offset in t.perOpOffsets[op] then t.perOpOffsets[op][offset] else 0) == there
  }

  lemma TalliesGive(t: Totals, items: seq<Item>, op: string, offset: int)
    requires Tallies(t, items)
    ensures Gives(t, op, offset, WeightOf(items, Some(op)), WeightAt(items, op, offset))
  {
    if op !in t.perOp {
      NoCredit(items, op);
    }
    CreditedSomewhere(items, op, offset);
    if op !in t.perOpOffsets || offset !in t.perOpOffsets[op] {
      NoCreditAt(items, op, offset);
    }
  }

  /**
   * Mode 1: if the runtime's markers are there, every operator gets the number of samples taken while it was running,
   * at each offset and in all; the other samples are not attributed.
   */
  ghost predicate CreditsRunning(t: Totals, samples: seq<SampleDump.Resolved>) {
    && t.unattributed == IdleSamples(samples) && t.attributed + t.unattributed == |samples|
    && forall op, offset :: Gives(t, op, offset, RunningSamples(samples, op), RunningSamplesAt(samples, op, offset))
  }

  /** Mode 2: every operator gets the weight of the leaves in it, or whose innermost ancestor in a span is in it. */
  ghost predicate CreditsLeaves(t: Totals, spans: seq<Span>, load: int, leaves: seq<Leaf>) {
    && t.unattributed == LeafWeightOutside(spans, load, leaves)
    && forall op, offset ::
      Gives(t, op, offset, LeafWeight(spans, load, leaves, op), LeafWeightAt(spans, load, leaves, op, offset))
  }

  /** Mode 3: every operator gets the counts of the offsets in its spans. */
  ghost predicate CreditsOffsets(t: Totals, counts: seq<Count>, spans: seq<Span>, load: int) {
    && t.unattributed == SpanWeight(counts, spans, load, None)
    && forall op, offset ::
      Gives(t, op, offset, SpanWeight(counts, spans, load, Some(op)), SpanWeightAt(counts, spans, load, op, offset))
  }

  lemma MarkedMeans(t: Totals, samples: seq<SampleDump.Resolved>)
    requires Tallies(t, MarkedItems(samples))
    ensures CreditsRunning(t, samples)
  {
    MarkedWeights(samples, "", 0);
    forall op, offset ensures Gives(t, op, offset, RunningSamples(samples, op), RunningSamplesAt(samples, op, offset)) {
      MarkedWeights(samples, op, offset);
      TalliesGive(t, MarkedItems(samples), op, offset);
    }
  }

  lemma LeavesMean(t: Totals, spans: seq<Span>, load: int, leaves: seq<Leaf>)
    requires Tallies(t, LeafItems(SortBy(spans, BodyOf), load, leaves))
    ensures CreditsLeaves(t, spans, load, leaves)
  {
    LeafWeights(spans, load, leaves, "", 0);
    forall op, offset
      ensures Gives(t, op, offset, LeafWeight(spans, load, leaves, op), LeafWeightAt(spans, load, leaves, op, offset))
    {
      LeafWeights(spans, load, leaves, op, offset);
      TalliesGive(t, LeafItems(SortBy(spans, BodyOf), load, leaves), op, offset);
    }
  }

  lemma OffsetsMean(t: Totals, counts: seq<Count>, spans: seq<Span>, load: int)
    requires Tallies(t, SpatialItems(SortBy(spans, BodyOf), load, counts))
    ensures CreditsOffsets(t, counts, spans, load)
  {
    SpanWeights(counts, spans, load, "", 0);
    forall op, offset
      ensures Gives(t, op, offset, SpanWeight(counts, spans, load, Some(op)),
                    SpanWeightAt(counts, spans, load, op, offset))
    {
      SpanWeights(counts, spans, load, op, offset);
      TalliesGive(t, SpatialItems(SortBy(spans, BodyOf), load, counts), op, offset);
    }
  }

  method AttributeOffsetsToOps(counts: seq<Count>, spans: seq<Span>, load: int,
                               ordered: Option<seq<SampleDump.Resolved>>, leaves: Option<seq<Leaf>>)
    returns (t: Totals)
    ensures Tallies(t, ItemsOf(counts, spans, load, ordered, leaves))
    ensures ordered.Some? ==> CreditsRunning(t, ordered.value)
    ensures ordered.None? && leaves.Some? ==> CreditsLeaves(t, spans, load, leaves.value)
    ensures ordered.None? && leaves.None? ==> CreditsOffsets(t, counts, spans, load)
  {
    if spans == [] && ordered.None? && leaves.None? {
      var sum := SumCounts(counts);
      t := Totals(map[], map[], 0, sum);
      NothingIsCredited(counts, load);
      assert SortBy(spans, BodyOf) == [];
      assert t == Tally(ItemsOf(counts, spans, load, ordered, leaves));
    } else if ordered.Some? {
      t := AttributeMarked(ordered.value);
    } else if leaves.Some? {
      t := AttributeLeaves(spans, load, leaves.value);
    } else {
      t := AttributeSpatially(spans, load, counts);
    }
    TallyIsExact(ItemsOf(counts, spans, load, ordered, leaves));
    if ordered.Some? {
      MarkedMeans(t, ordered.value);
    } else if leaves.Some? {
      LeavesMean(t, spans, load, leaves.value);
    } else {
      OffsetsMean(t, counts, spans, load);
    }
  }

  function TotalCount(counts: seq<Count>): nat {
    if counts == [] then 0 else TotalCount(counts[..|counts| - 1]) + counts[|counts| - 1].count
  }

  method SumCounts(counts: seq<Count>) returns (sum: nat)
    ensures sum == TotalCount(counts)
  {
    sum := 0;
    for i := 0 to |counts|
      invariant sum == TotalCount(counts[..i])
    {
      assert counts[..i + 1][..i] == counts[..i];
      sum := sum + counts[i].count;
    }
    assert counts[..|counts|] == counts;
  }

  lemma {:induction false} NothingIsCredited(counts: seq<Count>, load: int)
    ensures Tally(SpatialItems([], load, counts)) == Totals(map[], map[], 0, TotalCount(counts))
  {
    if counts != [] {
      var n := |counts| - 1;
      NothingIsCredited(counts[..n], load);
      TallyNext(SpatialItems([], load, counts[..n]), SpatialItem([], load, counts[n]));
    }
  }

  // ---------------------------------------------------------------- conservation

  function SumOver(t: Totals, ops: seq<string>): nat
    requires forall op :: op in ops ==> op in t.perOp
  {
    if ops == [] then 0 else t.perOp[ops[0]] + SumOver(t, ops[1..])
  }

  function WeightOfAll(items: seq<Item>, ops: seq<string>): nat {
    if ops == [] then 0 else WeightOf(items, Some(ops[0])) + WeightOfAll(items, ops[1..])
  }

  /** `ops` lists the keys of a table, each once. */
  ghost predicate Lists(ops: seq<string>, keys: set<string>) {
    (forall op :: op in ops <==> op in keys) && forall i, j :: 0 <= i < j < |ops| ==> ops[i] != ops[j]
  }

  lemma {:induction false} SumIsWeight(t: Totals, items: seq<Item>, ops: seq<string>)
    requires Tallies(t, items) && forall op :: op in ops ==> op in t.perOp
    ensures SumOver(t, ops) == WeightOfAll(items, ops)
  {
    if ops != [] {
      SumIsWeight(t, items, ops[1..]);
    }
  }

  /** Adding one item adds its weight exactly once. */
  lemma {:induction false} WeightOfAllGrows(items: seq<Item>, item: Item, ops: seq<string>)
    requires forall i, j :: 0 <= i < j < |ops| ==> ops[i] != ops[j]
    ensures WeightOfAll(items + [item], ops)
         == WeightOfAll(items, ops) + if item.op.Some? && item.op.value in ops then item.count else 0
  {
    assert (items + [item])[..|items|] == items;
    if ops != [] {
      WeightOfAllGrows(items, item, ops[1..]);
      assert ops == [ops[0]] + ops[1..];
    }
  }

  lemma {:induction false} WeightOfNone(ops: seq<string>)
    ensures WeightOfAll([], ops) == 0
  {
    if ops != [] {
      WeightOfNone(ops[1..]);
    }
  }

  lemma {:induction false} WeightIsSplit(items: seq<Item>, ops: seq<string>)
    requires forall i, j :: 0 <= i < j < |ops| ==> ops[i] != ops[j]
    requires forall i :: 0 <= i < |items| && items[i].op.Some? ==> items[i].op.value in ops
    ensures WeightOfAll(items, ops) + WeightOf(items, None) == Weight(items)
  {
    if items == [] {
      WeightOfNone(ops);
    } else {
      var n := |items| - 1;
      WeightIsSplit(items[..n], ops);
      WeightOfAllGrows(items[..n], items[n], ops);
      assert items == items[..n] + [items[n]];
    }
  }

  /** In every mode the operators' totals and the unattributed samples add up to all samples. */
  lemma AttributionConserves(t: Totals, items: seq<Item>, ops: seq<string>)
    requires Tallies(t, items) && Lists(ops, t.perOp.Keys)
    ensures SumOver(t, ops) == t.attributed && t.attributed + t.unattributed == Weight(items)
  {
    SumIsWeight(t, items, ops);
    forall i | 0 <= i < |items| && items[i].op.Some? ensures items[i].op.value in ops {
      assert Credits(items, items[i].op.value);
    }
    WeightIsSplit(items, ops);
  }

  // ---------------------------------------------------------------- selecting operators

  function Select(spans: seq<Span>, matches: string -> bool, invert: bool): seq<Span> {
    if spans == [] then []
    else if matches(spans[0].op) != invert then [spans[0]] + Select(spans[1..], matches, invert)
    else Select(spans[1..], matches, invert)
  }

  lemma {:induction false} SelectMembers(spans: seq<Span>, matches: string -> bool, invert: bool)
    ensures forall s :: s in Select(spans, matches, invert) <==> s in spans && matches(s.op) != invert
  {
    if spans != [] {
      SelectMembers(spans[1..], matches, invert);
      assert spans == [spans[0]] + spans[1..];
    }
  }

  predicate Hit(sorted: seq<Span>, load: int, o: int) { Lookup(sorted, o + load).Some? }

  function Keep(sorted: seq<Span>, load: int, counts: map<int, nat>, order: seq<int>): (r: map<int, nat>)
    requires forall o :: o in order ==> o in counts
  {
    if order == [] then map[]
    else
      var n := |order| - 1;
      var rest := Keep(sorted, load, counts, order[..n]);
      if Hit(sorted, load, order[n]) then rest[order[n] := counts[order[n]]] else rest
  }

  lemma {:induction false} KeepIsHit(sorted: seq<Span>, load: int, counts: map<int, nat>, order: seq<int>, o: int)
    requires forall o :: o in order ==> o in counts
    ensures o in Keep(sorted, load, counts, order) <==> o in order && Hit(sorted, load, o)
    ensures o in Keep(sorted, load, counts, order) ==> Keep(sorted, load, counts, order)[o] == counts[o]
  {
    if order != [] {
      var n := |order| - 1;
      KeepIsHit(sorted, load, counts, order[..n], o);
      assert order == order[..n] + [order[n]];
    }
  }

  /** The part of a histogram that lies in the selected spans. */
  ghost predicate IsSelection(kept: map<int, nat>, counts: map<int, nat>, spans: seq<Span>, load: int) {
    (forall o :: o in kept <==> o in counts && Hit(SortBy(spans, BodyOf), load, o)) &&
    forall o :: o in kept ==> kept[o] == counts[o]
  }

  /** `--op` and, inverted, `--not-op`; `order` is the order in which the histogram yields its keys. */
  method FilterOffsets(counts: map<int, nat>, order: seq<int>, spans: seq<Span>, load: int,
                       matches: string -> bool, invert: bool)
    returns (kept: map<int, nat>, sorted: seq<Span>, names: set<string>)
    requires forall o :: o in order <==> o in counts
    ensures IsSelection(kept, counts, Select(spans, matches, invert), load)
    ensures SortedBy(sorted, BodyOf) && multiset(sorted) == multiset(Select(spans, matches, invert))
    ensures forall x :: x in names <==> exists s :: s in spans && s.op == x && matches(x) != invert
  {
    var matched := Select(spans, matches, invert);
    SelectMembers(spans, matches, invert);
    sorted := SortBy(matched, BodyOf);
    kept, names := map[], set s | s in matched :: s.op;
    if matched == [] {
      assert forall o :: !Hit(sorted, load, o);
      return;
    }
    SortSorts(matched, BodyOf);
    kept := KeepHits(sorted, load, counts, order);
    forall o ensures o in kept <==> o in counts && Hit(sorted, load, o) {
      KeepIsHit(sorted, load, counts, order, o);
    }
    forall o | o in kept ensures kept[o] == counts[o] {
      KeepIsHit(sorted, load, counts, order, o);
    }
  }

  method KeepHits(sorted: seq<Span>, load: int, counts: map<int, nat>, order: seq<int>) returns (kept: map<int, nat>)
    requires SortedBy(sorted, BodyOf) && forall o :: o in order ==> o in counts
    ensures kept == Keep(sorted, load, counts, order)
  {
    kept := map[];
    for i := 0 to |order|
      invariant kept == Keep(sorted, load, counts, order[..i])
    {
      var op := LookupOp(sorted, order[i] + load);
      assert order[..i + 1][..i] == order[..i];
      if op.Some? { kept := kept[order[i] := counts[order[i]]]; }
    }
    assert order[..|order|] == order;
  }

  /** Spans that follow each other: no address lies both in a selected span and in one that is not. */
  lemma SelectionsExclude(spans: seq<Span>, addr: int, matches: string -> bool)
    requires Follow(spans)
    ensures OpAt(Select(spans, matches, false), addr).None? || OpAt(Select(spans, matches, true), addr).None?
  {
    var some, others := Select(spans, matches, false), Select(spans, matches, true);
    SelectMembers(spans, matches, false);
    SelectMembers(spans, matches, true);
    if OpAt(some, addr).Some? && OpAt(others, addr).Some? {
      var i := LookupIsSound(some, addr);
      var j := LookupIsSound(others, addr);
      assert some[i] in spans && others[j] in spans;
      var k :| 0 <= k < |spans| && spans[k] == some[i];
      var l :| 0 <= l < |spans| && spans[l] == others[j];
      FollowingScan(spans, addr, k);
      FollowingScan(spans, addr, l);
    }
  }

  // ---------------------------------------------------------------- hidden spans and selections

  lemma {:induction false} SelectConcat(a: seq<Span>, b: seq<Span>, matches: string -> bool, invert: bool)
    ensures Select(a + b, matches, invert) == Select(a, matches, invert) + Select(b, matches, invert)
  {
    if a == [] {
      assert a + b == b;
    } else {
      assert (a + b)[1..] == a[1..] + b;
      SelectConcat(a[1..], b, matches, invert);
    }
  }

  lemma SelectOne(s: Span, matches: string -> bool, invert: bool)
    ensures Select([s], matches, invert) == if matches(s.op) != invert then [s] else []
  {
    assert [s][1..] == [];
  }

  /** Bounds on the bodies hold of the selected ones. */
  lemma {:induction false} SelectKeepsBounds(spans: seq<Span>, matches: string -> bool, invert: bool, addr: int)
    ensures (forall i :: 0 <= i < |spans| ==> spans[i].body <= addr) ==>
      forall i :: 0 <= i < |Select(spans, matches, invert)| ==> Select(spans, matches, invert)[i].body <= addr
    ensures (forall i :: 0 <= i < |spans| ==> spans[i].body > addr) ==>
      forall i :: 0 <= i < |Select(spans, matches, invert)| ==> Select(spans, matches, invert)[i].body > addr
  {
    if spans != [] {
      assert forall i :: 0 <= i < |spans[1..]| ==> spans[1..][i] == spans[i + 1];
      SelectKeepsBounds(spans[1..], matches, invert, addr);
    }
  }

  lemma InsertLastCommutes(sorted: seq<Span>, x: Span, matches: string -> bool, invert: bool)
    requires SortedBy(sorted, BodyOf) && (sorted == [] || sorted[|sorted| - 1].body <= x.body)
    ensures Select(InsertBy(sorted, x, BodyOf), matches, invert)
         == if matches(x.op) != invert then InsertBy(Select(sorted, matches, invert), x, BodyOf)
           else Select(sorted, matches, invert)
  {
    var n, chosen := |sorted|, Select(sorted, matches, invert);
    forall i | 0 <= i < n ensures sorted[i].body <= x.body {
      assert i < n - 1 ==> BodyOf(sorted[i]) <= BodyOf(sorted[n - 1]);
    }
    SelectKeepsBounds(sorted, matches, invert, x.body);
    SelectConcat(sorted, [x], matches, invert);
    SelectOne(x, matches, invert);
    assert InsertBy(sorted, x, BodyOf) == sorted + [x] && InsertBy(chosen, x, BodyOf) == chosen + [x];
    assert chosen + [] == chosen;
  }

  lemma {:induction false} InsertCommutes(sorted: seq<Span>, x: Span, matches: string -> bool, invert: bool)
    requires SortedBy(sorted, BodyOf)
    ensures Select(InsertBy(sorted, x, BodyOf), matches, invert)
         == if matches(x.op) != invert then InsertBy(Select(sorted, matches, invert), x, BodyOf)
           else Select(sorted, matches, invert)
  {
    var n := |sorted|;
    if n == 0 || sorted[n - 1].body <= x.body {
      InsertLastCommutes(sorted, x, matches, invert);
    } else {
      InsertCommutes(sorted[..n - 1], x, matches, invert);
      InsertEarlierCommutes(sorted[..n - 1], sorted[n - 1], x, matches, invert);
      assert sorted == sorted[..n - 1] + [sorted[n - 1]];
    }
  }

  lemma InsertEarlierCommutes(front: seq<Span>, last: Span, x: Span, matches: string -> bool, invert: bool)
    requires last.body > x.body
    requires Select(InsertBy(front, x, BodyOf), matches, invert)
          == if matches(x.op) != invert then InsertBy(Select(front, matches, invert), x, BodyOf)
            else Select(front, matches, invert)
    ensures Select(InsertBy(front + [last], x, BodyOf), matches, invert)
         == if matches(x.op) != invert then InsertBy(Select(front + [last], matches, invert), x, BodyOf)
           else Select(front + [last], matches, invert)
  {
    var chosen := Select(front, matches, invert);
    InsertBeforeLast(front, last, x);
    InsertBeforeLast(chosen, last, x);
    SelectConcat(InsertBy(front, x, BodyOf), [last], matches, invert);
    SelectConcat(front, [last], matches, invert);
    SelectOne(last, matches, invert);
    var inserted := Select(InsertBy(front, x, BodyOf), matches, invert);
    if matches(last.op) != invert {
      assert Select(InsertBy(front + [last], x, BodyOf), matches, invert) == inserted + [last];
    } else {
      assert Select(InsertBy(front + [last], x, BodyOf), matches, invert) == inserted + [] == inserted;
      assert Select(front + [last], matches, invert) == chosen + [] == chosen;
    }
  }

  lemma InsertBeforeLast(front: seq<Span>, last: Span, x: Span)
    requires last.body > x.body
    ensures InsertBy(front + [last], x, BodyOf) == InsertBy(front, x, BodyOf) + [last]
  {
    assert (front + [last])[..|front|] == front;
  }

  /** Selecting spans and putting them in body order can be done in either order. */
  lemma {:induction false} SelectCommutes(spans: seq<Span>, matches: string -> bool, invert: bool)
    ensures SortBy(Select(spans, matches, invert), BodyOf) == Select(SortBy(spans, BodyOf), matches, invert)
  {
    if spans == [] {
      assert SortBy([], BodyOf) == [] && Select([], matches, invert) == [];
    } else {
      var n := |spans| - 1;
      var front, last := spans[..n], spans[n];
      SelectCommutes(front, matches, invert);
      SelectCommutesStep(front, last, matches, invert);
      assert spans == front + [last];
    }
  }

  lemma SelectCommutesStep(front: seq<Span>, last: Span, matches: string -> bool, invert: bool)
    requires SortBy(Select(front, matches, invert), BodyOf) == Select(SortBy(front, BodyOf), matches, invert)
    ensures SortBy(Select(front + [last], matches, invert), BodyOf)
         == Select(SortBy(front + [last], BodyOf), matches, invert)
  {
    SortSorts(front, BodyOf);
    InsertCommutes(SortBy(front, BodyOf), last, matches, invert);
    SortSelectedStep(front, last, matches, invert);
  }

  lemma SortSelectedStep(front: seq<Span>, last: Span, matches: string -> bool, invert: bool)
    ensures SortBy(front + [last], BodyOf) == InsertBy(SortBy(front, BodyOf), last, BodyOf)
    ensures var chosen := Select(front, matches, invert);
      SortBy(Select(front + [last], matches, invert), BodyOf)
      == if matches(last.op) != invert then InsertBy(SortBy(chosen, BodyOf), last, BodyOf) else SortBy(chosen, BodyOf)
  {
    var chosen := Select(front, matches, invert);
    SelectConcat(front, [last], matches, invert);
    SelectOne(last, matches, invert);
    assert (front + [last])[..|front|] == front && (chosen + [last])[..|chosen|] == chosen;
    assert chosen + [] == chosen;
  }

  /** The last of the first `n` spans that is selected, or -1. */
  function LastSelected(spans: seq<Span>, n: nat, matches: string -> bool, invert: bool): (i: int)
    requires n <= |spans|
    ensures -1 <= i < n && (i >= 0 ==> matches(spans[i].op) != invert)
    ensures forall m :: i < m < n ==> matches(spans[m].op) == invert
  {
    if n == 0 then -1
    else if matches(spans[n - 1].op) != invert then n - 1
    else LastSelected(spans, n - 1, matches, invert)
  }

  lemma {:induction false} LastOfSelected(spans: seq<Span>, n: nat, matches: string -> bool, invert: bool)
    requires n <= |spans|
    ensures var i, chosen := LastSelected(spans, n, matches, invert), Select(spans[..n], matches, invert);
      if i < 0 then chosen == [] else chosen != [] && chosen[|chosen| - 1] == spans[i]
    decreases n
  {
    if n > 0 {
      assert spans[..n] == spans[..n - 1] + [spans[n - 1]];
      SelectConcat(spans[..n - 1], [spans[n - 1]], matches, invert);
      SelectOne(spans[n - 1], matches, invert);
      if matches(spans[n - 1].op) == invert {
        LastOfSelected(spans, n - 1, matches, invert);
      }
    }
  }

  lemma StartedSelected(sorted: seq<Span>, addr: int, matches: string -> bool, invert: bool)
    requires SortedBy(sorted, BodyOf)
    ensures var early, late := Select(sorted[..Started(sorted, addr)], matches, invert),
      Select(sorted[Started(sorted, addr)..], matches, invert);
      Select(sorted, matches, invert) == early + late && Started(early + late, addr) == |early|
  {
    var r := Started(sorted, addr);
    var early, late := Select(sorted[..r], matches, invert), Select(sorted[r..], matches, invert);
    forall i | 0 <= i < |sorted| ensures i < r <==> sorted[i].body <= addr {
      StartedCounts(sorted, addr, i);
    }
    SelectKeepsBounds(sorted[..r], matches, invert, addr);
    SelectKeepsBounds(sorted[r..], matches, invert, addr);
    StartedIs(early + late, addr, |early|);
    assert sorted == sorted[..r] + sorted[r..];
    SelectConcat(sorted[..r], sorted[r..], matches, invert);
  }

  lemma LookupLastOf(early: seq<Span>, late: seq<Span>, addr: int)
    requires Started(early + late, addr) == |early|
    ensures Lookup(early + late, addr)
         == if early == [] || addr >= early[|early| - 1].end then None else Some(early[|early| - 1].op)
  {
  }

  /** A lookup among the selected spans looks at the last started one of them. */
  lemma SelectedLookupIs(sorted: seq<Span>, addr: int, matches: string -> bool, invert: bool)
    requires SortedBy(sorted, BodyOf)
    ensures var i := LastSelected(sorted, Started(sorted, addr), matches, invert);
      Lookup(Select(sorted, matches, invert), addr) == if i < 0 ||
        addr >= sorted[i].end then None else Some(sorted[i].op)
  {
    var r := Started(sorted, addr);
    StartedSelected(sorted, addr, matches, invert);
    LastOfSelected(sorted, r, matches, invert);
    LookupLastOf(Select(sorted[..r], matches, invert), Select(sorted[r..], matches, invert), addr);
  }

  /** A span that is hidden has a span of its own kind between itself and the one that hides it. */
  ghost predicate HiddenFromBoth(sorted: seq<Span>, matches: string -> bool) {
    forall j, k :: Hides(sorted, j, k) ==> exists m :: j < m <= k && matches(sorted[m].op) == matches(sorted[j].op)
  }

  /** Whatever all spans find, the selection of its operator finds. */
  lemma FoundIsSelected(sorted: seq<Span>, addr: int, matches: string -> bool)
    requires SortedBy(sorted, BodyOf) && Lookup(sorted, addr).Some?
    ensures Lookup(Select(sorted, matches, false), addr).Some? || Lookup(Select(sorted, matches, true), addr).Some?
  {
    SelectedLookupIs(sorted, addr, matches, false);
    SelectedLookupIs(sorted, addr, matches, true);
  }

  /** What a selection finds and all spans do not is a span hidden behind spans of the other kind. */
  lemma OnlySelectedFinds(sorted: seq<Span>, addr: int, matches: string -> bool, invert: bool)
    requires SortedBy(sorted, BodyOf) && HiddenFromBoth(sorted, matches)
    requires Lookup(Select(sorted, matches, invert), addr).Some?
    ensures Lookup(sorted, addr).Some?
  {
    var r := Started(sorted, addr);
    var i := LastSelected(sorted, r, matches, invert);
    SelectedLookupIs(sorted, addr, matches, invert);
    if Lookup(sorted, addr) == None {
      StartedCounts(sorted, addr, i);
      MissedIsHidden(sorted, addr, i);
    }
  }

  /** A span that is hidden by spans of the other kind alone is found by its selection where all spans miss it. */
  lemma SelectionUncovers(sorted: seq<Span>, matches: string -> bool, j: int, k: int) returns (addr: int)
    requires SortedBy(sorted, BodyOf) && Hides(sorted, j, k)
    requires forall m :: j < m <= k ==> matches(sorted[m].op) != matches(sorted[j].op)
    ensures Lookup(sorted, addr) == None && Lookup(Select(sorted, matches, !matches(sorted[j].op)), addr).Some?
  {
    addr := Max(sorted[k].body, sorted[k].end);
    HiddenIsMissed(sorted, j, k);
    HiddenStarts(sorted, j, k);
    SelectedLookupIs(sorted, addr, matches, !matches(sorted[j].op));
  }

  lemma HiddenStarts(sorted: seq<Span>, j: int, k: int)
    requires SortedBy(sorted, BodyOf) && Hides(sorted, j, k)
    ensures Started(sorted, Max(sorted[k].body, sorted[k].end)) == k + 1
  {
    var addr := Max(sorted[k].body, sorted[k].end);
    forall i | 0 <= i < k + 1 ensures sorted[i].body <= addr {
      assert i < k ==> BodyOf(sorted[i]) <= BodyOf(sorted[k]);
    }
    forall i | k + 1 <= i < |sorted| ensures sorted[i].body > addr {
      assert k + 1 < i ==> BodyOf(sorted[k + 1]) <= BodyOf(sorted[i]);
    }
    StartedIs(sorted, addr, k + 1);
  }

  ghost predicate FindTheSame(spans: seq<Span>, matches: string -> bool) {
    forall addr :: OpAt(spans, addr).Some? <==>
      OpAt(Select(spans, matches, false), addr).Some? || OpAt(Select(spans, matches, true), addr).Some?
  }

  /**
   * For every list of spans: the two selections together find a span wherever all spans do, and nowhere else, exactly
   * if, in body order, every hidden span is also hidden among the spans of its own kind.
   */
  lemma SelectionsFindIff(spans: seq<Span>, matches: string -> bool)
    ensures FindTheSame(spans, matches) <==> HiddenFromBoth(SortBy(spans, BodyOf), matches)
  {
    var sorted := SortBy(spans, BodyOf);
    SortSorts(spans, BodyOf);
    SelectCommutes(spans, matches, false);
    SelectCommutes(spans, matches, true);
    if HiddenFromBoth(sorted, matches) {
      forall addr ensures Lookup(sorted, addr).Some? <==>
        Lookup(Select(sorted, matches, false), addr).Some? || Lookup(Select(sorted, matches, true), addr).Some?
      {
        if Lookup(sorted, addr).Some? {
          FoundIsSelected(sorted, addr, matches);
        }
        if Lookup(Select(sorted, matches, false), addr).Some? {
          OnlySelectedFinds(sorted, addr, matches, false);
        }
        if Lookup(Select(sorted, matches, true), addr).Some? {
          OnlySelectedFinds(sorted, addr, matches, true);
        }
      }
    } else {
      var j, k :| Hides(sorted, j, k) && forall m :: j < m <= k ==> matches(sorted[m].op) != matches(sorted[j].op);
      var addr := SelectionUncovers(sorted, matches, j, k);
      assert OpAt(spans, addr) == None;
    }
  }

  /** The weight of a histogram at the given offsets. */
  function WeightAmong(counts: map<int, nat>, order: seq<int>): nat {
    if order == [] then 0
    else WeightAmong(counts, order[..|order| - 1]) + if order[|order| - 1] in counts then counts[order[|order| - 1]]
      else 0
  }

  lemma {:induction false} WeightsAddUp(a: map<int, nat>, b: map<int, nat>, all: map<int, nat>, order: seq<int>)
    requires a.Keys !! b.Keys && a + b == all
    ensures WeightAmong(a, order) + WeightAmong(b, order) == WeightAmong(all, order)
  {
    if order != [] {
      WeightsAddUp(a, b, all, order[..|order| - 1]);
    }
  }

  lemma KeptIff(kept: map<int, nat>, counts: map<int, nat>, spans: seq<Span>, load: int, o: int)
    requires IsSelection(kept, counts, spans, load)
    ensures o in kept <==> o in counts && OpAt(spans, o + load).Some?
    ensures o in kept ==> kept[o] == counts[o]
  {
    assert Hit(SortBy(spans, BodyOf), load, o) <==> OpAt(spans, o + load).Some?;
  }

  lemma NothingKeptTwice(some: seq<Span>, rest: seq<Span>, counts: map<int, nat>, load: int, kept: map<int, nat>,
                         others: map<int, nat>)
    requires forall addr :: OpAt(some, addr).None? || OpAt(rest, addr).None?
    requires IsSelection(kept, counts, some, load) && IsSelection(others, counts, rest, load)
    ensures kept.Keys !! others.Keys
  {
    forall o ensures o !in kept || o !in others {
      KeptIff(kept, counts, some, load, o);
      KeptIff(others, counts, rest, load, o);
    }
  }

  lemma EachIsKept(spans: seq<Span>, some: seq<Span>, rest: seq<Span>, counts: map<int, nat>, load: int,
                   kept: map<int, nat>, others: map<int, nat>, all: map<int, nat>)
    requires forall addr :: OpAt(spans, addr).Some? <==> OpAt(some, addr).Some? || OpAt(rest, addr).Some?
    requires IsSelection(kept, counts, some, load) && IsSelection(others, counts, rest, load) &&
      IsSelection(all, counts, spans, load)
    ensures kept + others == all
  {
    forall o
      ensures (o in all <==> o in kept || o in others) && (o in kept ==> kept[o] == all[o]) &&
        (o in others ==> others[o] == all[o])
    {
      KeptIff(kept, counts, some, load, o);
      KeptIff(others, counts, rest, load, o);
      KeptIff(all, counts, spans, load, o);
    }
  }

  /** What `--op` keeps and what `--not-op` keeps have no sample in common, whether markers overlap or not. */
  lemma SelectionsAreDisjoint(spans: seq<Span>, counts: map<int, nat>, load: int, matches: string -> bool,
                              kept: map<int, nat>, others: map<int, nat>)
    requires Follow(spans)
    requires IsSelection(kept, counts, Select(spans, matches, false), load)
    requires IsSelection(others, counts, Select(spans, matches, true), load)
    ensures kept.Keys !! others.Keys
  {
    var some, rest := Select(spans, matches, false), Select(spans, matches, true);
    forall addr ensures OpAt(some, addr).None? || OpAt(rest, addr).None? {
      SelectionsExclude(spans, addr, matches);
    }
    NothingKeptTwice(some, rest, counts, load, kept, others);
  }

  /**
   * For spans that follow each other, as all extracted ones do: if every hidden span is hidden among its own kind
   * too, the two selections are together the samples in spans, and their weights add up.
   */
  lemma SelectionSplits(spans: seq<Span>, counts: map<int, nat>, order: seq<int>, load: int, matches: string -> bool,
                        kept: map<int, nat>, others: map<int, nat>, all: map<int, nat>)
    requires Follow(spans) && HiddenFromBoth(SortBy(spans, BodyOf), matches)
    requires IsSelection(kept, counts, Select(spans, matches, false), load)
    requires IsSelection(others, counts, Select(spans, matches, true), load)
    requires IsSelection(all, counts, spans, load)
    ensures kept.Keys !! others.Keys && kept + others == all
    ensures WeightAmong(kept, order) + WeightAmong(others, order) == WeightAmong(all, order)
  {
    SelectionsFindIff(spans, matches);
    SelectionsAreDisjoint(spans, counts, load, matches, kept, others);
    EachIsKept(spans, Select(spans, matches, false), Select(spans, matches, true), counts, load, kept, others, all);
    WeightsAddUp(kept, others, all, order);
  }

  /** Otherwise there are samples that a selection keeps although they lie in no span of all. */
  lemma SelectionsCanDiffer(spans: seq<Span>, matches: string -> bool) returns (addr: int)
    requires !HiddenFromBoth(SortBy(spans, BodyOf), matches)
    ensures forall count: nat, kept: map<int, nat>, others: map<int, nat>, all: map<int, nat> ::
      (&& IsSelection(kept, map[addr := count], Select(spans, matches, false), 0)
       && IsSelection(others, map[addr := count], Select(spans, matches, true), 0)
       && IsSelection(all, map[addr := count], spans, 0)) ==> kept + others != all
  {
    SelectionsFindIff(spans, matches);
    addr :| !(OpAt(spans, addr).Some? <==>
      OpAt(Select(spans, matches, false), addr).Some? || OpAt(Select(spans, matches, true), addr).Some?);
    forall count: nat, kept: map<int, nat>, others: map<int, nat>, all: map<int, nat>
      | && IsSelection(kept, map[addr := count], Select(spans, matches, false), 0)
        && IsSelection(others, map[addr := count], Select(spans, matches, true), 0)
        && IsSelection(all, map[addr := count], spans, 0)
      ensures kept + others != all
    {
      KeptIff(kept, map[addr := count], Select(spans, matches, false), 0, addr);
      KeptIff(others, map[addr := count], Select(spans, matches, true), 0, addr);
      KeptIff(all, map[addr := count], spans, 0, addr);
      assert addr in kept + others <==> addr in kept || addr in others;
    }
  }

  /** Among spans one behind the other nothing is hidden, so the selections always add up. */
  lemma TidySelectionsAddUp(spans: seq<Span>, matches: string -> bool)
    requires Tidy(spans)
    ensures HiddenFromBoth(SortBy(spans, BodyOf), matches)
  {
    TidyIsSorted(spans);
  }
}
