/**
 * Hardware-counter reports: before and after values are paired first in, first out for each operator and node,
 * summed into a table and compared with the run's total.
 */
module CounterReport {
  import opened Collections

  /** Operator, node and counter names, which are only compared. */
  type Name(==, !new)

  datatype Node = Node(op: Name, node: Name)

  datatype Key = Key(node: Node, counter: Name)

  datatype Phase = Before | After | Unknown

  /** One well-formed report line. */
  datatype Event = Event(node: Node, phase: Phase, counter: Name, value: real)

  /** Queued befores, the table, and the first before and last matched after of each counter. */
  datatype State = State(
    pending: map<Key, seq<real>>, accumulated: map<Key, real>, nodes: seq<Node>, counters: seq<Name>,
    firstBefore: map<Name, real>, lastAfter: map<Name, real>)

  const START: State := State(map[], map[], [], [], map[], map[])

  function Queue(s: State, k: Key): seq<real> { if k in s.pending then s.pending[k] else [] }

  function Cell(accumulated: map<Key, real>, k: Key): real { if k in accumulated then accumulated[k] else 0.0 }

  function AddNew<T(==)>(s: seq<T>, x: T): seq<T> { if x in s then s else s + [x] }

  function KeyOf(e: Event): Key { Key(e.node, e.counter) }

  function Noted(s: State, e: Event): State {
    s.(nodes := AddNew(s.nodes, e.node), counters := AddNew(s.counters, e.counter))
  }

  function Step(s: State, e: Event): State {
    var t, k := Noted(s, e), KeyOf(e);
    match e.phase
    case Before =>
      t.(pending := s.pending[k := Queue(s, k) + [e.value]],
         firstBefore := if e.counter in s.firstBefore then s.firstBefore else s.firstBefore[e.counter := e.value])
    case After =>
      if Queue(s, k) == [] then t
      else
        t.(pending := s.pending[k := Queue(s, k)[1..]],
           accumulated := s.accumulated[k := Cell(s.accumulated, k) + (e.value - Queue(s, k)[0])],
           lastAfter := s.lastAfter[e.counter := e.value])
    case Unknown => t
  }

  function Run(events: seq<Event>): State {
    if events == [] then START else Step(Run(events[..|events| - 1]), events[|events| - 1])
  }

  // ---------------------------------------------------------------- the script

  ghost predicate Seen<T(!new)>(listed: seq<T>, seen: set<T>) {
    forall x :: x in seen <==> x in listed
  }

  /** Appends a name the first time it comes. */
  method ListOnce<T(==,!new)>(listed: seq<T>, seen: set<T>, x: T) returns (listed': seq<T>, seen': set<T>)
    requires Seen(listed, seen)
    ensures Seen(listed', seen') && listed' == AddNew(listed, x)
  {
    listed', seen' := listed, seen;
    if x !in seen {
      listed', seen' := listed + [x], seen + {x};
    }
  }

  lemma RunNext(events: seq<Event>, i: nat)
    requires i < |events|
    ensures Run(events[..i + 1]) == Step(Run(events[..i]), events[i])
  {
    assert events[..i + 1][..i] == events[..i];
  }

  lemma NotedFirst(s: State, e: Event)
    ensures Step(Noted(s, e), e) == Step(s, e)
  {
    var t := Noted(s, e);
    assert Noted(t, e) == t && t.pending == s.pending && t.accumulated == s.accumulated;
  }

  /** One measurement of a known operator and counter. */
  method Measure(s: State, e: Event) returns (r: State)
    requires e.node in s.nodes && e.counter in s.counters
    ensures r == Step(s, e)
  {
    r := s;
    var k := Key(e.node, e.counter);
    var queue := if k in s.pending then s.pending[k] else [];
    if e.phase.Before? {
      r := r.(pending := r.pending[k := queue + [e.value]]);
      if e.counter !in r.firstBefore { r := r.(firstBefore := r.firstBefore[e.counter := e.value]); }
    } else if e.phase.After? && queue != [] {
      r := r.(pending := r.pending[k := queue[1..]]);
      r := r.(accumulated := r.accumulated[k := (if k in r.accumulated then r.accumulated[k] else 0.0)
        + (e.value - queue[0])]);
      r := r.(lastAfter := r.lastAfter[e.counter := e.value]);
    }
  }

  method ParseRun(events: seq<Event>) returns (s: State)
    ensures s == Run(events)
  {
    s := START;
    var seenNodes: set<Node>, seenCounters: set<Name> := {}, {};
    for i := 0 to |events|
      invariant s == Run(events[..i])
      invariant Seen(s.nodes, seenNodes) && Seen(s.counters, seenCounters)
    {
      RunNext(events, i);
      NotedFirst(s, events[i]);
      var nodes, counters;
      nodes, seenNodes := ListOnce(s.nodes, seenNodes, events[i].node);
      counters, seenCounters := ListOnce(s.counters, seenCounters, events[i].counter);
      s := Measure(s.(nodes := nodes, counters := counters), events[i]);
    }
    assert events[..|events|] == events;
  }

  // ---------------------------------------------------------------- first in, first out

  function Sum(s: seq<real>): real { if s == [] then 0.0 else Sum(s[..|s| - 1]) + s[|s| - 1] }

  /** All befores of a key. */
  function Befores(events: seq<Event>, k: Key): seq<real> {
    if events == [] then []
    else
      var last, front := events[|events| - 1], Befores(events[..|events| - 1], k);
      if KeyOf(last) == k && last.phase.Before? then front + [last.value] else front
  }

  /** The afters of a key that find a before not yet used by an earlier after. */
  function MatchedAfters(events: seq<Event>, k: Key): seq<real> {
    if events == [] then []
    else
      var prefix := events[..|events| - 1];
      var last, front := events[|events| - 1], MatchedAfters(prefix, k);
      if KeyOf(last) == k && last.phase.After? && |front| < |Befores(prefix, k)| then front + [last.value] else front
  }

  lemma SumNext(s: seq<real>, x: real)
    ensures Sum(s + [x]) == Sum(s) + x
  {
    assert (s + [x])[..|s|] == s;
  }

  lemma Used(befores: seq<real>, n: nat)
    requires n < |befores|
    ensures Sum(befores[..n + 1]) == Sum(befores[..n]) + befores[n]
  {
    assert befores[..n + 1] == befores[..n] + [befores[n]];
    SumNext(befores[..n], befores[n]);
  }

  /** A cell and its queue, from the befores and the matched afters of the key. */
  ghost predicate Pairs(s: State, k: Key, befores: seq<real>, afters: seq<real>) {
    |afters| <= |befores| && Queue(s, k) == befores[|afters|..] &&
    Cell(s.accumulated, k) == Sum(afters) - Sum(befores[..|afters|])
  }

  lemma PairsBefore(s: State, e: Event, befores: seq<real>, afters: seq<real>)
    requires Pairs(s, KeyOf(e), befores, afters) && e.phase.Before?
    ensures Pairs(Step(s, e), KeyOf(e), befores + [e.value], afters)
  {
    assert (befores + [e.value])[|afters|..] == befores[|afters|..] + [e.value];
    assert (befores + [e.value])[..|afters|] == befores[..|afters|];
  }

  lemma PairsAfter(s: State, e: Event, befores: seq<real>, afters: seq<real>)
    requires Pairs(s, KeyOf(e), befores, afters) && e.phase.After? && |afters| < |befores|
    ensures Pairs(Step(s, e), KeyOf(e), befores, afters + [e.value])
  {
    assert befores[|afters|..][1..] == befores[|afters| + 1..];
    SumNext(afters, e.value);
    Used(befores, |afters|);
  }

  /** For every trace, a cell is the sum of its matched afters minus the sum of equally many oldest befores. */
  lemma {:induction false} PairingConserves(events: seq<Event>, k: Key)
    ensures Pairs(Run(events), k, Befores(events, k), MatchedAfters(events, k))
  {
    if events != [] {
      var prefix, e := events[..|events| - 1], events[|events| - 1];
      PairingConserves(prefix, k);
      var befores, afters := Befores(prefix, k), MatchedAfters(prefix, k);
      if KeyOf(e) == k && e.phase.Before? {
        PairsBefore(Run(prefix), e, befores, afters);
      } else if KeyOf(e) == k && e.phase.After? && |afters| < |befores| {
        PairsAfter(Run(prefix), e, befores, afters);
      }
    }
  }

  // ---------------------------------------------------------------- column sums

  /** The column of a counter, summed over all rows. */
  function Column(accumulated: map<Key, real>, nodes: seq<Node>, counter: Name): real {
    if nodes == [] then 0.0
    else Column(accumulated, nodes[..|nodes| - 1], counter) + Cell(accumulated, Key(nodes[|nodes| - 1], counter))
  }

  /** What an event adds to a counter's column. */
  function Gain(s: State, e: Event, counter: Name): real {
    if e.counter == counter && e.phase.After? && Queue(s, KeyOf(e)) != [] then e.value - Queue(s, KeyOf(e))[0] else 0.0
  }

  function Gains(events: seq<Event>, counter: Name): real {
    if events == [] then 0.0
    else
      var prefix := events[..|events| - 1];
      Gains(prefix, counter) + Gain(Run(prefix), events[|events| - 1], counter)
  }

  /** Rows are listed once, and every filled cell has a row. */
  lemma {:induction false} RowsAreComplete(events: seq<Event>)
    ensures Distinct(Run(events).nodes)
    ensures forall k :: k in Run(events).accumulated || Queue(Run(events), k) != [] ==> k.node in Run(events).nodes
  {
    if events != [] {
      RowsAreComplete(events[..|events| - 1]);
    }
  }

  lemma {:induction false} ColumnUnchanged(a: map<Key, real>, b: map<Key, real>, nodes: seq<Node>, counter: Name)
    requires forall i :: 0 <= i < |nodes| ==> Cell(a, Key(nodes[i], counter)) == Cell(b, Key(nodes[i], counter))
    ensures Column(a, nodes, counter) == Column(b, nodes, counter)
  {
    if nodes != [] {
      ColumnUnchanged(a, b, nodes[..|nodes| - 1], counter);
    }
  }

  /** Changing one cell of a column changes its sum by the same amount. */
  lemma {:induction false} ColumnChanges(a: map<Key, real>, k: Key, v: real, nodes: seq<Node>)
    requires Distinct(nodes) && k.node in nodes
    ensures Column(a[k := v], nodes, k.counter) == Column(a, nodes, k.counter) + (v - Cell(a, k))
  {
    var n := |nodes| - 1;
    if nodes[n] == k.node {
      assert k == Key(nodes[n], k.counter);
      ColumnUnchanged(a, a[k := v], nodes[..n], k.counter);
    } else {
      assert k.node in nodes[..n];
      ColumnChanges(a, k, v, nodes[..n]);
    }
  }

  lemma ColumnNewRow(a: map<Key, real>, nodes: seq<Node>, n: Node, counter: Name)
    requires Key(n, counter) in a ==> n in nodes
    ensures Column(a, AddNew(nodes, n), counter) == Column(a, nodes, counter)
  {
    if n !in nodes {
      assert (nodes + [n])[..|nodes|] == nodes;
    }
  }

  /** Changing a cell adds to its own column only. */
  lemma CellAdds(a: map<Key, real>, nodes: seq<Node>, k: Key, gain: real, counter: Name)
    requires Distinct(nodes) && k.node in nodes
    ensures Column(a[k := Cell(a, k) + gain], nodes, counter)
         == Column(a, nodes, counter) + if k.counter == counter then gain else 0.0
  {
    if k.counter == counter {
      ColumnChanges(a, k, Cell(a, k) + gain, nodes);
    } else {
      ColumnUnchanged(a, a[k := Cell(a, k) + gain], nodes, counter);
    }
  }

  lemma StepAddsGain(s: State, e: Event, counter: Name)
    requires Distinct(s.nodes)
    requires Key(e.node, counter) in s.accumulated || Queue(s, KeyOf(e)) != [] ==> e.node in s.nodes
    ensures Column(Step(s, e).accumulated, Step(s, e).nodes, counter)
         == Column(s.accumulated, s.nodes, counter) + Gain(s, e, counter)
  {
    ColumnNewRow(s.accumulated, s.nodes, e.node, counter);
    if e.phase.After? && Queue(s, KeyOf(e)) != [] {
      AfterAddsGain(s, e, counter);
    }
  }

  lemma AfterAddsGain(s: State, e: Event, counter: Name)
    requires Distinct(s.nodes) && e.node in s.nodes && e.phase.After? && Queue(s, KeyOf(e)) != []
    ensures Step(s, e).nodes == s.nodes
    ensures Column(Step(s, e).accumulated, s.nodes, counter)
         == Column(s.accumulated, s.nodes, counter) + Gain(s, e, counter)
  {
    var k, gain := KeyOf(e), e.value - Queue(s, KeyOf(e))[0];
    CellAdds(s.accumulated, s.nodes, k, gain, counter);
    assert Step(s, e).accumulated == s.accumulated[k := Cell(s.accumulated, k) + gain];
  }

  lemma {:induction false} ColumnIsGains(events: seq<Event>, counter: Name)
    ensures Column(Run(events).accumulated, Run(events).nodes, counter) == Gains(events, counter)
  {
    if events != [] {
      var prefix := events[..|events| - 1];
      ColumnIsGains(prefix, counter);
      RowsAreComplete(prefix);
      StepAddsGain(Run(prefix), events[|events| - 1], counter);
    }
  }

  // ---------------------------------------------------------------- one counter's events

  predicate Counts(e: Event, counter: Name) { e.counter == counter && !e.phase.Unknown? }

  function Of(events: seq<Event>, counter: Name): seq<Event> {
    if events == [] then []
    else
      var last, front := events[|events| - 1], Of(events[..|events| - 1], counter);
      if Counts(last, counter) then front + [last] else front
  }

  /** Two states that a counter's events cannot tell apart. */
  ghost predicate SameFor(s: State, t: State, counter: Name) {
    (forall n :: Queue(s, Key(n, counter)) == Queue(t, Key(n, counter))) && SameEnds(s, t, counter)
  }

  lemma QueueAfter(s: State, e: Event, k: Key)
    ensures Queue(Step(s, e), k)
         == if k != KeyOf(e) || e.phase.Unknown? then Queue(s, k)
            else if e.phase.Before? then Queue(s, k) + [e.value]
            else if Queue(s, k) == [] then [] else Queue(s, k)[1..]
  {
  }

  lemma StepKeepsQueues(s: State, t: State, e: Event, counter: Name, n: Node)
    requires Queue(s, Key(n, counter)) == Queue(t, Key(n, counter))
    ensures Queue(Step(s, e), Key(n, counter))
         == Queue(if Counts(e, counter) then Step(t, e) else t, Key(n, counter))
  {
    QueueAfter(s, e, Key(n, counter));
    QueueAfter(t, e, Key(n, counter));
  }

  /** The first before and the last after of a counter. */
  predicate SameEnds(s: State, t: State, counter: Name) {
    (counter in s.firstBefore <==> counter in t.firstBefore) &&
    (counter in s.firstBefore ==> s.firstBefore[counter] == t.firstBefore[counter]) &&
    (counter in s.lastAfter <==> counter in t.lastAfter) &&
    (counter in s.lastAfter ==> s.lastAfter[counter] == t.lastAfter[counter])
  }

  lemma StepKeepsEnds(s: State, t: State, e: Event, counter: Name)
    requires SameEnds(s, t, counter) && (e.counter == counter ==> Queue(s, KeyOf(e)) == Queue(t, KeyOf(e)))
    ensures SameEnds(Step(s, e), if Counts(e, counter) then Step(t, e) else t, counter)
    ensures Gain(s, e, counter) == Gain(t, e, counter)
  {
  }

  lemma StepKeepsSame(s: State, t: State, e: Event, counter: Name)
    requires SameFor(s, t, counter)
    ensures SameFor(Step(s, e), if Counts(e, counter) then Step(t, e) else t, counter)
    ensures Gain(s, e, counter) == Gain(t, e, counter)
  {
    assert Queue(s, Key(e.node, counter)) == Queue(t, Key(e.node, counter));
    StepKeepsEnds(s, t, e, counter);
    var next := if Counts(e, counter) then Step(t, e) else t;
    forall n ensures Queue(Step(s, e), Key(n, counter)) == Queue(next, Key(n, counter)) {
      StepKeepsQueues(s, t, e, counter, n);
    }
  }

  /** Other counters' events do not matter. */
  lemma {:induction false} OnlyOwnEventsMatter(events: seq<Event>, counter: Name)
    ensures SameFor(Run(events), Run(Of(events, counter)), counter)
    ensures Gains(events, counter) == Gains(Of(events, counter), counter)
  {
    if events != [] {
      var prefix, e := events[..|events| - 1], events[|events| - 1];
      var own := Of(prefix, counter);
      OnlyOwnEventsMatter(prefix, counter);
      StepKeepsSame(Run(prefix), Run(own), e, counter);
      assert (own + [e])[..|own|] == own;
    }
  }

  // ---------------------------------------------------------------- sequential runs

  /** One invocation after the other: each before is directly followed by its own after. */
  predicate Sequential(own: seq<Event>, counter: Name) {
    var n := |own|;
    n == 0 ||
    (n >= 2 && Counts(own[n - 2], counter) && Counts(own[n - 1], counter) &&
     own[n - 2].phase.Before? && own[n - 1].phase.After? && own[n - 2].node == own[n - 1].node &&
     Sequential(own[..n - 2], counter))
  }

  /** What the counter moved between invocations. */
  function Gaps(own: seq<Event>): real {
    var n := |own|;
    if n <= 2 then 0.0 else Gaps(own[..n - 2]) + (own[n - 2].value - own[n - 3].value)
  }

  /** Each before equals the preceding after. */
  predicate Tiles(own: seq<Event>) {
    var n := |own|;
    n <= 2 || (own[n - 2].value == own[n - 3].value && Tiles(own[..n - 2]))
  }

  /** Event i is the before of an invocation that event i + 1 ends, or an after. */
  ghost predicate Alternates(own: seq<Event>, counter: Name, i: nat)
    requires i < |own|
  {
    && Counts(own[i], counter)
    && if i % 2 == 1 then own[i].phase.After?
       else own[i].phase.Before? && i + 1 < |own| && own[i].node == own[i + 1].node
  }

  /** Event by event: befores at the even places, each with the after of its own node behind it. */
  lemma {:induction false} SequentialIff(own: seq<Event>, counter: Name)
    ensures Sequential(own, counter) <==> |own| % 2 == 0 && forall i :: 0 <= i < |own| ==> Alternates(own, counter, i)
    decreases |own|
  {
    var n := |own|;
    if n >= 2 {
      var front := own[..n - 2];
      SequentialIff(front, counter);
      assert n % 2 == (n - 2) % 2;
      if n % 2 == 0 {
        assert forall i :: 0 <= i < n - 2 ==> (Alternates(own, counter, i) <==> Alternates(front, counter, i));
        assert Sequential(own, counter) <==>
          Sequential(front, counter) && Alternates(own, counter, n - 2) && Alternates(own, counter, n - 1);
      }
    } else if n == 1 {
      assert !Sequential(own, counter);
    }
  }

  lemma {:induction false} TilesIff(own: seq<Event>)
    requires |own| % 2 == 0
    ensures Tiles(own) <==> forall i :: 0 < i < |own| && i % 2 == 0 ==> own[i].value == own[i - 1].value
    decreases |own|
  {
    var n := |own|;
    if n > 2 {
      var front := own[..n - 2];
      TilesIff(front);
      assert forall i :: 0 <= i < n - 2 ==> front[i] == own[i];
    }
  }

  lemma {:induction false} TilesHaveNoGaps(own: seq<Event>)
    requires Tiles(own)
    ensures Gaps(own) == 0.0
  {
    if |own| > 2 {
      TilesHaveNoGaps(own[..|own| - 2]);
    }
  }

  /** After sequential invocations nothing is queued, and the counter's ends are those of its events. */
  ghost predicate Settled(s: State, own: seq<Event>, counter: Name) {
    (forall n :: Queue(s, Key(n, counter)) == []) &&
    (if own == [] then counter !in s.firstBefore && counter !in s.lastAfter
     else counter in s.firstBefore && s.firstBefore[counter] == own[0].value &&
          counter in s.lastAfter && s.lastAfter[counter] == own[|own| - 1].value)
  }

  lemma InvocationSettles(s: State, own: seq<Event>, counter: Name, b: Event, a: Event)
    requires Settled(s, own, counter) && Counts(b, counter) && Counts(a, counter)
    requires b.phase.Before? && a.phase.After? && b.node == a.node
    ensures Settled(Step(Step(s, b), a), own + [b, a], counter)
    ensures Gain(s, b, counter) == 0.0 && Gain(Step(s, b), a, counter) == a.value - b.value
  {
    var k := KeyOf(b);
    assert Queue(s, Key(b.node, counter)) == [];
    QueueAfter(s, b, k);
    forall n ensures Queue(Step(Step(s, b), a), Key(n, counter)) == [] {
      QueueAfter(s, b, Key(n, counter));
      QueueAfter(Step(s, b), a, Key(n, counter));
    }
  }

  lemma RunTwo(front: seq<Event>, b: Event, a: Event, counter: Name)
    ensures Run(front + [b, a]) == Step(Step(Run(front), b), a)
    ensures Gains(front + [b, a], counter)
         == Gains(front, counter) + Gain(Run(front), b, counter) + Gain(Step(Run(front), b), a, counter)
  {
    var own := front + [b, a];
    assert own[..|own| - 1] == front + [b];
    assert (front + [b])[..|front|] == front;
  }

  lemma InvocationGains(front: seq<Event>, b: Event, a: Event, counter: Name)
    requires Settled(Run(front), front, counter) && Counts(b, counter) && Counts(a, counter)
    requires b.phase.Before? && a.phase.After? && b.node == a.node
    ensures Settled(Run(front + [b, a]), front + [b, a], counter)
    ensures Gains(front + [b, a], counter) == Gains(front, counter) + (a.value - b.value)
  {
    InvocationSettles(Run(front), front, counter, b, a);
    RunTwo(front, b, a, counter);
  }

  lemma {:induction false} SequentialSettles(own: seq<Event>, counter: Name)
    requires Sequential(own, counter)
    ensures Settled(Run(own), own, counter)
  {
    var n := |own|;
    if n > 0 {
      var front, b, a := own[..n - 2], own[n - 2], own[n - 1];
      SequentialSettles(front, counter);
      assert own == front + [b, a];
      InvocationGains(front, b, a, counter);
    }
  }

  lemma {:induction false} SequentialTelescopes(own: seq<Event>, counter: Name)
    requires Sequential(own, counter) && own != []
    ensures Gains(own, counter) + Gaps(own) == own[|own| - 1].value - own[0].value
  {
    var n := |own|;
    var front, b, a := own[..n - 2], own[n - 2], own[n - 1];
    SequentialSettles(front, counter);
    InvocationGains(front, b, a, counter);
    assert own == front + [b, a];
    if n > 2 {
      SequentialTelescopes(front, counter);
      assert front[|front| - 1] == own[n - 3] && front[0] == own[0];
    }
  }

  // ---------------------------------------------------------------- the total row

  /** The total row's entry: reported only for a counter with a before and a matched after. */
  predicate HasTotal(s: State, counter: Name) {
    counter in s.counters && counter in s.firstBefore && counter in s.lastAfter
  }

  function Total(s: State, counter: Name): real
    requires HasTotal(s, counter)
  {
    s.lastAfter[counter] - s.firstBefore[counter]
  }

  lemma StepLists(s: State, e: Event, counter: Name)
    requires counter in s.firstBefore ==> counter in s.counters
    ensures counter in Step(s, e).firstBefore ==> counter in Step(s, e).counters
  {
  }

  lemma {:induction false} CountersAreListed(events: seq<Event>, counter: Name)
    requires counter in Run(events).firstBefore
    ensures counter in Run(events).counters
  {
    var n := |events| - 1;
    if counter in Run(events[..n]).firstBefore {
      CountersAreListed(events[..n], counter);
    }
    StepLists(Run(events[..n]), events[n], counter);
  }

  /** For sequential invocations the total is the column sum plus what the counter moved in between. */
  lemma TotalIsColumnPlusGaps(events: seq<Event>, counter: Name)
    requires Sequential(Of(events, counter), counter) && Of(events, counter) != []
    ensures var s := Run(events);
      HasTotal(s, counter) && Total(s, counter) == Column(s.accumulated, s.nodes, counter) + Gaps(Of(events, counter))
  {
    var own := Of(events, counter);
    OnlyOwnEventsMatter(events, counter);
    SequentialSettles(own, counter);
    SequentialTelescopes(own, counter);
    ColumnIsGains(events, counter);
    CountersAreListed(events, counter);
  }

  /** When a counter's invocations tile the run, its column adds up to the reported total. */
  lemma ColumnTelescopes(events: seq<Event>, counter: Name)
    requires Sequential(Of(events, counter), counter) && Of(events, counter) != [] && Tiles(Of(events, counter))
    ensures var s := Run(events);
      HasTotal(s, counter) && Column(s.accumulated, s.nodes, counter) == Total(s, counter)
  {
    TotalIsColumnPlusGaps(events, counter);
    TilesHaveNoGaps(Of(events, counter));
  }

  // ---------------------------------------------------------------- averaging runs

  function AddAllNew<T(==)>(s: seq<T>, more: seq<T>): seq<T> {
    if more == [] then s else AddNew(AddAllNew(s, more[..|more| - 1]), more[|more| - 1])
  }

  /** The rows of all runs, in the order in which they first appear. */
  function AllNodes(runs: seq<State>): seq<Node> {
    if runs == [] then [] else AddAllNew(AllNodes(runs[..|runs| - 1]), runs[|runs| - 1].nodes)
  }

  function CellSum(runs: seq<State>, k: Key): real {
    if runs == [] then 0.0 else CellSum(runs[..|runs| - 1], k) + Cell(runs[|runs| - 1].accumulated, k)
  }

  function TotalSum(runs: seq<State>, counter: Name): real {
    if runs == [] then 0.0
    else
      var last := runs[|runs| - 1];
      TotalSum(runs[..|runs| - 1], counter) + if HasTotal(last, counter) then Total(last, counter) else 0.0
  }

  function TotalCount(runs: seq<State>, counter: Name): nat {
    if runs == [] then 0
    else TotalCount(runs[..|runs| - 1], counter) + if HasTotal(runs[|runs| - 1], counter) then 1 else 0
  }

  /** A cell of the averaged table: a run without the cell counts as zero. */
  function AveragedCell(runs: seq<State>, k: Key): real
    requires runs != []
  {
    CellSum(runs, k) / (|runs| as real)
  }

  /** The averaged total: a run without the counter's total is left out. */
  function AveragedTotal(runs: seq<State>, counter: Name): real
    requires TotalCount(runs, counter) > 0
  {
    TotalSum(runs, counter) / (TotalCount(runs, counter) as real)
  }

  function AveragedColumn(runs: seq<State>, nodes: seq<Node>, counter: Name): real
    requires runs != []
  {
    if nodes == [] then 0.0
    else AveragedColumn(runs, nodes[..|nodes| - 1], counter) + AveragedCell(runs, Key(nodes[|nodes| - 1], counter))
  }

  function ColumnSums(runs: seq<State>, nodes: seq<Node>, counter: Name): real {
    if runs == [] then 0.0
    else ColumnSums(runs[..|runs| - 1], nodes, counter) + Column(runs[|runs| - 1].accumulated, nodes, counter)
  }

  /** Rows of a table that are listed once and have all its cells. */
  ghost predicate RowsOf(nodes: seq<Node>, accumulated: map<Key, real>) {
    Distinct(nodes) && forall k :: k in accumulated ==> k.node in nodes
  }

  lemma FirstIsMember<T>(s: seq<T>)
    ensures s == [] || s[0] in s
  {
  }

  /** Summing over more rows than a table has changes nothing. */
  lemma {:induction false} ColumnOverMoreRows(a: map<Key, real>, few: seq<Node>, many: seq<Node>, counter: Name)
    requires Distinct(few) && Distinct(many) && forall n :: n in few ==> n in many
    requires forall n :: n in many && Key(n, counter) in a ==> n in few
    ensures Column(a, many, counter) == Column(a, few, counter)
    decreases |many|
  {
    if many == [] {
      FirstIsMember(few);
    } else {
      var m := |many| - 1;
      var x := many[m];
      if x in few {
        var i :| 0 <= i < |few| && few[i] == x;
        var fewer := few[..i] + few[i + 1..];
        ColumnWithout(a, few, i, counter);
        forall n | n in fewer ensures n in many[..m] {
          WithoutIs(few, i, n);
        }
        forall n | n in many[..m] && Key(n, counter) in a ensures n in fewer {
          WithoutIs(few, i, n);
        }
        ColumnOverMoreRows(a, fewer, many[..m], counter);
      } else {
        ColumnOverMoreRows(a, few, many[..m], counter);
      }
    }
  }

  lemma WithoutIs(few: seq<Node>, i: nat, n: Node)
    requires Distinct(few) && i < |few|
    ensures n in few[..i] + few[i + 1..] <==> n in few && n != few[i]
    ensures Distinct(few[..i] + few[i + 1..])
  {
    var fewer := few[..i] + few[i + 1..];
    if n in few && n != few[i] {
      var j :| 0 <= j < |few| && few[j] == n;
      assert fewer[if j < i then j else j - 1] == n;
    }
  }

  lemma {:induction false} ColumnWithout(a: map<Key, real>, nodes: seq<Node>, i: nat, counter: Name)
    requires i < |nodes|
    ensures Column(a, nodes, counter)
         == Column(a, nodes[..i] + nodes[i + 1..], counter) + Cell(a, Key(nodes[i], counter))
  {
    var n := |nodes| - 1;
    if i == n {
      assert nodes[..i] + nodes[i + 1..] == nodes[..n];
    } else {
      ColumnWithout(a, nodes[..n], i, counter);
      var fewer := nodes[..i] + nodes[i + 1..];
      assert fewer[..|fewer| - 1] == nodes[..n][..i] + nodes[..n][i + 1..] && fewer[|fewer| - 1] == nodes[n];
    }
  }

  lemma {:induction false} AddedRows(s: seq<Node>, more: seq<Node>)
    requires Distinct(s)
    ensures Distinct(AddAllNew(s, more))
    ensures forall n :: n in AddAllNew(s, more) <==> n in s || n in more
  {
    if more != [] {
      var m := |more| - 1;
      AddedRows(s, more[..m]);
      assert more == more[..m] + [more[m]];
    }
  }

  /** The averaged table lists every row of every run once. */
  lemma {:induction false} AllRows(runs: seq<State>)
    ensures Distinct(AllNodes(runs))
    ensures forall i, n :: 0 <= i < |runs| && n in runs[i].nodes ==> n in AllNodes(runs)
  {
    if runs != [] {
      var m := |runs| - 1;
      AllRows(runs[..m]);
      AddedRows(AllNodes(runs[..m]), runs[m].nodes);
      forall i, n | 0 <= i < |runs| && n in runs[i].nodes ensures n in AllNodes(runs) {
        assert i < m ==> runs[..m][i] == runs[i];
      }
    }
  }

  /** Summing cell by cell and summing column by column agree. */
  lemma {:induction false} CellsThenRuns(runs: seq<State>, nodes: seq<Node>, n: Node, counter: Name)
    ensures ColumnSums(runs, nodes + [n], counter) == ColumnSums(runs, nodes, counter) + CellSum(runs, Key(n, counter))
  {
    if runs != [] {
      CellsThenRuns(runs[..|runs| - 1], nodes, n, counter);
      assert (nodes + [n])[..|nodes|] == nodes;
    }
  }

  lemma {:induction false} NoRows(runs: seq<State>, counter: Name)
    ensures ColumnSums(runs, [], counter) == 0.0
  {
    if runs != [] {
      NoRows(runs[..|runs| - 1], counter);
    }
  }

  lemma Divide(a: real, b: real, n: real)
    requires n > 0.0
    ensures a / n + b / n == (a + b) / n
  {
  }

  lemma {:induction false} AveragedIsSum(runs: seq<State>, nodes: seq<Node>, counter: Name)
    requires runs != []
    ensures AveragedColumn(runs, nodes, counter) == ColumnSums(runs, nodes, counter) / (|runs| as real)
  {
    if nodes == [] {
      NoRows(runs, counter);
    } else {
      var m := |nodes| - 1;
      AveragedIsSum(runs, nodes[..m], counter);
      CellsThenRuns(runs, nodes[..m], nodes[m], counter);
      assert nodes == nodes[..m] + [nodes[m]];
      Divide(ColumnSums(runs, nodes[..m], counter), CellSum(runs, Key(nodes[m], counter)), |runs| as real);
    }
  }

  /** Each run's column adds up to its total. */
  ghost predicate AddsUp(s: State, counter: Name) {
    RowsOf(s.nodes, s.accumulated) && HasTotal(s, counter) &&
    Column(s.accumulated, s.nodes, counter) == Total(s, counter)
  }

  lemma {:induction false} SumsOfTotals(runs: seq<State>, nodes: seq<Node>, counter: Name)
    requires Distinct(nodes) && forall i :: 0 <= i < |runs| ==> AddsUp(runs[i], counter)
    requires forall i, n :: 0 <= i < |runs| && n in runs[i].nodes ==> n in nodes
    ensures ColumnSums(runs, nodes, counter) == TotalSum(runs, counter) && TotalCount(runs, counter) == |runs|
  {
    if runs != [] {
      var m := |runs| - 1;
      assert forall i :: 0 <= i < m ==> runs[..m][i] == runs[i];
      SumsOfTotals(runs[..m], nodes, counter);
      var last := runs[m];
      assert AddsUp(last, counter);
      ColumnOverMoreRows(last.accumulated, last.nodes, nodes, counter);
    }
  }

  /** If in each run the column adds up to the total, so it does in the averaged table. */
  lemma AverageAddsUp(runs: seq<State>, counter: Name)
    requires runs != [] && forall i :: 0 <= i < |runs| ==> AddsUp(runs[i], counter)
    ensures TotalCount(runs, counter) > 0
    ensures AveragedColumn(runs, AllNodes(runs), counter) == AveragedTotal(runs, counter)
  {
    AllRows(runs);
    SumsOfTotals(runs, AllNodes(runs), counter);
    AveragedIsSum(runs, AllNodes(runs), counter);
  }

  // ---------------------------------------------------------------- runs without a total

  lemma SumsNext(runs: seq<State>, s: State, counter: Name)
    ensures TotalSum(runs + [s], counter) == TotalSum(runs, counter) + if HasTotal(s, counter) then Total(s, counter)
      else 0.0
    ensures TotalCount(runs + [s], counter) == TotalCount(runs, counter) + if HasTotal(s, counter) then 1 else 0
  {
    assert (runs + [s])[..|runs|] == runs;
  }

  /** Those of the runs that have the counter's total. */
  function WithTotal(runs: seq<State>, counter: Name): seq<State> {
    if runs == [] then []
    else
      var n := |runs| - 1;
      WithTotal(runs[..n], counter) + if HasTotal(runs[n], counter) then [runs[n]] else []
  }

  /** The sum of the totals of runs that all have one, run by run. */
  function SumOfTotals(runs: seq<State>, counter: Name): real
    requires forall s :: s in runs ==> HasTotal(s, counter)
  {
    if runs == [] then 0.0
    else
      assert HasTotal(runs[0], counter);
      (runs[0].lastAfter[counter] - runs[0].firstBefore[counter]) + SumOfTotals(runs[1..], counter)
  }

  lemma {:induction false} SumOfTotalsNext(runs: seq<State>, s: State, counter: Name)
    requires HasTotal(s, counter) && forall r :: r in runs ==> HasTotal(r, counter)
    ensures SumOfTotals(runs + [s], counter) == SumOfTotals(runs, counter) + Total(s, counter)
  {
    if runs == [] {
      assert [] + [s] == [s] && [s][1..] == [];
    } else {
      assert (runs + [s])[1..] == runs[1..] + [s] && (runs + [s])[0] == runs[0];
      SumOfTotalsNext(runs[1..], s, counter);
    }
  }

  lemma {:induction false} WithTotalHas(runs: seq<State>, counter: Name)
    ensures forall s :: s in WithTotal(runs, counter) <==> s in runs && HasTotal(s, counter)
    ensures TotalCount(runs, counter) == |WithTotal(runs, counter)|
    ensures TotalSum(runs, counter) == SumOfTotals(WithTotal(runs, counter), counter)
  {
    if runs != [] {
      var n := |runs| - 1;
      WithTotalHas(runs[..n], counter);
      assert runs == runs[..n] + [runs[n]];
      if HasTotal(runs[n], counter) {
        SumOfTotalsNext(WithTotal(runs[..n], counter), runs[n], counter);
      } else {
        assert WithTotal(runs, counter) == WithTotal(runs[..n], counter);
      }
    }
  }

  /** The averaged total is the sum of the totals there are, divided by their number; the other runs do not count. */
  lemma AverageOfTotals(runs: seq<State>, counter: Name)
    ensures TotalCount(runs, counter) > 0 <==> exists s :: s in runs && HasTotal(s, counter)
    ensures TotalCount(runs, counter) > 0 ==>
      var some := WithTotal(runs, counter);
      && some != [] && (forall s :: s in some <==> s in runs && HasTotal(s, counter))
      && AveragedTotal(runs, counter) == SumOfTotals(some, counter) / (|some| as real)
  {
    WithTotalHas(runs, counter);
    if TotalCount(runs, counter) > 0 {
      assert WithTotal(runs, counter)[0] in runs;
    }
    if s :| s in runs && HasTotal(s, counter) {
      assert s in WithTotal(runs, counter);
    }
  }

  lemma Cancel(a: real, n: real)
    requires n > 0.0
    ensures a / n * n == a
  {
  }

  lemma CellSumNext(runs: seq<State>, s: State, k: Key)
    ensures CellSum(runs + [s], k) == CellSum(runs, k) + Cell(s.accumulated, k)
  {
    assert (runs + [s])[..|runs|] == runs;
  }

  lemma {:induction false} SomeRunHasTotal(runs: seq<State>, counter: Name)
    ensures TotalCount(runs, counter) > 0 ==> runs != []
  {
  }

  /** A further run without the counter's total leaves the averaged total as it is. */
  lemma MissingTotalIsLeftOut(runs: seq<State>, s: State, counter: Name)
    requires TotalCount(runs, counter) > 0 && !HasTotal(s, counter)
    ensures TotalCount(runs + [s], counter) > 0 && AveragedTotal(runs + [s], counter) == AveragedTotal(runs, counter)
  {
    SumsNext(runs, s, counter);
  }

  lemma CellTimesRuns(runs: seq<State>, k: Key)
    requires runs != []
    ensures AveragedCell(runs, k) * (|runs| as real) == CellSum(runs, k)
  {
    Cancel(CellSum(runs, k), |runs| as real);
  }

  /** A further run without a cell counts as zero for it. */
  lemma MissingCellIsZero(runs: seq<State>, s: State, k: Key)
    requires runs != [] && k !in s.accumulated
    ensures AveragedCell(runs + [s], k) * ((|runs| + 1) as real) == AveragedCell(runs, k) * (|runs| as real)
  {
    CellSumNext(runs, s, k);
    CellTimesRuns(runs + [s], k);
    CellTimesRuns(runs, k);
  }

  lemma {:induction false} EmptyColumn(a: map<Key, real>, nodes: seq<Node>, counter: Name)
    requires forall k :: k in a ==> k.counter != counter
    ensures Column(a, nodes, counter) == 0.0
  {
    if nodes != [] {
      EmptyColumn(a, nodes[..|nodes| - 1], counter);
    }
  }

  /** A cell of a counter is only filled together with its ends. */
  ghost predicate CellsHaveEnds(s: State) {
    && (forall k :: k in s.accumulated ==> k.counter in s.lastAfter && k.counter in s.firstBefore)
    && (forall k :: Queue(s, k) != [] ==> k.counter in s.firstBefore)
    && forall c :: c in s.firstBefore ==> c in s.counters
  }

  lemma StepKeepsCells(s: State, e: Event)
    requires CellsHaveEnds(s)
    ensures CellsHaveEnds(Step(s, e))
  {
    var t := Step(s, e);
    forall k | Queue(t, k) != [] ensures k.counter in t.firstBefore {
      if k != KeyOf(e) {
        assert Queue(t, k) == Queue(s, k);
      }
    }
    forall k | k in t.accumulated ensures k.counter in t.lastAfter && k.counter in t.firstBefore {
      if k !in s.accumulated {
        assert k == KeyOf(e) && Queue(s, k) != [];
      }
    }
  }

  /** A run without a counter's total has none of its cells. */
  lemma {:induction false} NoTotalNoCells(events: seq<Event>, counter: Name)
    ensures CellsHaveEnds(Run(events))
    ensures !HasTotal(Run(events), counter) ==> forall k :: k in Run(events).accumulated ==> k.counter != counter
  {
    if events != [] {
      var n := |events| - 1;
      NoTotalNoCells(events[..n], counter);
      StepKeepsCells(Run(events[..n]), events[n]);
    } else {
      assert forall k :: Queue(START, k) == [];
    }
  }

  /** A run that adds up, or that has neither the counter's total nor its cells. */
  ghost predicate AddsUpOrHasNone(s: State, counter: Name) {
    AddsUp(s, counter) || (!HasTotal(s, counter) && forall k :: k in s.accumulated ==> k.counter != counter)
  }

  lemma {:induction false} SumsOfSomeTotals(runs: seq<State>, nodes: seq<Node>, counter: Name)
    requires Distinct(nodes) && forall i :: 0 <= i < |runs| ==> AddsUpOrHasNone(runs[i], counter)
    requires forall i, n :: 0 <= i < |runs| && n in runs[i].nodes ==> n in nodes
    ensures ColumnSums(runs, nodes, counter) == TotalSum(runs, counter)
  {
    if runs != [] {
      var m := |runs| - 1;
      assert forall i :: 0 <= i < m ==> runs[..m][i] == runs[i];
      SumsOfSomeTotals(runs[..m], nodes, counter);
      var last := runs[m];
      assert AddsUpOrHasNone(last, counter);
      if AddsUp(last, counter) {
        ColumnOverMoreRows(last.accumulated, last.nodes, nodes, counter);
      } else {
        EmptyColumn(last.accumulated, nodes, counter);
      }
    }
  }

  /**
   * If runs add up that have the counter's total, the averaged column is smaller than the averaged total by the part of
   * the runs that lack it; the two are equal exactly if no run lacks it or the total is zero.
   */
  lemma AverageAddsUpIff(runs: seq<State>, counter: Name) returns (column: real, total: real)
    requires TotalCount(runs, counter) > 0 && forall i :: 0 <= i < |runs| ==> AddsUpOrHasNone(runs[i], counter)
    ensures runs != [] && column == AveragedColumn(runs, AllNodes(runs), counter) &&
      total == AveragedTotal(runs, counter)
    ensures column * (|runs| as real) == total * (TotalCount(runs, counter) as real)
    ensures column == total <==> TotalCount(runs, counter) == |runs| || total == 0.0
  {
    SomeRunHasTotal(runs, counter);
    ColumnIsShare(runs, counter);
    column, total := AveragedColumn(runs, AllNodes(runs), counter), AveragedTotal(runs, counter);
    Shares(column, total, TotalSum(runs, counter), |runs|, TotalCount(runs, counter));
  }

  lemma ColumnIsShare(runs: seq<State>, counter: Name)
    requires runs != [] && forall i :: 0 <= i < |runs| ==> AddsUpOrHasNone(runs[i], counter)
    ensures AveragedColumn(runs, AllNodes(runs), counter) == TotalSum(runs, counter) / (|runs| as real)
  {
    AllRows(runs);
    SumsOfSomeTotals(runs, AllNodes(runs), counter);
    AveragedIsSum(runs, AllNodes(runs), counter);
  }

  lemma Shares(column: real, total: real, sum: real, n: nat, m: nat)
    requires n > 0 && m > 0 && column == sum / (n as real) && total == sum / (m as real)
    ensures column * (n as real) == total * (m as real) && (column == total <==> n == m || total == 0.0)
  {
    Cancel(sum, n as real);
    Cancel(sum, m as real);
    EqualIff(column, total, n, m);
  }

  lemma EqualIff(column: real, total: real, n: nat, m: nat)
    requires n > 0 && m > 0 && column * (n as real) == total * (m as real)
    ensures column == total <==> n == m || total == 0.0
  {
    if column == total && total != 0.0 {
      assert total * ((n as real) - (m as real)) == 0.0;
    }
    if n == m {
      assert (column - total) * (n as real) == 0.0;
    }
  }

  /** A run whose invocations tile it adds up. */
  lemma TiledRunAddsUp(events: seq<Event>, counter: Name)
    requires Sequential(Of(events, counter), counter) && Of(events, counter) != [] && Tiles(Of(events, counter))
    ensures AddsUp(Run(events), counter)
  {
    RowsAreComplete(events);
    ColumnTelescopes(events, counter);
  }
}
