/** The repair of test separators: blank lines around each separator, and separators between functions. */
module SeparatorRepair {

  /** A line, classified by its text without surrounding white space; the text itself is kept. */
  datatype Line =
    | Blank(text: string)
    | Separator(text: string)
    | Close(text: string)
    | Func(text: string)
    | Comment(text: string)
    | Other(text: string)

  const EMPTY: Line := Blank("")
  const NEW_SEPARATOR: Line := Separator("// -----")
  const WINDOW: nat := 9

  // ---------------------------------------------------------------- the repair

  /** A function starts within the next `budget` lines, behind nothing but blank lines and comments. */
  function Ahead(rest: seq<Line>, budget: nat): bool {
    if rest == [] || budget == 0 then false
    else
      match rest[0]
      case Func(_) => true
      case Blank(_) => Ahead(rest[1..], budget - 1)
      case Comment(_) => Ahead(rest[1..], budget - 1)
      case Separator(_) => false
      case Close(_) => false
      case Other(_) => false
  }

  /** Drops the last line as long as the last two lines are blank. */
  function Squeeze(done: seq<Line>): seq<Line> {
    var n := |done|;
    if n > 1 && done[n - 1].Blank? && done[n - 2].Blank? then Squeeze(done[..n - 1]) else done
  }

  function EndWithBlank(done: seq<Line>): seq<Line> {
    if done != [] && !done[|done| - 1].Blank? then done + [EMPTY] else done
  }

  function PutSeparator(done: seq<Line>, rest: seq<Line>): seq<Line>
    requires rest != []
  {
    var placed := EndWithBlank(Squeeze(done)) + [rest[0]];
    if |rest| > 1 && !rest[1].Blank? then placed + [EMPTY] else placed
  }

  /** The output after one more line; `rest` starts with it. */
  function Step(done: seq<Line>, rest: seq<Line>): seq<Line>
    requires rest != []
  {
    if rest[0].Separator? then PutSeparator(done, rest)
    else if rest[0].Close? && Ahead(rest[1..], WINDOW) then done + [rest[0], EMPTY, NEW_SEPARATOR, EMPTY]
    else done + [rest[0]]
  }

  function Run(done: seq<Line>, rest: seq<Line>): seq<Line>
    decreases |rest|
  {
    if rest == [] then done else Run(Step(done, rest), rest[1..])
  }

  function Repair(lines: seq<Line>): seq<Line> { Run([], lines) }

  method FixSeparatorSpacing(lines: seq<Line>) returns (fixed: seq<Line>)
    ensures fixed == Repair(lines)
  {
    fixed := [];
    assert lines[0..] == lines;
    for i := 0 to |lines|
      invariant Repair(lines) == Run(fixed, lines[i..])
    {
      ghost var rest := lines[i..];
      ghost var before := fixed;
      assert rest[0] == lines[i] && rest[1..] == lines[i + 1..];
      var line := lines[i];
      if line.Separator? {
        fixed := PopBlanks(fixed);
        if fixed != [] && !fixed[|fixed| - 1].Blank? { fixed := fixed + [EMPTY]; }
        fixed := fixed + [line];
        assert i + 1 < |lines| ==> rest[1] == lines[i + 1];
        if i + 1 < |lines| && !lines[i + 1].Blank? { fixed := fixed + [EMPTY]; }
      } else {
        fixed := fixed + [line];
        if line.Close? && i + 1 < |lines| {
          var missing := LookAhead(lines, i);
          if missing {
            if fixed != [] && !fixed[|fixed| - 1].Blank? { fixed := fixed + [EMPTY]; }
            fixed := fixed + [NEW_SEPARATOR];
            fixed := fixed + [EMPTY];
            assert fixed == before + [line, EMPTY, NEW_SEPARATOR, EMPTY];
          }
        }
      }
      assert fixed == Step(before, rest);
    }
  }

  method PopBlanks(done: seq<Line>) returns (r: seq<Line>)
    ensures r == Squeeze(done)
  {
    r := done;
    while r != [] && r[|r| - 1].Blank? && |r| > 1 && r[|r| - 2].Blank?
      invariant Squeeze(r) == Squeeze(done)
    {
      r := r[..|r| - 1];
    }
  }

  method LookAhead(lines: seq<Line>, i: nat) returns (missing: bool)
    requires i < |lines|
    ensures missing == Ahead(lines[i + 1..], WINDOW)
  {
    var j := i + 1;
    var foundFunc, foundSeparator, emptyOrCommentOnly := false, false, true;
    while j < |lines| && j < i + 10
      invariant i + 1 <= j <= |lines| && j <= i + 10
      invariant Ahead(lines[i + 1..], WINDOW) == Ahead(lines[j..], i + 10 - j)
      invariant !foundFunc && !foundSeparator && emptyOrCommentOnly
    {
      assert lines[j..][1..] == lines[j + 1..];
      var next := lines[j];
      if next.Separator? {
        foundSeparator := true;
        break;
      } else if next.Func? {
        foundFunc := true;
        break;
      } else if !next.Blank? && !next.Comment? {
        emptyOrCommentOnly := false;
        break;
      }
      j := j + 1;
    }
    missing := foundFunc && !foundSeparator && emptyOrCommentOnly;
  }

  // ---------------------------------------------------------------- what the look-ahead finds

  predicate Skipped(line: Line) { line.Blank? || line.Comment? }

  /** A separator is added exactly if a function is near and nothing but blank lines and comments precedes it. */
  lemma {:induction false} AheadIff(rest: seq<Line>, budget: nat)
    ensures Ahead(rest, budget) <==>
      exists d :: 0 <= d < budget && d < |rest| && rest[d].Func? && forall k :: 0 <= k < d ==> Skipped(rest[k])
    decreases budget
  {
    if rest != [] && budget > 0 && Skipped(rest[0]) {
      var tail := rest[1..];
      AheadIff(tail, budget - 1);
      if d :| 0 <= d < budget - 1 && d < |tail| && tail[d].Func? && forall k :: 0 <= k < d ==> Skipped(tail[k]) {
        forall k | 0 <= k < d + 1 ensures Skipped(rest[k]) {
          assert k > 0 ==> rest[k] == tail[k - 1];
        }
        assert rest[d + 1].Func?;
      }
      if d :| 0 <= d < budget && d < |rest| && rest[d].Func? && forall k :: 0 <= k < d ==> Skipped(rest[k]) {
        assert tail[d - 1].Func?;
      }
    } else if rest != [] && budget > 0 && rest[0].Func? {
      assert rest[0].Func?;
    }
  }

  /** Text behind a line that stops the look-ahead is not seen. */
  lemma {:induction false} StopsAhead(a: seq<Line>, stop: Line, b: seq<Line>, budget: nat)
    requires stop.Separator? || stop.Close?
    ensures Ahead(a + [stop] + b, budget) == Ahead(a, budget)
  {
    var all := a + [stop] + b;
    if budget > 0 {
      if a == [] {
        assert all[0] == stop;
      } else {
        StopsAhead(a[1..], stop, b, budget - 1);
        assert all[0] == a[0] && all[1..] == a[1..] + [stop] + b;
      }
    }
  }

  /** A function that is found is also found with more text behind. */
  lemma {:induction false} AheadGrows(a: seq<Line>, b: seq<Line>, budget: nat)
    requires Ahead(a, budget)
    ensures Ahead(a + b, budget)
  {
    assert (a + b)[0] == a[0];
    if !a[0].Func? {
      AheadGrows(a[1..], b, budget - 1);
      assert (a + b)[1..] == a[1..] + b;
    }
  }

  lemma {:induction false} BlankAtEnd(a: seq<Line>, blank: Line, budget: nat)
    requires blank.Blank?
    ensures Ahead(a + [blank], budget) == Ahead(a, budget)
  {
    if budget > 0 {
      if a == [] {
        assert (a + [blank])[1..] == [];
      } else {
        assert (a + [blank])[0] == a[0] && (a + [blank])[1..] == a[1..] + [blank];
        BlankAtEnd(a[1..], blank, budget - 1);
      }
    }
  }

  // ---------------------------------------------------------------- what every step keeps

  /** Line `k` of the output is as the script wants it, given the input still to come. */
  predicate Right(done: seq<Line>, rest: seq<Line>, k: nat)
    requires k < |done|
  {
    (done[k].Separator? ==> RightSeparator(done, rest, k)) &&
    (done[k].Close? ==> !Ahead(done[k + 1..] + rest, WINDOW))
  }

  predicate RightSeparator(done: seq<Line>, rest: seq<Line>, k: nat)
    requires k < |done|
  {
    OneBlankBefore(done, k) &&
    if k + 1 < |done| then done[k + 1].Blank? else rest == [] || rest[0].Blank?
  }

  /** The text starts at `k`, or a blank line precedes and no second one. */
  predicate OneBlankBefore(done: seq<Line>, k: nat)
    requires k <= |done|
  {
    k == 0 || (done[k - 1].Blank? && (k == 1 || !done[k - 2].Blank?))
  }

  ghost predicate AllRight(done: seq<Line>, rest: seq<Line>) {
    forall k :: 0 <= k < |done| ==> Right(done, rest, k)
  }

  lemma {:induction false} SqueezeIsPrefix(done: seq<Line>)
    ensures |Squeeze(done)| <= |done| && Squeeze(done) == done[..|Squeeze(done)|]
    ensures done != [] ==> Squeeze(done) != []
    ensures |Squeeze(done)| < |done| ==> Squeeze(done)[|Squeeze(done)| - 1].Blank?
    ensures forall k :: |Squeeze(done)| <= k < |done| ==> done[k].Blank?
    ensures EndsOnce(Squeeze(done))
  {
    var n := |done|;
    if n > 1 && done[n - 1].Blank? && done[n - 2].Blank? {
      SqueezeIsPrefix(done[..n - 1]);
    }
  }

  predicate EndsOnce(done: seq<Line>) {
    |done| > 1 && done[|done| - 1].Blank? ==> !done[|done| - 2].Blank?
  }

  lemma AppendKeepsRight(done: seq<Line>, rest: seq<Line>)
    requires AllRight(done, rest) && rest != [] && !rest[0].Separator?
    requires rest[0].Close? ==> !Ahead(rest[1..], WINDOW)
    ensures AllRight(done + [rest[0]], rest[1..])
  {
    var more, tail := done + [rest[0]], rest[1..];
    forall k | 0 <= k < |more| ensures Right(more, tail, k) {
      if k < |done| {
        assert Right(done, rest, k);
        assert more[k + 1..] + tail == done[k + 1..] + rest;
      } else {
        assert more[k + 1..] + tail == rest[1..];
      }
    }
  }

  /** Lines before one that stops the look-ahead stay right if that line comes next. */
  lemma CloseStaysRight(done: seq<Line>, rest: seq<Line>, k: nat, between: seq<Line>, stop: Line, behind: seq<Line>)
    requires k < |done| && Right(done, rest, k) && done[k].Close? && (stop.Separator? || stop.Close?)
    requires Ahead(between, WINDOW) == Ahead(done[k + 1..], WINDOW)
    ensures !Ahead(between + [stop] + behind, WINDOW)
  {
    StopsAhead(between, stop, behind, WINDOW);
    if Ahead(done[k + 1..], WINDOW) {
      AheadGrows(done[k + 1..], rest, WINDOW);
    }
  }

  lemma InsertKeepsRight(done: seq<Line>, rest: seq<Line>)
    requires AllRight(done, rest) && rest != [] && rest[0].Close?
    ensures AllRight(done + [rest[0], EMPTY, NEW_SEPARATOR, EMPTY], rest[1..])
  {
    var added, tail := [rest[0], EMPTY, NEW_SEPARATOR, EMPTY], rest[1..];
    var more := done + added;
    forall k | 0 <= k < |more| ensures Right(more, tail, k) {
      if k < |done| {
        assert Right(done, rest, k);
        if done[k].Close? {
          CloseStaysRight(done, rest, k, done[k + 1..], rest[0], [EMPTY, NEW_SEPARATOR, EMPTY] + tail);
          assert more[k + 1..] + tail == done[k + 1..] + [rest[0]] + ([EMPTY, NEW_SEPARATOR, EMPTY] + tail);
        }
      } else if k == |done| {
        var follows := more[k + 1..] + tail;
        assert follows[0] == EMPTY && follows[1..][0] == NEW_SEPARATOR;
      }
    }
  }

  lemma {:induction false} SqueezedAhead(done: seq<Line>, n: nat, k: nat)
    requires k < n <= |done| && forall i :: n <= i < |done| ==> done[i].Blank?
    ensures Ahead(done[k + 1..n], WINDOW) == Ahead(done[k + 1..], WINDOW)
    decreases |done|
  {
    if n < |done| {
      var m := |done| - 1;
      SqueezedAhead(done[..m], n, k);
      assert done[..m][k + 1..n] == done[k + 1..n] && done[..m][k + 1..] == done[k + 1..m];
      BlankAtEnd(done[k + 1..m], done[m], WINDOW);
      assert done[k + 1..m] + [done[m]] == done[k + 1..];
    } else {
      assert done[k + 1..n] == done[k + 1..];
    }
  }

  lemma PlaceKeepsRight(done: seq<Line>, rest: seq<Line>)
    requires AllRight(done, rest) && rest != [] && rest[0].Separator?
    ensures AllRight(PutSeparator(done, rest), rest[1..])
  {
    var first := Squeeze(done);
    var second := EndWithBlank(first);
    var more, tail := PutSeparator(done, rest), rest[1..];
    SqueezeIsPrefix(done);
    forall k | 0 <= k < |more| ensures Right(more, tail, k) {
      if k < |first| {
        assert Right(done, rest, k);
        if done[k].Close? {
          PlacedClose(done, rest, k);
        }
      }
    }
  }

  /** Neither popped blank lines nor an added one change what a look-ahead finds. */
  lemma BlanksAreNotSeen(done: seq<Line>, k: nat)
    requires k < |Squeeze(done)| <= |done|
    ensures Ahead(EndWithBlank(Squeeze(done))[k + 1..], WINDOW) == Ahead(done[k + 1..], WINDOW)
  {
    var first := Squeeze(done);
    SqueezeIsPrefix(done);
    SqueezedAhead(done, |first|, k);
    assert first[k + 1..] == done[k + 1..|first|];
    BlankAtEnd(first[k + 1..], EMPTY, WINDOW);
    assert (first + [EMPTY])[k + 1..] == first[k + 1..] + [EMPTY];
  }

  lemma Regroup(a: seq<Line>, stop: Line, b: seq<Line>, tail: seq<Line>, k: nat)
    requires k < |a|
    ensures (a + [stop] + b)[k + 1..] + tail == a[k + 1..] + [stop] + (b + tail)
  {
  }

  lemma PlacedClose(done: seq<Line>, rest: seq<Line>, k: nat)
    requires rest != [] && rest[0].Separator? && k < |Squeeze(done)| <= |done| && Right(done, rest, k) && done[k].Close?
    ensures !Ahead(PutSeparator(done, rest)[k + 1..] + rest[1..], WINDOW)
  {
    var second := EndWithBlank(Squeeze(done));
    var added := if |rest| > 1 && !rest[1].Blank? then [EMPTY] else [];
    BlanksAreNotSeen(done, k);
    CloseStaysRight(done, rest, k, second[k + 1..], rest[0], added + rest[1..]);
    Regroup(second, rest[0], added, rest[1..], k);
    assert PutSeparator(done, rest) == second + [rest[0]] + added;
  }

  lemma {:induction false} RunKeepsRight(done: seq<Line>, rest: seq<Line>)
    requires AllRight(done, rest)
    ensures AllRight(Run(done, rest), [])
    decreases |rest|
  {
    if rest != [] {
      if rest[0].Separator? {
        PlaceKeepsRight(done, rest);
      } else if rest[0].Close? && Ahead(rest[1..], WINDOW) {
        InsertKeepsRight(done, rest);
      } else {
        AppendKeepsRight(done, rest);
      }
      RunKeepsRight(Step(done, rest), rest[1..]);
    }
  }

  // ---------------------------------------------------------------- the repaired text

  /**
   * After the repair, every separator has one blank line before it, unless it starts the text, and a blank line
   * behind it, unless it ends the text; and no closing brace is followed by a function within the window.
   */
  lemma RepairedIsRight(lines: seq<Line>, k: nat)
    requires k < |Repair(lines)|
    ensures var r := Repair(lines);
      (r[k].Separator? ==> OneBlankBefore(r, k) && (k + 1 < |r| ==> r[k + 1].Blank?)) &&
      (r[k].Close? ==> !Ahead(r[k + 1..], WINDOW))
  {
    RunKeepsRight([], lines);
    var r := Repair(lines);
    assert Right(r, [], k);
    assert r[k + 1..] + [] == r[k + 1..];
  }

  lemma RightIsUnchanged(text: seq<Line>, k: nat)
    requires k < |text| && Right(text, [], k)
    ensures Step(text[..k], text[k..]) == text[..k] + [text[k]]
  {
    assert text[k..][0] == text[k] && text[k..][1..] == text[k + 1..];
    assert text[k + 1..] + [] == text[k + 1..];
    assert k + 1 < |text| ==> text[k..][1] == text[k + 1];
  }

  lemma {:induction false} RightRunsUnchanged(text: seq<Line>, k: nat)
    requires AllRight(text, []) && k <= |text|
    ensures Run(text[..k], text[k..]) == text
    decreases |text| - k
  {
    if k < |text| {
      assert Right(text, [], k);
      RightIsUnchanged(text, k);
      assert text[..k] + [text[k]] == text[..k + 1] && text[k..][1..] == text[k + 1..];
      RightRunsUnchanged(text, k + 1);
    } else {
      assert text[..k] == text;
    }
  }

  /** Repairing a repaired text changes nothing. */
  lemma RepairIsIdempotent(lines: seq<Line>)
    ensures Repair(Repair(lines)) == Repair(lines)
  {
    var r := Repair(lines);
    RunKeepsRight([], lines);
    RightRunsUnchanged(r, 0);
    assert r[..0] == [] && r[0..] == r;
  }

  // ---------------------------------------------------------------- nothing else is changed

  /** The text without its blank lines. */
  function NonBlank(lines: seq<Line>): seq<Line> {
    if lines == [] then []
    else
      var n := |lines| - 1;
      NonBlank(lines[..n]) + if lines[n].Blank? then [] else [lines[n]]
  }

  /** The text without its blank lines, with a new separator at each place where one is missing. */
  function Separated(rest: seq<Line>): seq<Line> {
    if rest == [] then []
    else Contribution(rest) + Separated(rest[1..])
  }

  /** The text without blank lines and separators. */
  function Content(lines: seq<Line>): seq<Line> {
    if lines == [] then []
    else
      var n := |lines| - 1;
      Content(lines[..n]) + if lines[n].Blank? || lines[n].Separator? then [] else [lines[n]]
  }

  lemma NonBlankNext(done: seq<Line>, line: Line)
    ensures NonBlank(done + [line]) == NonBlank(done) + if line.Blank? then [] else [line]
  {
    assert (done + [line])[..|done|] == done;
  }

  lemma {:induction false} SqueezeKeepsNonBlank(done: seq<Line>)
    ensures NonBlank(Squeeze(done)) == NonBlank(done)
  {
    var n := |done|;
    if n > 1 && done[n - 1].Blank? && done[n - 2].Blank? {
      SqueezeKeepsNonBlank(done[..n - 1]);
    }
  }

  /** What a line contributes to the output, apart from blank lines. */
  function Contribution(rest: seq<Line>): seq<Line>
    requires rest != []
  {
    if rest[0].Blank? then []
    else if rest[0].Close? && Ahead(rest[1..], WINDOW) then [rest[0], NEW_SEPARATOR]
    else [rest[0]]
  }

  lemma PlacedNonBlank(done: seq<Line>, rest: seq<Line>)
    requires rest != [] && rest[0].Separator?
    ensures NonBlank(PutSeparator(done, rest)) == NonBlank(done) + [rest[0]]
  {
    var first := Squeeze(done);
    SqueezeKeepsNonBlank(done);
    NonBlankNext(first, EMPTY);
    assert NonBlank(EndWithBlank(first)) == NonBlank(done);
    NonBlankNext(EndWithBlank(first), rest[0]);
    NonBlankNext(EndWithBlank(first) + [rest[0]], EMPTY);
  }

  lemma InsertedNonBlank(done: seq<Line>, close: Line)
    requires close.Close?
    ensures NonBlank(done + [close, EMPTY, NEW_SEPARATOR, EMPTY]) == NonBlank(done) + [close, NEW_SEPARATOR]
  {
    var one := done + [close];
    var two := one + [EMPTY];
    var three := two + [NEW_SEPARATOR];
    NonBlankNext(done, close);
    NonBlankNext(one, EMPTY);
    NonBlankNext(two, NEW_SEPARATOR);
    NonBlankNext(three, EMPTY);
    assert done + [close, EMPTY, NEW_SEPARATOR, EMPTY] == three + [EMPTY];
  }

  lemma StepNonBlank(done: seq<Line>, rest: seq<Line>)
    requires rest != []
    ensures NonBlank(Step(done, rest)) == NonBlank(done) + Contribution(rest)
  {
    if rest[0].Separator? {
      PlacedNonBlank(done, rest);
    } else if rest[0].Close? && Ahead(rest[1..], WINDOW) {
      InsertedNonBlank(done, rest[0]);
    } else {
      NonBlankNext(done, rest[0]);
    }
  }

  lemma {:induction false} RunNonBlank(done: seq<Line>, rest: seq<Line>)
    ensures NonBlank(Run(done, rest)) == NonBlank(done) + Separated(rest)
    decreases |rest|
  {
    if rest != [] {
      StepNonBlank(done, rest);
      RunNonBlank(Step(done, rest), rest[1..]);
    }
  }

  /** Apart from blank lines, the repair keeps every line in order and adds only the missing separators. */
  lemma RepairAddsOnlySeparators(lines: seq<Line>)
    ensures NonBlank(Repair(lines)) == Separated(lines)
  {
    RunNonBlank([], lines);
  }

  lemma ContentNext(lines: seq<Line>, line: Line)
    ensures Content(lines + [line]) == Content(lines) + if line.Blank? || line.Separator? then [] else [line]
  {
    assert (lines + [line])[..|lines|] == lines;
  }

  lemma {:induction false} ContentOfBoth(a: seq<Line>, b: seq<Line>)
    ensures Content(a + b) == Content(a) + Content(b)
  {
    if b == [] {
      assert a + b == a;
    } else {
      var n := |b| - 1;
      ContentOfBoth(a, b[..n]);
      assert a + b == (a + b[..n]) + [b[n]] && b == b[..n] + [b[n]];
      ContentNext(a + b[..n], b[n]);
      ContentNext(b[..n], b[n]);
    }
  }

  lemma {:induction false} ContentOfNonBlank(lines: seq<Line>)
    ensures Content(NonBlank(lines)) == Content(lines)
  {
    if lines != [] {
      var n := |lines| - 1;
      ContentOfNonBlank(lines[..n]);
      ContentOfBoth(NonBlank(lines[..n]), if lines[n].Blank? then [] else [lines[n]]);
      ContentOfOne(lines[n]);
    }
  }

  lemma ContentOfOne(line: Line)
    ensures Content([]) == [] && Content([line]) == if line.Blank? || line.Separator? then [] else [line]
  {
    assert [line][..0] == [];
  }

  lemma {:induction false} ContentOfSeparated(rest: seq<Line>)
    ensures Content(Separated(rest)) == Content(rest)
  {
    if rest != [] {
      var line := rest[0];
      ContentOfSeparated(rest[1..]);
      ContentOfOne(line);
      ContentOfOne(NEW_SEPARATOR);
      ContentOfBoth([line], [NEW_SEPARATOR]);
      assert [line] + [NEW_SEPARATOR] == [line, NEW_SEPARATOR];
      ContentOfBoth([line], rest[1..]);
      assert [line] + rest[1..] == rest;
      ContentOfBoth(Contribution(rest), Separated(rest[1..]));
    }
  }

  /** Apart from blank lines and separators, the repaired text is the text. */
  lemma RepairKeepsContent(lines: seq<Line>)
    ensures Content(Repair(lines)) == Content(lines)
  {
    RepairAddsOnlySeparators(lines);
    ContentOfNonBlank(Repair(lines));
    ContentOfSeparated(lines);
  }

  lemma {:induction false} OtherLinesAreCopied(done: seq<Line>, rest: seq<Line>)
    requires forall i :: 0 <= i < |rest| ==> !rest[i].Separator? && !rest[i].Close?
    ensures Run(done, rest) == done + rest
    decreases |rest|
  {
    if rest == [] {
      assert done + rest == done;
    } else {
      assert forall i :: 0 <= i < |rest[1..]| ==> rest[1..][i] == rest[i + 1];
      OtherLinesAreCopied(done + [rest[0]], rest[1..]);
      assert done + [rest[0]] + rest[1..] == done + rest;
    }
  }

  lemma FunctionIsAheadIff(between: seq<Line>, func: Line)
    requires func.Func? && forall i :: 0 <= i < |between| ==> between[i].Blank? || between[i].Comment?
    ensures Ahead(between + [func], WINDOW) <==> |between| <= 8
  {
    var rest := between + [func];
    AheadIff(rest, WINDOW);
    assert rest[|between|].Func?;
    assert forall k :: 0 <= k < |between| ==> rest[k] == between[k] && Skipped(rest[k]);
  }

  /**
   * Between a closing brace and a function, behind blank lines and comments only, a separator is put exactly if there
   * are at most eight of them; it stands between empty lines, directly behind the brace.
   */
  lemma SeparatorIsPutIff(close: Line, between: seq<Line>, func: Line)
    requires close.Close? && func.Func? && forall i :: 0 <= i < |between| ==> between[i].Blank? || between[i].Comment?
    ensures Repair([close] + between + [func]) ==
      if |between| <= 8 then [close, Blank(""), Separator("// -----"), Blank("")] + between + [func]
      else [close] + between + [func]
  {
    var text, rest := [close] + between + [func], between + [func];
    assert text[0] == close && text[1..] == rest;
    FunctionIsAheadIff(between, func);
    var first := Step([], text);
    assert first == if |between| <= 8 then [close, Blank(""), Separator("// -----"), Blank("")] else [close];
    OtherLinesAreCopied(first, rest);
    assert first + rest == first + between + [func];
  }

  /** The look-ahead is bounded: behind nine comments a following function goes unnoticed. */
  lemma DistantFunctionIsMissed(close: Line, comment: Line, func: Line)
    requires close.Close? && comment.Comment? && func.Func?
    ensures var c := comment;
      Repair([close, c, c, c, c, c, c, c, c, c, func]) == [close, c, c, c, c, c, c, c, c, c, func]
  {
    var c := comment;
    var between := [c, c, c, c, c, c, c, c, c];
    SeparatorIsPutIff(close, between, func);
    assert [close, c, c, c, c, c, c, c, c, c, func] == [close] + between + [func];
  }
}
