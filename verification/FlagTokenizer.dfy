/** Splitting a string of command-line flags into tokens, with quotes and backslash escapes. */
module FlagTokenizer {

  /** The characters `std::isspace` accepts: space, tab, newline, vertical tab, form feed, carriage return. */
  predicate IsSpace(c: char) { c == ' ' || 9 <= c as int <= 13 }

  /** The tokens found so far, the token being read and the three mode flags. */
  datatype State = State(tokens: seq<string>, current: string, inDouble: bool, inSingle: bool, escapeNext: bool)

  const START: State := State([], "", false, false, false)

  function EndToken(s: State): State {
    if s.current == "" then s else s.(tokens := s.tokens + [s.current], current := "")
  }

  function Feed(s: State, c: char): State {
    if s.escapeNext then s.(current := s.current + [c], escapeNext := false)
    else if c == '\\' then s.(escapeNext := true)
    else if c == '"' && !s.inSingle then s.(inDouble := !s.inDouble)
    else if c == '\'' && !s.inDouble then s.(inSingle := !s.inSingle)
    else if IsSpace(c) && !s.inDouble && !s.inSingle then EndToken(s)
    else s.(current := s.current + [c])
  }

  function FeedAll(s: State, text: string): State
    decreases |text|
  {
    if text == "" then s else FeedAll(Feed(s, text[0]), text[1..])
  }

  function Parse(flags: string): seq<string> { EndToken(FeedAll(START, flags)).tokens }

  method ParseFlags(flags: string) returns (tokens: seq<string>)
    ensures tokens == Parse(flags)
  {
    tokens := [];
    var current := "";
    var inDoubleQuote, inSingleQuote, escapeNext := false, false, false;
    for i := 0 to |flags|
      invariant FeedAll(START, flags)
             == FeedAll(State(tokens, current, inDoubleQuote, inSingleQuote, escapeNext), flags[i..])
    {
      var c := flags[i];
      assert flags[i..][1..] == flags[i + 1..];
      if escapeNext {
        current := current + [c];
        escapeNext := false;
      } else if c == '\\' {
        escapeNext := true;
      } else if c == '"' && !inSingleQuote {
        inDoubleQuote := !inDoubleQuote;
      } else if c == '\'' && !inDoubleQuote {
        inSingleQuote := !inSingleQuote;
      } else if IsSpace(c) && !inDoubleQuote && !inSingleQuote {
        if current != "" {
          tokens := tokens + [current];
          current := "";
        }
      } else {
        current := current + [c];
      }
    }
    if current != "" {
      tokens := tokens + [current];
    }
  }

  // ---------------------------------------------------------------- no empty token

  lemma {:induction false} FeedKeepsNonEmpty(s: State, text: string)
    requires "" !in s.tokens
    ensures "" !in FeedAll(s, text).tokens
    decreases |text|
  {
    if text != "" {
      FeedKeepsNonEmpty(Feed(s, text[0]), text[1..]);
    }
  }

  /** Whatever the text, no token is empty. */
  lemma NoEmptyToken(flags: string)
    ensures "" !in Parse(flags)
  {
    FeedKeepsNonEmpty(START, flags);
  }

  // ---------------------------------------------------------------- ways to spell a token

  /** One character inside quotes: as it is, or behind a backslash. */
  datatype Quoted = Plain(c: char) | Escaped(c: char)

  /** Part of a token: a bare character, an escaped one, or a quoted stretch. */
  datatype Piece = Bare(c: char) | Escape(c: char) | Double(inside: seq<Quoted>) | Single(inside: seq<Quoted>)

  function SpellQuoted(q: Quoted): string { if q.Plain? then [q.c] else ['\\', q.c] }

  function SpellInside(inside: seq<Quoted>): string {
    if inside == [] then "" else SpellQuoted(inside[0]) + SpellInside(inside[1..])
  }

  function MeaningInside(inside: seq<Quoted>): string {
    if inside == [] then "" else [inside[0].c] + MeaningInside(inside[1..])
  }

  function Spell(p: Piece): string {
    match p
    case Bare(c) => [c]
    case Escape(c) => ['\\', c]
    case Double(inside) => ['"'] + SpellInside(inside) + ['"']
    case Single(inside) => ['\''] + SpellInside(inside) + ['\'']
  }

  function Meaning(p: Piece): string {
    match p
    case Bare(c) => [c]
    case Escape(c) => [c]
    case Double(inside) => MeaningInside(inside)
    case Single(inside) => MeaningInside(inside)
  }

  /** A plain character inside quotes must not be a backslash or the closing quote. */
  predicate LegalInside(inside: seq<Quoted>, quote: char) {
    forall i :: 0 <= i < |inside| && inside[i].Plain? ==> inside[i].c != '\\' && inside[i].c != quote
  }

  predicate Special(c: char) { c == '\\' || c == '"' || c == '\'' || IsSpace(c) }

  predicate Legal(p: Piece) {
    match p
    case Bare(c) => !Special(c)
    case Escape(_) => true
    case Double(inside) => LegalInside(inside, '"')
    case Single(inside) => LegalInside(inside, '\'')
  }

  function SpellWord(word: seq<Piece>): string {
    if word == [] then "" else Spell(word[0]) + SpellWord(word[1..])
  }

  function MeaningOf(word: seq<Piece>): string {
    if word == [] then "" else Meaning(word[0]) + MeaningOf(word[1..])
  }

  predicate LegalWord(word: seq<Piece>) { MeaningOf(word) != "" && forall i :: 0 <= i < |word| ==> Legal(word[i]) }

  // ---------------------------------------------------------------- every spelling is read back

  lemma {:induction false} FeedTwice(s: State, a: string, b: string)
    ensures FeedAll(s, a + b) == FeedAll(FeedAll(s, a), b)
    decreases |a|
  {
    if a == "" {
      assert a + b == b;
    } else {
      FeedTwice(Feed(s, a[0]), a[1..], b);
      assert (a + b)[1..] == a[1..] + b;
    }
  }

  lemma FeedOne(s: State, c: char)
    ensures FeedAll(s, [c]) == Feed(s, c)
  {
  }

  lemma FeedTwo(s: State, c: char, d: char)
    ensures FeedAll(s, [c, d]) == Feed(Feed(s, c), d)
  {
    assert [c, d][1..] == [d];
    FeedOne(Feed(s, c), d);
  }

  /** Outside quotes, and not behind a backslash. */
  predicate Neutral(s: State) { !s.inDouble && !s.inSingle && !s.escapeNext }

  /** Reads text into the current token. */
  function Append(s: State, text: string): State { s.(current := s.current + text) }

  lemma AppendTwice(s: State, a: string, b: string)
    ensures Append(Append(s, a), b) == Append(s, a + b)
  {
    assert s.current + a + b == s.current + (a + b);
  }

  lemma {:induction false} InsideIsRead(s: State, inside: seq<Quoted>, quote: char)
    requires !s.escapeNext && LegalInside(inside, quote)
    requires (quote == '"' && s.inDouble && !s.inSingle) || (quote == '\'' && s.inSingle && !s.inDouble)
    ensures FeedAll(s, SpellInside(inside)) == Append(s, MeaningInside(inside))
    decreases |inside|
  {
    if inside == [] {
      assert s.current + "" == s.current;
    } else {
      var q, rest := inside[0], inside[1..];
      var next := Append(s, [q.c]);
      FeedTwice(s, SpellQuoted(q), SpellInside(rest));
      FeedOne(s, q.c);
      FeedTwo(s, '\\', q.c);
      InsideIsRead(next, rest, quote);
      AppendTwice(s, [q.c], MeaningInside(rest));
    }
  }

  lemma QuotedIsRead(s: State, inside: seq<Quoted>, quote: char)
    requires Neutral(s) && LegalInside(inside, quote) && (quote == '"' || quote == '\'')
    ensures FeedAll(s, [quote] + SpellInside(inside) + [quote]) == Append(s, MeaningInside(inside))
  {
    var opening := Feed(s, quote);
    FeedTwice(s, [quote] + SpellInside(inside), [quote]);
    FeedTwice(s, [quote], SpellInside(inside));
    FeedOne(s, quote);
    InsideIsRead(opening, inside, quote);
    FeedOne(Append(opening, MeaningInside(inside)), quote);
  }

  lemma PieceIsRead(s: State, p: Piece)
    requires Neutral(s) && Legal(p)
    ensures FeedAll(s, Spell(p)) == Append(s, Meaning(p))
  {
    match p
    case Bare(c) => FeedOne(s, c);
    case Escape(c) => FeedTwo(s, '\\', c);
    case Double(inside) => QuotedIsRead(s, inside, '"');
    case Single(inside) => QuotedIsRead(s, inside, '\'');
  }

  lemma {:induction false} WordIsRead(s: State, word: seq<Piece>)
    requires Neutral(s) && forall i :: 0 <= i < |word| ==> Legal(word[i])
    ensures FeedAll(s, SpellWord(word)) == Append(s, MeaningOf(word))
    decreases |word|
  {
    if word == [] {
      assert s.current + "" == s.current;
    } else {
      PieceIsRead(s, word[0]);
      FeedTwice(s, Spell(word[0]), SpellWord(word[1..]));
      WordIsRead(Append(s, Meaning(word[0])), word[1..]);
      AppendTwice(s, Meaning(word[0]), MeaningOf(word[1..]));
    }
  }

  predicate IsGap(gap: string) { gap != "" && forall i :: 0 <= i < |gap| ==> IsSpace(gap[i]) }

  lemma {:induction false} GapEndsToken(s: State, gap: string)
    requires Neutral(s) && IsGap(gap)
    ensures FeedAll(s, gap) == EndToken(s)
    decreases |gap|
  {
    if |gap| > 1 {
      GapEndsToken(EndToken(s), gap[1..]);
    } else {
      assert gap == [gap[0]];
      FeedOne(s, gap[0]);
    }
  }

  /** Words, each behind its own white space. */
  datatype Item = Item(gap: string, word: seq<Piece>)

  function Write(items: seq<Item>): string {
    if items == [] then ""
    else
      var n := |items| - 1;
      Write(items[..n]) + (items[n].gap + SpellWord(items[n].word))
  }

  function Meanings(items: seq<Item>): (r: seq<string>)
    ensures |r| == |items|
  {
    if items == [] then [] else Meanings(items[..|items| - 1]) + [MeaningOf(items[|items| - 1].word)]
  }

  /** A legal word behind white space; only before the first word it may be missing. */
  predicate LegalItem(item: Item, first: bool) {
    LegalWord(item.word) && (IsGap(item.gap) || (first && item.gap == ""))
  }

  predicate LegalItems(items: seq<Item>) {
    items == [] || (LegalItems(items[..|items| - 1]) && LegalItem(items[|items| - 1], |items| == 1))
  }

  lemma {:induction false} ItemsAreRead(items: seq<Item>)
    requires LegalItems(items)
    ensures Neutral(FeedAll(START, Write(items)))
    ensures EndToken(FeedAll(START, Write(items))) == State(Meanings(items), "", false, false, false)
  {
    if items != [] {
      var n := |items| - 1;
      ItemsAreRead(items[..n]);
      var s := FeedAll(START, Write(items[..n]));
      FeedTwice(START, Write(items[..n]), items[n].gap + SpellWord(items[n].word));
      assert n == 0 ==> items[..n] == [];
      ItemIsRead(s, items[n].gap, items[n].word);
      assert MeaningOf(items[n].word) != "";
    }
  }

  lemma ItemIsRead(s: State, gap: string, word: seq<Piece>)
    requires Neutral(s) && LegalWord(word) && (IsGap(gap) || (s == START && gap == ""))
    ensures FeedAll(s, gap + SpellWord(word)) == EndToken(s).(current := MeaningOf(word))
  {
    FeedTwice(s, gap, SpellWord(word));
    if gap != "" {
      GapEndsToken(s, gap);
    }
    WordIsRead(EndToken(s), word);
    assert "" + MeaningOf(word) == MeaningOf(word);
  }

  /** However the tokens are quoted, escaped and spaced, parsing gives back exactly the tokens. */
  lemma EverySpellingParses(items: seq<Item>)
    requires LegalItems(items)
    ensures Parse(Write(items)) == Meanings(items)
  {
    ItemsAreRead(items);
  }

  /** And at the end of the text, more white space changes nothing. */
  lemma TrailingSpace(flags: string, gap: string)
    requires Neutral(FeedAll(START, flags)) && IsGap(gap)
    ensures Parse(flags + gap) == Parse(flags)
  {
    FeedTwice(START, flags, gap);
    GapEndsToken(FeedAll(START, flags), gap);
  }

  // ---------------------------------------------------------------- escaping and joining

  function EscapeToken(token: string): string {
    if token == "" then ""
    else (if Special(token[0]) then ['\\', token[0]] else [token[0]]) + EscapeToken(token[1..])
  }

  function JoinEscaped(tokens: seq<string>): string {
    if tokens == [] then ""
    else if |tokens| == 1 then EscapeToken(tokens[0])
    else JoinEscaped(tokens[..|tokens| - 1]) + (" " + EscapeToken(tokens[|tokens| - 1]))
  }

  function Pieces(token: string): seq<Piece> {
    if token == "" then []
    else [if Special(token[0]) then Escape(token[0]) else Bare(token[0])] + Pieces(token[1..])
  }

  lemma {:induction false} PiecesSpell(token: string)
    ensures SpellWord(Pieces(token)) == EscapeToken(token) && MeaningOf(Pieces(token)) == token
    ensures forall i :: 0 <= i < |Pieces(token)| ==> Legal(Pieces(token)[i])
  {
    if token != "" {
      PiecesSpell(token[1..]);
      assert token == [token[0]] + token[1..];
      var first := if Special(token[0]) then Escape(token[0]) else Bare(token[0]);
      assert Pieces(token) == [first] + Pieces(token[1..]);
    }
  }

  function ItemsFor(tokens: seq<string>): (items: seq<Item>)
    ensures |items| == |tokens|
  {
    if tokens == [] then []
    else
      var n := |tokens| - 1;
      ItemsFor(tokens[..n]) + [Item(if n == 0 then "" else " ", Pieces(tokens[n]))]
  }

  lemma WriteNext(items: seq<Item>, tokens: seq<string>)
    requires tokens != [] && |items| == |tokens|
    requires var n := |tokens| - 1;
      Write(items[..n]) == JoinEscaped(tokens[..n]) && SpellWord(items[n].word) == EscapeToken(tokens[n]) &&
      items[n].gap == if n == 0 then "" else " "
    ensures Write(items) == JoinEscaped(tokens)
  {
    if |tokens| == 1 {
      assert tokens[..0] == [];
      assert "" + ("" + EscapeToken(tokens[0])) == EscapeToken(tokens[0]);
    }
  }

  lemma {:induction false} ItemsForTokens(tokens: seq<string>)
    requires "" !in tokens
    ensures Write(ItemsFor(tokens)) == JoinEscaped(tokens) && Meanings(ItemsFor(tokens)) == tokens
    ensures LegalItems(ItemsFor(tokens))
  {
    if tokens != [] {
      var n := |tokens| - 1;
      ItemsForTokens(tokens[..n]);
      PiecesSpell(tokens[n]);
      var items := ItemsFor(tokens);
      assert items[..n] == ItemsFor(tokens[..n]);
      assert tokens == tokens[..n] + [tokens[n]];
      assert tokens[n] != "";
      WriteNext(items, tokens);
    }
  }

  /** Escaping every backslash, quote and white space and joining with spaces is undone by parsing. */
  lemma EscapeRoundTrip(tokens: seq<string>)
    requires "" !in tokens
    ensures Parse(JoinEscaped(tokens)) == tokens
  {
    ItemsForTokens(tokens);
    EverySpellingParses(ItemsFor(tokens));
  }

  /** Escaped and joined, the tokens of any text parse to themselves. */
  lemma ReparseIsSame(flags: string)
    ensures Parse(JoinEscaped(Parse(flags))) == Parse(flags)
  {
    NoEmptyToken(flags);
    EscapeRoundTrip(Parse(flags));
  }

  lemma ThreeCharacters(a: char, c: char, b: char)
    ensures FeedAll(START, [a, c, b]) == Feed(Feed(Feed(START, a), c), b)
  {
    assert [a, c, b] == [a] + ([c] + [b]);
    FeedTwice(START, [a], [c] + [b]);
    FeedOne(START, a);
    FeedTwice(Feed(START, a), [c], [b]);
    FeedOne(Feed(START, a), c);
    FeedOne(Feed(Feed(START, a), c), b);
  }

  /**
   * Exactly six characters separate words: space, tab, newline, carriage return, vertical tab and form feed. Every
   * other one leaves a single token.
   */
  lemma WhiteSpaceSeparates(c: char)
    ensures var isWhite := c in {' ', '\t', '\n', '\r', 11 as char, 12 as char};
      Parse(['a', c, 'b']) == if isWhite then ["a", "b"]
                              else if c in {'\\', '"', '\''} then ["ab"]
                              else [['a', c, 'b']]
  {
    ThreeCharacters('a', c, 'b');
    assert [] + ['a'] == "a" && [] + ['b'] == "b";
    assert "a" + ['b'] == "ab" && "a" + [c] + ['b'] == ['a', c, 'b'];
    assert '\t' as int == 9 && '\n' as int == 10 && '\r' as int == 13;
    assert [] + ["a"] == ["a"] && ["a"] + ["b"] == ["a", "b"];
    if 9 <= c as int <= 13 {
      assert c in {9 as char, 10 as char, 11 as char, 12 as char, 13 as char};
    }
  }

  /** A character stands for itself, bare within a token, exactly if it is not special. */
  lemma BareIff(c: char)
    ensures Parse(['a', c, 'b']) == [['a', c, 'b']] <==> Legal(Bare(c))
  {
    WhiteSpaceSeparates(c);
    assert |"ab"| == 2 && "ab" != ['a', c, 'b'];
    if c in {'\t', '\n', '\r', 11 as char, 12 as char} {
      assert 9 <= c as int <= 13;
    }
  }

  function Plainly(text: string): (inside: seq<Quoted>)
    ensures |inside| == |text| && forall i :: 0 <= i < |text| ==> inside[i] == Plain(text[i])
  {
    seq(|text|, i requires 0 <= i < |text| => Plain(text[i]))
  }

  lemma {:induction false} PlainlyIsText(inside: seq<Quoted>, text: string)
    requires |inside| == |text| && forall i :: 0 <= i < |text| ==> inside[i] == Plain(text[i])
    ensures SpellInside(inside) == text && MeaningInside(inside) == text
  {
    if text != "" {
      PlainlyIsText(inside[1..], text[1..]);
      assert text == [text[0]] + text[1..];
    }
  }

  /** Between quotes everything stands for itself but a backslash and the same quote; nothing at all gives no token. */
  lemma QuotedIsOneToken(text: string, quote: char)
    requires quote == '"' || quote == '\''
    requires '\\' !in text && quote !in text
    ensures Parse([quote] + text + [quote]) == if text == "" then [] else [text]
  {
    PlainlyIsText(Plainly(text), text);
    QuotedIsRead(START, Plainly(text), quote);
    assert "" + text == text && [] + [text] == [text];
  }
}
