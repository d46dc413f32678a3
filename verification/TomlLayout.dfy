/** The many ways of writing one list of entries: optional blanks, bare or quoted words in dotted keys,
    line breaks and semicolons. All of them parse to the same syntax tree. */
module TomlLayout {
  import opened Options
  import opened TomlLexer
  import opened TomlParser
  import opened TomlGrammar
  import opened TomlRules

  // ---------- concrete syntax ----------

  /** An optional blank, with its text. */
  type Blank = Option<string>

  /** The further parts of a key. */
  datatype Tail = NoTail | Tail(before: Blank, after: Blank, word: Token, next: Tail)

  datatype WrittenLine =
    | Setting(lead: Blank, word: Token, tail: Tail, before: Blank, after: Blank, value: Token, end: Blank)
    | Header(lead: Blank, open: Blank, word: Token, tail: Tail, close: Blank, end: Blank)
    | Root(lead: Blank, open: Blank, end: Blank)

  /** One or more line break tokens, with their texts. */
  datatype Breaks = LastBreak(text: string, after: Blank) | MoreBreaks(text: string, before: Blank, next: Breaks)

  /** What stands between two lines. */
  datatype Between = Breaking(breaks: Breaks) | Semi(before: Option<Breaks>, after: Option<Breaks>)

  datatype Rest = Last(trailing: Option<Breaks>) | More(between: Between, line: WrittenLine, rest: Rest)

  datatype Document = Document(blank: Blank, breaks: Option<Breaks>, line: WrittenLine, rest: Rest)

  // ---------- tokens ----------

  function BlankTokens(b: Blank): seq<Token>
  {
    if b.None? then [] else [Token(Space, b.value)]
  }

  const DOT := Token(Dot, ".")
  const EQ := Token(Eq, "=")
  const LBRACK := Token(LBrack, "[")
  const RBRACK := Token(RBrack, "]")
  const SEMICOLON := Token(Semicolon, ";")

  function TailTokens(t: Tail): seq<Token>
  {
    match t
    case NoTail => []
    case Tail(before, after, word, next) =>
      BlankTokens(before) + ([DOT] + (BlankTokens(after) + ([word] + TailTokens(next))))
  }

  function FirstToken(l: WrittenLine): Token
  {
    if l.Setting? then l.word else LBRACK
  }

  /** The tokens behind the first one. */
  function BackTokens(l: WrittenLine): seq<Token>
  {
    match l
    case Setting(_, _, tail, before, after, value, end) =>
      TailTokens(tail) + (BlankTokens(before) + ([EQ] + (BlankTokens(after) + ([value] + BlankTokens(end)))))
    case Header(_, open, word, tail, close, end) =>
      BlankTokens(open) + ([word] + (TailTokens(tail) + (BlankTokens(close) + ([RBRACK] + BlankTokens(end)))))
    case Root(_, open, end) => BlankTokens(open) + ([RBRACK] + BlankTokens(end))
  }

  function LineTokens(l: WrittenLine): seq<Token>
  {
    BlankTokens(l.lead) + ([FirstToken(l)] + BackTokens(l))
  }

  function BreakTokens(b: Breaks): seq<Token>
  {
    match b
    case LastBreak(text, after) => [Token(Newline, text)] + BlankTokens(after)
    case MoreBreaks(text, before, next) => [Token(Newline, text)] + (BlankTokens(before) + BreakTokens(next))
  }

  function OptTokens(b: Option<Breaks>): seq<Token>
  {
    if b.None? then [] else BreakTokens(b.value)
  }

  function BetweenTokens(b: Between): seq<Token>
  {
    match b
    case Breaking(breaks) => BreakTokens(breaks)
    case Semi(before, after) => OptTokens(before) + ([SEMICOLON] + OptTokens(after))
  }

  function RestTokens(r: Rest): seq<Token>
  {
    match r
    case Last(trailing) => OptTokens(trailing)
    case More(between, line, rest) => BetweenTokens(between) + (LineTokens(line) + RestTokens(rest))
  }

  /** What stands in front of the first line. */
  function FrontTokens(d: Document): seq<Token>
  {
    BlankTokens(d.blank) + OptTokens(d.breaks)
  }

  function Tokens(d: Document): seq<Token>
  {
    FrontTokens(d) + (LineTokens(d.line) + RestTokens(d.rest))
  }

  // ---------- meaning ----------

  function TailKey(t: Tail): Key
  {
    match t
    case NoTail => NoKey
    case Tail(_, _, word, next) => Key(WordOf(word), TailKey(next))
  }

  predicate IsWord(t: Token)
  {
    t.kind == Id || t.kind == Str
  }

  predicate TailOk(t: Tail)
  {
    t.Tail? ==> IsWord(t.word) && TailOk(t.next)
  }

  predicate LineOk(l: WrittenLine)
  {
    match l
    case Setting(_, word, tail, _, _, value, _) => IsWord(word) && TailOk(tail) && IsValue(value)
    case Header(_, _, word, tail, _, _) => IsWord(word) && TailOk(tail)
    case Root(_, _, _) => true
  }

  /** A blank behind a line break belongs to the break. */
  predicate RestOk(r: Rest)
  {
    match r
    case Last(_) => true
    case More(between, line, rest) =>
      LineOk(line) && (between.Breaking? || between.after.Some? ==> line.lead.None?) && RestOk(rest)
  }

  predicate DocumentOk(d: Document)
  {
    && LineOk(d.line) && RestOk(d.rest)
    && (if d.breaks.None? then d.blank.None? else d.line.lead.None?)
  }

  function LineKey(l: WrittenLine): Key
    requires LineOk(l)
  {
    if l.Root? then NoKey else Key(WordOf(l.word), TailKey(l.tail))
  }

  function LineValue(l: WrittenLine): Option<Value>
    requires LineOk(l)
  {
    if l.Setting? then Some(ValueOf(l.value)) else None
  }

  function RestEntry(r: Rest): Entry
    requires RestOk(r)
  {
    match r
    case Last(_) => NoEntry
    case More(_, line, rest) => Entry(LineKey(line), LineValue(line), RestEntry(rest))
  }

  /** The list of entries a document is a way of writing. */
  function EntriesOf(d: Document): Entry
    requires DocumentOk(d)
  {
    Entry(LineKey(d.line), LineValue(d.line), RestEntry(d.rest))
  }

  // ---------- where tokens are ----------

  /** The tokens from `cur` up to `end`. */
  predicate Span(list: seq<Token>, cur: nat, tokens: seq<Token>, end: nat)
  {
    cur <= end <= |list| && list[cur..end] == tokens
  }

  lemma {:induction false} SpanSplit(list: seq<Token>, cur: nat, a: seq<Token>, b: seq<Token>, end: nat)
    returns (mid: nat)
    requires Span(list, cur, a + b, end)
    ensures Span(list, cur, a, mid) && Span(list, mid, b, end)
  {
    mid := cur + |a|;
    assert list[cur..end][..|a|] == list[cur..mid] && list[cur..end][|a|..] == list[mid..end];
  }

  lemma {:induction false} SpanToken(list: seq<Token>, cur: nat, t: Token, ts: seq<Token>, end: nat)
    requires Span(list, cur, [t] + ts, end)
    ensures cur < |list| && list[cur] == t && Span(list, cur + 1, ts, end)
  {
    assert list[cur] == list[cur..end][0] && list[cur..end][1..] == list[cur + 1..end];
  }

  /** An optional blank and a token behind it. */
  lemma {:induction false} SpanBlank(list: seq<Token>, cur: nat, b: Blank, t: Token, ts: seq<Token>, end: nat)
    requires Span(list, cur, BlankTokens(b) + ([t] + ts), end) && t.kind != Space
    ensures Skip(list, cur) < |list| && list[Skip(list, cur)] == t && Span(list, Skip(list, cur) + 1, ts, end)
  {
    match b
    case None =>
      assert [] + ([t] + ts) == [t] + ts;
      SpanToken(list, cur, t, ts, end);
    case Some(text) =>
      SpanToken(list, cur, Token(Space, text), [t] + ts, end);
      SpanToken(list, cur + 1, t, ts, end);
  }

  /** An optional blank with no blank behind it. */
  lemma {:induction false} SpanEnd(list: seq<Token>, cur: nat, b: Blank, end: nat)
    requires Span(list, cur, BlankTokens(b), end) && !KindAt(list, end, Space)
    ensures Skip(list, cur) == end
  {
    if b.Some? {
      assert list[cur] == list[cur..end][0];
    }
  }

  // ---------- every way of writing is read ----------

  function KeyNodeOf(key: Key): Node
  {
    if key.NoKey? then Null else KeyNode(key)
  }

  lemma {:induction false} TailReads(g: Grammar, list: seq<Token>, cur: nat, t: Tail, end: nat)
    requires g == TOML && WellFormed(g) && TailOk(t) && Span(list, cur, TailTokens(t), end)
    requires !KindAt(list, Skip(list, end), Dot)
    ensures RuleReads(g, KeyTail, list, cur, KeyNodeOf(TailKey(t)), end)
    decreases t
  {
    match t
    case NoTail => ReadKeyEnd(g, list, cur);
    case Tail(before, after, word, next) =>
      var w := TailAt(list, cur, before, after, word, TailTokens(next), end);
      TailReads(g, list, w + 1, next, end);
      ReadKeyTail(g, list, cur, w, KeyNodeOf(TailKey(next)), end);
  }

  /** Where the word behind a dot is. */
  lemma {:induction false} TailAt(list: seq<Token>, cur: nat, before: Blank, after: Blank, word: Token, ts: seq<Token>,
      end: nat)
    returns (w: nat)
    requires Span(list, cur, BlankTokens(before) + ([DOT] + (BlankTokens(after) + ([word] + ts))), end) && IsWord(word)
    ensures KindAt(list, Skip(list, cur), Dot) && w == Behind(list, cur) && WordAt(list, w) && list[w] == word
    ensures Span(list, w + 1, ts, end)
  {
    SpanBlank(list, cur, before, DOT, BlankTokens(after) + ([word] + ts), end);
    SpanBlank(list, Skip(list, cur) + 1, after, word, ts, end);
    w := Behind(list, cur);
  }

  /** A key as written, with nothing behind it that continues it. */
  lemma {:induction false} KeyReads(g: Grammar, list: seq<Token>, cur: nat, word: Token, tail: Tail, end: nat)
    requires g == TOML && WellFormed(g) && IsWord(word) && TailOk(tail)
    requires cur < |list| && list[cur] == word && Span(list, cur + 1, TailTokens(tail), end)
    requires !KindAt(list, Skip(list, end), Dot)
    ensures RuleReads(g, KeyRule, list, cur, KeyNode(Key(WordOf(word), TailKey(tail))), end)
  {
    TailReads(g, list, cur + 1, tail, end);
    ReadKey(g, list, cur, KeyNodeOf(TailKey(tail)), end);
  }

  function LineNode(l: WrittenLine): Node
    requires LineOk(l)
  {
    EntryNode(Entry(LineKey(l), LineValue(l), NoEntry))
  }

  /** An optional blank, a word, and two more groups of tokens, the second from `e` on. */
  lemma {:induction false} WordAndTail(list: seq<Token>, cur: nat, lead: Blank, word: Token, tail: seq<Token>,
      rest: seq<Token>, end: nat)
    returns (e: nat)
    requires Span(list, cur, BlankTokens(lead) + ([word] + (tail + rest)), end) && IsWord(word)
    ensures var k := Skip(list, cur);
      k < |list| && list[k] == word && Span(list, k + 1, tail, e) && Span(list, e, rest, end)
  {
    SpanBlank(list, cur, lead, word, tail + rest, end);
    e := SpanSplit(list, Skip(list, cur) + 1, tail, rest, end);
  }

  /** Where the key of a setting starts and ends, and where its value is. */
  lemma {:induction false} SettingAt(list: seq<Token>, cur: nat, l: WrittenLine, end: nat)
    returns (k: nat, e: nat, v: nat)
    requires l.Setting? && LineOk(l) && Span(list, cur, LineTokens(l), end) && !KindAt(list, end, Space)
    ensures k == Skip(list, cur) < |list| && list[k] == l.word && Span(list, k + 1, TailTokens(l.tail), e)
    ensures KindAt(list, Skip(list, e), Eq) && v == Behind(list, e) && v < |list| && list[v] == l.value
    ensures Skip(list, v + 1) == end
  {
    var value := BlankTokens(l.after) + ([l.value] + BlankTokens(l.end));
    e := WordAndTail(list, cur, l.lead, l.word, TailTokens(l.tail), BlankTokens(l.before) + ([EQ] + value), end);
    k := Skip(list, cur);
    v := AssignedAt(list, e, l.before, l.after, l.value, l.end, end);
  }

  lemma {:induction false} AssignedAt(list: seq<Token>, e: nat, before: Blank, after: Blank, value: Token, last: Blank,
      end: nat)
    returns (v: nat)
    requires Span(list, e, BlankTokens(before) + ([EQ] + (BlankTokens(after) + ([value] + BlankTokens(last)))), end)
    requires value.kind != Space && !KindAt(list, end, Space)
    ensures KindAt(list, Skip(list, e), Eq) && v == Behind(list, e) && v < |list| && list[v] == value
    ensures Skip(list, v + 1) == end
  {
    SpanBlank(list, e, before, EQ, BlankTokens(after) + ([value] + BlankTokens(last)), end);
    SpanBlank(list, Skip(list, e) + 1, after, value, BlankTokens(last), end);
    v := Behind(list, e);
    SpanEnd(list, v + 1, last, end);
  }

  lemma {:induction false} HeaderAt(list: seq<Token>, cur: nat, l: WrittenLine, end: nat) returns (k: nat, e: nat)
    requires l.Header? && LineOk(l) && Span(list, cur, LineTokens(l), end) && !KindAt(list, end, Space)
    ensures KindAt(list, Skip(list, cur), LBrack) && k == Behind(list, cur) < |list| && list[k] == l.word
    ensures Span(list, k + 1, TailTokens(l.tail), e) && KindAt(list, Skip(list, e), RBrack) && Behind(list, e) == end
  {
    var close := BlankTokens(l.close) + ([RBRACK] + BlankTokens(l.end));
    SpanBlank(list, cur, l.lead, LBRACK, BackTokens(l), end);
    e := WordAndTail(list, Skip(list, cur) + 1, l.open, l.word, TailTokens(l.tail), close, end);
    k := Behind(list, cur);
    CloseAt(list, e, l.close, l.end, end);
  }

  lemma {:induction false} CloseAt(list: seq<Token>, e: nat, close: Blank, after: Blank, end: nat)
    requires Span(list, e, BlankTokens(close) + ([RBRACK] + BlankTokens(after)), end) && !KindAt(list, end, Space)
    ensures KindAt(list, Skip(list, e), RBrack) && Behind(list, e) == end
  {
    SpanBlank(list, e, close, RBRACK, BlankTokens(after), end);
    SpanEnd(list, Skip(list, e) + 1, after, end);
  }

  lemma {:induction false} RootAt(list: seq<Token>, cur: nat, l: WrittenLine, end: nat) returns (r: nat)
    requires l.Root? && Span(list, cur, LineTokens(l), end) && !KindAt(list, end, Space)
    ensures KindAt(list, Skip(list, cur), LBrack) && r == Behind(list, cur) && KindAt(list, r, RBrack)
    ensures Skip(list, r + 1) == end
  {
    SpanBlank(list, cur, l.lead, LBRACK, BlankTokens(l.open) + ([RBRACK] + BlankTokens(l.end)), end);
    SpanBlank(list, Skip(list, cur) + 1, l.open, RBRACK, BlankTokens(l.end), end);
    r := Behind(list, cur);
    SpanEnd(list, r + 1, l.end, end);
  }

  lemma {:induction false} LineReads(g: Grammar, list: seq<Token>, cur: nat, l: WrittenLine, end: nat)
    requires g == TOML && WellFormed(g) && LineOk(l) && Span(list, cur, LineTokens(l), end) && !KindAt(list, end, Space)
    ensures RuleReads(g, EntryRule, list, cur, LineNode(l), end)
  {
    if l.Setting? {
      var k, e, v := SettingAt(list, cur, l, end);
      KeyReads(g, list, k, l.word, l.tail, e);
      ReadSetting(g, list, cur, k, KeyNode(LineKey(l)), e, v);
    } else if l.Header? {
      var k, e := HeaderAt(list, cur, l, end);
      KeyReads(g, list, k, l.word, l.tail, e);
      ReadHeader(g, list, cur, k, KeyNode(LineKey(l)), e);
    } else {
      var r := RootAt(list, cur, l, end);
      ReadRoot(g, list, cur, r);
    }
  }

  /** A line starts at `cur`: a word or an opening bracket, perhaps behind a blank. */
  predicate LineStarts(list: seq<Token>, cur: nat)
  {
    WordAt(list, Skip(list, cur)) || KindAt(list, Skip(list, cur), LBrack)
  }

  lemma {:induction false} LineAt(list: seq<Token>, cur: nat, l: WrittenLine, end: nat)
    requires LineOk(l) && Span(list, cur, LineTokens(l), end)
    ensures LineStarts(list, cur) && (l.lead.None? ==> !KindAt(list, cur, Space))
  {
    SpanBlank(list, cur, l.lead, FirstToken(l), BackTokens(l), end);
    if l.lead.None? {
      assert [] + ([FirstToken(l)] + BackTokens(l)) == [FirstToken(l)] + BackTokens(l);
      SpanToken(list, cur, FirstToken(l), BackTokens(l), end);
    }
  }

  /** The rules for line breaks, optional or not, read up to `e`. */
  predicate BreaksTo(g: Grammar, list: seq<Token>, cur: nat, e: nat)
    requires WellFormed(g)
  {
    RuleReads(g, NewlineListOpt, list, cur, Null, e) && RuleReads(g, NewlineList, list, cur, Null, e)
  }

  /** Line breaks, perhaps behind a blank. */
  lemma {:induction false} BreaksRead(g: Grammar, list: seq<Token>, cur: nat, b: Blank, bs: Breaks, end: nat)
    requires g == TOML && WellFormed(g) && Span(list, cur, BlankTokens(b) + BreakTokens(bs), end)
    requires !KindAt(list, end, Space) && !KindAt(list, end, Newline)
    ensures BreaksTo(g, list, cur, end)
    decreases bs
  {
    match bs
    case LastBreak(text, after) =>
      SpanBlank(list, cur, b, Token(Newline, text), BlankTokens(after), end);
      SpanEnd(list, Skip(list, cur) + 1, after, end);
      ReadNoBreak(g, list, Skip(list, cur) + 1);
      ReadBreak(g, list, cur, Skip(list, cur) + 1);
    case MoreBreaks(text, before, next) =>
      SpanBlank(list, cur, b, Token(Newline, text), BlankTokens(before) + BreakTokens(next), end);
      BreaksRead(g, list, Skip(list, cur) + 1, before, next, end);
      ReadBreak(g, list, cur, end);
  }

  lemma {:induction false} BareBreaksRead(g: Grammar, list: seq<Token>, cur: nat, bs: Breaks, end: nat)
    requires g == TOML && WellFormed(g) && Span(list, cur, BreakTokens(bs), end)
    requires !KindAt(list, end, Space) && !KindAt(list, end, Newline)
    ensures BreaksTo(g, list, cur, end)
  {
    assert BlankTokens(None) + BreakTokens(bs) == BreakTokens(bs);
    BreaksRead(g, list, cur, None, bs, end);
  }

  /** Optional line breaks, with no line break behind them. */
  lemma {:induction false} OptReads(g: Grammar, list: seq<Token>, cur: nat, o: Option<Breaks>, end: nat)
    requires g == TOML && WellFormed(g) && Span(list, cur, OptTokens(o), end)
    requires !KindAt(list, Skip(list, end), Newline) && (o.Some? ==> !KindAt(list, end, Space))
    ensures RuleReads(g, NewlineListOpt, list, cur, Null, end)
  {
    match o
    case None => ReadNoBreak(g, list, cur);
    case Some(bs) => BareBreaksRead(g, list, cur, bs, end);
  }

  /** Where the semicolon is. */
  lemma {:induction false} SemiAt(list: seq<Token>, cur: nat, before: Option<Breaks>, after: Option<Breaks>, end: nat)
    returns (at: nat)
    requires Span(list, cur, OptTokens(before) + ([SEMICOLON] + OptTokens(after)), end)
    ensures Span(list, cur, OptTokens(before), at) && KindAt(list, at, Semicolon)
    ensures Span(list, at + 1, OptTokens(after), end)
  {
    at := SpanSplit(list, cur, OptTokens(before), [SEMICOLON] + OptTokens(after), end);
    SpanToken(list, at, SEMICOLON, OptTokens(after), end);
  }

  lemma {:induction false} SemiReads(g: Grammar, list: seq<Token>, cur: nat, before: Option<Breaks>, at: nat,
      after: Option<Breaks>, end: nat)
    requires g == TOML && WellFormed(g) && Span(list, cur, OptTokens(before), at) && KindAt(list, at, Semicolon)
    requires Span(list, at + 1, OptTokens(after), end) && !KindAt(list, Skip(list, end), Newline)
    requires after.Some? ==> !KindAt(list, end, Space)
    ensures RuleReads(g, Separator, list, cur, Null, end)
  {
    OptReads(g, list, cur, before, at);
    OptReads(g, list, at + 1, after, end);
    ReadSemicolon(g, list, cur, at, end);
  }

  lemma {:induction false} BreakingReads(g: Grammar, list: seq<Token>, cur: nat, breaks: Breaks, end: nat)
    requires g == TOML && WellFormed(g) && Span(list, cur, BreakTokens(breaks), end)
    requires !KindAt(list, end, Space) && !KindAt(list, end, Newline) && !KindAt(list, end, Semicolon)
    ensures RuleReads(g, Separator, list, cur, Null, end)
  {
    BareBreaksRead(g, list, cur, breaks, end);
    ReadBreaks(g, list, cur, end);
  }

  lemma {:induction false} BetweenReads(g: Grammar, list: seq<Token>, cur: nat, b: Between, end: nat)
    requires g == TOML && WellFormed(g) && Span(list, cur, BetweenTokens(b), end) && LineStarts(list, end)
    requires b.Breaking? || b.after.Some? ==> !KindAt(list, end, Space)
    ensures RuleReads(g, Separator, list, cur, Null, end)
  {
    match b
    case Breaking(breaks) => BreakingReads(g, list, cur, breaks, end);
    case Semi(before, after) =>
      var at := SemiAt(list, cur, before, after, end);
      SemiReads(g, list, cur, before, at, after, end);
  }

  function EntryNodeOf(e: Entry): Node
  {
    if e.NoEntry? then Null else EntryNode(e)
  }

  lemma {:induction false} BreakAt(list: seq<Token>, cur: nat, bs: Breaks, end: nat)
    requires Span(list, cur, BreakTokens(bs), end)
    ensures KindAt(list, cur, Newline)
  {
    SpanToken(list, cur, BreakTokens(bs)[0], BreakTokens(bs)[1..], end);
  }

  lemma {:induction false} OptAt(list: seq<Token>, cur: nat, o: Option<Breaks>, end: nat)
    requires Span(list, cur, OptTokens(o), end)
    ensures if o.Some? then KindAt(list, cur, Newline) else cur == end
  {
    if o.Some? {
      BreakAt(list, cur, o.value, end);
    }
  }

  /** Between two lines there is a line break or a semicolon first. */
  lemma {:induction false} BetweenAt(list: seq<Token>, cur: nat, b: Between, end: nat)
    requires Span(list, cur, BetweenTokens(b), end)
    ensures KindAt(list, cur, Newline) || KindAt(list, cur, Semicolon)
  {
    match b
    case Breaking(breaks) => BreakAt(list, cur, breaks, end);
    case Semi(before, after) =>
      var at := SemiAt(list, cur, before, after, end);
      OptAt(list, cur, before, at);
  }

  /** Behind a line there is no blank. */
  lemma {:induction false} RestAt(list: seq<Token>, cur: nat, r: Rest)
    requires Span(list, cur, RestTokens(r), |list|)
    ensures !KindAt(list, cur, Space)
  {
    match r
    case Last(trailing) => OptAt(list, cur, trailing, |list|);
    case More(between, line, rest) =>
      var at := SpanSplit(list, cur, BetweenTokens(between), LineTokens(line) + RestTokens(rest), |list|);
      BetweenAt(list, cur, between, at);
  }

  /** A line and what comes behind it, up to the end of the list. */
  lemma {:induction false} FirstLineReads(g: Grammar, list: seq<Token>, cur: nat, l: WrittenLine, r: Rest)
    returns (e: nat)
    requires g == TOML && WellFormed(g) && LineOk(l) && Span(list, cur, LineTokens(l) + RestTokens(r), |list|)
    ensures RuleReads(g, EntryRule, list, cur, LineNode(l), e) && Span(list, e, RestTokens(r), |list|)
    ensures LineStarts(list, cur) && (l.lead.None? ==> !KindAt(list, cur, Space))
  {
    e := SpanSplit(list, cur, LineTokens(l), RestTokens(r), |list|);
    RestAt(list, e, r);
    LineReads(g, list, cur, l, e);
    LineAt(list, cur, l, e);
  }

  lemma {:induction false} LinkLines(l: WrittenLine, r: Rest)
    requires LineOk(l) && RestOk(r)
    ensures Linked(LineNode(l), EntryNodeOf(RestEntry(r))) == EntryNode(Entry(LineKey(l), LineValue(l), RestEntry(r)))
  {
  }

  /** The remaining lines are read up to the trailing line breaks, which start at `e`. */
  lemma {:induction false} RestReads(g: Grammar, list: seq<Token>, cur: nat, r: Rest) returns (e: nat)
    requires g == TOML && WellFormed(g) && RestOk(r) && Span(list, cur, RestTokens(r), |list|)
    ensures RuleReads(g, EntryListTail, list, cur, EntryNodeOf(RestEntry(r)), e)
    ensures RuleReads(g, NewlineListOpt, list, e, Null, |list|)
    decreases r
  {
    match r
    case Last(trailing) =>
      e := cur;
      OptReads(g, list, cur, trailing, |list|);
      TrailingReads(g, list, cur, trailing);
      ReadNoMore(g, list, cur, |list|);
    case More(between, line, rest) =>
      var at := SpanSplit(list, cur, BetweenTokens(between), LineTokens(line) + RestTokens(rest), |list|);
      var l := FirstLineReads(g, list, at, line, rest);
      BetweenReads(g, list, cur, between, at);
      e := RestReads(g, list, l, rest);
      LinkLines(line, rest);
      ReadMore(g, list, cur, at, LineNode(line), l, EntryNodeOf(RestEntry(rest)), e);
  }

  lemma {:induction false} TrailingReads(g: Grammar, list: seq<Token>, cur: nat, trailing: Option<Breaks>)
    requires g == TOML && WellFormed(g) && Span(list, cur, OptTokens(trailing), |list|)
    ensures RuleReads(g, NewlineList, list, cur, Null, |list|) || RuleRefuses(g, NewlineList, list, cur)
  {
    match trailing
    case None => ReadNoBreak(g, list, cur);
    case Some(bs) => BareBreaksRead(g, list, cur, bs, |list|);
  }

  /** The blank and line breaks in front of the first line, which starts at `at`. */
  lemma {:induction false} FrontReads(g: Grammar, list: seq<Token>, d: Document, at: nat)
    requires g == TOML && WellFormed(g) && DocumentOk(d) && Span(list, 0, FrontTokens(d), at)
    requires LineStarts(list, at) && (d.breaks.Some? ==> !KindAt(list, at, Space))
    ensures RuleReads(g, NewlineListOpt, list, 0, Null, at)
  {
    match d.breaks
    case None => ReadNoBreak(g, list, 0);
    case Some(bs) => BreaksRead(g, list, 0, d.blank, bs, at);
  }

  /** Every way of writing a list of entries parses to that list. */
  lemma {:induction false} LayoutParses(d: Document)
    requires WellFormed(TOML) && DocumentOk(d)
    ensures ParseAll(TOML, Tokens(d)) == Some(EntriesOf(d))
  {
    var list := Tokens(d);
    assert list[0..|list|] == list;
    var at := SpanSplit(list, 0, FrontTokens(d), LineTokens(d.line) + RestTokens(d.rest), |list|);
    var l := FirstLineReads(TOML, list, at, d.line, d.rest);
    FrontReads(TOML, list, d, at);
    var e := RestReads(TOML, list, l, d.rest);
    LinkLines(d.line, d.rest);
    ReadUnit(TOML, list, at, LineNode(d.line), l, EntryNodeOf(RestEntry(d.rest)), e);
  }
}
