/** The dump functions of toml/ast.c, and what the lexer makes of the text they print. */
module TomlPrinter {
  import opened Options
  import opened TomlLexer
  import opened TomlTokens
  import opened TomlParser
  import opened TomlLayout

  // ---------- the dump functions ----------

  function Digit(d: nat): char
    requires d < 10
  {
    ('0' as int + d) as char
  }

  function DecimalNat(n: nat): string
  {
    if n < 10 then [Digit(n)] else DecimalNat(n / 10) + [Digit(n % 10)]
  }

  /** printf("%lld") */
  function Decimal(n: int): string
  {
    if n < 0 then "-" + DecimalNat(-n) else DecimalNat(n)
  }

  function Quote(s: string): string
  {
    "\"" + s + "\""
  }

  function DumpValue(v: Value): string
  {
    match v
    case BoolValue(b) => if b then "true" else "false"
    case IntValue(n) => Decimal(n)
    case StringValue(s) => Quote(s)
  }

  /** A dotted key; ast_node_dump prints a placeholder for a null pointer. */
  function DumpKey(key: Key): string
  {
    match key
    case NoKey => "(NULL)"
    case Key(id, next) => if next.NoKey? then Quote(id) else Quote(id) + ("." + DumpKey(next))
  }

  function DumpLine(key: Key, value: Option<Value>): string
  {
    match value
    case Some(v) => DumpKey(key) + (" " + ("=" + (" " + DumpValue(v))))
    case None => "[" + (DumpKey(key) + "]")
  }

  /** The entries of a list, one to a line; the caller never dumps an empty list. */
  function DumpEntry(e: Entry): string
  {
    match e
    case NoEntry => ""
    case Entry(key, value, next) =>
      DumpLine(key, value) + if next.NoEntry? then "" else "\n" + DumpEntry(next)
  }

  // ---------- the tokens of the printed text ----------

  function StringToken(s: string): Token { Token(Str, Quote(s)) }

  const SPACE := Token(Space, " ")
  const NEWLINE := Token(Newline, "\n")

  function ValueToken(v: Value): Token
  {
    match v
    case BoolValue(b) => if b then Token(True, "true") else Token(False, "false")
    case IntValue(n) => Token(Int, Decimal(n))
    case StringValue(s) => StringToken(s)
  }

  function PrintedKey(key: Key): seq<Token>
    decreases key, 0
  {
    match key
    case NoKey => []
    case Key(id, next) => [StringToken(id)] + PrintedTail(next)
  }

  /** The tokens behind the first part of a key. */
  function PrintedTail(key: Key): seq<Token>
    decreases key, 1
  {
    if key.NoKey? then [] else [DOT] + PrintedKey(key)
  }

  function PrintedLine(key: Key, value: Option<Value>): seq<Token>
  {
    match value
    case Some(v) => PrintedKey(key) + [SPACE, EQ, SPACE, ValueToken(v)]
    case None => [LBRACK] + PrintedKey(key) + [RBRACK]
  }

  function PrintedTokens(e: Entry): seq<Token>
    decreases e, 0
  {
    match e
    case NoEntry => []
    case Entry(key, value, next) => PrintedLine(key, value) + PrintedRest(next)
  }

  /** The tokens behind a line. */
  function PrintedRest(e: Entry): seq<Token>
    decreases e, 1
  {
    if e.NoEntry? then [] else [NEWLINE] + PrintedTokens(e)
  }

  // ---------- when the text can be read back ----------

  /** Between double quotes the string ends where it should: it has no unescaped double quote and
      does not end behind a backslash. */
  predicate Quotable(s: string)
  {
    Inside('\"', false, s) == Some(false)
  }

  predicate KeyQuotable(key: Key)
  {
    key.NoKey? || (Quotable(key.id) && KeyQuotable(key.next))
  }

  predicate ValueQuotable(v: Value)
  {
    v.StringValue? ==> Quotable(v.s)
  }

  predicate LineReadable(key: Key, value: Option<Value>)
  {
    key.Key? && KeyQuotable(key) && (value.Some? ==> ValueQuotable(value.value))
  }

  predicate Readable(e: Entry)
  {
    e.Entry? ==> LineReadable(e.key, e.value) && Readable(e.next)
  }

  // ---------- lexing ----------

  /** The text is one token, whatever follows it. */
  predicate Lexes(text: string, token: Token, rest: string)
  {
    TomlTokenize(text + rest) == Cons(token, TomlTokenize(rest))
  }

  /** What toml_lexer makes of the tokens of a run: keywords, without comments. */
  function Cook(ts: Option<seq<Token>>): Option<seq<Token>>
  {
    match ts
    case None => None
    case Some(list) => Some(WithoutComments(Keywords(list)))
  }

  lemma {:induction false} CookCons(t: Token, ts: Option<seq<Token>>)
    requires t.kind != Comment
    ensures Cook(Cons(t, ts)) == Cons(Keyword(t), Cook(ts))
  {
    if ts.Some? {
      assert Keywords([t] + ts.value) == [Keyword(t)] + Keywords(ts.value);
      assert ([Keyword(t)] + Keywords(ts.value))[1..] == Keywords(ts.value);
    }
  }

  lemma {:induction false} LexPunctuation(c: char, token: Token, rest: string)
    requires token.text == [c] && !token.kind.Comment? && !token.kind.Id?
    requires ActionAt(Init, c) == Go(Init, Some(token.kind), false)
    ensures Lexes([c], token, rest)
  {
    assert ([c] + rest)[1..] == rest && "" + [c] == [c];
    CookCons(token, Scan(Init, "", rest));
  }

  lemma {:induction false} BlankAction(c: char, s: LexState)
    requires (s == InSpace && IsBlank(c)) || (s == InNewline && IsBreak(c))
    ensures ActionAt(Init, c) == Go(s, None, true) && ActionAt(s, c) == Go(s, None, false)
  {
  }

  /** A single blank or line break. */
  lemma {:induction false} ScanBlank(c: char, s: LexState, kind: Kind, rest: string)
    requires (s == InSpace && kind == Space && IsBlank(c) && !IsBlank(Current(rest))) ||
             (s == InNewline && kind == Newline && IsBreak(c) && !IsBreak(Current(rest)))
    ensures Scan(Init, "", [c] + rest) == Cons(Token(kind, [c]), Scan(Init, "", rest))
  {
    BlankAction(c, s);
    assert ([c] + rest)[1..] == rest && "" + [c] == [c];
    assert Scan(s, "", [c] + rest) == Scan(s, [c], rest);
  }

  lemma {:induction false} LexSpace(rest: string)
    requires !IsBlank(Current(rest))
    ensures Lexes(" ", SPACE, rest)
  {
    ScanBlank(' ', InSpace, Space, rest);
    CookCons(SPACE, Scan(Init, "", rest));
  }

  lemma {:induction false} LexNewline(rest: string)
    requires !IsBreak(Current(rest))
    ensures Lexes("\n", NEWLINE, rest)
  {
    ScanBlank('\n', InNewline, Newline, rest);
    CookCons(NEWLINE, Scan(Init, "", rest));
  }

  /** The state inside a string. */
  function InString(quote: char, escaped: bool): LexState
  {
    if quote == '\"' then if escaped then InDoubleEscape else InDouble
    else if escaped then InSingleEscape else InSingle
  }

  /** Behind an opening quote: up to the quote that closes the string. */
  lemma {:induction false} ScanQuoted(quote: char, escaped: bool, lexeme: string, s: string, rest: string)
    requires quote == '\"' || quote == '\''
    requires Inside(quote, escaped, s) == Some(false) && '\0' !in s
    ensures Scan(InString(quote, escaped), lexeme, s + ([quote] + rest)) ==
            Cons(Token(Str, lexeme + (s + [quote])), Scan(Init, "", rest))
    decreases |s|
  {
    var text := s + ([quote] + rest);
    if s == "" {
      assert text == [quote] + rest && text[1..] == rest && lexeme + [text[0]] == lexeme + (s + [quote]);
    } else {
      assert text[0] == s[0] && text[1..] == s[1..] + ([quote] + rest);
      assert lexeme + [s[0]] + (s[1..] + [quote]) == lexeme + (s + [quote]);
      ScanQuoted(quote, !escaped && s[0] == '\\', lexeme + [s[0]], s[1..], rest);
    }
  }

  /** A whole string with either quotes. */
  lemma {:induction false} LexString(quote: char, s: string, token: Token, rest: string)
    requires quote == '\"' || quote == '\''
    requires Inside(quote, false, s) == Some(false) && '\0' !in s && token == Token(Str, [quote] + s + [quote])
    ensures Lexes(token.text, token, rest)
  {
    ScanQuoted(quote, false, [quote], s, rest);
    assert token.text + rest == [quote] + (s + ([quote] + rest));
    assert (token.text + rest)[1..] == s + ([quote] + rest);
    assert "" + [quote] == [quote] && [quote] + (s + [quote]) == token.text;
    assert ActionAt(Init, quote) == Go(InString(quote, false), None, false);
    CookCons(token, Scan(Init, "", rest));
  }

  lemma {:induction false} LexQuoted(s: string, rest: string)
    requires Quotable(s) && '\0' !in s
    ensures Lexes(Quote(s), StringToken(s), rest)
  {
    LexString('\"', s, StringToken(s), rest);
  }

  /** Text after which a number or word ends. */
  predicate Ends(rest: string)
  {
    rest == "" || rest[0] == '\n'
  }

  lemma {:induction false} ScanRun(s: LexState, kind: Kind, lexeme: string, more: string, rest: string)
    requires (s == InInt && kind == Int && forall i :: 0 <= i < |more| ==> IsDigit(more[i])) ||
             (s == InId && kind == Id && forall i :: 0 <= i < |more| ==> IsAlpha(more[i]))
    requires Ends(rest)
    ensures Scan(s, lexeme, more + rest) == Cons(Token(kind, lexeme + more), Scan(Init, "", rest))
    decreases |more|
  {
    if more == "" {
      assert more + rest == rest && lexeme + more == lexeme;
    } else {
      assert (more + rest)[0] == more[0] && (more + rest)[1..] == more[1..] + rest;
      assert lexeme + [more[0]] + more[1..] == lexeme + more;
      ScanRun(s, kind, lexeme + [more[0]], more[1..], rest);
    }
  }

  lemma {:induction false} LexRun(s: LexState, kind: Kind, text: string, rest: string)
    requires text != "" && Ends(rest)
    requires (s == InInt && kind == Int && StartsNumber(text[0]) && forall i :: 1 <= i < |text| ==> IsDigit(text[i])) ||
             (s == InId && kind == Id && forall i :: 0 <= i < |text| ==> IsAlpha(text[i]))
    ensures Lexes(text, Keyword(Token(kind, text)), rest)
  {
    assert (text + rest)[0] == text[0] && (text + rest)[1..] == text[1..] + rest;
    assert "" + [text[0]] == [text[0]] && [text[0]] + text[1..] == text;
    ScanRun(s, kind, [text[0]], text[1..], rest);
    CookCons(Token(kind, text), Scan(Init, "", rest));
  }

  lemma {:induction false} DecimalNatDigits(n: nat)
    ensures DecimalNat(n) != "" && forall i :: 0 <= i < |DecimalNat(n)| ==> IsDigit(DecimalNat(n)[i])
  {
    if n >= 10 {
      DecimalNatDigits(n / 10);
    }
  }

  lemma {:induction false} LexValue(v: Value, rest: string)
    requires ValueQuotable(v) && '\0' !in DumpValue(v) && Ends(rest)
    ensures Lexes(DumpValue(v), ValueToken(v), rest)
  {
    match v
    case BoolValue(b) =>
      LexRun(InId, Id, DumpValue(v), rest);
      KeywordExact(Token(Id, DumpValue(v)));
      assert "true"[0] == 't' && "false"[0] == 'f' && !("true" <= "false");
    case IntValue(n) =>
      DecimalNatDigits(if n < 0 then -n else n);
      LexRun(InInt, Int, Decimal(n), rest);
    case StringValue(s) =>
      assert '\0' in s ==> s in [s] && '\0' in Quote(s);
      LexQuoted(s, rest);
  }

  /** Some tokens, then those of the rest. */
  predicate LexAll(text: string, tokens: seq<Token>, rest: string)
  {
    TomlTokenize(text + rest) == Prefixed(tokens, TomlTokenize(rest))
  }

  lemma {:induction false} LexOne(text: string, token: Token, rest: string)
    requires Lexes(text, token, rest)
    ensures LexAll(text, [token], rest)
  {
  }

  lemma {:induction false} LexBoth(a: string, ts: seq<Token>, b: string, us: seq<Token>, rest: string)
    requires LexAll(a, ts, b + rest) && LexAll(b, us, rest)
    ensures LexAll(a + b, ts + us, rest)
  {
    assert (a + b) + rest == a + (b + rest);
    if TomlTokenize(rest).Some? {
      var r := TomlTokenize(rest).value;
      assert ts + (us + r) == (ts + us) + r;
    }
  }

  lemma {:induction false} LexKey(key: Key, rest: string)
    requires key.Key? && KeyQuotable(key) && '\0' !in DumpKey(key)
    ensures LexAll(DumpKey(key), PrintedKey(key), rest)
  {
    assert '\0' !in key.id by {
      assert '\0' in key.id ==> '\0' in Quote(key.id);
    }
    if key.next.NoKey? {
      LexQuoted(key.id, rest);
      LexOne(Quote(key.id), StringToken(key.id), rest);
      assert [StringToken(key.id)] + [] == [StringToken(key.id)];
    } else {
      var more := DumpKey(key.next);
      LexQuoted(key.id, "." + more + rest);
      LexOne(Quote(key.id), StringToken(key.id), "." + more + rest);
      LexPunctuation('.', DOT, more + rest);
      LexOne(".", DOT, more + rest);
      LexKey(key.next, rest);
      LexBoth(".", [DOT], more, PrintedKey(key.next), rest);
      LexBoth(Quote(key.id), [StringToken(key.id)], "." + more, [DOT] + PrintedKey(key.next), rest);
    }
  }

  lemma {:induction false} LexSetting(v: Value, rest: string)
    requires ValueQuotable(v) && '\0' !in DumpValue(v) && Ends(rest)
    ensures LexAll(" " + ("=" + (" " + DumpValue(v))), [SPACE, EQ, SPACE, ValueToken(v)], rest)
  {
    var text := DumpValue(v);
    LexValue(v, rest);
    LexOne(text, ValueToken(v), rest);
    FirstOfValue(v);
    assert (text + rest)[0] == text[0];
    LexSpace(text + rest);
    LexOne(" ", SPACE, text + rest);
    LexBoth(" ", [SPACE], text, [ValueToken(v)], rest);
    var spaced := " " + text;
    LexPunctuation('=', EQ, spaced + rest);
    LexOne("=", EQ, spaced + rest);
    LexBoth("=", [EQ], spaced, [SPACE] + [ValueToken(v)], rest);
    var setting := "=" + spaced;
    assert (setting + rest)[0] == '=';
    LexSpace(setting + rest);
    LexOne(" ", SPACE, setting + rest);
    LexBoth(" ", [SPACE], setting, [EQ] + ([SPACE] + [ValueToken(v)]), rest);
    assert [SPACE] + ([EQ] + ([SPACE] + [ValueToken(v)])) == [SPACE, EQ, SPACE, ValueToken(v)];
  }

  lemma {:induction false} FirstOfValue(v: Value)
    ensures DumpValue(v) != "" && !IsBlank(DumpValue(v)[0])
  {
    if v.IntValue? {
      DecimalNatDigits(if v.n < 0 then -v.n else v.n);
      assert IsDigit(DecimalNat(if v.n < 0 then -v.n else v.n)[0]);
    }
  }

  lemma {:induction false} LexLine(key: Key, value: Option<Value>, rest: string)
    requires LineReadable(key, value) && '\0' !in DumpLine(key, value) && Ends(rest)
    ensures LexAll(DumpLine(key, value), PrintedLine(key, value), rest)
  {
    match value
    case Some(v) =>
      var setting := " " + ("=" + (" " + DumpValue(v)));
      LexSetting(v, rest);
      LexKey(key, setting + rest);
      LexBoth(DumpKey(key), PrintedKey(key), setting, [SPACE, EQ, SPACE, ValueToken(v)], rest);
    case None =>
      LexPunctuation(']', RBRACK, rest);
      LexOne("]", RBRACK, rest);
      LexKey(key, "]" + rest);
      LexBoth(DumpKey(key), PrintedKey(key), "]", [RBRACK], rest);
      LexPunctuation('[', LBRACK, DumpKey(key) + "]" + rest);
      LexOne("[", LBRACK, DumpKey(key) + "]" + rest);
      LexBoth("[", [LBRACK], DumpKey(key) + "]", PrintedKey(key) + [RBRACK], rest);
      assert [LBRACK] + (PrintedKey(key) + [RBRACK]) == [LBRACK] + PrintedKey(key) + [RBRACK];
  }

  lemma {:induction false} FirstOfEntry(e: Entry)
    requires e.Entry?
    ensures DumpEntry(e) != "" && !IsBreak(DumpEntry(e)[0])
  {
    assert DumpKey(e.key)[0] == '\"' || DumpKey(e.key)[0] == '(';
  }

  /** The lexer reads the printed text back as the tokens it was printed from. */
  lemma {:induction false} LexDump(e: Entry, rest: string)
    requires e.Entry? && Readable(e) && '\0' !in DumpEntry(e) && Ends(rest)
    ensures LexAll(DumpEntry(e), PrintedTokens(e), rest)
  {
    var line, tokens := DumpLine(e.key, e.value), PrintedLine(e.key, e.value);
    if e.next.NoEntry? {
      LexLine(e.key, e.value, rest);
      assert line + "" == line && tokens + [] == tokens;
    } else {
      var more := DumpEntry(e.next);
      LexDump(e.next, rest);
      FirstOfEntry(e.next);
      assert (more + rest)[0] == more[0];
      LexNewline(more + rest);
      LexOne("\n", NEWLINE, more + rest);
      LexBoth("\n", [NEWLINE], more, PrintedTokens(e.next), rest);
      LexLine(e.key, e.value, "\n" + more + rest);
      LexBoth(line, tokens, "\n" + more, [NEWLINE] + PrintedTokens(e.next), rest);
    }
  }
}
