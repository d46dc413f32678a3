/** The printer of toml/ast.c and the lexer and parser of toml/toml.c undo each other: the printed text is
    one of the many ways of writing a list of entries. */
module TomlRoundTrip {
  import opened Options
  import opened TomlLexer
  import opened TomlTokens
  import opened TomlParser
  import opened TomlGrammar
  import opened TomlRules
  import opened TomlLayout
  import opened TomlPrinter

  // ---------- integers ----------

  lemma {:induction false} DigitsAppend(s: string, acc: nat, d: nat)
    requires (forall i :: 0 <= i < |s| ==> IsDigit(s[i])) && d < 10
    ensures Digits(s + [Digit(d)], acc) == 10 * Digits(s, acc) + d
  {
    if s == "" {
      assert (s + [Digit(d)])[1..] == "";
    } else {
      assert (s + [Digit(d)])[0] == s[0] && (s + [Digit(d)])[1..] == s[1..] + [Digit(d)];
      DigitsAppend(s[1..], 10 * acc + (s[0] as int - '0' as int), d);
    }
  }

  lemma {:induction false} DigitsOfDecimal(n: nat)
    ensures Digits(DecimalNat(n), 0) == n
  {
    if n >= 10 {
      DecimalNatDigits(n / 10);
      DigitsOfDecimal(n / 10);
      DigitsAppend(DecimalNat(n / 10), 0, n % 10);
    }
  }

  lemma {:induction false} NoUnderscores(s: string)
    requires '_' !in s
    ensures WithoutUnderscores(s) == s
  {
    if s != "" {
      NoUnderscores(s[1..]);
      assert [s[0]] + s[1..] == s;
    }
  }

  /** What "%lld" prints, the integer rule reads. */
  lemma {:induction false} IntegerRoundTrip(n: int)
    ensures Atoll(WithoutUnderscores(Decimal(n))) == n <==> LLONG_MIN <= n <= LLONG_MAX
  {
    var m := if n < 0 then -n else n;
    DecimalNatDigits(m);
    DigitsOfDecimal(m);
    assert IsDigit(DecimalNat(m)[0]);
    NoUnderscores(Decimal(n));
    assert n < 0 ==> Decimal(n)[1..] == DecimalNat(m);
  }

  // ---------- the layout of the printed text ----------

  lemma {:induction false} UnquoteQuote(s: string)
    ensures Unquoted(Quote(s)) == s
  {
  }

  function TailOf(key: Key): Tail
  {
    match key
    case NoKey => NoTail
    case Key(id, next) => Tail(None, None, StringToken(id), TailOf(next))
  }

  function LineOf(key: Key, value: Option<Value>): WrittenLine
    requires key.Key?
  {
    match value
    case Some(v) => Setting(None, StringToken(key.id), TailOf(key.next), Some(" "), Some(" "), ValueToken(v), None)
    case None => Header(None, None, StringToken(key.id), TailOf(key.next), None, None)
  }

  /** Every key is there, and every integer fits 64 bits. */
  predicate Representable(e: Entry)
  {
    e.Entry? ==> e.key.Key? && LineInRange(e.value) && Representable(e.next)
  }

  predicate InRange(v: Value)
  {
    v.IntValue? ==> LLONG_MIN <= v.n <= LLONG_MAX
  }

  predicate LineInRange(value: Option<Value>)
  {
    value.Some? ==> InRange(value.value)
  }

  function RestOf(e: Entry): Rest
    requires Representable(e)
  {
    match e
    case NoEntry => Last(None)
    case Entry(key, value, next) => More(Breaking(LastBreak("\n", None)), LineOf(key, value), RestOf(next))
  }

  function DocumentOf(e: Entry): Document
    requires e.Entry? && Representable(e)
  {
    Document(None, None, LineOf(e.key, e.value), RestOf(e.next))
  }

  /** The same tokens, grouped as a layout groups them and as the dump does. */
  lemma {:induction false} TailGroups(word: Token, rest: seq<Token>)
    ensures [] + ([DOT] + ([] + ([word] + rest))) == [DOT] + ([word] + rest)
  {
    var tokens := [word] + rest;
    assert [] + tokens == tokens;
    assert [] + ([DOT] + tokens) == [DOT] + tokens;
  }

  lemma {:induction false} SettingGroups(word: Token, tail: seq<Token>, value: Token)
    ensures [] + ([word] + (tail + ([SPACE] + ([EQ] + ([SPACE] + ([value] + [])))))) ==
            ([word] + tail) + [SPACE, EQ, SPACE, value]
  {
    var back := [SPACE] + ([EQ] + ([SPACE] + ([value] + [])));
    assert back == [SPACE, EQ, SPACE, value];
    var tokens := [word] + (tail + back);
    assert [] + tokens == tokens;
    assert [word] + (tail + back) == ([word] + tail) + back;
  }

  lemma {:induction false} HeaderGroups(word: Token, tail: seq<Token>)
    ensures [] + ([LBRACK] + ([] + ([word] + (tail + ([] + ([RBRACK] + [])))))) ==
            [LBRACK] + ([word] + tail) + [RBRACK]
  {
    var back := [] + ([RBRACK] + []);
    assert back == [RBRACK];
    var tokens := [word] + (tail + back);
    assert [] + tokens == tokens;
    assert [] + ([LBRACK] + tokens) == [LBRACK] + tokens;
    assert [word] + (tail + back) == ([word] + tail) + back;
    assert [LBRACK] + (([word] + tail) + back) == [LBRACK] + ([word] + tail) + back;
  }

  lemma {:induction false} TailOfKey(key: Key)
    ensures TailOk(TailOf(key)) && TailKey(TailOf(key)) == key && TailTokens(TailOf(key)) == PrintedTail(key)
  {
    if key.Key? {
      TailOfKey(key.next);
      UnquoteQuote(key.id);
      TailGroups(StringToken(key.id), PrintedTail(key.next));
    }
  }

  lemma {:induction false} ValueOfToken(v: Value)
    requires InRange(v)
    ensures IsValue(ValueToken(v)) && ValueOf(ValueToken(v)) == v
  {
    match v
    case IntValue(n) => IntegerRoundTrip(n);
    case StringValue(s) => UnquoteQuote(s);
    case BoolValue(_) =>
  }

  lemma {:induction false} LineOfEntry(key: Key, value: Option<Value>)
    requires key.Key? && LineInRange(value)
    ensures var l := LineOf(key, value);
      && LineOk(l) && l.lead.None? && LineKey(l) == key && LineValue(l) == value
      && LineTokens(l) == PrintedLine(key, value)
  {
    TailOfKey(key.next);
    UnquoteQuote(key.id);
    match value
    case Some(v) =>
      ValueOfToken(v);
      SettingGroups(StringToken(key.id), PrintedTail(key.next), ValueToken(v));
    case None =>
      HeaderGroups(StringToken(key.id), PrintedTail(key.next));
  }

  lemma {:induction false} RestOfEntry(e: Entry)
    requires Representable(e)
    ensures RestOk(RestOf(e)) && RestEntry(RestOf(e)) == e && RestTokens(RestOf(e)) == PrintedRest(e)
  {
    if e.Entry? {
      LineOfEntry(e.key, e.value);
      RestOfEntry(e.next);
      assert BreakTokens(LastBreak("\n", None)) == [NEWLINE];
    }
  }

  /** The tokens of a syntax tree parse to that tree. */
  lemma {:induction false} ParseTokens(e: Entry)
    requires WellFormed(TOML) && e.Entry? && Representable(e)
    ensures ParseAll(TOML, PrintedTokens(e)) == Some(e)
  {
    LineOfEntry(e.key, e.value);
    RestOfEntry(e.next);
    var d := DocumentOf(e);
    assert FrontTokens(d) == [];
    assert [] + PrintedTokens(e) == PrintedTokens(e);
    LayoutParses(d);
  }

  // ---------- the round trip ----------

  /** toml_load up to the syntax tree: the lexer, then the parser. */
  function TomlParse(src: string): Option<Entry>
  {
    TomlWellFormed();
    match TomlTokenize(src)
    case None => None
    case Some(list) => ParseAll(TOML, list)
  }

  /** Lexing and parsing the dump of a syntax tree gives the tree back, when its keys are there, its
      integers fit 64 bits, and no string has an unescaped double quote or ends behind a backslash. */
  lemma {:induction false} DumpRoundTrip(e: Entry)
    requires e.Entry? && Representable(e) && Readable(e) && '\0' !in DumpEntry(e)
    ensures TomlTokenize(DumpEntry(e)) == Some(PrintedTokens(e))
    ensures TomlParse(DumpEntry(e)) == Some(e)
  {
    TomlWellFormed();
    LexDump(e, "");
    assert DumpEntry(e) + "" == DumpEntry(e) && PrintedTokens(e) + [] == PrintedTokens(e);
    ParseTokens(e);
  }
}
