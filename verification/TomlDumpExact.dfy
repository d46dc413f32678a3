/** Exactly which syntax trees survive being printed and parsed: those whose keys are there and whose
    strings can stand between double quotes. */
module TomlDumpExact {
  import opened Options
  import opened TomlLexer
  import opened TomlTokens
  import opened TomlParser
  import opened TomlGrammar
  import opened TomlLayout
  import opened TomlPrinter
  import opened TomlRoundTrip

  // ---------- the strings of tokens and of syntax trees, in order ----------

  function TokenStrings(t: Token): seq<string>
  {
    if t.kind == Id then [t.text] else if t.kind == Str then [Unquoted(t.text)] else []
  }

  function Strings(ts: seq<Token>): seq<string>
  {
    if ts == [] then [] else TokenStrings(ts[0]) + Strings(ts[1..])
  }

  function KeyStrings(key: Key): seq<string>
  {
    match key
    case NoKey => []
    case Key(id, next) => [id] + KeyStrings(next)
  }

  function ValueStrings(v: Value): seq<string>
  {
    if v.StringValue? then [v.s] else []
  }

  function LineStrings(key: Key, value: Option<Value>): seq<string>
  {
    KeyStrings(key) + if value.None? then [] else ValueStrings(value.value)
  }

  function EntryStrings(e: Entry): seq<string>
  {
    match e
    case NoEntry => []
    case Entry(key, value, next) => LineStrings(key, value) + EntryStrings(next)
  }

  function NodeStrings(n: Node): seq<string>
  {
    match n
    case StringNode(s) => [s]
    case ValueNode(v) => ValueStrings(v)
    case KeyNode(key) => KeyStrings(key)
    case EntryNode(e) => EntryStrings(e)
    case _ => []
  }

  function NodesStrings(ns: seq<Node>): seq<string>
  {
    if ns == [] then [] else NodeStrings(ns[0]) + NodesStrings(ns[1..])
  }

  lemma {:induction false} StringsAppend(a: seq<Token>, b: seq<Token>)
    ensures Strings(a + b) == Strings(a) + Strings(b)
  {
    if a == [] {
      assert a + b == b;
    } else {
      assert (a + b)[1..] == a[1..] + b;
      StringsAppend(a[1..], b);
    }
  }

  // ---------- the parser drops no string ----------

  /** The kind of node a rule returns. */
  predicate NodeFits(rule: Rule, n: Node)
  {
    match rule
    case BoolRule => n.BoolNode?
    case StringRule | IdRule => n.StringNode?
    case IntRule => n.IntNode?
    case ValueRule => n.ValueNode?
    case KeyTail => n == Null || (n.KeyNode? && n.key.Key?)
    case KeyRule => n.KeyNode? && n.key.Key?
    case EntryRule => n.EntryNode? && n.entry.Entry? && n.entry.next.NoEntry? && Keyed(n.entry)
    case EntryListTail => n == Null || (n.EntryNode? && n.entry.Entry? && Keyed(n.entry))
    case EntryList | ParseUnit => n.EntryNode? && n.entry.Entry? && Keyed(n.entry)
    case _ => n == Null
  }

  predicate NodesFit(symbols: seq<Symbol>, ns: seq<Node>)
  {
    if symbols == [] then ns == []
    else
      match symbols[0]
      case T(_) => NodesFit(symbols[1..], ns)
      case N(rule) => ns != [] && NodeFits(rule, ns[0]) && NodesFit(symbols[1..], ns[1..])
  }

  /** The node of a leading rule, and the nodes of the symbols behind it. */
  lemma {:induction false} Peel(rule: Rule, symbols: seq<Symbol>, ns: seq<Node>) returns (n: Node, rest: seq<Node>)
    requires NodesFit([N(rule)] + symbols, ns)
    ensures ns == [n] + rest && NodeFits(rule, n) && NodesFit(symbols, rest)
    ensures NodesStrings(ns) == NodeStrings(n) + NodesStrings(rest)
  {
    assert ([N(rule)] + symbols)[1..] == symbols;
    n, rest := ns[0], ns[1..];
  }

  /** A leading rule that returns no node, or a leading token. */
  lemma {:induction false} SkipQuiet(symbol: Symbol, symbols: seq<Symbol>, ns: seq<Node>) returns (rest: seq<Node>)
    requires NodesFit([symbol] + symbols, ns)
    requires symbol.T? || symbol == N(SpaceOpt) || symbol == N(NewlineListOpt) || symbol == N(Separator)
    ensures ns == (if symbol.T? then [] else [Null]) + rest && NodesFit(symbols, rest)
    ensures NodesStrings(ns) == NodesStrings(rest)
  {
    assert ([symbol] + symbols)[1..] == symbols;
    rest := if symbol.T? then ns else ns[1..];
    if symbol.N? {
      assert [] + NodesStrings(rest) == NodesStrings(rest);
    }
  }

  lemma {:induction false} OneNode(rule: Rule, ns: seq<Node>)
    requires NodesFit([N(rule)], ns)
    ensures |ns| == 1 && NodeFits(rule, ns[0]) && NodesStrings(ns) == NodeStrings(ns[0])
  {
    assert [N(rule)] + [] == [N(rule)];
    var n, rest := Peel(rule, [], ns);
    assert NodeStrings(n) + [] == NodeStrings(n);
  }

  /** A token between optional blanks. */
  function BlanksAround(kind: Kind): seq<Symbol>
  {
    [N(SpaceOpt), T(kind), N(SpaceOpt)]
  }

  lemma {:induction false} SkipSpaced(kind: Kind, symbols: seq<Symbol>, ns: seq<Node>) returns (rest: seq<Node>)
    requires NodesFit(BlanksAround(kind) + symbols, ns)
    ensures ns == [Null, Null] + rest && NodesFit(symbols, rest) && NodesStrings(ns) == NodesStrings(rest)
  {
    assert BlanksAround(kind) + symbols == [N(SpaceOpt)] + ([T(kind)] + ([N(SpaceOpt)] + symbols));
    var r1 := SkipQuiet(N(SpaceOpt), [T(kind)] + ([N(SpaceOpt)] + symbols), ns);
    var r2 := SkipQuiet(T(kind), [N(SpaceOpt)] + symbols, r1);
    rest := SkipQuiet(N(SpaceOpt), symbols, r2);
  }

  lemma {:induction false} KeyTailShape(ns: seq<Node>)
    requires NodesFit(Alternatives(KeyTail)[0], ns)
    ensures |ns| == 4 && NodeFits(IdRule, ns[2]) && NodeFits(KeyTail, ns[3])
    ensures NodesStrings(ns) == NodeStrings(ns[2]) + NodeStrings(ns[3])
  {
    assert Alternatives(KeyTail)[0] == BlanksAround(Dot) + [N(IdRule), N(KeyTail)];
    var rest := SkipSpaced(Dot, [N(IdRule), N(KeyTail)], ns);
    KeyShape(rest);
  }

  lemma {:induction false} KeyShape(ns: seq<Node>)
    requires NodesFit([N(IdRule), N(KeyTail)], ns)
    ensures |ns| == 2 && NodeFits(IdRule, ns[0]) && NodeFits(KeyTail, ns[1])
    ensures NodesStrings(ns) == NodeStrings(ns[0]) + NodeStrings(ns[1])
  {
    assert [N(IdRule), N(KeyTail)] == [N(IdRule)] + [N(KeyTail)];
    var n, rest := Peel(IdRule, [N(KeyTail)], ns);
    OneNode(KeyTail, rest);
  }

  /** Behind the key of a setting. */
  lemma {:induction false} ValueShape(ns: seq<Node>)
    requires NodesFit(BlanksAround(Eq) + [N(ValueRule), N(SpaceOpt)], ns)
    ensures |ns| == 4 && NodeFits(ValueRule, ns[2]) && NodesStrings(ns) == NodeStrings(ns[2])
  {
    var rest := SkipSpaced(Eq, [N(ValueRule), N(SpaceOpt)], ns);
    assert [N(ValueRule), N(SpaceOpt)] == [N(ValueRule)] + [N(SpaceOpt)];
    var value, last := Peel(ValueRule, [N(SpaceOpt)], rest);
    OneNode(SpaceOpt, last);
    assert NodeStrings(value) + [] == NodeStrings(value);
  }

  lemma {:induction false} SettingShape(ns: seq<Node>)
    requires NodesFit(Alternatives(EntryRule)[0], ns)
    ensures |ns| == 6 && NodeFits(KeyRule, ns[1]) && NodeFits(ValueRule, ns[4])
    ensures NodesStrings(ns) == NodeStrings(ns[1]) + NodeStrings(ns[4])
  {
    var s := BlanksAround(Eq) + [N(ValueRule), N(SpaceOpt)];
    assert Alternatives(EntryRule)[0] == [N(SpaceOpt)] + ([N(KeyRule)] + s);
    var r := SkipQuiet(N(SpaceOpt), [N(KeyRule)] + s, ns);
    var key, rest := Peel(KeyRule, s, r);
    ValueShape(rest);
  }

  lemma {:induction false} HeaderShape(ns: seq<Node>)
    requires NodesFit(Alternatives(EntryRule)[1], ns)
    ensures |ns| == 5 && NodeFits(KeyRule, ns[2]) && NodesStrings(ns) == NodeStrings(ns[2])
  {
    var s := BlanksAround(RBrack) + [];
    assert Alternatives(EntryRule)[1] == BlanksAround(LBrack) + ([N(KeyRule)] + s);
    var r := SkipSpaced(LBrack, [N(KeyRule)] + s, ns);
    var key, rest := Peel(KeyRule, s, r);
    var none := SkipSpaced(RBrack, [], rest);
    assert NodeStrings(key) + [] == NodeStrings(key);
  }

  lemma {:induction false} RootShape(ns: seq<Node>)
    requires NodesFit(Alternatives(EntryRule)[2], ns)
    ensures NodesStrings(ns) == []
  {
    assert Alternatives(EntryRule)[2] == BlanksAround(LBrack) + ([T(RBrack)] + [N(SpaceOpt)]);
    var r := SkipSpaced(LBrack, [T(RBrack)] + [N(SpaceOpt)], ns);
    var rest := SkipQuiet(T(RBrack), [N(SpaceOpt)], r);
    OneNode(SpaceOpt, rest);
  }

  /** A newline list, optional or not, and a separator. */
  lemma {:induction false} QuietShape(rule: Rule, alt: nat, ns: seq<Node>)
    requires rule == SpaceOpt || rule == NewlineListOpt || rule == NewlineList || rule == Separator
    requires alt < |Alternatives(rule)| && NodesFit(Alternatives(rule)[alt], ns)
    ensures NodesStrings(ns) == []
  {
    if (rule == NewlineListOpt || rule == NewlineList) && alt == 0 {
      var s2 := [N(NewlineListOpt)] + [N(SpaceOpt)];
      assert Alternatives(rule)[alt] == [N(SpaceOpt)] + ([T(Newline)] + s2);
      var r1 := SkipQuiet(N(SpaceOpt), [T(Newline)] + s2, ns);
      var r2 := SkipQuiet(T(Newline), s2, r1);
      var r3 := SkipQuiet(N(NewlineListOpt), [N(SpaceOpt)], r2);
      OneNode(SpaceOpt, r3);
    } else if rule == Separator && alt == 0 {
      assert Alternatives(rule)[alt] == [N(NewlineListOpt)] + ([T(Semicolon)] + [N(NewlineListOpt)]);
      var r1 := SkipQuiet(N(NewlineListOpt), [T(Semicolon)] + [N(NewlineListOpt)], ns);
      var r2 := SkipQuiet(T(Semicolon), [N(NewlineListOpt)], r1);
      OneNode(NewlineListOpt, r2);
    } else if rule == Separator {
      OneNode(NewlineList, ns);
    } else if rule == SpaceOpt && alt == 0 {
      assert Alternatives(rule)[alt] == [T(Space)] + [];
      var r1 := SkipQuiet(T(Space), [], ns);
    }
  }

  lemma {:induction false} ListShape(rule: Rule, ns: seq<Node>)
    requires rule == Separator || rule == NewlineListOpt
    requires NodesFit([N(rule), N(EntryRule), N(EntryListTail)], ns)
    ensures |ns| == 3 && NodeFits(EntryRule, ns[1]) && NodeFits(EntryListTail, ns[2])
    ensures NodesStrings(ns) == NodeStrings(ns[1]) + NodeStrings(ns[2])
  {
    assert [N(rule), N(EntryRule), N(EntryListTail)] == [N(rule)] + ([N(EntryRule)] + [N(EntryListTail)]);
    var r1 := SkipQuiet(N(rule), [N(EntryRule)] + [N(EntryListTail)], ns);
    var entry, r2 := Peel(EntryRule, [N(EntryListTail)], r1);
    OneNode(EntryListTail, r2);
    assert ns == [Null, entry, r2[0]];
  }

  lemma {:induction false} UnitShape(ns: seq<Node>)
    requires NodesFit([N(EntryList), N(NewlineListOpt)], ns)
    ensures |ns| == 2 && NodeFits(EntryList, ns[0]) && NodesStrings(ns) == NodeStrings(ns[0])
  {
    assert [N(EntryList), N(NewlineListOpt)] == [N(EntryList)] + [N(NewlineListOpt)];
    var n, rest := Peel(EntryList, [N(NewlineListOpt)], ns);
    OneNode(NewlineListOpt, rest);
    assert NodeStrings(n) + [] == NodeStrings(n);
  }

  /** A node fits its rule and has the strings of the nodes it was built from. */
  predicate Keeps(rule: Rule, node: Node, strings: seq<string>)
  {
    NodeFits(rule, node) && NodeStrings(node) == strings
  }

  /** What a rule builds has the strings of its parts, in order. */
  lemma {:induction false} BuildKeeps(rule: Rule, alt: nat, first: string, ns: seq<Node>)
    requires rule != IdRule && rule != StringRule && alt < |Alternatives(rule)| && NodesFit(Alternatives(rule)[alt], ns)
    ensures Keeps(rule, Build(rule, alt, first, ns), NodesStrings(ns))
  {
    match rule
    case SpaceOpt | NewlineListOpt | NewlineList | Separator => QuietShape(rule, alt, ns);
    case BoolRule | IntRule => NoNodes(Alternatives(rule)[alt], ns);
    case ValueRule => OneNode(Alternatives(ValueRule)[alt][0].rule, ns);
    case KeyTail | KeyRule => KeyBuildKeeps(rule, alt, first, ns);
    case EntryRule => EntryKeeps(alt, first, ns);
    case EntryListTail | EntryList | ParseUnit => ListBuildKeeps(rule, alt, first, ns);
    case _ =>
  }

  lemma {:induction false} KeyBuildKeeps(rule: Rule, alt: nat, first: string, ns: seq<Node>)
    requires rule == KeyTail || rule == KeyRule
    requires alt < |Alternatives(rule)| && NodesFit(Alternatives(rule)[alt], ns)
    ensures Keeps(rule, Build(rule, alt, first, ns), NodesStrings(ns))
  {
    if rule == KeyRule {
      KeyShape(ns);
      KeyKeeps(ns[0].s, KeyOf(ns[1]));
    } else if alt == 0 {
      KeyTailShape(ns);
      KeyKeeps(ns[2].s, KeyOf(ns[3]));
    }
  }

  lemma {:induction false} ListBuildKeeps(rule: Rule, alt: nat, first: string, ns: seq<Node>)
    requires rule == EntryListTail || rule == EntryList || rule == ParseUnit
    requires alt < |Alternatives(rule)| && NodesFit(Alternatives(rule)[alt], ns)
    ensures Keeps(rule, Build(rule, alt, first, ns), NodesStrings(ns))
  {
    if rule == ParseUnit {
      UnitShape(ns);
    } else if rule == EntryList || alt == 0 {
      ListShape(if rule == EntryList then NewlineListOpt else Separator, ns);
      LinkedKeeps(ns[1], ns[2]);
    }
  }

  lemma {:induction false} KeyKeeps(id: string, next: Key)
    ensures KeyStrings(Key(id, next)) == [id] + KeyStrings(next)
  {
  }

  lemma {:induction false} NoNodes(symbols: seq<Symbol>, ns: seq<Node>)
    requires |symbols| == 1 && symbols[0].T? && NodesFit(symbols, ns)
    ensures ns == []
  {
  }

  lemma {:induction false} SettingKeeps(first: string, ns: seq<Node>)
    requires NodesFit(Alternatives(EntryRule)[0], ns)
    ensures Keeps(EntryRule, Build(EntryRule, 0, first, ns), NodesStrings(ns))
  {
    SettingShape(ns);
    assert EntryStrings(Entry(ns[1].key, Some(ns[4].value), NoEntry)) ==
      KeyStrings(ns[1].key) + ValueStrings(ns[4].value);
  }

  lemma {:induction false} HeaderKeeps(first: string, ns: seq<Node>)
    requires NodesFit(Alternatives(EntryRule)[1], ns)
    ensures Keeps(EntryRule, Build(EntryRule, 1, first, ns), NodesStrings(ns))
  {
    HeaderShape(ns);
    assert EntryStrings(Entry(ns[2].key, None, NoEntry)) == KeyStrings(ns[2].key);
  }

  lemma {:induction false} RootKeeps(first: string, ns: seq<Node>)
    requires NodesFit(Alternatives(EntryRule)[2], ns)
    ensures Keeps(EntryRule, Build(EntryRule, 2, first, ns), NodesStrings(ns))
  {
    RootShape(ns);
  }

  lemma {:induction false} EntryKeeps(alt: nat, first: string, ns: seq<Node>)
    requires alt < 3 && NodesFit(Alternatives(EntryRule)[alt], ns)
    ensures Keeps(EntryRule, Build(EntryRule, alt, first, ns), NodesStrings(ns))
  {
    if alt == 0 {
      SettingKeeps(first, ns);
    } else if alt == 1 {
      HeaderKeeps(first, ns);
    } else {
      RootKeeps(first, ns);
    }
  }

  lemma {:induction false} LinkedKeeps(entry: Node, tail: Node)
    requires NodeFits(EntryRule, entry) && NodeFits(EntryListTail, tail)
    ensures Linked(entry, tail).EntryNode? && Linked(entry, tail).entry.Entry? && Keyed(Linked(entry, tail).entry)
    ensures NodeStrings(Linked(entry, tail)) == NodeStrings(entry) + NodeStrings(tail)
  {
    var e := entry.entry;
    assert EntryStrings(e) == LineStrings(e.key, e.value) + [] == LineStrings(e.key, e.value);
  }

  /** A rule that is a single quoted or unquoted word. */
  lemma {:induction false} WordKeeps(rule: Rule, alt: nat, kids: seq<Tree>)
    requires (rule == IdRule || rule == StringRule) && alt < |Alternatives(rule)|
    requires Derivations(TOML, Alternatives(rule)[alt], kids)
    ensures Keeps(rule, Meaning(TOML, Branch(rule, alt, kids)), Strings(Yields(kids)))
  {
    assert |kids| == 1 && kids[0].Leaf?;
    var token := kids[0].token;
    assert Yields(kids) == [token];
    assert TokenStrings(token) + [] == TokenStrings(token);
  }

  predicate Wordless(symbols: seq<Symbol>)
  {
    forall s <- symbols :: s.T? ==> s.kind != Id && s.kind != Str
  }

  lemma {:induction false} OtherRulesWordless(rule: Rule, alt: nat)
    requires rule != IdRule && rule != StringRule && alt < |Alternatives(rule)|
    ensures Wordless(Alternatives(rule)[alt])
  {
  }

  lemma {:induction false} TreeKeeps(t: Tree)
    requires t.Branch? && Derivation(TOML, t)
    ensures Keeps(t.rule, Meaning(TOML, t), Strings(Yield(t)))
    decreases t, 0
  {
    if t.rule == IdRule || t.rule == StringRule {
      WordKeeps(t.rule, t.alt, t.kids);
    } else {
      OtherRulesWordless(t.rule, t.alt);
      TreesKeep(Alternatives(t.rule)[t.alt], t.kids);
      BuildKeeps(t.rule, t.alt, TextAt(Yields(t.kids), 0), Meanings(TOML, t.kids));
    }
  }

  lemma {:induction false} TreesKeep(symbols: seq<Symbol>, ts: seq<Tree>)
    requires Wordless(symbols) && Derivations(TOML, symbols, ts)
    ensures NodesFit(symbols, Meanings(TOML, ts)) && NodesStrings(Meanings(TOML, ts)) == Strings(Yields(ts))
    decreases ts, 0
  {
    if symbols != [] {
      TreesKeep(symbols[1..], ts[1..]);
      StringsAppend(Yield(ts[0]), Yields(ts[1..]));
      var rest := Meanings(TOML, ts[1..]);
      if ts[0].Leaf? {
        assert [] + rest == rest && Strings([ts[0].token]) == [];
      } else {
        TreeKeeps(ts[0]);
        assert ([Meaning(TOML, ts[0])] + rest)[1..] == rest;
      }
    }
  }

  /** The strings of a syntax tree are those of the tokens it was parsed from, in order; and a parsed
      entry without a key has no value. */
  lemma {:induction false} ParseKeepsStrings(list: seq<Token>)
    requires WellFormed(TOML) && ParseAll(TOML, list).Some?
    ensures EntryStrings(ParseAll(TOML, list).value) == Strings(list)
    ensures ParseAll(TOML, list).value.Entry? && Keyed(ParseAll(TOML, list).value)
  {
    TomlWellFormed();
    ParseAllSound(TOML, list);
    var t :| Derivation(TOML, t) && t.Branch? && t.rule == ParseUnit && Yield(t) == list
             && EntryOf(Meaning(TOML, t)) == ParseAll(TOML, list).value;
    TreeKeeps(t);
  }

  // ---------- lexing a string that cannot be quoted ----------

  /** The run fails, finds no more tokens, or its next token is a string whose text has not `n` characters. */
  predicate Misses(ts: Option<seq<Token>>, n: nat)
  {
    ts.Some? && ts.value != [] ==> ts.value[0].kind == Str && |ts.value[0].text| != n
  }

  lemma {:induction false} ScanOpen(escaped: bool, lexeme: string, rest: string, n: nat)
    requires n <= |lexeme|
    ensures Misses(Scan(if escaped then InDoubleEscape else InDouble, lexeme, rest), n)
    decreases |rest|
  {
    if rest != "" && (escaped || (rest[0] != '\"' && rest[0] != '\0')) {
      ScanOpen(!escaped && rest[0] == '\\', lexeme + [rest[0]], rest[1..], n);
    }
  }

  lemma {:induction false} ScanUnquotable(escaped: bool, lexeme: string, s: string, rest: string)
    requires Inside('\"', escaped, s) != Some(false) && '\0' !in s
    ensures Misses(Scan(if escaped then InDoubleEscape else InDouble, lexeme, s + ("\"" + rest)), |lexeme| + |s| + 1)
    decreases |s|
  {
    var text := s + ("\"" + rest);
    if s == "" {
      assert text[0] == '\"';
      ScanOpen(false, lexeme + [text[0]], text[1..], |lexeme| + 1);
    } else {
      assert text[0] == s[0] && text[1..] == s[1..] + ("\"" + rest);
      if escaped || s[0] != '\"' {
        ScanUnquotable(!escaped && s[0] == '\\', lexeme + [s[0]], s[1..], rest);
      }
    }
  }

  /** The strings of the tokens are not `strings` followed by others. */
  predicate Garbled(ts: Option<seq<Token>>, strings: seq<string>)
  {
    ts.Some? ==> !(strings <= Strings(ts.value))
  }

  lemma {:induction false} LexUnquotable(s: string, rest: string)
    requires !Quotable(s) && '\0' !in s
    ensures Garbled(TomlTokenize(Quote(s) + rest), [s])
  {
    ScanUnquotable(false, "\"", s, rest);
    assert Quote(s) + rest == "\"" + (s + ("\"" + rest));
    assert (Quote(s) + rest)[1..] == s + ("\"" + rest) && "" + ['\"'] == "\"";
    var ts := Lex(Quote(s) + rest);
    assert Misses(ts, |s| + 2);
    if ts.Some? && ts.value != [] {
      var t := ts.value[0];
      assert ts.value == [t] + ts.value[1..];
      CookCons(t, Some(ts.value[1..]));
      assert Strings(TomlTokenize(Quote(s) + rest).value)[0] == Unquoted(t.text);
    }
  }

  lemma {:induction false} PrefixCancels(a: seq<string>, b: seq<string>, c: seq<string>)
    ensures a + b <= a + c <==> b <= c
  {
    if a + b <= a + c {
      forall i | 0 <= i < |b|
        ensures i < |c| && b[i] == c[i]
      {
        assert (a + b)[|a| + i] == (a + c)[|a| + i];
      }
    }
  }

  lemma {:induction false} PrefixWeakens(a: seq<string>, b: seq<string>, c: seq<string>)
    ensures a + b <= c ==> a <= c
  {
    if a + b <= c {
      forall i | 0 <= i < |a|
        ensures a[i] == c[i]
      {
        assert (a + b)[i] == c[i];
      }
    }
  }

  /** Text that is read back, then text that is not. */
  lemma {:induction false} GarbledAfter(a: string, ts: seq<Token>, b: string, rest: string, strings: seq<string>)
    requires LexAll(a, ts, b + rest) && Garbled(TomlTokenize(b + rest), strings)
    ensures Garbled(TomlTokenize(a + b + rest), Strings(ts) + strings)
  {
    assert (a + b) + rest == a + (b + rest);
    if TomlTokenize(b + rest).Some? {
      var list := TomlTokenize(b + rest).value;
      StringsAppend(ts, list);
      PrefixCancels(Strings(ts), strings, Strings(list));
    }
  }

  /** Text that is not read back, whatever follows it. */
  lemma {:induction false} GarbledBefore(a: string, b: string, rest: string, strings: seq<string>, more: seq<string>)
    requires Garbled(TomlTokenize(a + (b + rest)), strings)
    ensures Garbled(TomlTokenize(a + b + rest), strings + more)
  {
    assert (a + b) + rest == a + (b + rest);
    var list := TomlTokenize(a + (b + rest));
    if list.Some? {
      PrefixWeakens(strings, more, Strings(list.value));
    }
  }

  /** A token without a string in front. */
  lemma {:induction false} GarbledMark(c: char, token: Token, b: string, rest: string, strings: seq<string>)
    requires Lexes([c], token, b + rest) && TokenStrings(token) == [] && Garbled(TomlTokenize(b + rest), strings)
    ensures Garbled(TomlTokenize([c] + b + rest), strings)
  {
    LexOne([c], token, b + rest);
    assert Strings([token]) == [] && [] + strings == strings;
    GarbledAfter([c], [token], b, rest, strings);
  }

  lemma {:induction false} NulFree(a: string, b: string)
    requires '\0' !in a + b
    ensures '\0' !in a && '\0' !in b
  {
    assert forall c :: c in a ==> c in a + b;
  }

  lemma {:induction false} KeyGarbled(key: Key, rest: string)
    requires !(key.Key? && KeyQuotable(key)) && '\0' !in DumpKey(key)
    ensures Garbled(TomlTokenize(DumpKey(key) + rest), KeyStrings(key))
  {
    match key
    case NoKey => assert ("(NULL)" + rest)[0] == '(';
    case Key(id, next) =>
      var more := if next.NoKey? then "" else "." + DumpKey(next);
      assert DumpKey(key) == Quote(id) + more;
      NulFree(Quote(id), more);
      NulFree("\"" + id, "\"");
      NulFree("\"", id);
      if !Quotable(id) {
        LexUnquotable(id, more + rest);
        GarbledBefore(Quote(id), more, rest, [id], KeyStrings(next));
      } else {
        NulFree(".", DumpKey(next));
        KeyGarbled(next, rest);
        LexPunctuation('.', DOT, DumpKey(next) + rest);
        GarbledMark('.', DOT, DumpKey(next), rest, KeyStrings(next));
        LexQuoted(id, more + rest);
        LexOne(Quote(id), StringToken(id), more + rest);
        WordString(id);
        GarbledAfter(Quote(id), [StringToken(id)], more, rest, KeyStrings(next));
      }
  }

  lemma {:induction false} WordString(s: string)
    ensures TokenStrings(StringToken(s)) == [s] && Strings([StringToken(s)]) == [s]
  {
    UnquoteQuote(s);
  }

  lemma {:induction false} StringsOfKey(key: Key)
    ensures Strings(PrintedKey(key)) == KeyStrings(key)
  {
    if key.Key? {
      WordString(key.id);
      StringsOfKey(key.next);
      StringsAppend([StringToken(key.id)], PrintedTail(key.next));
      if key.next.Key? {
        StringsAppend([DOT], PrintedKey(key.next));
        assert Strings([DOT]) == [] && [] + KeyStrings(key.next) == KeyStrings(key.next);
      }
    }
  }

  lemma {:induction false} StringsOfValue(v: Value)
    ensures Strings([SPACE, EQ, SPACE, ValueToken(v)]) == ValueStrings(v)
  {
    var value := [ValueToken(v)];
    StringsAppend([SPACE, EQ, SPACE], value);
    assert [SPACE, EQ, SPACE] + value == [SPACE, EQ, SPACE, ValueToken(v)];
    NoStrings();
    if v.StringValue? {
      WordString(v.s);
    }
    assert Strings(value) == ValueStrings(v);
    assert [] + ValueStrings(v) == ValueStrings(v);
  }

  lemma {:induction false} StringsOfLine(key: Key, value: Option<Value>)
    ensures Strings(PrintedLine(key, value)) == LineStrings(key, value)
  {
    StringsOfKey(key);
    match value
    case Some(v) =>
      StringsAppend(PrintedKey(key), [SPACE, EQ, SPACE, ValueToken(v)]);
      StringsOfValue(v);
    case None =>
      StringsAppend([LBRACK] + PrintedKey(key), [RBRACK]);
      StringsAppend([LBRACK], PrintedKey(key));
      assert Strings([LBRACK]) == [] && Strings([RBRACK]) == [];
      assert [] + KeyStrings(key) == KeyStrings(key);
  }

  lemma {:induction false} NoStrings()
    ensures Strings([SPACE, EQ, SPACE]) == []
  {
    StringsAppend([SPACE], [EQ, SPACE]);
    StringsAppend([EQ], [SPACE]);
    assert [SPACE] + [EQ, SPACE] == [SPACE, EQ, SPACE] && [EQ] + [SPACE] == [EQ, SPACE];
    assert Strings([SPACE]) == [] && Strings([EQ]) == [];
  }

  lemma {:induction false} SettingGarbled(v: Value, rest: string)
    requires !ValueQuotable(v) && '\0' !in DumpValue(v)
    ensures Garbled(TomlTokenize(" " + ("=" + (" " + DumpValue(v))) + rest), ValueStrings(v))
  {
    var text := DumpValue(v);
    NulFree("\"" + v.s, "\"");
    NulFree("\"", v.s);
    LexUnquotable(v.s, rest);
    FirstOfValue(v);
    assert (text + rest)[0] == text[0];
    LexSpace(text + rest);
    GarbledMark(' ', SPACE, text, rest, [v.s]);
    var spaced := " " + text;
    LexPunctuation('=', EQ, spaced + rest);
    GarbledMark('=', EQ, spaced, rest, [v.s]);
    var setting := "=" + spaced;
    assert (setting + rest)[0] == '=';
    LexSpace(setting + rest);
    GarbledMark(' ', SPACE, setting, rest, [v.s]);
  }

  lemma {:induction false} LineGarbled(key: Key, value: Option<Value>, rest: string)
    requires !LineReadable(key, value) && '\0' !in DumpLine(key, value)
    ensures Garbled(TomlTokenize(DumpLine(key, value) + rest), LineStrings(key, value))
  {
    var values := if value.None? then [] else ValueStrings(value.value);
    match value
    case None =>
      NulFree("[", DumpKey(key) + "]");
      NulFree(DumpKey(key), "]");
      KeyGarbled(key, "]" + rest);
      GarbledBefore(DumpKey(key), "]", rest, KeyStrings(key), values);
      LexPunctuation('[', LBRACK, DumpKey(key) + "]" + rest);
      GarbledMark('[', LBRACK, DumpKey(key) + "]", rest, LineStrings(key, value));
    case Some(v) =>
      var setting := " " + ("=" + (" " + DumpValue(v)));
      NulFree(DumpKey(key), setting);
      NulFree(" ", "=" + (" " + DumpValue(v)));
      NulFree("=", " " + DumpValue(v));
      NulFree(" ", DumpValue(v));
      if key.Key? && KeyQuotable(key) {
        LexKey(key, setting + rest);
        SettingGarbled(v, rest);
        StringsOfKey(key);
        GarbledAfter(DumpKey(key), PrintedKey(key), setting, rest, values);
      } else {
        KeyGarbled(key, setting + rest);
        GarbledBefore(DumpKey(key), setting, rest, KeyStrings(key), values);
      }
  }

  lemma {:induction false} EntryGarbled(e: Entry, rest: string)
    requires e.Entry? && !Readable(e) && '\0' !in DumpEntry(e)
    ensures Garbled(TomlTokenize(DumpEntry(e) + rest), EntryStrings(e))
  {
    var line, more := DumpLine(e.key, e.value), if e.next.NoEntry? then "" else "\n" + DumpEntry(e.next);
    NulFree(line, more);
    if !LineReadable(e.key, e.value) {
      LineGarbled(e.key, e.value, more + rest);
      GarbledBefore(line, more, rest, LineStrings(e.key, e.value), EntryStrings(e.next));
    } else {
      NulFree("\n", DumpEntry(e.next));
      EntryGarbled(e.next, rest);
      FirstOfEntry(e.next);
      assert (DumpEntry(e.next) + rest)[0] == DumpEntry(e.next)[0] && (more + rest)[0] == '\n';
      LexNewline(DumpEntry(e.next) + rest);
      GarbledMark('\n', NEWLINE, DumpEntry(e.next), rest, EntryStrings(e.next));
      LexLine(e.key, e.value, more + rest);
      StringsOfLine(e.key, e.value);
      GarbledAfter(line, PrintedLine(e.key, e.value), more, rest, EntryStrings(e.next));
    }
  }

  // ---------- the exact condition ----------

  predicate IntegersInRange(e: Entry)
  {
    e.Entry? ==> LineInRange(e.value) && IntegersInRange(e.next)
  }

  lemma {:induction false} ReadableRepresentable(e: Entry)
    requires Readable(e) && IntegersInRange(e)
    ensures Representable(e)
  {
    if e.Entry? {
      ReadableRepresentable(e.next);
    }
  }

  /** Printing and parsing gives a syntax tree back exactly when all its keys are there and none of its
      strings has an unescaped double quote or ends behind a backslash. */
  lemma {:induction false} DumpExact(e: Entry)
    requires e.Entry? && IntegersInRange(e) && '\0' !in DumpEntry(e)
    ensures TomlParse(DumpEntry(e)) == Some(e) <==> Readable(e)
  {
    if Readable(e) {
      ReadableRepresentable(e);
      DumpRoundTrip(e);
    } else {
      TomlWellFormed();
      EntryGarbled(e, "");
      assert DumpEntry(e) + "" == DumpEntry(e);
      var ts := TomlTokenize(DumpEntry(e));
      if ts.Some? && ParseAll(TOML, ts.value).Some? {
        ParseKeepsStrings(ts.value);
      }
    }
  }

  // ---------- values in single quotes ----------

  function SingleQuote(s: string): string
  {
    "\'" + s + "\'"
  }

  lemma {:induction false} LexSingleQuoted(id: string, s: string, value: Token)
    requires Quotable(id) && '\0' !in id && Inside('\'', false, s) == Some(false) && '\0' !in s
    requires value == Token(Str, SingleQuote(s))
    ensures TomlTokenize(Quote(id) + ("=" + SingleQuote(s))) == Some([StringToken(id), EQ, value])
  {
    var text := SingleQuote(s);
    LexString('\'', s, value, "");
    LexOne(text, value, "");
    LexPunctuation('=', EQ, text + "");
    LexOne("=", EQ, text + "");
    LexBoth("=", [EQ], text, [value], "");
    LexQuoted(id, "=" + text + "");
    LexOne(Quote(id), StringToken(id), "=" + text + "");
    LexBoth(Quote(id), [StringToken(id)], "=" + text, [EQ] + [value], "");
    var src := Quote(id) + ("=" + text);
    assert src + "" == src && [StringToken(id)] + ([EQ] + [value]) + [] == [StringToken(id), EQ, value];
  }

  /** A list of one setting. */
  function OneSetting(id: string, s: string): Entry
  {
    Entry(Key(id, NoKey), Some(StringValue(s)), NoEntry)
  }

  lemma {:induction false} ParseOneSetting(id: string, s: string, value: Token)
    requires WellFormed(TOML) && value == Token(Str, SingleQuote(s))
    ensures ParseAll(TOML, [StringToken(id), EQ, value]) == Some(OneSetting(id, s))
  {
    UnquoteQuote(id);
    assert Unquoted(SingleQuote(s)) == s;
    var d := Document(None, None, Setting(None, StringToken(id), NoTail, None, None, value, None), Last(None));
    assert LineTokens(d.line) == [StringToken(id), EQ, value];
    assert Tokens(d) == [StringToken(id), EQ, value];
    LayoutParses(d);
  }

  lemma {:induction false} NulFreeBoth(a: string, b: string)
    requires '\0' !in a && '\0' !in b
    ensures '\0' !in a + b
  {
  }

  lemma {:induction false} DumpOneSetting(id: string, s: string)
    requires Quotable(id) && '\0' !in id && '\0' !in s
    ensures TomlParse(DumpEntry(OneSetting(id, s))) == Some(OneSetting(id, s)) <==> Quotable(s)
  {
    var e := OneSetting(id, s);
    NulFreeBoth("\"" + s, "\"");
    NulFreeBoth("\"" + id, "\"");
    NulFreeBoth(Quote(id), " " + ("=" + (" " + Quote(s))));
    assert DumpEntry(e) == DumpLine(e.key, e.value) + "";
    assert KeyQuotable(e.key) && Readable(e.next) && IntegersInRange(e.next);
    assert Readable(e) <==> Quotable(s);
    DumpExact(e);
  }

  /** A setting of a string written in single quotes, in which it ends where it should, gives that
      string; and the dump of this syntax tree gives it back exactly when the string also ends where it
      should in double quotes. */
  lemma {:induction false} SingleQuoted(id: string, s: string)
    requires Quotable(id) && '\0' !in id && Inside('\'', false, s) == Some(false) && '\0' !in s
    ensures TomlParse(Quote(id) + ("=" + SingleQuote(s))) == Some(OneSetting(id, s))
    ensures TomlParse(DumpEntry(OneSetting(id, s))) == Some(OneSetting(id, s)) <==> Quotable(s)
  {
    var value := Token(Str, SingleQuote(s));
    TomlWellFormed();
    LexSingleQuoted(id, s, value);
    ParseOneSetting(id, s, value);
    DumpOneSetting(id, s);
  }

  /** A string that is one double quote can be read and does not survive the dump. */
  lemma {:induction false} UnreadableParsed() returns (src: Source, e: Entry)
    ensures TomlParse(src) == Some(e) && !Readable(e) && TomlParse(DumpEntry(e)) != Some(e)
  {
    src, e := "\"k\"=\'\"\'", OneSetting("k", "\"");
    assert Inside('\"', false, "\"") == None;
    assert !Quotable("\"") && !ValueQuotable(e.value.value) && !LineReadable(e.key, e.value);
    SingleQuoted("k", "\"");
    assert Quote("k") + ("=" + SingleQuote("\"")) == src;
  }
}
