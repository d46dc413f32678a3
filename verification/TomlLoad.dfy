/** toml_load and toml_lookup of toml/toml.c, from text to tables. */
module TomlLoad {
  import opened Options
  import opened TomlLexer
  import opened TomlTokens
  import opened TomlParser
  import opened TomlGrammar
  import opened TomlRules
  import opened TomlLayout
  import opened TomlPrinter
  import opened TomlRoundTrip
  import opened TomlDumpExact
  import opened TomlPaths
  import opened TomlGenerator

  /** The key a query stands for, if it is one. */
  function QueryKey(query: string): Option<Key>
  {
    TomlWellFormed();
    match TomlTokenize(query)
    case None => None
    case Some(list) =>
      match Parse(TOML, KeyRule, list, 0)
      case None => None
      case Some(p) => if p.1 == |list| then Some(KeyOf(p.0)) else None
  }

  /** A parsed key has at least one part. */
  lemma {:induction false} ParsedKey(list: seq<Token>)
    requires WellFormed(TOML) && Parse(TOML, KeyRule, list, 0).Some?
    ensures KeyOf(Parse(TOML, KeyRule, list, 0).value.0).Key?
  {
    TomlWellFormed();
    var t := Derive(TOML, KeyRule, list, 0, Parse(TOML, KeyRule, list, 0).value);
    TreeKeeps(t);
  }

  lemma {:induction false} PrintedKeyReads(g: Grammar, key: Key, list: seq<Token>)
    requires g == TOML && WellFormed(g) && key.Key? && list == PrintedKey(key)
    ensures RuleReads(g, KeyRule, list, 0, KeyNode(key), |list|)
  {
    TailOfKey(key.next);
    UnquoteQuote(key.id);
    assert list[1..|list|] == PrintedTail(key.next);
    KeyReads(g, list, 0, StringToken(key.id), TailOf(key.next), |list|);
  }

  lemma {:induction false} LexPrintedKey(key: Key)
    requires key.Key? && KeyQuotable(key) && '\0' !in DumpKey(key)
    ensures TomlTokenize(DumpKey(key)) == Some(PrintedKey(key))
  {
    LexKey(key, "");
    assert DumpKey(key) + "" == DumpKey(key) && PrintedKey(key) + [] == PrintedKey(key);
  }

  /** A key is found under its own printed form. */
  lemma {:induction false} QueryRoundTrip(key: Key)
    requires key.Key? && KeyQuotable(key) && '\0' !in DumpKey(key)
    ensures QueryKey(DumpKey(key)) == Some(key)
  {
    TomlWellFormed();
    LexPrintedKey(key);
    PrintedKeyReads(TOML, key, PrintedKey(key));
  }

  /** The first half of toml_load: toml_lexer and toml_parse. */
  method LexAndParse(src: Source) returns (node: Option<Entry>)
    ensures node == TomlParse(src) && (node.Some? ==> Keyed(node.value))
  {
    TomlWellFormed();
    var ok, list := TomlTokenizer(src);
    if !ok {
      return None;
    }
    var tokens := list.tokens[..list.size];
    node := ParseAll(TOML, tokens);
    if node.Some? {
      ParseKeepsStrings(tokens);
    }
  }

  /** The entries can be loaded: none redefines a path or runs through a value, and no table gets more
      entries than it has slots. */
  ghost predicate Loadable(lines: seq<Line>)
  {
    Compatible(lines) && Narrow(Bound(lines))
  }

  /** What becomes of a load: tables, a null pointer, or a failed assertion. */
  datatype Load = Loaded | Refused | Crashed

  /** The second half of toml_load: ast_node_gen. */
  method Build(node: Entry) returns (load: Load, root: Generator)
    requires Keyed(node)
    ensures fresh(root) && (load == Loaded <==> Loadable(Lines(node, [])))
    ensures load == Crashed <==> Overfilled(Lines(node, []))
    ensures load == Loaded ==> root.Valid() && root.bindings == Bound(Lines(node, []))
    ensures load == Loaded ==> HasValues(root.bindings, Lines(node, []))
  {
    root := new Generator();
    PutAllExact(Lines(node, []));
    PutAllFull(Lines(node, []));
    var status := root.Generate(node);
    load := match status case Done => Loaded case Overridden => Refused case Aborted => Crashed;
    if load == Loaded {
      AllValuesMean(Lines(node, []));
    }
  }

  /** toml_load: it succeeds exactly when the text lexes and parses and its entries can be loaded;
      the values are then exactly those of the entries. It meets the assertion exactly when an entry
      finds a table full, and returns null for every other error. */
  method TomlLoad(src: Source) returns (load: Load, root: Generator)
    ensures fresh(root)
    ensures load == Loaded <==> TomlParse(src).Some? && Loadable(Lines(TomlParse(src).value, []))
    ensures load == Crashed <==> TomlParse(src).Some? && Overfilled(Lines(TomlParse(src).value, []))
    ensures load == Loaded ==> root.Valid() && root.bindings == Bound(Lines(TomlParse(src).value, []))
    ensures load == Loaded ==> HasValues(root.bindings, Lines(TomlParse(src).value, []))
  {
    var node := LexAndParse(src);
    if node.None? {
      load := Refused;
      root := new Generator();
    } else {
      load, root := Build(node.value);
    }
  }

  /** toml_lookup */
  method TomlLookup(root: Generator, query: Source) returns (r: Option<Object>)
    requires root.Valid()
    ensures r.Some? <==> QueryKey(query).Some? && PathOf(QueryKey(query).value) in root.bindings
    ensures r.Some? ==>
      var p := PathOf(QueryKey(query).value);
      forall v :: r == Some(ValueObject(v)) <==> root.bindings[p] == ValueAt(v)
  {
    TomlWellFormed();
    var ok, list := TomlTokenizer(query);
    if !ok {
      return None;
    }
    var tokens := list.tokens[..list.size];
    var res := Parse(TOML, KeyRule, tokens, 0);
    if res.None? || res.value.1 != |tokens| {
      return None;
    }
    ParsedKey(tokens);
    r := root.TomlLookup(KeyOf(res.value.0));
  }
}
