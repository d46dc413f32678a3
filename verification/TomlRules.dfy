/** How the rules of toml/toml.c read a token list, rule by rule: blanks may stand almost anywhere, keys
    may be bare or quoted, and lines may be separated by line breaks or semicolons. */
module TomlRules {
  import opened Options
  import opened TomlLexer
  import opened TomlParser
  import opened TomlGrammar

  // ---------- one symbol at a time ----------

  /** A sequence of symbols; which rules may be entered first no longer matters. */
  function Matched(g: Grammar, symbols: seq<Symbol>, list: seq<Token>, cur: nat): Option<(seq<Node>, nat)>
    requires WellFormed(g) && cur <= |list|
  {
    RankedTop(symbols);
    MatchSymbols(g, symbols, TOP, list, cur)
  }

  lemma {:induction false} RankIrrelevant(g: Grammar, symbols: seq<Symbol>, r: nat, list: seq<Token>, cur: nat)
    requires WellFormed(g) && cur <= |list| && Ranked(symbols, r)
    ensures MatchSymbols(g, symbols, r, list, cur) == Matched(g, symbols, list, cur)
  {
    if symbols != [] {
      RankedTop(symbols);
      var p, q := MatchCons(g, symbols, r, list, cur);
      var _, q' := MatchCons(g, symbols, TOP, list, cur);
      if p.Some? && p.value.1 == 0 {
        RankIrrelevant(g, symbols[1..], r, list, cur);
      }
    }
  }

  /** The symbols match the tokens from `cur` to `end`, with these nodes. */
  predicate Reads(g: Grammar, symbols: seq<Symbol>, list: seq<Token>, cur: nat, nodes: seq<Node>, end: nat)
    requires WellFormed(g)
  {
    cur <= end <= |list| && Matched(g, symbols, list, cur) == Some((nodes, end - cur))
  }

  /** The symbols do not match at `cur`. */
  predicate Refuses(g: Grammar, symbols: seq<Symbol>, list: seq<Token>, cur: nat)
    requires WellFormed(g)
  {
    cur <= |list| && Matched(g, symbols, list, cur) == None
  }

  /** The rule matches the tokens from `cur` to `end`, with this node. */
  predicate RuleReads(g: Grammar, rule: Rule, list: seq<Token>, cur: nat, node: Node, end: nat)
    requires WellFormed(g)
  {
    cur <= end <= |list| && Parse(g, rule, list, cur) == Some((node, end - cur))
  }

  predicate RuleRefuses(g: Grammar, rule: Rule, list: seq<Token>, cur: nat)
    requires WellFormed(g)
  {
    cur <= |list| && Parse(g, rule, list, cur) == None
  }

  lemma {:induction false} ReadNothing(g: Grammar, list: seq<Token>, cur: nat)
    requires WellFormed(g) && cur <= |list|
    ensures Reads(g, [], list, cur, [], cur)
  {
  }

  lemma {:induction false} ReadToken(g: Grammar, kind: Kind, symbols: seq<Symbol>, list: seq<Token>, cur: nat,
      nodes: seq<Node>, end: nat)
    requires WellFormed(g) && KindAt(list, cur, kind) && Reads(g, symbols, list, cur + 1, nodes, end)
    ensures Reads(g, [T(kind)] + symbols, list, cur, nodes, end)
  {
    var s := [T(kind)] + symbols;
    RankedTop(s);
    assert s[1..] == symbols && [] + nodes == nodes;
    var p, q := MatchCons(g, s, TOP, list, cur);
  }

  lemma {:induction false} ReadRule(g: Grammar, rule: Rule, symbols: seq<Symbol>, list: seq<Token>, cur: nat,
      node: Node, at: nat, nodes: seq<Node>, end: nat)
    requires WellFormed(g) && RuleReads(g, rule, list, cur, node, at) && Reads(g, symbols, list, at, nodes, end)
    ensures Reads(g, [N(rule)] + symbols, list, cur, [node] + nodes, end)
  {
    var s := [N(rule)] + symbols;
    RankedTop(s);
    assert s[1..] == symbols;
    var _, q := MatchCons(g, s, TOP, list, cur);
  }

  lemma {:induction false} RefuseToken(g: Grammar, kind: Kind, symbols: seq<Symbol>, list: seq<Token>, cur: nat)
    requires WellFormed(g) && cur <= |list| && (KindAt(list, cur, kind) ==> Refuses(g, symbols, list, cur + 1))
    ensures Refuses(g, [T(kind)] + symbols, list, cur)
  {
    var s := [T(kind)] + symbols;
    RankedTop(s);
    assert s[1..] == symbols;
    var _, q := MatchCons(g, s, TOP, list, cur);
  }

  lemma {:induction false} RefuseRule(g: Grammar, rule: Rule, symbols: seq<Symbol>, list: seq<Token>, cur: nat)
    requires WellFormed(g) && RuleRefuses(g, rule, list, cur)
    ensures Refuses(g, [N(rule)] + symbols, list, cur)
  {
    var s := [N(rule)] + symbols;
    RankedTop(s);
    assert s[1..] == symbols;
    var _, q := MatchCons(g, s, TOP, list, cur);
  }

  lemma {:induction false} RefuseBehind(g: Grammar, rule: Rule, symbols: seq<Symbol>, list: seq<Token>, cur: nat,
      node: Node, at: nat)
    requires WellFormed(g) && RuleReads(g, rule, list, cur, node, at) && Refuses(g, symbols, list, at)
    ensures Refuses(g, [N(rule)] + symbols, list, cur)
  {
    var s := [N(rule)] + symbols;
    RankedTop(s);
    assert s[1..] == symbols;
    var _, q := MatchCons(g, s, TOP, list, cur);
  }

  /** A rule by its alternative `alt`, the ones before it having failed. */
  lemma {:induction false} ByAlternative(g: Grammar, rule: Rule, alt: nat, list: seq<Token>, cur: nat,
      nodes: seq<Node>, end: nat)
    requires WellFormed(g) && alt < |g.alternatives(rule)|
    requires forall k :: 0 <= k < alt ==> Refuses(g, g.alternatives(rule)[k], list, cur)
    requires Reads(g, g.alternatives(rule)[alt], list, cur, nodes, end)
    ensures RuleReads(g, rule, list, cur, g.build(rule, alt, TextAt(list, cur), nodes), end)
  {
    var k := alt;
    var goal := Some((g.build(rule, alt, TextAt(list, cur), nodes), end - cur));
    assert RuleWellFormed(g, rule);
    RankIrrelevant(g, g.alternatives(rule)[alt], RuleRank(rule), list, cur);
    while k > 0
      invariant 0 <= k <= alt && ParseFrom(g, rule, k, list, cur) == goal
    {
      k := k - 1;
      RankIrrelevant(g, g.alternatives(rule)[k], RuleRank(rule), list, cur);
      assert Refuses(g, g.alternatives(rule)[k], list, cur);
    }
  }

  lemma {:induction false} ByNone(g: Grammar, rule: Rule, list: seq<Token>, cur: nat)
    requires WellFormed(g) && cur <= |list|
    requires forall k :: 0 <= k < |g.alternatives(rule)| ==> Refuses(g, g.alternatives(rule)[k], list, cur)
    ensures RuleRefuses(g, rule, list, cur)
  {
    var k := |g.alternatives(rule)|;
    assert RuleWellFormed(g, rule);
    while k > 0
      invariant 0 <= k <= |g.alternatives(rule)| && ParseFrom(g, rule, k, list, cur) == None
    {
      k := k - 1;
      RankIrrelevant(g, g.alternatives(rule)[k], RuleRank(rule), list, cur);
      assert Refuses(g, g.alternatives(rule)[k], list, cur);
    }
  }

  // ---------- blanks ----------

  predicate KindAt(list: seq<Token>, cur: nat, kind: Kind)
  {
    cur < |list| && list[cur].kind == kind
  }

  /** Behind an optional blank. */
  function Skip(list: seq<Token>, cur: nat): nat
  {
    if KindAt(list, cur, Space) then cur + 1 else cur
  }

  /** Optional blanks are skipped everywhere in the list. */
  predicate SkipsBlanks(g: Grammar, list: seq<Token>)
    requires WellFormed(g)
  {
    forall cur: nat :: cur <= |list| ==> RuleReads(g, SpaceOpt, list, cur, Null, Skip(list, cur))
  }

  lemma {:induction false} ReadSpaceOpt(g: Grammar, list: seq<Token>, cur: nat)
    requires g == TOML && WellFormed(g) && cur <= |list|
    ensures RuleReads(g, SpaceOpt, list, cur, Null, Skip(list, cur))
  {
    if KindAt(list, cur, Space) {
      ReadNothing(g, list, cur + 1);
      ReadToken(g, Space, [], list, cur, [], cur + 1);
      assert [T(Space)] + [] == Alternatives(SpaceOpt)[0];
      ByAlternative(g, SpaceOpt, 0, list, cur, [], cur + 1);
    } else {
      RefuseToken(g, Space, [], list, cur);
      assert [T(Space)] + [] == Alternatives(SpaceOpt)[0];
      ReadNothing(g, list, cur);
      ByAlternative(g, SpaceOpt, 1, list, cur, [], cur);
    }
  }

  lemma {:induction false} TomlSkipsBlanks(g: Grammar, list: seq<Token>)
    requires g == TOML && WellFormed(g)
    ensures SkipsBlanks(g, list)
  {
    forall cur: nat | cur <= |list| {
      ReadSpaceOpt(g, list, cur);
    }
  }

  lemma {:induction false} ReadBlank(g: Grammar, symbols: seq<Symbol>, list: seq<Token>, cur: nat, nodes: seq<Node>,
      end: nat)
    requires WellFormed(g) && SkipsBlanks(g, list) && cur <= |list|
    requires Reads(g, symbols, list, Skip(list, cur), nodes, end)
    ensures Reads(g, [N(SpaceOpt)] + symbols, list, cur, [Null] + nodes, end)
  {
    ReadRule(g, SpaceOpt, symbols, list, cur, Null, Skip(list, cur), nodes, end);
  }

  /** A token with optional blanks around it. */
  function Spaced(kind: Kind, symbols: seq<Symbol>): seq<Symbol>
  {
    [N(SpaceOpt)] + ([T(kind)] + ([N(SpaceOpt)] + symbols))
  }

  /** Where the symbols behind such a token start. */
  function Behind(list: seq<Token>, cur: nat): nat
  {
    Skip(list, Skip(list, cur) + 1)
  }

  lemma {:induction false} ReadSpaced(g: Grammar, kind: Kind, symbols: seq<Symbol>, list: seq<Token>, cur: nat,
      nodes: seq<Node>, end: nat)
    requires WellFormed(g) && SkipsBlanks(g, list) && KindAt(list, Skip(list, cur), kind)
    requires Reads(g, symbols, list, Behind(list, cur), nodes, end)
    ensures Reads(g, Spaced(kind, symbols), list, cur, [Null] + ([Null] + nodes), end)
  {
    var at := Skip(list, cur);
    ReadBlank(g, symbols, list, at + 1, nodes, end);
    ReadToken(g, kind, [N(SpaceOpt)] + symbols, list, at, [Null] + nodes, end);
    ReadBlank(g, [T(kind)] + ([N(SpaceOpt)] + symbols), list, cur, [Null] + nodes, end);
  }

  /** No symbols behind an optional blank match where none match behind it. */
  lemma {:induction false} RefuseBlank(g: Grammar, symbols: seq<Symbol>, list: seq<Token>, cur: nat)
    requires WellFormed(g) && SkipsBlanks(g, list) && cur <= |list| && Refuses(g, symbols, list, Skip(list, cur))
    ensures Refuses(g, [N(SpaceOpt)] + symbols, list, cur)
  {
    RefuseBehind(g, SpaceOpt, symbols, list, cur, Null, Skip(list, cur));
  }

  lemma {:induction false} RefuseSpaced(g: Grammar, kind: Kind, symbols: seq<Symbol>, list: seq<Token>, cur: nat)
    requires WellFormed(g) && SkipsBlanks(g, list) && cur <= |list|
    requires KindAt(list, Skip(list, cur), kind) ==> Refuses(g, symbols, list, Behind(list, cur))
    ensures Refuses(g, Spaced(kind, symbols), list, cur)
  {
    var at := Skip(list, cur);
    if KindAt(list, at, kind) {
      RefuseBlank(g, symbols, list, at + 1);
    }
    RefuseToken(g, kind, [N(SpaceOpt)] + symbols, list, at);
    RefuseBlank(g, [T(kind)] + ([N(SpaceOpt)] + symbols), list, cur);
  }

  // ---------- rules of one token ----------

  lemma {:induction false} ReadOneToken(g: Grammar, rule: Rule, alt: nat, kind: Kind, list: seq<Token>, cur: nat)
    requires g == TOML && WellFormed(g) && KindAt(list, cur, kind) && alt < |Alternatives(rule)|
    requires Alternatives(rule)[alt] == [T(kind)]
    requires forall k :: 0 <= k < alt ==> exists other :: Alternatives(rule)[k] == [T(other)] + [] && other != kind
    ensures RuleReads(g, rule, list, cur, Build(rule, alt, list[cur].text, []), cur + 1)
  {
    forall k | 0 <= k < alt
      ensures Refuses(g, Alternatives(rule)[k], list, cur)
    {
      var other :| Alternatives(rule)[k] == [T(other)] + [] && other != kind;
      RefuseToken(g, other, [], list, cur);
    }
    ReadNothing(g, list, cur + 1);
    ReadToken(g, kind, [], list, cur, [], cur + 1);
    assert [T(kind)] + [] == [T(kind)];
    ByAlternative(g, rule, alt, list, cur, [], cur + 1);
  }

  /** Rules whose alternatives are single tokens of other kinds. */
  lemma {:induction false} NoToken(g: Grammar, rule: Rule, list: seq<Token>, cur: nat)
    requires g == TOML && WellFormed(g) && cur <= |list| && (rule == BoolRule || rule == StringRule || rule == IdRule)
    requires forall k :: 0 <= k < |Alternatives(rule)| ==> !KindAt(list, cur, Alternatives(rule)[k][0].kind)
    ensures RuleRefuses(g, rule, list, cur)
  {
    forall k | 0 <= k < |Alternatives(rule)|
      ensures Refuses(g, Alternatives(rule)[k], list, cur)
    {
      RefuseToken(g, Alternatives(rule)[k][0].kind, [], list, cur);
      assert [Alternatives(rule)[k][0]] + [] == Alternatives(rule)[k];
    }
    ByNone(g, rule, list, cur);
  }

  /** A part of a key, bare or quoted. */
  predicate WordAt(list: seq<Token>, cur: nat)
  {
    KindAt(list, cur, Id) || KindAt(list, cur, Str)
  }

  function WordOf(t: Token): string
  {
    if t.kind == Id then t.text else Unquoted(t.text)
  }

  lemma {:induction false} ReadWord(g: Grammar, list: seq<Token>, cur: nat)
    requires g == TOML && WellFormed(g) && WordAt(list, cur)
    ensures RuleReads(g, IdRule, list, cur, StringNode(WordOf(list[cur])), cur + 1)
  {
    assert Alternatives(IdRule)[0] == [T(Id)] + [];
    ReadOneToken(g, IdRule, if list[cur].kind == Id then 0 else 1, list[cur].kind, list, cur);
  }

  // ---------- keys ----------

  lemma {:induction false} KeySymbols()
    ensures Alternatives(KeyTail)[0] == Spaced(Dot, [N(IdRule)] + ([N(KeyTail)] + []))
    ensures Alternatives(KeyRule)[0] == [N(IdRule)] + ([N(KeyTail)] + [])
  {
  }

  /** No more parts of a key: not a dot, and not a dot behind a blank. */
  lemma {:induction false} ReadKeyEnd(g: Grammar, list: seq<Token>, cur: nat)
    requires g == TOML && WellFormed(g) && cur <= |list| && !KindAt(list, Skip(list, cur), Dot)
    ensures RuleReads(g, KeyTail, list, cur, Null, cur)
  {
    KeySymbols();
    TomlSkipsBlanks(g, list);
    RefuseSpaced(g, Dot, [N(IdRule)] + ([N(KeyTail)] + []), list, cur);
    ReadNothing(g, list, cur);
    ByAlternative(g, KeyTail, 1, list, cur, [], cur);
  }

  lemma {:induction false} ReadWordAndTail(g: Grammar, list: seq<Token>, cur: nat, tail: Node, end: nat)
    requires g == TOML && WellFormed(g) && WordAt(list, cur) && RuleReads(g, KeyTail, list, cur + 1, tail, end)
    ensures Reads(g, [N(IdRule)] + ([N(KeyTail)] + []), list, cur, [StringNode(WordOf(list[cur]))] + ([tail] + []), end)
  {
    ReadWord(g, list, cur);
    ReadNothing(g, list, end);
    ReadRule(g, KeyTail, [], list, cur + 1, tail, end, [], end);
    ReadRule(g, IdRule, [N(KeyTail)] + [], list, cur, StringNode(WordOf(list[cur])), cur + 1, [tail] + [], end);
  }

  lemma {:induction false} ReadKey(g: Grammar, list: seq<Token>, cur: nat, tail: Node, end: nat)
    requires g == TOML && WellFormed(g) && WordAt(list, cur) && RuleReads(g, KeyTail, list, cur + 1, tail, end)
    ensures RuleReads(g, KeyRule, list, cur, KeyNode(Key(WordOf(list[cur]), KeyOf(tail))), end)
  {
    KeySymbols();
    ReadWordAndTail(g, list, cur, tail, end);
    ByAlternative(g, KeyRule, 0, list, cur, [StringNode(WordOf(list[cur]))] + ([tail] + []), end);
  }

  /** A dot, a word and the remaining parts of a key; `w` is where the word is. */
  lemma {:induction false} ReadKeyTail(g: Grammar, list: seq<Token>, cur: nat, w: nat, tail: Node, end: nat)
    requires g == TOML && WellFormed(g) && KindAt(list, Skip(list, cur), Dot)
    requires w == Behind(list, cur) && WordAt(list, w) && RuleReads(g, KeyTail, list, w + 1, tail, end)
    ensures RuleReads(g, KeyTail, list, cur, KeyNode(Key(WordOf(list[w]), KeyOf(tail))), end)
  {
    KeySymbols();
    TomlSkipsBlanks(g, list);
    var word := StringNode(WordOf(list[w]));
    ReadWordAndTail(g, list, w, tail, end);
    ReadSpaced(g, Dot, [N(IdRule)] + ([N(KeyTail)] + []), list, cur, [word] + ([tail] + []), end);
    assert [Null] + ([Null] + ([word] + ([tail] + []))) == [Null, Null, word, tail];
    ByAlternative(g, KeyTail, 0, list, cur, [Null, Null, word, tail], end);
  }

  /** No key starts at another token. */
  lemma {:induction false} NoKeyHere(g: Grammar, list: seq<Token>, cur: nat)
    requires g == TOML && WellFormed(g) && cur <= |list| && !WordAt(list, cur)
    ensures RuleRefuses(g, KeyRule, list, cur)
  {
    KeySymbols();
    NoToken(g, IdRule, list, cur);
    RefuseRule(g, IdRule, [N(KeyTail)] + [], list, cur);
    ByNone(g, KeyRule, list, cur);
  }

  // ---------- values ----------

  predicate IsValue(t: Token)
  {
    t.kind == False || t.kind == True || t.kind == Str || t.kind == Int
  }

  function ValueOf(t: Token): Value
    requires IsValue(t)
  {
    if t.kind == Str then StringValue(Unquoted(t.text))
    else if t.kind == Int then IntValue(Atoll(WithoutUnderscores(t.text)))
    else BoolValue(t.kind == True)
  }

  /** The rule for a value token, the alternative of that rule, and the alternative of the value rule. */
  function ValueChoice(t: Token): (c: (Rule, nat, nat))
    requires IsValue(t)
    ensures c.2 < 3 && Alternatives(ValueRule)[c.2] == [N(c.0)]
  {
    if t.kind == Str then (StringRule, 0, 1)
    else if t.kind == Int then (IntRule, 0, 2)
    else (BoolRule, if t.kind == True then 1 else 0, 0)
  }

  /** The alternatives of a value that come before the one for its type. */
  lemma {:induction false} NoValue(g: Grammar, list: seq<Token>, cur: nat, k: nat)
    requires g == TOML && WellFormed(g) && cur < |list| && IsValue(list[cur]) && k < ValueChoice(list[cur]).2
    ensures Refuses(g, Alternatives(ValueRule)[k], list, cur)
  {
    var rule := if k == 0 then BoolRule else StringRule;
    NoToken(g, rule, list, cur);
    RefuseRule(g, rule, [], list, cur);
    assert [N(rule)] + [] == Alternatives(ValueRule)[k];
  }

  lemma {:induction false} ReadValue(g: Grammar, list: seq<Token>, cur: nat)
    requires g == TOML && WellFormed(g) && cur < |list| && IsValue(list[cur])
    ensures RuleReads(g, ValueRule, list, cur, ValueNode(ValueOf(list[cur])), cur + 1)
  {
    var c := ValueChoice(list[cur]);
    var scalar := Build(c.0, c.1, list[cur].text, []);
    assert Alternatives(BoolRule)[0] == [T(False)] + [];
    ReadOneToken(g, c.0, c.1, list[cur].kind, list, cur);
    ReadNothing(g, list, cur + 1);
    ReadRule(g, c.0, [], list, cur, scalar, cur + 1, [], cur + 1);
    assert [N(c.0)] + [] == Alternatives(ValueRule)[c.2];
    forall k | 0 <= k < c.2 {
      NoValue(g, list, cur, k);
    }
    ByAlternative(g, ValueRule, c.2, list, cur, [scalar] + [], cur + 1);
  }

  // ---------- lines ----------

  lemma {:induction false} LineSymbols()
    ensures Alternatives(EntryRule)[0] ==
            [N(SpaceOpt)] + ([N(KeyRule)] + Spaced(Eq, [N(ValueRule)] + ([N(SpaceOpt)] + [])))
    ensures Alternatives(EntryRule)[1] == Spaced(LBrack, [N(KeyRule)] + Spaced(RBrack, []))
    ensures Alternatives(EntryRule)[2] == Spaced(LBrack, [T(RBrack)] + ([N(SpaceOpt)] + []))
  {
  }

  /** key = value: the key is at `k` and ends at `e`, the value is at `v`. */
  lemma {:induction false} ReadSetting(g: Grammar, list: seq<Token>, cur: nat, k: nat, key: Node, e: nat, v: nat)
    requires g == TOML && WellFormed(g) && cur <= |list|
    requires k == Skip(list, cur) && RuleReads(g, KeyRule, list, k, key, e)
    requires KindAt(list, Skip(list, e), Eq) && v == Behind(list, e) && v < |list| && IsValue(list[v])
    ensures RuleReads(g, EntryRule, list, cur, EntryNode(Entry(KeyOf(key), Some(ValueOf(list[v])), NoEntry)),
      Skip(list, v + 1))
  {
    LineSymbols();
    TomlSkipsBlanks(g, list);
    ReadValue(g, list, v);
    var value := ValueNode(ValueOf(list[v]));
    ReadKeyAndValue(g, list, cur, k, key, e, v, value);
    assert [Null] + ([key] + ([Null] + ([Null] + ([value] + ([Null] + []))))) == [Null, key, Null, Null, value, Null];
    ByAlternative(g, EntryRule, 0, list, cur, [Null, key, Null, Null, value, Null], Skip(list, v + 1));
  }

  lemma {:induction false} ReadKeyAndValue(g: Grammar, list: seq<Token>, cur: nat, k: nat, key: Node, e: nat, v: nat,
      value: Node)
    requires WellFormed(g) && SkipsBlanks(g, list) && cur <= |list| && k == Skip(list, cur)
    requires RuleReads(g, KeyRule, list, k, key, e) && KindAt(list, Skip(list, e), Eq)
    requires v == Behind(list, e) && RuleReads(g, ValueRule, list, v, value, v + 1)
    ensures Reads(g, [N(SpaceOpt)] + ([N(KeyRule)] + Spaced(Eq, [N(ValueRule)] + ([N(SpaceOpt)] + []))), list, cur,
                  [Null] + ([key] + ([Null] + ([Null] + ([value] + ([Null] + []))))), Skip(list, v + 1))
  {
    var end := Skip(list, v + 1);
    var rest := [N(ValueRule)] + ([N(SpaceOpt)] + []);
    ReadNothing(g, list, end);
    ReadBlank(g, [], list, v + 1, [], end);
    ReadRule(g, ValueRule, [N(SpaceOpt)] + [], list, v, value, v + 1, [Null] + [], end);
    ReadSpaced(g, Eq, rest, list, e, [value] + ([Null] + []), end);
    ReadRule(g, KeyRule, Spaced(Eq, rest), list, k, key, e, [Null] + ([Null] + ([value] + ([Null] + []))), end);
    ReadBlank(g, [N(KeyRule)] + Spaced(Eq, rest), list, cur, [key] + ([Null] + ([Null] + ([value] + ([Null] + [])))),
      end);
  }

  /** A setting needs a key. */
  lemma {:induction false} NoSetting(g: Grammar, list: seq<Token>, cur: nat)
    requires g == TOML && WellFormed(g) && cur <= |list| && !WordAt(list, Skip(list, cur))
    ensures Refuses(g, Alternatives(EntryRule)[0], list, cur)
  {
    LineSymbols();
    TomlSkipsBlanks(g, list);
    var rest := Spaced(Eq, [N(ValueRule)] + ([N(SpaceOpt)] + []));
    NoKeyHere(g, list, Skip(list, cur));
    RefuseRule(g, KeyRule, rest, list, Skip(list, cur));
    RefuseBlank(g, [N(KeyRule)] + rest, list, cur);
  }

  /** [key]: the key is at `k` and ends at `e`. */
  lemma {:induction false} ReadHeader(g: Grammar, list: seq<Token>, cur: nat, k: nat, key: Node, e: nat)
    requires g == TOML && WellFormed(g) && KindAt(list, Skip(list, cur), LBrack) && k == Behind(list, cur)
    requires RuleReads(g, KeyRule, list, k, key, e) && KindAt(list, Skip(list, e), RBrack)
    ensures RuleReads(g, EntryRule, list, cur, EntryNode(Entry(KeyOf(key), None, NoEntry)), Behind(list, e))
  {
    LineSymbols();
    TomlSkipsBlanks(g, list);
    NoSetting(g, list, cur);
    var end := Behind(list, e);
    ReadNothing(g, list, end);
    ReadSpaced(g, RBrack, [], list, e, [], end);
    ReadRule(g, KeyRule, Spaced(RBrack, []), list, k, key, e, [Null] + ([Null] + []), end);
    ReadSpaced(g, LBrack, [N(KeyRule)] + Spaced(RBrack, []), list, cur, [key] + ([Null] + ([Null] + [])), end);
    assert [Null] + ([Null] + ([key] + ([Null] + ([Null] + [])))) == [Null, Null, key, Null, Null];
    ByAlternative(g, EntryRule, 1, list, cur, [Null, Null, key, Null, Null], end);
  }

  /** A table header needs an opening bracket and a key. */
  lemma {:induction false} NoHeader(g: Grammar, list: seq<Token>, cur: nat)
    requires g == TOML && WellFormed(g) && cur <= |list|
    requires KindAt(list, Skip(list, cur), LBrack) ==> !WordAt(list, Behind(list, cur))
    ensures Refuses(g, Alternatives(EntryRule)[1], list, cur)
  {
    LineSymbols();
    TomlSkipsBlanks(g, list);
    if KindAt(list, Skip(list, cur), LBrack) {
      NoKeyHere(g, list, Behind(list, cur));
      RefuseRule(g, KeyRule, Spaced(RBrack, []), list, Behind(list, cur));
    }
    RefuseSpaced(g, LBrack, [N(KeyRule)] + Spaced(RBrack, []), list, cur);
  }

  /** []: the closing bracket is at `r`. */
  lemma {:induction false} ReadRoot(g: Grammar, list: seq<Token>, cur: nat, r: nat)
    requires g == TOML && WellFormed(g) && KindAt(list, Skip(list, cur), LBrack)
    requires r == Behind(list, cur) && KindAt(list, r, RBrack)
    ensures RuleReads(g, EntryRule, list, cur, EntryNode(Entry(NoKey, None, NoEntry)), Skip(list, r + 1))
  {
    LineSymbols();
    TomlSkipsBlanks(g, list);
    NoSetting(g, list, cur);
    NoHeader(g, list, cur);
    var end := Skip(list, r + 1);
    ReadNothing(g, list, end);
    ReadBlank(g, [], list, r + 1, [], end);
    ReadToken(g, RBrack, [N(SpaceOpt)] + [], list, r, [Null] + [], end);
    ReadSpaced(g, LBrack, [T(RBrack)] + ([N(SpaceOpt)] + []), list, cur, [Null] + [], end);
    ByAlternative(g, EntryRule, 2, list, cur, [Null] + ([Null] + ([Null] + [])), end);
  }

  /** No line starts at another token, or at the end of the list. */
  lemma {:induction false} NoLine(g: Grammar, list: seq<Token>, cur: nat)
    requires g == TOML && WellFormed(g) && cur <= |list|
    requires !WordAt(list, Skip(list, cur)) && !KindAt(list, Skip(list, cur), LBrack)
    ensures RuleRefuses(g, EntryRule, list, cur)
  {
    LineSymbols();
    TomlSkipsBlanks(g, list);
    NoSetting(g, list, cur);
    NoHeader(g, list, cur);
    RefuseSpaced(g, LBrack, [T(RBrack)] + ([N(SpaceOpt)] + []), list, cur);
    ByNone(g, EntryRule, list, cur);
  }

  // ---------- line breaks and separators ----------

  lemma {:induction false} BreakSymbols()
    ensures Alternatives(NewlineList)[0] == Alternatives(NewlineListOpt)[0]
    ensures Alternatives(NewlineList)[0] ==
            [N(SpaceOpt)] + ([T(Newline)] + ([N(NewlineListOpt)] + ([N(SpaceOpt)] + [])))
    ensures Alternatives(Separator)[0] == [N(NewlineListOpt)] + ([T(Semicolon)] + ([N(NewlineListOpt)] + []))
    ensures Alternatives(Separator)[1] == [N(NewlineList)] + []
  {
  }

  /** No line break, not even behind a blank. */
  lemma {:induction false} ReadNoBreak(g: Grammar, list: seq<Token>, cur: nat)
    requires g == TOML && WellFormed(g) && cur <= |list| && !KindAt(list, Skip(list, cur), Newline)
    ensures RuleReads(g, NewlineListOpt, list, cur, Null, cur) && RuleRefuses(g, NewlineList, list, cur)
  {
    BreakSymbols();
    TomlSkipsBlanks(g, list);
    var rest := [N(NewlineListOpt)] + ([N(SpaceOpt)] + []);
    RefuseToken(g, Newline, rest, list, Skip(list, cur));
    RefuseBlank(g, [T(Newline)] + rest, list, cur);
    ByNone(g, NewlineList, list, cur);
    ReadNothing(g, list, cur);
    ByAlternative(g, NewlineListOpt, 1, list, cur, [], cur);
  }

  /** A line break, perhaps behind a blank, and further ones up to `e`. */
  lemma {:induction false} ReadBreak(g: Grammar, list: seq<Token>, cur: nat, e: nat)
    requires g == TOML && WellFormed(g) && KindAt(list, Skip(list, cur), Newline)
    requires RuleReads(g, NewlineListOpt, list, Skip(list, cur) + 1, Null, e)
    ensures RuleReads(g, NewlineListOpt, list, cur, Null, Skip(list, e))
    ensures RuleReads(g, NewlineList, list, cur, Null, Skip(list, e))
  {
    BreakSymbols();
    TomlSkipsBlanks(g, list);
    var at, end := Skip(list, cur), Skip(list, e);
    var rest := [N(NewlineListOpt)] + ([N(SpaceOpt)] + []);
    ReadNothing(g, list, end);
    ReadBlank(g, [], list, e, [], end);
    ReadRule(g, NewlineListOpt, [N(SpaceOpt)] + [], list, at + 1, Null, e, [Null] + [], end);
    ReadToken(g, Newline, rest, list, at, [Null] + ([Null] + []), end);
    ReadBlank(g, [T(Newline)] + rest, list, cur, [Null] + ([Null] + []), end);
    ByAlternative(g, NewlineList, 0, list, cur, [Null] + ([Null] + ([Null] + [])), end);
    ByAlternative(g, NewlineListOpt, 0, list, cur, [Null] + ([Null] + ([Null] + [])), end);
  }

  /** Line breaks up to `b`, a semicolon, line breaks up to `e`. */
  lemma {:induction false} ReadSemicolon(g: Grammar, list: seq<Token>, cur: nat, b: nat, e: nat)
    requires g == TOML && WellFormed(g) && RuleReads(g, NewlineListOpt, list, cur, Null, b)
    requires KindAt(list, b, Semicolon) && RuleReads(g, NewlineListOpt, list, b + 1, Null, e)
    ensures RuleReads(g, Separator, list, cur, Null, e)
  {
    BreakSymbols();
    ReadNothing(g, list, e);
    ReadRule(g, NewlineListOpt, [], list, b + 1, Null, e, [], e);
    ReadToken(g, Semicolon, [N(NewlineListOpt)] + [], list, b, [Null] + [], e);
    ReadRule(g, NewlineListOpt, [T(Semicolon)] + ([N(NewlineListOpt)] + []), list, cur, Null, b, [Null] + [], e);
    ByAlternative(g, Separator, 0, list, cur, [Null] + ([Null] + []), e);
  }

  lemma {:induction false} NoSemicolon(g: Grammar, list: seq<Token>, cur: nat, b: nat)
    requires g == TOML && WellFormed(g)
    requires RuleReads(g, NewlineListOpt, list, cur, Null, b) && !KindAt(list, b, Semicolon)
    ensures Refuses(g, Alternatives(Separator)[0], list, cur)
  {
    BreakSymbols();
    RefuseToken(g, Semicolon, [N(NewlineListOpt)] + [], list, b);
    RefuseBehind(g, NewlineListOpt, [T(Semicolon)] + ([N(NewlineListOpt)] + []), list, cur, Null, b);
  }

  /** Line breaks alone. */
  lemma {:induction false} ReadBreaks(g: Grammar, list: seq<Token>, cur: nat, e: nat)
    requires g == TOML && WellFormed(g) && !KindAt(list, e, Semicolon)
    requires RuleReads(g, NewlineListOpt, list, cur, Null, e) && RuleReads(g, NewlineList, list, cur, Null, e)
    ensures RuleReads(g, Separator, list, cur, Null, e)
  {
    BreakSymbols();
    NoSemicolon(g, list, cur, e);
    ReadNothing(g, list, e);
    ReadRule(g, NewlineList, [], list, cur, Null, e, [], e);
    ByAlternative(g, Separator, 1, list, cur, [Null] + [], e);
  }

  // ---------- lists of lines ----------

  lemma {:induction false} ListSymbols()
    ensures Alternatives(EntryListTail)[0] == [N(Separator)] + ([N(EntryRule)] + ([N(EntryListTail)] + []))
    ensures Alternatives(EntryList)[0] == [N(NewlineListOpt)] + ([N(EntryRule)] + ([N(EntryListTail)] + []))
    ensures Alternatives(ParseUnit)[0] == [N(EntryList)] + ([N(NewlineListOpt)] + [])
  {
  }

  /** A line and the lines behind it. */
  lemma {:induction false} ReadLineAndTail(g: Grammar, list: seq<Token>, cur: nat, line: Node, e: nat, tail: Node,
      end: nat)
    requires WellFormed(g)
    requires RuleReads(g, EntryRule, list, cur, line, e) && RuleReads(g, EntryListTail, list, e, tail, end)
    ensures Reads(g, [N(EntryRule)] + ([N(EntryListTail)] + []), list, cur, [line] + ([tail] + []), end)
  {
    ReadNothing(g, list, end);
    ReadRule(g, EntryListTail, [], list, e, tail, end, [], end);
    ReadRule(g, EntryRule, [N(EntryListTail)] + [], list, cur, line, e, [tail] + [], end);
  }

  lemma {:induction false} ReadMore(g: Grammar, list: seq<Token>, cur: nat, at: nat, line: Node, e: nat, tail: Node,
      end: nat)
    requires g == TOML && WellFormed(g) && RuleReads(g, Separator, list, cur, Null, at)
    requires RuleReads(g, EntryRule, list, at, line, e) && RuleReads(g, EntryListTail, list, e, tail, end)
    ensures RuleReads(g, EntryListTail, list, cur, Linked(line, tail), end)
  {
    ListSymbols();
    var rest := [N(EntryRule)] + ([N(EntryListTail)] + []);
    ReadLineAndTail(g, list, at, line, e, tail, end);
    ReadRule(g, Separator, rest, list, cur, Null, at, [line] + ([tail] + []), end);
    assert [Null] + ([line] + ([tail] + [])) == [Null, line, tail];
    ByAlternative(g, EntryListTail, 0, list, cur, [Null, line, tail], end);
  }

  /** The end of the list, perhaps behind line breaks up to `e`. */
  lemma {:induction false} ReadNoMore(g: Grammar, list: seq<Token>, cur: nat, e: nat)
    requires g == TOML && WellFormed(g) && RuleReads(g, NewlineListOpt, list, cur, Null, e) && e == |list|
    requires RuleReads(g, NewlineList, list, cur, Null, e) || RuleRefuses(g, NewlineList, list, cur)
    ensures RuleReads(g, EntryListTail, list, cur, Null, cur)
  {
    ListSymbols();
    var rest := [N(EntryRule)] + ([N(EntryListTail)] + []);
    if RuleReads(g, NewlineList, list, cur, Null, e) {
      ReadBreaks(g, list, cur, e);
      NoLine(g, list, e);
      RefuseRule(g, EntryRule, [N(EntryListTail)] + [], list, e);
      RefuseBehind(g, Separator, rest, list, cur, Null, e);
    } else {
      BreakSymbols();
      NoSemicolon(g, list, cur, e);
      RefuseRule(g, NewlineList, [], list, cur);
      ByNone(g, Separator, list, cur);
      RefuseRule(g, Separator, rest, list, cur);
    }
    ReadNothing(g, list, cur);
    ByAlternative(g, EntryListTail, 1, list, cur, [], cur);
  }

  /** Line breaks up to `at`, a line, the lines behind it up to `e`, line breaks up to the end. */
  lemma {:induction false} ReadUnit(g: Grammar, list: seq<Token>, at: nat, line: Node, l: nat, tail: Node, e: nat)
    requires g == TOML && WellFormed(g) && RuleReads(g, NewlineListOpt, list, 0, Null, at)
    requires RuleReads(g, EntryRule, list, at, line, l) && RuleReads(g, EntryListTail, list, l, tail, e)
    requires RuleReads(g, NewlineListOpt, list, e, Null, |list|)
    ensures ParseAll(g, list) == Some(EntryOf(Linked(line, tail)))
  {
    ListSymbols();
    var rest, entries := [N(EntryRule)] + ([N(EntryListTail)] + []), Linked(line, tail);
    ReadLineAndTail(g, list, at, line, l, tail, e);
    ReadRule(g, NewlineListOpt, rest, list, 0, Null, at, [line] + ([tail] + []), e);
    assert [Null] + ([line] + ([tail] + [])) == [Null, line, tail];
    ByAlternative(g, EntryList, 0, list, 0, [Null, line, tail], e);
    ReadNothing(g, list, |list|);
    ReadRule(g, NewlineListOpt, [], list, e, Null, |list|, [], |list|);
    ReadRule(g, EntryList, [N(NewlineListOpt)] + [], list, 0, entries, e, [Null] + [], |list|);
    ByAlternative(g, ParseUnit, 0, list, 0, [entries] + ([Null] + []), |list|);
  }
}
