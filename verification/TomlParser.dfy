/** The recursive-descent engine of toml/parser.h. A rule is a list of alternatives, tried in order,
    and an alternative is a list of symbols, as in the symbol arrays of the original. */
module TomlParser {
  import opened Options
  import opened TomlLexer

  // ---------- syntax trees of toml/ast.h ----------

  datatype Value = BoolValue(b: bool) | IntValue(n: int) | StringValue(s: string)

  /** A dotted key; NoKey is the null pointer. */
  datatype Key = NoKey | Key(id: string, next: Key)

  /** A list of entries; one without a value declares a table. */
  datatype Entry = NoEntry | Entry(key: Key, value: Option<Value>, next: Entry)

  /** An entry without a key has no value, as the generator asserts. */
  predicate Keyed(e: Entry)
  {
    e.Entry? ==> (e.key.NoKey? ==> e.value.None?) && Keyed(e.next)
  }

  datatype Node =
    | Null
    | BoolNode(b: bool)
    | IntNode(n: int)
    | StringNode(s: string)
    | ValueNode(value: Value)
    | KeyNode(key: Key)
    | EntryNode(entry: Entry)

  function EntryOf(n: Node): Entry
  {
    if n.EntryNode? then n.entry else NoEntry
  }

  // ---------- grammars ----------

  datatype Rule =
    | SpaceOpt | BoolRule | StringRule | IntRule | ValueRule | IdRule | KeyTail | KeyRule | EntryRule
    | NewlineListOpt | NewlineList | Separator | EntryListTail | EntryList | ParseUnit

  datatype Symbol = T(kind: Kind) | N(rule: Rule)

  /** The alternatives of each rule, and the node a rule returns for one of them, from the text of
      its first token and the nodes of its nonterminals. */
  datatype Grammar = Grammar(alternatives: Rule -> seq<seq<Symbol>>, build: (Rule, nat, string, seq<Node>) -> Node)

  // ---------- termination ----------

  /** The rule can match no tokens. */
  predicate Nullable(rule: Rule)
  {
    rule == SpaceOpt || rule == KeyTail || rule == NewlineListOpt || rule == EntryListTail
  }

  predicate AllNullable(symbols: seq<Symbol>)
  {
    symbols == [] || (symbols[0].N? && Nullable(symbols[0].rule) && AllNullable(symbols[1..]))
  }

  /** A rule only enters rules of smaller rank before it has matched a token. */
  function RuleRank(rule: Rule): nat
  {
    match rule
    case ValueRule | KeyTail | KeyRule | NewlineListOpt | NewlineList => 1
    case EntryRule | Separator => 2
    case EntryListTail | EntryList => 3
    case ParseUnit => 4
    case _ => 0
  }

  const TOP := 5

  /** Every rule entered before a token has been matched has a rank below `r`. */
  predicate Ranked(symbols: seq<Symbol>, r: nat)
  {
    symbols != [] && symbols[0].N? ==>
      RuleRank(symbols[0].rule) < r && (Nullable(symbols[0].rule) ==> Ranked(symbols[1..], r))
  }

  lemma {:induction false} RankedTop(symbols: seq<Symbol>)
    ensures Ranked(symbols, TOP)
  {
    if symbols != [] {
      RankedTop(symbols[1..]);
    }
  }

  /** The rule is not left-recursive, and it matches nothing only if it is nullable. */
  predicate RuleWellFormed(g: Grammar, rule: Rule)
  {
    forall alt :: 0 <= alt < |g.alternatives(rule)| ==>
      && Ranked(g.alternatives(rule)[alt], RuleRank(rule))
      && (AllNullable(g.alternatives(rule)[alt]) ==> Nullable(rule))
  }

  ghost predicate WellFormed(g: Grammar)
  {
    forall rule :: RuleWellFormed(g, rule)
  }

  /** An alternative that can match nothing does not look at a first token. */
  ghost predicate FirstTokenThere(g: Grammar)
  {
    forall rule: Rule, alt: nat, s, kids | alt < |g.alternatives(rule)| && AllNullable(g.alternatives(rule)[alt]) ::
      g.build(rule, alt, s, kids) == g.build(rule, alt, "", kids)
  }

  // ---------- parsing ----------

  /** A rule at token `cur`: the node and the number of tokens matched, or None. */
  function Parse(g: Grammar, rule: Rule, list: seq<Token>, cur: nat): (r: Option<(Node, nat)>)
    requires WellFormed(g) && cur <= |list|
    ensures r.Some? ==> cur + r.value.1 <= |list| && (!Nullable(rule) ==> r.value.1 > 0)
    decreases |list| - cur, RuleRank(rule), 2, 0
  {
    ParseFrom(g, rule, 0, list, cur)
  }

  /** The alternatives of a rule from `alt` on, in order. */
  function ParseFrom(g: Grammar, rule: Rule, alt: nat, list: seq<Token>, cur: nat): (r: Option<(Node, nat)>)
    requires WellFormed(g) && alt <= |g.alternatives(rule)| && cur <= |list|
    ensures r.Some? ==> cur + r.value.1 <= |list| && (!Nullable(rule) ==> r.value.1 > 0)
    decreases |list| - cur, RuleRank(rule), 1, |g.alternatives(rule)| - alt
  {
    assert RuleWellFormed(g, rule);
    if alt == |g.alternatives(rule)| then None
    else
      match MatchSymbols(g, g.alternatives(rule)[alt], RuleRank(rule), list, cur)
      case None => ParseFrom(g, rule, alt + 1, list, cur)
      case Some(m) => Some((g.build(rule, alt, TextAt(list, cur), m.0), m.1))
  }

  /** The text of the token a rule starts at. */
  function TextAt(list: seq<Token>, cur: nat): string
  {
    if cur < |list| then list[cur].text else ""
  }

  /** One symbol at token `cur`: the nodes it contributes and the number of tokens matched. */
  function MatchSymbol(g: Grammar, symbol: Symbol, r: nat, list: seq<Token>, cur: nat): (m: Option<(seq<Node>, nat)>)
    requires WellFormed(g) && cur <= |list| && (symbol.N? ==> RuleRank(symbol.rule) < r)
    ensures m.Some? ==> cur + m.value.1 <= |list| && (m.value.1 == 0 ==> symbol.N? && Nullable(symbol.rule))
    decreases |list| - cur, r, 0, 0
  {
    match symbol
    case T(kind) =>
      if cur < |list| && list[cur].kind == kind then Some(([], 1)) else None
    case N(rule) =>
      match Parse(g, rule, list, cur)
      case None => None
      case Some(p) => Some(([p.0], p.1))
  }

  /** A sequence of symbols at token `cur`. Rules below rank `r` may be entered before a token has
      been matched, and any rule afterwards. */
  function MatchSymbols(g: Grammar, symbols: seq<Symbol>, r: nat, list: seq<Token>,
      cur: nat): (m: Option<(seq<Node>, nat)>)
    requires WellFormed(g) && cur <= |list| && Ranked(symbols, r)
    ensures m.Some? ==> cur + m.value.1 <= |list| && (m.value.1 == 0 ==> AllNullable(symbols))
    decreases |list| - cur, r, 0, |symbols|
  {
    if symbols == [] then
      Some(([], 0))
    else
      RankedTop(symbols[1..]);
      match MatchSymbol(g, symbols[0], r, list, cur)
      case None => None
      case Some(p) => Then(p.0, p.1, MatchSymbols(g, symbols[1..], RankAfter(p.1, r), list, cur + p.1))
  }

  /** The rank below which rules may be entered after `n` tokens. */
  function RankAfter(n: nat, r: nat): nat
  {
    if n == 0 then r else TOP
  }

  /** The nodes and tokens of some symbols, then those of the rest. */
  function Then(nodes: seq<Node>, n: nat, rest: Option<(seq<Node>, nat)>): Option<(seq<Node>, nat)>
  {
    match rest
    case None => None
    case Some(p) => Some((nodes + p.0, n + p.1))
  }

  /** The first symbol, and what the others match after it. */
  lemma {:induction false} MatchCons(g: Grammar, symbols: seq<Symbol>, r: nat, list: seq<Token>, cur: nat)
    returns (p: Option<(seq<Node>, nat)>, q: Option<(seq<Node>, nat)>)
    requires WellFormed(g) && cur <= |list| && symbols != [] && Ranked(symbols, r)
    ensures p == MatchSymbol(g, symbols[0], r, list, cur)
    ensures p.None? ==> MatchSymbols(g, symbols, r, list, cur) == None
    ensures p.Some? ==>
      && Ranked(symbols[1..], RankAfter(p.value.1, r))
      && q == MatchSymbols(g, symbols[1..], RankAfter(p.value.1, r), list, cur + p.value.1)
      && MatchSymbols(g, symbols, r, list, cur) == Then(p.value.0, p.value.1, q)
  {
    RankedTop(symbols[1..]);
    p := MatchSymbol(g, symbols[0], r, list, cur);
    q := if p.Some? then MatchSymbols(g, symbols[1..], RankAfter(p.value.1, r), list, cur + p.value.1) else None;
  }

  /** What the first symbol matched, and what the others matched after it. */
  lemma {:induction false} SplitMatch(g: Grammar, symbols: seq<Symbol>, r: nat, list: seq<Token>, cur: nat,
      m: (seq<Node>, nat))
    returns (p: (seq<Node>, nat), q: (seq<Node>, nat))
    requires WellFormed(g) && cur <= |list| && symbols != [] && Ranked(symbols, r)
    requires MatchSymbols(g, symbols, r, list, cur) == Some(m)
    ensures MatchSymbol(g, symbols[0], r, list, cur) == Some(p) && Ranked(symbols[1..], RankAfter(p.1, r))
    ensures cur + p.1 + q.1 <= |list| && MatchSymbols(g, symbols[1..], RankAfter(p.1, r), list, cur + p.1) == Some(q)
    ensures m == (p.0 + q.0, p.1 + q.1)
  {
    RankedTop(symbols[1..]);
    p := MatchSymbol(g, symbols[0], r, list, cur).value;
    q := MatchSymbols(g, symbols[1..], RankAfter(p.1, r), list, cur + p.1).value;
  }

  lemma {:induction false} ThenThen(a: seq<Node>, m: nat, b: seq<Node>, n: nat, rest: Option<(seq<Node>, nat)>)
    ensures Then(a, m, Then(b, n, rest)) == Then(a + b, m + n, rest)
  {
    if rest.Some? {
      assert a + (b + rest.value.0) == (a + b) + rest.value.0;
    }
  }

  /** toml_parse: the whole list has to be matched. */
  function ParseAll(g: Grammar, list: seq<Token>): Option<Entry>
    requires WellFormed(g)
  {
    match Parse(g, ParseUnit, list, 0)
    case None => None
    case Some(p) => if p.1 == |list| then Some(EntryOf(p.0)) else None
  }

  /** The body of the loop of match_rule: a token by its kind, a rule by calling it. */
  method MatchOne(g: Grammar, symbol: Symbol, ghost r: nat, list: seq<Token>, cur: nat)
    returns (ok: bool, nodes: seq<Node>, n: nat)
    requires WellFormed(g) && cur <= |list| && (symbol.N? ==> RuleRank(symbol.rule) < r)
    ensures MatchSymbol(g, symbol, r, list, cur) == if ok then Some((nodes, n)) else None
  {
    if symbol.T? {
      return cur < |list| && list[cur].kind == symbol.kind, [], 1;
    }
    var p := Parse(g, symbol.rule, list, cur);
    if p.None? {
      return false, [], 0;
    }
    return true, [p.value.0], p.value.1;
  }

  /** What a sequence of symbols matches, when `nodes` and `n` tokens have been matched and `symbols` are left. */
  function Remaining(nodes: seq<Node>, n: nat, g: Grammar, symbols: seq<Symbol>, r: nat, list: seq<Token>,
      cur: nat): Option<(seq<Node>, nat)>
    requires WellFormed(g) && cur + n <= |list| && Ranked(symbols, r)
  {
    Then(nodes, n, MatchSymbols(g, symbols, r, list, cur + n))
  }

  /** One turn of the loop: the first symbol left, and what it matches. */
  lemma {:induction false} RemainingStep(nodes: seq<Node>, n: nat, g: Grammar, symbols: seq<Symbol>, r: nat,
      list: seq<Token>, cur: nat)
    requires WellFormed(g) && cur + n <= |list| && symbols != [] && Ranked(symbols, r)
    ensures symbols[0].N? ==> RuleRank(symbols[0].rule) < r
    ensures match MatchSymbol(g, symbols[0], r, list, cur + n)
      case None => Remaining(nodes, n, g, symbols, r, list, cur) == None
      case Some(p) =>
        && Ranked(symbols[1..], RankAfter(p.1, r))
        && Remaining(nodes, n, g, symbols, r, list, cur) ==
           Remaining(nodes + p.0, n + p.1, g, symbols[1..], RankAfter(p.1, r), list, cur)
  {
    var p, q := MatchCons(g, symbols, r, list, cur + n);
    match p
    case None =>
    case Some(m) => ThenThen(nodes, n, m.0, m.1, q);
  }

  lemma {:induction false} RemainingAll(g: Grammar, symbols: seq<Symbol>, r: nat, list: seq<Token>, cur: nat,
      nodes: seq<Node>, n: nat)
    requires WellFormed(g) && cur <= |list| && Ranked(symbols, r)
    ensures Remaining([], 0, g, symbols, r, list, cur) == MatchSymbols(g, symbols, r, list, cur)
    ensures cur + n <= |list| ==> Remaining(nodes, n, g, [], r, list, cur) == Some((nodes, n))
  {
    var m := MatchSymbols(g, symbols, r, list, cur);
    if m.Some? {
      assert [] + m.value.0 == m.value.0;
    }
    assert nodes + [] == nodes;
  }

  /** match_rule, the loop over the symbols */
  method MatchRule(g: Grammar, symbols: seq<Symbol>, r: nat, list: seq<Token>, cur: nat)
    returns (matched: bool, children: seq<Node>, nMatched: nat)
    requires WellFormed(g) && cur <= |list| && Ranked(symbols, r)
    ensures MatchSymbols(g, symbols, r, list, cur) == if matched then Some((children, nMatched)) else None
  {
    children, nMatched := [], 0;
    var pos := 0;
    ghost var rest, bound := symbols, r as nat;
    RemainingAll(g, symbols, r, list, cur, [], 0);
    while pos < |symbols|
      invariant pos <= |symbols| && rest == symbols[pos..] && cur + nMatched <= |list| && Ranked(rest, bound)
      invariant Remaining(children, nMatched, g, rest, bound, list, cur) == MatchSymbols(g, symbols, r, list, cur)
    {
      RemainingStep(children, nMatched, g, rest, bound, list, cur);
      var ok, nodes, n := MatchOne(g, symbols[pos], bound, list, cur + nMatched);
      if !ok {
        return false, [], 0;
      }
      rest, bound := rest[1..], RankAfter(n, bound);
      pos, children, nMatched := pos + 1, children + nodes, nMatched + n;
    }
    RemainingAll(g, symbols, r, list, cur, children, nMatched);
    matched := true;
  }

  // ---------- soundness: what is matched is derivable ----------

  /** A derivation tree. */
  datatype Tree = Leaf(token: Token) | Branch(rule: Rule, alt: nat, kids: seq<Tree>)

  predicate Fits(symbol: Symbol, t: Tree)
  {
    match symbol
    case T(kind) => t.Leaf? && t.token.kind == kind
    case N(rule) => t.Branch? && t.rule == rule
  }

  /** The tree follows the grammar. */
  predicate Derivation(g: Grammar, t: Tree)
    decreases t, 0
  {
    t.Branch? ==> t.alt < |g.alternatives(t.rule)| && Derivations(g, g.alternatives(t.rule)[t.alt], t.kids)
  }

  /** The trees follow the grammar and fit the symbols. */
  predicate Derivations(g: Grammar, symbols: seq<Symbol>, ts: seq<Tree>)
    decreases ts, 0
  {
    if ts == [] || symbols == [] then ts == [] && symbols == []
    else Fits(symbols[0], ts[0]) && Derivation(g, ts[0]) && Derivations(g, symbols[1..], ts[1..])
  }

  /** The tokens at the leaves, left to right. */
  function Yield(t: Tree): seq<Token>
  {
    match t
    case Leaf(token) => [token]
    case Branch(_, _, kids) => Yields(kids)
  }

  function Yields(ts: seq<Tree>): seq<Token>
  {
    if ts == [] then [] else Yield(ts[0]) + Yields(ts[1..])
  }

  /** The syntax tree a derivation stands for. */
  function Meaning(g: Grammar, t: Tree): Node
  {
    match t
    case Leaf(_) => Null
    case Branch(rule, alt, kids) => g.build(rule, alt, TextAt(Yields(kids), 0), Meanings(g, kids))
  }

  function Meanings(g: Grammar, ts: seq<Tree>): seq<Node>
  {
    if ts == [] then [] else (if ts[0].Leaf? then [] else [Meaning(g, ts[0])]) + Meanings(g, ts[1..])
  }

  lemma {:induction false} TreesCons(g: Grammar, symbol: Symbol, symbols: seq<Symbol>, t: Tree, ts: seq<Tree>)
    ensures Derivations(g, [symbol] + symbols, [t] + ts) <==>
      Fits(symbol, t) && Derivation(g, t) && Derivations(g, symbols, ts)
    ensures Yields([t] + ts) == Yield(t) + Yields(ts)
    ensures Meanings(g, [t] + ts) == (if t.Leaf? then [] else [Meaning(g, t)]) + Meanings(g, ts)
  {
    assert ([t] + ts)[1..] == ts && ([symbol] + symbols)[1..] == symbols;
  }

  /** The trees are derivations of the symbols, with the matched tokens as leaves and the matched
      nodes as meanings. */
  predicate Explains(g: Grammar, symbols: seq<Symbol>, ts: seq<Tree>, list: seq<Token>, cur: nat, m: (seq<Node>, nat))
  {
    && cur + m.1 <= |list|
    && Derivations(g, symbols, ts) && Yields(ts) == list[cur..cur + m.1] && Meanings(g, ts) == m.0
  }

  predicate ExplainsOne(g: Grammar, symbol: Symbol, t: Tree, list: seq<Token>, cur: nat, m: (seq<Node>, nat))
  {
    && cur + m.1 <= |list| && Fits(symbol, t) && Derivation(g, t)
    && Yield(t) == list[cur..cur + m.1] && (if t.Leaf? then [] else [Meaning(g, t)]) == m.0
  }

  /** No symbols match no tokens. */
  lemma {:induction false} NoTrees(g: Grammar, symbols: seq<Symbol>, r: nat, list: seq<Token>, cur: nat,
      m: (seq<Node>, nat))
    returns (ts: seq<Tree>)
    requires WellFormed(g) && cur <= |list| && symbols == [] && MatchSymbols(g, symbols, r, list, cur) == Some(m)
    ensures Explains(g, symbols, ts, list, cur, m)
  {
    ts := [];
  }

  /** A tree that fits the first symbol, then trees that fit the rest. */
  lemma {:induction false} Adjoin(g: Grammar, symbols: seq<Symbol>, t: Tree, kids: seq<Tree>, list: seq<Token>,
      cur: nat, p: (seq<Node>, nat), q: (seq<Node>, nat), m: (seq<Node>, nat))
    returns (ts: seq<Tree>)
    requires symbols != [] && cur + p.1 + q.1 <= |list| && m == (p.0 + q.0, p.1 + q.1)
    requires ExplainsOne(g, symbols[0], t, list, cur, p) && Explains(g, symbols[1..], kids, list, cur + p.1, q)
    ensures Explains(g, symbols, ts, list, cur, m)
  {
    ts := [t] + kids;
    TreesCons(g, symbols[0], symbols[1..], t, kids);
    assert [symbols[0]] + symbols[1..] == symbols;
    assert list[cur..cur + (p.1 + q.1)] == list[cur..cur + p.1] + list[cur + p.1..cur + p.1 + q.1];
  }

  /** The derivation behind a successful parse. */
  lemma {:induction false} Derive(g: Grammar, rule: Rule, list: seq<Token>, cur: nat, m: (Node, nat)) returns (t: Tree)
    requires WellFormed(g) && FirstTokenThere(g) && cur <= |list| && Parse(g, rule, list, cur) == Some(m)
    ensures t.Branch? && t.rule == rule && Derivation(g, t)
    ensures Yield(t) == list[cur..cur + m.1] && Meaning(g, t) == m.0
    decreases |list| - cur, RuleRank(rule), 2, 0
  {
    t := DeriveFrom(g, rule, 0, list, cur, m);
  }

  lemma {:induction false} DeriveFrom(g: Grammar, rule: Rule, alt: nat, list: seq<Token>, cur: nat, m: (Node, nat))
    returns (t: Tree)
    requires WellFormed(g) && FirstTokenThere(g)
    requires alt <= |g.alternatives(rule)| && cur <= |list| && ParseFrom(g, rule, alt, list, cur) == Some(m)
    ensures t.Branch? && t.rule == rule && Derivation(g, t)
    ensures Yield(t) == list[cur..cur + m.1] && Meaning(g, t) == m.0
    decreases |list| - cur, RuleRank(rule), 1, |g.alternatives(rule)| - alt
  {
    assert RuleWellFormed(g, rule);
    match MatchSymbols(g, g.alternatives(rule)[alt], RuleRank(rule), list, cur)
    case None => t := DeriveFrom(g, rule, alt + 1, list, cur, m);
    case Some(matched) =>
      var kids := DeriveSymbols(g, g.alternatives(rule)[alt], RuleRank(rule), list, cur, matched);
      t := Branch(rule, alt, kids);
      FirstToken(g, rule, alt, list, cur, matched);
  }

  /** A node is built from the text of a token only if it has matched that token. */
  lemma {:induction false} FirstToken(g: Grammar, rule: Rule, alt: nat, list: seq<Token>, cur: nat, m: (seq<Node>, nat))
    requires WellFormed(g) && FirstTokenThere(g)
    requires alt < |g.alternatives(rule)| && cur + m.1 <= |list|
    requires m.1 == 0 ==> AllNullable(g.alternatives(rule)[alt])
    ensures g.build(rule, alt, TextAt(list[cur..cur + m.1], 0), m.0) == g.build(rule, alt, TextAt(list, cur), m.0)
  {
    if m.1 == 0 {
      assert g.build(rule, alt, TextAt(list, cur), m.0) == g.build(rule, alt, "", m.0);
    }
  }

  lemma {:induction false} DeriveSymbol(g: Grammar, symbol: Symbol, r: nat, list: seq<Token>, cur: nat,
      m: (seq<Node>, nat))
    returns (t: Tree)
    requires WellFormed(g) && FirstTokenThere(g) && cur <= |list| && (symbol.N? ==> RuleRank(symbol.rule) < r)
    requires MatchSymbol(g, symbol, r, list, cur) == Some(m)
    ensures ExplainsOne(g, symbol, t, list, cur, m)
    decreases |list| - cur, r, 0, 0
  {
    match symbol
    case T(_) => t := Leaf(list[cur]);
    case N(rule) => t := Derive(g, rule, list, cur, Parse(g, rule, list, cur).value);
  }

  lemma {:induction false} DeriveSymbols(g: Grammar, symbols: seq<Symbol>, r: nat, list: seq<Token>, cur: nat,
      m: (seq<Node>, nat))
    returns (ts: seq<Tree>)
    requires WellFormed(g) && FirstTokenThere(g) && cur <= |list| && Ranked(symbols, r)
    requires MatchSymbols(g, symbols, r, list, cur) == Some(m)
    ensures Explains(g, symbols, ts, list, cur, m)
    decreases |list| - cur, r, 0, |symbols|
  {
    if symbols == [] {
      ts := NoTrees(g, symbols, r, list, cur, m);
    } else {
      var p, q := SplitMatch(g, symbols, r, list, cur, m);
      var t := DeriveSymbol(g, symbols[0], r, list, cur, p);
      var kids := DeriveSymbols(g, symbols[1..], RankAfter(p.1, r), list, cur + p.1, q);
      ts := Adjoin(g, symbols, t, kids, list, cur, p, q, m);
    }
  }

  /** toml_parse succeeds only with a derivation of the whole token list, whose meaning it returns. */
  lemma {:induction false} ParseAllSound(g: Grammar, list: seq<Token>)
    requires WellFormed(g) && FirstTokenThere(g)
    ensures ParseAll(g, list).Some? ==> exists t ::
      && Derivation(g, t) && t.Branch? && t.rule == ParseUnit && Yield(t) == list
      && EntryOf(Meaning(g, t)) == ParseAll(g, list).value
  {
    if ParseAll(g, list).Some? {
      var t := Derive(g, ParseUnit, list, 0, Parse(g, ParseUnit, list, 0).value);
      assert list[0..|list|] == list;
    }
  }
}
