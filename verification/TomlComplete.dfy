/** The ordered choices of the parser lose nothing: whatever token list the grammar derives is parsed,
    blanks and line breaks included, and every derivation of it has the same meaning. */
module TomlComplete {
  import opened Options
  import opened TomlLexer
  import opened TomlParser
  import opened TomlGrammar
  import opened TomlRules
  import opened TomlLayout

  // ---------- derivations over a part of a token list ----------

  /** Trees for the symbols over the tokens from `cur` to `end`, with these meanings. */
  predicate Stands(g: Grammar, symbols: seq<Symbol>, list: seq<Token>, cur: nat, ts: seq<Tree>, nodes: seq<Node>,
      end: nat)
  {
    Derivations(g, symbols, ts) && Span(list, cur, Yields(ts), end) && Meanings(g, ts) == nodes
  }

  /** A tree for the rule over the tokens from `cur` to `end`, with this meaning. */
  predicate Derives(g: Grammar, rule: Rule, list: seq<Token>, cur: nat, t: Tree, node: Node, end: nat)
  {
    t.Branch? && t.rule == rule && Derivation(g, t) && Span(list, cur, Yield(t), end) && Meaning(g, t) == node
  }

  /** The alternative a tree was made by. */
  lemma {:induction false} Enter(g: Grammar, rule: Rule, list: seq<Token>, cur: nat, t: Tree, node: Node, end: nat)
    returns (alt: nat, ts: seq<Tree>, nodes: seq<Node>, first: string)
    requires Derives(g, rule, list, cur, t, node, end)
    ensures alt < |g.alternatives(rule)| && Stands(g, g.alternatives(rule)[alt], list, cur, ts, nodes, end)
    ensures node == g.build(rule, alt, first, nodes) && first == TextAt(Yields(ts), 0)
  {
    alt, ts, nodes, first := t.alt, t.kids, Meanings(g, t.kids), TextAt(Yields(t.kids), 0);
  }

  lemma {:induction false} TakeNothing(g: Grammar, list: seq<Token>, cur: nat, ts: seq<Tree>, nodes: seq<Node>,
      end: nat)
    requires Stands(g, [], list, cur, ts, nodes, end)
    ensures cur == end && nodes == []
  {
  }

  lemma {:induction false} TakeToken(g: Grammar, kind: Kind, symbols: seq<Symbol>, list: seq<Token>, cur: nat,
      ts: seq<Tree>, nodes: seq<Node>, end: nat)
    returns (ts': seq<Tree>)
    requires Stands(g, [T(kind)] + symbols, list, cur, ts, nodes, end)
    ensures KindAt(list, cur, kind) && Stands(g, symbols, list, cur + 1, ts', nodes, end)
  {
    assert ts != [];
    ts' := ts[1..];
    assert [ts[0]] + ts' == ts;
    TreesCons(g, T(kind), symbols, ts[0], ts');
    SpanToken(list, cur, ts[0].token, Yields(ts'), end);
    assert [] + Meanings(g, ts') == Meanings(g, ts');
  }

  lemma {:induction false} TakeRule(g: Grammar, rule: Rule, symbols: seq<Symbol>, list: seq<Token>, cur: nat,
      ts: seq<Tree>, nodes: seq<Node>, end: nat)
    returns (t: Tree, node: Node, mid: nat, ts': seq<Tree>, nodes': seq<Node>)
    requires Stands(g, [N(rule)] + symbols, list, cur, ts, nodes, end)
    ensures Derives(g, rule, list, cur, t, node, mid) && Stands(g, symbols, list, mid, ts', nodes', end)
    ensures nodes == [node] + nodes'
  {
    assert ts != [];
    t, ts' := ts[0], ts[1..];
    assert [t] + ts' == ts;
    TreesCons(g, N(rule), symbols, t, ts');
    mid := SpanSplit(list, cur, Yield(t), Yields(ts'), end);
    node, nodes' := Meaning(g, t), Meanings(g, ts');
  }

  // ---------- blanks ----------

  /** An optional blank from `p` to `x`. */
  predicate Near(list: seq<Token>, p: nat, x: nat)
  {
    x == p || (x == p + 1 && KindAt(list, p, Space))
  }

  /** Only blanks from `p` to `q`: the parser, which takes a blank as soon as it may, may be ahead of a
      derivation by them. */
  predicate Gap(list: seq<Token>, p: nat, q: nat)
  {
    p <= q <= |list| && forall i :: p <= i < q ==> list[i].kind == Space
  }

  /** The first token from `cur` on that is not a blank is of another kind, or there is none. */
  ghost predicate NextIsNot(list: seq<Token>, cur: nat, kind: Kind)
  {
    forall i: nat {:trigger Gap(list, cur, i)} :: Gap(list, cur, i) ==> !KindAt(list, i, kind)
  }

  lemma {:induction false} TakeBlank(g: Grammar, symbols: seq<Symbol>, list: seq<Token>, cur: nat, ts: seq<Tree>,
      nodes: seq<Node>, end: nat)
    returns (mid: nat, ts': seq<Tree>, nodes': seq<Node>)
    requires g == TOML && Stands(g, [N(SpaceOpt)] + symbols, list, cur, ts, nodes, end)
    ensures Near(list, cur, mid) && Stands(g, symbols, list, mid, ts', nodes', end) && nodes == [Null] + nodes'
  {
    var t, node;
    t, node, mid, ts', nodes' := TakeRule(g, SpaceOpt, symbols, list, cur, ts, nodes, end);
    BlankOnly(g, list, cur, t, node, mid);
  }

  lemma {:induction false} BlankOnly(g: Grammar, list: seq<Token>, cur: nat, t: Tree, node: Node, end: nat)
    requires g == TOML && Derives(g, SpaceOpt, list, cur, t, node, end)
    ensures Near(list, cur, end) && node == Null
  {
    var alt, ts, nodes, first := Enter(g, SpaceOpt, list, cur, t, node, end);
    if alt == 0 {
      assert Alternatives(SpaceOpt)[0] == [T(Space)] + [];
      var none := TakeToken(g, Space, [], list, cur, ts, nodes, end);
      TakeNothing(g, list, cur + 1, none, nodes, end);
    } else {
      TakeNothing(g, list, cur, ts, nodes, end);
    }
  }

  lemma {:induction false} TakeSpaced(g: Grammar, kind: Kind, symbols: seq<Symbol>, list: seq<Token>, cur: nat,
      ts: seq<Tree>, nodes: seq<Node>, end: nat)
    returns (at: nat, mid: nat, ts': seq<Tree>, nodes': seq<Node>)
    requires g == TOML && Stands(g, Spaced(kind, symbols), list, cur, ts, nodes, end)
    ensures Near(list, cur, at) && KindAt(list, at, kind) && Near(list, at + 1, mid)
    ensures Stands(g, symbols, list, mid, ts', nodes', end) && nodes == [Null] + ([Null] + nodes')
  {
    var ts1, nodes1, ts2;
    at, ts1, nodes1 := TakeBlank(g, [T(kind)] + ([N(SpaceOpt)] + symbols), list, cur, ts, nodes, end);
    ts2 := TakeToken(g, kind, [N(SpaceOpt)] + symbols, list, at, ts1, nodes1, end);
    mid, ts', nodes' := TakeBlank(g, symbols, list, at + 1, ts2, nodes1, end);
  }

  /** At a token that is not a blank the parser and a derivation meet again. */
  lemma {:induction false} CatchUp(list: seq<Token>, p: nat, q: nat, x: nat)
    requires Gap(list, p, q) && Near(list, p, x) && x < |list| && list[x].kind != Space
    ensures Skip(list, q) == x
  {
  }

  /** Behind an optional blank the parser is still ahead by blanks only. */
  lemma {:induction false} KeepAhead(list: seq<Token>, p: nat, q: nat, x: nat)
    requires Gap(list, p, q) && Near(list, p, x)
    ensures Gap(list, x, Skip(list, q))
  {
  }

  lemma {:induction false} NextAt(list: seq<Token>, p: nat, x: nat, kind: Kind)
    requires Near(list, p, x) && x < |list| && list[x].kind != Space && list[x].kind != kind && kind != Space
    ensures NextIsNot(list, p, kind)
  {
    forall i: nat {:trigger Gap(list, p, i)} | Gap(list, p, i) ensures !KindAt(list, i, kind) {
      assert i <= x;
    }
  }

  lemma {:induction false} NextBefore(list: seq<Token>, p: nat, x: nat, kind: Kind)
    requires Near(list, p, x) && NextIsNot(list, x, kind) && kind != Space
    ensures NextIsNot(list, p, kind)
  {
    forall i: nat {:trigger Gap(list, p, i)} | Gap(list, p, i) ensures !KindAt(list, i, kind) {
      if i >= x {
        assert Gap(list, x, i);
      }
    }
  }

  lemma {:induction false} NextSkipped(list: seq<Token>, p: nat, q: nat, kind: Kind)
    requires Gap(list, p, q) && NextIsNot(list, p, kind)
    ensures !KindAt(list, q, kind) && !KindAt(list, Skip(list, q), kind)
  {
    assert Gap(list, p, Skip(list, q));
  }

  // ---------- keys and values ----------

  lemma {:induction false} WordDerived(g: Grammar, list: seq<Token>, cur: nat, t: Tree, node: Node, end: nat)
    requires g == TOML && Derives(g, IdRule, list, cur, t, node, end)
    ensures WordAt(list, cur) && end == cur + 1 && node == StringNode(WordOf(list[cur]))
  {
    var alt, ts, nodes, first := Enter(g, IdRule, list, cur, t, node, end);
    var kind := if alt == 0 then Id else Str;
    assert Alternatives(IdRule)[alt] == [T(kind)] + [];
    TokenText(g, kind, list, cur, ts, nodes, end);
  }

  /** A single token under a rule, and its text. */
  lemma {:induction false} TokenText(g: Grammar, kind: Kind, list: seq<Token>, cur: nat, ts: seq<Tree>,
      nodes: seq<Node>, end: nat)
    requires Stands(g, [T(kind)] + [], list, cur, ts, nodes, end)
    ensures KindAt(list, cur, kind) && end == cur + 1 && nodes == [] && TextAt(Yields(ts), 0) == list[cur].text
  {
    var none := TakeToken(g, kind, [], list, cur, ts, nodes, end);
    TakeNothing(g, list, cur + 1, none, nodes, end);
    assert Yields(ts) == list[cur..cur + 1];
  }

  lemma {:induction false} ScalarDerived(g: Grammar, rule: Rule, list: seq<Token>, cur: nat, t: Tree, node: Node,
      end: nat)
    requires g == TOML && Derives(g, rule, list, cur, t, node, end)
    requires rule == BoolRule || rule == StringRule || rule == IntRule
    ensures cur < |list| && end == cur + 1 && IsValue(list[cur])
    ensures match ValueOf(list[cur])
      case BoolValue(b) => node == BoolNode(b)
      case StringValue(s) => node == StringNode(s)
      case IntValue(n) => node == IntNode(n)
  {
    var alt, ts, nodes, first := Enter(g, rule, list, cur, t, node, end);
    var kind := if rule == StringRule then Str else if rule == IntRule then Int else if alt == 0 then False else True;
    assert Alternatives(rule)[alt] == [T(kind)] + [];
    TokenText(g, kind, list, cur, ts, nodes, end);
  }

  lemma {:induction false} ValueDerived(g: Grammar, list: seq<Token>, cur: nat, t: Tree, node: Node, end: nat)
    requires g == TOML && Derives(g, ValueRule, list, cur, t, node, end)
    ensures cur < |list| && end == cur + 1 && IsValue(list[cur]) && node == ValueNode(ValueOf(list[cur]))
  {
    var alt, ts, nodes, first := Enter(g, ValueRule, list, cur, t, node, end);
    var rule := if alt == 0 then BoolRule else if alt == 1 then StringRule else IntRule;
    assert Alternatives(ValueRule)[alt] == [N(rule)] + [];
    var s, scalar, mid, none, nodes' := TakeRule(g, rule, [], list, cur, ts, nodes, end);
    TakeNothing(g, list, mid, none, nodes', end);
    ScalarDerived(g, rule, list, cur, s, scalar, mid);
  }

  /** A word and the further parts of a key: where the word is, and a tree for the rest. */
  lemma {:induction false} TakeWordAndTail(g: Grammar, list: seq<Token>, cur: nat, ts: seq<Tree>, nodes: seq<Node>,
      end: nat)
    returns (t: Tree, tail: Node)
    requires g == TOML && Stands(g, [N(IdRule)] + ([N(KeyTail)] + []), list, cur, ts, nodes, end)
    ensures WordAt(list, cur) && Derives(g, KeyTail, list, cur + 1, t, tail, end)
    ensures nodes == [StringNode(WordOf(list[cur]))] + ([tail] + [])
  {
    var w, word, at, ts1, nodes1 := TakeRule(g, IdRule, [N(KeyTail)] + [], list, cur, ts, nodes, end);
    WordDerived(g, list, cur, w, word, at);
    var mid, none, nodes2;
    t, tail, mid, none, nodes2 := TakeRule(g, KeyTail, [], list, at, ts1, nodes1, end);
    TakeNothing(g, list, mid, none, nodes2, end);
  }

  lemma {:induction false} TailNode(first: string, nodes: seq<Node>, word: Node, tail: Node)
    requires nodes == [Null] + ([Null] + ([word] + ([tail] + [])))
    ensures Build(KeyTail, 0, first, nodes) == KeyNode(Key(StringOf(word), KeyOf(tail)))
  {
    assert nodes == [Null, Null, word, tail];
  }

  /** A further part of a key: where dot and word are, and a tree for the rest; or nothing. */
  lemma {:induction false} TailDerived(g: Grammar, list: seq<Token>, cur: nat, t: Tree, node: Node, end: nat)
    returns (more: bool, at: nat, w: nat, rest: Tree, tail: Node)
    requires g == TOML && Derives(g, KeyTail, list, cur, t, node, end)
    ensures more ==>
      && Near(list, cur, at) && KindAt(list, at, Dot) && Near(list, at + 1, w) && WordAt(list, w)
      && Derives(g, KeyTail, list, w + 1, rest, tail, end)
      && node == KeyNode(Key(WordOf(list[w]), KeyOf(tail)))
    ensures !more ==> end == cur && node == Null
  {
    KeySymbols();
    var alt, ts, nodes, first := Enter(g, KeyTail, list, cur, t, node, end);
    more, at, w, rest, tail := alt == 0, 0, 0, t, node;
    if more {
      var ts1, nodes1;
      at, w, ts1, nodes1 := TakeSpaced(g, Dot, [N(IdRule)] + ([N(KeyTail)] + []), list, cur, ts, nodes, end);
      rest, tail := TakeWordAndTail(g, list, w, ts1, nodes1, end);
      TailNode(first, nodes, StringNode(WordOf(list[w])), tail);
    } else {
      TakeNothing(g, list, cur, ts, nodes, end);
    }
  }

  /** A derived key tail is read from wherever the parser is, as far as the derivation goes, perhaps
      with blanks behind it. */
  lemma {:induction false} TailComplete(g: Grammar, list: seq<Token>, cur: nat, t: Tree, node: Node, end: nat, q: nat)
    returns (e: nat)
    requires g == TOML && WellFormed(g) && Derives(g, KeyTail, list, cur, t, node, end)
    requires Gap(list, cur, q) && NextIsNot(list, end, Dot)
    ensures RuleReads(g, KeyTail, list, q, node, e) && Gap(list, end, e)
    decreases |list| - cur
  {
    var more, at, w, rest, tail := TailDerived(g, list, cur, t, node, end);
    if more {
      CatchUp(list, cur, q, at);
      CatchUp(list, at + 1, at + 1, w);
      e := TailComplete(g, list, w + 1, rest, tail, end, w + 1);
      ReadKeyTail(g, list, q, w, tail, e);
    } else {
      NextSkipped(list, cur, q, Dot);
      ReadKeyEnd(g, list, q);
      e := q;
    }
  }

  lemma {:induction false} KeyComplete(g: Grammar, list: seq<Token>, cur: nat, t: Tree, node: Node, end: nat)
    returns (e: nat)
    requires g == TOML && WellFormed(g) && Derives(g, KeyRule, list, cur, t, node, end) && NextIsNot(list, end, Dot)
    ensures WordAt(list, cur) && RuleReads(g, KeyRule, list, cur, node, e) && Gap(list, end, e)
  {
    KeySymbols();
    var alt, ts, nodes, first := Enter(g, KeyRule, list, cur, t, node, end);
    var rest, tail := TakeWordAndTail(g, list, cur, ts, nodes, end);
    e := TailComplete(g, list, cur + 1, rest, tail, end, cur + 1);
    ReadKey(g, list, cur, tail, e);
    assert nodes == [StringNode(WordOf(list[cur])), tail];
  }

  /** Every derived key starts with a word. */
  lemma {:induction false} KeyStarts(g: Grammar, list: seq<Token>, cur: nat, t: Tree, node: Node, end: nat)
    requires g == TOML && Derives(g, KeyRule, list, cur, t, node, end)
    ensures WordAt(list, cur) && cur < end
  {
    KeySymbols();
    var alt, ts, nodes, first := Enter(g, KeyRule, list, cur, t, node, end);
    var rest, tail := TakeWordAndTail(g, list, cur, ts, nodes, end);
  }

  // ---------- lines ----------

  /** The parts of a derived setting: the key from `k` to `e`, the equals sign at `x`, the value at `v`. */
  lemma {:induction false} SettingDerived(g: Grammar, list: seq<Token>, cur: nat, ts: seq<Tree>, nodes: seq<Node>,
      end: nat)
    returns (k: nat, t: Tree, key: Node, e: nat, x: nat, v: nat)
    requires g == TOML && Stands(g, Alternatives(EntryRule)[0], list, cur, ts, nodes, end)
    ensures Near(list, cur, k) && Derives(g, KeyRule, list, k, t, key, e)
    ensures Near(list, e, x) && KindAt(list, x, Eq) && Near(list, x + 1, v) && v < |list| && IsValue(list[v])
    ensures Near(list, v + 1, end) && nodes == [Null, key, Null, Null, ValueNode(ValueOf(list[v])), Null]
  {
    LineSymbols();
    var behind := [N(ValueRule)] + ([N(SpaceOpt)] + []);
    var ts1, nodes1, ts2, nodes2, ts3, nodes3;
    k, ts1, nodes1 := TakeBlank(g, [N(KeyRule)] + Spaced(Eq, behind), list, cur, ts, nodes, end);
    t, key, e, ts2, nodes2 := TakeRule(g, KeyRule, Spaced(Eq, behind), list, k, ts1, nodes1, end);
    x, v, ts3, nodes3 := TakeSpaced(g, Eq, behind, list, e, ts2, nodes2, end);
    var last := TakeValueAndBlank(g, list, v, ts3, nodes3, end);
    assert nodes == [Null] + ([key] + ([Null] + ([Null] + ([ValueNode(ValueOf(list[v]))] + ([Null] + [])))));
  }

  lemma {:induction false} TakeValueAndBlank(g: Grammar, list: seq<Token>, v: nat, ts: seq<Tree>, nodes: seq<Node>,
      end: nat)
    returns (value: Node)
    requires g == TOML && Stands(g, [N(ValueRule)] + ([N(SpaceOpt)] + []), list, v, ts, nodes, end)
    ensures v < |list| && IsValue(list[v]) && Near(list, v + 1, end)
    ensures value == ValueNode(ValueOf(list[v])) && nodes == [value] + ([Null] + [])
  {
    var t, at, ts1, nodes1 := Tree.Leaf(Token(Space, "")), v, ts, nodes;
    t, value, at, ts1, nodes1 := TakeRule(g, ValueRule, [N(SpaceOpt)] + [], list, v, ts, nodes, end);
    ValueDerived(g, list, v, t, value, at);
    var mid, none, nodes2 := TakeBlank(g, [], list, at, ts1, nodes1, end);
    TakeNothing(g, list, mid, none, nodes2, end);
  }

  /** The parts of a derived table header. */
  lemma {:induction false} HeaderDerived(g: Grammar, list: seq<Token>, cur: nat, ts: seq<Tree>, nodes: seq<Node>,
      end: nat)
    returns (at: nat, k: nat, t: Tree, key: Node, e: nat, x: nat)
    requires g == TOML && Stands(g, Alternatives(EntryRule)[1], list, cur, ts, nodes, end)
    ensures Near(list, cur, at) && KindAt(list, at, LBrack) && Near(list, at + 1, k)
    ensures Derives(g, KeyRule, list, k, t, key, e)
    ensures Near(list, e, x) && KindAt(list, x, RBrack) && Near(list, x + 1, end)
    ensures nodes == [Null, Null, key, Null, Null]
  {
    LineSymbols();
    var ts1, nodes1, ts2, nodes2, mid, none, nodes3;
    at, k, ts1, nodes1 := TakeSpaced(g, LBrack, [N(KeyRule)] + Spaced(RBrack, []), list, cur, ts, nodes, end);
    t, key, e, ts2, nodes2 := TakeRule(g, KeyRule, Spaced(RBrack, []), list, k, ts1, nodes1, end);
    x, mid, none, nodes3 := TakeSpaced(g, RBrack, [], list, e, ts2, nodes2, end);
    TakeNothing(g, list, mid, none, nodes3, end);
    assert nodes == [Null] + ([Null] + ([key] + ([Null] + ([Null] + []))));
  }

  lemma {:induction false} RootDerived(g: Grammar, list: seq<Token>, cur: nat, ts: seq<Tree>, nodes: seq<Node>,
      end: nat)
    returns (at: nat, r: nat)
    requires g == TOML && Stands(g, Alternatives(EntryRule)[2], list, cur, ts, nodes, end)
    ensures Near(list, cur, at) && KindAt(list, at, LBrack) && Near(list, at + 1, r) && KindAt(list, r, RBrack)
    ensures Near(list, r + 1, end)
  {
    LineSymbols();
    var ts1, nodes1;
    at, r, ts1, nodes1 := TakeSpaced(g, LBrack, [T(RBrack)] + ([N(SpaceOpt)] + []), list, cur, ts, nodes, end);
    var ts2 := TakeToken(g, RBrack, [N(SpaceOpt)] + [], list, r, ts1, nodes1, end);
    var mid, none, nodes2 := TakeBlank(g, [], list, r + 1, ts2, nodes1, end);
    TakeNothing(g, list, mid, none, nodes2, end);
  }

  /** A derived key with a token that ends it behind an optional blank. */
  lemma {:induction false} KeyUpTo(g: Grammar, list: seq<Token>, k: nat, t: Tree, key: Node, e: nat, x: nat)
    returns (k': nat)
    requires g == TOML && WellFormed(g) && Derives(g, KeyRule, list, k, t, key, e)
    requires Near(list, e, x) && x < |list| && list[x].kind != Space && list[x].kind != Dot
    ensures WordAt(list, k) && RuleReads(g, KeyRule, list, k, key, k') && Skip(list, k') == x
  {
    NextAt(list, e, x, Dot);
    k' := KeyComplete(g, list, k, t, key, e);
    CatchUp(list, e, k', x);
  }

  lemma {:induction false} EntryNodes(first: string, key: Node, value: Value)
    ensures Build(EntryRule, 0, first, [Null, key, Null, Null, ValueNode(value), Null]) ==
      EntryNode(Entry(KeyOf(key), Some(value), NoEntry))
    ensures Build(EntryRule, 1, first, [Null, Null, key, Null, Null]) == EntryNode(Entry(KeyOf(key), None, NoEntry))
  {
  }

  lemma {:induction false} SettingComplete(g: Grammar, list: seq<Token>, cur: nat, ts: seq<Tree>, nodes: seq<Node>,
      first: string, end: nat, q: nat)
    returns (e: nat)
    requires g == TOML && WellFormed(g) && Stands(g, Alternatives(EntryRule)[0], list, cur, ts, nodes, end)
    requires Gap(list, cur, q)
    ensures RuleReads(g, EntryRule, list, q, Build(EntryRule, 0, first, nodes), e) && Gap(list, end, e)
  {
    var k, t, key, ke, x, v := SettingDerived(g, list, cur, ts, nodes, end);
    EntryNodes(first, key, ValueOf(list[v]));
    e := SettingAhead(g, list, cur, k, t, key, ke, x, v, end, q);
  }

  /** Where the parser finds the parts of a setting, although it may be ahead by blanks. */
  lemma {:induction false} SettingPlaces(list: seq<Token>, cur: nat, k: nat, k': nat, x: nat, v: nat, end: nat, q: nat)
    returns (e: nat)
    requires Gap(list, cur, q) && Near(list, cur, k) && WordAt(list, k) && Skip(list, k') == x && KindAt(list, x, Eq)
    requires Near(list, x + 1, v) && v < |list| && IsValue(list[v]) && Near(list, v + 1, end)
    ensures q <= |list| && k == Skip(list, q) && v == Behind(list, k') && e == Skip(list, v + 1) && Gap(list, end, e)
  {
    CatchUp(list, cur, q, k);
    CatchUp(list, x + 1, x + 1, v);
    e := Skip(list, v + 1);
    KeepAhead(list, v + 1, v + 1, end);
  }

  lemma {:induction false} SettingAhead(g: Grammar, list: seq<Token>, cur: nat, k: nat, t: Tree, key: Node, ke: nat,
      x: nat, v: nat, end: nat, q: nat)
    returns (e: nat)
    requires g == TOML && WellFormed(g) && Near(list, cur, k) && Derives(g, KeyRule, list, k, t, key, ke)
    requires Near(list, ke, x) && KindAt(list, x, Eq) && Near(list, x + 1, v) && v < |list| && IsValue(list[v])
    requires Near(list, v + 1, end) && Gap(list, cur, q)
    ensures RuleReads(g, EntryRule, list, q, EntryNode(Entry(KeyOf(key), Some(ValueOf(list[v])), NoEntry)), e)
    ensures Gap(list, end, e)
  {
    var k' := KeyUpTo(g, list, k, t, key, ke, x);
    e := SettingPlaces(list, cur, k, k', x, v, end, q);
    ReadSetting(g, list, q, k, key, k', v);
  }

  lemma {:induction false} HeaderComplete(g: Grammar, list: seq<Token>, cur: nat, ts: seq<Tree>, nodes: seq<Node>,
      first: string, end: nat, q: nat)
    returns (e: nat)
    requires g == TOML && WellFormed(g) && Stands(g, Alternatives(EntryRule)[1], list, cur, ts, nodes, end)
    requires Gap(list, cur, q)
    ensures RuleReads(g, EntryRule, list, q, Build(EntryRule, 1, first, nodes), e) && Gap(list, end, e)
  {
    var at, k, t, key, ke, x := HeaderDerived(g, list, cur, ts, nodes, end);
    EntryNodes(first, key, BoolValue(true));
    e := HeaderAhead(g, list, cur, at, k, t, key, ke, x, end, q);
  }

  /** The same for a header. */
  lemma {:induction false} HeaderPlaces(list: seq<Token>, cur: nat, at: nat, k: nat, k': nat, x: nat, end: nat, q: nat)
    returns (e: nat)
    requires Gap(list, cur, q) && Near(list, cur, at) && KindAt(list, at, LBrack) && Near(list, at + 1, k)
    requires WordAt(list, k) && Skip(list, k') == x && KindAt(list, x, RBrack) && Near(list, x + 1, end)
    ensures Skip(list, q) == at && k == Behind(list, q) && e == Behind(list, k') && Gap(list, end, e)
  {
    CatchUp(list, cur, q, at);
    CatchUp(list, at + 1, at + 1, k);
    e := Skip(list, x + 1);
    KeepAhead(list, x + 1, x + 1, end);
  }

  lemma {:induction false} HeaderAhead(g: Grammar, list: seq<Token>, cur: nat, at: nat, k: nat, t: Tree, key: Node,
      ke: nat, x: nat, end: nat, q: nat)
    returns (e: nat)
    requires g == TOML && WellFormed(g) && Near(list, cur, at) && KindAt(list, at, LBrack) && Near(list, at + 1, k)
    requires Derives(g, KeyRule, list, k, t, key, ke) && Near(list, ke, x) && KindAt(list, x, RBrack)
    requires Near(list, x + 1, end) && Gap(list, cur, q)
    ensures RuleReads(g, EntryRule, list, q, EntryNode(Entry(KeyOf(key), None, NoEntry)), e) && Gap(list, end, e)
  {
    var k' := KeyUpTo(g, list, k, t, key, ke, x);
    e := HeaderPlaces(list, cur, at, k, k', x, end, q);
    ReadHeader(g, list, q, k, key, k');
  }

  lemma {:induction false} RootComplete(g: Grammar, list: seq<Token>, cur: nat, ts: seq<Tree>, nodes: seq<Node>,
      first: string, end: nat, q: nat)
    returns (e: nat)
    requires g == TOML && WellFormed(g) && Stands(g, Alternatives(EntryRule)[2], list, cur, ts, nodes, end)
    requires Gap(list, cur, q)
    ensures RuleReads(g, EntryRule, list, q, Build(EntryRule, 2, first, nodes), e) && Gap(list, end, e)
  {
    var at, r := RootDerived(g, list, cur, ts, nodes, end);
    CatchUp(list, cur, q, at);
    CatchUp(list, at + 1, at + 1, r);
    ReadRoot(g, list, q, r);
    e := Skip(list, r + 1);
    KeepAhead(list, r + 1, r + 1, end);
  }

  /** A derived line is read as it was derived. */
  lemma {:induction false} LineComplete(g: Grammar, list: seq<Token>, cur: nat, t: Tree, node: Node, end: nat, q: nat)
    returns (e: nat)
    requires g == TOML && WellFormed(g) && Derives(g, EntryRule, list, cur, t, node, end) && Gap(list, cur, q)
    ensures RuleReads(g, EntryRule, list, q, node, e) && Gap(list, end, e)
  {
    var alt, ts, nodes, first := Enter(g, EntryRule, list, cur, t, node, end);
    if alt == 0 {
      e := SettingComplete(g, list, cur, ts, nodes, first, end, q);
    } else if alt == 1 {
      e := HeaderComplete(g, list, cur, ts, nodes, first, end, q);
    } else {
      e := RootComplete(g, list, cur, ts, nodes, first, end, q);
    }
  }

  /** Every derived line starts with a word or a bracket, perhaps behind a blank. */
  lemma {:induction false} LineStartsWith(g: Grammar, list: seq<Token>, cur: nat, t: Tree, node: Node, end: nat)
    requires g == TOML && Derives(g, EntryRule, list, cur, t, node, end)
    ensures cur < end && NextIsNot(list, cur, Newline) && NextIsNot(list, cur, Semicolon)
  {
    var alt, ts, nodes, first := Enter(g, EntryRule, list, cur, t, node, end);
    var x: nat;
    if alt == 0 {
      var k, kt, key, ke, eq, v := SettingDerived(g, list, cur, ts, nodes, end);
      KeyStarts(g, list, k, kt, key, ke);
      x := k;
    } else if alt == 1 {
      var at, k, kt, key, ke, r := HeaderDerived(g, list, cur, ts, nodes, end);
      x := at;
    } else {
      var at, r := RootDerived(g, list, cur, ts, nodes, end);
      x := at;
    }
    NextAt(list, cur, x, Newline);
    NextAt(list, cur, x, Semicolon);
  }

  // ---------- line breaks and separators ----------

  /** Line breaks, at least one of them or perhaps none: where the first one is and a tree for the
      others, up to `i`. */
  lemma {:induction false} BreaksDerived(g: Grammar, rule: Rule, list: seq<Token>, cur: nat, t: Tree, node: Node,
      end: nat)
    returns (more: bool, n: nat, rest: Tree, others: Node, i: nat)
    requires g == TOML && Derives(g, rule, list, cur, t, node, end) && (rule == NewlineListOpt || rule == NewlineList)
    ensures node == Null && (rule == NewlineList ==> more)
    ensures more ==>
      && Near(list, cur, n) && KindAt(list, n, Newline)
      && Derives(g, NewlineListOpt, list, n + 1, rest, others, i) && Near(list, i, end)
    ensures !more ==> end == cur
  {
    BreakSymbols();
    var alt, ts, nodes, first := Enter(g, rule, list, cur, t, node, end);
    more, n, rest, others, i := alt == 0, 0, t, node, 0;
    if more {
      var ts1, nodes1, ts3, nodes3;
      var symbols := [N(NewlineListOpt)] + ([N(SpaceOpt)] + []);
      n, ts1, nodes1 := TakeBlank(g, [T(Newline)] + symbols, list, cur, ts, nodes, end);
      var ts2 := TakeToken(g, Newline, symbols, list, n, ts1, nodes1, end);
      rest, others, i, ts3, nodes3 := TakeRule(g, NewlineListOpt, [N(SpaceOpt)] + [], list, n + 1, ts2, nodes1, end);
      var mid, none, nodes4 := TakeBlank(g, [], list, i, ts3, nodes3, end);
      TakeNothing(g, list, mid, none, nodes4, end);
    } else {
      TakeNothing(g, list, cur, ts, nodes, end);
    }
  }

  /** Both rules for line breaks read from `q` to `e`, or the second one refuses there. */
  predicate BreaksFrom(g: Grammar, list: seq<Token>, q: nat, e: nat)
    requires WellFormed(g)
  {
    && RuleReads(g, NewlineListOpt, list, q, Null, e)
    && (RuleReads(g, NewlineList, list, q, Null, e) || RuleRefuses(g, NewlineList, list, q))
  }

  /** Derived line breaks are read as far as they go. */
  lemma {:induction false} BreaksComplete(g: Grammar, rule: Rule, list: seq<Token>, cur: nat, t: Tree, node: Node,
      end: nat, q: nat)
    returns (e: nat)
    requires g == TOML && WellFormed(g) && (rule == NewlineListOpt || rule == NewlineList)
    requires Derives(g, rule, list, cur, t, node, end) && Gap(list, cur, q) && NextIsNot(list, end, Newline)
    ensures node == Null && BreaksFrom(g, list, q, e) && Gap(list, end, e)
    ensures rule == NewlineList ==> RuleReads(g, NewlineList, list, q, Null, e)
    decreases |list| - cur
  {
    var more, n, rest, others, i := BreaksDerived(g, rule, list, cur, t, node, end);
    if more {
      NextBefore(list, i, end, Newline);
      CatchUp(list, cur, q, n);
      var i' := BreaksComplete(g, NewlineListOpt, list, n + 1, rest, others, i, n + 1);
      ReadBreak(g, list, q, i');
      e := Skip(list, i');
      KeepAhead(list, i, i', end);
    } else {
      NextSkipped(list, cur, q, Newline);
      ReadNoBreak(g, list, q);
      e := q;
    }
  }

  /** The parts of a derived separator: line breaks, perhaps with a semicolon between them. */
  lemma {:induction false} SeparatorDerived(g: Grammar, list: seq<Token>, cur: nat, t: Tree, node: Node, end: nat)
    returns (semi: bool, t1: Tree, n1: Node, b: nat, t2: Tree, n2: Node)
    requires g == TOML && Derives(g, Separator, list, cur, t, node, end)
    ensures node == Null
    ensures semi ==>
      && Derives(g, NewlineListOpt, list, cur, t1, n1, b) && KindAt(list, b, Semicolon)
      && Derives(g, NewlineListOpt, list, b + 1, t2, n2, end)
    ensures !semi ==> Derives(g, NewlineList, list, cur, t1, n1, end)
  {
    BreakSymbols();
    var alt, ts, nodes, first := Enter(g, Separator, list, cur, t, node, end);
    semi, b, t2, n2 := alt == 0, 0, t, node;
    var mid, ts1, nodes1;
    if semi {
      t1, n1, b, ts1, nodes1 := TakeRule(g, NewlineListOpt, [T(Semicolon)] + ([N(NewlineListOpt)] + []), list, cur, ts,
        nodes, end);
      var ts2 := TakeToken(g, Semicolon, [N(NewlineListOpt)] + [], list, b, ts1, nodes1, end);
      var none, nodes2;
      t2, n2, mid, none, nodes2 := TakeRule(g, NewlineListOpt, [], list, b + 1, ts2, nodes1, end);
      TakeNothing(g, list, mid, none, nodes2, end);
    } else {
      t1, n1, mid, ts1, nodes1 := TakeRule(g, NewlineList, [], list, cur, ts, nodes, end);
      TakeNothing(g, list, mid, ts1, nodes1, end);
    }
  }

  lemma {:induction false} SeparatorComplete(g: Grammar, list: seq<Token>, cur: nat, t: Tree, node: Node, end: nat,
      q: nat)
    returns (e: nat)
    requires g == TOML && WellFormed(g) && Derives(g, Separator, list, cur, t, node, end) && Gap(list, cur, q)
    requires NextIsNot(list, end, Newline) && NextIsNot(list, end, Semicolon)
    ensures node == Null && RuleReads(g, Separator, list, q, Null, e) && Gap(list, end, e)
  {
    var semi, t1, n1, b, t2, n2 := SeparatorDerived(g, list, cur, t, node, end);
    if semi {
      NextAt(list, b, b, Newline);
      var b' := BreaksComplete(g, NewlineListOpt, list, cur, t1, n1, b, q);
      e := BreaksComplete(g, NewlineListOpt, list, b + 1, t2, n2, end, b + 1);
      assert b' == b;
      ReadSemicolon(g, list, q, b, e);
    } else {
      e := BreaksComplete(g, NewlineList, list, cur, t1, n1, end, q);
      NextSkipped(list, end, e, Semicolon);
      ReadBreaks(g, list, q, e);
    }
  }

  // ---------- lists of lines ----------

  /** A line and the lines behind it. */
  lemma {:induction false} TakeLineAndTail(g: Grammar, list: seq<Token>, cur: nat, ts: seq<Tree>, nodes: seq<Node>,
      end: nat)
    returns (t: Tree, line: Node, l: nat, u: Tree, tail: Node)
    requires g == TOML && Stands(g, [N(EntryRule)] + ([N(EntryListTail)] + []), list, cur, ts, nodes, end)
    ensures Derives(g, EntryRule, list, cur, t, line, l) && Derives(g, EntryListTail, list, l, u, tail, end)
    ensures nodes == [line] + ([tail] + [])
  {
    var ts1, nodes1, mid, none, nodes2;
    t, line, l, ts1, nodes1 := TakeRule(g, EntryRule, [N(EntryListTail)] + [], list, cur, ts, nodes, end);
    u, tail, mid, none, nodes2 := TakeRule(g, EntryListTail, [], list, l, ts1, nodes1, end);
    TakeNothing(g, list, mid, none, nodes2, end);
  }

  lemma {:induction false} LinkedNode(rule: Rule, first: string, nodes: seq<Node>, line: Node, tail: Node)
    requires nodes == [Null] + ([line] + ([tail] + [])) && (rule == EntryListTail || rule == EntryList)
    ensures Build(rule, 0, first, nodes) == Linked(line, tail)
  {
    assert nodes == [Null, line, tail];
  }

  /** Further lines: a separator up to `a`, a line up to `l` and the lines behind it; or nothing. */
  lemma {:induction false} LinesDerived(g: Grammar, list: seq<Token>, cur: nat, t: Tree, node: Node, end: nat)
    returns (more: bool, s: Tree, a: nat, t1: Tree, line: Node, l: nat, u: Tree, tail: Node)
    requires g == TOML && Derives(g, EntryListTail, list, cur, t, node, end)
    ensures more ==>
      && Derives(g, Separator, list, cur, s, Null, a) && Derives(g, EntryRule, list, a, t1, line, l)
      && Derives(g, EntryListTail, list, l, u, tail, end) && node == Linked(line, tail)
    ensures !more ==> end == cur && node == Null
  {
    ListSymbols();
    var alt, ts, nodes, first := Enter(g, EntryListTail, list, cur, t, node, end);
    more, s, a, t1, line, l, u, tail := alt == 0, t, 0, t, node, 0, t, node;
    if more {
      var none, ts1, nodes1;
      s, none, a, ts1, nodes1 := TakeRule(g, Separator, [N(EntryRule)] + ([N(EntryListTail)] + []), list, cur, ts,
        nodes, end);
      var semi, st, sn, sb, st2, sn2 := SeparatorDerived(g, list, cur, s, none, a);
      t1, line, l, u, tail := TakeLineAndTail(g, list, a, ts1, nodes1, end);
      LinkedNode(EntryListTail, first, nodes, line, tail);
    } else {
      TakeNothing(g, list, cur, ts, nodes, end);
    }
  }

  lemma {:induction false} NothingNext(list: seq<Token>, kind: Kind)
    ensures NextIsNot(list, |list|, kind)
  {
  }

  /** Derived lines, with derived line breaks behind them up to the end of the list: the parser reads
      the lines and then the breaks. */
  lemma {:induction false} LinesComplete(g: Grammar, list: seq<Token>, cur: nat, t: Tree, node: Node, end: nat,
      last: Tree, breaks: Node, q: nat)
    returns (e: nat)
    requires g == TOML && WellFormed(g) && Derives(g, EntryListTail, list, cur, t, node, end) && Gap(list, cur, q)
    requires Derives(g, NewlineListOpt, list, end, last, breaks, |list|)
    ensures RuleReads(g, EntryListTail, list, q, node, e) && RuleReads(g, NewlineListOpt, list, e, Null, |list|)
    decreases |list| - cur
  {
    var more, s, a, t1, line, l, u, tail := LinesDerived(g, list, cur, t, node, end);
    if more {
      LineStartsWith(g, list, a, t1, line, l);
      var a' := SeparatorComplete(g, list, cur, s, Null, a, q);
      var l' := LineComplete(g, list, a, t1, line, l, a');
      e := LinesComplete(g, list, l, u, tail, end, last, breaks, l');
      ReadMore(g, list, q, a', line, l', tail, e);
    } else {
      NothingNext(list, Newline);
      var e' := BreaksComplete(g, NewlineListOpt, list, cur, last, breaks, |list|, q);
      assert e' == |list|;
      ReadNoMore(g, list, q, |list|);
      e := q;
    }
  }

  lemma {:induction false} ListDerived(g: Grammar, list: seq<Token>, t: Tree, node: Node, end: nat)
    returns (f: Tree, front: Node, a: nat, t1: Tree, line: Node, l: nat, u: Tree, tail: Node)
    requires g == TOML && Derives(g, EntryList, list, 0, t, node, end)
    ensures Derives(g, NewlineListOpt, list, 0, f, front, a) && Derives(g, EntryRule, list, a, t1, line, l)
    ensures Derives(g, EntryListTail, list, l, u, tail, end) && node == Linked(line, tail)
  {
    ListSymbols();
    var alt, ts, nodes, first := Enter(g, EntryList, list, 0, t, node, end);
    var ts1, nodes1;
    f, front, a, ts1, nodes1 := TakeRule(g, NewlineListOpt, [N(EntryRule)] + ([N(EntryListTail)] + []), list, 0, ts,
      nodes, end);
    var more, bn, rest, others, bi := BreaksDerived(g, NewlineListOpt, list, 0, f, front, a);
    t1, line, l, u, tail := TakeLineAndTail(g, list, a, ts1, nodes1, end);
    LinkedNode(EntryList, first, nodes, line, tail);
  }

  lemma {:induction false} UnitNode(first: string, nodes: seq<Node>, es: Node, breaks: Node)
    requires nodes == [es] + ([breaks] + [])
    ensures Build(ParseUnit, 0, first, nodes) == es
  {
    assert nodes == [es, breaks];
  }

  /** The two parts of a derivation of a whole list. */
  lemma {:induction false} UnitParts(g: Grammar, list: seq<Token>, t: Tree, node: Node)
    returns (entries: Tree, m: nat, last: Tree, breaks: Node)
    requires g == TOML && Derives(g, ParseUnit, list, 0, t, node, |list|)
    ensures Derives(g, EntryList, list, 0, entries, node, m)
    ensures Derives(g, NewlineListOpt, list, m, last, breaks, |list|)
  {
    ListSymbols();
    var alt, ts, nodes, first := Enter(g, ParseUnit, list, 0, t, node, |list|);
    var es, ts1, nodes1, end, none, nodes2;
    entries, es, m, ts1, nodes1 := TakeRule(g, EntryList, [N(NewlineListOpt)] + [], list, 0, ts, nodes, |list|);
    last, breaks, end, none, nodes2 := TakeRule(g, NewlineListOpt, [], list, m, ts1, nodes1, |list|);
    TakeNothing(g, list, end, none, nodes2, |list|);
    UnitNode(first, nodes, es, breaks);
  }

  /** The parts of a derivation of a whole list: line breaks up to `a`, a line up to `l`, further lines
      up to `m` and line breaks up to the end. */
  lemma {:induction false} UnitDerived(g: Grammar, list: seq<Token>, t: Tree, node: Node)
    returns (f: Tree, front: Node, a: nat, t1: Tree, line: Node, l: nat, u: Tree, tail: Node, m: nat, last: Tree,
      breaks: Node)
    requires g == TOML && Derives(g, ParseUnit, list, 0, t, node, |list|)
    ensures Derives(g, NewlineListOpt, list, 0, f, front, a) && Derives(g, EntryRule, list, a, t1, line, l)
    ensures Derives(g, EntryListTail, list, l, u, tail, m)
    ensures Derives(g, NewlineListOpt, list, m, last, breaks, |list|)
    ensures node == Linked(line, tail)
  {
    var entries;
    entries, m, last, breaks := UnitParts(g, list, t, node);
    f, front, a, t1, line, l, u, tail := ListDerived(g, list, entries, node, m);
  }

  // ---------- completeness ----------

  /** A list of tokens with a derivation is parsed, to what the derivation means. */
  lemma {:induction false} ParseAllComplete(g: Grammar, list: seq<Token>, t: Tree)
    requires g == TOML && WellFormed(g)
    requires Derivation(g, t) && t.Branch? && t.rule == ParseUnit && Yield(t) == list
    ensures ParseAll(g, list) == Some(EntryOf(Meaning(g, t)))
  {
    assert list[0..|list|] == list;
    var f, front, a, t1, line, l, u, tail, m, last, breaks := UnitDerived(g, list, t, Meaning(g, t));
    LineStartsWith(g, list, a, t1, line, l);
    var a' := BreaksComplete(g, NewlineListOpt, list, 0, f, front, a, 0);
    var l' := LineComplete(g, list, a, t1, line, l, a');
    var e := LinesComplete(g, list, l, u, tail, m, last, breaks, l');
    ReadUnit(g, list, a', line, l', tail, e);
  }

  /** A derivation of a whole token list. */
  ghost predicate DerivationOf(list: seq<Token>, t: Tree)
  {
    Derivation(TOML, t) && t.Branch? && t.rule == ParseUnit && Yield(t) == list
  }

  /** The parser accepts exactly the token lists the grammar derives, and although the grammar is
      ambiguous about blanks and line breaks, all derivations of a list mean what the parser returns. */
  lemma {:induction false} ParseAllExact(list: seq<Token>)
    requires WellFormed(TOML)
    ensures ParseAll(TOML, list).Some? <==> exists t :: DerivationOf(list, t)
    ensures forall t :: DerivationOf(list, t) ==> ParseAll(TOML, list) == Some(EntryOf(Meaning(TOML, t)))
  {
    TomlWellFormed();
    ParseAllSound(TOML, list);
    if ParseAll(TOML, list).Some? {
      var t :| Derivation(TOML, t) && t.Branch? && t.rule == ParseUnit && Yield(t) == list;
      assert DerivationOf(list, t);
    }
    forall t | DerivationOf(list, t) {
      ParseAllComplete(TOML, list, t);
    }
  }
}
