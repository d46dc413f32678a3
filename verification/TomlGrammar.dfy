/** The grammar rules of toml/toml.c. */
module TomlGrammar {
  import opened Options
  import opened TomlLexer
  import opened TomlParser

  // ---------- integers ----------

  const LLONG_MAX := 0x7fff_ffff_ffff_ffff
  const LLONG_MIN := -0x8000_0000_0000_0000

  function Digits(s: string, acc: nat): nat
  {
    if s == "" || !IsDigit(s[0]) then acc else Digits(s[1..], 10 * acc + (s[0] as int - '0' as int))
  }

  /** atoll, saturating: an optional sign, then digits as far as they go. */
  function Atoll(s: string): int
  {
    var n: int := if s != "" && s[0] == '-' then 0 - Digits(s[1..], 0)
             else if s != "" && s[0] == '+' then Digits(s[1..], 0)
             else Digits(s, 0);
    if n > LLONG_MAX then LLONG_MAX else if n < LLONG_MIN then LLONG_MIN else n
  }

  function WithoutUnderscores(s: string): string
  {
    if s == "" then "" else (if s[0] == '_' then "" else [s[0]]) + WithoutUnderscores(s[1..])
  }

  lemma {:induction false} WithoutUnderscoresAppend(s: string, c: char)
    ensures WithoutUnderscores(s + [c]) == WithoutUnderscores(s) + if c == '_' then "" else [c]
  {
    if s == "" {
      assert (s + [c])[1..] == "";
    } else {
      assert (s + [c])[0] == s[0] && (s + [c])[1..] == s[1..] + [c];
      WithoutUnderscoresAppend(s[1..], c);
    }
  }

  /** The copying loop of the integer rule. */
  method CopyDigits(text: string) returns (tmp: string)
    ensures tmp == WithoutUnderscores(text)
  {
    tmp := "";
    for i := 0 to |text|
      invariant tmp == WithoutUnderscores(text[..i])
    {
      WithoutUnderscoresAppend(text[..i], text[i]);
      assert text[..i + 1] == text[..i] + [text[i]];
      if text[i] != '_' {
        tmp := tmp + [text[i]];
      }
    }
    assert text[..|text|] == text;
  }

  /** A string token without its quotes. */
  function Unquoted(text: string): string
  {
    if |text| >= 2 then text[1..|text| - 1] else ""
  }

  // ---------- the rules ----------

  function Alternatives(rule: Rule): seq<seq<Symbol>>
  {
    match rule
    case SpaceOpt => [[T(Space)], []]
    case BoolRule => [[T(False)], [T(True)]]
    case StringRule => [[T(Str)]]
    case IntRule => [[T(Int)]]
    case ValueRule => [[N(BoolRule)], [N(StringRule)], [N(IntRule)]]
    case IdRule => [[T(Id)], [T(Str)]]
    case KeyTail => [[N(SpaceOpt), T(Dot), N(SpaceOpt), N(IdRule), N(KeyTail)], []]
    case KeyRule => [[N(IdRule), N(KeyTail)]]
    case EntryRule => [
      [N(SpaceOpt), N(KeyRule), N(SpaceOpt), T(Eq), N(SpaceOpt), N(ValueRule), N(SpaceOpt)],
      [N(SpaceOpt), T(LBrack), N(SpaceOpt), N(KeyRule), N(SpaceOpt), T(RBrack), N(SpaceOpt)],
      [N(SpaceOpt), T(LBrack), N(SpaceOpt), T(RBrack), N(SpaceOpt)]]
    case NewlineListOpt => [[N(SpaceOpt), T(Newline), N(NewlineListOpt), N(SpaceOpt)], []]
    case NewlineList => [[N(SpaceOpt), T(Newline), N(NewlineListOpt), N(SpaceOpt)]]
    case Separator => [[N(NewlineListOpt), T(Semicolon), N(NewlineListOpt)], [N(NewlineList)]]
    case EntryListTail => [[N(Separator), N(EntryRule), N(EntryListTail)], []]
    case EntryList => [[N(NewlineListOpt), N(EntryRule), N(EntryListTail)]]
    case ParseUnit => [[N(EntryList), N(NewlineListOpt)]]
  }

  function StringOf(n: Node): string
  {
    if n.StringNode? then n.s else ""
  }

  function KeyOf(n: Node): Key
  {
    if n.KeyNode? then n.key else NoKey
  }

  /** The node a rule returns for its alternative `alt`, from the text of its first token and the
      nodes of its nonterminals. */
  function Build(rule: Rule, alt: nat, first: string, kids: seq<Node>): Node
  {
    match rule
    case BoolRule => BoolNode(alt == 1)
    case StringRule => StringNode(Unquoted(first))
    case IntRule => IntNode(Atoll(WithoutUnderscores(first)))
    case ValueRule =>
      if |kids| != 1 then Null
      else
        (match kids[0]
         case BoolNode(b) => ValueNode(BoolValue(b))
         case StringNode(s) => ValueNode(StringValue(s))
         case IntNode(n) => ValueNode(IntValue(n))
         case _ => Null)
    case IdRule => StringNode(if alt == 0 then first else Unquoted(first))
    case KeyTail => if |kids| == 4 then KeyNode(Key(StringOf(kids[2]), KeyOf(kids[3]))) else Null
    case KeyRule => if |kids| == 2 then KeyNode(Key(StringOf(kids[0]), KeyOf(kids[1]))) else Null
    case EntryRule =>
      if alt == 0 && |kids| == 6 && kids[4].ValueNode? then
        EntryNode(Entry(KeyOf(kids[1]), Some(kids[4].value), NoEntry))
      else if alt == 1 && |kids| == 5 then EntryNode(Entry(KeyOf(kids[2]), None, NoEntry))
      else EntryNode(Entry(NoKey, None, NoEntry))
    case EntryListTail => if |kids| == 3 then Linked(kids[1], kids[2]) else Null
    case EntryList => if |kids| == 3 then Linked(kids[1], kids[2]) else Null
    case ParseUnit => if |kids| == 2 then kids[0] else Null
    case _ => Null
  }

  /** entry->next = tail */
  function Linked(entry: Node, tail: Node): Node
  {
    if entry.EntryNode? && entry.entry.Entry? then EntryNode(entry.entry.(next := EntryOf(tail))) else Null
  }

  const TOML: Grammar := Grammar(Alternatives, Build)

  lemma {:induction false} AlternativeRanked(rule: Rule, alt: nat)
    requires alt < |Alternatives(rule)|
    ensures Ranked(Alternatives(rule)[alt], RuleRank(rule))
    ensures AllNullable(Alternatives(rule)[alt]) ==> Nullable(rule)
  {
  }

  lemma {:induction false} GrammarRanked(rule: Rule)
    ensures RuleWellFormed(TOML, rule)
  {
    forall alt | 0 <= alt < |Alternatives(rule)|
      ensures Ranked(Alternatives(rule)[alt], RuleRank(rule))
      ensures AllNullable(Alternatives(rule)[alt]) ==> Nullable(rule)
    {
      AlternativeRanked(rule, alt);
    }
  }

  lemma {:induction false} TomlWellFormed()
    ensures WellFormed(TOML) && FirstTokenThere(TOML)
  {
    forall rule
      ensures RuleWellFormed(TOML, rule)
    {
      GrammarRanked(rule);
    }
    forall rule: Rule, alt: nat, s, kids | alt < |Alternatives(rule)| && AllNullable(Alternatives(rule)[alt])
      ensures Build(rule, alt, s, kids) == Build(rule, alt, "", kids)
    {
      GrammarRanked(rule);
    }
  }
}
