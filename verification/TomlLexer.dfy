/** The table-driven automaton of toml/lexer.c with the transition table of toml/toml.c. */
module TomlLexer {
  import opened Options

  datatype Kind =
    | LBrack | RBrack | Dot | Eq | Newline | Space | Semicolon
    | Id | Str | Int | Float | False | True | Comment

  datatype Token = Token(kind: Kind, text: string)

  /** A C string: it has no NUL, which the lexer reads behind its end. */
  type Source = s: string | '\0' !in s witness ""

  datatype LexState =
    | Init | InId | InSpace | InNewline
    | InDouble | InDoubleEscape | InSingle | InSingleEscape
    | InInt | InFloat | InComment

  // ---------- the transition table ----------

  /** state_trans_t; `fails` stands for an error message. */
  datatype Transition = Transition(pattern: string, next: LexState, token: Option<Kind>, unwind: bool, fails: bool)

  function To(pattern: string, next: LexState): Transition
  {
    Transition(pattern, next, None, false, false)
  }

  function Emit(pattern: string, token: Kind): Transition
  {
    Transition(pattern, Init, Some(token), false, false)
  }

  /** The transition that ends a token in front of the current character. */
  function Close(pattern: string, token: Kind): Transition
  {
    Transition(pattern, Init, Some(token), true, false)
  }

  function Unwind(pattern: string, next: LexState): Transition
  {
    Transition(pattern, next, None, true, false)
  }

  function Fail(pattern: string): Transition
  {
    Transition(pattern, Init, None, false, true)
  }

  function Table(s: LexState): seq<Transition>
  {
    match s
    case Init => [
      To("-az", InId), To("-AZ", InId), To("|_", InId),
      To("|-+", InInt), To("-09", InInt),
      Emit("=[", LBrack), Emit("=]", RBrack), Emit("==", Eq), Emit("=.", Dot), Emit("=;", Semicolon),
      To("=#", InComment),
      Unwind("|\r\n", InNewline), Unwind("| \t", InSpace),
      To("=\"", InDouble), To("='", InSingle),
      To("=\0", Init)]
    case InId => [To("-az", InId), To("-AZ", InId), To("-09", InId), To("|_-", InId), Close(".", Id)]
    case InSpace => [To("| \t", InSpace), Close(".", Space)]
    case InNewline => [To("|\r\n", InNewline), Close(".", Newline)]
    case InDouble => [Emit("=\"", Str), To("=\\", InDoubleEscape), Fail("=\0"), To(".", InDouble)]
    case InDoubleEscape => [To(".", InDouble)]
    case InSingle => [Emit("='", Str), To("=\\", InSingleEscape), Fail("=\0"), To(".", InSingle)]
    case InSingleEscape => [To(".", InSingle)]
    case InInt => [To("-09", InInt), To("=_", InInt), To("=.", InFloat), Close(".", Int)]
    case InFloat => [To("-09", InFloat), To("=_", InFloat), Fail("=."), Close(".", Float)]
    case InComment => [Close("|\r\n", Comment), To(".", InComment)]
  }

  /** _match: the first character of a pattern is its kind. A "|" pattern is a C string, so it
      never matches NUL. */
  predicate Match(pattern: string, c: char)
  {
    if pattern == "" then false
    else
      match pattern[0]
      case '=' => |pattern| > 1 && c == pattern[1]
      case '-' =>
        |pattern| > 2 &&
        (if pattern[2] >= pattern[1] then pattern[1] <= c <= pattern[2] else pattern[2] <= c <= pattern[1])
      case '.' => true
      case '$' => c as int > 0x7f
      case '|' => c in pattern[1..]
      case _ => false
  }

  /** The first transition from `k` on whose pattern matches. */
  function FirstMatch(row: seq<Transition>, c: char, k: nat): Option<Transition>
    requires k <= |row|
    decreases |row| - k
  {
    if k == |row| then None
    else if Match(row[k].pattern, c) then Some(row[k])
    else FirstMatch(row, c, k + 1)
  }

  // ---------- what the table says ----------

  /** What the automaton does on a character: fail, or move on, perhaps ending a token, perhaps
      without consuming the character. */
  datatype Action = Fails | Go(next: LexState, emit: Option<Kind>, unwind: bool)

  predicate IsAlpha(c: char) { 'a' <= c <= 'z' || 'A' <= c <= 'Z' || c == '_' }
  predicate IsDigit(c: char) { '0' <= c <= '9' }
  predicate IsBreak(c: char) { c == '\r' || c == '\n' }
  predicate IsBlank(c: char) { c == ' ' || c == '\t' }

  function ActionAt(s: LexState, c: char): Action
  {
    match s
    case Init =>
      if IsAlpha(c) then Go(InId, None, false) else NonAlpha(c)
    case InId =>
      if IsAlpha(c) || IsDigit(c) || c == '-' then Go(InId, None, false) else Go(Init, Some(Id), true)
    case InSpace => if IsBlank(c) then Go(InSpace, None, false) else Go(Init, Some(Space), true)
    case InNewline => if IsBreak(c) then Go(InNewline, None, false) else Go(Init, Some(Newline), true)
    case InDouble => Quoted(c, '\"', InDouble, InDoubleEscape)
    case InDoubleEscape => Go(InDouble, None, false)
    case InSingle => Quoted(c, '\'', InSingle, InSingleEscape)
    case InSingleEscape => Go(InSingle, None, false)
    case InInt =>
      if IsDigit(c) || c == '_' then Go(InInt, None, false)
      else if c == '.' then Go(InFloat, None, false)
      else Go(Init, Some(Int), true)
    case InFloat =>
      if IsDigit(c) || c == '_' then Go(InFloat, None, false)
      else if c == '.' then Fails
      else Go(Init, Some(Float), true)
    case InComment => if IsBreak(c) then Go(Init, Some(Comment), true) else Go(InComment, None, false)
  }

  function NonAlpha(c: char): Action
  {
    if c == '-' || c == '+' || IsDigit(c) then Go(InInt, None, false) else Punctuation(c)
  }

  function Punctuation(c: char): Action
  {
    if c == '[' then Go(Init, Some(LBrack), false)
    else if c == ']' then Go(Init, Some(RBrack), false)
    else if c == '=' then Go(Init, Some(Eq), false)
    else if c == '.' then Go(Init, Some(Dot), false)
    else if c == ';' then Go(Init, Some(Semicolon), false)
    else Other(c)
  }

  function Other(c: char): Action
  {
    if c == '#' then Go(InComment, None, false)
    else if IsBreak(c) then Go(InNewline, None, true)
    else if IsBlank(c) then Go(InSpace, None, true)
    else if c == '\"' then Go(InDouble, None, false)
    else if c == '\'' then Go(InSingle, None, false)
    else if c == '\0' then Go(Init, None, false)
    else Fails
  }

  function Quoted(c: char, quote: char, inside: LexState, escape: LexState): Action
  {
    if c == quote then Go(Init, Some(Str), false)
    else if c == '\\' then Go(escape, None, false)
    else if c == '\0' then Fails
    else Go(inside, None, false)
  }

  /** The action of a transition, if one was found. */
  function Act(t: Option<Transition>): Action
  {
    if t.None? || t.value.fails then Fails else Go(t.value.next, t.value.token, t.value.unwind)
  }

  /** Looking for a transition, one row entry at a time. */
  lemma {:induction false} Unfold(row: seq<Transition>, c: char, from: nat, to: nat)
    requires to <= |row|
    ensures forall k {:trigger FirstMatch(row, c, k)} :: from <= k < to ==>
      FirstMatch(row, c, k) == if Match(row[k].pattern, c) then Some(row[k]) else FirstMatch(row, c, k + 1)
    ensures FirstMatch(row, c, |row|) == None
  {
  }

  lemma {:induction false} InitRowEnd(c: char)
    ensures Act(FirstMatch(Table(Init), c, 10)) == Other(c)
  {
    Unfold(Table(Init), c, 10, 16);
  }

  lemma {:induction false} InitRowMiddle(c: char)
    ensures Act(FirstMatch(Table(Init), c, 5)) == Punctuation(c)
  {
    InitRowEnd(c);
    Unfold(Table(Init), c, 5, 10);
  }

  lemma {:induction false} InitRowNonAlpha(c: char)
    ensures Act(FirstMatch(Table(Init), c, 3)) == NonAlpha(c)
  {
    InitRowMiddle(c);
    Unfold(Table(Init), c, 3, 5);
  }

  lemma {:induction false} InitRow(c: char)
    ensures Act(FirstMatch(Table(Init), c, 0)) == ActionAt(Init, c)
  {
    InitRowNonAlpha(c);
    Unfold(Table(Init), c, 0, 3);
  }

  lemma {:induction false} WordRow(s: LexState, c: char)
    requires s == InId || s == InSpace || s == InNewline
    ensures Act(FirstMatch(Table(s), c, 0)) == ActionAt(s, c)
  {
    Unfold(Table(s), c, 0, |Table(s)|);
  }

  lemma {:induction false} NumberRow(s: LexState, c: char)
    requires s == InInt || s == InFloat || s == InComment
    ensures Act(FirstMatch(Table(s), c, 0)) == ActionAt(s, c)
  {
    Unfold(Table(s), c, 0, |Table(s)|);
  }

  lemma {:induction false} StringRow(s: LexState, c: char)
    requires s == InDouble || s == InDoubleEscape || s == InSingle || s == InSingleEscape
    ensures Act(FirstMatch(Table(s), c, 0)) == ActionAt(s, c)
  {
    Unfold(Table(s), c, 0, |Table(s)|);
  }

  /** The table means what ActionAt says. */
  lemma {:induction false} TableMeans(s: LexState, c: char)
    ensures Act(FirstMatch(Table(s), c, 0)) == ActionAt(s, c)
  {
    match s
    case Init => InitRow(c);
    case InId | InSpace | InNewline => WordRow(s, c);
    case InInt | InFloat | InComment => NumberRow(s, c);
    case _ => StringRow(s, c);
  }

  // ---------- a run of the automaton ----------

  /** The character the automaton looks at: NUL behind the end. */
  function Current(rest: string): char
  {
    if rest == "" then '\0' else rest[0]
  }

  /** Falls at every step that does not consume a character. */
  function Rank(s: LexState, c: char): nat
  {
    match ActionAt(s, c)
    case Fails => 0
    case Go(_, _, unwind) => if !unwind then 0 else if s == Init then 1 else 2
  }

  function Cons(t: Token, ts: Option<seq<Token>>): Option<seq<Token>>
  {
    match ts
    case None => None
    case Some(tail) => Some([t] + tail)
  }

  /** The tokens of `rest`, from state `s` with `lexeme` already read of the current token. The run
      ends when the NUL behind the text has been consumed. */
  function Scan(s: LexState, lexeme: string, rest: string): Option<seq<Token>>
    decreases |rest|, Rank(s, Current(rest))
  {
    match ActionAt(s, Current(rest))
    case Fails => None
    case Go(next, emit, unwind) =>
      if unwind then
        match emit
        case None => Scan(next, lexeme, rest)
        case Some(kind) => Cons(Token(kind, lexeme), Scan(next, "", rest))
      else if rest == "" then
        Some([])
      else
        match emit
        case None => Scan(next, lexeme + [rest[0]], rest[1..])
        case Some(kind) => Cons(Token(kind, lexeme + [rest[0]]), Scan(next, "", rest[1..]))
  }

  /** The tokens of a source text, or None if the lexer reports an error. */
  function Lex(src: string): Option<seq<Token>>
  {
    Scan(Init, "", src)
  }

  const DEFAULT_TOKEN_LIST_SIZE := 8

  class TokenList {
    var tokens: array<Token>
    var size: nat
    var cap: nat

    ghost predicate Valid()
      reads this
    {
      1 <= cap == tokens.Length && size <= cap
    }

    ghost function Contents(): seq<Token>
      requires Valid()
      reads this, tokens
    {
      tokens[..size]
    }

    /** token_list_new */
    constructor ()
      ensures Valid() && fresh(tokens) && Contents() == []
    {
      size, cap := 0, DEFAULT_TOKEN_LIST_SIZE;
      tokens := new Token[DEFAULT_TOKEN_LIST_SIZE](_ => Token(Space, ""));
    }

    /** token_list_push */
    method Push(token: Token)
      requires Valid()
      modifies this, tokens
      ensures Valid() && (tokens == old(tokens) || fresh(tokens))
      ensures Contents() == old(Contents()) + [token]
    {
      if size == cap {
        cap := 2 * cap;
        tokens := new Token[cap](i reads this, tokens =>
          if 0 <= i < tokens.Length then tokens[i] else Token(Space, ""));
      }
      tokens[size] := token;
      size := size + 1;
    }
  }

  function Prefixed(done: seq<Token>, ts: Option<seq<Token>>): Option<seq<Token>>
  {
    match ts
    case None => None
    case Some(tail) => Some(done + tail)
  }

  lemma {:induction false} PrefixedCons(done: seq<Token>, t: Token, ts: Option<seq<Token>>)
    ensures Prefixed(done, Cons(t, ts)) == Prefixed(done + [t], ts)
  {
    if ts.Some? {
      assert done + ([t] + ts.value) == (done + [t]) + ts.value;
    }
  }

  /** What is left to scan at index `i` of the text, with the current token starting at `j`. */
  function ScanAt(src: Source, s: LexState, j: nat, i: nat): Option<seq<Token>>
    requires j <= i <= |src| + 1
  {
    if i == |src| + 1 then Some([]) else Scan(s, src[j..i], src[i..])
  }

  /** The measure of the lexer's loop: characters left, then the rank. */
  function Measure(src: Source, s: LexState, i: nat): (nat, nat)
    requires i <= |src| + 1
  {
    (|src| + 1 - i, if i <= |src| then Rank(s, Current(src[i..])) else 0)
  }

  predicate Decreases(src: Source, s: LexState, i: nat, a: Action)
    requires i <= |src|
  {
    a.Go? ==>
      var m, m' := Measure(src, s, i), Measure(src, a.next, if a.unwind then i else i + 1);
      m'.0 < m.0 || (m'.0 == m.0 && m'.1 < m.1)
  }

  /** One turn of the lexer's loop. */
  lemma {:induction false} ScanStep(src: Source, s: LexState, j: nat, i: nat)
    requires j <= i <= |src|
    ensures match ActionAt(s, Current(src[i..]))
      case Fails => ScanAt(src, s, j, i).None?
      case Go(next, emit, unwind) =>
        var i' := if unwind then i else i + 1;
        match emit
        case None => ScanAt(src, s, j, i) == ScanAt(src, next, j, i')
        case Some(kind) =>
          (i' <= |src| && ScanAt(src, s, j, i) == Cons(Token(kind, src[j..i']), ScanAt(src, next, i', i')))
    ensures Decreases(src, s, i, ActionAt(s, Current(src[i..])))
  {
    if i < |src| {
      assert src[i..][1..] == src[i + 1..] && src[j..i] + [src[i]] == src[j..i + 1];
      assert src[i + 1..i + 1] == "";
    }
    assert src[i..i] == "";
  }

  /** The inner loop of lexer: the first matching entry of a row of the table. */
  method FindEntry(state: LexState, cur: char) returns (action: Action)
    ensures action == ActionAt(state, cur)
  {
    var row, k := Table(state), 0;
    while k < |row| && !Match(row[k].pattern, cur)
      invariant k <= |row| && FirstMatch(row, cur, k) == FirstMatch(row, cur, 0)
    {
      k := k + 1;
    }
    TableMeans(state, cur);
    if k == |row| || row[k].fails {
      return Fails;
    }
    action := Go(row[k].next, row[k].token, row[k].unwind);
  }

  /** lexer */
  method Lexer(src: Source) returns (ok: bool, list: TokenList)
    ensures fresh(list) && list.Valid() && fresh(list.tokens)
    ensures ok == Lex(src).Some?
    ensures ok ==> list.Contents() == Lex(src).value
  {
    list := new TokenList();
    var state, i, j := Init, 0, 0;
    assert src[0..0] == "" && src[0..] == src;
    assert Lex(src).Some? ==> [] + Lex(src).value == Lex(src).value;
    while i != |src| + 1
      invariant 0 <= j <= i <= |src| + 1 && list.Valid() && fresh(list.tokens)
      invariant Lex(src) == Prefixed(list.Contents(), ScanAt(src, state, j, i))
      decreases Measure(src, state, i).0, Measure(src, state, i).1
    {
      var cur := if i < |src| then src[i] else '\0';
      var action := FindEntry(state, cur);
      ScanStep(src, state, j, i);
      if action.Fails? {
        return false, list;
      }
      var end := if action.unwind then i else i + 1;
      if action.emit.Some? {
        var token := Token(action.emit.value, src[j..end]);
        PrefixedCons(list.Contents(), token, ScanAt(src, action.next, end, end));
        list.Push(token);
        j := end;
      }
      state, i := action.next, end;
    }
    ok := true;
  }
}
