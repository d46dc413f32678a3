/** What the TOML lexer's tokens look like, and the two passes over them in toml_lexer: keywords and
    comment removal. */
module TomlTokens {
  import opened Options
  import opened TomlLexer

  // ---------- quoted text ----------

  /** Reading `s` inside quotes, behind a backslash or not: None if an unescaped quote closes it,
      else whether it ends behind a backslash. */
  function Inside(quote: char, escaped: bool, s: string): Option<bool>
    decreases |s|
  {
    if s == "" then Some(escaped)
    else if escaped then Inside(quote, false, s[1..])
    else if s[0] == quote then None
    else Inside(quote, s[0] == '\\', s[1..])
  }

  lemma {:induction false} InsideAppend(quote: char, escaped: bool, s: string, c: char)
    ensures Inside(quote, escaped, s + [c]) == match Inside(quote, escaped, s)
      case None => None
      case Some(e) => if e then Some(false) else if c == quote then None else Some(c == '\\')
    decreases |s|
  {
    if s == "" {
      assert (s + [c])[1..] == "";
    } else {
      assert (s + [c])[0] == s[0] && (s + [c])[1..] == s[1..] + [c];
      if escaped {
        InsideAppend(quote, false, s[1..], c);
      } else if s[0] != quote {
        InsideAppend(quote, s[0] == '\\', s[1..], c);
      }
    }
  }

  // ---------- the shape of tokens ----------

  predicate IsWordChar(c: char) { IsAlpha(c) || IsDigit(c) || c == '-' }
  predicate IsNumeral(c: char) { IsDigit(c) || c == '_' }
  predicate StartsNumber(c: char) { IsDigit(c) || c == '-' || c == '+' }

  predicate WordText(s: string)
  {
    s != "" && IsAlpha(s[0]) && forall i :: 1 <= i < |s| ==> IsWordChar(s[i])
  }

  predicate IntText(s: string)
  {
    s != "" && StartsNumber(s[0]) && forall i :: 1 <= i < |s| ==> IsNumeral(s[i])
  }

  /** An integer text, a point, more digits. */
  predicate FloatText(s: string)
  {
    exists k :: 1 <= k < |s| && s[k] == '.' && IntText(s[..k]) && forall i :: k < i < |s| ==> IsNumeral(s[i])
  }

  predicate BlankText(s: string)
  {
    forall i :: 0 <= i < |s| ==> IsBlank(s[i])
  }

  predicate BreakText(s: string)
  {
    forall i :: 0 <= i < |s| ==> IsBreak(s[i])
  }

  predicate CommentText(s: string)
  {
    s != "" && s[0] == '#' && forall i :: 0 <= i < |s| ==> !IsBreak(s[i])
  }

  /** An opening quote and what follows it, up to a position behind a backslash or not. */
  predicate OpenText(quote: char, escaped: bool, s: string)
  {
    s != "" && s[0] == quote && Inside(quote, false, s[1..]) == Some(escaped)
  }

  /** Between matching quotes, no unescaped one. */
  predicate StringText(s: string)
  {
    |s| >= 2 && (s[0] == '\"' || s[0] == '\'') && s[|s| - 1] == s[0] && OpenText(s[0], false, s[..|s| - 1])
  }

  predicate TokenOk(t: Token)
  {
    match t.kind
    case LBrack => t.text == "["
    case RBrack => t.text == "]"
    case Dot => t.text == "."
    case Eq => t.text == "="
    case Semicolon => t.text == ";"
    case Newline => t.text != "" && BreakText(t.text)
    case Space => t.text != "" && BlankText(t.text)
    case Id => WordText(t.text)
    case Str => StringText(t.text)
    case Int => IntText(t.text)
    case Float => FloatText(t.text)
    case Comment => CommentText(t.text)
    case _ => false
  }

  /** What is read of the current token, by state. */
  predicate LexemeOk(s: LexState, lexeme: string, c: char)
  {
    match s
    case Init => lexeme == ""
    case InId => WordText(lexeme)
    case InSpace => BlankText(lexeme) && (lexeme == "" ==> IsBlank(c))
    case InNewline => BreakText(lexeme) && (lexeme == "" ==> IsBreak(c))
    case InDouble => OpenText('\"', false, lexeme)
    case InDoubleEscape => OpenText('\"', true, lexeme)
    case InSingle => OpenText('\'', false, lexeme)
    case InSingleEscape => OpenText('\'', true, lexeme)
    case InInt => IntText(lexeme)
    case InFloat => FloatText(lexeme)
    case InComment => CommentText(lexeme)
  }

  lemma {:induction false} OpenAppend(quote: char, escaped: bool, s: string, c: char)
    requires OpenText(quote, escaped, s)
    ensures escaped ==> OpenText(quote, false, s + [c])
    ensures !escaped && c != quote ==> OpenText(quote, c == '\\', s + [c])
    ensures !escaped && c == quote && (quote == '\"' || quote == '\'') ==> StringText(s + [c])
  {
    InsideAppend(quote, false, s[1..], c);
    assert (s + [c])[1..] == s[1..] + [c];
    assert (s + [c])[..|s|] == s;
  }

  lemma {:induction false} FloatAppend(s: string, c: char)
    ensures IntText(s) && c == '.' ==> FloatText(s + [c])
    ensures FloatText(s) && IsNumeral(c) ==> FloatText(s + [c])
  {
    var t := s + [c];
    if IntText(s) && c == '.' {
      assert t[|s|] == '.' && t[..|s|] == s;
    } else if FloatText(s) && IsNumeral(c) {
      var k :| 1 <= k < |s| && s[k] == '.' && IntText(s[..k]) && forall i :: k < i < |s| ==> IsNumeral(s[i]);
      assert t[k] == '.' && t[..k] == s[..k];
    }
  }

  /** An action keeps the shape of the current token, and ends it only in the right shape. */
  predicate KeepsShape(s: LexState, lexeme: string, c: char, c': char)
  {
    match ActionAt(s, c)
    case Fails => true
    case Go(next, None, true) => LexemeOk(next, lexeme, c)
    case Go(next, Some(kind), true) => LexemeOk(next, "", c) && TokenOk(Token(kind, lexeme))
    case Go(next, None, false) => c != '\0' ==> LexemeOk(next, lexeme + [c], c')
    case Go(next, Some(kind), false) => c != '\0' && LexemeOk(next, "", c') && TokenOk(Token(kind, lexeme + [c]))
  }

  lemma {:induction false} QuoteKeepsShape(s: LexState, lexeme: string, c: char, c': char)
    requires s == InDouble || s == InDoubleEscape || s == InSingle || s == InSingleEscape
    requires LexemeOk(s, lexeme, c)
    ensures KeepsShape(s, lexeme, c, c')
  {
    var quote := if s == InDouble || s == InDoubleEscape then '\"' else '\'';
    OpenAppend(quote, s == InDoubleEscape || s == InSingleEscape, lexeme, c);
  }

  lemma {:induction false} InitKeepsShape(c: char, c': char)
    ensures KeepsShape(Init, "", c, c')
  {
    assert "" + [c] == [c];
  }

  lemma {:induction false} RunKeepsShape(s: LexState, lexeme: string, c: char, c': char)
    requires s == InId || s == InSpace || s == InNewline || s == InComment
    requires LexemeOk(s, lexeme, c)
    ensures KeepsShape(s, lexeme, c, c')
  {
  }

  lemma {:induction false} NumberKeepsShape(s: LexState, lexeme: string, c: char, c': char)
    requires s == InInt || s == InFloat
    requires LexemeOk(s, lexeme, c)
    ensures KeepsShape(s, lexeme, c, c')
  {
    FloatAppend(lexeme, c);
  }

  /** Every action keeps the shape of the current token, and ends it only in the right shape. */
  lemma {:induction false} ActionKeepsShape(s: LexState, lexeme: string, c: char, c': char)
    requires LexemeOk(s, lexeme, c)
    ensures KeepsShape(s, lexeme, c, c')
  {
    match s
    case Init => InitKeepsShape(c, c');
    case InDouble | InDoubleEscape | InSingle | InSingleEscape => QuoteKeepsShape(s, lexeme, c, c');
    case InInt | InFloat => NumberKeepsShape(s, lexeme, c, c');
    case _ => RunKeepsShape(s, lexeme, c, c');
  }

  function Texts(ts: seq<Token>): string
  {
    if ts == [] then "" else ts[0].text + Texts(ts[1..])
  }

  /** What a run drops at the end: nothing, an unfinished comment, or a string cut off behind a
      backslash. */
  predicate DroppedText(s: string)
  {
    s == "" || CommentText(s) || (|s| >= 2 && (OpenText('\"', true, s) || OpenText('\'', true, s)))
  }

  /** The tokens of a text are non-empty and well-shaped, and tile it up to the dropped text. */
  ghost predicate Tiles(ts: seq<Token>, text: string)
  {
    (forall t <- ts :: TokenOk(t)) && exists dropped :: DroppedText(dropped) && Texts(ts) + dropped == text
  }

  lemma {:induction false} TilesCons(t: Token, ts: seq<Token>, text: string)
    requires TokenOk(t) && Tiles(ts, text)
    ensures Tiles([t] + ts, t.text + text)
  {
    var dropped :| DroppedText(dropped) && Texts(ts) + dropped == text;
    assert Texts([t] + ts) + dropped == t.text + text by {
      assert ([t] + ts)[1..] == ts;
      assert (t.text + Texts(ts)) + dropped == t.text + (Texts(ts) + dropped);
    }
  }

  lemma {:induction false} ScanTiles(s: LexState, lexeme: string, rest: Source)
    requires LexemeOk(s, lexeme, Current(rest)) && Scan(s, lexeme, rest).Some?
    ensures Tiles(Scan(s, lexeme, rest).value, lexeme + rest)
    decreases |rest|, Rank(s, Current(rest))
  {
    var a := ActionAt(s, Current(rest));
    ActionKeepsShape(s, lexeme, Current(rest), if rest == "" then '\0' else Current(rest[1..]));
    if a.unwind {
      if a.emit.None? {
        ScanTiles(a.next, lexeme, rest);
      } else {
        ScanTiles(a.next, "", rest);
        assert "" + rest == rest;
        TilesCons(Token(a.emit.value, lexeme), Scan(a.next, "", rest).value, rest);
      }
    } else if rest == "" {
      assert Texts([]) + lexeme == lexeme + rest;
    } else {
      assert lexeme + [rest[0]] + rest[1..] == lexeme + rest;
      if a.emit.None? {
        ScanTiles(a.next, lexeme + [rest[0]], rest[1..]);
      } else {
        ScanTiles(a.next, "", rest[1..]);
        assert "" + rest[1..] == rest[1..];
        TilesCons(Token(a.emit.value, lexeme + [rest[0]]), Scan(a.next, "", rest[1..]).value, rest[1..]);
      }
    }
  }

  /** A successful lexer run: its tokens tile the source up to the nil, an unfinished comment or a
      string cut off behind a backslash, none is empty, and a string token has matching quotes and
      at least two characters. */
  lemma {:induction false} LexTiles(src: Source)
    ensures Lex(src).Some? ==> Tiles(Lex(src).value, src)
  {
    if Lex(src).Some? {
      ScanTiles(Init, "", src);
      assert "" + src == src;
    }
  }

  // ---------- keywords and comments ----------

  /** strncmp(keyword, text, |text|) == 0: the text is a prefix of the keyword, not just equal. */
  predicate MatchesKeyword(keyword: string, text: string)
  {
    text <= keyword
  }

  function Keyword(t: Token): Token
  {
    if t.kind != Id then t
    else if MatchesKeyword("false", t.text) then t.(kind := False)
    else if MatchesKeyword("true", t.text) then t.(kind := True)
    else t
  }

  function Keywords(ts: seq<Token>): (r: seq<Token>)
    ensures |r| == |ts|
    ensures forall i :: 0 <= i < |ts| ==> r[i] == Keyword(ts[i])
  {
    seq(|ts|, i requires 0 <= i < |ts| => Keyword(ts[i]))
  }

  /** An identifier the lexer found stays one exactly when it is not a prefix of a keyword; so "t",
      "fal" or "tru" cannot be used as keys. */
  lemma {:induction false} KeywordExact(t: Token)
    requires TokenOk(t) && t.kind == Id
    ensures Keyword(t).kind == False <==> t.text <= "false"
    ensures Keyword(t).kind == True <==> t.text <= "true"
    ensures Keyword(t) == t <==> !(t.text <= "false") && !(t.text <= "true")
    ensures Keyword(Token(Id, "t")).kind == True && Keyword(Token(Id, "fal")).kind == False
  {
    assert t.text <= "false" ==> t.text[0] == 'f';
    assert t.text <= "true" ==> t.text[0] == 't';
    assert "t" <= "true" && "fal" <= "false";
    assert "t"[0] == 't' && "false"[0] == 'f';
  }

  /** The loop over the keyword table. */
  method FindKeyword(t: Token) returns (r: Token)
    requires t.kind == Id
    ensures r == Keyword(t)
  {
    var keywords, j := [("false", False), ("true", True)], 0;
    while j < |keywords|
      invariant 0 <= j <= |keywords|
      invariant forall k :: 0 <= k < j ==> !MatchesKeyword(keywords[k].0, t.text)
    {
      if MatchesKeyword(keywords[j].0, t.text) {
        assert j == 1 ==> !MatchesKeyword(keywords[0].0, t.text);
        return t.(kind := keywords[j].1);
      }
      j := j + 1;
    }
    assert !MatchesKeyword(keywords[0].0, t.text) && !MatchesKeyword(keywords[1].0, t.text);
    r := t;
  }

  /** _toml_keyword, in place */
  method TomlKeyword(list: TokenList)
    requires list.Valid()
    modifies list.tokens
    ensures list.Valid() && list.Contents() == Keywords(old(list.Contents()))
  {
    ghost var before := list.Contents();
    var i := 0;
    while i < list.size
      invariant 0 <= i <= list.size
      invariant forall k :: 0 <= k < i ==> list.tokens[k] == Keyword(before[k])
      invariant forall k :: i <= k < list.size ==> list.tokens[k] == before[k]
    {
      if list.tokens[i].kind == Id {
        list.tokens[i] := FindKeyword(list.tokens[i]);
      }
      i := i + 1;
    }
  }

  function WithoutComments(ts: seq<Token>): seq<Token>
  {
    if ts == [] then []
    else (if ts[0].kind == Comment then [] else [ts[0]]) + WithoutComments(ts[1..])
  }

  lemma {:induction false} WithoutCommentsAppend(ts: seq<Token>, t: Token)
    ensures WithoutComments(ts + [t]) == WithoutComments(ts) + if t.kind == Comment then [] else [t]
  {
    if ts == [] {
      assert (ts + [t])[1..] == [];
    } else {
      assert (ts + [t])[0] == ts[0] && (ts + [t])[1..] == ts[1..] + [t];
      WithoutCommentsAppend(ts[1..], t);
    }
  }

  /** The tokens toml_lexer hands to the parser, or None for a lexer error. */
  function TomlTokenize(src: string): Option<seq<Token>>
  {
    match Lex(src)
    case None => None
    case Some(ts) => Some(WithoutComments(Keywords(ts)))
  }

  /** toml_lexer. After a lexer error the original goes on with a null list; here it stops. */
  method TomlTokenizer(src: Source) returns (ok: bool, nlist: TokenList)
    ensures fresh(nlist) && nlist.Valid() && fresh(nlist.tokens)
    ensures ok == TomlTokenize(src).Some?
    ensures ok ==> nlist.Contents() == TomlTokenize(src).value
  {
    var list;
    ok, list := Lexer(src);
    nlist := new TokenList();
    if !ok {
      return;
    }
    TomlKeyword(list);
    ghost var all := list.Contents();
    var i := 0;
    while i < list.size
      invariant 0 <= i <= list.size && nlist.Valid() && fresh(nlist) && fresh(nlist.tokens)
      invariant nlist.tokens != list.tokens && list.Valid() && list.Contents() == all
      invariant nlist.Contents() == WithoutComments(all[..i])
    {
      WithoutCommentsAppend(all[..i], all[i]);
      assert all[..i + 1] == all[..i] + [all[i]];
      if list.tokens[i].kind != Comment {
        nlist.Push(list.tokens[i]);
      }
      i := i + 1;
    }
    assert all[..i] == all;
  }
}
