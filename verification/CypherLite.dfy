/** The Cypher-like language: its lexer and recursive-descent parser,
    src/query/languages/cypher_lite.rs. */
module CypherLite {
  import opened Core
  import opened Lexical
  import opened QueryAst

  datatype Token =
    | Keyword(word: string)
    | Ident(name: string)
    | NodeRef(id: U64)
    | StringLit(s: string)
    | IntLit(i: I64)
    | FloatLit(f: F64)
    | BoolLit(b: bool)
    | Cmp(op: Op)
    | LParen | RParen | LBracket | RBracket | Colon | Dot | Comma | Dash | Arrow

  /** `Panics` is the unwrap of a node number that does not fit 64 bits. */
  datatype LexError =
    | Unterminated
    | BadFloat(text: string)
    | BadInteger(text: string)
    | BadChar(c: char)
    | Panics(word: string)

  predicate IsKeyword(w: string) {
    || w == "MATCH" || w == "WHERE" || w == "RETURN" || w == "AND" || w == "TRAVERSE" || w == "PATH" || w == "FROM"
    || w == "TO" || w == "COUNT" || w == "NODES" || w == "EDGES" || w == "BFS" || w == "DFS"
  }

  // ---- Lexer ----

  /** How many characters at the front pass. */
  function Span(p: char -> bool, s: string): (n: nat)
    ensures n <= |s| && (forall i :: 0 <= i < n ==> p(s[i])) && (n < |s| ==> !p(s[n]))
  {
    if s == "" || !p(s[0]) then 0 else 1 + Span(p, s[1..])
  }

  function TwoCharToken(s: string): Option<Token> {
    if |s| < 2 then None
    else if s[0] == '!' && s[1] == '=' then Some(Cmp(NotEq))
    else if s[0] == '<' && s[1] == '=' then Some(Cmp(LtEq))
    else if s[0] == '>' && s[1] == '=' then Some(Cmp(GtEq))
    else if s[0] == '-' && s[1] == '>' then Some(Arrow)
    else None
  }

  function OneCharToken(c: char): Option<Token> {
    match c
    case '(' => Some(LParen)
    case ')' => Some(RParen)
    case '[' => Some(LBracket)
    case ']' => Some(RBracket)
    case ':' => Some(Colon)
    case '.' => Some(Dot)
    case ',' => Some(Comma)
    case '-' => Some(Dash)
    case '=' => Some(Cmp(Eq))
    case '<' => Some(Cmp(Lt))
    case '>' => Some(Cmp(Gt))
    case _ => None
  }

  predicate WordStart(m: TextModel, c: char) {
    m.isAlphabetic(c) || c == '_'
  }

  /** `N` and digits only. */
  predicate NodeRefLike(word: string) {
    |word| > 1 && word[0] == 'N' && AllDigits(word[1..])
  }

  function WordToken(m: TextModel, word: string): Result<Token, LexError> {
    if NodeRefLike(word) then
      match ParseU64(word[1..]) case Some(id) => Ok(NodeRef(id)) case None => Err(Panics(word))
    else
      var up := m.upper(word);
      if up == "TRUE" then Ok(BoolLit(true))
      else if up == "FALSE" then Ok(BoolLit(false))
      else if IsKeyword(up) then Ok(Keyword(up))
      else Ok(Ident(word))
  }

  predicate NotQuote(c: char) {
    c != '"'
  }

  function LexWord(m: TextModel, s: string): (r: Result<(seq<Token>, nat), LexError>)
    requires m.Laws() && s != "" && WordStart(m, s[0])
    ensures r.Ok? ==> 0 < r.value.1 <= |s|
  {
    var k := Span(m.WordChar, s);
    var tok :- WordToken(m, s[..k]);
    Ok(([tok], k))
  }

  /** A number at the front, with its point and fraction if it has one. */
  function LexNumber(m: TextModel, s: string): (r: Result<(seq<Token>, nat), LexError>)
    requires s != "" && IsDigit(s[0])
    ensures r.Ok? ==> 0 < r.value.1 <= |s|
  {
    var k := Span(IsDigit, s);
    if k < |s| && s[k] == '.' then
      var n := k + 1 + Span(IsDigit, s[k + 1..]);
      match m.parseFloat(s[..n]) case Some(f) => Ok(([FloatLit(f)], n)) case None => Err(BadFloat(s[..n]))
    else
      match ParseI64(s[..k]) case Some(i) => Ok(([IntLit(i)], k)) case None => Err(BadInteger(s[..k]))
  }

  /** The token at the front, if it is not white space, and how long it is. A minus sign is a dash
      before it could start a number. */
  function LexToken(m: TextModel, s: string): (r: Result<(seq<Token>, nat), LexError>)
    requires m.Laws() && s != ""
    ensures r.Ok? ==> 0 < r.value.1 <= |s|
  {
    var c := s[0];
    if m.isWhitespace(c) then Ok(([], 1))
    else if c == '"' then
      var k := Span(NotQuote, s[1..]);
      if k + 1 >= |s| then Err(Unterminated) else Ok(([StringLit(s[1..k + 1])], k + 2))
    else if TwoCharToken(s).Some? then Ok(([TwoCharToken(s).value], 2))
    else if OneCharToken(c).Some? then Ok(([OneCharToken(c).value], 1))
    else if IsDigit(c) then LexNumber(m, s)
    else if WordStart(m, c) then LexWord(m, s)
    else Err(BadChar(c))
  }

  function Lex(m: TextModel, s: string): Result<seq<Token>, LexError>
    requires m.Laws()
    decreases |s|
  {
    if s == "" then Ok([])
    else
      var (toks, n) :- LexToken(m, s);
      Prepend(toks, Lex(m, s[n..]))
  }

  function Prepend(toks: seq<Token>, r: Result<seq<Token>, LexError>): Result<seq<Token>, LexError> {
    var more :- r;
    Ok(toks + more)
  }

  lemma PrependTwice(a: seq<Token>, b: seq<Token>, r: Result<seq<Token>, LexError>)
    ensures Prepend([], r) == r && Prepend(a, Prepend(b, r)) == Prepend(a + b, r)
  {
    if r.Ok? {
      assert [] + r.value == r.value && a + (b + r.value) == a + b + r.value;
    }
  }

  /** `while pos < chars.len() && p(chars[pos]) { pos += 1; }` */
  method SkipWhile(p: char -> bool, chars: string, start: nat) returns (pos: nat)
    requires start <= |chars|
    ensures pos == start + Span(p, chars[start..]) && pos <= |chars|
  {
    pos := start;
    while pos < |chars| && p(chars[pos])
      invariant start <= pos <= |chars|
      invariant Span(p, chars[start..]) == pos - start + Span(p, chars[pos..])
    {
      assert chars[pos..][1..] == chars[pos + 1..];
      pos := pos + 1;
    }
  }

  /** The result of lexing at `pos`, with the length turned into the next position. */
  ghost function From(pos: nat, r: Result<(seq<Token>, nat), LexError>): Result<(seq<Token>, nat), LexError> {
    match r case Ok(p) => Ok((p.0, pos + p.1)) case Err(e) => Err(e)
  }

  method ReadNumber(m: TextModel, chars: string, start: nat) returns (r: Result<(seq<Token>, nat), LexError>)
    requires start < |chars| && IsDigit(chars[start])
    ensures r == From(start, LexNumber(m, chars[start..]))
  {
    hide ParseI64, Span;
    ghost var s := chars[start..];
    var pos := SkipWhile(IsDigit, chars, start);
    if pos < |chars| && chars[pos] == '.' {
      assert chars[pos + 1..] == s[pos - start + 1..];
      pos := SkipWhile(IsDigit, chars, pos + 1);
      assert chars[start..pos] == s[..pos - start];
      var f := m.parseFloat(chars[start..pos]);
      r := if f.Some? then Ok(([FloatLit(f.value)], pos)) else Err(BadFloat(chars[start..pos]));
    } else {
      assert chars[start..pos] == s[..pos - start];
      var i := ParseI64(chars[start..pos]);
      r := if i.Some? then Ok(([IntLit(i.value)], pos)) else Err(BadInteger(chars[start..pos]));
    }
  }

  method ReadString(m: TextModel, chars: string, start: nat) returns (r: Result<(seq<Token>, nat), LexError>)
    requires m.Laws() && start < |chars| && chars[start] == '"'
    ensures r == From(start, LexToken(m, chars[start..]))
  {
    hide Span, TwoCharToken, OneCharToken;
    ghost var s := chars[start..];
    var end := SkipWhile(NotQuote, chars, start + 1);
    assert chars[start + 1..] == s[1..];
    if end >= |chars| {
      return Err(Unterminated);
    }
    assert chars[start + 1..end] == s[1..end - start];
    r := Ok(([StringLit(chars[start + 1..end])], end + 1));
  }

  method ReadWord(m: TextModel, chars: string, start: nat) returns (r: Result<(seq<Token>, nat), LexError>)
    requires m.Laws() && start < |chars| && WordStart(m, chars[start])
    ensures r == From(start, LexWord(m, chars[start..]))
  {
    hide Span, TextModel.Laws, WordToken;
    var end := SkipWhile(m.WordChar, chars, start);
    assert chars[start..end] == chars[start..][..end - start];
    var tok :- WordToken(m, chars[start..end]);
    r := Ok(([tok], end));
  }

  method Read(m: TextModel, chars: string, pos: nat) returns (r: Result<(seq<Token>, nat), LexError>)
    requires m.Laws() && pos < |chars|
    ensures r == From(pos, LexToken(m, chars[pos..]))
  {
    hide TextModel.Laws, LexNumber, WordToken, OneCharToken, TwoCharToken, Span;
    ghost var s := chars[pos..];
    var c := chars[pos];
    if m.isWhitespace(c) {
      r := Ok(([], pos + 1));
    } else if c == '"' {
      r := ReadString(m, chars, pos);
    } else if TwoCharToken(chars[pos..]).Some? {
      r := Ok(([TwoCharToken(chars[pos..]).value], pos + 2));
    } else if OneCharToken(c).Some? {
      r := Ok(([OneCharToken(c).value], pos + 1));
    } else if IsDigit(c) {
      r := ReadNumber(m, chars, pos);
    } else if WordStart(m, c) {
      r := ReadWord(m, chars, pos);
    } else {
      r := Err(BadChar(c));
    }
  }

  method Tokenize(m: TextModel, chars: string) returns (r: Result<seq<Token>, LexError>)
    requires m.Laws()
    ensures r == Lex(m, chars)
  {
    hide TextModel.Laws, LexToken;
    var pos := 0;
    var tokens := [];
    PrependTwice([], [], Lex(m, chars));
    assert chars[0..] == chars;
    while pos < |chars|
      invariant pos <= |chars|
      invariant Lex(m, chars) == Prepend(tokens, Lex(m, chars[pos..]))
    {
      var read :- Read(m, chars, pos);
      PrependTwice(tokens, read.0, Lex(m, chars[read.1..]));
      assert chars[pos..][read.1 - pos..] == chars[read.1..];
      tokens := tokens + read.0;
      pos := read.1;
    }
    assert tokens + [] == tokens;
    r := Ok(tokens);
  }

  // ---- Parser ----

  datatype ParseError =
    | EndOfInput
    | Unexpected(token: Token)
    | LabelExpected
    | WeightNotANumber
    | BadLexeme(error: LexError)

  /** What was parsed and the tokens left. */
  type Parsed<+T> = Result<(T, seq<Token>), ParseError>

  function Next(ts: seq<Token>): Parsed<Token> {
    if ts == [] then Err(EndOfInput) else Ok((ts[0], ts[1..]))
  }

  function Expect(tok: Token, ts: seq<Token>): Parsed<()> {
    var (t, rest) :- Next(ts);
    if t == tok then Ok(((), rest)) else Err(Unexpected(t))
  }

  predicate Peek(tok: Token, ts: seq<Token>) {
    ts != [] && ts[0] == tok
  }

  function ParseOp(ts: seq<Token>): Parsed<Op> {
    var (t, rest) :- Next(ts);
    if t.Cmp? then Ok((t.op, rest)) else Err(Unexpected(t))
  }

  function LiteralOf(t: Token): Option<Value> {
    match t
    case StringLit(s) => Some(Text(s))
    case IntLit(i) => Some(Integer(i))
    case FloatLit(f) => Some(Float(f))
    case BoolLit(b) => Some(Boolean(b))
    case _ => None
  }

  function ParseValueLit(ts: seq<Token>): Parsed<Value> {
    var (t, rest) :- Next(ts);
    match LiteralOf(t) case Some(v) => Ok((v, rest)) case None => Err(Unexpected(t))
  }

  function ParseNodeRef(ts: seq<Token>): Parsed<NodeId> {
    var (t, rest) :- Next(ts);
    if t.NodeRef? then Ok((t.id, rest)) else Err(Unexpected(t))
  }

  function ParseIdent(ts: seq<Token>): Parsed<string> {
    var (t, rest) :- Next(ts);
    if t.Ident? then Ok((t.name, rest)) else Err(Unexpected(t))
  }

  /** The lookahead: a dash after the first closed parenthesis, before WHERE or RETURN. */
  function IsRelPattern(ts: seq<Token>, depth: int, closed: bool): bool {
    if ts == [] then false
    else match ts[0]
      case LParen => IsRelPattern(ts[1..], depth + 1, closed)
      case RParen => IsRelPattern(ts[1..], depth - 1, closed || depth == 1)
      case Dash => closed || IsRelPattern(ts[1..], depth, closed)
      case Keyword(k) => if k == "WHERE" || k == "RETURN" then false else IsRelPattern(ts[1..], depth, closed)
      case _ => IsRelPattern(ts[1..], depth, closed)
  }

  /** Opening less closing parentheses. */
  function Balance(ts: seq<Token>): int {
    if ts == [] then 0
    else (if ts[0] == LParen then 1 else if ts[0] == RParen then -1 else 0) + Balance(ts[1..])
  }

  predicate StopsMatch(t: Token) {
    t == Keyword("WHERE") || t == Keyword("RETURN")
  }

  /** A dash before any WHERE or RETURN. */
  ghost predicate DashAt(ts: seq<Token>, j: nat) {
    j < |ts| && ts[j] == Dash && forall i :: 0 <= i < j ==> !StopsMatch(ts[i])
  }

  /** The parenthesis that closes at `i` leaves none open, with `depth` open before the tokens. */
  ghost predicate ClosesAt(ts: seq<Token>, depth: int, i: nat) {
    i < |ts| && ts[i] == RParen && depth + Balance(ts[..i + 1]) == 0
  }

  ghost predicate DashAfterClose(ts: seq<Token>, depth: int, closed: bool) {
    exists j: nat :: DashAt(ts, j) && (closed || exists i: nat :: i < j && ClosesAt(ts, depth, i))
  }

  /** A match is for edges when a dash comes after a parenthesis that leaves none open. */
  lemma {:induction false} RelPatternTold(ts: seq<Token>, depth: int, closed: bool)
    ensures IsRelPattern(ts, depth, closed) <==> DashAfterClose(ts, depth, closed)
    decreases |ts|
  {
    if ts != [] {
      var rest, t := ts[1..], ts[0];
      var depth' := depth + Balance([t]);
      var closed' := closed || (t == RParen && depth' == 0);
      RelPatternTold(rest, depth', closed');
      OneMore(ts, depth, closed, depth', closed');
    }
  }

  lemma DashShifts(ts: seq<Token>, j: nat)
    requires ts != []
    ensures DashAt(ts, j + 1) <==> !StopsMatch(ts[0]) && DashAt(ts[1..], j)
  {
    var rest := ts[1..];
    if DashAt(ts, j + 1) {
      assert !StopsMatch(ts[0]);
      assert forall i :: 0 <= i < j ==> rest[i] == ts[i + 1];
    }
  }

  lemma CloseShifts(ts: seq<Token>, depth: int, i: nat)
    requires ts != []
    ensures ClosesAt(ts, depth, i + 1) <==> ClosesAt(ts[1..], depth + Balance([ts[0]]), i)
    ensures ClosesAt(ts, depth, 0) <==> ts[0] == RParen && depth + Balance([ts[0]]) == 0
  {
    assert ts[..1] == [ts[0]];
    if i + 1 < |ts| {
      assert ts[..i + 2][1..] == ts[1..][..i + 1];
    }
  }

  lemma OneMore(ts: seq<Token>, depth: int, closed: bool, depth': int, closed': bool)
    requires ts != [] && depth' == depth + Balance([ts[0]]) && closed' == (closed || (ts[0] == RParen && depth' == 0))
    ensures DashAfterClose(ts, depth, closed) <==>
            (ts[0] == Dash && closed) || (!StopsMatch(ts[0]) && DashAfterClose(ts[1..], depth', closed'))
  {
    hide StopsMatch, Balance;
    var rest := ts[1..];
    if closed && ts[0] == Dash {
      assert DashAt(ts, 0);
    }
    if j: nat :| DashAt(ts, j) && (closed || exists i: nat :: i < j && ClosesAt(ts, depth, i)) {
      if j > 0 {
        DashShifts(ts, j - 1);
        if !closed' {
          var i: nat :| i < j && ClosesAt(ts, depth, i);
          CloseShifts(ts, depth, if i > 0 then i - 1 else 0);
          assert ClosesAt(rest, depth', i - 1);
        }
        assert DashAt(rest, j - 1);
      }
    }
    if !StopsMatch(ts[0]) && DashAfterClose(rest, depth', closed') {
      var j: nat :| DashAt(rest, j) && (closed' || exists i: nat :: i < j && ClosesAt(rest, depth', i));
      DashShifts(ts, j);
      if i: nat :| i < j && ClosesAt(rest, depth', i) {
        CloseShifts(ts, depth, i);
        assert ClosesAt(ts, depth, i + 1);
      } else {
        CloseShifts(ts, depth, 0);
        assert closed || ClosesAt(ts, depth, 0);
      }
      assert DashAt(ts, j + 1);
    }
  }

  /** An optional variable and an optional label. */
  function ParseNameAndLabel(ts: seq<Token>): Parsed<Option<string>> {
    var rest := if ts != [] && ts[0].Ident? then ts[1..] else ts;
    if Peek(Colon, rest) then
      if |rest| >= 2 && rest[1].Ident? then Ok((Some(rest[1].name), rest[2..])) else Err(LabelExpected)
    else Ok((None, rest))
  }

  function ParseNodePattern(ts: seq<Token>): Parsed<Option<string>> {
    var (_, r1) :- Expect(LParen, ts);
    var (l, r2) :- ParseNameAndLabel(r1);
    var (_, r3) :- Expect(RParen, r2);
    Ok((l, r3))
  }

  /** `var . field op value`; the variable may be any token. */
  function ParseCondition(ts: seq<Token>): (r: Parsed<Condition>)
    ensures r.Ok? ==> |r.value.1| < |ts|
  {
    var (_, r1) :- Next(ts);
    var (_, r2) :- Expect(Dot, r1);
    var (field, r3) :- ParseIdent(r2);
    var (op, r4) :- ParseOp(r3);
    var (value, r5) :- ParseValueLit(r4);
    Ok((Condition(field, op, value), r5))
  }

  const AND := Keyword("AND")

  function NodeConditions(f: NodeFilter, ts: seq<Token>): Parsed<NodeFilter>
    decreases |ts|
  {
    var (c, rest) :- ParseCondition(ts);
    var f' := f.(conditions := f.conditions + [c]);
    if Peek(AND, rest) then NodeConditions(f', rest[1..]) else Ok((f', rest))
  }

  /** A condition on the key `weight` is a weight condition. */
  function AddCondition(m: TextModel, f: EdgeFilter, c: Condition): Result<EdgeFilter, ParseError> {
    if !EqIgnoreAsciiCase(c.key, "weight") then Ok(f.(conditions := f.conditions + [c]))
    else match c.value
      case Float(w) => Ok(f.(weight := Some(WeightCondition(c.op, w))))
      case Integer(i) => Ok(f.(weight := Some(WeightCondition(c.op, m.ofInt(i)))))
      case _ => Err(WeightNotANumber)
  }

  /** The key `weight`, in any case, with a number sets the weight condition, an integer as the float it
      converts to; with anything else it is an error. Other keys are conditions on properties. */
  lemma WeightReads(m: TextModel, f: EdgeFilter, key: string, op: Op, v: Value)
    ensures var r := AddCondition(m, f, Condition(key, op, v));
            if AsciiUpper(key) != "WEIGHT" then
              r == Ok(EdgeFilter(f.lbl, f.weight, f.conditions + [Condition(key, op, v)]))
            else if v.Integer? then r == Ok(EdgeFilter(f.lbl, Some(WeightCondition(op, m.ofInt(v.i))), f.conditions))
            else if v.Float? then r == Ok(EdgeFilter(f.lbl, Some(WeightCondition(op, v.f)), f.conditions))
            else r == Err(WeightNotANumber)
  {
    assert AsciiUpper("weight") == "WEIGHT";
  }

  function EdgeConditions(m: TextModel, f: EdgeFilter, ts: seq<Token>): Parsed<EdgeFilter>
    decreases |ts|
  {
    var (c, rest) :- ParseCondition(ts);
    var f' :- AddCondition(m, f, c);
    if Peek(AND, rest) then EdgeConditions(m, f', rest[1..]) else Ok((f', rest))
  }

  /** Drops everything up to a keyword or the end. */
  function SkipReturnList(ts: seq<Token>): seq<Token> {
    if ts == [] || ts[0].Keyword? then ts else SkipReturnList(ts[1..])
  }

  function ParseReturn(ts: seq<Token>): Parsed<()> {
    var (_, rest) :- Expect(Keyword("RETURN"), ts);
    Ok(((), SkipReturnList(rest)))
  }

  function ParseNodeMatch(ts: seq<Token>): Parsed<QueryCommand> {
    var (l, r1) :- ParseNodePattern(ts);
    var f := NodeFilter(l, []);
    var (f', r2) :- if Peek(Keyword("WHERE"), r1) then NodeConditions(f, r1[1..]) else Ok((f, r1));
    var (_, r3) :- ParseReturn(r2);
    Ok((MatchNodes(f'), r3))
  }

  function ParseRelPattern(ts: seq<Token>): Parsed<Option<string>> {
    var (_, r1) :- ParseNodePattern(ts);
    var (_, r2) :- Expect(Dash, r1);
    var (_, r3) :- Expect(LBracket, r2);
    var (l, r4) :- ParseNameAndLabel(r3);
    var (_, r5) :- Expect(RBracket, r4);
    var (_, r6) :- Expect(Arrow, r5);
    var (_, r7) :- ParseNodePattern(r6);
    Ok((l, r7))
  }

  function ParseRelMatch(m: TextModel, ts: seq<Token>): Parsed<QueryCommand> {
    var (l, r1) :- ParseRelPattern(ts);
    var f := EdgeFilter(l, None, []);
    var (f', r2) :- if Peek(Keyword("WHERE"), r1) then EdgeConditions(m, f, r1[1..]) else Ok((f, r1));
    var (_, r3) :- ParseReturn(r2);
    Ok((MatchEdges(f'), r3))
  }

  function ParseMatch(m: TextModel, ts: seq<Token>): Parsed<QueryCommand> {
    if IsRelPattern(ts, 0, false) then ParseRelMatch(m, ts) else ParseNodeMatch(ts)
  }

  function ParseTraverse(ts: seq<Token>): Parsed<QueryCommand> {
    var (algo, r1) :- Next(ts);
    if algo != Keyword("BFS") && algo != Keyword("DFS") then Err(Unexpected(algo))
    else
      var (_, r2) :- Expect(Keyword("FROM"), r1);
      var (start, r3) :- ParseNodeRef(r2);
      Ok((Traverse(if algo == Keyword("BFS") then Bfs else Dfs, start), r3))
  }

  function ParsePath(ts: seq<Token>): Parsed<QueryCommand> {
    var (_, r1) :- Expect(Keyword("FROM"), ts);
    var (start, r2) :- ParseNodeRef(r1);
    var (_, r3) :- Expect(Keyword("TO"), r2);
    var (goal, r4) :- ParseNodeRef(r3);
    Ok((ShortestPath(start, goal), r4))
  }

  function ParseCount(ts: seq<Token>): Parsed<QueryCommand> {
    var (what, rest) :- Next(ts);
    if what == Keyword("NODES") then Ok((CountNodes, rest))
    else if what == Keyword("EDGES") then Ok((CountEdges, rest))
    else Err(Unexpected(what))
  }

  function ParseTokens(m: TextModel, ts: seq<Token>): Parsed<QueryCommand> {
    var (kw, rest) :- Next(ts);
    if kw == Keyword("MATCH") then ParseMatch(m, rest)
    else if kw == Keyword("TRAVERSE") then ParseTraverse(rest)
    else if kw == Keyword("PATH") then ParsePath(rest)
    else if kw == Keyword("COUNT") then ParseCount(rest)
    else Err(Unexpected(kw))
  }

  ghost predicate Agrees<T>(r: Result<T, ParseError>, left: seq<Token>, p: Parsed<T>) {
    match p
    case Ok(v) => r == Ok(v.0) && left == v.1
    case Err(e) => r == Err(e)
  }

  class Parser {
    const m: TextModel
    const tokens: seq<Token>
    var pos: nat

    constructor (m: TextModel, tokens: seq<Token>)
      ensures this.m == m && Rest() == tokens
    {
      this.m, this.tokens, pos := m, tokens, 0;
    }

    /** The tokens not consumed yet. */
    ghost function Rest(): seq<Token>
      reads this
    {
      if pos <= |tokens| then tokens[pos..] else []
    }

    predicate At(tok: Token)
      reads this
      ensures At(tok) <==> Peek(tok, Rest())
    {
      pos < |tokens| && tokens[pos] == tok
    }

    predicate AtIdent()
      reads this
      ensures AtIdent() <==> Rest() != [] && Rest()[0].Ident?
    {
      pos < |tokens| && tokens[pos].Ident?
    }

    method Advance() returns (r: Result<Token, ParseError>)
      modifies this
      ensures Agrees(r, Rest(), Next(old(Rest())))
    {
      r := if pos < |tokens| then Ok(tokens[pos]) else Err(EndOfInput);
      pos := pos + 1;
    }

    /** `self.next()` on a token already looked at. */
    method Skip()
      requires Rest() != []
      modifies this
      ensures Rest() == old(Rest())[1..]
    {
      pos := pos + 1;
    }

    method ExpectToken(tok: Token) returns (r: Result<(), ParseError>)
      modifies this
      ensures Agrees(r, Rest(), Expect(tok, old(Rest())))
    {
      var t :- Advance();
      r := if t == tok then Ok(()) else Err(Unexpected(t));
    }

    method Operator() returns (r: Result<Op, ParseError>)
      modifies this
      ensures Agrees(r, Rest(), ParseOp(old(Rest())))
    {
      var t :- Advance();
      r := if t.Cmp? then Ok(t.op) else Err(Unexpected(t));
    }

    method ValueLit() returns (r: Result<Value, ParseError>)
      modifies this
      ensures Agrees(r, Rest(), ParseValueLit(old(Rest())))
    {
      var t :- Advance();
      var v := LiteralOf(t);
      r := if v.Some? then Ok(v.value) else Err(Unexpected(t));
    }

    method NodeReference() returns (r: Result<NodeId, ParseError>)
      modifies this
      ensures Agrees(r, Rest(), ParseNodeRef(old(Rest())))
    {
      var t :- Advance();
      r := if t.NodeRef? then Ok(t.id) else Err(Unexpected(t));
    }

    method Identifier() returns (r: Result<string, ParseError>)
      modifies this
      ensures Agrees(r, Rest(), ParseIdent(old(Rest())))
    {
      var t :- Advance();
      r := if t.Ident? then Ok(t.name) else Err(Unexpected(t));
    }

    method IsRelationshipPattern() returns (r: bool)
      ensures r == IsRelPattern(Rest(), 0, false)
    {
      var depth := 0;
      var foundClose := false;
      var i := pos;
      while i < |tokens|
        invariant i <= |tokens| || i == pos
        invariant IsRelPattern(Rest(), 0, false)
               == IsRelPattern(if i <= |tokens| then tokens[i..] else [], depth, foundClose)
      {
        assert tokens[i..][1..] == tokens[i + 1..];
        match tokens[i] {
          case LParen => depth := depth + 1;
          case RParen =>
            depth := depth - 1;
            if depth == 0 {
              foundClose := true;
            }
          case Dash =>
            if foundClose {
              return true;
            }
          case Keyword(k) =>
            if k == "WHERE" || k == "RETURN" {
              return false;
            }
          case _ =>
        }
        i := i + 1;
      }
      r := false;
    }

    method NameAndLabel() returns (r: Result<Option<string>, ParseError>)
      modifies this
      ensures Agrees(r, Rest(), ParseNameAndLabel(old(Rest())))
    {
      if AtIdent() {
        Skip();
      }
      if At(Colon) {
        Skip();
        if AtIdent() {
          r := Ok(Some(tokens[pos].name));
          Skip();
        } else {
          r := Err(LabelExpected);
        }
      } else {
        r := Ok(None);
      }
    }

    method NodePattern() returns (r: Result<Option<string>, ParseError>)
      modifies this
      ensures Agrees(r, Rest(), ParseNodePattern(old(Rest())))
    {
      hide Rest, Expect, ParseNameAndLabel;
      var _ :- ExpectToken(LParen);
      var l :- NameAndLabel();
      var _ :- ExpectToken(RParen);
      r := Ok(l);
    }

    method WhereCondition() returns (r: Result<Condition, ParseError>)
      modifies this
      ensures Agrees(r, Rest(), ParseCondition(old(Rest())))
    {
      hide Rest, Next, Expect, ParseIdent, ParseOp, ParseValueLit;
      var _ :- Advance();
      var _ :- ExpectToken(Dot);
      var field :- Identifier();
      var op :- Operator();
      var value :- ValueLit();
      r := Ok(Condition(field, op, value));
    }

    method ApplyNodeConditions(filter: NodeFilter) returns (r: Result<NodeFilter, ParseError>)
      modifies this
      ensures Agrees(r, Rest(), NodeConditions(filter, old(Rest())))
    {
      hide Rest, ParseCondition;
      var f := filter;
      while true
        invariant NodeConditions(f, Rest()) == NodeConditions(filter, old(Rest()))
        decreases |Rest()|
      {
        var c :- WhereCondition();
        f := f.(conditions := f.conditions + [c]);
        if At(AND) {
          Skip();
        } else {
          break;
        }
      }
      r := Ok(f);
    }

    method ApplyEdgeConditions(filter: EdgeFilter) returns (r: Result<EdgeFilter, ParseError>)
      modifies this
      ensures Agrees(r, Rest(), EdgeConditions(m, filter, old(Rest())))
    {
      hide Rest, ParseCondition, AddCondition;
      var f := filter;
      while true
        invariant EdgeConditions(m, f, Rest()) == EdgeConditions(m, filter, old(Rest()))
        decreases |Rest()|
      {
        var c :- WhereCondition();
        f :- AddCondition(m, f, c);
        if At(AND) {
          Skip();
        } else {
          break;
        }
      }
      r := Ok(f);
    }

    method Return() returns (r: Result<(), ParseError>)
      modifies this
      ensures Agrees(r, Rest(), ParseReturn(old(Rest())))
    {
      var _ :- ExpectToken(Keyword("RETURN"));
      ghost var list := Rest();
      while pos < |tokens| && !tokens[pos].Keyword?
        invariant SkipReturnList(Rest()) == SkipReturnList(list)
        decreases |Rest()|
      {
        pos := pos + 1;
      }
      r := Ok(());
    }

    method NodeMatch() returns (r: Result<QueryCommand, ParseError>)
      modifies this
      ensures Agrees(r, Rest(), ParseNodeMatch(old(Rest())))
    {
      hide Rest, ParseNodePattern, NodeConditions, ParseReturn;
      var l :- NodePattern();
      var f := NodeFilter(l, []);
      if At(Keyword("WHERE")) {
        Skip();
        f :- ApplyNodeConditions(f);
      }
      var _ :- Return();
      r := Ok(MatchNodes(f));
    }

    method RelPattern() returns (r: Result<Option<string>, ParseError>)
      modifies this
      ensures Agrees(r, Rest(), ParseRelPattern(old(Rest())))
    {
      hide Rest, ParseNodePattern, ParseNameAndLabel, Expect;
      var _ :- NodePattern();
      var _ :- ExpectToken(Dash);
      var _ :- ExpectToken(LBracket);
      var l :- NameAndLabel();
      var _ :- ExpectToken(RBracket);
      var _ :- ExpectToken(Arrow);
      var _ :- NodePattern();
      r := Ok(l);
    }

    method RelMatch() returns (r: Result<QueryCommand, ParseError>)
      modifies this
      ensures Agrees(r, Rest(), ParseRelMatch(m, old(Rest())))
    {
      hide Rest, ParseRelPattern, EdgeConditions, ParseReturn;
      var l :- RelPattern();
      var f := EdgeFilter(l, None, []);
      if At(Keyword("WHERE")) {
        Skip();
        f :- ApplyEdgeConditions(f);
      }
      var _ :- Return();
      r := Ok(MatchEdges(f));
    }

    method Match() returns (r: Result<QueryCommand, ParseError>)
      modifies this
      ensures Agrees(r, Rest(), ParseMatch(m, old(Rest())))
    {
      hide Rest, ParseRelMatch, ParseNodeMatch, IsRelPattern;
      var rel := IsRelationshipPattern();
      if rel {
        r := RelMatch();
      } else {
        r := NodeMatch();
      }
    }

    method Traversal() returns (r: Result<QueryCommand, ParseError>)
      modifies this
      ensures Agrees(r, Rest(), ParseTraverse(old(Rest())))
    {
      hide Rest, Next, Expect, ParseNodeRef;
      var algo :- Advance();
      if algo != Keyword("BFS") && algo != Keyword("DFS") {
        return Err(Unexpected(algo));
      }
      var _ :- ExpectToken(Keyword("FROM"));
      var start :- NodeReference();
      r := Ok(Traverse(if algo == Keyword("BFS") then Bfs else Dfs, start));
    }

    method Path() returns (r: Result<QueryCommand, ParseError>)
      modifies this
      ensures Agrees(r, Rest(), ParsePath(old(Rest())))
    {
      hide Rest, Expect, ParseNodeRef;
      var _ :- ExpectToken(Keyword("FROM"));
      var start :- NodeReference();
      var _ :- ExpectToken(Keyword("TO"));
      var goal :- NodeReference();
      r := Ok(ShortestPath(start, goal));
    }

    method Counting() returns (r: Result<QueryCommand, ParseError>)
      modifies this
      ensures Agrees(r, Rest(), ParseCount(old(Rest())))
    {
      hide Rest, Next;
      var what :- Advance();
      r := if what == Keyword("NODES") then Ok(CountNodes)
           else if what == Keyword("EDGES") then Ok(CountEdges)
           else Err(Unexpected(what));
    }

    method Parse() returns (r: Result<QueryCommand, ParseError>)
      modifies this
      ensures Agrees(r, Rest(), ParseTokens(m, old(Rest())))
    {
      hide Rest, Next, ParseMatch, ParseTraverse, ParsePath, ParseCount;
      var kw :- Advance();
      if kw == Keyword("MATCH") {
        r := Match();
      } else if kw == Keyword("TRAVERSE") {
        r := Traversal();
      } else if kw == Keyword("PATH") {
        r := Path();
      } else if kw == Keyword("COUNT") {
        r := Counting();
      } else {
        r := Err(Unexpected(kw));
      }
    }
  }

  /** What a query text means. */
  function Meaning(m: TextModel, input: string): Result<QueryCommand, ParseError>
    requires m.Laws()
  {
    match Lex(m, input)
    case Ok(ts) => (match ParseTokens(m, ts) case Ok(p) => Ok(p.0) case Err(e) => Err(e))
    case Err(e) => Err(BadLexeme(e))
  }

  method ParseQuery(m: TextModel, input: string) returns (r: Result<QueryCommand, ParseError>)
    requires m.Laws()
    ensures r == Meaning(m, input)
  {
    hide Lex, ParseTokens, TextModel.Laws;
    var toks := Tokenize(m, input);
    if toks.Err? {
      return Err(BadLexeme(toks.error));
    }
    var parser := new Parser(m, toks.value);
    r := parser.Parse();
  }

  // ---- Printer ----

  function LiteralToken(v: Value): Token
    requires v != Null
  {
    match v
    case Text(s) => StringLit(s)
    case Integer(i) => IntLit(i)
    case Float(f) => FloatLit(f)
    case Boolean(b) => BoolLit(b)
  }

  ghost predicate NoNulls(cs: seq<Condition>) {
    forall i :: 0 <= i < |cs| ==> cs[i].value != Null
  }

  function LabelTokens(l: Option<string>): seq<Token> {
    if l.Some? then [Colon, Ident(l.value)] else []
  }

  function ConditionTokens(v: string, c: Condition): seq<Token>
    requires c.value != Null
  {
    [Ident(v), Dot, Ident(c.key), Cmp(c.op), LiteralToken(c.value)]
  }

  function ChainTokens(v: string, cs: seq<Condition>): seq<Token>
    requires cs != [] && NoNulls(cs)
  {
    ConditionTokens(v, cs[0]) + if |cs| == 1 then [] else [AND] + ChainTokens(v, cs[1..])
  }

  function WhereTokens(v: string, cs: seq<Condition>): seq<Token>
    requires NoNulls(cs)
  {
    if cs == [] then [] else [Keyword("WHERE")] + ChainTokens(v, cs)
  }

  function ReturnTokens(v: string): seq<Token> {
    [Keyword("RETURN"), Ident(v)]
  }

  /** A weight condition is written like a property named `weight`. */
  function EdgeConditionList(f: EdgeFilter): seq<Condition> {
    (if f.weight.Some? then [Condition("weight", f.weight.value.op, Float(f.weight.value.value))] else [])
      + f.conditions
  }

  /** The commands the language can write: no lookups by id, and no comparison with null. */
  ghost predicate Expressible(command: QueryCommand) {
    match command
    case MatchNodes(f) => NoNulls(f.conditions)
    case MatchEdges(f) => NoNulls(f.conditions)
    case GetNode(_) => false
    case GetEdge(_) => false
    case _ => true
  }

  lemma EdgeListNoNulls(f: EdgeFilter)
    requires NoNulls(f.conditions)
    ensures NoNulls(EdgeConditionList(f))
  {
  }

  function Print(v: string, command: QueryCommand): seq<Token>
    requires Expressible(command)
  {
    match command
    case MatchNodes(f) =>
      [Keyword("MATCH"), LParen, Ident(v)] + LabelTokens(f.lbl) + [RParen]
      + WhereTokens(v, f.conditions) + ReturnTokens(v)
    case MatchEdges(f) =>
      EdgeListNoNulls(f);
      [Keyword("MATCH"), LParen, RParen, Dash, LBracket, Ident(v)] + LabelTokens(f.lbl)
      + [RBracket, Arrow, LParen, RParen]
      + WhereTokens(v, EdgeConditionList(f)) + ReturnTokens(v)
    case Traverse(kind, start) =>
      [Keyword("TRAVERSE"), Keyword(if kind.Bfs? then "BFS" else "DFS"), Keyword("FROM"), NodeRef(start)]
    case ShortestPath(from, goal) => [Keyword("PATH"), Keyword("FROM"), NodeRef(from), Keyword("TO"), NodeRef(goal)]
    case CountNodes => [Keyword("COUNT"), Keyword("NODES")]
    case CountEdges => [Keyword("COUNT"), Keyword("EDGES")]
  }

  // ---- The parser undoes the printer ----

  lemma ConditionReads(v: string, c: Condition, rest: seq<Token>)
    requires c.value != Null
    ensures ParseCondition(ConditionTokens(v, c) + rest) == Ok((c, rest))
  {
    var ts := ConditionTokens(v, c) + rest;
    assert ts[1..][1..][1..][1..][1..] == rest;
  }

  lemma {:induction false} NodeChainReads(v: string, f: NodeFilter, cs: seq<Condition>, rest: seq<Token>)
    requires cs != [] && NoNulls(cs) && !Peek(AND, rest)
    ensures NodeConditions(f, ChainTokens(v, cs) + rest) == Ok((f.(conditions := f.conditions + cs), rest))
    decreases |cs|
  {
    hide ParseCondition, ConditionTokens;
    var more := if |cs| == 1 then rest else [AND] + ChainTokens(v, cs[1..]) + rest;
    assert ChainTokens(v, cs) + rest == ConditionTokens(v, cs[0]) + more;
    ConditionReads(v, cs[0], more);
    assert f.conditions + [cs[0]] + cs[1..] == f.conditions + cs;
    if |cs| > 1 {
      assert more[1..] == ChainTokens(v, cs[1..]) + rest;
      NodeChainReads(v, f.(conditions := f.conditions + [cs[0]]), cs[1..], rest);
    } else {
      assert cs == [cs[0]];
    }
  }

  function AddAll(m: TextModel, f: EdgeFilter, cs: seq<Condition>): Result<EdgeFilter, ParseError>
    decreases |cs|
  {
    if cs == [] then Ok(f)
    else
      var f' :- AddCondition(m, f, cs[0]);
      AddAll(m, f', cs[1..])
  }

  lemma {:induction false} EdgeChainReads(m: TextModel, v: string, f: EdgeFilter, cs: seq<Condition>, rest: seq<Token>)
    requires cs != [] && NoNulls(cs) && !Peek(AND, rest)
    ensures EdgeConditions(m, f, ChainTokens(v, cs) + rest)
         == match AddAll(m, f, cs) case Ok(f') => Ok((f', rest)) case Err(e) => Err(e)
    decreases |cs|
  {
    hide ParseCondition, ConditionTokens, AddCondition;
    var more := if |cs| == 1 then rest else [AND] + (ChainTokens(v, cs[1..]) + rest);
    assert ChainTokens(v, cs) + rest == ConditionTokens(v, cs[0]) + more;
    ConditionReads(v, cs[0], more);
    var next := AddCondition(m, f, cs[0]);
    if |cs| == 1 {
      assert cs[1..] == [];
    } else if next.Ok? {
      assert more[1..] == ChainTokens(v, cs[1..]) + rest;
      EdgeChainReads(m, v, next.value, cs[1..], rest);
    }
  }

  ghost predicate WeightKey(c: Condition) {
    EqIgnoreAsciiCase(c.key, "weight")
  }

  ghost predicate NoWeightKeys(cs: seq<Condition>) {
    forall i :: 0 <= i < |cs| ==> !WeightKey(cs[i])
  }

  /** Conditions come through unchanged exactly when none has the key `weight`. */
  lemma {:induction false} AddAllKeeps(m: TextModel, f: EdgeFilter, cs: seq<Condition>)
    ensures AddAll(m, f, cs) == Ok(f.(conditions := f.conditions + cs)) <==> NoWeightKeys(cs)
    ensures AddAll(m, f, cs).Ok? ==> |AddAll(m, f, cs).value.conditions| <= |f.conditions| + |cs|
    ensures AddAll(m, f, cs).Ok? && !NoWeightKeys(cs) ==>
            |AddAll(m, f, cs).value.conditions| < |f.conditions| + |cs|
    decreases |cs|
  {
    if cs == [] {
      assert f.conditions + [] == f.conditions;
    } else {
      var next := AddCondition(m, f, cs[0]);
      assert f.conditions + [cs[0]] + cs[1..] == f.conditions + cs;
      assert NoWeightKeys(cs) <==> !WeightKey(cs[0]) && NoWeightKeys(cs[1..]) by {
        if !WeightKey(cs[0]) && NoWeightKeys(cs[1..]) {
          forall i | 0 <= i < |cs| ensures !WeightKey(cs[i]) {
            assert i > 0 ==> cs[i] == cs[1..][i - 1];
          }
        }
      }
      if next.Ok? {
        AddAllKeeps(m, next.value, cs[1..]);
      }
    }
  }

  lemma EdgeListReads(m: TextModel, f: EdgeFilter)
    ensures AddAll(m, EdgeFilter(f.lbl, None, []), EdgeConditionList(f)) == Ok(f) <==> NoWeightKeys(f.conditions)
  {
    var start := EdgeFilter(f.lbl, None, []);
    assert [] + f.conditions == f.conditions;
    if f.weight.Some? {
      var cs := EdgeConditionList(f);
      assert cs[1..] == f.conditions;
      AddAllKeeps(m, start.(weight := f.weight), f.conditions);
    } else {
      assert EdgeConditionList(f) == f.conditions;
      AddAllKeeps(m, start, f.conditions);
    }
  }

  lemma NameReads(v: string, l: Option<string>, rest: seq<Token>)
    requires rest != [] && rest[0] != Colon
    ensures ParseNameAndLabel([Ident(v)] + LabelTokens(l) + rest) == Ok((l, rest))
  {
    var ts := [Ident(v)] + LabelTokens(l) + rest;
    assert ts[1..] == LabelTokens(l) + rest;
    if l.Some? {
      assert ts[1..][2..] == rest;
    }
  }

  lemma ExpectReads(tok: Token, rest: seq<Token>)
    ensures Expect(tok, [tok] + rest) == Ok(((), rest))
  {
  }

  lemma ReturnReads(v: string)
    ensures ParseReturn(ReturnTokens(v)) == Ok(((), []))
  {
    ExpectReads(Keyword("RETURN"), [Ident(v)]);
    assert ReturnTokens(v) == [Keyword("RETURN")] + [Ident(v)];
    assert SkipReturnList([Ident(v)]) == SkipReturnList([]);
  }

  lemma NodePatternReads(v: string, l: Option<string>, tail: seq<Token>)
    ensures ParseNodePattern([LParen, Ident(v)] + LabelTokens(l) + [RParen] + tail) == Ok((l, tail))
  {
    hide ParseNameAndLabel, LabelTokens, Expect;
    var named := [Ident(v)] + LabelTokens(l) + ([RParen] + tail);
    assert [LParen, Ident(v)] + LabelTokens(l) + [RParen] + tail == [LParen] + named;
    ExpectReads(LParen, named);
    NameReads(v, l, [RParen] + tail);
    ExpectReads(RParen, tail);
  }

  /** The tokens from WHERE on, or from RETURN on when there is no condition. */
  lemma NodeWhereReads(v: string, f: NodeFilter, cs: seq<Condition>, ret: seq<Token>)
    requires NoNulls(cs) && !Peek(AND, ret) && !Peek(Keyword("WHERE"), ret) && f.conditions == []
    ensures var r1 := WhereTokens(v, cs) + ret;
            (if Peek(Keyword("WHERE"), r1) then NodeConditions(f, r1[1..]) else Ok((f, r1)))
            == Ok((f.(conditions := cs), ret))
  {
    hide NodeConditions, ChainTokens;
    var r1 := WhereTokens(v, cs) + ret;
    assert [] + cs == cs;
    if cs != [] {
      assert r1[1..] == ChainTokens(v, cs) + ret;
      NodeChainReads(v, f, cs, ret);
    } else {
      assert r1 == ret;
    }
  }

  lemma WhereOrReturn(v: string, cs: seq<Condition>)
    requires NoNulls(cs)
    ensures var tail := WhereTokens(v, cs) + ReturnTokens(v);
            tail != [] && (tail[0] == Keyword("WHERE") || tail[0] == Keyword("RETURN"))
  {
  }

  lemma NodeMatchReads(m: TextModel, v: string, f: NodeFilter)
    requires NoNulls(f.conditions)
    ensures ParseTokens(m, Print(v, MatchNodes(f))) == Ok((MatchNodes(f), []))
  {
    hide NodeConditions, ParseNodePattern, ParseReturn, ParseRelMatch, WhereTokens, IsRelPattern, LabelTokens, NoNulls;
    var tail := WhereTokens(v, f.conditions) + ReturnTokens(v);
    var ts := [LParen, Ident(v)] + LabelTokens(f.lbl) + [RParen] + tail;
    assert Print(v, MatchNodes(f)) == [Keyword("MATCH")] + ts;
    assert ([Keyword("MATCH")] + ts)[1..] == ts;
    WhereOrReturn(v, f.conditions);
    NotRelPattern(v, f.lbl, tail);
    NodePatternReads(v, f.lbl, tail);
    NodeWhereReads(v, NodeFilter(f.lbl, []), f.conditions, ReturnTokens(v));
    ReturnReads(v);
  }

  /** After a node pattern, WHERE or RETURN ends the lookahead. */
  lemma NotRelPattern(v: string, l: Option<string>, tail: seq<Token>)
    requires tail != [] && (tail[0] == Keyword("WHERE") || tail[0] == Keyword("RETURN"))
    ensures !IsRelPattern([LParen, Ident(v)] + LabelTokens(l) + [RParen] + tail, 0, false)
  {
    var ts := [LParen, Ident(v)] + LabelTokens(l) + [RParen] + tail;
    var closing := [RParen] + tail;
    assert closing[1..] == tail;
    assert !IsRelPattern(closing, 1, false);
    if l.Some? {
      assert ts[1..][1..][1..][1..] == closing;
      assert IsRelPattern(ts[1..][1..], 1, false) == IsRelPattern(ts[1..][1..][1..], 1, false);
      assert IsRelPattern(ts[1..][1..][1..], 1, false) == IsRelPattern(closing, 1, false);
    } else {
      assert ts[1..][1..] == closing;
    }
  }

  lemma RelPatternReads(v: string, l: Option<string>, tail: seq<Token>)
    ensures var end := [RBracket, Arrow, LParen, RParen] + tail;
            var ts := [LParen, RParen, Dash, LBracket, Ident(v)] + LabelTokens(l) + end;
            ParseRelPattern(ts) == Ok((l, tail)) && IsRelPattern(ts, 0, false)
  {
    hide ParseNameAndLabel, LabelTokens, Expect, ParseNodePattern;
    var t6 := [LParen, RParen] + tail;
    var t5 := [Arrow] + t6;
    var t4 := [RBracket] + t5;
    var t3 := [Ident(v)] + LabelTokens(l) + t4;
    var t2 := [LBracket] + t3;
    var t1 := [Dash] + t2;
    var end := [RBracket, Arrow, LParen, RParen] + tail;
    assert [LParen, RParen, Dash, LBracket, Ident(v)] + LabelTokens(l) + end == [LParen, RParen] + t1;
    EmptyPatternReads(t1);
    ExpectReads(Dash, t2);
    ExpectReads(LBracket, t3);
    NameReads(v, l, t4);
    ExpectReads(RBracket, t5);
    ExpectReads(Arrow, t6);
    EmptyPatternReads(tail);
    assert ([LParen, RParen] + t1)[1..] == [RParen] + t1 && ([RParen] + t1)[1..] == t1;
    assert IsRelPattern(t1, 0, true);
    assert IsRelPattern([RParen] + t1, 1, false);
  }

  lemma EmptyPatternReads(rest: seq<Token>)
    ensures ParseNodePattern([LParen, RParen] + rest) == Ok((None, rest))
  {
    var ts := [LParen, RParen] + rest;
    assert ts[1..][1..] == rest;
  }

  /** An edge match reads back exactly when no property condition has the key `weight`. */
  lemma EdgeMatchReads(m: TextModel, v: string, f: EdgeFilter)
    requires NoNulls(f.conditions)
    ensures ParseTokens(m, Print(v, MatchEdges(f))) == Ok((MatchEdges(f), [])) <==> NoWeightKeys(f.conditions)
    ensures var r := ParseTokens(m, Print(v, MatchEdges(f)));
            r.Ok? ==> (r.value.0 == MatchEdges(f) <==> NoWeightKeys(f.conditions))
  {
    hide EdgeConditions, ParseRelPattern, ParseReturn, WhereTokens, ParseNodeMatch, IsRelPattern, LabelTokens, AddAll,
         EdgeConditionList, NoNulls, NoWeightKeys;
    EdgeListNoNulls(f);
    var cs := EdgeConditionList(f);
    var tail := WhereTokens(v, cs) + ReturnTokens(v);
    var end := [RBracket, Arrow, LParen, RParen] + tail;
    var ts := [LParen, RParen, Dash, LBracket, Ident(v)] + LabelTokens(f.lbl) + end;
    assert Print(v, MatchEdges(f)) == [Keyword("MATCH")] + ts;
    assert ([Keyword("MATCH")] + ts)[1..] == ts;
    RelPatternReads(v, f.lbl, tail);
    EdgeWhereReads(m, v, EdgeFilter(f.lbl, None, []), cs, ReturnTokens(v));
    ReturnReads(v);
    EdgeListReads(m, f);
  }

  lemma EdgeWhereReads(m: TextModel, v: string, f: EdgeFilter, cs: seq<Condition>, ret: seq<Token>)
    requires NoNulls(cs) && !Peek(AND, ret) && !Peek(Keyword("WHERE"), ret)
    ensures var r1 := WhereTokens(v, cs) + ret;
            (if Peek(Keyword("WHERE"), r1) then EdgeConditions(m, f, r1[1..]) else Ok((f, r1)))
            == match AddAll(m, f, cs) case Ok(f') => Ok((f', ret)) case Err(e) => Err(e)
  {
    hide EdgeConditions, ChainTokens, AddAll;
    var r1 := WhereTokens(v, cs) + ret;
    if cs != [] {
      assert r1[1..] == ChainTokens(v, cs) + ret;
      EdgeChainReads(m, v, f, cs, ret);
    } else {
      assert r1 == ret;
      AddNothing(m, f);
    }
  }

  lemma AddNothing(m: TextModel, f: EdgeFilter)
    ensures AddAll(m, f, []) == Ok(f)
  {
  }

  ghost predicate ReadsBack(command: QueryCommand) {
    command.MatchEdges? ==> NoWeightKeys(command.edgeFilter.conditions)
  }

  /** The parser undoes the printer exactly when no property condition of an edge match has the
      key `weight`. */
  lemma PrintedParses(m: TextModel, v: string, command: QueryCommand)
    requires Expressible(command)
    ensures ParseTokens(m, Print(v, command)) == Ok((command, [])) <==> ReadsBack(command)
    ensures var r := ParseTokens(m, Print(v, command)); r.Ok? ==> (r.value.0 == command <==> ReadsBack(command))
  {
    hide ParseMatch, NoNulls, WhereTokens, NoWeightKeys;
    var ts := Print(v, command);
    match command
    case MatchNodes(f) => NodeMatchReads(m, v, f);
    case MatchEdges(f) => EdgeMatchReads(m, v, f);
    case Traverse(_, _) => assert ts[1..][1..][1..][1..] == [];
    case ShortestPath(_, _) => assert ts[1..][1..][1..][1..][1..] == [];
    case CountNodes => assert ts[1..][1..] == [];
    case CountEdges => assert ts[1..][1..] == [];
    case _ =>
  }

  // ---- The lexer reads the printed text ----

  function TokenText(m: TextModel, kw: string -> string, t: Token): string {
    match t
    case Keyword(w) => kw(w)
    case Ident(n) => n
    case NodeRef(id) => "N" + Digits(id)
    case StringLit(s) => Quoted(s)
    case IntLit(i) => ShowInt(i)
    case FloatLit(f) => m.showFloat(f)
    case BoolLit(b) => kw(if b then "TRUE" else "FALSE")
    case Cmp(op) => OpText(op)
    case LParen => "("
    case RParen => ")"
    case LBracket => "["
    case RBracket => "]"
    case Colon => ":"
    case Dot => "."
    case Comma => ","
    case Dash => "-"
    case Arrow => "->"
  }

  /** A word that is no keyword, boolean or node reference. */
  ghost predicate IsIdentifier(m: TextModel, word: string) {
    && word != "" && WordStart(m, word[0]) && (forall i :: 0 <= i < |word| ==> m.WordChar(word[i]))
    && WordToken(m, word) == Ok(Ident(word))
  }

  ghost predicate Lexable(m: TextModel, t: Token) {
    match t
    case Keyword(w) => IsKeyword(w)
    case Ident(n) => IsIdentifier(m, n)
    case StringLit(s) => QuoteFree(s)
    case IntLit(i) => i >= 0
    case FloatLit(f) => m.Shown(f)
    case _ => true
  }

  predicate IsWord(t: Token) {
    t.Keyword? || t.Ident? || t.NodeRef? || t.BoolLit?
  }

  predicate IsNumber(t: Token) {
    t.IntLit? || t.FloatLit?
  }

  /** The character after a token does not belong to it. */
  predicate Stops(m: TextModel, t: Token, rest: string) {
    rest == "" ||
    if IsWord(t) then !m.WordChar(rest[0])
    else if IsNumber(t) then !IsDigit(rest[0]) && rest[0] != '.'
    else if t == Dash then rest[0] != '>'
    else if t == Cmp(Lt) || t == Cmp(Gt) then rest[0] != '='
    else true
  }

  lemma {:induction false} SpanExact(p: char -> bool, a: string, rest: string)
    requires (forall i :: 0 <= i < |a| ==> p(a[i])) && (rest == "" || !p(rest[0]))
    ensures Span(p, a + rest) == |a|
  {
    assert forall i :: 0 <= i < |a| ==> (a + rest)[i] == a[i];
    assert rest != "" ==> (a + rest)[|a|] == rest[0];
  }

  /** A word is not taken for anything that is tried before words. */
  lemma WordFirst(m: TextModel, s: string)
    requires m.Laws() && s != "" && WordStart(m, s[0])
    ensures !m.isWhitespace(s[0]) && s[0] != '"' && TwoCharToken(s).None? && OneCharToken(s[0]).None? && !IsDigit(s[0])
  {
  }

  lemma WordLexes(m: TextModel, word: string, rest: string)
    requires m.Laws() && word != "" && WordStart(m, word[0]) && forall i :: 0 <= i < |word| ==> m.WordChar(word[i])
    requires rest == "" || !m.WordChar(rest[0])
    ensures LexToken(m, word + rest) == match WordToken(m, word) case Ok(t) => Ok(([t], |word|)) case Err(e) => Err(e)
  {
    hide TextModel.Laws, WordToken, OneCharToken, TwoCharToken, Span;
    WordFirst(m, word + rest);
    SpanExact(m.WordChar, word, rest);
    assert (word + rest)[..|word|] == word;
  }

  lemma LetterStarts(m: TextModel, c: char)
    requires m.Laws() && Letter(c)
    ensures WordStart(m, c) && m.WordChar(c)
  {
  }

  lemma DigitIsWordChar(m: TextModel, c: char)
    requires m.Laws() && IsDigit(c)
    ensures m.WordChar(c) && !m.isWhitespace(c) && OneCharToken(c).None? && c != '"'
  {
  }

  /** A spelled-out word of at least two letters is told by its upper case. */
  lemma SpelledLexes(m: TextModel, kw: string -> string, w: string, rest: string)
    requires m.Laws() && IsSpelling(kw) && |w| > 1 && forall i :: 0 <= i < |w| ==> 'A' <= w[i] <= 'Z'
    requires IsKeyword(w) || w == "TRUE" || w == "FALSE"
    requires rest == "" || !m.WordChar(rest[0])
    ensures LexToken(m, kw(w) + rest)
         == Ok(([if w == "TRUE" then BoolLit(true) else if w == "FALSE" then BoolLit(false) else Keyword(w)], |kw(w)|))
  {
    hide TextModel.Laws, IsSpelling, LexToken, IsKeyword, TextModel.WordChar, WordStart;
    Spelled(m, kw, w);
    forall i | 0 <= i < |kw(w)| ensures WordStart(m, kw(w)[i]) && m.WordChar(kw(w)[i]) {
      LetterStarts(m, kw(w)[i]);
    }
    assert !NodeRefLike(kw(w)) by {
      assert kw(w)[1..][0] == kw(w)[1] && Letter(kw(w)[1]);
    }
    WordLexes(m, kw(w), rest);
  }

  lemma KeywordLetters(w: string)
    requires IsKeyword(w)
    ensures |w| > 1 && forall i :: 0 <= i < |w| ==> 'A' <= w[i] <= 'Z'
  {
  }

  lemma NodeRefLexes(m: TextModel, id: U64, rest: string)
    requires m.Laws() && (rest == "" || !m.WordChar(rest[0]))
    ensures var text := "N" + Digits(id); LexToken(m, text + rest) == Ok(([NodeRef(id)], |text|))
  {
    hide TextModel.Laws, LexToken, Digits, ParseU64, TextModel.WordChar, WordStart;
    var text := "N" + Digits(id);
    DigitsReadBack(id);
    U64RoundTrip(id);
    forall i | 0 <= i < |text| ensures m.WordChar(text[i]) {
      if i == 0 {
        LetterStarts(m, 'N');
      } else {
        assert text[i] == Digits(id)[i - 1];
        DigitIsWordChar(m, text[i]);
      }
    }
    LetterStarts(m, 'N');
    assert text[1..] == Digits(id);
    WordLexes(m, text, rest);
  }

  lemma StringLexes(m: TextModel, text: string, rest: string)
    requires m.Laws() && QuoteFree(text)
    ensures LexToken(m, Quoted(text) + rest) == Ok(([StringLit(text)], |Quoted(text)|))
  {
    hide Span;
    var s := Quoted(text) + rest;
    assert s[1..] == text + ("\"" + rest);
    SpanExact(NotQuote, text, "\"" + rest);
    assert s[1..|text| + 1] == text;
  }

  lemma NumberLexes(m: TextModel, s: string)
    requires m.Laws() && s != "" && IsDigit(s[0])
    ensures LexToken(m, s) == LexNumber(m, s)
  {
    DigitIsWordChar(m, s[0]);
  }

  lemma IntLexes(m: TextModel, i: I64, rest: string)
    requires m.Laws() && i >= 0 && (rest == "" || (!IsDigit(rest[0]) && rest[0] != '.'))
    ensures LexToken(m, ShowInt(i) + rest) == Ok(([IntLit(i)], |ShowInt(i)|))
  {
    hide TextModel.Laws, Span, Digits, ParseI64, LexToken;
    var text := ShowInt(i);
    DigitsReadBack(i);
    I64RoundTrip(i);
    NumberLexes(m, text + rest);
    SpanExact(IsDigit, text, rest);
    assert (text + rest)[..|text|] == text;
  }

  lemma FloatSpans(m: TextModel, whole: string, fraction: string, rest: string)
    requires whole != "" && AllDigits(whole) && AllDigits(fraction) && (rest == "" || !IsDigit(rest[0]))
    ensures var text := whole + "." + fraction;
            IsDigit((text + rest)[0]) && LexNumber(m, text + rest)
            == match m.parseFloat(text) case Some(f) => Ok(([FloatLit(f)], |text|)) case None => Err(BadFloat(text))
  {
    hide Span;
    var text := whole + "." + fraction;
    var s := text + rest;
    assert s == whole + ("." + fraction + rest);
    SpanExact(IsDigit, whole, "." + fraction + rest);
    assert s[|whole| + 1..] == fraction + rest;
    SpanExact(IsDigit, fraction, rest);
    assert s[..|text|] == text;
  }

  lemma FloatLexes(m: TextModel, f: F64, rest: string)
    requires m.Laws() && m.Shown(f) && (rest == "" || !IsDigit(rest[0]))
    ensures LexToken(m, m.showFloat(f) + rest) == Ok(([FloatLit(f)], |m.showFloat(f)|))
  {
    hide TextModel.Laws, LexNumber, LexToken, AllDigits, IsDigit;
    var text := m.showFloat(f);
    var k :| 0 < k < |text| && text[k] == '.' && AllDigits(text[..k]) && AllDigits(text[k + 1..]);
    assert text == text[..k] + "." + text[k + 1..];
    FloatSpans(m, text[..k], text[k + 1..], rest);
    NumberLexes(m, text + rest);
  }

  lemma SymbolLexes(m: TextModel, kw: string -> string, t: Token, rest: string)
    requires m.Laws() && !IsWord(t) && !IsNumber(t) && !t.StringLit? && Stops(m, t, rest)
    ensures LexToken(m, TokenText(m, kw, t) + rest) == Ok(([t], |TokenText(m, kw, t)|))
  {
  }

  lemma TokenLexes(m: TextModel, kw: string -> string, t: Token, rest: string)
    requires m.Laws() && IsSpelling(kw) && Lexable(m, t) && Stops(m, t, rest)
    ensures LexToken(m, TokenText(m, kw, t) + rest) == Ok(([t], |TokenText(m, kw, t)|))
  {
    hide TextModel.Laws, IsSpelling, LexToken, IsKeyword, Digits, Quoted, ShowInt, OpText, TextModel.Shown,
         TextModel.WordChar;
    match t
    case Keyword(w) =>
      KeywordLetters(w);
      KeywordNotBool(w);
      SpelledLexes(m, kw, w, rest);
    case BoolLit(b) => SpelledLexes(m, kw, if b then "TRUE" else "FALSE", rest);
    case Ident(n) => WordLexes(m, n, rest);
    case NodeRef(id) => NodeRefLexes(m, id, rest);
    case StringLit(s) => StringLexes(m, s, rest);
    case IntLit(i) => IntLexes(m, i, rest);
    case FloatLit(f) => FloatLexes(m, f, rest);
    case _ => SymbolLexes(m, kw, t, rest);
  }

  lemma KeywordNotBool(w: string)
    requires IsKeyword(w)
    ensures w != "TRUE" && w != "FALSE"
  {
  }

  // ---- The panic ----

  /** A node reference whose number does not fit 64 bits. */
  predicate Oversized(word: string) {
    NodeRefLike(word) && NumberOf(word[1..]) > MAX_U64
  }

  /** The text before position `k` lexes into whole tokens: the next one begins there. */
  ghost predicate StartsToken(m: TextModel, s: string, k: nat)
    requires m.Laws() && k <= |s|
    decreases |s|
  {
    k == 0 ||
    (LexToken(m, s).Ok? && var n := LexToken(m, s).value.1; n <= k && StartsToken(m, s[n..], k - n))
  }

  /** The longest word from position `k` on. */
  ghost predicate WordAt(m: TextModel, s: string, k: nat, word: string) {
    k < |s| && WordStart(m, s[k]) && word == s[k..][..Span(m.WordChar, s[k..])]
  }

  /** A token outside quotes, and not inside a word, is a node reference too big. */
  ghost predicate MeetsOversized(m: TextModel, s: string, word: string)
    requires m.Laws()
  {
    exists k: nat :: k <= |s| && StartsToken(m, s, k) && WordAt(m, s, k, word) && Oversized(word)
  }

  lemma WordPanics(m: TextModel, word: string, w: string)
    requires word != ""
    ensures WordToken(m, word) == Err(Panics(w)) <==> w == word && Oversized(word)
    ensures WordToken(m, word).Err? ==> Oversized(word)
  {
    if NodeRefLike(word) {
      assert IsDigit(word[1..][0]);
    }
  }

  lemma StartIsChar(m: TextModel, c: char)
    requires m.Laws() && WordStart(m, c)
    ensures m.WordChar(c)
  {
  }

  lemma TokenPanics(m: TextModel, s: string, w: string)
    requires m.Laws() && s != ""
    ensures LexToken(m, s) == Err(Panics(w)) <==>
            WordStart(m, s[0]) && w == s[..Span(m.WordChar, s)] && Oversized(w)
  {
    hide TextModel.Laws, WordToken, Oversized;
    if WordStart(m, s[0]) {
      WordFirst(m, s);
      StartIsChar(m, s[0]);
      WordPanics(m, s[..Span(m.WordChar, s)], w);
    }
  }

  lemma WordShift(m: TextModel, s: string, n: nat, k: nat, w: string)
    requires n <= k <= |s|
    ensures WordAt(m, s[n..], k - n, w) <==> WordAt(m, s, k, w)
  {
    assert s[n..][k - n..] == s[k..];
  }

  lemma StartsShift(m: TextModel, s: string, k: nat)
    requires m.Laws() && 0 < k <= |s| && LexToken(m, s).Ok? && LexToken(m, s).value.1 <= k
    ensures StartsToken(m, s, k) <==> StartsToken(m, s[LexToken(m, s).value.1..], k - LexToken(m, s).value.1)
  {
  }

  lemma StartsLater(m: TextModel, s: string, k: nat)
    requires m.Laws() && k <= |s| && StartsToken(m, s, k) && k > 0
    ensures LexToken(m, s).Ok? && LexToken(m, s).value.1 <= k
  {
  }

  lemma StartsAtOnce(m: TextModel, s: string)
    requires m.Laws()
    ensures StartsToken(m, s, 0)
  {
  }

  /** It is met first, or in what follows the first token. */
  lemma MeetsNext(m: TextModel, s: string, w: string)
    requires m.Laws() && s != ""
    ensures MeetsOversized(m, s, w) <==>
      || (WordAt(m, s, 0, w) && Oversized(w))
      || (LexToken(m, s).Ok? && MeetsOversized(m, s[LexToken(m, s).value.1..], w))
  {
    hide TextModel.Laws, LexToken, Oversized, Span, StartsToken, WordAt;
    if MeetsOversized(m, s, w) {
      var k: nat :| k <= |s| && StartsToken(m, s, k) && WordAt(m, s, k, w) && Oversized(w);
      if k > 0 {
        StartsLater(m, s, k);
        StartsShift(m, s, k);
        WordShift(m, s, LexToken(m, s).value.1, k, w);
      }
    }
    StartsAtOnce(m, s);
    if LexToken(m, s).Ok? && MeetsOversized(m, s[LexToken(m, s).value.1..], w) {
      var n := LexToken(m, s).value.1;
      var k: nat :| k <= |s[n..]| && StartsToken(m, s[n..], k) && WordAt(m, s[n..], k, w) && Oversized(w);
      StartsShift(m, s, n + k);
      WordShift(m, s, n, n + k, w);
    }
  }

  /** A text makes the lexer panic exactly when one of its tokens is an oversized node reference and
      the text before it lexes. */
  lemma {:induction false} LexPanics(m: TextModel, s: string, w: string)
    requires m.Laws()
    ensures Lex(m, s) == Err(Panics(w)) <==> MeetsOversized(m, s, w)
    decreases |s|
  {
    hide TextModel.Laws, LexToken, Oversized, Span, MeetsOversized;
    if s != "" {
      MeetsNext(m, s, w);
      assert s[0..] == s;
      TokenPanics(m, s, w);
      if LexToken(m, s).Ok? {
        LexPanics(m, s[LexToken(m, s).value.1..], w);
      }
    } else {
      NoneInNothing(m, w);
    }
  }

  lemma NoneInNothing(m: TextModel, w: string)
    requires m.Laws()
    ensures !MeetsOversized(m, "", w)
  {
  }

  lemma BigReferencePanics(m: TextModel, n: nat, rest: string)
    requires m.Laws() && n > MAX_U64 && (rest == "" || !m.WordChar(rest[0]))
    ensures Lex(m, "N" + Digits(n) + rest) == Err(Panics("N" + Digits(n)))
  {
    hide TextModel.Laws, LexToken, Digits, TextModel.WordChar, WordStart;
    var word := "N" + Digits(n);
    DigitsReadBack(n);
    LetterStarts(m, 'N');
    forall i | 0 <= i < |word| ensures m.WordChar(word[i]) {
      if i > 0 {
        assert word[i] == Digits(n)[i - 1];
        DigitIsWordChar(m, word[i]);
      }
    }
    assert word[1..] == Digits(n);
    WordPanics(m, word, word);
    WordLexes(m, word, rest);
  }

  // ---- Layout ----

  /** Two tokens that would run into one if nothing came between them. */
  predicate Glues(a: Token, b: Token) {
    || (IsWord(a) && (IsWord(b) || IsNumber(b)))
    || (IsNumber(a) && (IsNumber(b) || b == Dot))
    || (a == Dash && (b == Cmp(Gt) || b == Cmp(GtEq)))
    || ((a == Cmp(Lt) || a == Cmp(Gt)) && b == Cmp(Eq))
  }

  ghost predicate Blanks(m: TextModel, gap: string) {
    forall i :: 0 <= i < |gap| ==> m.isWhitespace(gap[i])
  }

  /** White space before, between and after the tokens; some wherever two would glue. */
  ghost predicate Separates(m: TextModel, gaps: seq<string>, toks: seq<Token>) {
    && |gaps| == |toks| + 1 && (forall i :: 0 <= i < |gaps| ==> Blanks(m, gaps[i]))
    && (forall i :: 0 < i < |toks| && Glues(toks[i - 1], toks[i]) ==> gaps[i] != "")
  }

  function Spread(m: TextModel, kw: string -> string, gaps: seq<string>, toks: seq<Token>): string
    requires |gaps| == |toks| + 1
    decreases |toks|
  {
    gaps[0] + if toks == [] then "" else TokenText(m, kw, toks[0]) + Spread(m, kw, gaps[1..], toks[1..])
  }

  ghost predicate AllLexable(m: TextModel, toks: seq<Token>) {
    forall i :: 0 <= i < |toks| ==> Lexable(m, toks[i])
  }

  lemma BlankStops(m: TextModel, t: Token, rest: string)
    requires m.Laws() && rest != "" && m.isWhitespace(rest[0])
    ensures Stops(m, t, rest)
  {
  }

  lemma {:induction false} GapLexes(m: TextModel, gap: string, rest: string)
    requires m.Laws() && Blanks(m, gap)
    ensures Lex(m, gap + rest) == Lex(m, rest)
    decreases |gap|
  {
    if gap == "" {
      assert gap + rest == rest;
    } else {
      hide TextModel.Laws, LexNumber, LexWord;
      assert (gap + rest)[1..] == gap[1..] + rest;
      GapLexes(m, gap[1..], rest);
      PrependTwice([], [], Lex(m, gap[1..] + rest));
    }
  }

  /** Where two tokens do not glue, the second one stops the first. */
  lemma NextStops(m: TextModel, kw: string -> string, a: Token, b: Token, more: string)
    requires m.Laws() && IsSpelling(kw) && Lexable(m, b) && !Glues(a, b)
    ensures Stops(m, a, TokenText(m, kw, b) + more)
  {
    hide TextModel.Laws, IsSpelling, IsKeyword, Digits, TextModel.Shown;
    match b
    case Keyword(w) =>
      KeywordLetters(w);
      WordStops(m, kw, w, a, more);
    case BoolLit(v) => WordStops(m, kw, if v then "TRUE" else "FALSE", a, more);
    case Ident(n) => WordFirst(m, n + more);
    case IntLit(i) => NatRoundTrip(i);
    case FloatLit(f) => FloatStarts(m, f);
    case _ => SymbolStops(m, kw, a, b, more);
  }

  lemma WordStops(m: TextModel, kw: string -> string, w: string, a: Token, more: string)
    requires m.Laws() && IsSpelling(kw) && |w| > 1 && (forall i :: 0 <= i < |w| ==> 'A' <= w[i] <= 'Z') && !IsWord(a)
    ensures Stops(m, a, kw(w) + more)
  {
    hide TextModel.Laws, IsSpelling;
    Spelled(m, kw, w);
    assert Letter((kw(w) + more)[0]);
  }

  lemma FloatStarts(m: TextModel, f: F64)
    requires m.Shown(f)
    ensures m.showFloat(f) != "" && IsDigit(m.showFloat(f)[0])
  {
    var text := m.showFloat(f);
    var k :| 0 < k < |text| && text[k] == '.' && AllDigits(text[..k]) && AllDigits(text[k + 1..]);
    assert text[0] == text[..k][0];
  }

  lemma SymbolStops(m: TextModel, kw: string -> string, a: Token, b: Token, more: string)
    requires m.Laws() && !Glues(a, b) && !IsNumber(b) && (!IsWord(b) || b.NodeRef?)
    ensures Stops(m, a, TokenText(m, kw, b) + more)
  {
    hide Digits;
  }

  /** Tokens written apart are read back as they are. */
  lemma {:induction false} LexSpread(m: TextModel, kw: string -> string, gaps: seq<string>, toks: seq<Token>)
    requires m.Laws() && IsSpelling(kw) && AllLexable(m, toks) && Separates(m, gaps, toks)
    ensures Lex(m, Spread(m, kw, gaps, toks)) == Ok(toks)
    decreases |toks|
  {
    hide TextModel.Laws, IsSpelling, LexToken, Lexable, Stops, Glues, TokenText;
    if toks == [] {
      GapLexes(m, gaps[0], "");
    } else {
      var text, rest := TokenText(m, kw, toks[0]), Spread(m, kw, gaps[1..], toks[1..]);
      GapLexes(m, gaps[0], text + rest);
      RestStops(m, kw, gaps, toks);
      TokenLexes(m, kw, toks[0], rest);
      LexSpread(m, kw, gaps[1..], toks[1..]);
      LexOne(m, toks[0], text, rest);
      assert [toks[0]] + toks[1..] == toks;
    }
  }

  lemma LexOne(m: TextModel, t: Token, text: string, rest: string)
    requires m.Laws() && text + rest != "" && LexToken(m, text + rest) == Ok(([t], |text|))
    ensures Lex(m, text + rest) == Prepend([t], Lex(m, rest))
  {
    hide TextModel.Laws, LexToken;
    assert (text + rest)[|text|..] == rest;
  }

  lemma RestStops(m: TextModel, kw: string -> string, gaps: seq<string>, toks: seq<Token>)
    requires m.Laws() && IsSpelling(kw) && AllLexable(m, toks) && Separates(m, gaps, toks) && toks != []
    ensures Stops(m, toks[0], Spread(m, kw, gaps[1..], toks[1..]))
    ensures TokenText(m, kw, toks[0]) != ""
  {
    hide TextModel.Laws, IsSpelling, Lexable, Stops, Glues, TokenText;
    TextNotEmpty(m, kw, toks[0]);
    var rest := Spread(m, kw, gaps[1..], toks[1..]);
    if gaps[1] != "" {
      assert rest[0] == gaps[1][0];
      BlankStops(m, toks[0], rest);
    } else if |toks| > 1 {
      var more := Spread(m, kw, gaps[1..][1..], toks[1..][1..]);
      assert rest == TokenText(m, kw, toks[1]) + more;
      NextStops(m, kw, toks[0], toks[1], more);
    } else {
      assert rest == "";
      EndStops(m, toks[0]);
    }
  }

  lemma EndStops(m: TextModel, t: Token)
    ensures Stops(m, t, "")
  {
  }

  lemma TextNotEmpty(m: TextModel, kw: string -> string, t: Token)
    requires m.Laws() && IsSpelling(kw) && Lexable(m, t)
    ensures TokenText(m, kw, t) != ""
  {
    hide TextModel.Laws, Digits, IsKeyword, TextModel.Shown;
    match t
    case Keyword(w) =>
      KeywordLetters(w);
      SpelledWord(kw, w, 0);
    case BoolLit(b) => SpelledWord(kw, if b then "TRUE" else "FALSE", 0);
    case IntLit(i) => NatRoundTrip(i);
    case FloatLit(f) => FloatStarts(m, f);
    case _ =>
  }

  // ---- Round trip ----

  ghost predicate WritableValue(m: TextModel, v: Value) {
    match v
    case Text(s) => QuoteFree(s)
    case Integer(i) => i >= 0
    case Float(f) => m.Shown(f)
    case Boolean(_) => true
    case Null => false
  }

  ghost predicate WritableConditions(m: TextModel, cs: seq<Condition>) {
    forall i :: 0 <= i < |cs| ==> IsIdentifier(m, cs[i].key) && WritableValue(m, cs[i].value)
  }

  /** Labels and keys are identifiers, integers are not negative, texts have no quotes, floats
      have a literal. */
  ghost predicate Writable(m: TextModel, command: QueryCommand) {
    match command
    case MatchNodes(f) => (f.lbl.Some? ==> IsIdentifier(m, f.lbl.value)) && WritableConditions(m, f.conditions)
    case MatchEdges(f) =>
      && (f.lbl.Some? ==> IsIdentifier(m, f.lbl.value)) && WritableConditions(m, f.conditions)
      && (f.weight.Some? ==> m.Shown(f.weight.value.value))
    case GetNode(_) => false
    case GetEdge(_) => false
    case _ => true
  }

  lemma WeightIsIdentifier(m: TextModel)
    requires m.Laws()
    ensures IsIdentifier(m, "weight")
  {
    var w := "weight";
    forall i | 0 <= i < |w| ensures WordStart(m, w[i]) && m.WordChar(w[i]) {
      LetterStarts(m, w[i]);
    }
    assert m.upper(w) == AsciiUpper(w);
    assert |AsciiUpper(w)| == 6 && AsciiUpper(w)[0] == 'W';
    assert !IsKeyword(AsciiUpper(w));
  }

  lemma LexableConcat(m: TextModel, a: seq<Token>, b: seq<Token>)
    requires AllLexable(m, a) && AllLexable(m, b)
    ensures AllLexable(m, a + b)
  {
  }

  lemma {:induction false} ChainLexable(m: TextModel, v: string, cs: seq<Condition>)
    requires IsIdentifier(m, v) && WritableConditions(m, cs) && cs != [] && NoNulls(cs)
    ensures AllLexable(m, ChainTokens(v, cs))
    decreases |cs|
  {
    hide IsIdentifier, TextModel.Shown;
    var first := ConditionTokens(v, cs[0]);
    assert AllLexable(m, first);
    if |cs| > 1 {
      ChainLexable(m, v, cs[1..]);
      assert AllLexable(m, [AND]);
      LexableConcat(m, [AND], ChainTokens(v, cs[1..]));
      LexableConcat(m, first, [AND] + ChainTokens(v, cs[1..]));
    } else {
      LexableConcat(m, first, []);
    }
  }

  /** WHERE .. and RETURN v */
  lemma TailLexable(m: TextModel, v: string, cs: seq<Condition>)
    requires IsIdentifier(m, v) && WritableConditions(m, cs) && NoNulls(cs)
    ensures AllLexable(m, WhereTokens(v, cs)) && AllLexable(m, ReturnTokens(v))
  {
    hide IsIdentifier, WritableValue, ChainTokens;
    if cs != [] {
      ChainLexable(m, v, cs);
      assert AllLexable(m, [Keyword("WHERE")]);
      LexableConcat(m, [Keyword("WHERE")], ChainTokens(v, cs));
    }
  }

  lemma PrintLexable(m: TextModel, v: string, command: QueryCommand)
    requires m.Laws() && IsIdentifier(m, v) && Expressible(command) && Writable(m, command)
    ensures AllLexable(m, Print(v, command))
  {
    hide IsIdentifier, WritableConditions, NoNulls, WhereTokens, ReturnTokens, TextModel.Laws;
    match command
    case MatchNodes(f) =>
      TailLexable(m, v, f.conditions);
      var head := [Keyword("MATCH"), LParen, Ident(v)] + LabelTokens(f.lbl) + [RParen];
      assert AllLexable(m, head);
      LexableConcat(m, head, WhereTokens(v, f.conditions));
      LexableConcat(m, head + WhereTokens(v, f.conditions), ReturnTokens(v));
    case MatchEdges(f) =>
      EdgeListNoNulls(f);
      EdgeListWritable(m, f);
      var cs := EdgeConditionList(f);
      TailLexable(m, v, cs);
      var head := [Keyword("MATCH"), LParen, RParen, Dash, LBracket, Ident(v)] + LabelTokens(f.lbl)
                  + [RBracket, Arrow, LParen, RParen];
      assert AllLexable(m, head);
      LexableConcat(m, head, WhereTokens(v, cs));
      LexableConcat(m, head + WhereTokens(v, cs), ReturnTokens(v));
    case _ =>
  }

  lemma EdgeListWritable(m: TextModel, f: EdgeFilter)
    requires m.Laws() && WritableConditions(m, f.conditions) && (f.weight.Some? ==> m.Shown(f.weight.value.value))
    ensures WritableConditions(m, EdgeConditionList(f))
  {
    hide IsIdentifier, TextModel.Laws;
    WeightIsIdentifier(m);
  }

  /** A printed command, in any spelling of the keywords and any layout, means itself exactly when
      no property condition of an edge match has the key `weight`. */
  lemma RoundTrip(m: TextModel, kw: string -> string, v: string, command: QueryCommand, gaps: seq<string>)
    requires m.Laws() && IsSpelling(kw) && IsIdentifier(m, v) && Writable(m, command) && Expressible(command)
    requires Separates(m, gaps, Print(v, command))
    ensures Meaning(m, Spread(m, kw, gaps, Print(v, command))) == Ok(command) <==> ReadsBack(command)
  {
    hide TextModel.Laws, IsSpelling, IsIdentifier, Writable, Print, Lex, ParseTokens, AllLexable, Separates,
         Expressible, ReadsBack, Spread;
    PrintLexable(m, v, command);
    LexSpread(m, kw, gaps, Print(v, command));
    PrintedParses(m, v, command);
  }
}
