/** The keyword language: its tokenizer and recursive-descent parser,
    src/query/languages/simple.rs. */
module SimpleQuery {
  import opened Core
  import opened Lexical
  import opened QueryAst

  // ---- Tokenizer ----

  datatype Scan = Scan(tokens: seq<string>, current: string, inString: bool)

  predicate IsBlank(c: char) {
    c == ' ' || c == '\t' || c == '\n' || c == '\r'
  }

  function ScanChar(st: Scan, ch: char): Scan {
    if ch == '"' then
      if st.inString then Scan(st.tokens + [st.current + [ch]], "", false)
      else st.(current := st.current + [ch], inString := true)
    else if IsBlank(ch) && !st.inString then
      if st.current != "" then st.(tokens := st.tokens + [st.current], current := "") else st
    else st.(current := st.current + [ch])
  }

  function ScanAll(st: Scan, input: string): Scan {
    if input == "" then st else ScanChar(ScanAll(st, input[..|input| - 1]), input[|input| - 1])
  }

  const BEGIN_SCAN := Scan([], "", false)

  function Finish(st: Scan): seq<string> {
    if st.current != "" then st.tokens + [st.current] else st.tokens
  }

  function TokensOf(input: string): seq<string> {
    Finish(ScanAll(BEGIN_SCAN, input))
  }

  method Tokenize(input: string) returns (tokens: seq<string>)
    ensures tokens == TokensOf(input)
  {
    tokens := [];
    var current := "";
    var inString := false;
    for i := 0 to |input|
      invariant Scan(tokens, current, inString) == ScanAll(BEGIN_SCAN, input[..i])
    {
      assert input[..i + 1][..i] == input[..i];
      var ch := input[i];
      if ch == '"' {
        current := current + [ch];
        if inString {
          tokens := tokens + [current];
          current := "";
        }
        inString := !inString;
      } else if IsBlank(ch) && !inString {
        if current != "" {
          tokens := tokens + [current];
          current := "";
        }
      } else {
        current := current + [ch];
      }
    }
    assert input[..|input|] == input;
    if current != "" {
      tokens := tokens + [current];
    }
  }

  predicate Plain(tok: string) {
    tok != "" && forall i :: 0 <= i < |tok| ==> tok[i] != '"' && !IsBlank(tok[i])
  }

  /** A word, or text between quotes. */
  ghost predicate IsToken(tok: string) {
    Plain(tok) || exists s :: QuoteFree(s) && tok == Quoted(s)
  }

  predicate Blanks(s: string) {
    forall i :: 0 <= i < |s| ==> IsBlank(s[i])
  }

  /** The tokens with blank space before each of them, at least one blank between any two. */
  ghost predicate Separates(gaps: seq<string>, toks: seq<string>) {
    && |gaps| == |toks| && (forall i :: 0 <= i < |gaps| ==> Blanks(gaps[i]))
    && (forall i :: 0 < i < |gaps| ==> gaps[i] != "")
  }

  function Spread(gaps: seq<string>, toks: seq<string>): string
    requires |gaps| == |toks|
  {
    if toks == [] then ""
    else Spread(gaps[..|gaps| - 1], toks[..|toks| - 1]) + gaps[|gaps| - 1] + toks[|toks| - 1]
  }

  lemma {:induction false} ScanConcat(st: Scan, a: string, b: string)
    ensures ScanAll(st, a + b) == ScanAll(ScanAll(st, a), b)
    decreases |b|
  {
    if b == "" {
      assert a + b == a;
    } else {
      assert (a + b)[..|a + b| - 1] == a + b[..|b| - 1];
      ScanConcat(st, a, b[..|b| - 1]);
    }
  }

  lemma {:induction false} ScanPlain(st: Scan, word: string)
    requires !st.inString && forall i :: 0 <= i < |word| ==> word[i] != '"' && !IsBlank(word[i])
    ensures ScanAll(st, word) == st.(current := st.current + word)
    decreases |word|
  {
    if word != "" {
      ScanPlain(st, word[..|word| - 1]);
      assert st.current + word == st.current + word[..|word| - 1] + [word[|word| - 1]];
    } else {
      assert st.current + word == st.current;
    }
  }

  lemma {:induction false} ScanInside(st: Scan, text: string)
    requires st.inString && QuoteFree(text)
    ensures ScanAll(st, text) == st.(current := st.current + text)
    decreases |text|
  {
    if text != "" {
      ScanInside(st, text[..|text| - 1]);
      assert st.current + text == st.current + text[..|text| - 1] + [text[|text| - 1]];
    } else {
      assert st.current + text == st.current;
    }
  }

  lemma {:induction false} ScanBlanks(st: Scan, gap: string)
    requires !st.inString && Blanks(gap)
    ensures ScanAll(st, gap)
         == if gap != "" && st.current != "" then st.(tokens := st.tokens + [st.current], current := "") else st
    decreases |gap|
  {
    if gap != "" {
      ScanBlanks(st, gap[..|gap| - 1]);
    }
  }

  function ScanOne(tokens: seq<string>, tok: string): Scan {
    if tok != "" && tok[0] == '"' then Scan(tokens + [tok], "", false) else Scan(tokens, tok, false)
  }

  /** A token after a clean start: emitted at its closing quote, or pending. */
  lemma ScanToken(tokens: seq<string>, tok: string)
    requires IsToken(tok)
    ensures ScanAll(Scan(tokens, "", false), tok) == ScanOne(tokens, tok)
  {
    var st := Scan(tokens, "", false);
    if Plain(tok) {
      ScanPlain(st, tok);
      assert "" + tok == tok;
    } else {
      var s :| QuoteFree(s) && tok == Quoted(s);
      assert ScanAll(st, "\"") == Scan(tokens, "\"", true) by { assert "\""[..0] == ""; }
      ScanConcat(st, "\"", s);
      ScanInside(Scan(tokens, "\"", true), s);
      assert tok[..|tok| - 1] == "\"" + s;
    }
  }

  /** Blank space settles a pending token. */
  lemma SettleToken(tokens: seq<string>, tok: string, gap: string)
    requires IsToken(tok) && Blanks(gap) && gap != ""
    ensures ScanAll(ScanOne(tokens, tok), gap) == Scan(tokens + [tok], "", false)
  {
    ScanBlanks(ScanOne(tokens, tok), gap);
  }

  lemma {:induction false} ScanSpread(gaps: seq<string>, toks: seq<string>)
    requires Separates(gaps, toks) && toks != [] && forall i :: 0 <= i < |toks| ==> IsToken(toks[i])
    ensures ScanAll(BEGIN_SCAN, Spread(gaps, toks)) == ScanOne(toks[..|toks| - 1], toks[|toks| - 1])
    decreases |toks|
  {
    hide IsToken, ScanOne;
    var n := |toks| - 1;
    var before := Spread(gaps[..n], toks[..n]);
    ScanConcat(BEGIN_SCAN, before + gaps[n], toks[n]);
    ScanConcat(BEGIN_SCAN, before, gaps[n]);
    if n == 0 {
      assert before == "";
      ScanBlanks(BEGIN_SCAN, gaps[n]);
    } else {
      ScanSpread(gaps[..n], toks[..n]);
      SettleToken(toks[..n][..n - 1], toks[n - 1], gaps[n]);
      assert toks[..n][..n - 1] + [toks[n - 1]] == toks[..n];
    }
    ScanToken(toks[..n], toks[n]);
  }

  /** Tokens written apart are read back as they are. */
  lemma TokenizeSpread(gaps: seq<string>, toks: seq<string>, end: string)
    requires Separates(gaps, toks) && Blanks(end) && forall i :: 0 <= i < |toks| ==> IsToken(toks[i])
    ensures TokensOf(Spread(gaps, toks) + end) == toks
  {
    hide IsToken, ScanOne;
    ScanConcat(BEGIN_SCAN, Spread(gaps, toks), end);
    if toks == [] {
      ScanBlanks(BEGIN_SCAN, end);
    } else {
      var n := |toks| - 1;
      ScanSpread(gaps, toks);
      FinishToken(toks[..n], toks[n], end);
      assert toks == toks[..n] + [toks[n]];
    }
  }

  lemma FinishToken(tokens: seq<string>, tok: string, end: string)
    requires IsToken(tok) && Blanks(end)
    ensures Finish(ScanAll(ScanOne(tokens, tok), end)) == tokens + [tok]
  {
    ScanBlanks(ScanOne(tokens, tok), end);
  }

  // ---- Parser ----

  datatype ParseError = EndOfInput | Unexpected(token: string)

  /** What was parsed and the tokens left. */
  type Parsed<+T> = Result<(T, seq<string>), ParseError>

  function Next(ts: seq<string>): Parsed<string> {
    if ts == [] then Err(EndOfInput) else Ok((ts[0], ts[1..]))
  }

  function Expect(kw: string, ts: seq<string>): Parsed<()> {
    var (tok, rest) :- Next(ts);
    if EqIgnoreAsciiCase(tok, kw) then Ok(((), rest)) else Err(Unexpected(tok))
  }

  predicate PeekKeyword(kw: string, ts: seq<string>) {
    ts != [] && EqIgnoreAsciiCase(ts[0], kw)
  }

  function OpOf(tok: string): Option<Op> {
    if tok == "=" then Some(Eq)
    else if tok == "!=" then Some(NotEq)
    else if tok == "<" then Some(Lt)
    else if tok == "<=" then Some(LtEq)
    else if tok == ">" then Some(Gt)
    else if tok == ">=" then Some(GtEq)
    else None
  }

  function ParseOp(ts: seq<string>): Parsed<Op> {
    var (tok, rest) :- Next(ts);
    match OpOf(tok) case Some(op) => Ok((op, rest)) case None => Err(Unexpected(tok))
  }

  /** The text between the quotes, if the token is quoted. */
  function Unquote(tok: string): Option<string> {
    if |tok| >= 2 && tok[0] == '"' && tok[|tok| - 1] == '"' then Some(tok[1..|tok| - 1]) else None
  }

  function ParseStringLit(ts: seq<string>): Parsed<string> {
    var (tok, rest) :- Next(ts);
    match Unquote(tok) case Some(s) => Ok((s, rest)) case None => Err(Unexpected(tok))
  }

  function ValueOf(m: TextModel, tok: string): Option<Value> {
    if tok != "" && tok[0] == '"' then
      match Unquote(tok) case Some(s) => Some(Text(s)) case None => None
    else if EqIgnoreAsciiCase(tok, "true") then Some(Boolean(true))
    else if EqIgnoreAsciiCase(tok, "false") then Some(Boolean(false))
    else if EqIgnoreAsciiCase(tok, "null") then Some(Null)
    else if '.' in tok then
      match m.parseFloat(tok) case Some(f) => Some(Float(f)) case None => None
    else
      match ParseI64(tok) case Some(i) => Some(Integer(i)) case None => None
  }

  function ParseValueLit(m: TextModel, ts: seq<string>): Parsed<Value> {
    var (tok, rest) :- Next(ts);
    match ValueOf(m, tok) case Some(v) => Ok((v, rest)) case None => Err(Unexpected(tok))
  }

  /** `N` or `E` and a number. */
  function ParseRef(prefix: char, ts: seq<string>): Parsed<U64> {
    var (tok, rest) :- Next(ts);
    var id := if tok != "" && tok[0] == prefix then ParseU64(tok[1..]) else None;
    match id case Some(n) => Ok((n, rest)) case None => Err(Unexpected(tok))
  }

  /** `props.` in any case; no character beyond ASCII has one of these letters as its lower case. */
  predicate PropsField(field: string) {
    |field| >= 6 && EqIgnoreAsciiCase(field[..6], "props.")
  }

  function ParseLabel(ts: seq<string>): Parsed<string> {
    var (op, rest) :- ParseOp(ts);
    if op != Eq then Err(Unexpected("label")) else ParseStringLit(rest)
  }

  function ParseProperty(m: TextModel, key: string, ts: seq<string>): Parsed<Condition> {
    var (op, rest) :- ParseOp(ts);
    var (value, rest') :- ParseValueLit(m, rest);
    Ok((Condition(key, op, value), rest'))
  }

  function ParseWeight(m: TextModel, ts: seq<string>): Parsed<WeightCondition> {
    var (op, rest) :- ParseOp(ts);
    var (raw, rest') :- Next(rest);
    match m.parseFloat(raw) case Some(f) => Ok((WeightCondition(op, f), rest')) case None => Err(Unexpected(raw))
  }

  function NodeCondition(m: TextModel, f: NodeFilter, ts: seq<string>): (r: Parsed<NodeFilter>)
    ensures r.Ok? ==> |r.value.1| < |ts|
  {
    var (field, rest) :- Next(ts);
    if EqIgnoreAsciiCase(field, "label") then
      var (l, rest') :- ParseLabel(rest);
      Ok((f.(lbl := Some(l)), rest'))
    else if PropsField(field) then
      var (c, rest') :- ParseProperty(m, field[6..], rest);
      Ok((f.(conditions := f.conditions + [c]), rest'))
    else Err(Unexpected(field))
  }

  function NodeChain(m: TextModel, f: NodeFilter, ts: seq<string>): Parsed<NodeFilter>
    decreases |ts|
  {
    var (f', rest) :- NodeCondition(m, f, ts);
    if PeekKeyword("AND", rest) then NodeChain(m, f', rest[1..]) else Ok((f', rest))
  }

  function OptionalNodeFilter(m: TextModel, ts: seq<string>): Parsed<NodeFilter> {
    if PeekKeyword("WHERE", ts) then NodeChain(m, NO_NODE_FILTER, ts[1..]) else Ok((NO_NODE_FILTER, ts))
  }

  function EdgeCondition(m: TextModel, f: EdgeFilter, ts: seq<string>): (r: Parsed<EdgeFilter>)
    ensures r.Ok? ==> |r.value.1| < |ts|
  {
    var (field, rest) :- Next(ts);
    if EqIgnoreAsciiCase(field, "label") then
      var (l, rest') :- ParseLabel(rest);
      Ok((f.(lbl := Some(l)), rest'))
    else if EqIgnoreAsciiCase(field, "weight") then
      var (w, rest') :- ParseWeight(m, rest);
      Ok((f.(weight := Some(w)), rest'))
    else if PropsField(field) then
      var (c, rest') :- ParseProperty(m, field[6..], rest);
      Ok((f.(conditions := f.conditions + [c]), rest'))
    else Err(Unexpected(field))
  }

  function EdgeChain(m: TextModel, f: EdgeFilter, ts: seq<string>): Parsed<EdgeFilter>
    decreases |ts|
  {
    var (f', rest) :- EdgeCondition(m, f, ts);
    if PeekKeyword("AND", rest) then EdgeChain(m, f', rest[1..]) else Ok((f', rest))
  }

  function OptionalEdgeFilter(m: TextModel, ts: seq<string>): Parsed<EdgeFilter> {
    if PeekKeyword("WHERE", ts) then EdgeChain(m, NO_EDGE_FILTER, ts[1..]) else Ok((NO_EDGE_FILTER, ts))
  }

  function ParseMatch(m: TextModel, ts: seq<string>): Parsed<QueryCommand> {
    var (kind, rest) :- Next(ts);
    if m.upper(kind) == "NODE" then
      var (f, rest') :- OptionalNodeFilter(m, rest);
      Ok((MatchNodes(f), rest'))
    else if m.upper(kind) == "EDGE" then
      var (f, rest') :- OptionalEdgeFilter(m, rest);
      Ok((MatchEdges(f), rest'))
    else Err(Unexpected(kind))
  }

  function ParseGet(m: TextModel, ts: seq<string>): Parsed<QueryCommand> {
    var (kind, rest) :- Next(ts);
    if m.upper(kind) == "NODE" then
      var (id, rest') :- ParseRef('N', rest);
      Ok((GetNode(id), rest'))
    else if m.upper(kind) == "EDGE" then
      var (id, rest') :- ParseRef('E', rest);
      Ok((GetEdge(id), rest'))
    else Err(Unexpected(kind))
  }

  function ParseTraverse(m: TextModel, ts: seq<string>): Parsed<QueryCommand> {
    var (algo, rest) :- Next(ts);
    if m.upper(algo) != "BFS" && m.upper(algo) != "DFS" then Err(Unexpected(algo))
    else
      var (_, rest') :- Expect("FROM", rest);
      var (start, rest'') :- ParseRef('N', rest');
      Ok((Traverse(if m.upper(algo) == "BFS" then Bfs else Dfs, start), rest''))
  }

  function ParsePath(ts: seq<string>): Parsed<QueryCommand> {
    var (_, r1) :- Expect("FROM", ts);
    var (start, r2) :- ParseRef('N', r1);
    var (_, r3) :- Expect("TO", r2);
    var (goal, r4) :- ParseRef('N', r3);
    Ok((ShortestPath(start, goal), r4))
  }

  function ParseCount(m: TextModel, ts: seq<string>): Parsed<QueryCommand> {
    var (what, rest) :- Next(ts);
    if m.upper(what) == "NODES" then Ok((CountNodes, rest))
    else if m.upper(what) == "EDGES" then Ok((CountEdges, rest))
    else Err(Unexpected(what))
  }

  /** Tokens after a whole command are not looked at. */
  function ParseTokens(m: TextModel, ts: seq<string>): Parsed<QueryCommand> {
    var (kw, rest) :- Next(ts);
    if m.upper(kw) == "MATCH" then ParseMatch(m, rest)
    else if m.upper(kw) == "GET" then ParseGet(m, rest)
    else if m.upper(kw) == "TRAVERSE" then ParseTraverse(m, rest)
    else if m.upper(kw) == "PATH" then ParsePath(rest)
    else if m.upper(kw) == "COUNT" then ParseCount(m, rest)
    else Err(Unexpected(kw))
  }

  /** A parsing method did what its function says: same outcome, and on success the same tokens left. */
  ghost predicate Agrees<T>(r: Result<T, ParseError>, left: seq<string>, p: Parsed<T>) {
    match p
    case Ok(v) => r == Ok(v.0) && left == v.1
    case Err(e) => r == Err(e)
  }

  class Parser {
    const m: TextModel
    const tokens: seq<string>
    var pos: nat

    constructor (m: TextModel, input: string)
      ensures this.m == m && Rest() == TokensOf(input)
    {
      var toks := Tokenize(input);
      this.m, tokens, pos := m, toks, 0;
    }

    /** The tokens not consumed yet. */
    ghost function Rest(): seq<string>
      reads this
    {
      if pos <= |tokens| then tokens[pos..] else []
    }

    predicate AtKeyword(kw: string)
      reads this
      ensures AtKeyword(kw) <==> PeekKeyword(kw, Rest())
    {
      pos < |tokens| && EqIgnoreAsciiCase(tokens[pos], kw)
    }

    method Advance() returns (r: Result<string, ParseError>)
      modifies this
      ensures Agrees(r, Rest(), Next(old(Rest())))
    {
      r := if pos < |tokens| then Ok(tokens[pos]) else Err(EndOfInput);
      pos := pos + 1;
    }

    method ExpectWord(kw: string) returns (r: Result<(), ParseError>)
      modifies this
      ensures Agrees(r, Rest(), Expect(kw, old(Rest())))
    {
      var tok :- Advance();
      r := if EqIgnoreAsciiCase(tok, kw) then Ok(()) else Err(Unexpected(tok));
    }

    method Operator() returns (r: Result<Op, ParseError>)
      modifies this
      ensures Agrees(r, Rest(), ParseOp(old(Rest())))
    {
      var tok :- Advance();
      var op := OpOf(tok);
      r := if op.Some? then Ok(op.value) else Err(Unexpected(tok));
    }

    method StringLit() returns (r: Result<string, ParseError>)
      modifies this
      ensures Agrees(r, Rest(), ParseStringLit(old(Rest())))
    {
      var tok :- Advance();
      var text := Unquote(tok);
      r := if text.Some? then Ok(text.value) else Err(Unexpected(tok));
    }

    method ValueLit() returns (r: Result<Value, ParseError>)
      modifies this
      ensures Agrees(r, Rest(), ParseValueLit(m, old(Rest())))
    {
      hide ValueOf;
      var tok :- Advance();
      var v := ValueOf(m, tok);
      r := if v.Some? then Ok(v.value) else Err(Unexpected(tok));
    }

    method Reference(prefix: char) returns (r: Result<U64, ParseError>)
      modifies this
      ensures Agrees(r, Rest(), ParseRef(prefix, old(Rest())))
    {
      hide ParseU64;
      var tok :- Advance();
      var id := if tok != "" && tok[0] == prefix then ParseU64(tok[1..]) else None;
      r := if id.Some? then Ok(id.value) else Err(Unexpected(tok));
    }

    method Label() returns (r: Result<string, ParseError>)
      modifies this
      ensures Agrees(r, Rest(), ParseLabel(old(Rest())))
    {
      hide Rest, ParseOp, ParseStringLit;
      var op :- Operator();
      if op != Eq {
        return Err(Unexpected("label"));
      }
      r := StringLit();
    }

    method Property(key: string) returns (r: Result<Condition, ParseError>)
      modifies this
      ensures Agrees(r, Rest(), ParseProperty(m, key, old(Rest())))
    {
      hide Rest, ParseOp, ParseValueLit;
      var op :- Operator();
      var value :- ValueLit();
      r := Ok(Condition(key, op, value));
    }

    method Weight() returns (r: Result<WeightCondition, ParseError>)
      modifies this
      ensures Agrees(r, Rest(), ParseWeight(m, old(Rest())))
    {
      hide Rest, ParseOp, Next;
      var op :- Operator();
      var raw :- Advance();
      var f := m.parseFloat(raw);
      r := if f.Some? then Ok(WeightCondition(op, f.value)) else Err(Unexpected(raw));
    }

    method ApplyNodeCondition(f: NodeFilter) returns (r: Result<NodeFilter, ParseError>)
      modifies this
      ensures Agrees(r, Rest(), NodeCondition(m, f, old(Rest())))
    {
      hide Rest, ParseLabel, ParseProperty, Next, EqIgnoreAsciiCase;
      var field :- Advance();
      if EqIgnoreAsciiCase(field, "label") {
        var l :- Label();
        r := Ok(f.(lbl := Some(l)));
      } else if PropsField(field) {
        var c :- Property(field[6..]);
        r := Ok(f.(conditions := f.conditions + [c]));
      } else {
        r := Err(Unexpected(field));
      }
    }

    method ApplyEdgeCondition(f: EdgeFilter) returns (r: Result<EdgeFilter, ParseError>)
      modifies this
      ensures Agrees(r, Rest(), EdgeCondition(m, f, old(Rest())))
    {
      hide Rest, ParseLabel, ParseProperty, ParseWeight, Next, EqIgnoreAsciiCase;
      var field :- Advance();
      if EqIgnoreAsciiCase(field, "label") {
        var l :- Label();
        r := Ok(f.(lbl := Some(l)));
      } else if EqIgnoreAsciiCase(field, "weight") {
        var w :- Weight();
        r := Ok(f.(weight := Some(w)));
      } else if PropsField(field) {
        var c :- Property(field[6..]);
        r := Ok(f.(conditions := f.conditions + [c]));
      } else {
        r := Err(Unexpected(field));
      }
    }

    method NodeFilterChain() returns (r: Result<NodeFilter, ParseError>)
      modifies this
      ensures Agrees(r, Rest(), NodeChain(m, NO_NODE_FILTER, old(Rest())))
    {
      hide Rest, NodeCondition, EqIgnoreAsciiCase;
      var f := NO_NODE_FILTER;
      while true
        invariant NodeChain(m, f, Rest()) == NodeChain(m, NO_NODE_FILTER, old(Rest()))
        decreases |Rest()|
      {
        f :- ApplyNodeCondition(f);
        if AtKeyword("AND") {
          Skip();
        } else {
          break;
        }
      }
      r := Ok(f);
    }

    method EdgeFilterChain() returns (r: Result<EdgeFilter, ParseError>)
      modifies this
      ensures Agrees(r, Rest(), EdgeChain(m, NO_EDGE_FILTER, old(Rest())))
    {
      hide Rest, EdgeCondition, EqIgnoreAsciiCase;
      var f := NO_EDGE_FILTER;
      while true
        invariant EdgeChain(m, f, Rest()) == EdgeChain(m, NO_EDGE_FILTER, old(Rest()))
        decreases |Rest()|
      {
        f :- ApplyEdgeCondition(f);
        if AtKeyword("AND") {
          Skip();
        } else {
          break;
        }
      }
      r := Ok(f);
    }

    /** `self.next()` on a token already looked at. */
    method Skip()
      requires Rest() != []
      modifies this
      ensures Rest() == old(Rest())[1..]
    {
      pos := pos + 1;
    }

    method Match() returns (r: Result<QueryCommand, ParseError>)
      modifies this
      ensures Agrees(r, Rest(), ParseMatch(m, old(Rest())))
    {
      hide Rest, NodeChain, EdgeChain, EqIgnoreAsciiCase;
      var kind :- Advance();
      if m.upper(kind) == "NODE" {
        var f := NO_NODE_FILTER;
        if AtKeyword("WHERE") {
          Skip();
          f :- NodeFilterChain();
        }
        r := Ok(MatchNodes(f));
      } else if m.upper(kind) == "EDGE" {
        var f := NO_EDGE_FILTER;
        if AtKeyword("WHERE") {
          Skip();
          f :- EdgeFilterChain();
        }
        r := Ok(MatchEdges(f));
      } else {
        r := Err(Unexpected(kind));
      }
    }

    method Get() returns (r: Result<QueryCommand, ParseError>)
      modifies this
      ensures Agrees(r, Rest(), ParseGet(m, old(Rest())))
    {
      hide Rest, Next, ParseRef;
      var kind :- Advance();
      if m.upper(kind) == "NODE" {
        var id :- Reference('N');
        r := Ok(GetNode(id));
      } else if m.upper(kind) == "EDGE" {
        var id :- Reference('E');
        r := Ok(GetEdge(id));
      } else {
        r := Err(Unexpected(kind));
      }
    }

    method Traversal() returns (r: Result<QueryCommand, ParseError>)
      modifies this
      ensures Agrees(r, Rest(), ParseTraverse(m, old(Rest())))
    {
      hide Rest, Next, ParseRef, Expect;
      var algo :- Advance();
      var kind;
      if m.upper(algo) == "BFS" {
        kind := Bfs;
      } else if m.upper(algo) == "DFS" {
        kind := Dfs;
      } else {
        return Err(Unexpected(algo));
      }
      var _ :- ExpectWord("FROM");
      var start :- Reference('N');
      r := Ok(Traverse(kind, start));
    }

    method Path() returns (r: Result<QueryCommand, ParseError>)
      modifies this
      ensures Agrees(r, Rest(), ParsePath(old(Rest())))
    {
      hide Rest, Expect, ParseRef;
      var _ :- ExpectWord("FROM");
      var start :- Reference('N');
      var _ :- ExpectWord("TO");
      var goal :- Reference('N');
      r := Ok(ShortestPath(start, goal));
    }

    method Counting() returns (r: Result<QueryCommand, ParseError>)
      modifies this
      ensures Agrees(r, Rest(), ParseCount(m, old(Rest())))
    {
      hide Rest, Next;
      var what :- Advance();
      r := if m.upper(what) == "NODES" then Ok(CountNodes)
           else if m.upper(what) == "EDGES" then Ok(CountEdges)
           else Err(Unexpected(what));
    }

    method Parse() returns (r: Result<QueryCommand, ParseError>)
      modifies this
      ensures Agrees(r, Rest(), ParseTokens(m, old(Rest())))
    {
      hide Rest, Next, ParseMatch, ParseGet, ParseTraverse, ParsePath, ParseCount;
      var kw :- Advance();
      if m.upper(kw) == "MATCH" {
        r := Match();
      } else if m.upper(kw) == "GET" {
        r := Get();
      } else if m.upper(kw) == "TRAVERSE" {
        r := Traversal();
      } else if m.upper(kw) == "PATH" {
        r := Path();
      } else if m.upper(kw) == "COUNT" {
        r := Counting();
      } else {
        r := Err(Unexpected(kw));
      }
    }
  }

  // ---- Printer ----

  function ValueText(m: TextModel, v: Value): string {
    match v
    case Null => "null"
    case Boolean(b) => if b then "true" else "false"
    case Integer(i) => ShowInt(i)
    case Float(f) => m.showFloat(f)
    case Text(s) => Quoted(s)
  }

  function ClauseTokens(m: TextModel, kw: string -> string, c: Clause): seq<string> {
    match c
    case LabelIs(l) => [kw("label"), "=", Quoted(l)]
    case WeightIs(w) => [kw("weight"), OpText(w.op), m.showFloat(w.value)]
    case PropIs(p) => [kw("props.") + p.key, OpText(p.op), ValueText(m, p.value)]
  }

  function ChainTokens(m: TextModel, kw: string -> string, cs: seq<Clause>): seq<string>
    requires cs != []
  {
    ClauseTokens(m, kw, cs[0]) + if |cs| == 1 then [] else [kw("AND")] + ChainTokens(m, kw, cs[1..])
  }

  function WhereTokens(m: TextModel, kw: string -> string, cs: seq<Clause>): seq<string> {
    if cs == [] then [] else [kw("WHERE")] + ChainTokens(m, kw, cs)
  }

  function NodeClauses(f: NodeFilter): seq<Clause> {
    LabelClause(f.lbl) + PropClauses(f.conditions)
  }

  function EdgeClauses(f: EdgeFilter): seq<Clause> {
    LabelClause(f.lbl) + WeightClause(f.weight) + PropClauses(f.conditions)
  }

  function Print(m: TextModel, kw: string -> string, command: QueryCommand): seq<string> {
    match command
    case MatchNodes(f) => [kw("MATCH"), kw("NODE")] + WhereTokens(m, kw, NodeClauses(f))
    case MatchEdges(f) => [kw("MATCH"), kw("EDGE")] + WhereTokens(m, kw, EdgeClauses(f))
    case GetNode(id) => [kw("GET"), kw("NODE"), "N" + Digits(id)]
    case GetEdge(id) => [kw("GET"), kw("EDGE"), "E" + Digits(id)]
    case Traverse(kind, start) =>
      [kw("TRAVERSE"), kw(if kind.Bfs? then "BFS" else "DFS"), kw("FROM"), "N" + Digits(start)]
    case ShortestPath(from, goal) => [kw("PATH"), kw("FROM"), "N" + Digits(from), kw("TO"), "N" + Digits(goal)]
    case CountNodes => [kw("COUNT"), kw("NODES")]
    case CountEdges => [kw("COUNT"), kw("EDGES")]
  }

  // ---- What can be printed ----

  ghost predicate PrintableValue(m: TextModel, v: Value) {
    match v
    case Text(s) => QuoteFree(s)
    case Float(f) => m.Shown(f)
    case _ => true
  }

  ghost predicate PrintableClause(m: TextModel, c: Clause) {
    match c
    case LabelIs(l) => QuoteFree(l)
    case WeightIs(w) => m.Shown(w.value)
    case PropIs(p) => (p.key == "" || Plain(p.key)) && PrintableValue(m, p.value)
  }

  ghost predicate PrintableClauses(m: TextModel, cs: seq<Clause>) {
    forall i :: 0 <= i < |cs| ==> PrintableClause(m, cs[i])
  }

  /** Texts without quotes, keys without quotes and blanks, floats with a literal. */
  ghost predicate Printable(m: TextModel, command: QueryCommand) {
    match command
    case MatchNodes(f) => PrintableClauses(m, NodeClauses(f))
    case MatchEdges(f) => PrintableClauses(m, EdgeClauses(f))
    case _ => true
  }

  // ---- The parser undoes the printer ----

  /** The words that name a field, in any spelling, are told apart. */
  lemma FieldNames(kw: string -> string, key: string)
    requires IsSpelling(kw)
    ensures EqIgnoreAsciiCase(kw("label"), "label") && !EqIgnoreAsciiCase(kw("weight"), "label")
    ensures EqIgnoreAsciiCase(kw("weight"), "weight")
    ensures var field := kw("props.") + key;
            && !EqIgnoreAsciiCase(field, "label") && !EqIgnoreAsciiCase(field, "weight")
            && PropsField(field) && field[6..] == key
  {
    var field := kw("props.") + key;
    assert |AsciiUpper(kw("props."))| == 6 && |AsciiUpper(kw("weight"))| == 6;
    assert field[..6] == kw("props.");
    SpelledWord(kw, "props.", 0);
    assert AsciiUpper(field)[0] == AsciiUpperChar(field[0]) == 'P';
    assert AsciiUpper("weight")[0] == 'W';
    assert |AsciiUpper("label")| == 5;
  }

  lemma OpReads(op: Op)
    ensures OpOf(OpText(op)) == Some(op) && Plain(OpText(op))
  {
  }

  lemma UnquoteQuoted(s: string)
    ensures Unquote(Quoted(s)) == Some(s) && |Quoted(s)| >= 2 && Quoted(s)[0] == '"'
  {
    assert Quoted(s)[1..|Quoted(s)| - 1] == s;
  }

  /** A word that starts with a digit or a sign is none of the literal names. */
  lemma NotAName(tok: string, name: string)
    requires tok != "" && name != "" && Letter(name[0]) && !Letter(tok[0])
    ensures !EqIgnoreAsciiCase(tok, name)
  {
    assert AsciiUpper(tok)[0] == AsciiUpperChar(tok[0]);
    assert AsciiUpper(name)[0] == AsciiUpperChar(name[0]);
  }

  lemma ReadsNumber(m: TextModel, tok: string)
    requires tok != "" && (IsDigit(tok[0]) || tok[0] == '-')
    ensures ValueOf(m, tok)
         == if '.' in tok then match m.parseFloat(tok) case Some(f) => Some(Float(f)) case None => None
            else match ParseI64(tok) case Some(i) => Some(Integer(i)) case None => None
  {
    hide EqIgnoreAsciiCase;
    NotAName(tok, "true");
    NotAName(tok, "false");
    NotAName(tok, "null");
  }

  /** Literals read back. */
  lemma ValueReads(m: TextModel, v: Value)
    requires PrintableValue(m, v)
    ensures ValueOf(m, ValueText(m, v)) == Some(v)
  {
    hide Digits, ParseI64, Unquote, Quoted;
    match v
    case Text(s) => UnquoteQuoted(s);
    case Integer(i) =>
      IntToken(i);
      ReadsNumber(m, ShowInt(i));
      I64RoundTrip(i);
    case Float(f) =>
      var tok := m.showFloat(f);
      var k :| 0 < k < |tok| && tok[k] == '.' && AllDigits(tok[..k]) && AllDigits(tok[k + 1..]);
      assert tok[0] == tok[..k][0];
      ReadsNumber(m, tok);
    case Null =>
      assert AsciiUpper("null")[0] == 'N' && AsciiUpper("true")[0] == 'T' && AsciiUpper("false")[0] == 'F';
    case Boolean(b) =>
      assert AsciiUpper("true")[0] == 'T' && AsciiUpper("false")[0] == 'F';
  }

  lemma IntToken(i: I64)
    ensures ShowInt(i) != "" && (IsDigit(ShowInt(i)[0]) || ShowInt(i)[0] == '-')
    ensures '.' !in ShowInt(i) && Plain(ShowInt(i))
  {
    hide Digits;
    DigitsReadBack(if i < 0 then 0 - i as int else i as int);
    assert AllDigits(Digits(if i < 0 then 0 - i as int else i as int));
  }

  lemma NodeClauseReads(m: TextModel, kw: string -> string, f: NodeFilter, c: Clause, rest: seq<string>)
    requires IsSpelling(kw) && PrintableClause(m, c) && !c.WeightIs?
    ensures NodeCondition(m, f, ClauseTokens(m, kw, c) + rest) == Ok((AddToNode(f, c), rest))
  {
    hide EqIgnoreAsciiCase, ValueOf, ValueText, OpOf, OpText, Unquote, Quoted, PropsField;
    var ts := ClauseTokens(m, kw, c) + rest;
    assert ts[1..][1..][1..] == rest;
    match c
    case LabelIs(l) =>
      FieldNames(kw, "");
      OpReads(Eq);
      assert OpText(Eq) == "=" by { OpTextEq(); }
      UnquoteQuoted(l);
    case PropIs(p) =>
      FieldNames(kw, p.key);
      OpReads(p.op);
      ValueReads(m, p.value);
  }

  lemma OpTextEq()
    ensures OpText(Eq) == "="
  {
  }

  lemma EdgeClauseReads(m: TextModel, kw: string -> string, f: EdgeFilter, c: Clause, rest: seq<string>)
    requires IsSpelling(kw) && PrintableClause(m, c)
    ensures EdgeCondition(m, f, ClauseTokens(m, kw, c) + rest) == Ok((AddToEdge(f, c), rest))
  {
    hide EqIgnoreAsciiCase, ValueOf, ValueText, OpOf, OpText, Unquote, Quoted, PropsField;
    var ts := ClauseTokens(m, kw, c) + rest;
    assert ts[1..][1..][1..] == rest;
    match c
    case LabelIs(l) =>
      FieldNames(kw, "");
      OpReads(Eq);
      assert OpText(Eq) == "=" by { OpTextEq(); }
      UnquoteQuoted(l);
    case WeightIs(w) =>
      FieldNames(kw, "");
      OpReads(w.op);
    case PropIs(p) =>
      FieldNames(kw, p.key);
      OpReads(p.op);
      ValueReads(m, p.value);
  }

  /** A chain of clauses is folded into the filter, a later label replacing an earlier one. */
  lemma {:induction false} NodeChainReads(m: TextModel, kw: string -> string, f: NodeFilter, cs: seq<Clause>,
                                          rest: seq<string>)
    requires m.Laws() && IsSpelling(kw) && PrintableClauses(m, cs) && cs != [] && !PeekKeyword("AND", rest)
    requires forall i :: 0 <= i < |cs| ==> !cs[i].WeightIs?
    ensures NodeChain(m, f, ChainTokens(m, kw, cs) + rest) == Ok((BuildNode(f, cs), rest))
    decreases |cs|
  {
    hide NodeCondition, ClauseTokens, EqIgnoreAsciiCase, TextModel.Laws;
    var more := if |cs| == 1 then rest else [kw("AND")] + ChainTokens(m, kw, cs[1..]) + rest;
    assert ChainTokens(m, kw, cs) + rest == ClauseTokens(m, kw, cs[0]) + more;
    NodeClauseReads(m, kw, f, cs[0], more);
    if |cs| > 1 {
      Spelled(m, kw, "AND");
      assert more[1..] == ChainTokens(m, kw, cs[1..]) + rest;
      NodeChainReads(m, kw, AddToNode(f, cs[0]), cs[1..], rest);
    } else {
      assert cs[1..] == [];
    }
  }

  lemma {:induction false} EdgeChainReads(m: TextModel, kw: string -> string, f: EdgeFilter, cs: seq<Clause>,
                                          rest: seq<string>)
    requires m.Laws() && IsSpelling(kw) && PrintableClauses(m, cs) && cs != [] && !PeekKeyword("AND", rest)
    ensures EdgeChain(m, f, ChainTokens(m, kw, cs) + rest) == Ok((BuildEdge(f, cs), rest))
    decreases |cs|
  {
    hide EdgeCondition, ClauseTokens, EqIgnoreAsciiCase, TextModel.Laws;
    var more := if |cs| == 1 then rest else [kw("AND")] + ChainTokens(m, kw, cs[1..]) + rest;
    assert ChainTokens(m, kw, cs) + rest == ClauseTokens(m, kw, cs[0]) + more;
    EdgeClauseReads(m, kw, f, cs[0], more);
    if |cs| > 1 {
      Spelled(m, kw, "AND");
      assert more[1..] == ChainTokens(m, kw, cs[1..]) + rest;
      EdgeChainReads(m, kw, AddToEdge(f, cs[0]), cs[1..], rest);
    } else {
      assert cs[1..] == [];
    }
  }

  lemma NodeClausesRebuild(f: NodeFilter)
    ensures BuildNode(NO_NODE_FILTER, NodeClauses(f)) == f
  {
    var start := if f.lbl.Some? then AddToNode(NO_NODE_FILTER, LabelIs(f.lbl.value)) else NO_NODE_FILTER;
    if f.lbl.Some? {
      assert NodeClauses(f)[1..] == PropClauses(f.conditions);
    } else {
      assert NodeClauses(f) == PropClauses(f.conditions);
    }
    BuildNodeProps(start, f.conditions);
    assert [] + f.conditions == f.conditions;
  }

  lemma EdgeClausesRebuild(f: EdgeFilter)
    ensures BuildEdge(NO_EDGE_FILTER, EdgeClauses(f)) == f
  {
    var tail := WeightClause(f.weight) + PropClauses(f.conditions);
    var start := if f.lbl.Some? then AddToEdge(NO_EDGE_FILTER, LabelIs(f.lbl.value)) else NO_EDGE_FILTER;
    assert EdgeClauses(f) == LabelClause(f.lbl) + tail;
    if f.lbl.Some? {
      assert EdgeClauses(f)[1..] == tail;
    } else {
      assert EdgeClauses(f) == tail;
    }
    if f.weight.Some? {
      assert tail[1..] == PropClauses(f.conditions);
      BuildEdgeProps(AddToEdge(start, WeightIs(f.weight.value)), f.conditions);
    } else {
      assert tail == PropClauses(f.conditions);
      BuildEdgeProps(start, f.conditions);
    }
    assert [] + f.conditions == f.conditions;
  }

  lemma NodeWhereReads(m: TextModel, kw: string -> string, cs: seq<Clause>)
    requires m.Laws() && IsSpelling(kw) && PrintableClauses(m, cs) && forall i :: 0 <= i < |cs| ==> !cs[i].WeightIs?
    ensures OptionalNodeFilter(m, WhereTokens(m, kw, cs)) == Ok((BuildNode(NO_NODE_FILTER, cs), []))
  {
    hide NodeChain, ChainTokens, EqIgnoreAsciiCase, TextModel.Laws, IsSpelling, PrintableClause, BuildNode;
    if cs != [] {
      WhereBegins(m, kw, cs);
      NodeChainReads(m, kw, NO_NODE_FILTER, cs, []);
    } else {
      BuildNothing();
    }
  }

  lemma EdgeWhereReads(m: TextModel, kw: string -> string, cs: seq<Clause>)
    requires m.Laws() && IsSpelling(kw) && PrintableClauses(m, cs)
    ensures OptionalEdgeFilter(m, WhereTokens(m, kw, cs)) == Ok((BuildEdge(NO_EDGE_FILTER, cs), []))
  {
    hide EdgeChain, ChainTokens, EqIgnoreAsciiCase, TextModel.Laws, IsSpelling, PrintableClause, BuildEdge;
    if cs != [] {
      WhereBegins(m, kw, cs);
      EdgeChainReads(m, kw, NO_EDGE_FILTER, cs, []);
    } else {
      BuildNothing();
    }
  }

  lemma WhereBegins(m: TextModel, kw: string -> string, cs: seq<Clause>)
    requires m.Laws() && IsSpelling(kw) && cs != []
    ensures PeekKeyword("WHERE", WhereTokens(m, kw, cs))
    ensures WhereTokens(m, kw, cs)[1..] == ChainTokens(m, kw, cs) + []
  {
    hide TextModel.Laws, IsSpelling, ChainTokens;
    Spelled(m, kw, "WHERE");
  }

  lemma BuildNothing()
    ensures BuildNode(NO_NODE_FILTER, []) == NO_NODE_FILTER && BuildEdge(NO_EDGE_FILTER, []) == NO_EDGE_FILTER
  {
  }

  /** Commands are told apart by their first word. */
  lemma CommandWords(m: TextModel, kw: string -> string)
    requires m.Laws() && IsSpelling(kw)
    ensures m.upper(kw("MATCH")) == "MATCH" && m.upper(kw("GET")) == "GET" && m.upper(kw("TRAVERSE")) == "TRAVERSE"
    ensures m.upper(kw("PATH")) == "PATH" && m.upper(kw("COUNT")) == "COUNT"
    ensures m.upper(kw("NODE")) == "NODE" && m.upper(kw("EDGE")) == "EDGE"
    ensures m.upper(kw("NODES")) == "NODES" && m.upper(kw("EDGES")) == "EDGES"
    ensures m.upper(kw("BFS")) == "BFS" && m.upper(kw("DFS")) == "DFS"
    ensures EqIgnoreAsciiCase(kw("FROM"), "FROM") && EqIgnoreAsciiCase(kw("TO"), "TO")
  {
    hide TextModel.Laws, IsSpelling;
    Spelled(m, kw, "MATCH");
    Spelled(m, kw, "GET");
    Spelled(m, kw, "TRAVERSE");
    Spelled(m, kw, "PATH");
    Spelled(m, kw, "COUNT");
    Spelled(m, kw, "NODE");
    Spelled(m, kw, "EDGE");
    Spelled(m, kw, "NODES");
    Spelled(m, kw, "EDGES");
    Spelled(m, kw, "BFS");
    Spelled(m, kw, "DFS");
    Spelled(m, kw, "FROM");
    Spelled(m, kw, "TO");
  }

  lemma RefReads(prefix: char, id: U64, rest: seq<string>)
    ensures ParseRef(prefix, [[prefix] + Digits(id)] + rest) == Ok((id, rest))
  {
    hide Digits, ParseU64;
    U64RoundTrip(id);
    var tok := [prefix] + Digits(id);
    assert tok[1..] == Digits(id) && ([tok] + rest)[1..] == rest;
  }

  lemma MatchReads(m: TextModel, kw: string -> string, command: QueryCommand)
    requires m.Laws() && IsSpelling(kw) && Printable(m, command) && (command.MatchNodes? || command.MatchEdges?)
    ensures ParseTokens(m, Print(m, kw, command)) == Ok((command, []))
  {
    hide TextModel.Laws, IsSpelling, PrintableClauses, OptionalNodeFilter, OptionalEdgeFilter, EqIgnoreAsciiCase,
         WhereTokens;
    CommandWords(m, kw);
    var ts := Print(m, kw, command);
    if command.MatchNodes? {
      var cs := NodeClauses(command.nodeFilter);
      NodeWhereReads(m, kw, cs);
      NodeClausesRebuild(command.nodeFilter);
      assert ts[1..][1..] == WhereTokens(m, kw, cs);
    } else {
      var cs := EdgeClauses(command.edgeFilter);
      EdgeWhereReads(m, kw, cs);
      EdgeClausesRebuild(command.edgeFilter);
      assert ts[1..][1..] == WhereTokens(m, kw, cs);
    }
  }

  /** The parser undoes the printer, in whatever case the keywords are written. */
  lemma PrintedParses(m: TextModel, kw: string -> string, command: QueryCommand)
    requires m.Laws() && IsSpelling(kw) && Printable(m, command)
    ensures ParseTokens(m, Print(m, kw, command)) == Ok((command, []))
  {
    hide TextModel.Laws, IsSpelling, EqIgnoreAsciiCase, ParseRef, Digits, ParseMatch, WhereTokens;
    CommandWords(m, kw);
    var ts := Print(m, kw, command);
    match command
    case MatchNodes(_) => MatchReads(m, kw, command);
    case MatchEdges(_) => MatchReads(m, kw, command);
    case GetNode(id) =>
      RefReads('N', id, []);
      assert ts[1..][1..] == ["N" + Digits(id)] + [];
    case GetEdge(id) =>
      RefReads('E', id, []);
      assert ts[1..][1..] == ["E" + Digits(id)] + [];
    case Traverse(_, start) =>
      RefReads('N', start, []);
      assert ts[1..][1..][1..] == ["N" + Digits(start)] + [];
    case ShortestPath(from, goal) =>
      var tail := [kw("TO"), "N" + Digits(goal)];
      RefReads('N', from, tail);
      RefReads('N', goal, []);
      assert ts[1..][1..] == ["N" + Digits(from)] + tail && tail[1..] == ["N" + Digits(goal)] + [];
    case _ =>
  }

  // ---- Printed tokens survive the tokenizer ----

  lemma PlainConcat(a: string, b: string)
    requires Plain(a) && (b == "" || Plain(b))
    ensures Plain(a + b)
  {
  }

  lemma WordPlain(kw: string -> string, s: string)
    requires IsSpelling(kw) && s != "" && forall i :: 0 <= i < |s| ==> Letter(s[i]) || s[i] == '.'
    ensures Plain(kw(s))
  {
    SpelledWord(kw, s, 0);
    forall i | 0 <= i < |kw(s)| ensures kw(s)[i] != '"' && !IsBlank(kw(s)[i]) {
      assert |AsciiUpper(kw(s))| == |AsciiUpper(s)|;
      SpelledWord(kw, s, i);
    }
  }

  lemma FloatPlain(m: TextModel, f: F64)
    requires m.Shown(f)
    ensures Plain(m.showFloat(f))
  {
    var tok := m.showFloat(f);
    var k :| 0 < k < |tok| && tok[k] == '.' && AllDigits(tok[..k]) && AllDigits(tok[k + 1..]);
    forall i | 0 <= i < |tok| ensures IsDigit(tok[i]) || tok[i] == '.' {
      if i < k {
        assert tok[i] == tok[..k][i];
      } else if i > k {
        assert tok[i] == tok[k + 1..][i - k - 1];
      }
    }
  }

  ghost predicate AllTokens(ts: seq<string>) {
    forall i :: 0 <= i < |ts| ==> IsToken(ts[i])
  }

  lemma AllTokensConcat(a: seq<string>, b: seq<string>)
    requires AllTokens(a) && AllTokens(b)
    ensures AllTokens(a + b)
  {
  }

  lemma ValueToken(m: TextModel, v: Value)
    requires PrintableValue(m, v)
    ensures IsToken(ValueText(m, v))
  {
    match v
    case Integer(i) => IntToken(i);
    case Float(f) => FloatPlain(m, f);
    case _ =>
  }

  lemma ClauseTokensOk(m: TextModel, kw: string -> string, c: Clause)
    requires IsSpelling(kw) && PrintableClause(m, c)
    ensures AllTokens(ClauseTokens(m, kw, c))
  {
    hide ValueText, OpText;
    match c
    case LabelIs(l) => WordPlain(kw, "label");
    case WeightIs(w) =>
      WordPlain(kw, "weight");
      OpReads(w.op);
      FloatPlain(m, w.value);
    case PropIs(p) =>
      WordPlain(kw, "props.");
      PlainConcat(kw("props."), p.key);
      OpReads(p.op);
      ValueToken(m, p.value);
  }

  lemma {:induction false} ChainTokensOk(m: TextModel, kw: string -> string, cs: seq<Clause>)
    requires IsSpelling(kw) && cs != [] && PrintableClauses(m, cs)
    ensures AllTokens(ChainTokens(m, kw, cs))
    decreases |cs|
  {
    hide ClauseTokens, IsToken;
    ClauseTokensOk(m, kw, cs[0]);
    if |cs| > 1 {
      ChainTokensOk(m, kw, cs[1..]);
      WordToken(kw, "AND");
      AllTokensConcat([kw("AND")], ChainTokens(m, kw, cs[1..]));
      AllTokensConcat(ClauseTokens(m, kw, cs[0]), [kw("AND")] + ChainTokens(m, kw, cs[1..]));
    } else {
      AllTokensConcat(ClauseTokens(m, kw, cs[0]), []);
    }
  }

  lemma WordToken(kw: string -> string, s: string)
    requires IsSpelling(kw) && s != "" && forall i :: 0 <= i < |s| ==> Letter(s[i]) || s[i] == '.'
    ensures IsToken(kw(s))
  {
    WordPlain(kw, s);
  }

  lemma RefToken(prefix: char, id: U64)
    requires Letter(prefix)
    ensures IsToken([prefix] + Digits(id))
  {
    DigitsReadBack(id);
    PlainConcat([prefix], Digits(id));
  }

  lemma WhereTokensOk(m: TextModel, kw: string -> string, cs: seq<Clause>)
    requires IsSpelling(kw) && PrintableClauses(m, cs)
    ensures AllTokens(WhereTokens(m, kw, cs))
  {
    hide IsToken, ChainTokens;
    if cs != [] {
      WordToken(kw, "WHERE");
      ChainTokensOk(m, kw, cs);
      AllTokensConcat([kw("WHERE")], ChainTokens(m, kw, cs));
    }
  }

  lemma WordsAreTokens(kw: string -> string)
    requires IsSpelling(kw)
    ensures IsToken(kw("MATCH")) && IsToken(kw("GET")) && IsToken(kw("TRAVERSE")) && IsToken(kw("PATH"))
    ensures IsToken(kw("COUNT")) && IsToken(kw("NODE")) && IsToken(kw("EDGE")) && IsToken(kw("NODES")) &&
            IsToken(kw("EDGES"))
    ensures IsToken(kw("BFS")) && IsToken(kw("DFS")) && IsToken(kw("FROM")) && IsToken(kw("TO"))
  {
    hide IsSpelling, IsToken;
    WordToken(kw, "MATCH");
    WordToken(kw, "GET");
    WordToken(kw, "TRAVERSE");
    WordToken(kw, "PATH");
    WordToken(kw, "COUNT");
    WordToken(kw, "NODE");
    WordToken(kw, "EDGE");
    WordToken(kw, "NODES");
    WordToken(kw, "EDGES");
    WordToken(kw, "BFS");
    WordToken(kw, "DFS");
    WordToken(kw, "FROM");
    WordToken(kw, "TO");
  }

  lemma PrintTokensOk(m: TextModel, kw: string -> string, command: QueryCommand)
    requires IsSpelling(kw) && Printable(m, command)
    ensures AllTokens(Print(m, kw, command))
  {
    hide IsToken, WhereTokens, PrintableClauses, Digits, IsSpelling;
    WordsAreTokens(kw);
    match command
    case MatchNodes(f) =>
      WhereTokensOk(m, kw, NodeClauses(f));
      AllTokensConcat([kw("MATCH"), kw("NODE")], WhereTokens(m, kw, NodeClauses(f)));
    case MatchEdges(f) =>
      WhereTokensOk(m, kw, EdgeClauses(f));
      AllTokensConcat([kw("MATCH"), kw("EDGE")], WhereTokens(m, kw, EdgeClauses(f)));
    case GetNode(id) => RefToken('N', id);
    case GetEdge(id) => RefToken('E', id);
    case Traverse(_, start) => RefToken('N', start);
    case ShortestPath(from, goal) =>
      RefToken('N', from);
      RefToken('N', goal);
    case _ =>
  }

  /** What a query text means. */
  function Meaning(m: TextModel, input: string): Result<QueryCommand, ParseError> {
    match ParseTokens(m, TokensOf(input))
    case Ok(p) => Ok(p.0)
    case Err(e) => Err(e)
  }

  /** Any printed command, in any spelling of the keywords and with any blank space between its
      tokens, means itself. */
  lemma RoundTrip(m: TextModel, kw: string -> string, command: QueryCommand, gaps: seq<string>, end: string)
    requires m.Laws() && IsSpelling(kw) && Printable(m, command)
    requires Separates(gaps, Print(m, kw, command)) && Blanks(end)
    ensures Meaning(m, Spread(gaps, Print(m, kw, command)) + end) == Ok(command)
  {
    hide TextModel.Laws, IsSpelling, Printable, Print, ParseTokens, TokensOf, Separates, IsToken;
    PrintTokensOk(m, kw, command);
    TokenizeSpread(gaps, Print(m, kw, command), end);
    PrintedParses(m, kw, command);
  }

  /** Reads a query text. */
  method ParseQuery(m: TextModel, input: string) returns (r: Result<QueryCommand, ParseError>)
    ensures r == Meaning(m, input)
  {
    hide ParseTokens, TokensOf;
    var parser := new Parser(m, input);
    r := parser.Parse();
  }
}
