/** Texts of both query languages spelled out, with what they mean: the examples at the head of
    src/query/languages/simple.rs and cypher_lite.rs, for every number, name and operator in them. */
module Texts {
  import opened Core
  import opened Lexical
  import opened QueryAst
  import SimpleQuery
  import CypherLite

  /** The words with one blank between any two. */
  function Line(words: seq<string>): string {
    if words == [] then ""
    else if |words| == 1 then words[0]
    else Line(words[..|words| - 1]) + " " + words[|words| - 1]
  }

  ghost predicate SimpleReads(m: TextModel, words: seq<string>, command: QueryCommand) {
    SimpleQuery.Meaning(m, Line(words)) == Ok(command)
  }

  ghost predicate CypherReads(m: TextModel, words: seq<string>, command: QueryCommand)
    requires m.Laws()
  {
    CypherLite.Meaning(m, Line(words)) == Ok(command)
  }

  predicate Written(op: Op, w: string) {
    match op
    case Eq => w == "="
    case NotEq => w == "!="
    case Lt => w == "<"
    case LtEq => w == "<="
    case Gt => w == ">"
    case GtEq => w == ">="
  }

  function AsIs(word: string): string {
    word
  }

  // ---- The keyword language ----

  function Gaps(n: nat): seq<string> {
    if n == 0 then [] else if n == 1 then [""] else Gaps(n - 1) + [" "]
  }

  lemma {:induction false} GapsAre(n: nat)
    ensures |Gaps(n)| == n && forall i :: 0 <= i < n ==> Gaps(n)[i] == if i == 0 then "" else " "
  {
    if n > 1 {
      GapsAre(n - 1);
    }
  }

  lemma {:induction false} LineSpread(words: seq<string>)
    ensures |Gaps(|words|)| == |words| && SimpleQuery.Spread(Gaps(|words|), words) == Line(words)
    decreases |words|
  {
    var n := |words| - 1;
    GapsAre(|words|);
    if n >= 0 {
      GapsAre(n);
      LineSpread(words[..n]);
      assert Gaps(|words|)[..n] == Gaps(n);
      if n == 0 {
        assert SimpleQuery.Spread([], []) == "";
        assert "" + "" + words[0] == words[0];
      }
    }
  }

  lemma SimpleLine(m: TextModel, words: seq<string>, command: QueryCommand)
    requires m.Laws() && SimpleQuery.Printable(m, command) && words == SimpleQuery.Print(m, AsIs, command)
    ensures SimpleReads(m, words, command)
  {
    hide TextModel.Laws, SimpleQuery.Printable, SimpleQuery.Print, SimpleQuery.Meaning, SimpleQuery.Spread, Line;
    LineSpread(words);
    GapsAre(|words|);
    SimpleQuery.RoundTrip(m, AsIs, command, Gaps(|words|), "");
    assert Line(words) + "" == Line(words);
  }

  lemma SimpleLookups(m: TextModel, id: U64, goal: U64)
    requires m.Laws()
    ensures SimpleReads(m, ["GET", "NODE", "N" + Digits(id)], GetNode(id))
    ensures SimpleReads(m, ["GET", "EDGE", "E" + Digits(id)], GetEdge(id))
    ensures SimpleReads(m, ["TRAVERSE", "BFS", "FROM", "N" + Digits(id)], Traverse(Bfs, id))
    ensures SimpleReads(m, ["TRAVERSE", "DFS", "FROM", "N" + Digits(id)], Traverse(Dfs, id))
    ensures SimpleReads(m, ["PATH", "FROM", "N" + Digits(id), "TO", "N" + Digits(goal)], ShortestPath(id, goal))
    ensures SimpleReads(m, ["COUNT", "NODES"], CountNodes)
    ensures SimpleReads(m, ["COUNT", "EDGES"], CountEdges)
  {
    hide TextModel.Laws, SimpleReads, Digits;
    SimpleLine(m, ["GET", "NODE", "N" + Digits(id)], GetNode(id));
    SimpleLine(m, ["GET", "EDGE", "E" + Digits(id)], GetEdge(id));
    SimpleLine(m, ["TRAVERSE", "BFS", "FROM", "N" + Digits(id)], Traverse(Bfs, id));
    SimpleLine(m, ["TRAVERSE", "DFS", "FROM", "N" + Digits(id)], Traverse(Dfs, id));
    SimpleLine(m, ["PATH", "FROM", "N" + Digits(id), "TO", "N" + Digits(goal)], ShortestPath(id, goal));
    SimpleLine(m, ["COUNT", "NODES"], CountNodes);
    SimpleLine(m, ["COUNT", "EDGES"], CountEdges);
  }

  /** `MATCH NODE WHERE label = "..." AND props.key < 5` and the like. */
  lemma SimpleNodeMatch(m: TextModel, l: string, key: string, op: Op, w: string, i: I64)
    requires m.Laws() && QuoteFree(l) && SimpleQuery.Plain(key) && Written(op, w)
    ensures SimpleReads(m, ["MATCH", "NODE", "WHERE", "label", "=", "\"" + l + "\"", "AND",
                            "props." + key, w, ShowInt(i)],
                        MatchNodes(NodeFilter(Some(l), [Condition(key, op, Integer(i))])))
  {
    hide TextModel.Laws, SimpleReads, ShowInt;
    var f := NodeFilter(Some(l), [Condition(key, op, Integer(i))]);
    assert SimpleQuery.NodeClauses(f) == [LabelIs(l), PropIs(f.conditions[0])];
    TwoClauses(m, LabelIs(l), PropIs(f.conditions[0]));
    SimpleLine(m, ["MATCH", "NODE", "WHERE", "label", "=", "\"" + l + "\"", "AND", "props." + key, w, ShowInt(i)],
               MatchNodes(f));
  }

  lemma TwoClauses(m: TextModel, c: Clause, d: Clause)
    ensures SimpleQuery.WhereTokens(m, AsIs, [c, d])
         == ["WHERE"] + SimpleQuery.ClauseTokens(m, AsIs, c) + ["AND"] + SimpleQuery.ClauseTokens(m, AsIs, d)
  {
    hide SimpleQuery.ClauseTokens;
    var cs, ds := SimpleQuery.ClauseTokens(m, AsIs, c), SimpleQuery.ClauseTokens(m, AsIs, d);
    assert [c, d][1..] == [d];
    assert SimpleQuery.ChainTokens(m, AsIs, [d]) == ds + [] == ds;
    assert SimpleQuery.ChainTokens(m, AsIs, [c, d]) == cs + (["AND"] + ds);
    assert ["WHERE"] + (cs + (["AND"] + ds)) == ["WHERE"] + cs + ["AND"] + ds;
  }

  /** `MATCH EDGE WHERE weight < 0.5 AND props.key = "..."` and the like. */
  lemma SimpleEdgeMatch(m: TextModel, x: F64, op: Op, w: string, key: string, s: string)
    requires m.Laws() && m.Shown(x) && Written(op, w) && SimpleQuery.Plain(key) && QuoteFree(s)
    ensures SimpleReads(m, ["MATCH", "EDGE", "WHERE", "weight", w, m.showFloat(x), "AND",
                            "props." + key, "=", "\"" + s + "\""],
                        MatchEdges(EdgeFilter(None, Some(WeightCondition(op, x)), [Condition(key, Eq, Text(s))])))
  {
    hide TextModel.Laws, SimpleReads;
    var f := EdgeFilter(None, Some(WeightCondition(op, x)), [Condition(key, Eq, Text(s))]);
    assert SimpleQuery.EdgeClauses(f) == [WeightIs(f.weight.value), PropIs(f.conditions[0])];
    TwoClauses(m, WeightIs(f.weight.value), PropIs(f.conditions[0]));
    SimpleLine(m, ["MATCH", "EDGE", "WHERE", "weight", w, m.showFloat(x), "AND", "props." + key, "=", "\"" + s + "\""],
               MatchEdges(f));
  }

  // ---- The Cypher-like language ----

  lemma {:induction false} LineCons(w: string, rest: seq<string>)
    requires rest != []
    ensures Line([w] + rest) == w + " " + Line(rest)
    decreases |rest|
  {
    var words, n := [w] + rest, |rest| - 1;
    assert words[..|words| - 1] == [w] + rest[..n] && words[|words| - 1] == rest[n];
    if n == 0 {
      assert words[..1] == [w];
    } else {
      LineCons(w, rest[..n]);
      assert w + " " + Line(rest[..n]) + " " + rest[n] == w + " " + (Line(rest[..n]) + " " + rest[n]);
    }
  }

  function CypherGaps(first: string, n: nat): seq<string> {
    seq(n + 1, i requires 0 <= i <= n => if i == 0 then first else if i == n then "" else " ")
  }

  ghost predicate TextsOf(m: TextModel, toks: seq<CypherLite.Token>, words: seq<string>) {
    |words| == |toks| && forall i :: 0 <= i < |toks| ==> words[i] == CypherLite.TokenText(m, AsIs, toks[i])
  }

  lemma {:induction false} CypherSpread(m: TextModel, first: string, toks: seq<CypherLite.Token>, words: seq<string>)
    requires toks != [] && TextsOf(m, toks, words)
    ensures CypherLite.Spread(m, AsIs, CypherGaps(first, |toks|), toks) == first + Line(words)
    decreases |toks|
  {
    hide CypherLite.TokenText;
    var gaps, rest := CypherGaps(first, |toks|), words[1..];
    if |toks| == 1 {
      assert CypherLite.Spread(m, AsIs, gaps[1..], toks[1..]) == "";
    } else {
      assert gaps[1..] == CypherGaps(" ", |toks| - 1);
      CypherSpread(m, " ", toks[1..], rest);
      assert words == [words[0]] + rest;
      LineCons(words[0], rest);
      assert first + (words[0] + (" " + Line(rest))) == first + (words[0] + " " + Line(rest));
    }
  }

  lemma CypherLine(m: TextModel, v: string, words: seq<string>, command: QueryCommand)
    requires m.Laws() && CypherLite.IsIdentifier(m, v) && CypherLite.Writable(m, command)
    requires CypherLite.Expressible(command) && CypherLite.ReadsBack(command)
    requires CypherLite.Print(v, command) != [] && TextsOf(m, CypherLite.Print(v, command), words)
    ensures CypherReads(m, words, command)
  {
    hide TextModel.Laws, CypherLite.IsIdentifier, CypherLite.Writable, CypherLite.Expressible, CypherLite.ReadsBack,
         CypherLite.Print, CypherLite.Meaning, CypherLite.Spread, CypherLite.Glues, TextsOf, Line;
    var toks := CypherLite.Print(v, command);
    GapsSeparate(m, toks);
    CypherLite.RoundTrip(m, AsIs, v, command, CypherGaps("", |toks|));
    CypherSpread(m, "", toks, words);
    assert "" + Line(words) == Line(words);
  }

  lemma GapsSeparate(m: TextModel, toks: seq<CypherLite.Token>)
    requires m.Laws()
    ensures CypherLite.Separates(m, CypherGaps("", |toks|), toks)
  {
  }

  lemma CypherLookups(m: TextModel, v: string, id: U64, goal: U64)
    requires m.Laws() && CypherLite.IsIdentifier(m, v)
    ensures CypherReads(m, ["TRAVERSE", "BFS", "FROM", "N" + Digits(id)], Traverse(Bfs, id))
    ensures CypherReads(m, ["TRAVERSE", "DFS", "FROM", "N" + Digits(id)], Traverse(Dfs, id))
    ensures CypherReads(m, ["PATH", "FROM", "N" + Digits(id), "TO", "N" + Digits(goal)], ShortestPath(id, goal))
    ensures CypherReads(m, ["COUNT", "NODES"], CountNodes)
    ensures CypherReads(m, ["COUNT", "EDGES"], CountEdges)
  {
    hide TextModel.Laws, CypherReads, Digits, CypherLite.IsIdentifier;
    CypherLine(m, v, ["TRAVERSE", "BFS", "FROM", "N" + Digits(id)], Traverse(Bfs, id));
    CypherLine(m, v, ["TRAVERSE", "DFS", "FROM", "N" + Digits(id)], Traverse(Dfs, id));
    CypherLine(m, v, ["PATH", "FROM", "N" + Digits(id), "TO", "N" + Digits(goal)], ShortestPath(id, goal));
    CypherLine(m, v, ["COUNT", "NODES"], CountNodes);
    CypherLine(m, v, ["COUNT", "EDGES"], CountEdges);
  }

  lemma TextsConcat(m: TextModel, ts: seq<CypherLite.Token>, ws: seq<string>,
                    us: seq<CypherLite.Token>, xs: seq<string>)
    requires TextsOf(m, ts, ws) && TextsOf(m, us, xs)
    ensures TextsOf(m, ts + us, ws + xs)
  {
    hide CypherLite.TokenText;
  }

  function WhereWords(v: string, key: string, w: string, value: string): seq<string> {
    ["WHERE", v, ".", key, w, value, "RETURN", v]
  }

  lemma WhereTexts(m: TextModel, v: string, c: Condition, w: string)
    requires CypherLite.NoNulls([c]) && Written(c.op, w)
    ensures TextsOf(m, CypherLite.WhereTokens(v, [c]) + CypherLite.ReturnTokens(v),
                    WhereWords(v, c.key, w, CypherLite.TokenText(m, AsIs, CypherLite.LiteralToken(c.value))))
  {
    hide CypherLite.LiteralToken;
  }

  /** `MATCH (n:City) WHERE n.population > 1000000 RETURN n` and the like. */
  lemma CypherNodeMatch(m: TextModel, v: string, l: string, key: string, op: Op, w: string, i: I64)
    requires m.Laws() && CypherLite.IsIdentifier(m, v) && CypherLite.IsIdentifier(m, l)
    requires CypherLite.IsIdentifier(m, key) && Written(op, w) && i >= 0
    ensures CypherReads(m, ["MATCH", "(", v, ":", l, ")"] + WhereWords(v, key, w, ShowInt(i)),
                        MatchNodes(NodeFilter(Some(l), [Condition(key, op, Integer(i))])))
  {
    hide TextModel.Laws, CypherReads, ShowInt, CypherLite.IsIdentifier, TextsOf, WhereWords,
         CypherLite.WhereTokens, CypherLite.ReturnTokens, CypherLite.LabelTokens;
    var c := Condition(key, op, Integer(i));
    WhereTexts(m, v, c, w);
    NodePrint(v, l, c);
    NodeTexts(m, v, l);
    TextsConcat(m, NodePattern(v, l), ["MATCH", "(", v, ":", l, ")"],
                CypherLite.WhereTokens(v, [c]) + CypherLite.ReturnTokens(v), WhereWords(v, key, w, ShowInt(i)));
    CypherLine(m, v, ["MATCH", "(", v, ":", l, ")"] + WhereWords(v, key, w, ShowInt(i)),
               MatchNodes(NodeFilter(Some(l), [c])));
  }

  function NodePattern(v: string, l: string): seq<CypherLite.Token> {
    [CypherLite.Keyword("MATCH"), CypherLite.LParen, CypherLite.Ident(v), CypherLite.Colon, CypherLite.Ident(l),
     CypherLite.RParen]
  }

  lemma NodePrint(v: string, l: string, c: Condition)
    requires c.value != Null
    ensures CypherLite.Print(v, MatchNodes(NodeFilter(Some(l), [c])))
         == NodePattern(v, l) + (CypherLite.WhereTokens(v, [c]) + CypherLite.ReturnTokens(v))
  {
    hide CypherLite.WhereTokens, CypherLite.ReturnTokens;
  }

  lemma NodeTexts(m: TextModel, v: string, l: string)
    ensures TextsOf(m, NodePattern(v, l), ["MATCH", "(", v, ":", l, ")"])
  {
  }

  /** `MATCH ()-[r]->() WHERE r.weight < 0.5 RETURN r` and the like. */
  lemma CypherEdgeMatch(m: TextModel, v: string, op: Op, w: string, x: F64)
    requires m.Laws() && CypherLite.IsIdentifier(m, v) && Written(op, w) && m.Shown(x)
    ensures CypherReads(m, ["MATCH", "(", ")", "-", "[", v, "]", "->", "(", ")"]
                           + WhereWords(v, "weight", w, m.showFloat(x)),
                        MatchEdges(EdgeFilter(None, Some(WeightCondition(op, x)), [])))
  {
    hide TextModel.Laws, CypherReads, CypherLite.IsIdentifier, TextModel.Shown, TextsOf, WhereWords,
         CypherLite.WhereTokens, CypherLite.ReturnTokens;
    var c := Condition("weight", op, Float(x));
    WhereTexts(m, v, c, w);
    EdgePrint(v, op, x);
    EdgeTexts(m, v);
    TextsConcat(m, EdgePattern(v), ["MATCH", "(", ")", "-", "[", v, "]", "->", "(", ")"],
                CypherLite.WhereTokens(v, [c]) + CypherLite.ReturnTokens(v),
                WhereWords(v, "weight", w, m.showFloat(x)));
    CypherLine(m, v, ["MATCH", "(", ")", "-", "[", v, "]", "->", "(", ")"] + WhereWords(v, "weight", w, m.showFloat(x)),
               MatchEdges(EdgeFilter(None, Some(WeightCondition(op, x)), [])));
  }

  function EdgePattern(v: string): seq<CypherLite.Token> {
    [CypherLite.Keyword("MATCH"), CypherLite.LParen, CypherLite.RParen, CypherLite.Dash, CypherLite.LBracket,
     CypherLite.Ident(v), CypherLite.RBracket, CypherLite.Arrow, CypherLite.LParen, CypherLite.RParen]
  }

  lemma EdgePrint(v: string, op: Op, x: F64)
    ensures CypherLite.Print(v, MatchEdges(EdgeFilter(None, Some(WeightCondition(op, x)), [])))
         == EdgePattern(v)
            + (CypherLite.WhereTokens(v, [Condition("weight", op, Float(x))]) + CypherLite.ReturnTokens(v))
  {
    hide CypherLite.WhereTokens, CypherLite.ReturnTokens;
    var f := EdgeFilter(None, Some(WeightCondition(op, x)), []);
    assert CypherLite.EdgeConditionList(f) == [Condition("weight", op, Float(x))];
  }

  lemma EdgeTexts(m: TextModel, v: string)
    ensures TextsOf(m, EdgePattern(v), ["MATCH", "(", ")", "-", "[", v, "]", "->", "(", ")"])
  {
  }
}
