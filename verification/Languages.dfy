/** The two query languages, src/query/languages: one command, two notations. */
module Languages {
  import opened Core
  import opened Lexical
  import opened QueryAst
  import SimpleQuery
  import CypherLite

  lemma IdentifierIsPlain(m: TextModel, word: string)
    requires m.Laws() && CypherLite.IsIdentifier(m, word)
    ensures SimpleQuery.Plain(word) && QuoteFree(word)
  {
    forall i | 0 <= i < |word| ensures word[i] != '"' && !SimpleQuery.IsBlank(word[i]) {
      assert m.WordChar(word[i]);
    }
  }

  /** Whatever the second language can write, the first one can write too. */
  lemma WritableIsPrintable(m: TextModel, command: QueryCommand)
    requires m.Laws() && CypherLite.Writable(m, command)
    ensures SimpleQuery.Printable(m, command)
  {
    hide TextModel.Laws, CypherLite.IsIdentifier, TextModel.Shown, SimpleQuery.Plain, QuoteFree;
    match command
    case MatchNodes(f) =>
      if f.lbl.Some? {
        IdentifierIsPlain(m, f.lbl.value);
      }
      ConditionsPrintable(m, f.conditions);
    case MatchEdges(f) =>
      if f.lbl.Some? {
        IdentifierIsPlain(m, f.lbl.value);
      }
      ConditionsPrintable(m, f.conditions);
    case _ =>
  }

  lemma ConditionsPrintable(m: TextModel, cs: seq<Condition>)
    requires m.Laws() && CypherLite.WritableConditions(m, cs)
    ensures SimpleQuery.PrintableClauses(m, PropClauses(cs))
  {
    hide TextModel.Laws, CypherLite.IsIdentifier, TextModel.Shown, SimpleQuery.Plain;
    forall i | 0 <= i < |cs| ensures SimpleQuery.PrintableClause(m, PropClauses(cs)[i]) {
      IdentifierIsPlain(m, cs[i].key);
    }
  }

  /** A command written in both notations, whatever the spelling of keywords and the layout, is
      read by both parsers as that command; in an edge match this takes property keys other than
      `weight`, and fails for every edge match that has one. */
  lemma LanguagesAgree(m: TextModel, kw: string -> string, v: string, command: QueryCommand,
                       gaps: seq<string>, end: string, cypherGaps: seq<string>)
    requires m.Laws() && IsSpelling(kw) && CypherLite.IsIdentifier(m, v)
    requires CypherLite.Writable(m, command) && CypherLite.Expressible(command)
    requires SimpleQuery.Separates(gaps, SimpleQuery.Print(m, kw, command)) && SimpleQuery.Blanks(end)
    requires CypherLite.Separates(m, cypherGaps, CypherLite.Print(v, command))
    ensures var simple := SimpleQuery.Meaning(m, SimpleQuery.Spread(gaps, SimpleQuery.Print(m, kw, command)) + end);
            var cypher := CypherLite.Meaning(m, CypherLite.Spread(m, kw, cypherGaps, CypherLite.Print(v, command)));
            simple == Ok(command)
            && ((cypher.Ok? && cypher.value == simple.value) <==> CypherLite.ReadsBack(command))
  {
    hide TextModel.Laws, IsSpelling, CypherLite.IsIdentifier, CypherLite.Writable, CypherLite.Print, CypherLite.Meaning,
         CypherLite.Separates, CypherLite.Expressible, CypherLite.ReadsBack, CypherLite.Spread,
         SimpleQuery.Meaning, SimpleQuery.Spread, SimpleQuery.Print, SimpleQuery.Printable, SimpleQuery.Separates;
    WritableIsPrintable(m, command);
    SimpleQuery.RoundTrip(m, kw, command, gaps, end);
    CypherLite.RoundTrip(m, kw, v, command, cypherGaps);
  }
}
