/** Worked inputs: a keyword is reported twice, as KEYWORD and as IDENTIFIER; a longer word
    that starts with a keyword is only an IDENTIFIER; and "===" is "==" followed by "=". */
module Examples {
  import opened Options
  import opened Patterns
  import opened RegExps
  import opened Analyzer
  import opened AnalyzerFacts

  /** A rule whose pattern matches nowhere on the line contributes no token. */
  lemma NoTokens(rule: Rule, text: string, lineNo: nat, from: nat, id: nat)
    requires forall q :: from <= q < |text| ==> MatchAt(rule.kind, text, q).None?
    ensures MatchTokens(rule, text, lineNo, from, id) == []
  {
    FindNextAbsent(rule.kind, text, from);
    MatchTokensDone(rule, text, lineNo, from, id);
  }

  /** A match at the search's starting offset is the rule's next token. */
  lemma TokenHere(rule: Rule, text: string, lineNo: nat, from: nat, id: nat, e: nat)
    requires MatchAt(rule.kind, text, from) == Some(e)
    ensures MatchTokens(rule, text, lineNo, from, id) ==
            [Token(id, rule.kind, text[from..e], lineNo, from + 1, rule.state)] +
            MatchTokens(rule, text, lineNo, e, id + 1)
  {
    MatchTokensStep(rule, text, lineNo, from, id, Span(from, e));
  }

  /** The tokens of the first k + 1 rules of the table: those of the first k, then rule k's. */
  lemma TablePrefix(k: nat, rule: Rule, text: string, acc: seq<Token>, m: seq<Token>)
    requires k < |RuleTable| && RuleTable[k] == rule
    requires RulesTokens(RuleTable[..k], text, 1, 1) == acc
    requires MatchTokens(rule, text, 1, 0, 1 + |acc|) == m
    ensures RulesTokens(RuleTable[..k + 1], text, 1, 1) == acc + m
  {
    TakeOneMore(RuleTable, k);
    RulesTokensStep(RuleTable[..k], RuleTable[k], text, 1, 1);
  }

  /** A text without newlines is analysed as line 1 by the whole table. */
  lemma OneLine(code: string)
    requires '\n' !in code
    ensures Discovered(code) == RulesTokens(RuleTable, code, 1, 1)
  {
    SplitNoNewline(code);
    var lines := [code];
    LinesTokensStep(lines, 0);
    assert lines[..1] == lines && lines[..0] == [];
  }

  /** The tokens of KEYWORD and NUMBER, when NUMBER contributes none. */
  lemma TableHead(text: string, keyword: seq<Token>)
    requires MatchTokens(Rule(Keyword, "S1"), text, 1, 0, 1) == keyword
    requires MatchTokens(Rule(Number, "S1"), text, 1, 0, 1 + |keyword|) == []
    ensures RulesTokens(RuleTable[..2], text, 1, 1) == keyword
  {
    assert RuleTable[..0] == [];
    TablePrefix(0, Rule(Keyword, "S1"), text, [], keyword);
    TablePrefix(1, Rule(Number, "S1"), text, keyword, []);
    assert keyword + [] == keyword;
  }

  /** The tokens of the first three rules. */
  lemma TableIdent(text: string, keyword: seq<Token>, identifier: seq<Token>)
    requires RulesTokens(RuleTable[..2], text, 1, 1) == keyword
    requires MatchTokens(Rule(Identifier, "S1"), text, 1, 0, 1 + |keyword|) == identifier
    ensures RulesTokens(RuleTable[..3], text, 1, 1) == keyword + identifier
  {
    TablePrefix(2, Rule(Identifier, "S1"), text, keyword, identifier);
  }

  /** The tokens of the first four rules, when STRING contributes none. */
  lemma TableString(text: string, acc: seq<Token>)
    requires RulesTokens(RuleTable[..3], text, 1, 1) == acc
    requires MatchTokens(Rule(String, "S3"), text, 1, 0, 1 + |acc|) == []
    ensures RulesTokens(RuleTable[..4], text, 1, 1) == acc
  {
    TablePrefix(3, Rule(String, "S3"), text, acc, []);
    assert acc + [] == acc;
  }

  /** The tokens of the first five rules. */
  lemma TableOperator(text: string, acc: seq<Token>, operator: seq<Token>)
    requires RulesTokens(RuleTable[..4], text, 1, 1) == acc
    requires MatchTokens(Rule(Operator, "S2"), text, 1, 0, 1 + |acc|) == operator
    ensures RulesTokens(RuleTable[..5], text, 1, 1) == acc + operator
  {
    TablePrefix(4, Rule(Operator, "S2"), text, acc, operator);
  }

  /** The tokens of the first six rules, when PUNCTUATION contributes none. */
  lemma TablePunctuation(text: string, acc: seq<Token>)
    requires RulesTokens(RuleTable[..5], text, 1, 1) == acc
    requires MatchTokens(Rule(Punctuation, "S5"), text, 1, 0, 1 + |acc|) == []
    ensures RulesTokens(RuleTable[..6], text, 1, 1) == acc
  {
    TablePrefix(5, Rule(Punctuation, "S5"), text, acc, []);
    assert acc + [] == acc;
  }

  /** The tokens of the whole table, when COMMENT contributes none. */
  lemma TableComment(text: string, acc: seq<Token>)
    requires RulesTokens(RuleTable[..6], text, 1, 1) == acc
    requires MatchTokens(Rule(Comment, "S4"), text, 1, 0, 1 + |acc|) == []
    ensures RulesTokens(RuleTable, text, 1, 1) == acc
  {
    TablePrefix(6, Rule(Comment, "S4"), text, acc, []);
    assert acc + [] == acc;
    assert RuleTable[..7] == RuleTable;
  }

  /** The tokens of the rules from STRING on, when only OPERATOR among them contributes. */
  lemma TableBack(text: string, acc: seq<Token>, operator: seq<Token>)
    requires RulesTokens(RuleTable[..3], text, 1, 1) == acc
    requires MatchTokens(Rule(String, "S3"), text, 1, 0, 1 + |acc|) == []
    requires MatchTokens(Rule(Operator, "S2"), text, 1, 0, 1 + |acc|) == operator
    requires MatchTokens(Rule(Punctuation, "S5"), text, 1, 0, 1 + |acc| + |operator|) == []
    requires MatchTokens(Rule(Comment, "S4"), text, 1, 0, 1 + |acc| + |operator|) == []
    ensures RulesTokens(RuleTable, text, 1, 1) == acc + operator
  {
    TableString(text, acc);
    TableOperator(text, acc, operator);
    TablePunctuation(text, acc + operator);
    TableComment(text, acc + operator);
  }

  /** Two tokens already in position order are left as they are. */
  lemma SortTwo(a: Token, b: Token)
    requires !PositionBefore(b, a)
    ensures InsertionSort([a, b]) == [a, b]
  {
    assert [a, b][..1] == [a];
    SortOne(a);
    assert Insert([a], b) == [a] + [b];
    assert [a] + [b] == [a, b];
  }

  lemma SortOne(a: Token)
    ensures InsertionSort([a]) == [a]
  {
    assert [a][..0] == [];
  }

  // ---------------------------------------------------------------------
  // "if": a keyword is also an identifier
  // ---------------------------------------------------------------------

  lemma IfWordMatches()
    ensures MatchAt(Keyword, "if", 0) == Some(2)
    ensures MatchAt(Identifier, "if", 0) == Some(2)
  {
    assert WordEnd("if", 0) == 2 by {
      assert WordEnd("if", 2) == 2;
      assert WordEnd("if", 1) == 2;
    }
    assert "if"[0..2] == "if";
    assert Keywords[0] == "if";
  }

  lemma IfOtherMatches()
    ensures forall q :: 0 <= q < 2 ==> MatchAt(Number, "if", q).None?
    ensures forall q :: 0 <= q < 2 ==> MatchAt(String, "if", q).None?
    ensures forall q :: 0 <= q < 2 ==> MatchAt(Operator, "if", q).None?
    ensures forall q :: 0 <= q < 2 ==> MatchAt(Punctuation, "if", q).None?
    ensures forall q :: 0 <= q < 2 ==> MatchAt(Comment, "if", q).None?
  {
  }

  /** The tokens the rules push for the line "if". */
  lemma IfLine()
    ensures RulesTokens(RuleTable, "if", 1, 1) ==
            [Token(1, Keyword, "if", 1, 1, "S1"), Token(2, Identifier, "if", 1, 1, "S1")]
  {
    var k := Token(1, Keyword, "if", 1, 1, "S1");
    var i := Token(2, Identifier, "if", 1, 1, "S1");
    IfWordMatches();
    IfOtherMatches();
    assert "if"[0..2] == "if";
    TokenHere(Rule(Keyword, "S1"), "if", 1, 0, 1, 2);
    NoTokens(Rule(Keyword, "S1"), "if", 1, 2, 2);
    NoTokens(Rule(Number, "S1"), "if", 1, 0, 2);
    TokenHere(Rule(Identifier, "S1"), "if", 1, 0, 2, 2);
    NoTokens(Rule(Identifier, "S1"), "if", 1, 2, 3);
    NoTokens(Rule(String, "S3"), "if", 1, 0, 3);
    NoTokens(Rule(Operator, "S2"), "if", 1, 0, 3);
    NoTokens(Rule(Punctuation, "S5"), "if", 1, 0, 3);
    NoTokens(Rule(Comment, "S4"), "if", 1, 0, 3);
    TableHead("if", [k]);
    TableIdent("if", [k], [i]);
    assert [k] + [i] == [k, i];
    TableBack("if", [k, i], []);
    assert [k, i] + [] == [k, i];
  }

  /** `analizar("if")` reports the word twice at line 1, column 1: as KEYWORD with id 1, then as
      IDENTIFIER with id 2, in the order the rules found them. */
  lemma AnalyzeIf()
    ensures Analysis("if") == [Token(1, Keyword, "if", 1, 1, "S1"), Token(2, Identifier, "if", 1, 1, "S1")]
  {
    IfLine();
    OneLine("if");
    SortTwo(Token(1, Keyword, "if", 1, 1, "S1"), Token(2, Identifier, "if", 1, 1, "S1"));
  }

  // ---------------------------------------------------------------------
  // "ifx": `\b` keeps the keyword pattern from matching inside a longer word
  // ---------------------------------------------------------------------

  lemma IfxWordMatches()
    ensures forall q :: 0 <= q < 3 ==> MatchAt(Keyword, "ifx", q).None?
    ensures MatchAt(Identifier, "ifx", 0) == Some(3)
  {
    assert WordEnd("ifx", 0) == 3 by {
      assert WordEnd("ifx", 3) == 3;
      assert WordEnd("ifx", 2) == 3;
      assert WordEnd("ifx", 1) == 3;
    }
    assert "ifx"[0..3] == "ifx";
    assert "ifx" !in Keywords by {
      KeywordsAreWords();
      assert forall k :: 0 <= k < |Keywords| ==> Keywords[k] != "ifx";
    }
  }

  lemma IfxOtherMatches()
    ensures forall q :: 0 <= q < 3 ==> MatchAt(Number, "ifx", q).None?
    ensures forall q :: 0 <= q < 3 ==> MatchAt(String, "ifx", q).None?
    ensures forall q :: 0 <= q < 3 ==> MatchAt(Operator, "ifx", q).None?
    ensures forall q :: 0 <= q < 3 ==> MatchAt(Punctuation, "ifx", q).None?
    ensures forall q :: 0 <= q < 3 ==> MatchAt(Comment, "ifx", q).None?
  {
  }

  /** The tokens the rules push for the line "ifx". */
  lemma IfxLine()
    ensures RulesTokens(RuleTable, "ifx", 1, 1) == [Token(1, Identifier, "ifx", 1, 1, "S1")]
  {
    var i := Token(1, Identifier, "ifx", 1, 1, "S1");
    IfxWordMatches();
    IfxOtherMatches();
    assert "ifx"[0..3] == "ifx";
    NoTokens(Rule(Keyword, "S1"), "ifx", 1, 0, 1);
    NoTokens(Rule(Number, "S1"), "ifx", 1, 0, 1);
    TokenHere(Rule(Identifier, "S1"), "ifx", 1, 0, 1, 3);
    NoTokens(Rule(Identifier, "S1"), "ifx", 1, 3, 2);
    NoTokens(Rule(String, "S3"), "ifx", 1, 0, 2);
    NoTokens(Rule(Operator, "S2"), "ifx", 1, 0, 2);
    NoTokens(Rule(Punctuation, "S5"), "ifx", 1, 0, 2);
    NoTokens(Rule(Comment, "S4"), "ifx", 1, 0, 2);
    TableHead("ifx", []);
    TableIdent("ifx", [], [i]);
    assert [] + [i] == [i];
    TableBack("ifx", [i], []);
    assert [i] + [] == [i];
  }

  /** `analizar("ifx")` reports one IDENTIFIER and no KEYWORD: the keyword pattern needs a word
      boundary after "if". */
  lemma AnalyzeIfx()
    ensures Analysis("ifx") == [Token(1, Identifier, "ifx", 1, 1, "S1")]
  {
    IfxLine();
    OneLine("ifx");
    SortOne(Token(1, Identifier, "ifx", 1, 1, "S1"));
  }

  // ---------------------------------------------------------------------
  // "===": the operator pattern tries "==" before "=" and the search resumes after a match
  // ---------------------------------------------------------------------

  lemma EqualsOperatorMatches()
    ensures MatchAt(Operator, "===", 0) == Some(2)
    ensures MatchAt(Operator, "===", 2) == Some(3)
  {
  }

  lemma EqualsOtherMatches()
    ensures forall q :: 0 <= q < 3 ==> MatchAt(Keyword, "===", q).None?
    ensures forall q :: 0 <= q < 3 ==> MatchAt(Number, "===", q).None?
    ensures forall q :: 0 <= q < 3 ==> MatchAt(Identifier, "===", q).None?
    ensures forall q :: 0 <= q < 3 ==> MatchAt(String, "===", q).None?
    ensures forall q :: 0 <= q < 3 ==> MatchAt(Punctuation, "===", q).None?
    ensures forall q :: 0 <= q < 3 ==> MatchAt(Comment, "===", q).None?
  {
  }

  /** The operator rule's `exec` loop over "===": "==" at offset 0, then "=" at offset 2. */
  lemma EqualsOperatorTokens()
    ensures MatchTokens(Rule(Operator, "S2"), "===", 1, 0, 1) ==
            [Token(1, Operator, "==", 1, 1, "S2"), Token(2, Operator, "=", 1, 3, "S2")]
  {
    var a := Token(1, Operator, "==", 1, 1, "S2");
    var b := Token(2, Operator, "=", 1, 3, "S2");
    EqualsOperatorMatches();
    assert "==="[0..2] == "==" && "==="[2..3] == "=";
    TokenHere(Rule(Operator, "S2"), "===", 1, 0, 1, 2);
    TokenHere(Rule(Operator, "S2"), "===", 1, 2, 2, 3);
    NoTokens(Rule(Operator, "S2"), "===", 1, 3, 3);
    assert [a] + ([b] + []) == [a, b];
  }

  /** The tokens the rules push for the line "===". */
  lemma EqualsLine()
    ensures RulesTokens(RuleTable, "===", 1, 1) ==
            [Token(1, Operator, "==", 1, 1, "S2"), Token(2, Operator, "=", 1, 3, "S2")]
  {
    var a := Token(1, Operator, "==", 1, 1, "S2");
    var b := Token(2, Operator, "=", 1, 3, "S2");
    EqualsOtherMatches();
    NoTokens(Rule(Keyword, "S1"), "===", 1, 0, 1);
    NoTokens(Rule(Number, "S1"), "===", 1, 0, 1);
    NoTokens(Rule(Identifier, "S1"), "===", 1, 0, 1);
    NoTokens(Rule(String, "S3"), "===", 1, 0, 1);
    EqualsOperatorTokens();
    NoTokens(Rule(Punctuation, "S5"), "===", 1, 0, 3);
    NoTokens(Rule(Comment, "S4"), "===", 1, 0, 3);
    var none: seq<Token> := [];
    TableHead("===", none);
    TableIdent("===", none, none);
    assert none + none == none;
    TableBack("===", none, [a, b]);
    assert none + [a, b] == [a, b];
  }

  /** `analizar("===")` reports the OPERATOR "==" at column 1 and the OPERATOR "=" at column 3. */
  lemma AnalyzeEquals()
    ensures Analysis("===") == [Token(1, Operator, "==", 1, 1, "S2"), Token(2, Operator, "=", 1, 3, "S2")]
  {
    EqualsLine();
    OneLine("===");
    SortTwo(Token(1, Operator, "==", 1, 1, "S2"), Token(2, Operator, "=", 1, 3, "S2"));
  }
}
