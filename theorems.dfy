/** What `analizar(codigo)` returns, stated about `Analysis(code)`, the value that
    `Script.Analyze` is proved to compute. */
module Theorems {
  import opened Options
  import opened Patterns
  import opened PatternFacts
  import opened Analyzer
  import opened AnalyzerFacts
  import opened SortFacts

  /** The tokens before the sort are numbered 1, 2, 3, ... in the order the loops find them:
      line by line, on each line rule by rule in table order, each rule's left to right. */
  lemma DiscoveredOrder(code: string)
    ensures NumberedFrom(Discovered(code), 1)
    ensures IdsIncreasing(Discovered(code))
    ensures InFoundOrder(Discovered(code))
  {
    LinesTokensIds(Split(code));
    LinesTokensOrder(Split(code));
  }

  /** The result holds exactly the tokens found, each as often as it was found. */
  lemma AnalysisPermutation(code: string)
    ensures multiset(Analysis(code)) == multiset(Discovered(code))
    ensures |Analysis(code)| == |Discovered(code)|
  {
    SortCount(Discovered(code));
    assert |multiset(Analysis(code))| == |multiset(Discovered(code))|;
  }

  /** The result is in (line, column) order, and tokens at the same position keep the order
      they were found in, which is the order of their ids. */
  lemma AnalysisSorted(code: string)
    ensures Sorted(Analysis(code))
    ensures KeyOrdered(Analysis(code))
  {
    SortSorted(Discovered(code));
    DiscoveredOrder(code);
    SortKeyOrdered(Discovered(code));
  }

  /** Any stable sort of the found tokens by position gives the same result. */
  lemma AnalysisUnique(code: string, t: seq<Token>)
    requires multiset(t) == multiset(Discovered(code)) && KeyOrdered(t)
    ensures t == Analysis(code)
  {
    DiscoveredOrder(code);
    StableSortUnique(Discovered(code), t);
  }

  /** Some token of r has id v. */
  predicate HasId(r: seq<Token>, v: nat) {
    exists k :: 0 <= k < |r| && r[k].id == v
  }

  /** A strictly ordered rearrangement of tokens numbered 1..n has the ids 1..n, each once. */
  lemma RearrangedIds(r: seq<Token>, d: seq<Token>)
    requires multiset(r) == multiset(d) && NumberedFrom(d, 1) && KeyOrdered(r)
    ensures |r| == |d|
    ensures forall k :: 0 <= k < |r| ==> 1 <= r[k].id <= |r|
    ensures forall k, l :: 0 <= k < l < |r| ==> r[k].id != r[l].id
    ensures forall v :: 1 <= v <= |r| ==> HasId(r, v)
  {
    assert |multiset(r)| == |multiset(d)|;
    forall k | 0 <= k < |r|
      ensures 1 <= r[k].id <= |r|
    {
      assert r[k] in multiset(r);
      var p := IndexOf(d, r[k]);
    }
    forall k, l | 0 <= k < l < |r|
      ensures r[k].id != r[l].id
    {
      assert r[k] in multiset(r) && r[l] in multiset(r);
      var p := IndexOf(d, r[k]);
      var q := IndexOf(d, r[l]);
      assert KeyBefore(r[k], r[l]);
    }
    forall v | 1 <= v <= |r|
      ensures HasId(r, v)
    {
      assert d[v - 1] in multiset(r);
      var k := IndexOf(r, d[v - 1]);
    }
  }

  /** The ids of the result are exactly 1..n, each once. */
  lemma AnalysisIds(code: string)
    ensures var r := Analysis(code);
            (forall k :: 0 <= k < |r| ==> 1 <= r[k].id <= |r|) &&
            (forall k, l :: 0 <= k < l < |r| ==> r[k].id != r[l].id) &&
            (forall v :: 1 <= v <= |r| ==> HasId(r, v))
  {
    DiscoveredOrder(code);
    AnalysisPermutation(code);
    AnalysisSorted(code);
    RearrangedIds(Analysis(code), Discovered(code));
  }

  /** What a token of a text's line always is: a non-empty lexeme with no newline, of its
      category's language, found by its rule's pattern at its column. */
  lemma TokenShape(t: Token, line: string)
    requires OnLine(t, line) && '\n' !in line
    ensures t.column >= 1 && t.column - 1 + |t.lexeme| <= |line|
    ensures t.lexeme == line[t.column - 1..t.column - 1 + |t.lexeme|]
    ensures t.lexeme != [] && '\n' !in t.lexeme
    ensures InLanguage(t.kind, t.lexeme)
  {
    MatchAtSound(t.kind, line, Start(t), End(t));
  }

  /** A token is well formed for the text's lines: it comes from an entry of `tokenRules`,
      names a line of the text, and is a non-empty match of that entry's pattern at its
      column of that line (OnLine: its lexeme is the line's slice there). */
  predicate TokenOfText(t: Token, lines: seq<string>) {
    Rule(t.kind, t.state) in RuleTable &&
    1 <= t.line <= |lines| &&
    OnLine(t, lines[t.line - 1]) &&
    t.lexeme != [] && '\n' !in t.lexeme && InLanguage(t.kind, t.lexeme)
  }

  /** A token that the loops find on a line of the text is well formed for the text. */
  lemma FoundTokenOfText(t: Token, lines: seq<string>)
    requires 1 <= t.line <= |lines| && OnLine(t, lines[t.line - 1]) && '\n' !in lines[t.line - 1]
    requires Rule(t.kind, t.state) in RuleTable
    ensures TokenOfText(t, lines)
  {
    TokenShape(t, lines[t.line - 1]);
  }

  /** A rearrangement of tokens of the text consists of tokens of the text. */
  lemma RearrangedTokens(r: seq<Token>, d: seq<Token>, lines: seq<string>)
    requires multiset(r) == multiset(d)
    requires AllOfText(d, lines) && FromRules(d, RuleTable)
    requires forall i :: 0 <= i < |lines| ==> '\n' !in lines[i]
    ensures forall k :: 0 <= k < |r| ==> TokenOfText(r[k], lines)
  {
    forall k | 0 <= k < |r|
      ensures TokenOfText(r[k], lines)
    {
      assert r[k] in multiset(r);
      var p := IndexOf(d, r[k]);
      FoundTokenOfText(d[p], lines);
    }
  }

  /** Every token of the result is well formed for the text's lines. */
  lemma AnalysisTokens(code: string)
    ensures forall k :: 0 <= k < |Analysis(code)| ==> TokenOfText(Analysis(code)[k], Split(code))
  {
    LinesTokensOnLine(Split(code));
    LinesTokensFromRules(Split(code));
    AnalysisPermutation(code);
    RearrangedTokens(Analysis(code), Discovered(code), Split(code));
  }

  /** Nothing is missed: wherever on line i + 1 the pattern of an entry of `tokenRules`
      matches, the result has a token of that category on that line whose lexeme covers
      the offset. */
  lemma AnalysisComplete(code: string, i: nat, j: nat, q: nat)
    requires i < |Split(code)| && j < |RuleTable|
    requires MatchAt(RuleTable[j].kind, Split(code)[i], q).Some?
    ensures var r := Analysis(code);
            exists k :: 0 <= k < |r| && r[k].line == i + 1 && r[k].kind == RuleTable[j].kind &&
                        r[k].column - 1 <= q < r[k].column - 1 + |r[k].lexeme|
  {
    var r, d := Analysis(code), Discovered(code);
    LinesTokensCover(Split(code), i, j, q);
    var p :| 0 <= p < |d| && d[p].line == i + 1 && d[p].kind == RuleTable[j].kind && Start(d[p]) <= q < End(d[p]);
    AnalysisPermutation(code);
    assert d[p] in multiset(r);
    var k := IndexOf(r, d[p]);
  }

  /** No rule matches the empty line. */
  lemma {:induction false} EmptyLineTokens(rules: seq<Rule>, lineNo: nat, id: nat)
    ensures RulesTokens(rules, "", lineNo, id) == []
    decreases |rules|
  {
    if rules != [] {
      EmptyLineTokens(rules[..|rules| - 1], lineNo, id);
      MatchTokensDone(rules[|rules| - 1], "", lineNo, 0, id);
    }
  }

  /** The empty text has no tokens. */
  lemma AnalysisEmpty()
    ensures Analysis("") == []
  {
    assert Split("") == [""];
    EmptyLineTokens(RuleTable, 1, 1);
    assert [""][..0] == [];
  }
}
