/** What `analizar` promises: the line split round-trips, the tokens are numbered 1..n in
    the order the loops find them, every token is a match of its rule's pattern at the
    position it reports, and the sort puts them in position order, stably. */
module AnalyzerFacts {
  import opened Options
  import opened Patterns
  import opened PatternFacts
  import opened RegExps
  import opened Analyzer

  // ---------------------------------------------------------------------
  // codigo.split("\n")
  // ---------------------------------------------------------------------

  /** A text without newlines is a single line. */
  lemma {:induction false} SplitNoNewline(w: string)
    requires '\n' !in w
    ensures Split(w) == [w]
    decreases |w|
  {
    if w != [] {
      assert '\n' !in w[1..];
      SplitNoNewline(w[1..]);
      assert [w[0]] + w[1..] == w;
    }
  }

  /** A line, a newline and a rest: the line comes first, then the rest's lines. */
  lemma {:induction false} SplitAfterLine(w: string, t: string)
    requires '\n' !in w
    ensures Split(w + "\n" + t) == [w] + Split(t)
    decreases |w|
  {
    if w == [] {
      assert w + "\n" + t == "\n" + t;
      assert ("\n" + t)[1..] == t;
    } else {
      assert '\n' !in w[1..];
      SplitAfterLine(w[1..], t);
      assert (w + "\n" + t)[1..] == w[1..] + "\n" + t;
      assert [w[0]] + w[1..] == w;
    }
  }

  /** Splitting what Join built gives back the lines. */
  lemma {:induction false} SplitJoin(lines: seq<string>)
    requires |lines| >= 1
    requires forall k :: 0 <= k < |lines| ==> '\n' !in lines[k]
    ensures Split(Join(lines)) == lines
    decreases |lines|
  {
    if |lines| == 1 {
      SplitNoNewline(lines[0]);
    } else {
      SplitJoin(lines[1..]);
      SplitAfterLine(lines[0], Join(lines[1..]));
      assert [lines[0]] + lines[1..] == lines;
    }
  }

  /** Joining the lines of s with newlines gives s back. */
  lemma {:induction false} JoinSplit(s: string)
    ensures Join(Split(s)) == s
    decreases |s|
  {
    if s != [] {
      JoinSplit(s[1..]);
      var rest := Split(s[1..]);
      if s[0] == '\n' {
        assert ([""] + rest)[1..] == rest;
      } else {
        var first := [s[0]] + rest[0];
        assert ([first] + rest[1..])[1..] == rest[1..];
        if |rest| > 1 {
          assert Join(rest) == rest[0] + "\n" + Join(rest[1..]);
        }
      }
    }
  }

  /** There is one line more than there are newlines. */
  lemma {:induction false} SplitCount(s: string)
    ensures |Split(s)| == NewlineCount(s) + 1
    decreases |s|
  {
    if s != [] {
      SplitCount(s[1..]);
    }
  }

  // ---------------------------------------------------------------------
  // Properties of token sequences
  // ---------------------------------------------------------------------

  /** The offset of the match a token records: `match.index`, one less than its column. */
  function Start(t: Token): int { t.column - 1 }

  /** The offset just past the token's lexeme. */
  function End(t: Token): int { t.column - 1 + |t.lexeme| }

  /** t is a match of its category's pattern on line: at offset column - 1 the pattern
      matches exactly the lexeme, which is that stretch of the line. */
  predicate OnLine(t: Token, line: string) {
    1 <= t.column && End(t) <= |line| &&
    t.lexeme == line[Start(t)..End(t)] &&
    MatchAt(t.kind, line, Start(t)) == Some(End(t))
  }

  /** The tokens are numbered id, id + 1, id + 2, ... */
  predicate NumberedFrom(m: seq<Token>, id: nat) {
    forall k :: 0 <= k < |m| ==> m[k].id == id + k
  }

  /** Every token records line number lineNo. */
  predicate OnLineNo(m: seq<Token>, lineNo: nat) {
    forall k :: 0 <= k < |m| ==> m[k].line == lineNo
  }

  /** Every token is a match of its pattern on the line text. */
  predicate AllOnLine(m: seq<Token>, text: string) {
    forall k :: 0 <= k < |m| ==> OnLine(m[k], text)
  }

  /** Every token carries the rule's category and state. */
  predicate OfRule(m: seq<Token>, rule: Rule) {
    forall k :: 0 <= k < |m| ==> m[k].kind == rule.kind && m[k].state == rule.state
  }

  /** No token starts before offset `from`. */
  predicate StartFrom(m: seq<Token>, from: int) {
    forall k :: 0 <= k < |m| ==> from <= Start(m[k])
  }

  /** Each token starts at or after the end of every token before it, at a larger column. */
  predicate Apart(m: seq<Token>) {
    forall k, l :: 0 <= k < l < |m| ==> End(m[k]) <= Start(m[l]) && m[k].column < m[l].column
  }

  /** Every token comes from one of the rules: its category and state are an entry's. */
  predicate FromRules(m: seq<Token>, rules: seq<Rule>) {
    forall k :: 0 <= k < |m| ==> Rule(m[k].kind, m[k].state) in rules
  }

  /** The category of every token has a rank below bound. */
  predicate RanksBelow(m: seq<Token>, bound: nat) {
    forall k :: 0 <= k < |m| ==> Rank(m[k].kind) < bound
  }

  /** Every token names one of the lines 1..n. */
  predicate LinesWithin(m: seq<Token>, n: nat) {
    forall k :: 0 <= k < |m| ==> 1 <= m[k].line <= n
  }

  /** Every token names a line of the text (counted from 1) and is a match of its pattern
      at its column of that line. */
  predicate AllOfText(m: seq<Token>, lines: seq<string>) {
    forall k :: 0 <= k < |m| ==> 1 <= m[k].line <= |lines| && OnLine(m[k], lines[m[k].line - 1])
  }

  /** Offset q of line lineNo lies inside the lexeme of a token of the category. */
  predicate Covered(m: seq<Token>, lineNo: nat, kind: Kind, q: int) {
    exists k :: 0 <= k < |m| && m[k].line == lineNo && m[k].kind == kind && Start(m[k]) <= q < End(m[k])
  }

  /** The position of the category's entry in the rule table. */
  function Rank(kind: Kind): (r: nat)
    ensures r < |RuleTable| && RuleTable[r].kind == kind
  {
    match kind
    case Keyword => 0
    case Number => 1
    case Identifier => 2
    case String => 3
    case Operator => 4
    case Punctuation => 5
    case Comment => 6
  }

  /** The table lists every category once, in rank order. */
  lemma TableRanks()
    ensures forall i :: 0 <= i < |RuleTable| ==> Rank(RuleTable[i].kind) == i
  {
  }

  /** The order in which the loops of `analizar` find tokens: by line, then by the rule's
      place in the table, then left to right. */
  predicate FoundBefore(t: Token, u: Token) {
    t.line < u.line ||
    (t.line == u.line && (Rank(t.kind) < Rank(u.kind) || (t.kind == u.kind && t.column < u.column)))
  }

  /** The tokens are in the order the loops find them. */
  predicate InFoundOrder(m: seq<Token>) {
    forall k, l :: 0 <= k < l < |m| ==> FoundBefore(m[k], m[l])
  }

  lemma NumberedAppend(a: seq<Token>, b: seq<Token>, id: nat)
    requires NumberedFrom(a, id) && NumberedFrom(b, id + |a|)
    ensures NumberedFrom(a + b, id)
  {
  }

  lemma LineNoAppend(a: seq<Token>, b: seq<Token>, lineNo: nat)
    requires OnLineNo(a, lineNo) && OnLineNo(b, lineNo)
    ensures OnLineNo(a + b, lineNo)
  {
  }

  lemma OnLineAppend(a: seq<Token>, b: seq<Token>, text: string)
    requires AllOnLine(a, text) && AllOnLine(b, text)
    ensures AllOnLine(a + b, text)
  {
    assert forall k :: |a| <= k < |a + b| ==> (a + b)[k] == b[k - |a|];
  }

  lemma FromRulesAppend(a: seq<Token>, b: seq<Token>, rules: seq<Rule>)
    requires FromRules(a, rules) && FromRules(b, rules)
    ensures FromRules(a + b, rules)
  {
    assert forall k :: |a| <= k < |a + b| ==> (a + b)[k] == b[k - |a|];
  }

  lemma FromRulesWiden(m: seq<Token>, rules: seq<Rule>, rule: Rule)
    requires FromRules(m, rules)
    ensures FromRules(m, rules + [rule])
  {
    assert forall r :: r in rules ==> r in rules + [rule];
  }

  lemma FromOneRule(m: seq<Token>, rules: seq<Rule>, rule: Rule)
    requires OfRule(m, rule)
    ensures FromRules(m, rules + [rule])
  {
    assert rule in rules + [rule];
  }

  lemma RanksAppend(a: seq<Token>, b: seq<Token>, bound: nat)
    requires RanksBelow(a, bound) && RanksBelow(b, bound)
    ensures RanksBelow(a + b, bound)
  {
  }

  lemma LinesWithinAppend(a: seq<Token>, b: seq<Token>, n: nat)
    requires LinesWithin(a, n) && OnLineNo(b, n + 1)
    ensures LinesWithin(a + b, n + 1)
  {
  }

  lemma OfTextAppend(a: seq<Token>, b: seq<Token>, lines: seq<string>)
    requires AllOfText(a, lines) && AllOfText(b, lines)
    ensures AllOfText(a + b, lines)
  {
    assert forall k :: |a| <= k < |a + b| ==> (a + b)[k] == b[k - |a|];
  }

  /** Adding a line after the text keeps every token where it was. */
  lemma OfTextExtend(m: seq<Token>, lines: seq<string>, line: string)
    requires AllOfText(m, lines)
    ensures AllOfText(m, lines + [line])
  {
    assert forall j :: 0 <= j < |lines| ==> (lines + [line])[j] == lines[j];
  }

  /** Tokens on the new last line, which they match, are tokens of the text. */
  lemma OfTextLast(m: seq<Token>, lines: seq<string>, line: string)
    requires OnLineNo(m, |lines| + 1) && AllOnLine(m, line)
    ensures AllOfText(m, lines + [line])
  {
    assert (lines + [line])[|lines|] == line;
  }

  lemma CoveredLeft(a: seq<Token>, b: seq<Token>, lineNo: nat, kind: Kind, q: int)
    requires Covered(a, lineNo, kind, q)
    ensures Covered(a + b, lineNo, kind, q)
  {
    var k :| 0 <= k < |a| && a[k].line == lineNo && a[k].kind == kind && Start(a[k]) <= q < End(a[k]);
    assert (a + b)[k] == a[k];
  }

  lemma CoveredRight(a: seq<Token>, b: seq<Token>, lineNo: nat, kind: Kind, q: int)
    requires Covered(b, lineNo, kind, q)
    ensures Covered(a + b, lineNo, kind, q)
  {
    var k :| 0 <= k < |b| && b[k].line == lineNo && b[k].kind == kind && Start(b[k]) <= q < End(b[k]);
    assert (a + b)[|a| + k] == b[k];
  }

  lemma OrderAppend(a: seq<Token>, b: seq<Token>)
    requires InFoundOrder(a) && InFoundOrder(b)
    requires forall k, l :: 0 <= k < |a| && 0 <= l < |b| ==> FoundBefore(a[k], b[l])
    ensures InFoundOrder(a + b)
  {
    assert forall k :: |a| <= k < |a + b| ==> (a + b)[k] == b[k - |a|];
  }

  /** One rule's tokens on one line, left to right, are in found order. */
  lemma OrderOfRule(m: seq<Token>, lineNo: nat, rule: Rule)
    requires OnLineNo(m, lineNo) && OfRule(m, rule) && Apart(m)
    ensures InFoundOrder(m)
  {
  }

  /** The tokens of a later rule on the same line come after those of the earlier rules. */
  lemma OrderAcrossRules(a: seq<Token>, b: seq<Token>, lineNo: nat, rule: Rule)
    requires InFoundOrder(a) && OnLineNo(a, lineNo) && RanksBelow(a, Rank(rule.kind))
    requires InFoundOrder(b) && OnLineNo(b, lineNo) && OfRule(b, rule)
    ensures InFoundOrder(a + b)
  {
    OrderAppend(a, b);
  }

  /** The tokens of a later line come after those of the earlier lines. */
  lemma OrderAcrossLines(a: seq<Token>, b: seq<Token>, n: nat)
    requires InFoundOrder(a) && LinesWithin(a, n)
    requires InFoundOrder(b) && OnLineNo(b, n + 1)
    ensures InFoundOrder(a + b)
  {
    OrderAppend(a, b);
  }

  // ---------------------------------------------------------------------
  // One rule's exec loop over one line
  // ---------------------------------------------------------------------

  /** The loop numbers its tokens consecutively from id. */
  lemma {:induction false} MatchTokensIds(rule: Rule, text: string, lineNo: nat, from: nat, id: nat)
    ensures NumberedFrom(MatchTokens(rule, text, lineNo, from, id), id)
    decreases |text| - from
  {
    match FindNext(rule.kind, text, from)
    case None =>
    case Some(sp) =>
      MatchTokensStep(rule, text, lineNo, from, id, sp);
      MatchTokensIds(rule, text, lineNo, sp.end, id + 1);
      var t := Token(id, rule.kind, text[sp.start..sp.end], lineNo, sp.start + 1, rule.state);
      NumberedAppend([t], MatchTokens(rule, text, lineNo, sp.end, id + 1), id);
  }

  /** Every token of the loop records the line number and the rule's category and state, and
      starts at or after the offset the search started from. */
  lemma {:induction false} MatchTokensFields(rule: Rule, text: string, lineNo: nat, from: nat, id: nat)
    ensures OnLineNo(MatchTokens(rule, text, lineNo, from, id), lineNo)
    ensures OfRule(MatchTokens(rule, text, lineNo, from, id), rule)
    ensures StartFrom(MatchTokens(rule, text, lineNo, from, id), from)
    decreases |text| - from
  {
    match FindNext(rule.kind, text, from)
    case None =>
    case Some(sp) =>
      MatchTokensStep(rule, text, lineNo, from, id, sp);
      MatchTokensFields(rule, text, lineNo, sp.end, id + 1);
  }

  /** Every token of the loop is a match of the rule's pattern at its column of the line. */
  lemma {:induction false} MatchTokensOnLine(rule: Rule, text: string, lineNo: nat, from: nat, id: nat)
    ensures AllOnLine(MatchTokens(rule, text, lineNo, from, id), text)
    decreases |text| - from
  {
    match FindNext(rule.kind, text, from)
    case None =>
    case Some(sp) =>
      MatchTokensStep(rule, text, lineNo, from, id, sp);
      MatchTokensOnLine(rule, text, lineNo, sp.end, id + 1);
      FindNextLeftmost(rule.kind, text, from, sp);
      var t := Token(id, rule.kind, text[sp.start..sp.end], lineNo, sp.start + 1, rule.state);
      assert OnLine(t, text);
      OnLineAppend([t], MatchTokens(rule, text, lineNo, sp.end, id + 1), text);
  }

  /** The loop's matches do not overlap: each starts at or after the end of the one before,
      so their columns strictly increase. */
  lemma {:induction false} MatchTokensApart(rule: Rule, text: string, lineNo: nat, from: nat, id: nat)
    ensures Apart(MatchTokens(rule, text, lineNo, from, id))
    decreases |text| - from
  {
    match FindNext(rule.kind, text, from)
    case None =>
    case Some(sp) =>
      MatchTokensStep(rule, text, lineNo, from, id, sp);
      MatchTokensApart(rule, text, lineNo, sp.end, id + 1);
      MatchTokensFields(rule, text, lineNo, sp.end, id + 1);
      var rest := MatchTokens(rule, text, lineNo, sp.end, id + 1);
      var m := MatchTokens(rule, text, lineNo, from, id);
      assert forall l :: 0 < l < |m| ==> m[l] == rest[l - 1];
  }

  /** Nothing is skipped: every offset from `from` on where the pattern matches is the start of
      one of the loop's tokens or lies inside one. */
  lemma {:induction false} MatchTokensCover(rule: Rule, text: string, lineNo: nat, from: nat, id: nat, q: nat)
    requires from <= q && MatchAt(rule.kind, text, q).Some?
    ensures Covered(MatchTokens(rule, text, lineNo, from, id), lineNo, rule.kind, q)
    decreases |text| - from
  {
    match FindNext(rule.kind, text, from)
    case None =>
      FindNextNone(rule.kind, text, from);
    case Some(sp) =>
      MatchTokensStep(rule, text, lineNo, from, id, sp);
      FindNextLeftmost(rule.kind, text, from, sp);
      var m := MatchTokens(rule, text, lineNo, from, id);
      if q < sp.end {
        assert m[0].line == lineNo && m[0].kind == rule.kind && Start(m[0]) <= q < End(m[0]);
      } else {
        var t := Token(id, rule.kind, text[sp.start..sp.end], lineNo, sp.start + 1, rule.state);
        MatchTokensCover(rule, text, lineNo, sp.end, id + 1, q);
        CoveredRight([t], MatchTokens(rule, text, lineNo, sp.end, id + 1), lineNo, rule.kind, q);
      }
  }

  // ---------------------------------------------------------------------
  // All rules over one line
  // ---------------------------------------------------------------------

  /** The rules number their tokens consecutively from id, one rule after the other. */
  lemma {:induction false} RulesTokensIds(rules: seq<Rule>, text: string, lineNo: nat, id: nat)
    ensures NumberedFrom(RulesTokens(rules, text, lineNo, id), id)
    decreases |rules|
  {
    if rules != [] {
      var init := rules[..|rules| - 1];
      var before := RulesTokens(init, text, lineNo, id);
      RulesTokensIds(init, text, lineNo, id);
      MatchTokensIds(rules[|rules| - 1], text, lineNo, 0, id + |before|);
      NumberedAppend(before, MatchTokens(rules[|rules| - 1], text, lineNo, 0, id + |before|), id);
    }
  }

  /** Every token pushed for a line records its number. */
  lemma {:induction false} RulesTokensLineNo(rules: seq<Rule>, text: string, lineNo: nat, id: nat)
    ensures OnLineNo(RulesTokens(rules, text, lineNo, id), lineNo)
    decreases |rules|
  {
    if rules != [] {
      var init := rules[..|rules| - 1];
      var before := RulesTokens(init, text, lineNo, id);
      RulesTokensLineNo(init, text, lineNo, id);
      MatchTokensFields(rules[|rules| - 1], text, lineNo, 0, id + |before|);
      LineNoAppend(before, MatchTokens(rules[|rules| - 1], text, lineNo, 0, id + |before|), lineNo);
    }
  }

  /** Every token pushed for a line is a match of its pattern there. */
  lemma {:induction false} RulesTokensOnLine(rules: seq<Rule>, text: string, lineNo: nat, id: nat)
    ensures AllOnLine(RulesTokens(rules, text, lineNo, id), text)
    decreases |rules|
  {
    if rules != [] {
      var init := rules[..|rules| - 1];
      var before := RulesTokens(init, text, lineNo, id);
      RulesTokensOnLine(init, text, lineNo, id);
      MatchTokensOnLine(rules[|rules| - 1], text, lineNo, 0, id + |before|);
      OnLineAppend(before, MatchTokens(rules[|rules| - 1], text, lineNo, 0, id + |before|), text);
    }
  }

  /** Every token pushed for a line comes from one of the rules. */
  lemma {:induction false} RulesTokensFromRules(rules: seq<Rule>, text: string, lineNo: nat, id: nat)
    ensures FromRules(RulesTokens(rules, text, lineNo, id), rules)
    decreases |rules|
  {
    if rules != [] {
      var init := rules[..|rules| - 1];
      var last := rules[|rules| - 1];
      var before := RulesTokens(init, text, lineNo, id);
      var more := MatchTokens(last, text, lineNo, 0, id + |before|);
      RulesTokensFromRules(init, text, lineNo, id);
      MatchTokensFields(last, text, lineNo, 0, id + |before|);
      FromRulesWiden(before, init, last);
      FromOneRule(more, init, last);
      assert init + [last] == rules;
      FromRulesAppend(before, more, rules);
    }
  }

  /** When every rule's category ranks below bound, so does every token's. */
  lemma {:induction false} RulesTokensRanks(rules: seq<Rule>, text: string, lineNo: nat, id: nat, bound: nat)
    requires forall i :: 0 <= i < |rules| ==> Rank(rules[i].kind) < bound
    ensures RanksBelow(RulesTokens(rules, text, lineNo, id), bound)
    decreases |rules|
  {
    if rules != [] {
      var init := rules[..|rules| - 1];
      var last := rules[|rules| - 1];
      var before := RulesTokens(init, text, lineNo, id);
      RulesTokensRanks(init, text, lineNo, id, bound);
      MatchTokensFields(last, text, lineNo, 0, id + |before|);
      RanksAppend(before, MatchTokens(last, text, lineNo, 0, id + |before|), bound);
    }
  }

  /** With the rules in rank order, the tokens of a line come rule by rule, each rule's left to right. */
  lemma {:induction false} RulesTokensOrder(rules: seq<Rule>, text: string, lineNo: nat, id: nat)
    requires forall i, j :: 0 <= i < j < |rules| ==> Rank(rules[i].kind) < Rank(rules[j].kind)
    ensures InFoundOrder(RulesTokens(rules, text, lineNo, id))
    decreases |rules|
  {
    if rules != [] {
      var init := rules[..|rules| - 1];
      var last := rules[|rules| - 1];
      var before := RulesTokens(init, text, lineNo, id);
      var more := MatchTokens(last, text, lineNo, 0, id + |before|);
      RulesTokensOrder(init, text, lineNo, id);
      RulesTokensLineNo(init, text, lineNo, id);
      RulesTokensRanks(init, text, lineNo, id, Rank(last.kind));
      MatchTokensFields(last, text, lineNo, 0, id + |before|);
      MatchTokensApart(last, text, lineNo, 0, id + |before|);
      OrderOfRule(more, lineNo, last);
      OrderAcrossRules(before, more, lineNo, last);
    }
  }

  // ---------------------------------------------------------------------
  // All lines
  // ---------------------------------------------------------------------

  /** The tokens are numbered 1, 2, 3, ... in the order they are found. */
  lemma {:induction false} LinesTokensIds(lines: seq<string>)
    ensures NumberedFrom(LinesTokens(lines), 1)
    decreases |lines|
  {
    if lines != [] {
      var before := LinesTokens(lines[..|lines| - 1]);
      LinesTokensIds(lines[..|lines| - 1]);
      RulesTokensIds(RuleTable, lines[|lines| - 1], |lines|, |before| + 1);
      NumberedAppend(before, RulesTokens(RuleTable, lines[|lines| - 1], |lines|, |before| + 1), 1);
    }
  }

  /** Every token names one of the lines. */
  lemma {:induction false} LinesTokensWithin(lines: seq<string>)
    ensures LinesWithin(LinesTokens(lines), |lines|)
    decreases |lines|
  {
    if lines != [] {
      var before := LinesTokens(lines[..|lines| - 1]);
      LinesTokensWithin(lines[..|lines| - 1]);
      RulesTokensLineNo(RuleTable, lines[|lines| - 1], |lines|, |before| + 1);
      LinesWithinAppend(before, RulesTokens(RuleTable, lines[|lines| - 1], |lines|, |before| + 1), |lines| - 1);
    }
  }

  /** Every token names a line of the text and is a match of its pattern at its column there. */
  lemma {:induction false} LinesTokensOnLine(lines: seq<string>)
    ensures AllOfText(LinesTokens(lines), lines)
    decreases |lines|
  {
    if lines != [] {
      var init := lines[..|lines| - 1];
      var last := lines[|lines| - 1];
      var before := LinesTokens(init);
      var more := RulesTokens(RuleTable, last, |lines|, |before| + 1);
      LinesTokensOnLine(init);
      RulesTokensLineNo(RuleTable, last, |lines|, |before| + 1);
      RulesTokensOnLine(RuleTable, last, |lines|, |before| + 1);
      OfTextExtend(before, init, last);
      OfTextLast(more, init, last);
      assert init + [last] == lines;
      OfTextAppend(before, more, lines);
    }
  }

  /** Every token comes from an entry of the rule table. */
  lemma {:induction false} LinesTokensFromRules(lines: seq<string>)
    ensures FromRules(LinesTokens(lines), RuleTable)
    decreases |lines|
  {
    if lines != [] {
      var before := LinesTokens(lines[..|lines| - 1]);
      var more := RulesTokens(RuleTable, lines[|lines| - 1], |lines|, |before| + 1);
      LinesTokensFromRules(lines[..|lines| - 1]);
      RulesTokensFromRules(RuleTable, lines[|lines| - 1], |lines|, |before| + 1);
      FromRulesAppend(before, more, RuleTable);
    }
  }

  /** The tokens come line by line, and within a line rule by rule, each rule's left to right. */
  lemma {:induction false} LinesTokensOrder(lines: seq<string>)
    ensures InFoundOrder(LinesTokens(lines))
    decreases |lines|
  {
    if lines != [] {
      var before := LinesTokens(lines[..|lines| - 1]);
      var more := RulesTokens(RuleTable, lines[|lines| - 1], |lines|, |before| + 1);
      LinesTokensOrder(lines[..|lines| - 1]);
      LinesTokensWithin(lines[..|lines| - 1]);
      TableRanks();
      RulesTokensOrder(RuleTable, lines[|lines| - 1], |lines|, |before| + 1);
      RulesTokensLineNo(RuleTable, lines[|lines| - 1], |lines|, |before| + 1);
      OrderAcrossLines(before, more, |lines| - 1);
    }
  }

  /** Nothing is skipped on a line: wherever the pattern of one of the rules matches, a token of
      that rule's category covers the offset. */
  lemma {:induction false} RulesTokensCover(rules: seq<Rule>, text: string, lineNo: nat, id: nat, j: nat, q: nat)
    requires j < |rules| && MatchAt(rules[j].kind, text, q).Some?
    ensures Covered(RulesTokens(rules, text, lineNo, id), lineNo, rules[j].kind, q)
    decreases |rules|
  {
    var init := rules[..|rules| - 1];
    var last := rules[|rules| - 1];
    var before := RulesTokens(init, text, lineNo, id);
    var more := MatchTokens(last, text, lineNo, 0, id + |before|);
    if j == |rules| - 1 {
      MatchTokensCover(last, text, lineNo, 0, id + |before|, q);
      CoveredRight(before, more, lineNo, last.kind, q);
    } else {
      assert init[j] == rules[j];
      RulesTokensCover(init, text, lineNo, id, j, q);
      CoveredLeft(before, more, lineNo, rules[j].kind, q);
    }
  }

  /** Nothing is skipped in the text: wherever on line i + 1 the pattern of entry j of the rule
      table matches, a token of that category on that line covers the offset. */
  lemma {:induction false} LinesTokensCover(lines: seq<string>, i: nat, j: nat, q: nat)
    requires i < |lines| && j < |RuleTable| && MatchAt(RuleTable[j].kind, lines[i], q).Some?
    ensures Covered(LinesTokens(lines), i + 1, RuleTable[j].kind, q)
    decreases |lines|
  {
    var init := lines[..|lines| - 1];
    var before := LinesTokens(init);
    var more := RulesTokens(RuleTable, lines[|lines| - 1], |lines|, |before| + 1);
    if i == |lines| - 1 {
      RulesTokensCover(RuleTable, lines[i], |lines|, |before| + 1, j, q);
      CoveredRight(before, more, i + 1, RuleTable[j].kind, q);
    } else {
      assert init[i] == lines[i];
      LinesTokensCover(init, i, j, q);
      CoveredLeft(before, more, i + 1, RuleTable[j].kind, q);
    }
  }
}
