/** `analizar` of script.js: split the text into lines, run every rule's `g`
    regular expression over every line with an `exec` loop, number the tokens
    as they are found, and sort them by (line, column). The functions here
    specify that computation; `Script.Analyze` performs it step by step. */
module Analyzer {
  import opened Options
  import opened Patterns
  import opened RegExps

  /** An entry of `tokenRules`: its category, which fixes its pattern, and its state label. */
  datatype Rule = Rule(kind: Kind, state: string)

  /** `tokenRules`, in table order. */
  const RuleTable: seq<Rule> := [
    Rule(Keyword, "S1"),
    Rule(Number, "S1"),
    Rule(Identifier, "S1"),
    Rule(String, "S3"),
    Rule(Operator, "S2"),
    Rule(Punctuation, "S5"),
    Rule(Comment, "S4")
  ]

  /** The record `{id, type, lexeme, line, column, state}`; `type` is the category. */
  datatype Token = Token(id: nat, kind: Kind, lexeme: string, line: nat, column: nat, state: string)

  // ---------------------------------------------------------------------
  // codigo.split("\n")
  // ---------------------------------------------------------------------

  /** The pieces of s between newlines; s with no newline (the empty text included) is one piece. */
  function Split(s: string): (lines: seq<string>)
    ensures |lines| >= 1
    ensures forall k :: 0 <= k < |lines| ==> '\n' !in lines[k]
    decreases |s|
  {
    if s == [] then [""]
    else
      var rest := Split(s[1..]);
      if s[0] == '\n' then [""] + rest
      else [[s[0]] + rest[0]] + rest[1..]
  }

  /** The pieces put back together with a newline between each two. */
  function Join(lines: seq<string>): string
    requires |lines| >= 1
    decreases |lines|
  {
    if |lines| == 1 then lines[0] else lines[0] + "\n" + Join(lines[1..])
  }

  function NewlineCount(s: string): nat
    decreases |s|
  {
    if s == [] then 0 else (if s[0] == '\n' then 1 else 0) + NewlineCount(s[1..])
  }

  lemma AppendAssoc(a: seq<Token>, b: seq<Token>, c: seq<Token>)
    ensures (a + b) + c == a + (b + c)
  {
  }

  lemma TakeOneMore<T>(s: seq<T>, r: nat)
    requires r < |s|
    ensures s[..r + 1] == s[..r] + [s[r]]
  {
  }

  lemma DropLast<T>(s: seq<T>, x: T)
    ensures (s + [x])[..|s|] == s && (s + [x])[|s|] == x
  {
  }

  // ---------------------------------------------------------------------
  // What the loops of analizar collect, in the order they collect it
  // ---------------------------------------------------------------------

  /** The tokens that the `exec` loop of one rule pushes for one line (numbered lineNo)
      when the search starts at offset `from` and the counter stands at id. */
  function MatchTokens(rule: Rule, text: string, lineNo: nat, from: nat, id: nat): seq<Token>
    decreases |text| - from
  {
    match FindNext(rule.kind, text, from)
    case None => []
    case Some(sp) =>
      [Token(id, rule.kind, text[sp.start..sp.end], lineNo, sp.start + 1, rule.state)] +
      MatchTokens(rule, text, lineNo, sp.end, id + 1)
  }

  /** One step of the `exec` loop: a match at sp contributes its token ahead of the rest. */
  lemma MatchTokensStep(rule: Rule, text: string, lineNo: nat, from: nat, id: nat, sp: Span)
    requires FindNext(rule.kind, text, from) == Some(sp)
    ensures MatchTokens(rule, text, lineNo, from, id) ==
            [Token(id, rule.kind, text[sp.start..sp.end], lineNo, sp.start + 1, rule.state)] +
            MatchTokens(rule, text, lineNo, sp.end, id + 1)
  {
  }

  /** The end of the `exec` loop: no match left, no token left. */
  lemma MatchTokensDone(rule: Rule, text: string, lineNo: nat, from: nat, id: nat)
    requires FindNext(rule.kind, text, from).None?
    ensures MatchTokens(rule, text, lineNo, from, id) == []
  {
  }

  /** The tokens that the given rules, in order, push for one line, each search starting at 0. */
  function RulesTokens(rules: seq<Rule>, text: string, lineNo: nat, id: nat): seq<Token>
    decreases |rules|
  {
    if rules == [] then []
    else
      var before := RulesTokens(rules[..|rules| - 1], text, lineNo, id);
      before + MatchTokens(rules[|rules| - 1], text, lineNo, 0, id + |before|)
  }

  /** Running one more rule appends its tokens, numbered on from those of the rules before it. */
  lemma RulesTokensStep(rules: seq<Rule>, rule: Rule, text: string, lineNo: nat, id: nat)
    ensures RulesTokens(rules + [rule], text, lineNo, id) ==
            RulesTokens(rules, text, lineNo, id) + MatchTokens(rule, text, lineNo, 0, id + |RulesTokens(rules, text, lineNo, id)|)
  {
    var s := rules + [rule];
    DropLast(rules, rule);
    assert s != [] && s[..|s| - 1] == rules && s[|s| - 1] == rule;
  }

  /** The tokens that the whole rule table pushes for the given lines, in order, numbered from 1. */
  function LinesTokens(lines: seq<string>): seq<Token>
    decreases |lines|
  {
    if lines == [] then []
    else
      var before := LinesTokens(lines[..|lines| - 1]);
      before + RulesTokens(RuleTable, lines[|lines| - 1], |lines|, |before| + 1)
  }

  /** Analysing one more line appends the rule table's tokens for it, numbered on from the count so far. */
  lemma LinesTokensStep(lines: seq<string>, i: nat)
    requires i < |lines|
    ensures LinesTokens(lines[..i + 1]) ==
            LinesTokens(lines[..i]) + RulesTokens(RuleTable, lines[i], i + 1, |LinesTokens(lines[..i])| + 1)
  {
    assert lines[..i + 1][..i] == lines[..i];
  }

  /** The array `tokens` just before the final sort. */
  function Discovered(code: string): seq<Token> {
    LinesTokens(Split(code))
  }

  // ---------------------------------------------------------------------
  // tokens.sort((a,b) => (a.line - b.line) || (a.column - b.column))
  // ---------------------------------------------------------------------

  /** The comparator is negative: t is on an earlier line, or earlier on the same line. */
  predicate PositionBefore(t: Token, u: Token) {
    t.line < u.line || (t.line == u.line && t.column < u.column)
  }

  /** x placed after every element of s that it does not precede, shifting those it precedes. */
  function Insert(s: seq<Token>, x: Token): seq<Token>
    decreases |s|
  {
    if s == [] then [x]
    else if PositionBefore(x, s[|s| - 1]) then Insert(s[..|s| - 1], x) + [s[|s| - 1]]
    else s + [x]
  }

  /** Stable insertion sort under the comparator. */
  function InsertionSort(s: seq<Token>): seq<Token>
    decreases |s|
  {
    if s == [] then [] else Insert(InsertionSort(s[..|s| - 1]), s[|s| - 1])
  }

  /** What `analizar(code)` returns. */
  function Analysis(code: string): seq<Token> {
    InsertionSort(Discovered(code))
  }

  /** Insertion of x into s[..j] leaves s[j..] after it, one element at a time. */
  lemma InsertShift(s: seq<Token>, x: Token, j: nat)
    requires 0 < j <= |s| && PositionBefore(x, s[j - 1])
    ensures Insert(s[..j], x) + s[j..] == Insert(s[..j - 1], x) + s[j - 1..]
  {
    assert s[..j][..j - 1] == s[..j - 1];
    assert s[j - 1..] == [s[j - 1]] + s[j..];
  }

  /** Insertion stops at an element that x does not precede. */
  lemma InsertStops(s: seq<Token>, x: Token)
    requires s == [] || !PositionBefore(x, s[|s| - 1])
    ensures Insert(s, x) == s + [x]
  {
  }

  /** t is s with x inserted at position j. */
  lemma Assemble(s: seq<Token>, t: seq<Token>, j: nat, x: Token)
    requires |t| == |s| + 1 && j <= |s|
    requires forall k :: 0 <= k < j ==> t[k] == s[k]
    requires t[j] == x
    requires forall k :: j < k < |t| ==> t[k] == s[k - 1]
    ensures t == s[..j] + [x] + s[j..]
  {
    assert forall k :: 0 <= k < |t| ==> t[k] == (s[..j] + [x] + s[j..])[k];
  }

  /** One step of the sort: a[i] is moved left past the elements of a[..i] it precedes. */
  method InsertInto(a: array<Token>, i: nat)
    requires i < a.Length
    modifies a
    ensures a[..i + 1] == Insert(old(a[..i]), old(a[i]))
    ensures forall k :: i < k < a.Length ==> a[k] == old(a[k])
  {
    var x := a[i];
    ghost var sorted := a[..i];
    var j := i;
    assert sorted[..i] == sorted && sorted[i..] == [];
    while j > 0 && PositionBefore(x, a[j - 1])
      invariant 0 <= j <= i
      invariant forall k :: 0 <= k < j ==> a[k] == sorted[k]
      invariant forall k :: j < k <= i ==> a[k] == sorted[k - 1]
      invariant forall k :: i < k < a.Length ==> a[k] == old(a[k])
      invariant Insert(sorted, x) == Insert(sorted[..j], x) + sorted[j..]
    {
      InsertShift(sorted, x, j);
      a[j] := a[j - 1];
      j := j - 1;
    }
    InsertStops(sorted[..j], x);
    a[j] := x;
    Assemble(sorted, a[..i + 1], j, x);
  }

  /** The in-place sort of the token array. */
  method SortTokens(a: array<Token>)
    modifies a
    ensures a[..] == InsertionSort(old(a[..]))
  {
    var i := 0;
    while i < a.Length
      invariant 0 <= i <= a.Length
      invariant a[..i] == InsertionSort(old(a[..i]))
      invariant forall k :: i <= k < a.Length ==> a[k] == old(a[k])
    {
      ghost var before := a[..];
      assert old(a[..i + 1])[..i] == old(a[..i]);
      assert old(a[..i + 1])[i] == before[i];
      InsertInto(a, i);
      i := i + 1;
    }
    assert a[..] == a[..a.Length];
    assert old(a[..]) == old(a[..a.Length]);
  }

  /** The `while ((match = regex.exec(line)) !== null)` loop of one rule over one line
      (numbered lineNo): it pushes one token per match, numbered on from id, and leaves
      `lastIndex` at 0 again. */
  method RunRule(regex: RegExp, rule: Rule, line: string, lineNo: nat, found: seq<Token>, id: nat)
      returns (found': seq<Token>, id': nat)
    requires regex.kind == rule.kind && regex.lastIndex == 0
    modifies regex
    ensures found' == found + MatchTokens(rule, line, lineNo, 0, id)
    ensures id' == id + |found'| - |found|
    ensures regex.lastIndex == 0
  {
    found', id' := found, id;
    ghost var pos := 0;
    var m := regex.Exec(line);
    while m.Some?
      invariant pos <= |line|
      invariant m == FindNext(rule.kind, line, pos)
      invariant regex.lastIndex == if m.Some? then m.value.end else 0
      invariant found' + MatchTokens(rule, line, lineNo, pos, id') == found + MatchTokens(rule, line, lineNo, 0, id)
      invariant id' == id + |found'| - |found|
      decreases |line| - pos
    {
      var sp := m.value;
      MatchTokensStep(rule, line, lineNo, pos, id', sp);
      found' := found' + [Token(id', rule.kind, line[sp.start..sp.end], lineNo, sp.start + 1, rule.state)];
      id' := id' + 1;
      pos := sp.end;
      m := regex.Exec(line);
    }
    MatchTokensDone(rule, line, lineNo, pos, id');
  }

  // ---------------------------------------------------------------------
  // The script's top-level state and analizar itself
  // ---------------------------------------------------------------------

  /** The regular expression objects of `tokenRules`, one per entry of RuleTable. */
  class Script {
    const regexes: seq<RegExp>

    /** Each entry of rules has an object with its pattern whose `lastIndex` is 0, as after
        creation and after every completed `exec` loop. */
    ghost predicate ReadyFor(rules: seq<Rule>)
      reads regexes
    {
      |regexes| == |rules| &&
      forall i :: 0 <= i < |regexes| ==> regexes[i].kind == rules[i].kind && regexes[i].lastIndex == 0
    }

    /** The state between two calls of `analizar`. */
    ghost predicate Valid()
      reads regexes
    {
      ReadyFor(RuleTable)
    }

    constructor ()
      ensures Valid()
    {
      var keyword := new RegExp(Keyword);
      var number := new RegExp(Number);
      var identifier := new RegExp(Identifier);
      var str := new RegExp(String);
      var operator := new RegExp(Operator);
      var punctuation := new RegExp(Punctuation);
      var comment := new RegExp(Comment);
      regexes := [keyword, number, identifier, str, operator, punctuation, comment];
    }

    /** The `for (const rule of tokenRules)` loop over one line (numbered lineNo): the rules'
        `exec` loops in table order, each search starting at offset 0. */
    method RunRules(rules: seq<Rule>, line: string, lineNo: nat, found: seq<Token>, id: nat)
        returns (found': seq<Token>, id': nat)
      requires ReadyFor(rules)
      modifies regexes
      ensures ReadyFor(rules)
      ensures found' == found + RulesTokens(rules, line, lineNo, id)
      ensures id' == id + |found'| - |found|
    {
      found', id' := found, id;
      for r := 0 to |regexes|
        invariant ReadyFor(rules)
        invariant found' == found + RulesTokens(rules[..r], line, lineNo, id)
        invariant id' == id + |found'| - |found|
      {
        ghost var done := RulesTokens(rules[..r], line, lineNo, id);
        ghost var more := MatchTokens(rules[r], line, lineNo, 0, id');
        TakeOneMore(rules, r);
        RulesTokensStep(rules[..r], rules[r], line, lineNo, id);
        found', id' := RunRule(regexes[r], rules[r], line, lineNo, found', id');
        AppendAssoc(found, done, more);
      }
      assert rules[..|regexes|] == rules;
    }

    /** `analizar(codigo)`: every line in turn, then the sort by position. */
    method Analyze(code: string) returns (tokens: seq<Token>)
      requires Valid()
      modifies regexes
      ensures Valid()
      ensures tokens == Analysis(code)
    {
      var lines := Split(code);
      var found: seq<Token> := [];
      var id := 1;
      for i := 0 to |lines|
        invariant Valid()
        invariant found == LinesTokens(lines[..i])
        invariant id == |found| + 1
      {
        LinesTokensStep(lines, i);
        found, id := RunRules(RuleTable, lines[i], i + 1, found, id);
      }
      assert lines[..|lines|] == lines;
      var a := new Token[|found|](k requires 0 <= k < |found| => found[k]);
      assert a[..] == found;
      SortTokens(a);
      tokens := a[..];
    }
  }
}
