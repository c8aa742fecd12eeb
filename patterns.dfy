/** The seven patterns of the rule table in script.js. Each pattern is written
    out as a matcher that attempts it at one offset of a line, the way a
    JavaScript regular expression is tried at one position (alternatives in
    order, greedy and lazy quantifiers, `\b`), together with a declarative
    description of the lexemes the pattern accepts and lemmas tying the two. */
module Patterns {
  import opened Options

  /** One category per entry of the rule table. */
  datatype Kind = Keyword | Number | Identifier | String | Operator | Punctuation | Comment

  // ---------------------------------------------------------------------
  // Character classes (regular expressions without the `u` flag)
  // ---------------------------------------------------------------------

  predicate IsDigit(c: char) { '0' <= c <= '9' }

  predicate IsLetter(c: char) { 'A' <= c <= 'Z' || 'a' <= c <= 'z' }

  /** `\w`, the class that `\b` is defined by. */
  predicate IsWordChar(c: char) { IsLetter(c) || IsDigit(c) || c == '_' }

  /** `[a-zA-Z_]`, the first character of an identifier. */
  predicate IsIdentStart(c: char) { IsLetter(c) || c == '_' }

  /** The characters that `.` does not match. */
  predicate IsLineTerminator(c: char) {
    c == '\n' || c == '\r' || c == '\U{2028}' || c == '\U{2029}'
  }

  /** `\b` holds at offset i of s: exactly one of the characters around i is a word character. */
  predicate AtWordBoundary(s: string, i: nat) {
    (0 < i <= |s| && IsWordChar(s[i - 1])) != (i < |s| && IsWordChar(s[i]))
  }

  /** The end of the longest run of word characters starting at i. */
  function WordEnd(s: string, i: nat): (e: nat)
    requires i <= |s|
    ensures i <= e <= |s|
    decreases |s| - i
  {
    if i == |s| || !IsWordChar(s[i]) then i else WordEnd(s, i + 1)
  }

  /** WordEnd stops at the first character that is not a word character. */
  lemma {:induction false} WordEndRun(s: string, i: nat)
    requires i <= |s|
    ensures forall k :: i <= k < WordEnd(s, i) ==> IsWordChar(s[k])
    ensures WordEnd(s, i) == |s| || !IsWordChar(s[WordEnd(s, i)])
    decreases |s| - i
  {
    if i < |s| && IsWordChar(s[i]) {
      WordEndRun(s, i + 1);
    }
  }

  /** The end of the longest run of digits starting at i (`\d+` taken greedily). */
  function DigitsEnd(s: string, i: nat): (e: nat)
    requires i <= |s|
    ensures i <= e <= |s|
    decreases |s| - i
  {
    if i == |s| || !IsDigit(s[i]) then i else DigitsEnd(s, i + 1)
  }

  /** DigitsEnd stops at the first non-digit: everything before it is a digit. */
  lemma {:induction false} DigitsEndRun(s: string, i: nat)
    requires i <= |s|
    ensures forall k :: i <= k < DigitsEnd(s, i) ==> IsDigit(s[k])
    ensures DigitsEnd(s, i) == |s| || !IsDigit(s[DigitsEnd(s, i)])
    decreases |s| - i
  {
    if i < |s| && IsDigit(s[i]) {
      DigitsEndRun(s, i + 1);
    }
  }

  // ---------------------------------------------------------------------
  // Ordered alternatives: `(a|b|c)` tries a, then b, then c
  // ---------------------------------------------------------------------

  /** Alternative w occurs at offset p of line; when `bounded`, it is also followed by `\b`. */
  predicate Occurs(line: string, p: nat, w: string, bounded: bool) {
    p + |w| <= |line| && line[p..p + |w|] == w && (bounded ==> AtWordBoundary(line, p + |w|))
  }

  /** The index of the first of alts[i..] that occurs at p, trying them in order. */
  function FirstAlternative(line: string, p: nat, alts: seq<string>, bounded: bool, i: nat): (r: Option<nat>)
    requires i <= |alts|
    ensures r.Some? ==> i <= r.value < |alts| && Occurs(line, p, alts[r.value], bounded)
    ensures r.Some? ==> forall j :: i <= j < r.value ==> !Occurs(line, p, alts[j], bounded)
    ensures r.None? ==> forall j :: i <= j < |alts| ==> !Occurs(line, p, alts[j], bounded)
    decreases |alts| - i
  {
    if i == |alts| then None
    else if Occurs(line, p, alts[i], bounded) then Some(i)
    else FirstAlternative(line, p, alts, bounded, i + 1)
  }

  /** The end of the first of alts that occurs at p. */
  function AlternativeEnd(line: string, p: nat, alts: seq<string>, bounded: bool): (r: Option<nat>)
    ensures r.Some? ==> p <= r.value <= |line|
    ensures r.Some? && (forall k :: 0 <= k < |alts| ==> alts[k] != []) ==> p < r.value
  {
    match FirstAlternative(line, p, alts, bounded, 0)
    case Some(k) => Some(p + |alts[k]|)
    case None => None
  }

  // ---------------------------------------------------------------------
  // KEYWORD   \b(if|else|while|for|return|int|float|string|bool|true|false|void)\b
  // ---------------------------------------------------------------------

  const Keywords: seq<string> :=
    ["if", "else", "while", "for", "return", "int", "float", "string", "bool", "true", "false", "void"]

  /** Every alternative is a word followed by `\b`, so the only candidate is the whole word
      starting at p; PatternFacts.KeywordAtAlternatives shows this is the alternatives tried in order. */
  function KeywordAt(line: string, p: nat): (r: Option<nat>)
    ensures r.Some? ==> p < r.value <= |line|
  {
    if p < |line| && AtWordBoundary(line, p) then
      var e := WordEnd(line, p);
      if line[p..e] in Keywords then Some(e) else None
    else None
  }

  /** What the keyword pattern means: a listed word between two word boundaries. */
  predicate KeywordMatch(line: string, p: nat, e: nat) {
    p <= e <= |line| && AtWordBoundary(line, p) && line[p..e] in Keywords && AtWordBoundary(line, e)
  }

  // ---------------------------------------------------------------------
  // NUMBER   \b\d+(\.\d+)?([eE][+-]?\d+)?\b
  // ---------------------------------------------------------------------

  /** The end of `(\.\d+)?` taken greedily at d. */
  function FractionEnd(s: string, d: nat): (f: nat)
    requires d <= |s|
    ensures d <= f <= |s|
  {
    if d + 1 < |s| && s[d] == '.' && IsDigit(s[d + 1]) then DigitsEnd(s, d + 1) else d
  }

  /** The end of `([eE][+-]?\d+)?` taken greedily at f. */
  function ExponentEnd(s: string, f: nat): (x: nat)
    requires f <= |s|
    ensures f <= x <= |s|
  {
    if f < |s| && (s[f] == 'e' || s[f] == 'E') then
      var g := if f + 1 < |s| && (s[f + 1] == '+' || s[f + 1] == '-') then f + 2 else f + 1;
      if g < |s| && IsDigit(s[g]) then DigitsEnd(s, g) else f
    else f
  }

  /** The greedy parts are tried with and without the exponent, then without the
      fraction, each followed by `\b`. Giving back digits of a run never helps:
      the next character would then be a digit, which defeats `.`, `[eE]` and `\b`. */
  function NumberAt(line: string, p: nat): (r: Option<nat>)
    ensures r.Some? ==> p < r.value <= |line|
  {
    if p < |line| && AtWordBoundary(line, p) && IsDigit(line[p]) then
      var d := DigitsEnd(line, p);
      var f := FractionEnd(line, d);
      var x := ExponentEnd(line, f);
      if AtWordBoundary(line, x) then Some(x)
      else if AtWordBoundary(line, f) then Some(f)
      else if AtWordBoundary(line, d) then Some(d)
      else None
    else None
  }

  predicate AllDigits(s: string) { forall k :: 0 <= k < |s| ==> IsDigit(s[k]) }

  predicate IsDigits(s: string) { |s| > 0 && AllDigits(s) }

  predicate IsFraction(s: string) { |s| >= 2 && s[0] == '.' && IsDigits(s[1..]) }

  predicate IsExponent(s: string) {
    |s| >= 2 && (s[0] == 'e' || s[0] == 'E') &&
    (IsDigits(s[1..]) || ((s[1] == '+' || s[1] == '-') && IsDigits(s[2..])))
  }

  /** A numeral: digits, then an optional fraction, then an optional exponent. */
  predicate IsNumeral(w: string) {
    exists i, j :: 0 < i <= j <= |w| && IsDigits(w[..i]) && (j == i || IsFraction(w[i..j])) &&
                   (j == |w| || IsExponent(w[j..]))
  }

  predicate NumberMatch(line: string, p: nat, e: nat) {
    p <= e <= |line| && AtWordBoundary(line, p) && IsNumeral(line[p..e]) && AtWordBoundary(line, e)
  }

  // ---------------------------------------------------------------------
  // IDENTIFIER   \b[a-zA-Z_][a-zA-Z0-9_]*\b
  // ---------------------------------------------------------------------

  /** The star is greedy; a shorter run would leave a word character next, so `\b` could not hold. */
  function IdentifierAt(line: string, p: nat): (r: Option<nat>)
    ensures r.Some? ==> p < r.value <= |line|
  {
    if p < |line| && AtWordBoundary(line, p) && IsIdentStart(line[p]) then
      var e := WordEnd(line, p + 1);
      if AtWordBoundary(line, e) then Some(e) else None
    else None
  }

  predicate IsIdentifier(w: string) {
    |w| > 0 && IsIdentStart(w[0]) && forall k :: 0 <= k < |w| ==> IsWordChar(w[k])
  }

  predicate IdentifierMatch(line: string, p: nat, e: nat) {
    p <= e <= |line| && AtWordBoundary(line, p) && IsIdentifier(line[p..e]) && AtWordBoundary(line, e)
  }

  // ---------------------------------------------------------------------
  // STRING   "([^"\\]|\\.)*"
  // ---------------------------------------------------------------------

  /** Where the greedy `([^"\\]|\\.)*` stops when started at q. */
  function StringBodyEnd(line: string, q: nat): (k: nat)
    requires q <= |line|
    ensures q <= k <= |line|
    decreases |line| - q
  {
    if q < |line| && line[q] != '"' && line[q] != '\\' then StringBodyEnd(line, q + 1)
    else if q + 1 < |line| && line[q] == '\\' && !IsLineTerminator(line[q + 1]) then StringBodyEnd(line, q + 2)
    else q
  }

  /** Backing off the star only ever lands on a character that is not `"`, so the
      closing quote is looked for only where the greedy run stopped. */
  function StringAt(line: string, p: nat): (r: Option<nat>)
    ensures r.Some? ==> p < r.value <= |line|
  {
    if p < |line| && line[p] == '"' then
      var k := StringBodyEnd(line, p + 1);
      if k < |line| && line[k] == '"' then Some(k + 1) else None
    else None
  }

  /** A sequence of items, each a character other than `"` and `\`, or `\` and a character `.` matches. */
  predicate IsStringBody(b: string)
    decreases |b|
  {
    b == [] ||
    (b[0] != '"' && b[0] != '\\' && IsStringBody(b[1..])) ||
    (|b| >= 2 && b[0] == '\\' && !IsLineTerminator(b[1]) && IsStringBody(b[2..]))
  }

  predicate IsStringLiteral(w: string) {
    |w| >= 2 && w[0] == '"' && w[|w| - 1] == '"' && IsStringBody(w[1..|w| - 1])
  }

  // ---------------------------------------------------------------------
  // OPERATOR   (\+\+|--|\+=|-=|\*=|\/=|==|!=|<=|>=|&&|\|\||[+\-*/%=<>&|!])
  // ---------------------------------------------------------------------

  /** The alternatives in pattern order; the closing class is written out as its one-character members. */
  const Operators: seq<string> :=
    ["++", "--", "+=", "-=", "*=", "/=", "==", "!=", "<=", ">=", "&&", "||",
     "+", "-", "*", "/", "%", "=", "<", ">", "&", "|", "!"]

  /** The twelve two-character alternatives. */
  predicate IsTwoCharOperator(a: char, b: char) {
    (a == '+' && b == '+') || (a == '-' && b == '-') || (a == '+' && b == '=') || (a == '-' && b == '=') ||
    (a == '*' && b == '=') || (a == '/' && b == '=') || (a == '=' && b == '=') || (a == '!' && b == '=') ||
    (a == '<' && b == '=') || (a == '>' && b == '=') || (a == '&' && b == '&') || (a == '|' && b == '|')
  }

  // The closing class of the pattern, as a string of its members.
  const OperatorChars: string := "+-*/%=<>&|!"

  /** A two-character alternative that occurs wins, as it comes first; otherwise the class is
      tried. PatternFacts.OperatorAtAlternatives shows this is the alternatives tried in order. */
  function OperatorAt(line: string, p: nat): (r: Option<nat>)
    ensures r.Some? ==> p < r.value <= |line|
  {
    if p + 1 < |line| && IsTwoCharOperator(line[p], line[p + 1]) then Some(p + 2)
    else if p < |line| && line[p] in OperatorChars then Some(p + 1)
    else None
  }

  predicate IsOperator(w: string) { w in Operators }

  // ---------------------------------------------------------------------
  // PUNCTUATION   [(){}\[\],;.]
  // ---------------------------------------------------------------------

  const PunctuationChars: string := "(){}[],;."

  function PunctuationAt(line: string, p: nat): (r: Option<nat>)
    ensures r.Some? ==> r.value == p + 1 <= |line| && line[p] in PunctuationChars
    ensures r.None? ==> p >= |line| || line[p] !in PunctuationChars
  {
    if p < |line| && line[p] in PunctuationChars then Some(p + 1) else None
  }

  predicate IsPunctuation(w: string) { |w| == 1 && w[0] in PunctuationChars }

  // ---------------------------------------------------------------------
  // COMMENT   (\/\/.*|\/\*[\s\S]*?\*\/)
  // ---------------------------------------------------------------------

  /** The first line terminator at or after q, or the end of the line: where the greedy `.*` stops. */
  function TerminatorFrom(line: string, q: nat): (k: nat)
    requires q <= |line|
    ensures q <= k <= |line|
    decreases |line| - q
  {
    if q == |line| || IsLineTerminator(line[q]) then q else TerminatorFrom(line, q + 1)
  }

  /** TerminatorFrom stops at the first line terminator, or at the end of the line. */
  lemma {:induction false} TerminatorFromRun(line: string, q: nat)
    requires q <= |line|
    ensures forall i :: q <= i < TerminatorFrom(line, q) ==> !IsLineTerminator(line[i])
    ensures TerminatorFrom(line, q) == |line| || IsLineTerminator(line[TerminatorFrom(line, q)])
    decreases |line| - q
  {
    if q < |line| && !IsLineTerminator(line[q]) {
      TerminatorFromRun(line, q + 1);
    }
  }

  predicate ClosesAt(line: string, k: nat) { k + 1 < |line| && line[k] == '*' && line[k + 1] == '/' }

  // The first star-slash at or after q: the lazy `[\s\S]*?` stops at the earliest one.
  function CloseFrom(line: string, q: nat): (r: Option<nat>)
    ensures r.Some? ==> q <= r.value && ClosesAt(line, r.value)
    decreases |line| - q
  {
    if q + 1 >= |line| then None
    else if ClosesAt(line, q) then Some(q)
    else CloseFrom(line, q + 1)
  }

  /** CloseFrom finds the earliest star-slash from q, and None means there is none. */
  lemma {:induction false} CloseFromFirst(line: string, q: nat)
    ensures CloseFrom(line, q).Some? ==> forall k :: q <= k < CloseFrom(line, q).value ==> !ClosesAt(line, k)
    ensures CloseFrom(line, q).None? ==> forall k :: q <= k ==> !ClosesAt(line, k)
    decreases |line| - q
  {
    if q + 1 < |line| && !ClosesAt(line, q) {
      CloseFromFirst(line, q + 1);
    }
  }

  function CommentAt(line: string, p: nat): (r: Option<nat>)
    ensures r.Some? ==> p < r.value <= |line|
  {
    if p + 1 < |line| && line[p] == '/' && line[p + 1] == '/' then Some(TerminatorFrom(line, p + 2))
    else if p + 1 < |line| && line[p] == '/' && line[p + 1] == '*' then
      match CloseFrom(line, p + 2)
      case Some(k) => Some(k + 2)
      case None => None
    else None
  }

  /** `//` and then characters other than line terminators. */
  predicate IsLineComment(w: string) {
    |w| >= 2 && w[0] == '/' && w[1] == '/' && forall i :: 2 <= i < |w| ==> !IsLineTerminator(w[i])
  }

  // Slash-star, then anything, then the first star-slash after the opening.
  predicate IsBlockComment(w: string) {
    |w| >= 4 && w[0] == '/' && w[1] == '*' && ClosesAt(w, |w| - 2) &&
    forall k :: 2 <= k < |w| - 2 ==> !ClosesAt(w, k)
  }

  predicate IsComment(w: string) { IsLineComment(w) || IsBlockComment(w) }

  // ---------------------------------------------------------------------
  // The rule table's patterns, by category
  // ---------------------------------------------------------------------

  /** The end of the match of kind's pattern attempted at offset p of line. */
  function MatchAt(kind: Kind, line: string, p: nat): (r: Option<nat>)
    ensures r.Some? ==> p < r.value <= |line|
  {
    match kind
    case Keyword => KeywordAt(line, p)
    case Number => NumberAt(line, p)
    case Identifier => IdentifierAt(line, p)
    case String => StringAt(line, p)
    case Operator => OperatorAt(line, p)
    case Punctuation => PunctuationAt(line, p)
    case Comment => CommentAt(line, p)
  }

  /** The lexemes of each category, stated without reference to the matchers. */
  predicate InLanguage(kind: Kind, w: string) {
    match kind
    case Keyword => w in Keywords
    case Number => IsNumeral(w)
    case Identifier => IsIdentifier(w)
    case String => IsStringLiteral(w)
    case Operator => IsOperator(w)
    case Punctuation => IsPunctuation(w)
    case Comment => IsComment(w)
  }

  // ---------------------------------------------------------------------
  // Facts about the constant tables
  // ---------------------------------------------------------------------

  /** A non-empty run of word characters. */
  predicate IsWord(w: string) { |w| > 0 && forall i :: 0 <= i < |w| ==> IsWordChar(w[i]) }

  lemma KeywordsAreWords()
    ensures forall k :: 0 <= k < |Keywords| ==> IsWord(Keywords[k])
  {
  }

  lemma OperatorLengths()
    ensures |Operators| == 23
    ensures forall k :: 0 <= k < 12 ==> |Operators[k]| == 2
    ensures forall k :: 12 <= k < 23 ==> |Operators[k]| == 1
  {
  }
}
