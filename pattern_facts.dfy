/** What the matchers of `Patterns` accept: each matcher is tied to the
    declarative description of its category's lexemes, in both directions
    where the pattern can match only one way at an offset, and as "sound and
    longest" where a shorter lexeme of the category also starts there. */
module PatternFacts {
  import opened Options
  import opened Patterns

  lemma SliceOfSlice(s: string, a: nat, b: nat, c: nat, d: nat)
    requires a <= b <= |s| && c <= d <= b - a
    ensures s[a..b][c..d] == s[a + c..a + d]
  {
    assert forall k :: 0 <= k < d - c ==> s[a..b][c..d][k] == s[a + c + k];
  }

  // ---------------------------------------------------------------------
  // KEYWORD
  // ---------------------------------------------------------------------

  /** Inside a word that occurs at p there is no word boundary. */
  lemma NoBoundaryInsideWord(line: string, p: nat, w: string, n: nat)
    requires IsWord(w) && p + |w| <= |line| && line[p..p + |w|] == w
    ensures 0 < n < |w| ==> !AtWordBoundary(line, p + n)
  {
    if 0 < n < |w| {
      assert line[p + n] == w[n] && line[p + n - 1] == w[n - 1];
    }
  }

  /** Two words that both occur at p followed by `\b` are the same word. */
  lemma WordAlternativesAgree(line: string, p: nat, w1: string, w2: string)
    requires IsWord(w1) && IsWord(w2)
    requires Occurs(line, p, w1, true) && Occurs(line, p, w2, true)
    ensures w1 == w2
  {
    NoBoundaryInsideWord(line, p, w2, |w1|);
    NoBoundaryInsideWord(line, p, w1, |w2|);
  }

  /** For a list of words, trying the alternatives in order finds exactly the listed word
      that occurs at p followed by `\b`: the order of the list does not matter. */
  lemma WordAlternativeIff(line: string, p: nat, alts: seq<string>, e: nat)
    requires forall k :: 0 <= k < |alts| ==> IsWord(alts[k])
    ensures AlternativeEnd(line, p, alts, true) == Some(e) <==>
            p <= e <= |line| && line[p..e] in alts && AtWordBoundary(line, e)
  {
    var r := FirstAlternative(line, p, alts, true, 0);
    if AlternativeEnd(line, p, alts, true) == Some(e) {
      assert line[p..e] == alts[r.value];
    }
    if p <= e <= |line| && line[p..e] in alts && AtWordBoundary(line, e) {
      var k0 :| 0 <= k0 < |alts| && alts[k0] == line[p..e];
      assert Occurs(line, p, alts[k0], true);
      WordAlternativesAgree(line, p, alts[r.value], alts[k0]);
    }
  }

  /** WordEnd stops exactly at the end of a run of word characters. */
  lemma WordEndAt(s: string, i: nat, a: nat)
    requires i <= a <= |s|
    requires forall k :: i <= k < a ==> IsWordChar(s[k])
    requires a == |s| || !IsWordChar(s[a])
    ensures WordEnd(s, i) == a
  {
    WordEndRun(s, i);
  }

  /** A keyword is matched at p exactly when a listed word lies between two word boundaries there. */
  lemma KeywordAtIff(line: string, p: nat, e: nat)
    ensures KeywordAt(line, p) == Some(e) <==> KeywordMatch(line, p, e)
  {
    KeywordsAreWords();
    if KeywordMatch(line, p, e) {
      var w := line[p..e];
      assert IsWord(w);
      assert forall k :: p <= k < e ==> line[k] == w[k - p];
      assert IsWordChar(line[e - 1]);
      WordEndAt(line, p, e);
    }
    if KeywordAt(line, p) == Some(e) {
      WordEndRun(line, p);
    }
  }

  /** The keyword matcher is the pattern's alternation: trying the listed words in order at a
      word boundary, each followed by `\b`. */
  lemma KeywordAtAlternatives(line: string, p: nat)
    ensures KeywordAt(line, p) ==
            if p < |line| && AtWordBoundary(line, p) then AlternativeEnd(line, p, Keywords, true) else None
  {
    KeywordsAreWords();
    if p < |line| && AtWordBoundary(line, p) {
      match KeywordAt(line, p)
      case Some(e) =>
        KeywordAtIff(line, p, e);
        WordAlternativeIff(line, p, Keywords, e);
      case None =>
        match AlternativeEnd(line, p, Keywords, true)
        case Some(e) =>
          KeywordAtIff(line, p, e);
          WordAlternativeIff(line, p, Keywords, e);
        case None =>
    }
  }

  // ---------------------------------------------------------------------
  // IDENTIFIER
  // ---------------------------------------------------------------------

  /** An identifier is matched at p exactly when a whole identifier lies between two word boundaries there. */
  lemma IdentifierAtIff(line: string, p: nat, e: nat)
    ensures IdentifierAt(line, p) == Some(e) <==> IdentifierMatch(line, p, e)
  {
    if p + 1 <= |line| {
      WordEndRun(line, p + 1);
    }
    if IdentifierAt(line, p) == Some(e) {
      var w := line[p..e];
      assert w[0] == line[p];
      assert forall k :: 0 <= k < |w| ==> w[k] == line[p + k];
    }
    if IdentifierMatch(line, p, e) {
      var w := line[p..e];
      assert w[0] == line[p];
      assert forall k :: p <= k < e ==> line[k] == w[k - p];
      assert IsWordChar(line[e - 1]);
      var e' := WordEnd(line, p + 1);
    }
  }

  // ---------------------------------------------------------------------
  // NUMBER
  // ---------------------------------------------------------------------

  lemma DigitsEndAt(s: string, i: nat, a: nat)
    requires i <= a <= |s|
    requires forall k :: i <= k < a ==> IsDigit(s[k])
    requires a == |s| || !IsDigit(s[a])
    ensures DigitsEnd(s, i) == a
  {
    DigitsEndRun(s, i);
  }

  lemma NumeralFromParts(line: string, p: nat, d: nat, f: nat, e: nat)
    requires p < d <= f <= e <= |line|
    requires IsDigits(line[p..d])
    requires f == d || IsFraction(line[d..f])
    requires e == f || IsExponent(line[f..e])
    ensures IsNumeral(line[p..e])
  {
    var w := line[p..e];
    SliceOfSlice(line, p, e, 0, d - p);
    SliceOfSlice(line, p, e, d - p, f - p);
    SliceOfSlice(line, p, e, f - p, e - p);
    assert w[..d - p] == line[p..d];
    assert w[f - p..] == line[f..e];
    assert 0 < d - p <= f - p <= |w| && IsDigits(w[..d - p]) &&
           (f - p == d - p || IsFraction(w[d - p..f - p])) && (f - p == |w| || IsExponent(w[f - p..]));
  }

  lemma DigitsSlice(s: string, a: nat, b: nat)
    requires a < b <= |s|
    requires forall k :: a <= k < b ==> IsDigit(s[k])
    ensures IsDigits(s[a..b])
  {
    assert forall k :: 0 <= k < b - a ==> s[a..b][k] == s[a + k];
  }

  /** When a fraction follows at d, it is parsed to the end of its digits. */
  lemma FractionSound(line: string, d: nat)
    requires d <= |line|
    ensures FractionEnd(line, d) == d || IsFraction(line[d..FractionEnd(line, d)])
  {
    var f := FractionEnd(line, d);
    if f != d {
      DigitsEndRun(line, d + 1);
      DigitsSlice(line, d + 1, f);
      assert line[d..f][1..] == line[d + 1..f];
    }
  }

  lemma ExponentSound(line: string, f: nat)
    requires f <= |line|
    ensures ExponentEnd(line, f) == f || IsExponent(line[f..ExponentEnd(line, f)])
  {
    var x := ExponentEnd(line, f);
    if x != f {
      var s := line[f..x];
      var g := if f + 1 < |line| && (line[f + 1] == '+' || line[f + 1] == '-') then f + 2 else f + 1;
      DigitsEndRun(line, g);
      DigitsSlice(line, g, x);
      if g == f + 1 {
        assert s[1..] == line[f + 1..x];
      } else {
        assert s[1] == line[f + 1];
        assert s[2..] == line[f + 2..x];
      }
    }
  }

  /** What the number matcher returns is a numeral between two word boundaries. */
  lemma NumberAtSound(line: string, p: nat, e: nat)
    requires NumberAt(line, p) == Some(e)
    ensures NumberMatch(line, p, e)
  {
    var d := DigitsEnd(line, p);
    var f := FractionEnd(line, d);
    var x := ExponentEnd(line, f);
    DigitsEndRun(line, p);
    DigitsSlice(line, p, d);
    FractionSound(line, d);
    ExponentSound(line, f);
    if e == x {
      NumeralFromParts(line, p, d, f, x);
    } else if e == f {
      NumeralFromParts(line, p, d, f, f);
    } else {
      NumeralFromParts(line, p, d, d, d);
    }
  }

  /** An exponent that is not followed by a digit is parsed exactly by the greedy exponent part. */
  lemma ExponentEndAt(line: string, f: nat, e: nat)
    requires f < e <= |line|
    requires IsExponent(line[f..e])
    requires e == |line| || !IsDigit(line[e])
    ensures ExponentEnd(line, f) == e
  {
    var s := line[f..e];
    assert s[0] == line[f];
    assert s[1] == line[f + 1];
    if IsDigits(s[1..]) {
      assert forall k :: f + 1 <= k < e ==> line[k] == s[1..][k - f - 1];
      DigitsEndAt(line, f + 1, e);
    } else {
      assert forall k :: f + 2 <= k < e ==> line[k] == s[2..][k - f - 2];
      assert IsDigit(line[f + 2]);
      DigitsEndAt(line, f + 2, e);
    }
  }

  /** The digits, fraction and exponent of a numeral, as offsets into the line: digits on
      [p, a), the fraction on [a, b) and the exponent on [b, e). */
  ghost predicate NumeralParts(line: string, p: nat, a: nat, b: nat, e: nat) {
    p < a <= b <= e <= |line| &&
    (forall k :: p <= k < a ==> IsDigit(line[k])) &&
    (a == b || (line[a] == '.' && a + 1 < b && forall k :: a + 1 <= k < b ==> IsDigit(line[k]))) &&
    (b == e || IsExponent(line[b..e]))
  }

  lemma DigitsOfSlice(s: string, a: nat, b: nat)
    requires a <= b <= |s| && AllDigits(s[a..b])
    ensures forall k :: a <= k < b ==> IsDigit(s[k])
  {
    assert forall k :: a <= k < b ==> s[k] == s[a..b][k - a];
  }

  lemma FractionOfSlice(s: string, a: nat, b: nat)
    requires a <= b <= |s| && IsFraction(s[a..b])
    ensures s[a] == '.' && a + 1 < b && forall k :: a + 1 <= k < b ==> IsDigit(s[k])
  {
    assert s[a] == s[a..b][0];
    assert s[a..b][1..] == s[a + 1..b];
    DigitsOfSlice(s, a + 1, b);
  }

  lemma NumeralHasParts(line: string, p: nat, e: nat) returns (a: nat, b: nat)
    requires p <= e <= |line| && IsNumeral(line[p..e])
    ensures NumeralParts(line, p, a, b, e)
  {
    var w := line[p..e];
    var i, j :| 0 < i <= j <= |w| && IsDigits(w[..i]) && (j == i || IsFraction(w[i..j])) &&
                (j == |w| || IsExponent(w[j..]));
    a, b := p + i, p + j;
    SliceOfSlice(line, p, e, 0, i);
    SliceOfSlice(line, p, e, i, j);
    SliceOfSlice(line, p, e, j, e - p);
    DigitsOfSlice(line, p, a);
    if i < j {
      FractionOfSlice(line, a, b);
    }
  }

  lemma ExponentShape(s: string)
    requires IsExponent(s)
    ensures !IsDigit(s[0]) && IsDigit(s[|s| - 1])
  {
    if IsDigits(s[1..]) {
      assert s[|s| - 1] == s[1..][|s| - 2];
    } else {
      assert s[|s| - 1] == s[2..][|s| - 3];
    }
  }

  /** Every numeral between two word boundaries at p is matched, and the matcher's
      lexeme is at least as long: it returns the longest one. */
  lemma NumberAtLongest(line: string, p: nat, e: nat)
    requires NumberMatch(line, p, e)
    ensures NumberAt(line, p).Some? && e <= NumberAt(line, p).value
  {
    var a, b := NumeralHasParts(line, p, e);
    if b < e {
      ExponentShape(line[b..e]);
      assert line[b] == line[b..e][0];
      assert line[e - 1] == line[b..e][e - b - 1];
    }
    assert IsDigit(line[e - 1]);
    assert e == |line| || !IsDigit(line[e]);
    DigitsEndAt(line, p, a);
    if a < b {
      DigitsEndAt(line, a + 1, b);
      assert FractionEnd(line, a) == b;
    } else if b < e {
      assert FractionEnd(line, a) == a;
    }
    if b < e {
      ExponentEndAt(line, b, e);
    }
  }

  // ---------------------------------------------------------------------
  // STRING
  // ---------------------------------------------------------------------

  lemma {:induction false} BodyEndSound(line: string, q: nat)
    requires q <= |line|
    ensures IsStringBody(line[q..StringBodyEnd(line, q)])
    decreases |line| - q
  {
    var k := StringBodyEnd(line, q);
    if q < |line| && line[q] != '"' && line[q] != '\\' {
      BodyEndSound(line, q + 1);
      assert line[q..k][1..] == line[q + 1..k];
    } else if q + 1 < |line| && line[q] == '\\' && !IsLineTerminator(line[q + 1]) {
      BodyEndSound(line, q + 2);
      assert line[q..k][2..] == line[q + 2..k];
    } else {
      assert line[q..k] == [];
    }
  }

  lemma {:induction false} BodyEndComplete(line: string, q: nat, k: nat)
    requires q <= k < |line| && line[k] == '"'
    requires IsStringBody(line[q..k])
    ensures StringBodyEnd(line, q) == k
    decreases k - q
  {
    var b := line[q..k];
    if b != [] {
      assert b[0] == line[q];
      if b[0] != '"' && b[0] != '\\' {
        assert b[1..] == line[q + 1..k];
        BodyEndComplete(line, q + 1, k);
      } else {
        assert b[1] == line[q + 1];
        assert b[2..] == line[q + 2..k];
        BodyEndComplete(line, q + 2, k);
      }
    }
  }

  /** A string is matched at p exactly when a whole string literal starts there. */
  lemma StringAtIff(line: string, p: nat, e: nat)
    ensures StringAt(line, p) == Some(e) <==> p <= e <= |line| && IsStringLiteral(line[p..e])
  {
    if StringAt(line, p) == Some(e) {
      BodyEndSound(line, p + 1);
      SliceOfSlice(line, p, e, 1, e - p - 1);
    }
    if p <= e <= |line| && IsStringLiteral(line[p..e]) {
      var w := line[p..e];
      assert w[0] == line[p] && w[|w| - 1] == line[e - 1];
      SliceOfSlice(line, p, e, 1, e - p - 1);
      BodyEndComplete(line, p + 1, e - 1);
    }
  }

  // ---------------------------------------------------------------------
  // OPERATOR
  // ---------------------------------------------------------------------

  /** The two-character alternatives are the first twelve entries. */
  lemma TwoCharOperatorListed(a: char, b: char) returns (k: nat)
    requires IsTwoCharOperator(a, b)
    ensures k < 12 && Operators[k] == [a, b]
  {
    k := if a == '+' && b == '+' then 0 else if a == '-' && b == '-' then 1
      else if a == '+' then 2 else if a == '-' then 3 else if a == '*' then 4
      else if a == '/' then 5 else if a == '=' then 6 else if a == '!' then 7
      else if a == '<' then 8 else if a == '>' then 9 else if a == '&' then 10 else 11;
  }

  /** The one-character alternatives are the members of the class, in the last eleven entries. */
  lemma OperatorCharListed(c: char) returns (k: nat)
    requires c in OperatorChars
    ensures 12 <= k < 23 && Operators[k] == [c]
  {
    k := if c == '+' then 12 else if c == '-' then 13 else if c == '*' then 14
      else if c == '/' then 15 else if c == '%' then 16 else if c == '=' then 17
      else if c == '<' then 18 else if c == '>' then 19 else if c == '&' then 20
      else if c == '|' then 21 else 22;
  }

  /** Each entry of the table, read back: a two-character alternative or a class member. */
  lemma OperatorEntries()
    ensures forall k :: 0 <= k < 12 ==> |Operators[k]| == 2 && IsTwoCharOperator(Operators[k][0], Operators[k][1])
    ensures forall k :: 12 <= k < 23 ==> |Operators[k]| == 1 && Operators[k][0] in OperatorChars
  {
  }

  /** Alternative k occurs at p exactly when its characters are those of the line at p. */
  lemma OccursOperator(line: string, p: nat, k: nat)
    requires k < |Operators|
    ensures Occurs(line, p, Operators[k], false) <==>
            p + |Operators[k]| <= |line| && forall j :: 0 <= j < |Operators[k]| ==> line[p + j] == Operators[k][j]
  {
    var w := Operators[k];
    if p + |w| <= |line| && forall j :: 0 <= j < |w| ==> line[p + j] == w[j] {
      assert line[p..p + |w|] == w;
    }
  }

  /** Without a two-character operator at p, none of the first twelve alternatives occurs. */
  lemma NoTwoCharOccurs(line: string, p: nat)
    requires !(p + 1 < |line| && IsTwoCharOperator(line[p], line[p + 1]))
    ensures forall j :: 0 <= j < 12 ==> !Occurs(line, p, Operators[j], false)
  {
    OperatorEntries();
    forall j | 0 <= j < 12
      ensures !Occurs(line, p, Operators[j], false)
    {
      OccursOperator(line, p, j);
    }
  }

  /** Without a class member at p, none of the last eleven alternatives occurs. */
  lemma NoOneCharOccurs(line: string, p: nat)
    requires p < |line| && line[p] !in OperatorChars
    ensures forall j :: 12 <= j < 23 ==> !Occurs(line, p, Operators[j], false)
  {
    OperatorEntries();
    forall j | 12 <= j < 23
      ensures !Occurs(line, p, Operators[j], false)
    {
      OccursOperator(line, p, j);
    }
  }

  /** When none of alts[..lo] occurs and alts[k] does, for some k below hi, the alternation ends
      after the common length n of alts[lo..hi]. */
  lemma AlternativeEndIn(line: string, p: nat, alts: seq<string>, bounded: bool, lo: nat, hi: nat, k: nat, n: nat)
    requires lo <= k < hi <= |alts|
    requires forall j :: 0 <= j < lo ==> !Occurs(line, p, alts[j], bounded)
    requires Occurs(line, p, alts[k], bounded)
    requires forall j :: lo <= j < hi ==> |alts[j]| == n
    ensures AlternativeEnd(line, p, alts, bounded) == Some(p + n)
  {
    var r := FirstAlternative(line, p, alts, bounded, 0);
    assert r.Some? && lo <= r.value <= k;
  }

  /** When no alternative occurs, the alternation fails. */
  lemma AlternativeEndNone(line: string, p: nat, alts: seq<string>, bounded: bool)
    requires forall j :: 0 <= j < |alts| ==> !Occurs(line, p, alts[j], bounded)
    ensures AlternativeEnd(line, p, alts, bounded).None?
  {
    var r := FirstAlternative(line, p, alts, bounded, 0);
    assert r.None?;
  }

  /** The operator matcher is the pattern's alternation: the twenty-three alternatives tried in order. */
  lemma OperatorAtAlternatives(line: string, p: nat)
    requires p < |line|
    ensures OperatorAt(line, p) == AlternativeEnd(line, p, Operators, false)
  {
    OperatorLengths();
    if p + 1 < |line| && IsTwoCharOperator(line[p], line[p + 1]) {
      var k := TwoCharOperatorListed(line[p], line[p + 1]);
      OccursOperator(line, p, k);
      AlternativeEndIn(line, p, Operators, false, 0, 12, k, 2);
    } else if line[p] in OperatorChars {
      NoTwoCharOccurs(line, p);
      var k := OperatorCharListed(line[p]);
      OccursOperator(line, p, k);
      AlternativeEndIn(line, p, Operators, false, 12, 23, k, 1);
    } else {
      NoTwoCharOccurs(line, p);
      NoOneCharOccurs(line, p);
      AlternativeEndNone(line, p, Operators, false);
    }
  }

  lemma OperatorAtSound(line: string, p: nat, e: nat)
    requires OperatorAt(line, p) == Some(e)
    ensures IsOperator(line[p..e])
  {
    OperatorAtAlternatives(line, p);
    var k := FirstAlternative(line, p, Operators, false, 0).value;
    assert line[p..e] == Operators[k];
  }

  /** Every operator at p is matched, and the matcher's lexeme is at least as long:
      the two-character alternatives come first, so `==` wins over `=`. */
  lemma OperatorAtLongest(line: string, p: nat, e: nat)
    requires p <= e <= |line| && IsOperator(line[p..e])
    ensures OperatorAt(line, p).Some? && e <= OperatorAt(line, p).value
  {
    OperatorLengths();
    var k0 :| 0 <= k0 < |Operators| && Operators[k0] == line[p..e];
    assert Occurs(line, p, Operators[k0], false);
    OperatorAtAlternatives(line, p);
    var k := FirstAlternative(line, p, Operators, false, 0).value;
  }

  // ---------------------------------------------------------------------
  // PUNCTUATION
  // ---------------------------------------------------------------------

  /** The punctuation matcher ends at e exactly when line[p..e] is one character of the class. */
  lemma PunctuationAtIff(line: string, p: nat, e: nat)
    ensures PunctuationAt(line, p) == Some(e) <==> p <= e <= |line| && IsPunctuation(line[p..e])
  {
    if p <= e <= |line| && IsPunctuation(line[p..e]) {
      assert line[p..e][0] == line[p];
    }
  }

  // ---------------------------------------------------------------------
  // COMMENT
  // ---------------------------------------------------------------------

  /** The comment matcher returns a comment; a line comment runs up to the end of the
      line or the first line terminator. */
  lemma CommentAtSound(line: string, p: nat, e: nat)
    requires CommentAt(line, p) == Some(e)
    ensures IsComment(line[p..e])
    ensures IsLineComment(line[p..e]) ==> e == |line| || IsLineTerminator(line[e])
  {
    var w := line[p..e];
    assert w[0] == line[p] && w[1] == line[p + 1];
    assert forall i :: 0 <= i < |w| ==> w[i] == line[p + i];
    TerminatorFromRun(line, p + 2);
    CloseFromFirst(line, p + 2);
    if !(line[p + 1] == '/') {
      var k := CloseFrom(line, p + 2).value;
      assert ClosesAt(line, k);
      forall j | 2 <= j < |w| - 2
        ensures !ClosesAt(w, j)
      {
        assert !ClosesAt(line, p + j);
      }
    }
  }

  /** A block comment is matched exactly: it closes at the first star-slash. A line comment
      at p is matched by one at least as long. */
  lemma CommentAtComplete(line: string, p: nat, e: nat)
    requires p <= e <= |line| && IsComment(line[p..e])
    ensures IsBlockComment(line[p..e]) ==> CommentAt(line, p) == Some(e)
    ensures CommentAt(line, p).Some? && e <= CommentAt(line, p).value
  {
    var w := line[p..e];
    assert w[0] == line[p] && w[1] == line[p + 1];
    assert forall i :: 0 <= i < |w| ==> w[i] == line[p + i];
    CloseFromFirst(line, p + 2);
    if IsBlockComment(w) {
      assert ClosesAt(line, e - 2);
      var k := CloseFrom(line, p + 2).value;
      if k < e - 2 {
        assert ClosesAt(w, k - p);
      }
    } else {
      TerminatorFromRun(line, p + 2);
    }
  }

  // ---------------------------------------------------------------------
  // All categories
  // ---------------------------------------------------------------------

  /** Whatever a rule's pattern matches is a non-empty lexeme of that rule's category. */
  lemma MatchAtSound(kind: Kind, line: string, p: nat, e: nat)
    requires MatchAt(kind, line, p) == Some(e)
    ensures p < e <= |line|
    ensures InLanguage(kind, line[p..e])
  {
    match kind
    case Keyword => KeywordAtIff(line, p, e);
    case Number => NumberAtSound(line, p, e);
    case Identifier => IdentifierAtIff(line, p, e);
    case String => StringAtIff(line, p, e);
    case Operator => OperatorAtSound(line, p, e);
    case Punctuation =>
    case Comment => CommentAtSound(line, p, e);
  }

  /** No category contains the empty lexeme, so no pattern can match the empty string. */
  lemma NoEmptyLexeme(kind: Kind)
    ensures !InLanguage(kind, [])
  {
    KeywordsAreWords();
    OperatorLengths();
    if kind == Operator {
      assert forall k :: 0 <= k < |Operators| ==> Operators[k] != [];
    }
  }
}
