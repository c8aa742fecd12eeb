# Lexical analyser of script.js, modelled in Dafny

The browser lexer in `script.js` has a rule table, `tokenRules`. Each of its seven
entries has a category, a `g`-flagged regular expression and a state label. The function
`analizar(codigo)` does four things:

- It splits the text on `"\n"`.
- For every line, and for every rule in table order, it runs the `exec` loop. The loop
  pushes one token `{id, type, lexeme, line, column, state}` per match, using a running
  `id` that starts at 1.
- Each `exec` search resumes at the regular expression's `lastIndex`. A match moves
  `lastIndex` to the end of the match. A failed search resets it to 0.
- Finally it sorts the tokens by (line, column).

This project models that behaviour exactly as the code does it. Rules scan every line
independently, so:

- One position can give tokens of several categories. For example, `if` is both a
  KEYWORD and an IDENTIFIER.
- Text that no rule matches (blanks, `@`) gives no token.
- Comments are emitted like any other token.

There is no longest-match choice between rules, and there is no UNKNOWN or WHITESPACE
category: every rule reports all of its own matches on every line.

Modules:

- `Options`: the Option type.
- `Patterns`: one hand-written matcher per pattern, `MatchAt(kind, line, p)`. Each gives
  the end of the match that the regular expression finds when it is attempted at
  offset `p`. The module also defines, for each category, a matcher-free description of
  its lexemes (`InLanguage`).
  - `\b` is decided on the class `[A-Za-z0-9_]`.
  - Alternatives are tried in order.
  - `//.*` stops at a line terminator.
  - `/*…*/` is lazy.
- `PatternFacts`: proves each matcher sound against that description. It also proves
  each matcher complete, or longest, depending on the pattern.
- `RegExps`: the leftmost search `FindNext` and a class `RegExp` whose `Exec` updates
  `lastIndex`.
- `Analyzer`: three things.
  - The functions that specify what the loops collect (`MatchTokens`, `RulesTokens`,
    `LinesTokens`), the comparator, the sort and `Analysis`.
  - The imperative code: `RunRule` (the `exec` loop), `Script.RunRules` (the loop over
    the rules), `Script.Analyze` (the loop over the lines, followed by the in-place
    array sort `SortTokens`/`InsertInto`), and the class `Script` holding the seven
    `RegExp` objects.
  - `Script.Analyze` is proved to return `Analysis(code)` and to leave every `lastIndex`
    at 0.
- `AnalyzerFacts`: what the loops collect.
  - Ids are 1, 2, 3, … in discovery order.
  - Each token lies on its line, at its column.
  - One rule's matches on one line are disjoint and move right.
  - Coverage.
- `SortFacts`: the sort permutes its input and is ordered and stable. Any stable sort by
  position gives the same result.
- `Theorems`: the properties of `analizar` itself.
- `Examples`: `if`, `ifx` and `===` computed in full.

## Model

| member | source | states |
|---|---|---|
| Patterns.MatchAt | script.js:2-10 | a match found at offset p ends after p and within the line, so no pattern matches the empty string there |
| Patterns.PunctuationAt | script.js:8 | matches exactly one character, and does so if and only if that character is one of `(){}[],;.` |
| Patterns.KeywordAt | script.js:3 | the KEYWORD pattern attempted at p; a match ends after p and within the line (its meaning: KeywordAtIff, KeywordAtAlternatives) |
| Patterns.NumberAt | script.js:4 | the NUMBER pattern attempted at p, trying the longest candidate first as backtracking does; a match ends after p and within the line (its meaning: NumberAtSound, NumberAtLongest) |
| Patterns.IdentifierAt | script.js:5 | the IDENTIFIER pattern attempted at p; a match ends after p and within the line (its meaning: IdentifierAtIff) |
| Patterns.StringAt | script.js:6 | the STRING pattern attempted at p, with the greedy body; a match ends after p and within the line (its meaning: StringAtIff) |
| Patterns.OperatorAt | script.js:7 | the OPERATOR pattern attempted at p; a match ends after p and within the line (its meaning: OperatorAtAlternatives, OperatorAtSound, OperatorAtLongest) |
| Patterns.CommentAt | script.js:9 | the COMMENT pattern attempted at p: `//` up to a line terminator, or `/*` up to the first `*/`; a match ends after p and within the line (its meaning: CommentAtSound, CommentAtComplete) |
| PatternFacts.PunctuationAtIff | script.js:8 | the PUNCTUATION matcher ends at e if and only if line[p..e] is one character of `(){}[],;.` |
| PatternFacts.KeywordAtIff | script.js:3 | the KEYWORD matcher ends at e if and only if line[p..e] is a listed keyword with a word boundary before it and after it |
| PatternFacts.KeywordAtAlternatives | script.js:3 | at a word boundary, the KEYWORD matcher takes the first alternative of the word list that is followed by a word boundary; elsewhere it has no match |
| PatternFacts.NumberAtSound | script.js:4 | a NUMBER match is digits, an optional fraction and an optional exponent, with word boundaries at both ends |
| PatternFacts.NumberAtLongest | script.js:4 | whenever such a numeral with boundaries starts at p, the matcher succeeds there, and its match is at least as long, since the quantifiers are greedy |
| PatternFacts.IdentifierAtIff | script.js:5 | the IDENTIFIER matcher ends at e if and only if line[p..e] is a `[a-zA-Z_][a-zA-Z0-9_]*` word with a word boundary before it and after it |
| PatternFacts.StringAtIff | script.js:6 | the STRING matcher ends at e if and only if line[p..e] is a double-quoted literal whose body has no bare `"` or `\` and whose escapes are `\` followed by any character except a line terminator |
| PatternFacts.OperatorAtAlternatives | script.js:7 | the OPERATOR matcher takes the first alternative of the ordered list of 23 that occurs at p |
| PatternFacts.OperatorAtSound | script.js:7 | every OPERATOR match is one of the listed operators |
| PatternFacts.OperatorAtLongest | script.js:7 | when a listed operator starts at p, the match is at least that long, so two-character operators win over one-character ones |
| PatternFacts.CommentAtSound | script.js:9 | a COMMENT match is a `//` comment, which runs to the end of the line or to a line terminator, or a `/*…*/` comment |
| PatternFacts.CommentAtComplete | script.js:9 | a block comment starting at p is exactly the match there (the lazy `*?`); any comment starting at p gives a match at least as long |
| PatternFacts.MatchAtSound | script.js:2-10 | each rule's match is a non-empty lexeme of that category's language |
| PatternFacts.NoEmptyLexeme | script.js:3-9 | no category's language contains the empty string |
| Patterns.KeywordsAreWords | script.js:3 | every keyword consists only of word characters |
| Patterns.OperatorLengths | script.js:7 | the operator list has 12 two-character alternatives followed by 11 one-character ones |
| RegExps.FindNext | script.js:21 | a search from `from` reports a match lying within [from, end of line) that is non-empty |
| RegExps.FindNextLeftmost | script.js:21 | a reported match is the pattern's match at its start, and no earlier offset from `from` on has one |
| RegExps.FindNextNone | script.js:21 | no match is reported only when no offset from `from` on has a match |
| RegExps.FindNextAbsent | script.js:21 | when no offset from `from` on has a match, none is reported |
| RegExps.RegExp.Exec | script.js:21 | returns the leftmost match from `lastIndex`; `lastIndex` becomes the match's end, or 0 when there is no match |
| Analyzer.Split | script.js:14 | the text splits into at least one line, and no line contains a newline |
| AnalyzerFacts.SplitJoin | script.js:14 | splitting the newline-joined lines gives the lines back |
| AnalyzerFacts.JoinSplit | script.js:14 | joining the split lines with newlines gives the text back |
| AnalyzerFacts.SplitCount | script.js:14 | the number of lines is the number of newlines plus one |
| AnalyzerFacts.MatchTokensIds | script.js:16-23 | one rule's `exec` loop numbers its tokens id, id+1, … |
| AnalyzerFacts.MatchTokensFields | script.js:22-28 | those tokens carry the line number given, the rule's category and state, and columns after the search start |
| AnalyzerFacts.MatchTokensOnLine | script.js:25-27 | each such token's lexeme is the line's text at offset column-1, and it is the pattern's match there |
| AnalyzerFacts.MatchTokensApart | script.js:19-21 | one rule's matches on one line do not overlap, and their columns strictly increase |
| AnalyzerFacts.MatchTokensCover | script.js:21 | every offset at or after the search start where the pattern matches lies inside some collected match |
| AnalyzerFacts.RulesTokensIds | script.js:19-23 | the rules' tokens for one line are numbered consecutively from id |
| AnalyzerFacts.RulesTokensLineNo | script.js:26 | all of them carry the line number |
| AnalyzerFacts.RulesTokensOnLine | script.js:25-27 | each is its pattern's match at its column of the line |
| AnalyzerFacts.RulesTokensFromRules | script.js:24-28 | each carries the category and state of one of the rules |
| AnalyzerFacts.RulesTokensRanks | script.js:19 | tokens of rules whose table ranks are below a bound have ranks below that bound |
| AnalyzerFacts.RulesTokensOrder | script.js:19-21 | for rules in table order, the tokens come rule by rule, and within a rule they come left to right |
| AnalyzerFacts.RulesTokensCover | script.js:19-21 | wherever a rule's pattern matches on the line, one of that rule's tokens covers the offset |
| AnalyzerFacts.LinesTokensIds | script.js:16-23 | all tokens before the sort are numbered 1, 2, …, n |
| AnalyzerFacts.LinesTokensWithin | script.js:18-26 | every token's line number lies in 1..number of lines |
| AnalyzerFacts.LinesTokensOnLine | script.js:18-27 | every token is the match of its pattern at its column of the line it names |
| AnalyzerFacts.LinesTokensFromRules | script.js:2-28 | every token's category and state form an entry of `tokenRules` |
| AnalyzerFacts.LinesTokensOrder | script.js:18-21 | discovery order is line first, then rule table order, then left to right |
| AnalyzerFacts.LinesTokensCover | script.js:18-21 | wherever any rule's pattern matches on any line, a token of that category on that line covers the offset |
| AnalyzerFacts.TableRanks | script.js:2-10 | every category appears in the table exactly at its rank, so the seven entries have distinct categories, in the listed order |
| Analyzer.MatchTokens | script.js:20-30 | the tokens one rule's `exec` loop pushes for one line: the leftmost non-overlapping matches from `from`, numbered from id (its meaning: MatchTokensIds, MatchTokensFields, MatchTokensOnLine, MatchTokensApart, MatchTokensCover; RunRule computes it) |
| Analyzer.RulesTokens | script.js:19-31 | the tokens the given rules push for one line, rule after rule, each search from offset 0, numbered on from id (its meaning: the RulesTokens lemmas; Script.RunRules computes it) |
| Analyzer.LinesTokens | script.js:18-32 | the tokens the whole table pushes for the lines, line after line, numbered from 1 (its meaning: the LinesTokens lemmas; Script.Analyze computes it before the sort) |
| Analyzer.Discovered | script.js:14-32 | the array `tokens` just before the sort: LinesTokens of the split text (its meaning: Theorems.DiscoveredOrder) |
| Analyzer.Insert | script.js:33 | a token placed after every element it does not precede under the comparator (its meaning: InsertCount, InsertSorted, InsertKeyOrdered; InsertInto computes it in place) |
| Analyzer.InsertionSort | script.js:33 | the stable sort by (line, column) (its meaning: SortCount, SortSorted, SortKeyOrdered, StableSortUnique; SortTokens computes it in place) |
| Analyzer.Analysis | script.js:13-34 | what `analizar(code)` returns: the discovered tokens, sorted (its meaning: the Theorems lemmas; Script.Analyze computes it) |
| Analyzer.InsertInto | script.js:33 | one step of the in-place sort: the array's prefix becomes the earlier prefix with the next element inserted, and the rest of the array is unchanged |
| Analyzer.SortTokens | script.js:33 | the array is sorted in place; its contents become the stable insertion sort of its former contents |
| SortFacts.InsertCount | script.js:33 | inserting adds exactly that element |
| SortFacts.SortCount | script.js:33 | the sort is a permutation |
| SortFacts.InsertSorted | script.js:33 | inserting into a sequence sorted by (line, column) keeps it sorted |
| SortFacts.SortSorted | script.js:33 | the sort's result is ordered by (line, column) |
| SortFacts.SortKeyOrdered | script.js:33 | the sort is stable: tokens at equal positions keep the order of their ids |
| SortFacts.StableSortUnique | script.js:33 | any permutation of the input that is ordered by (line, column, id) is the sort's result, so any stable sort gives it |
| Analyzer.RunRule | script.js:20-30 | the `exec` loop pushes exactly MatchTokens from offset 0, advances the counter by the number pushed and leaves `lastIndex` at 0 |
| Analyzer.Script.RunRules | script.js:19-31 | the loop over the rules pushes exactly RulesTokens, and afterwards every regular expression is again ready with `lastIndex` 0 |
| Analyzer.Script.constructor | script.js:2-10 | creates one regular expression per table entry, in table order, each with `lastIndex` 0 |
| Analyzer.Script.Analyze | script.js:13-34 | returns Analysis(code), the sorted tokens discovered, and keeps the regular expressions ready for the next call |
| Theorems.DiscoveredOrder | script.js:16-33 | before the sort, ids are 1..n in order, rising strictly, in discovery order |
| Theorems.AnalysisPermutation | script.js:33 | the result is a permutation of the tokens discovered |
| Theorems.AnalysisSorted | script.js:33 | the result is sorted by (line, column), and tokens at the same position keep their discovery (id) order |
| Theorems.AnalysisUnique | script.js:33 | any stable sort by (line, column) gives this same result |
| Theorems.AnalysisIds | script.js:16-23 | the result's ids are exactly 1..n, each used once |
| Theorems.TokenShape | script.js:25-27 | a token on a line has column >= 1, and its lexeme is the non-empty, newline-free slice of the line at column-1 in its category's language |
| Theorems.FoundTokenOfText | script.js:18-28 | a token found on a line of the text is well formed for the text |
| Theorems.AnalysisTokens | script.js:13-34 | every result token comes from a table entry, names a line in 1..number of lines and is a non-empty, newline-free slice of that line at its column |
| Theorems.AnalysisComplete | script.js:18-33 | wherever a rule's pattern matches, the result has a token of that category on that line covering the offset |
| Theorems.AnalysisEmpty | script.js:14 | the empty text gives no tokens |
| Theorems.EmptyLineTokens | script.js:3-9 | no rule produces a token on an empty line |
| Examples.AnalyzeIf | script.js:13-34 | `if` gives KEYWORD `if` (id 1), then IDENTIFIER `if` (id 2), both at 1:1 |
| Examples.AnalyzeIfx | script.js:13-34 | `ifx` gives only IDENTIFIER `ifx` at 1:1 |
| Examples.AnalyzeEquals | script.js:7 | `===` gives OPERATOR `==` at column 1, then OPERATOR `=` at column 3 |

## Left out

- lexer_gui.cpp is not part of this model. It is a wxWidgets window, temporary-file
  handling and a loop over a flex scanner whose rule file is not available.
- `simularAutomata`, `mostrarTokens` and the click handlers (script.js:36-76) are not
  modelled. They are DOM rendering, timers and event wiring.
- Regular expressions in general are not modelled. Only the seven patterns of the table
  are, each by a hand-written matcher.
- Columns are counted in characters. JavaScript's `match.index` counts UTF-16 code units,
  so a line with characters outside the Basic Multilingual Plane can give different
  columns.
- The engine's sort algorithm is not modelled; the model uses an insertion sort.
  `Array.prototype.sort` is stable, and `StableSortUnique` shows that every stable sort
  by the comparator gives the result of this insertion sort.
- The `forEach` callbacks are modelled as `for` loops over the lines and the rules.
- The regular expression objects are module-level in the script and persist between
  calls. `Script` holds them. After every completed `exec` loop each `lastIndex` is back
  at 0, so nothing carries over from one call to the next.
- A `/* … */` comment that spans lines is never matched, because every line is searched
  on its own. The model shows the same behaviour.
