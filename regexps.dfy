/** A `g`-flagged regular expression of the rule table: the leftmost search that
    `exec` performs from `lastIndex`, and the object whose `lastIndex` it updates. */
module RegExps {
  import opened Options
  import opened Patterns

  /** A match: the line offsets [start, end) of its text; `match.index` is `start`. */
  datatype Span = Span(start: nat, end: nat)

  /** The leftmost match of kind's pattern at or after offset `from`. */
  function FindNext(kind: Kind, line: string, from: nat): (r: Option<Span>)
    ensures r.Some? ==> from <= r.value.start < r.value.end <= |line|
    decreases |line| - from
  {
    if from >= |line| then None
    else match MatchAt(kind, line, from)
      case Some(e) => Some(Span(from, e))
      case None => FindNext(kind, line, from + 1)
  }

  /** A match FindNext reports is the pattern's match at its start, and no offset between
      `from` and that start has one. */
  lemma {:induction false} FindNextLeftmost(kind: Kind, line: string, from: nat, sp: Span)
    requires FindNext(kind, line, from) == Some(sp)
    ensures MatchAt(kind, line, sp.start) == Some(sp.end)
    ensures forall q :: from <= q < sp.start ==> MatchAt(kind, line, q).None?
    decreases |line| - from
  {
    if MatchAt(kind, line, from).None? {
      FindNextLeftmost(kind, line, from + 1, sp);
    }
  }

  /** FindNext reports None only when no offset from `from` on has a match. */
  lemma {:induction false} FindNextNone(kind: Kind, line: string, from: nat)
    requires FindNext(kind, line, from).None?
    ensures forall q :: from <= q ==> MatchAt(kind, line, q).None?
    decreases |line| - from
  {
    if from < |line| {
      FindNextNone(kind, line, from + 1);
    }
  }

  /** Conversely, when no offset from `from` on has a match, the search finds none. */
  lemma {:induction false} FindNextAbsent(kind: Kind, line: string, from: nat)
    requires forall q :: from <= q < |line| ==> MatchAt(kind, line, q).None?
    ensures FindNext(kind, line, from).None?
    decreases |line| - from
  {
    if from < |line| {
      FindNextAbsent(kind, line, from + 1);
    }
  }

  /** A regular expression object with the `g` flag. */
  class RegExp {
    const kind: Kind
    var lastIndex: nat

    constructor (kind: Kind)
      ensures this.kind == kind && lastIndex == 0
    {
      this.kind := kind;
      lastIndex := 0;
    }

    /** `RegExp.prototype.exec`: search from `lastIndex`; a match moves `lastIndex` to its
        end; no match (including `lastIndex` past the end of the input) resets it to 0. */
    method Exec(input: string) returns (m: Option<Span>)
      modifies this
      ensures m == FindNext(kind, input, old(lastIndex))
      ensures lastIndex == if m.Some? then m.value.end else 0
    {
      m := FindNext(kind, input, lastIndex);
      if m.Some? {
        lastIndex := m.value.end;
      } else {
        lastIndex := 0;
      }
    }
  }
}
