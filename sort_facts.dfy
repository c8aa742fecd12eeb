/** What the final `tokens.sort(...)` promises: the result is in position order, it holds
    the same tokens, tokens at the same position keep their discovery order, and no other
    order has all three properties. */
module SortFacts {
  import opened Analyzer

  /** No token comes after one it precedes: the comparator never sees an inversion. */
  predicate Sorted(s: seq<Token>) {
    forall i, j :: 0 <= i < j < |s| ==> !PositionBefore(s[j], s[i])
  }

  /** Order by position, tokens at the same position by id. */
  predicate KeyBefore(t: Token, u: Token) {
    PositionBefore(t, u) || (t.line == u.line && t.column == u.column && t.id < u.id)
  }

  /** Strictly increasing in position, then id: sorted, and stable for tokens numbered in order. */
  predicate KeyOrdered(s: seq<Token>) {
    forall i, j :: 0 <= i < j < |s| ==> KeyBefore(s[i], s[j])
  }

  /** The ids increase along s, as they do in discovery order. */
  predicate IdsIncreasing(s: seq<Token>) {
    forall i, j :: 0 <= i < j < |s| ==> s[i].id < s[j].id
  }

  /** Insertion adds x and keeps every token of s. */
  lemma {:induction false} InsertCount(s: seq<Token>, x: Token)
    ensures multiset(Insert(s, x)) == multiset(s) + multiset{x}
    decreases |s|
  {
    if s != [] && PositionBefore(x, s[|s| - 1]) {
      InsertCount(s[..|s| - 1], x);
      assert s == s[..|s| - 1] + [s[|s| - 1]];
    }
  }

  /** The sort keeps exactly the tokens it is given. */
  lemma {:induction false} SortCount(s: seq<Token>)
    ensures multiset(InsertionSort(s)) == multiset(s)
    decreases |s|
  {
    if s != [] {
      SortCount(s[..|s| - 1]);
      InsertCount(InsertionSort(s[..|s| - 1]), s[|s| - 1]);
      assert s == s[..|s| - 1] + [s[|s| - 1]];
    }
  }

  /** An element of a sequence is at one of its indices. */
  lemma IndexOf(s: seq<Token>, t: Token) returns (k: nat)
    requires t in multiset(s)
    ensures k < |s| && s[k] == t
  {
    k :| 0 <= k < |s| && s[k] == t;
  }

  /** Inserting x into a sorted sequence keeps it sorted. */
  lemma {:induction false} InsertSorted(s: seq<Token>, x: Token)
    requires Sorted(s)
    ensures Sorted(Insert(s, x))
    decreases |s|
  {
    if s != [] {
      var init, last := s[..|s| - 1], s[|s| - 1];
      if PositionBefore(x, last) {
        InsertSorted(init, x);
        InsertCount(init, x);
        var r := Insert(init, x);
        forall i | 0 <= i < |r|
          ensures !PositionBefore(last, r[i])
        {
          if r[i] != x {
            assert r[i] in multiset(r);
            var k := IndexOf(init, r[i]);
            assert s[k] == r[i];
          }
        }
      }
    }
  }

  /** The sort's result is in position order. */
  lemma {:induction false} SortSorted(s: seq<Token>)
    ensures Sorted(InsertionSort(s))
    decreases |s|
  {
    if s != [] {
      SortSorted(s[..|s| - 1]);
      InsertSorted(InsertionSort(s[..|s| - 1]), s[|s| - 1]);
    }
  }

  /** Inserting a token with a larger id than all of s keeps s strictly ordered by position, then id. */
  lemma {:induction false} InsertKeyOrdered(s: seq<Token>, x: Token)
    requires KeyOrdered(s)
    requires forall k :: 0 <= k < |s| ==> s[k].id < x.id
    ensures KeyOrdered(Insert(s, x))
    decreases |s|
  {
    if s != [] {
      var init, last := s[..|s| - 1], s[|s| - 1];
      if PositionBefore(x, last) {
        InsertKeyOrdered(init, x);
        InsertCount(init, x);
        var r := Insert(init, x);
        forall i | 0 <= i < |r|
          ensures KeyBefore(r[i], last)
        {
          if r[i] != x {
            assert r[i] in multiset(r);
            var k := IndexOf(init, r[i]);
            assert s[k] == r[i];
          }
        }
      }
    }
  }

  /** Stability: sorting tokens whose ids increase leaves tokens at the same position in id order. */
  lemma {:induction false} SortKeyOrdered(s: seq<Token>)
    requires IdsIncreasing(s)
    ensures KeyOrdered(InsertionSort(s))
    decreases |s|
  {
    if s != [] {
      var init, last := s[..|s| - 1], s[|s| - 1];
      SortKeyOrdered(init);
      SortCount(init);
      var r := InsertionSort(init);
      forall k | 0 <= k < |r|
        ensures r[k].id < last.id
      {
        var j := IndexOf(init, r[k]);
        assert s[j] == r[k];
      }
      InsertKeyOrdered(r, last);
    }
  }

  /** Of two strictly ordered sequences with the same tokens, the last tokens agree. */
  lemma SameLast(a: seq<Token>, b: seq<Token>)
    requires a != [] && KeyOrdered(a) && KeyOrdered(b)
    requires multiset(a) == multiset(b)
    ensures b != [] && a[|a| - 1] == b[|b| - 1]
  {
    assert a[|a| - 1] in multiset(b);
    var x, y := a[|a| - 1], b[|b| - 1];
    var k := IndexOf(a, y);
    var l := IndexOf(b, x);
  }

  /** Taking the same last token from two sequences with the same tokens leaves the same tokens. */
  lemma DropSameLast(a: seq<Token>, b: seq<Token>)
    requires a != [] && b != [] && a[|a| - 1] == b[|b| - 1]
    requires multiset(a) == multiset(b)
    ensures multiset(a[..|a| - 1]) == multiset(b[..|b| - 1])
  {
    assert a == a[..|a| - 1] + [a[|a| - 1]];
    assert b == b[..|b| - 1] + [b[|b| - 1]];
    var x := a[|a| - 1];
    var ma, mb := multiset(a[..|a| - 1]), multiset(b[..|b| - 1]);
    assert ma + multiset{x} == mb + multiset{x};
    forall o
      ensures ma[o] == mb[o]
    {
      assert (ma + multiset{x})[o] == (mb + multiset{x})[o];
    }
  }

  /** Two sequences strictly ordered by position, then id, with the same tokens are equal. */
  lemma {:induction false} KeyOrderedUnique(a: seq<Token>, b: seq<Token>)
    requires KeyOrdered(a) && KeyOrdered(b)
    requires multiset(a) == multiset(b)
    ensures a == b
    decreases |a|
  {
    if a == [] {
      assert |b| == |multiset(b)| == 0;
    } else {
      SameLast(a, b);
      DropSameLast(a, b);
      KeyOrderedUnique(a[..|a| - 1], b[..|b| - 1]);
      assert a == a[..|a| - 1] + [a[|a| - 1]];
      assert b == b[..|b| - 1] + [b[|b| - 1]];
    }
  }

  /** Any stable sort gives the same result: a rearrangement of s, of tokens numbered in
      order, that is strictly ordered by position, then id, is the insertion sort of s. */
  lemma StableSortUnique(s: seq<Token>, t: seq<Token>)
    requires IdsIncreasing(s)
    requires multiset(t) == multiset(s) && KeyOrdered(t)
    ensures t == InsertionSort(s)
  {
    SortCount(s);
    SortKeyOrdered(s);
    KeyOrderedUnique(t, InsertionSort(s));
  }
}
