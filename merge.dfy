/** The merger of the script (`create_abbrevlist`): the set of scraped
    abbreviations, joined with the add-list, minus the remove-list, sorted. */
module Merge {
  import opened StringOrder
  import opened Filter

  /** Every non-empty finite set of strings has a least element. */
  lemma {:induction false} LeastExists(s: set<string>)
    requires s != {}
    ensures exists m :: m in s && forall y :: y in s && y != m ==> Below(m, y)
    decreases |s|
  {
    var x :| x in s;
    if s == {x} {
      assert forall y :: y in s && y != x ==> Below(x, y);
    } else {
      var rest := s - {x};
      assert |rest| < |s|;
      LeastExists(rest);
      var m :| m in rest && forall y :: y in rest && y != m ==> Below(m, y);
      if Below(x, m) {
        forall y | y in s && y != x
          ensures Below(x, y)
        {
          if y != m { BelowTransitive(x, m, y); }
        }
        assert x in s && forall y :: y in s && y != x ==> Below(x, y);
      } else {
        BelowTotal(x, m);
        assert m in s && forall y :: y in s && y != m ==> Below(m, y);
      }
    }
  }

  /** The least element is unique. */
  lemma LeastUnique(s: set<string>)
    ensures forall m, m' ::
              (m in s && (forall y :: y in s && y != m ==> Below(m, y))
               && m' in s && (forall y :: y in s && y != m' ==> Below(m', y))) ==> m == m'
  {
    forall m, m' | m in s && (forall y :: y in s && y != m ==> Below(m, y))
                   && m' in s && (forall y :: y in s && y != m' ==> Below(m', y))
      ensures m == m'
    {
      if m != m' {
        BelowAsymmetric(m, m');
      }
    }
  }

  /** The least element of a non-empty set in Python's string order. */
  function Least(s: set<string>): (m: string)
    requires s != {}
    ensures m in s
    ensures forall y :: y in s && y != m ==> Below(m, y)
  {
    LeastExists(s);
    LeastUnique(s);
    var m :| m in s && forall y :: y in s && y != m ==> Below(m, y);
    m
  }

  /** Python's `sorted(s)` for a set of strings: its elements, ascending. */
  function SortSet(s: set<string>): (r: seq<string>)
    ensures Increasing(r)
    ensures forall x :: x in r <==> x in s
    ensures |r| == |s|
    decreases |s|
  {
    if s == {} then []
    else
      var m := Least(s);
      var rest := SortSet(s - {m});
      assert forall j :: 0 <= j < |rest| ==> Below(m, rest[j]) by {
        forall j | 0 <= j < |rest| ensures Below(m, rest[j]) {
          assert rest[j] in s - {m};
        }
      }
      [m] + rest
  }

  /** `create_abbrevlist(wiki, add, remove)`: a string is in the result
      exactly when it is scraped or added and not removed; the result is
      sorted with no duplicates. */
  function CreateAbbrevList(wiki: seq<string>, add: seq<string>, remove: seq<string>): (r: seq<string>)
    ensures Increasing(r)
    ensures forall x :: x in r <==> (x in wiki || x in add) && x !in remove
  {
    var wikiSet := set x | x in wiki;
    var addSet := set x | x in add;
    var removeSet := set x | x in remove;
    SortSet((wikiSet + addSet) - removeSet)
  }

  /** The result is THE sorted list of that set: any strictly ascending list
      of exactly those strings is equal to it. */
  lemma MergeIsTheSortedSet(wiki: seq<string>, add: seq<string>, remove: seq<string>, t: seq<string>)
    requires Increasing(t)
    requires forall x :: x in t <==> (x in wiki || x in add) && x !in remove
    ensures CreateAbbrevList(wiki, add, remove) == t
  {
    IncreasingUnique(CreateAbbrevList(wiki, add, remove), t);
  }

  /** Only the elements of the three lists matter, not their order or
      repetitions. */
  lemma MergeIgnoresOrder(wiki: seq<string>, add: seq<string>, remove: seq<string>,
                          wiki': seq<string>, add': seq<string>, remove': seq<string>)
    requires forall x :: x in wiki <==> x in wiki'
    requires forall x :: x in add <==> x in add'
    requires forall x :: x in remove <==> x in remove'
    ensures CreateAbbrevList(wiki, add, remove) == CreateAbbrevList(wiki', add', remove')
  {
    IncreasingUnique(CreateAbbrevList(wiki, add, remove), CreateAbbrevList(wiki', add', remove'));
  }

  /** When the scraped and added lists have been filtered, as the script
      does, every abbreviation in the result matches the pattern. */
  lemma MergeKeepsValidity(wiki: seq<string>, add: seq<string>, remove: seq<string>)
    requires forall x :: x in wiki ==> MatchesPattern(x)
    requires forall x :: x in add ==> MatchesPattern(x)
    ensures forall x :: x in CreateAbbrevList(wiki, add, remove) ==> MatchesPattern(x)
  {
  }

  /** The cases of the script's own tests. */
  lemma MergeAddsAndRemoves()
    ensures CreateAbbrevList(["X.", "Y.", "Z."], ["A.", "B.", "C.", "D."], ["B."])
            == ["A.", "C.", "D.", "X.", "Y.", "Z."]
  {
    var t := ["A.", "C.", "D.", "X.", "Y.", "Z."];
    assert Increasing(t);
    MergeIsTheSortedSet(["X.", "Y.", "Z."], ["A.", "B.", "C.", "D."], ["B."], t);
  }

  lemma MergeRemovesAbsent()
    ensures CreateAbbrevList(["X.", "Y.", "Z."], ["A.", "B.", "C.", "D."], ["F."])
            == ["A.", "B.", "C.", "D.", "X.", "Y.", "Z."]
  {
    var t := ["A.", "B.", "C.", "D.", "X.", "Y.", "Z."];
    assert Increasing(t);
    MergeIsTheSortedSet(["X.", "Y.", "Z."], ["A.", "B.", "C.", "D."], ["F."], t);
  }

  lemma MergeEmptyScrape()
    ensures CreateAbbrevList([], ["A.", "B.", "C.", "D."], ["B."]) == ["A.", "C.", "D."]
  {
    var t := ["A.", "C.", "D."];
    assert Increasing(t);
    MergeIsTheSortedSet([], ["A.", "B.", "C.", "D."], ["B."], t);
  }

  lemma MergeRemoveWins()
    ensures CreateAbbrevList(["X."], ["X."], ["X."]) == []
    ensures CreateAbbrevList([], [], []) == []
  {
    MergeIsTheSortedSet(["X."], ["X."], ["X."], []);
    MergeIsTheSortedSet([], [], [], []);
  }
}
