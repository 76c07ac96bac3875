/** The validity filter of the script (`filter_abbrevs`): strip every
    candidate, then keep those that the pattern `[\w+\.*]+\.` fully matches.
    The brackets make `[\w+\.*]` ONE character class (word characters, '+',
    '.', '*'), so the pattern is "one or more of those, then a period". */
module Filter {
  import opened Text

  /** The character class `[\w+\.*]`. */
  predicate InClass(c: char)
  {
    IsWordChar(c) || c == '+' || c == '.' || c == '*'
  }

  /** `re.fullmatch(r"[\w+\.*]+\.", s)`, read literally: a non-empty run of
      class characters followed by a final literal period. */
  predicate MatchesPattern(s: string)
    ensures MatchesPattern(s) ==> forall i :: 0 <= i < |s| ==> InClass(s[i]) && !IsSpace(s[i])
  {
    && |s| >= 2
    && (forall i :: 0 <= i < |s| - 1 ==> InClass(s[i]))
    && s[|s| - 1] == '.'
  }

  /** Since '.' is itself in the class, a match is any string of at least two
      class characters whose last one is a period; so "..", "+." and "*."
      match and "." fails only for being too short. */
  lemma MatchesPatternShape(s: string)
    ensures MatchesPattern(s) <==>
              (|s| >= 2 && s[|s| - 1] == '.' && forall i :: 0 <= i < |s| ==> InClass(s[i]))
  {
  }

  /** No character of the class is whitespace. */
  lemma ClassIsUnspaced(c: char)
    requires InClass(c)
    ensures !IsSpace(c) && c != '\n'
  {
  }

  /** A matching string holds no whitespace (so neither a newline), and
      stripping leaves it as it is. */
  lemma MatchIsUnspaced(s: string)
    requires MatchesPattern(s)
    ensures forall i :: 0 <= i < |s| ==> !IsSpace(s[i])
    ensures '\n' !in s
    ensures Strip(s) == s
  {
    forall i | 0 <= i < |s|
      ensures !IsSpace(s[i]) && s[i] != '\n'
    {
      if i < |s| - 1 {
        ClassIsUnspaced(s[i]);
      }
    }
    StripUnspaced(s);
  }

  /** Python's `list(map(lambda x: x.strip(), xs))`. */
  function StripAll(xs: seq<string>): (r: seq<string>)
    ensures |r| == |xs|
    ensures forall i :: 0 <= i < |xs| ==> r[i] == Strip(xs[i])
  {
    if xs == [] then [] else [Strip(xs[0])] + StripAll(xs[1..])
  }

  /** Python's `list(filter(pattern.fullmatch, ss))`. */
  function KeepMatches(ss: seq<string>): (r: seq<string>)
    ensures |r| <= |ss|
    ensures forall s :: s in r ==> MatchesPattern(s)
  {
    if ss == [] then []
    else if MatchesPattern(ss[0]) then [ss[0]] + KeepMatches(ss[1..])
    else KeepMatches(ss[1..])
  }

  /** `filter_abbrevs(xs)`: strip each candidate, then keep the full matches. */
  function FilterAbbrevs(xs: seq<string>): (r: seq<string>)
    ensures |r| <= |xs|
    ensures forall s :: s in r ==> MatchesPattern(s)
  {
    KeepMatches(StripAll(xs))
  }

  /** A string is kept exactly when it is one of the candidates and matches. */
  lemma {:induction false} KeepMatchesMembership(ss: seq<string>)
    ensures forall s :: s in KeepMatches(ss) <==> s in ss && MatchesPattern(s)
  {
    if ss != [] {
      KeepMatchesMembership(ss[1..]);
      assert ss == [ss[0]] + ss[1..];
    }
  }

  /** A string is kept by `filter_abbrevs` exactly when it is one of the
      stripped inputs and matches the pattern. */
  lemma FilterMembership(xs: seq<string>)
    ensures forall s :: s in FilterAbbrevs(xs) <==> s in StripAll(xs) && MatchesPattern(s)
  {
    KeepMatchesMembership(StripAll(xs));
  }

  /** Every occurrence of a match is kept, duplicates included, and nothing
      else: the count of each string in the result is its count in the input
      when it matches, and zero otherwise. */
  lemma {:induction false} KeepMatchesCount(ss: seq<string>)
    ensures forall x :: multiset(KeepMatches(ss))[x] == if MatchesPattern(x) then multiset(ss)[x] else 0
  {
    if ss != [] {
      KeepMatchesCount(ss[1..]);
      assert ss == [ss[0]] + ss[1..];
    }
  }

  /** `filter_abbrevs` keeps every occurrence of a matching stripped entry,
      so a duplicate in the scrape is duplicated in `wiktionary.txt`. */
  lemma FilterCount(xs: seq<string>)
    ensures forall x :: multiset(FilterAbbrevs(xs))[x] == if MatchesPattern(x) then multiset(StripAll(xs))[x] else 0
  {
    KeepMatchesCount(StripAll(xs));
  }

  /** `a` is `b` with some elements left out, the rest in the same order. */
  predicate IsSubsequence(a: seq<string>, b: seq<string>)
    decreases |b|
  {
    if b == [] then a == []
    else
      || (a != [] && a[0] == b[0] && IsSubsequence(a[1..], b[1..]))
      || IsSubsequence(a, b[1..])
  }

  lemma {:induction false} KeepMatchesIsSubsequence(ss: seq<string>)
    ensures IsSubsequence(KeepMatches(ss), ss)
  {
    if ss != [] {
      KeepMatchesIsSubsequence(ss[1..]);
      if MatchesPattern(ss[0]) {
        assert KeepMatches(ss)[1..] == KeepMatches(ss[1..]);
      }
    }
  }

  /** Filtering only drops elements of the stripped input; the order of what
      it keeps is the input's order. */
  lemma FilterIsSubsequence(xs: seq<string>)
    ensures IsSubsequence(FilterAbbrevs(xs), StripAll(xs))
  {
    KeepMatchesIsSubsequence(StripAll(xs));
  }

  /** Every element of `ss` matches the pattern. */
  predicate AllMatch(ss: seq<string>)
  {
    ss == [] || (MatchesPattern(ss[0]) && AllMatch(ss[1..]))
  }

  lemma {:induction false} AllMatchFromMembers(ss: seq<string>)
    requires forall s :: s in ss ==> MatchesPattern(s)
    ensures AllMatch(ss)
  {
    if ss != [] {
      assert ss[0] in ss;
      assert forall s :: s in ss[1..] ==> s in ss;
      AllMatchFromMembers(ss[1..]);
    }
  }

  /** Keeping the matches of a list of matching strings keeps them all. */
  lemma {:induction false} KeepAllMatches(ss: seq<string>)
    requires AllMatch(ss)
    ensures KeepMatches(ss) == ss
  {
    if ss != [] {
      KeepAllMatches(ss[1..]);
      assert KeepMatches(ss) == [ss[0]] + ss[1..];
    }
  }

  /** Filtering an already filtered list changes nothing. */
  lemma FilterIdempotent(xs: seq<string>)
    ensures FilterAbbrevs(FilterAbbrevs(xs)) == FilterAbbrevs(xs)
  {
    var r := FilterAbbrevs(xs);
    forall i | 0 <= i < |r|
      ensures Strip(r[i]) == r[i]
    {
      MatchIsUnspaced(r[i]);
    }
    assert StripAll(r) == r;
    AllMatchFromMembers(r);
    KeepAllMatches(r);
  }

  /** The cases of the script's own tests. */
  lemma FilterKeepsPeriodEnded()
    ensures FilterAbbrevs(["ABC", "DEF.", "GHI"]) == ["DEF."]
    ensures FilterAbbrevs([]) == []
  {
    var xs := ["ABC", "DEF.", "GHI"];
    StripUnspaced("ABC");
    StripUnspaced("DEF.");
    StripUnspaced("GHI");
    assert StripAll(xs) == xs;
    assert !MatchesPattern("ABC") && MatchesPattern("DEF.") && !MatchesPattern("GHI");
    assert xs[1..][1..] == ["GHI"];
    assert KeepMatches(xs[1..][1..]) == [];
  }

  lemma FilterKeepsAllValid()
    ensures FilterAbbrevs(["ABC.", "DEF.", "GHI."]) == ["ABC.", "DEF.", "GHI."]
  {
    var xs := ["ABC.", "DEF.", "GHI."];
    StripUnspaced("ABC.");
    StripUnspaced("DEF.");
    StripUnspaced("GHI.");
    assert StripAll(xs) == xs;
    assert MatchesPattern("ABC.") && MatchesPattern("DEF.") && MatchesPattern("GHI.");
    AllMatchFromMembers(xs);
    KeepAllMatches(xs);
  }

  lemma FilterDropsPunctuation()
    ensures FilterAbbrevs([".", "   .   ", "?. "]) == []
  {
    var xs := [".", "   .   ", "?. "];
    StripUnspaced(".");
    assert Strip("   .   ") == "." by {
      assert SkipSpaces("   .   ", 0) == 3;
      assert TrimEnd("   .   ", 3, 7) == 4;
    }
    assert Strip("?. ") == "?." by {
      assert SkipSpaces("?. ", 0) == 0;
      assert TrimEnd("?. ", 0, 3) == 2;
    }
    assert StripAll(xs) == [".", ".", "?."];
    assert !InClass('?');
    assert !MatchesPattern(".") && !MatchesPattern("?.");
  }

  lemma FilterDropsInnerPeriod()
    ensures FilterAbbrevs(["a", "bc.a", "cd", "b.c."]) == ["b.c."]
  {
    var xs := ["a", "bc.a", "cd", "b.c."];
    StripUnspaced("a");
    StripUnspaced("bc.a");
    StripUnspaced("cd");
    StripUnspaced("b.c.");
    assert StripAll(xs) == xs;
    assert !MatchesPattern("a") && !MatchesPattern("bc.a") && !MatchesPattern("cd");
    assert MatchesPattern("b.c.");
    assert xs[1..][1..][1..] == ["b.c."];
    assert KeepMatches(["b.c."]) == ["b.c."];
  }
}
