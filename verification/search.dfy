/**
 * The variable search box: a variable is listed when the query occurs in its
 * name once both are lower-cased and stripped of spaces.
 */
module Search {
  import opened Text

  /** `s.lower().replace(" ", "")`. */
  function Folded(s: string): (r: string)
    ensures ' ' !in r
  {
    Remove(Lower(s), ' ')
  }

  /** The test in `refresh_search_list`'s comprehension. */
  predicate Matches(name: string, query: string) {
    Contains(Folded(name), Folded(query))
  }

  /** The names among `names` that match `query`, in their order. */
  function Matching(names: seq<string>, query: string): (r: seq<string>)
    ensures |r| <= |names|
    ensures forall x :: x in r <==> x in names && Matches(x, query)
  {
    if names == [] then []
    else (if Matches(names[0], query) then [names[0]] else []) + Matching(names[1..], query)
  }

  /** What `refresh_search_list` shows: every name for an empty query, else the matching ones. */
  function SearchList(names: seq<string>, query: string): seq<string> {
    if query != [] then Matching(names, query) else names
  }

  /** An empty query lists every name in order; any other lists exactly the matching names. */
  lemma SearchListShows(names: seq<string>, query: string)
    ensures query == [] ==> SearchList(names, query) == names
    ensures query != [] ==> forall x :: x in SearchList(names, query) <==> x in names && Matches(x, query)
  {
  }

  /** Filtering keeps order: the matches of two lists one after the other are the matches of each. */
  lemma {:induction false} MatchingAppend(a: seq<string>, b: seq<string>, query: string)
    ensures Matching(a + b, query) == Matching(a, query) + Matching(b, query)
  {
    if a != [] {
      assert (a + b)[1..] == a[1..] + b;
      MatchingAppend(a[1..], b, query);
    } else {
      assert a + b == b;
    }
  }

  lemma {:induction false} ContainsEmpty(s: string)
    ensures Contains(s, [])
  {
  }

  /** A query made only of spaces folds to nothing, so it lists every name. */
  lemma {:induction false} SpacesListAll(names: seq<string>, query: string)
    requires forall i :: 0 <= i < |query| ==> query[i] == ' '
    ensures Matching(names, query) == names
  {
    SpacesFoldAway(query);
    if names != [] {
      ContainsEmpty(Folded(names[0]));
      SpacesListAll(names[1..], query);
    }
  }

  lemma {:induction false} SpacesFoldAway(s: string)
    requires forall i :: 0 <= i < |s| ==> s[i] == ' '
    ensures Folded(s) == []
  {
    if s != [] {
      SpacesFoldAway(s[1..]);
      assert Lower(s)[1..] == Lower(s[1..]);
    }
  }

  /** Lower-casing is idempotent, so the case in which a query is typed does not change what it lists. */
  lemma {:induction false} FoldedIgnoresCase(s: string)
    ensures Folded(Lower(s)) == Folded(s)
  {
    LowerTwice(s);
  }

  lemma {:induction false} LowerTwice(s: string)
    ensures Lower(Lower(s)) == Lower(s)
  {
    if s != [] {
      LowerTwice(s[1..]);
      assert Lower(s)[1..] == Lower(s[1..]);
    }
  }

  /** Spaces in the query do not change what it lists. */
  lemma FoldedIgnoresSpaces(s: string)
    ensures Folded(Remove(s, ' ')) == Folded(s)
  {
    LowerRemove(s);
    RemoveTwice(Lower(s));
  }

  lemma {:induction false} LowerRemove(s: string)
    ensures Lower(Remove(s, ' ')) == Remove(Lower(s), ' ')
  {
    if s != [] {
      LowerRemove(s[1..]);
      assert Lower(s) == [LowerChar(s[0])] + Lower(s[1..]);
      if s[0] != ' ' {
        assert Remove(s, ' ') == [s[0]] + Remove(s[1..], ' ');
        assert Lower(Remove(s, ' ')) == [LowerChar(s[0])] + Lower(Remove(s[1..], ' '));
      }
    }
  }

  lemma {:induction false} RemoveTwice(s: string)
    ensures Remove(Remove(s, ' '), ' ') == Remove(s, ' ')
  {
    Text.RemoveAbsent(Remove(s, ' '), ' ');
  }
}
