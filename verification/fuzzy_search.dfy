/** The menu search of the frontend (Frontend/src/utils/fuzzySearch.js): keep, in
    order, the items whose text contains every word of the query. */
module FuzzySearch {
  import opened Wrappers
  import opened Text
  import opened Seqs

  /** The fields of a menu item the search reads; `None` is a missing (null or
      undefined) field. `id` tells items apart. */
  datatype MenuItem = MenuItem(id: nat, name: Option<string>, description: Option<string>,
                               categoryName: Option<string>)

  /** `(field || '').toLowerCase()`: a missing field reads as the empty string. */
  function FieldText(field: Option<string>): (t: string)
    ensures field.None? ==> t == ""
    ensures field.Some? ==> |t| == |field.value|
    ensures forall i :: 0 <= i < |t| ==> !('A' <= t[i] <= 'Z')
  {
    match field
    case None => ""
    case Some(s) => ToLower(s)
  }

  /** `${name} ${description} ${category}`, each part lower-cased: the three field
      texts in this order, one space between each. */
  function SearchableText(item: MenuItem): (t: string)
    ensures |t| == |FieldText(item.name)| + |FieldText(item.description)| + |FieldText(item.categoryName)| + 2
    ensures OccursAt(t, FieldText(item.name), 0)
    ensures t[|FieldText(item.name)|] == ' '
    ensures OccursAt(t, FieldText(item.description), |FieldText(item.name)| + 1)
    ensures t[|t| - |FieldText(item.categoryName)| - 1] == ' '
    ensures OccursAt(t, FieldText(item.categoryName), |t| - |FieldText(item.categoryName)|)
  {
    var n, d, c := FieldText(item.name), FieldText(item.description), FieldText(item.categoryName);
    SpaceJoinLayout(n, d, c);
    n + " " + d + " " + c
  }

  lemma {:induction false} SpaceJoinLayout(a: string, b: string, c: string)
    ensures var t := a + " " + b + " " + c;
            && |t| == |a| + |b| + |c| + 2
            && OccursAt(t, a, 0) && t[|a|] == ' '
            && OccursAt(t, b, |a| + 1) && t[|t| - |c| - 1] == ' '
            && OccursAt(t, c, |t| - |c|)
  {
    var t := a + " " + b + " " + c;
    assert t[..|a|] == a;
    assert t[|a| + 1..|a| + 1 + |b|] == b;
    assert t[|t| - |c|..] == c;
  }

  /** The searchable text holds no upper-case letter, so the match ignores case. */
  lemma {:induction false} SearchableTextHasNoUpper(item: MenuItem)
    ensures var t := SearchableText(item);
            forall i :: 0 <= i < |t| ==> !('A' <= t[i] <= 'Z')
  {
    var n, d, c := FieldText(item.name), FieldText(item.description), FieldText(item.categoryName);
    var t := SearchableText(item);
    forall i | 0 <= i < |t|
      ensures !('A' <= t[i] <= 'Z')
    {
      if i < |n| {
        assert t[..|n|][i] == n[i];
      } else if |n| < i < |n| + 1 + |d| {
        assert t[|n| + 1..|n| + 1 + |d|][i - |n| - 1] == d[i - |n| - 1];
      } else if |t| - |c| <= i {
        assert t[|t| - |c|..|t|][i - (|t| - |c|)] == c[i - (|t| - |c|)];
      }
    }
  }

  /** `searchQuery.toLowerCase().trim().split(/\s+/)`. */
  function QueryWords(query: string): (words: seq<string>)
    ensures forall w <- words :: NoWhitespace(w)
  {
    Split(Trim(ToLower(query)))
  }

  /** `!searchQuery || searchQuery.trim() === ''`. */
  predicate IsBlankQuery(query: Option<string>)
  {
    query.None? || Trim(query.value) == ""
  }

  /** `queryWords.every(word => searchableText.includes(word))`. */
  predicate MatchesAllWords(item: MenuItem, words: seq<string>)
  {
    forall w <- words :: Contains(SearchableText(item), w)
  }

  /** The filter callback of the search: does the item match every word? */
  function Matcher(words: seq<string>): (keep: MenuItem -> bool)
    ensures forall item :: keep(item) <==> MatchesAllWords(item, words)
  {
    (item: MenuItem) => MatchesAllWords(item, words)
  }

  /** `fuzzySearch(items, searchQuery)`. A blank query returns the list as it is;
      otherwise the result is the subsequence of items matching every query word. */
  function Search(items: seq<MenuItem>, query: Option<string>): (r: seq<MenuItem>)
    ensures IsBlankQuery(query) ==> r == items
    ensures IsSubsequence(r, items)
    ensures !IsBlankQuery(query) ==>
              forall item :: item in r <==> item in items && MatchesAllWords(item, QueryWords(query.value))
    ensures !IsBlankQuery(query) ==>
              forall item :: multiset(r)[item] ==
                               if MatchesAllWords(item, QueryWords(query.value)) then multiset(items)[item] else 0
  {
    if IsBlankQuery(query) then
      assert IsSubsequence(items, items) by { FilterAllPass(_ => true, items); FilterIsSubsequence(_ => true, items); }
      items
    else
      var words := QueryWords(query.value);
      var keep := Matcher(words);
      FilterCharacterised(keep, items);
      Filter(keep, items)
  }

  /** Lower-casing before trimming gives the same words as trimming first: a query
      is blank exactly when its lower-cased trim is empty, and then has no real word. */
  lemma {:induction false} NonBlankQueryHasOnlyRealWords(query: string)
    requires Trim(query) != ""
    ensures forall w <- QueryWords(query) :: w != ""
  {
    var t := Trim(ToLower(query));
    LowerKeepsWhitespace(query);
    TrimEmptyIffBlank(query);
    TrimEmptyIffBlank(ToLower(query));
    assert t != "";
    SplitTrimmedHasNoEmptyWord(t);
  }

  /** A word without whitespace occurs across a single space only inside one side. */
  lemma {:induction false} ContainsAcrossSpace(x: string, y: string, w: string)
    requires NoWhitespace(w)
    ensures Contains(x + " " + y, w) <==> Contains(x, w) || Contains(y, w)
  {
    var s := x + " " + y;
    if Contains(s, w) {
      var i :| 0 <= i <= |s| - |w| && OccursAt(s, w, i);
      if |w| == 0 {
        assert OccursAt(x, w, 0);
      } else {
        OccurrenceAvoidsSpace(x, y, w, i);
      }
    }
    if Contains(x, w) {
      var i :| 0 <= i <= |x| - |w| && OccursAt(x, w, i);
      assert s == x + (" " + y);
      OccursInLonger(x, " " + y, w, i);
    }
    if Contains(y, w) {
      var j :| 0 <= j <= |y| - |w| && OccursAt(y, w, j);
      OccursAfterPrefix(x + " ", y, w, j);
    }
  }

  /** A non-empty occurrence of a whitespace-free word in `x + " " + y` lies inside `x`
      or inside `y`. */
  lemma {:induction false} OccurrenceAvoidsSpace(x: string, y: string, w: string, i: nat)
    requires NoWhitespace(w) && |w| > 0
    requires OccursAt(x + " " + y, w, i)
    ensures Contains(x, w) || Contains(y, w)
  {
    var s := x + " " + y;
    assert s[|x|] == ' ';
    assert forall p :: i <= p < i + |w| ==> s[p] == w[p - i];
    if i + |w| <= |x| {
      assert x[i..i + |w|] == s[i..i + |w|];
      assert OccursAt(x, w, i);
    } else {
      assert |x| < i;
      var j := i - |x| - 1;
      assert s == (x + " ") + y;
      assert y[j..j + |w|] == s[i..i + |w|];
      assert OccursAt(y, w, j);
    }
  }

  lemma {:induction false} OccursInLonger(x: string, y: string, w: string, i: nat)
    requires OccursAt(x, w, i)
    ensures OccursAt(x + y, w, i)
  {
    assert (x + y)[i..i + |w|] == x[i..i + |w|];
  }

  lemma {:induction false} OccursAfterPrefix(x: string, y: string, w: string, j: nat)
    requires OccursAt(y, w, j)
    ensures OccursAt(x + y, w, |x| + j)
  {
    assert (x + y)[|x| + j..|x| + j + |w|] == y[j..j + |w|];
  }

  /** Query words hold no whitespace, so a word matches an item exactly when it
      occurs in its name, its description or its category on their own. */
  lemma {:induction false} WordMatchesOneField(item: MenuItem, w: string)
    requires NoWhitespace(w)
    ensures Contains(SearchableText(item), w) <==>
              || Contains(FieldText(item.name), w)
              || Contains(FieldText(item.description), w)
              || Contains(FieldText(item.categoryName), w)
  {
    var a, b, c := FieldText(item.name), FieldText(item.description), FieldText(item.categoryName);
    assert SearchableText(item) == (a + " " + b) + " " + c;
    ContainsAcrossSpace(a + " " + b, c, w);
    ContainsAcrossSpace(a, b, w);
  }

  /** An item with none of the three fields matches no non-blank query. */
  lemma {:induction false} ItemWithoutTextMatchesNothing(items: seq<MenuItem>, query: Option<string>, id: nat)
    requires !IsBlankQuery(query)
    ensures MenuItem(id, None, None, None) !in Search(items, query)
  {
    var item := MenuItem(id, None, None, None);
    var words := QueryWords(query.value);
    NonBlankQueryHasOnlyRealWords(query.value);
    var w := words[0];
    assert w in words && w != "";
    WordMatchesOneField(item, w);
    assert !Contains("", w);
  }

  /** An item matches a query of whitespace-free words exactly when each word occurs
      in its name, its description or its category on their own. */
  lemma {:induction false} MatchesAllWordsFieldByField(item: MenuItem, words: seq<string>)
    requires forall w <- words :: NoWhitespace(w)
    ensures MatchesAllWords(item, words) <==>
              forall w <- words :: || Contains(FieldText(item.name), w)
                                   || Contains(FieldText(item.description), w)
                                   || Contains(FieldText(item.categoryName), w)
  {
    forall w <- words {
      WordMatchesOneField(item, w);
    }
  }

  /** Searching the result of a search again with the same query changes nothing. */
  lemma {:induction false} SearchIdempotent(items: seq<MenuItem>, query: Option<string>)
    ensures Search(Search(items, query), query) == Search(items, query)
  {
    if !IsBlankQuery(query) {
      var words := QueryWords(query.value);
      FilterIdempotent(Matcher(words), items);
    }
  }

  /** A query that has every word of another (and maybe more) keeps a subsequence of
      what the other keeps: adding words can only narrow the result. */
  lemma {:induction false} MoreWordsNarrowTheResult(items: seq<MenuItem>, query: string, longer: string)
    requires Trim(query) != "" && Trim(longer) != ""
    requires forall w <- QueryWords(query) :: w in QueryWords(longer)
    ensures IsSubsequence(Search(items, Some(longer)), Search(items, Some(query)))
  {
    var fewer, more := QueryWords(query), QueryWords(longer);
    assert Search(items, Some(longer)) == Filter(Matcher(more), items);
    assert Search(items, Some(query)) == Filter(Matcher(fewer), items);
    FilterStrongerKeepsLess(Matcher(more), Matcher(fewer), items);
  }
}
