/** Client-side search (src/lib/hooks/use-search.ts): one state cell, the search
    term, and a `search` that keeps the rows for which some search field,
    printed and lower-cased, contains the lower-cased term.

    A row is any value; `text(row, field)` is `String(row[field])`. */
module Search {
  import opened Basics

  /** Some field of `fields` holds the term, ignoring case
      (`searchFields.some(...)`). */
  predicate AnyFieldMatches<T>(item: T, fields: seq<string>, text: (T, string) -> string, term: string)
  {
    if |fields| == 0 then false
    else Includes(Lower(text(item, fields[0])), Lower(term))
         || AnyFieldMatches(item, fields[1..], text, term)
  }

  /** `items.filter(item => AnyFieldMatches(item, ...))`. */
  function Filter<T>(items: seq<T>, fields: seq<string>, text: (T, string) -> string, term: string): (r: seq<T>)
    ensures |r| <= |items|
  {
    if |items| == 0 then []
    else (if AnyFieldMatches(items[0], fields, text, term) then [items[0]] else [])
         + Filter(items[1..], fields, text, term)
  }

  /** `search(items)`: the empty term keeps the list as it is. */
  function SearchItems<T>(items: seq<T>, fields: seq<string>, text: (T, string) -> string, term: string): (r: seq<T>)
    ensures term == "" ==> r == items
    ensures |r| <= |items|
  {
    if term == "" then items else Filter(items, fields, text, term)
  }

  /** `r` is `s` with some elements left out, the rest in their order. */
  ghost predicate IsSubsequence<T>(r: seq<T>, s: seq<T>)
  {
    if |r| == 0 then true
    else if |s| == 0 then false
    else (r[0] == s[0] && IsSubsequence(r[1..], s[1..])) || IsSubsequence(r, s[1..])
  }

  /** The state cell of the hook and the fields it searches. */
  class Searcher {
    const searchFields: seq<string>
    var searchTerm: string

    /** The term starts empty. */
    constructor (fields: seq<string>)
      ensures searchFields == fields && searchTerm == ""
    {
      searchFields := fields;
      searchTerm := "";
    }

    /** `setSearchTerm`: stores the term verbatim. */
    method SetSearchTerm(term: string)
      modifies this
      ensures searchTerm == term
    {
      searchTerm := term;
    }

    /** `search`: with the (settled) term, the rows some search field
        matches, each as often as it occurs in the input and in input
        order. */
    function Search<T>(items: seq<T>, text: (T, string) -> string): (r: seq<T>)
      reads this
      ensures r == SearchItems(items, searchFields, text, searchTerm)
      ensures searchTerm == "" ==> r == items
      ensures forall k :: 0 <= k < |r| ==> r[k] in items && (searchTerm == "" || AnyFieldMatches(r[k], searchFields, text, searchTerm))
      ensures forall k :: 0 <= k < |items| && (searchTerm == "" || AnyFieldMatches(items[k], searchFields, text, searchTerm)) ==> items[k] in r
      ensures forall k :: 0 <= k < |items| ==>
                multiset(r)[items[k]] == (if searchTerm == "" || AnyFieldMatches(items[k], searchFields, text, searchTerm) then multiset(items)[items[k]] else 0)
    {
      FilterMembers(items, searchFields, text, searchTerm);
      FilterIndexed(items, searchFields, text, searchTerm);
      FilterCounts(items, searchFields, text, searchTerm);
      SearchItems(items, searchFields, text, searchTerm)
    }
  }

  // ---------------------------------------------------------------------
  // Lemmas

  /** The field test is existential: some field, in any position, matches. */
  lemma {:induction false} AnyFieldMatchesExists<T>(item: T, fields: seq<string>, text: (T, string) -> string, term: string)
    ensures AnyFieldMatches(item, fields, text, term) <==>
      exists k :: 0 <= k < |fields| && Includes(Lower(text(item, fields[k])), Lower(term))
  {
    if |fields| > 0 {
      AnyFieldMatchesExists(item, fields[1..], text, term);
      if AnyFieldMatches(item, fields[1..], text, term) {
        var k :| 0 <= k < |fields[1..]| && Includes(Lower(text(item, fields[1..][k])), Lower(term));
        assert fields[k + 1] == fields[1..][k];
      }
      if exists k :: 0 <= k < |fields| && Includes(Lower(text(item, fields[k])), Lower(term)) {
        var k :| 0 <= k < |fields| && Includes(Lower(text(item, fields[k])), Lower(term));
        if k > 0 {
          assert fields[1..][k - 1] == fields[k];
        }
      }
    }
  }

  /** A row is kept exactly when it is in the list and some field matches. */
  lemma {:induction false} FilterMembers<T>(items: seq<T>, fields: seq<string>, text: (T, string) -> string, term: string)
    ensures forall x :: x in Filter(items, fields, text, term) <==> x in items && AnyFieldMatches(x, fields, text, term)
  {
    if |items| > 0 {
      FilterMembers(items[1..], fields, text, term);
      assert items == [items[0]] + items[1..];
    }
  }

  /** Every entry of the result is a matching row of the input. */
  lemma FilterIndexed<T>(items: seq<T>, fields: seq<string>, text: (T, string) -> string, term: string)
    ensures forall k :: 0 <= k < |Filter(items, fields, text, term)| ==>
      Filter(items, fields, text, term)[k] in items && AnyFieldMatches(Filter(items, fields, text, term)[k], fields, text, term)
  {
    var r := Filter(items, fields, text, term);
    FilterMembers(items, fields, text, term);
    forall k | 0 <= k < |r|
      ensures r[k] in items && AnyFieldMatches(r[k], fields, text, term)
    {
      assert r[k] in Filter(items, fields, text, term);
    }
  }

  /** The result is an order-preserving subsequence of the input. */
  lemma {:induction false} FilterSubsequence<T>(items: seq<T>, fields: seq<string>, text: (T, string) -> string, term: string)
    ensures IsSubsequence(Filter(items, fields, text, term), items)
  {
    if |items| > 0 {
      FilterSubsequence(items[1..], fields, text, term);
      var rest := Filter(items[1..], fields, text, term);
      if AnyFieldMatches(items[0], fields, text, term) {
        assert Filter(items, fields, text, term) == [items[0]] + rest;
      } else {
        assert Filter(items, fields, text, term) == rest;
        SubsequenceOfTail(rest, items);
      }
    }
  }

  /** Every matching row is kept as many times as it occurs, every other
      row not at all. */
  lemma {:induction false} FilterCounts<T>(items: seq<T>, fields: seq<string>, text: (T, string) -> string, term: string)
    ensures forall x :: multiset(Filter(items, fields, text, term))[x] == (if AnyFieldMatches(x, fields, text, term) then multiset(items)[x] else 0)
  {
    if |items| > 0 {
      FilterCounts(items[1..], fields, text, term);
      var head := if AnyFieldMatches(items[0], fields, text, term) then [items[0]] else [];
      assert Filter(items, fields, text, term) == head + Filter(items[1..], fields, text, term);
      assert items == [items[0]] + items[1..];
    }
  }

  /** A subsequence of the tail is a subsequence of the whole. */
  lemma SubsequenceOfTail<T>(r: seq<T>, s: seq<T>)
    requires |s| > 0 && IsSubsequence(r, s[1..])
    ensures IsSubsequence(r, s)
  {
  }

  /** `search` keeps an order-preserving subsequence, and a row is in it
      exactly when some field contains the term, ignoring case (every row,
      for the empty term). */
  lemma SearchSpec<T>(items: seq<T>, fields: seq<string>, text: (T, string) -> string, term: string)
    ensures term == "" ==> SearchItems(items, fields, text, term) == items
    ensures IsSubsequence(SearchItems(items, fields, text, term), items)
    ensures forall x :: x in SearchItems(items, fields, text, term) <==>
      x in items && (term == "" || exists k :: 0 <= k < |fields| && Includes(Lower(text(x, fields[k])), Lower(term)))
    ensures forall x :: multiset(SearchItems(items, fields, text, term))[x] == (if term == "" || AnyFieldMatches(x, fields, text, term) then multiset(items)[x] else 0)
  {
    FilterMembers(items, fields, text, term);
    FilterCounts(items, fields, text, term);
    FilterSubsequence(items, fields, text, term);
    SubsequenceRefl(items);
    forall x {
      AnyFieldMatchesExists(x, fields, text, term);
    }
  }

  lemma {:induction false} SubsequenceRefl<T>(s: seq<T>)
    ensures IsSubsequence(s, s)
  {
    if |s| > 0 {
      SubsequenceRefl(s[1..]);
    }
  }

  /** Terms that differ only in the case of ASCII letters find the same
      rows. */
  lemma {:induction false} CaseInsensitive<T>(items: seq<T>, fields: seq<string>, text: (T, string) -> string, t1: string, t2: string)
    requires Lower(t1) == Lower(t2)
    ensures SearchItems(items, fields, text, t1) == SearchItems(items, fields, text, t2)
  {
    assert |t1| == |Lower(t1)| == |Lower(t2)| == |t2|;
    FilterSameLower(items, fields, text, t1, t2);
  }

  lemma {:induction false} FilterSameLower<T>(items: seq<T>, fields: seq<string>, text: (T, string) -> string, t1: string, t2: string)
    requires Lower(t1) == Lower(t2)
    ensures Filter(items, fields, text, t1) == Filter(items, fields, text, t2)
  {
    if |items| > 0 {
      FilterSameLower(items[1..], fields, text, t1, t2);
      FieldsSameLower(items[0], fields, text, t1, t2);
    }
  }

  lemma {:induction false} FieldsSameLower<T>(item: T, fields: seq<string>, text: (T, string) -> string, t1: string, t2: string)
    requires Lower(t1) == Lower(t2)
    ensures AnyFieldMatches(item, fields, text, t1) == AnyFieldMatches(item, fields, text, t2)
  {
    if |fields| > 0 {
      FieldsSameLower(item, fields[1..], text, t1, t2);
    }
  }

  /** With no search fields, a non-empty term finds nothing. */
  lemma {:induction false} NoFieldsNoRows<T>(items: seq<T>, text: (T, string) -> string, term: string)
    requires term != ""
    ensures SearchItems(items, [], text, term) == []
  {
    if |items| > 0 {
      NoFieldsNoRows(items[1..], text, term);
    }
  }

  /** Searching the result again with the same term changes nothing. */
  lemma {:induction false} SearchIdempotent<T>(items: seq<T>, fields: seq<string>, text: (T, string) -> string, term: string)
    ensures SearchItems(SearchItems(items, fields, text, term), fields, text, term) == SearchItems(items, fields, text, term)
  {
    if term != "" {
      FilterIdempotent(items, fields, text, term);
    }
  }

  lemma {:induction false} FilterIdempotent<T>(items: seq<T>, fields: seq<string>, text: (T, string) -> string, term: string)
    ensures Filter(Filter(items, fields, text, term), fields, text, term) == Filter(items, fields, text, term)
  {
    if |items| > 0 {
      FilterIdempotent(items[1..], fields, text, term);
      var rest := Filter(items[1..], fields, text, term);
      if AnyFieldMatches(items[0], fields, text, term) {
        var w := [items[0]] + rest;
        assert Filter(items, fields, text, term) == w;
        assert w[0] == items[0] && w[1..] == rest;
      } else {
        assert Filter(items, fields, text, term) == rest;
      }
    }
  }
}
