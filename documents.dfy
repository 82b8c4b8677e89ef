/**
 * The documents list: the search filter over the stored records and the
 * page-count label. Letter case is folded over ASCII only.
 */
module DocumentSearch {
  import opened Text
  import opened Records

  /** The search predicate: the lowercased name contains the lowercased
      query, or some lowercased tag does. */
  predicate Matches(doc: StoredDocument, query: string) {
    || Includes(Lower(doc.name), Lower(query))
    || exists i :: 0 <= i < |doc.tags| && Includes(Lower(doc.tags[i]), Lower(query))
  }

  /** `documents.filter(…)`: the matching documents in list order. */
  function FilterDocuments(docs: seq<StoredDocument>, query: string): (r: seq<StoredDocument>)
    ensures |r| <= |docs|
  {
    if docs == [] then []
    else if Matches(docs[0], query) then [docs[0]] + FilterDocuments(docs[1..], query)
    else FilterDocuments(docs[1..], query)
  }

  /** A document is listed exactly when it is stored and matches. */
  lemma {:induction false} FilterMembership(docs: seq<StoredDocument>, query: string, d: StoredDocument)
    ensures d in FilterDocuments(docs, query) <==> d in docs && Matches(d, query)
  {
    if docs != [] {
      FilterMembership(docs[1..], query, d);
      assert docs == [docs[0]] + docs[1..];
    }
  }

  /** `a` is `b` with some elements dropped and the rest in the same order. */
  predicate IsSubsequence<T(==)>(a: seq<T>, b: seq<T>)
    decreases |b|
  {
    if a == [] then true
    else if b == [] then false
    else if a[0] == b[0] then IsSubsequence(a[1..], b[1..])
    else IsSubsequence(a, b[1..])
  }

  /** Filtering keeps the relative order of the documents. */
  lemma {:induction false} FilterIsSubsequence(docs: seq<StoredDocument>, query: string)
    ensures IsSubsequence(FilterDocuments(docs, query), docs)
  {
    if docs != [] {
      FilterIsSubsequence(docs[1..], query);
      var rest := FilterDocuments(docs[1..], query);
      if Matches(docs[0], query) {
        assert ([docs[0]] + rest)[1..] == rest;
      } else if rest != [] && rest[0] == docs[0] {
        SubsequenceOfTail(rest, docs[1..]);
      }
    }
  }

  /** Dropping the first element of a subsequence leaves a subsequence. */
  lemma {:induction false} SubsequenceOfTail<T>(a: seq<T>, b: seq<T>)
    requires a != [] && IsSubsequence(a, b)
    ensures IsSubsequence(a[1..], b)
    decreases |b|, 0
  {
    if b != [] {
      if a[0] != b[0] {
        SubsequenceOfTail(a, b[1..]);
      }
      DropFirst(a[1..], b[1..], b[0]);
      assert [b[0]] + b[1..] == b;
    }
  }

  /** A subsequence of a tail is a subsequence of the whole. */
  lemma {:induction false} DropFirst<T>(a: seq<T>, t: seq<T>, x: T)
    requires IsSubsequence(a, t)
    ensures IsSubsequence(a, [x] + t)
    decreases |t|, 1
  {
    assert ([x] + t)[1..] == t;
    if a != [] && a[0] == x {
      SubsequenceOfTail(a, t);
    }
  }

  /** The empty query lists every document. */
  lemma {:induction false} EmptyQueryKeepsAll(docs: seq<StoredDocument>)
    ensures FilterDocuments(docs, "") == docs
  {
    if docs != [] {
      IncludesEmpty(Lower(docs[0].name));
      EmptyQueryKeepsAll(docs[1..]);
      assert docs == [docs[0]] + docs[1..];
    }
  }

  /** Searching the search result again with the same query changes nothing. */
  lemma {:induction false} FilterIdempotent(docs: seq<StoredDocument>, query: string)
    ensures FilterDocuments(FilterDocuments(docs, query), query) == FilterDocuments(docs, query)
  {
    if docs != [] {
      FilterIdempotent(docs[1..], query);
      if Matches(docs[0], query) {
        var rest := FilterDocuments(docs[1..], query);
        assert ([docs[0]] + rest)[1..] == rest;
      }
    }
  }

  /** Queries that lowercase alike list the same documents; in particular a
      query and its lowercase form do. */
  lemma {:induction false} FilterIgnoresQueryCase(docs: seq<StoredDocument>, q1: string, q2: string)
    requires Lower(q1) == Lower(q2)
    ensures FilterDocuments(docs, q1) == FilterDocuments(docs, q2)
  {
    if docs != [] {
      FilterIgnoresQueryCase(docs[1..], q1, q2);
    }
  }

  /** The case-insensitivity the search promises: a query and its lowercase
      form list the same documents. */
  lemma QueryLowercaseAlike(docs: seq<StoredDocument>, query: string)
    ensures FilterDocuments(docs, Lower(query)) == FilterDocuments(docs, query)
  {
    LowerIdempotent(query);
    FilterIgnoresQueryCase(docs, Lower(query), query);
  }

  /** `doc.pages === 1 ? 'page' : 'pages'`. */
  function PagesLabel(pages: nat): (word: string)
    ensures word == "page" <==> pages == 1
    ensures word == "page" || word == "pages"
  {
    if pages == 1 then "page" else "pages"
  }
}
