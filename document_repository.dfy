/** The queries of `DocumentRepository`, as functions of the document table: the
    derived per-user and per-category queries, the newest-first listing, and the two
    JPQL title searches, whose `LIKE` pattern is the lower-cased query between two `%`
    wildcards. The source declares the title searches with a `Pageable` only; they are
    modelled here as the full result list, which every page is a slice of. */
module DocumentRepository {
  import opened Base
  import opened Text
  import opened Store
  import opened Query

  /** The condition `d.user.id = :userId`. */
  function OwnedBy(userId: int): DocRow -> bool {
    (d: DocRow) => d.ownerId == userId
  }

  /** The condition `d.user.id = :userId AND d.category = :category`. */
  function OwnedInCategory(userId: int, category: Option<string>): DocRow -> bool {
    (d: DocRow) => d.ownerId == userId && d.fields.category == category
  }

  /** The lower-cased title matches the lower-cased query between two `%` wildcards;
      a `%` or `_` inside the query acts as a wildcard too. */
  function TitleMatches(query: string): DocRow -> bool {
    (d: DocRow) => LikeContainsIgnoreCase(d.fields.title, query)
  }

  /** The condition of `searchByUserIdAndTitle`. */
  function OwnedTitleMatches(userId: int, query: string): DocRow -> bool {
    (d: DocRow) => d.ownerId == userId && LikeContainsIgnoreCase(d.fields.title, query)
  }

  /** The sort key of `ORDER BY d.createdAt DESC`. */
  function CreatedAt(d: DocRow): int {
    d.createdAt
  }

  /** `findByUser`: the documents of `userId`, in key order. */
  function FindByUser(documents: map<int, DocRow>, userId: int): (r: seq<DocRow>)
    ensures forall d :: d in r <==> InTable(documents, d) && d.ownerId == userId
  {
    SelectContains(documents, OwnedBy(userId));
    Select(documents, OwnedBy(userId))
  }

  /** `findByUserIdAndCategory`: the documents of `userId` whose category equals
      `category` (a null category matches the documents without one). */
  function FindByUserIdAndCategory(documents: map<int, DocRow>, userId: int, category: Option<string>): (r: seq<DocRow>)
    ensures forall d :: d in r <==> InTable(documents, d) && d.ownerId == userId && d.fields.category == category
  {
    SelectContains(documents, OwnedInCategory(userId, category));
    Select(documents, OwnedInCategory(userId, category))
  }

  /** `findByUserIdOrderByCreatedAtDesc`: the documents of `userId`, newest first. */
  function FindByUserIdOrderByCreatedAtDesc(documents: map<int, DocRow>, userId: int): (r: seq<DocRow>)
    ensures multiset(r) == multiset(FindByUser(documents, userId))
    ensures forall d :: d in r <==> InTable(documents, d) && d.ownerId == userId
    ensures NewestFirst(r, CreatedAt)
  {
    var mine := FindByUser(documents, userId);
    var r := SortNewestFirst(mine, CreatedAt);
    assert forall d :: d in r <==> d in multiset(mine);
    r
  }

  /** `searchByTitle`: every document whose title matches the query pattern, ignoring
      case, in key order (the full list behind the source's paged query). */
  function SearchByTitle(documents: map<int, DocRow>, query: string): (r: seq<DocRow>)
    ensures forall d :: d in r <==> InTable(documents, d) && LikeContainsIgnoreCase(d.fields.title, query)
  {
    SelectContains(documents, TitleMatches(query));
    Select(documents, TitleMatches(query))
  }

  /** `searchByUserIdAndTitle`: the same match, restricted to the documents of `userId`
      (again the full list behind the paged query). */
  function SearchByUserIdAndTitle(documents: map<int, DocRow>, userId: int, query: string): (r: seq<DocRow>)
    ensures forall d :: d in r <==> InTable(documents, d) && d.ownerId == userId && LikeContainsIgnoreCase(d.fields.title, query)
  {
    SelectContains(documents, OwnedTitleMatches(userId, query));
    Select(documents, OwnedTitleMatches(userId, query))
  }

  /** The per-user search is the global search restricted to the user's documents, and
      lists them in the same order. */
  lemma SearchByUserIsRestriction(documents: map<int, DocRow>, userId: int, query: string)
    ensures SearchByUserIdAndTitle(documents, userId, query) == Filter(SearchByTitle(documents, query), OwnedBy(userId))
    ensures forall d :: d in SearchByUserIdAndTitle(documents, userId, query) ==> d in SearchByTitle(documents, query)
  {
    FilterSelect(documents, TitleMatches(query), OwnedBy(userId), OwnedTitleMatches(userId, query));
  }

  /** A category listing is part of the user's listing. */
  lemma CategoryWithinUser(documents: map<int, DocRow>, userId: int, category: Option<string>)
    ensures FindByUserIdAndCategory(documents, userId, category)
            == Filter(FindByUser(documents, userId), (d: DocRow) => d.fields.category == category)
  {
    FilterSelect(documents, OwnedBy(userId), (d: DocRow) => d.fields.category == category,
                 OwnedInCategory(userId, category));
  }
}
