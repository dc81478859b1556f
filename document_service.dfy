/** `DocumentService`: create, update and delete document rows, resolving free-text tag
    names through `TagService.createOrGetTags`, plus the title search and the per-user count. */
module DocumentService {
  import opened Base
  import opened Text
  import opened Store
  import opened Query
  import opened TagRepository
  import opened TagService
  import opened DocumentRepository

  /** The keys of a set of tag rows: the `document_tags` rows of `setTags(tags)`. */
  function TagIds(ts: set<TagRow>): (ids: set<int>)
    ensures forall t :: t in ts ==> t.id in ids
    ensures forall k :: k in ids ==> exists t :: t in ts && t.id == k
  {
    set t | t in ts :: t.id
  }

  /** The keys of the rows named in a request are the stored keys whose name is requested. */
  lemma TagIdsNamed(tags: map<int, TagRow>, next: int, names: set<string>)
    requires TagsKeyed(tags, next)
    ensures forall k :: k in TagIds(TagsNamed(tags, names)) <==> k in tags && tags[k].name in names
  {
    forall k | k in tags && tags[k].name in names
      ensures k in TagIds(TagsNamed(tags, names))
    {
      assert tags[k] in TagsNamed(tags, names);
    }
  }

  /** The tags `createOrGetTags(tagNames)` attaches to a document, as keys, with the facts
      about the tag table the document and its callers rely on. */
  method ResolveTags(db: Database, tagNames: Option<set<string>>) returns (ids: set<int>)
    requires db.Valid()
    modifies db`tags, db`nextTagId
    ensures db.Valid()
    ensures ids <= db.tags.Keys
    ensures forall k :: k in ids <==> k in db.tags && db.tags[k].name in Requested(tagNames)
    ensures forall k :: k in old(db.tags) ==> k in db.tags && db.tags[k] == old(db.tags[k])
    ensures StoredNames(db.tags) == StoredNames(old(db.tags)) + Requested(tagNames)
  {
    var managedTags := CreateOrGetTags(db, tagNames);
    TagIdsNamed(db.tags, db.nextTagId, Requested(tagNames));
    ids := TagIds(managedTags);
  }

  /** `createDocument`: the document is owned by `userId`; non-empty `tagNames` replace
      the given tags by the reconciled ones; the row gets the next key. */
  method CreateDocument(db: Database, fields: DocFields, givenTags: set<int>, userId: int,
                        tagNames: Option<set<string>>, now: int) returns (r: Result<DocRow>)
    requires db.Valid()
    requires givenTags <= db.tags.Keys
    modifies db`tags, db`nextTagId, db`documents, db`nextDocumentId
    ensures db.Valid()
    ensures r.Failure? <==> userId !in old(db.users)
    ensures r.Failure? ==> r.error == ResourceNotFound("User", "id", IdKey(userId))
    ensures r.Failure? ==> db.tags == old(db.tags) && db.documents == old(db.documents)
    ensures r.Failure? ==> db.nextTagId == old(db.nextTagId) && db.nextDocumentId == old(db.nextDocumentId)
    ensures r.Success? ==> r.value.ownerId == userId && r.value.fields == fields && r.value.createdAt == now
    ensures r.Success? ==> r.value.id !in old(db.documents) && db.documents == old(db.documents)[r.value.id := r.value]
    ensures r.Success? && (tagNames.None? || tagNames.value == {}) ==>
              r.value.tagIds == givenTags && db.tags == old(db.tags)
    ensures r.Success? && tagNames.Some? && tagNames.value != {} ==>
              forall k :: k in r.value.tagIds <==> k in db.tags && db.tags[k].name in Requested(tagNames)
    ensures r.Success? && tagNames.Some? && tagNames.value != {} ==>
              StoredNames(db.tags) == StoredNames(old(db.tags)) + Requested(tagNames)
    ensures forall k :: k in old(db.tags) ==> k in db.tags && db.tags[k] == old(db.tags[k])
  {
    if userId !in db.users {
      return Failure(ResourceNotFound("User", "id", IdKey(userId)));
    }
    var tagIds := givenTags;
    if tagNames.Some? && tagNames.value != {} {
      tagIds := ResolveTags(db, tagNames);
    }
    var row := db.InsertDocument(fields, userId, tagIds, now);
    r := Success(row);
  }

  /** `updateDocument`: overwrite the seven scalar fields; null `tagNames` keep the tags,
      an empty set clears them, any other set replaces them by the reconciled tags. The
      owner and the creation time stay. */
  method UpdateDocument(db: Database, id: int, fields: DocFields, tagNames: Option<set<string>>)
    returns (r: Result<DocRow>)
    requires db.Valid()
    modifies db`tags, db`nextTagId, db`documents
    ensures db.Valid()
    ensures r.Failure? <==> id !in old(db.documents)
    ensures r.Failure? ==> r.error == ResourceNotFound("Document", "id", IdKey(id))
    ensures r.Failure? ==> db.tags == old(db.tags) && db.documents == old(db.documents)
    ensures r.Failure? ==> db.nextTagId == old(db.nextTagId)
    ensures r.Success? ==> r.value.id == id && r.value.fields == fields
    ensures r.Success? ==> r.value.ownerId == old(db.documents[id].ownerId) && r.value.createdAt == old(db.documents[id].createdAt)
    ensures r.Success? ==> db.documents == old(db.documents)[id := r.value]
    ensures r.Success? && tagNames.None? ==> r.value.tagIds == old(db.documents[id].tagIds) && db.tags == old(db.tags)
    ensures r.Success? && tagNames == Some({}) ==> r.value.tagIds == {} && db.tags == old(db.tags)
    ensures r.Success? && tagNames.Some? && tagNames.value != {} ==>
              forall k :: k in r.value.tagIds <==> k in db.tags && db.tags[k].name in Requested(tagNames)
    ensures r.Success? && tagNames.Some? && tagNames.value != {} ==>
              StoredNames(db.tags) == StoredNames(old(db.tags)) + Requested(tagNames)
    ensures forall k :: k in old(db.tags) ==> k in db.tags && db.tags[k] == old(db.tags[k])
  {
    if id !in db.documents {
      return Failure(ResourceNotFound("Document", "id", IdKey(id)));
    }
    var existing := db.documents[id];
    var tagIds := existing.tagIds;
    assert tagIds <= db.tags.Keys;
    if tagNames.Some? {
      tagIds := {};
      if tagNames.value != {} {
        tagIds := ResolveTags(db, tagNames);
      }
    }
    var row := existing.(fields := fields, tagIds := tagIds);
    db.PutDocument(row);
    r := Success(row);
  }

  /** `deleteDocument`: an unknown key is not found; otherwise that row, and only it, goes. */
  method DeleteDocument(db: Database, id: int) returns (r: Result<Unit>)
    requires db.Valid()
    modifies db`documents
    ensures db.Valid()
    ensures r.Failure? <==> id !in old(db.documents)
    ensures r.Failure? ==> r.error == ResourceNotFound("Document", "id", IdKey(id)) && db.documents == old(db.documents)
    ensures r.Success? ==> db.documents == old(db.documents) - {id}
  {
    if id !in db.documents {
      return Failure(ResourceNotFound("Document", "id", IdKey(id)));
    }
    db.DeleteDocument(id);
    r := Success(Unit);
  }

  /** `countDocumentsByUser`: the size of the newest-first listing of the user. */
  function CountDocumentsByUser(documents: map<int, DocRow>, userId: int): (n: nat)
    ensures n == |FindByUser(documents, userId)|
  {
    var listing := FindByUserIdOrderByCreatedAtDesc(documents, userId);
    assert |multiset(listing)| == |multiset(FindByUser(documents, userId))|;
    |listing|
  }

  /** The count is the number of documents the user owns. */
  lemma CountIsOwned(documents: map<int, DocRow>, userId: int)
    ensures CountDocumentsByUser(documents, userId) == |OwnedKeys(documents, userId)|
  {
    var listing := FindByUserIdOrderByCreatedAtDesc(documents, userId);
    var mine := FindByUser(documents, userId);
    assert |listing| == |mine| by {
      assert |multiset(listing)| == |multiset(mine)|;
    }
    SelectCount(documents, OwnedBy(userId), OwnedKeys(documents, userId));
    assert mine == Select(documents, OwnedBy(userId));
    assert CountDocumentsByUser(documents, userId) == |listing|;
  }

  /** The in-memory condition: the lower-cased title contains the lower-cased query. */
  function TitleContains(title: string): DocRow -> bool {
    (d: DocRow) => ContainsIgnoreCase(d.fields.title, title)
  }

  /** `searchDocumentsByTitle`: `findAll()` filtered in memory by a lower-cased substring
      test on the title. */
  function SearchDocumentsByTitle(documents: map<int, DocRow>, title: string): (r: seq<DocRow>)
    ensures forall d :: d in r <==> InTable(documents, d) && ContainsIgnoreCase(d.fields.title, title)
  {
    SelectContains(documents, Always());
    Filter(Select(documents, Always()), TitleContains(title))
  }

  /** For a query without `LIKE` wildcards, the in-memory search returns what the
      repository's `searchByTitle` query returns, in the same order. */
  lemma SearchAgreesWithRepository(documents: map<int, DocRow>, title: string)
    requires !HasWildcard(title)
    ensures SearchDocumentsByTitle(documents, title) == SearchByTitle(documents, title)
  {
    forall d: DocRow ensures TitleMatches(title)(d) == (Always<DocRow>()(d) && TitleContains(title)(d)) {
      LikeContainsIgnoreCaseLiteral(d.fields.title, title);
    }
    FilterSelect(documents, Always(), TitleContains(title), TitleMatches(title));
  }
}
