/** The queries of `TagRepository`, as functions of the tag table (and, for
    the queries that join `document_tags`, of the document table). */
module TagRepository {
  import opened Base
  import opened Text
  import opened Store
  import opened Query

  /** Some document row carries tag `id`: the tag's `documents` collection is not empty. */
  predicate InUse(documents: map<int, DocRow>, id: int) {
    exists k | k in documents :: id in documents[k].tagIds
  }

  /** Some document row owned by `userId` carries tag `id`. */
  predicate UsedBy(documents: map<int, DocRow>, userId: int, id: int) {
    exists k | k in documents :: documents[k].ownerId == userId && id in documents[k].tagIds
  }

  /** `findAll()`: every tag row, in key order. */
  function FindAll(tags: map<int, TagRow>): (r: seq<TagRow>)
    ensures forall t :: t in r <==> InTable(tags, t)
  {
    SelectContains(tags, (t: TagRow) => true);
    Select(tags, (t: TagRow) => true)
  }

  /** `findByName`: the tag whose name is exactly `name`, if any. */
  function FindByName(tags: map<int, TagRow>, name: string): (r: Option<TagRow>)
    ensures r.Some? <==> name in StoredNames(tags)
    ensures r.Some? ==> r.value.name == name && InTable(tags, r.value)
    ensures UniqueTagNames(tags) ==> forall k :: k in tags && tags[k].name == name ==> r == Some(tags[k])
  {
    var hits := Select(tags, (t: TagRow) => t.name == name);
    SelectContains(tags, (t: TagRow) => t.name == name);
    if hits == [] then None else Some(hits[0])
  }

  /** `existsByName`: some stored tag carries `name`. */
  predicate ExistsByName(tags: map<int, TagRow>, name: string)
    ensures ExistsByName(tags, name) <==> name in StoredNames(tags)
  {
    exists k | k in tags :: tags[k].name == name
  }

  /** The two derived queries agree: a name exists exactly when `findByName` finds it. */
  lemma ExistsByNameIffFound(tags: map<int, TagRow>, name: string)
    ensures ExistsByName(tags, name) <==> FindByName(tags, name).Some?
  {
    if ExistsByName(tags, name) {
      var k :| k in tags && tags[k].name == name;
      assert name in StoredNames(tags);
    }
  }

  /** `findByNameIn`: the tags whose name is in `names`, each once. */
  function FindByNameIn(tags: map<int, TagRow>, names: set<string>): (r: seq<TagRow>)
    ensures forall t :: t in r <==> InTable(tags, t) && t.name in names
  {
    SelectContains(tags, (t: TagRow) => t.name in names);
    Select(tags, (t: TagRow) => t.name in names)
  }

  /** The condition of `findUnusedTags`: `SIZE(t.documents) = 0`. */
  function Unused(documents: map<int, DocRow>): TagRow -> bool {
    (t: TagRow) => !InUse(documents, t.id)
  }

  /** `findUnusedTags`: the tags no document carries. */
  function FindUnusedTags(tags: map<int, TagRow>, documents: map<int, DocRow>): (r: seq<TagRow>)
    ensures forall t :: t in r <==> InTable(tags, t) && !InUse(documents, t.id)
  {
    SelectContains(tags, Unused(documents));
    Select(tags, Unused(documents))
  }

  /** `findByNameContainingIgnoreCase`: despite its name, the query matches the name
      against the argument between two `%` wildcards without lower-casing either side,
      so the match is case-sensitive (and a `%` or `_` in the argument is a wildcard). */
  function FindByNameContainingIgnoreCase(tags: map<int, TagRow>, name: string): (r: seq<TagRow>)
    ensures forall t :: t in r <==> InTable(tags, t) && LikeContains(t.name, name)
  {
    SelectContains(tags, (t: TagRow) => LikeContains(t.name, name));
    Select(tags, (t: TagRow) => LikeContains(t.name, name))
  }

  /** Without wildcards in the argument, the name search is a case-sensitive substring match. */
  lemma NameSearchIsSubstring(tags: map<int, TagRow>, name: string)
    requires !HasWildcard(name)
    ensures forall t :: t in FindByNameContainingIgnoreCase(tags, name) <==> InTable(tags, t) && Contains(t.name, name)
  {
    forall t: TagRow ensures LikeContains(t.name, name) <==> Contains(t.name, name) {
      LikeContainsLiteral(t.name, name);
    }
  }

  /** `findTagsByUserId`: the tags carried by at least one document of `userId`. */
  function FindTagsByUserId(tags: map<int, TagRow>, documents: map<int, DocRow>, userId: int): (r: seq<TagRow>)
    ensures forall t :: t in r <==> InTable(tags, t) && UsedBy(documents, userId, t.id)
  {
    SelectContains(tags, (t: TagRow) => UsedBy(documents, userId, t.id));
    Select(tags, (t: TagRow) => UsedBy(documents, userId, t.id))
  }

  /** The tags stored under a name of `names`, as a set. */
  function TagsNamed(tags: map<int, TagRow>, names: set<string>): (r: set<TagRow>)
    ensures forall t :: t in r <==> InTable(tags, t) && t.name in names
  {
    set k | k in tags && tags[k].name in names :: tags[k]
  }

  /** The condition `SIZE(t.documents) > 0`. */
  function Used(documents: map<int, DocRow>): TagRow -> bool {
    (t: TagRow) => InUse(documents, t.id)
  }

  /** The unused tags and the tags in use partition the table, so `count()` minus the
      size of `findUnusedTags()` is the number of tags some document carries. */
  lemma UsedPlusUnused(tags: map<int, TagRow>, documents: map<int, DocRow>)
    ensures |FindUnusedTags(tags, documents)| + |Select(tags, Used(documents))| == |tags|
  {
    SelectPartition(tags, Unused(documents), Used(documents));
  }
}
