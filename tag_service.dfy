/** `TagService`: name normalisation, the find-or-create reconciler that turns
    free-text tag names into stored tags, and the updates of the tag table. */
module TagService {
  import opened Base
  import opened Text
  import opened Store
  import opened Query
  import opened TagRepository

  /** A tag name, lower-cased and then trimmed. */
  function Normalize(name: string): (r: string)
    ensures IsTrimmed(r)
    ensures forall i :: 0 <= i < |r| ==> !IsUpper(r[i])
    ensures |r| <= |name|
  {
    var lower := Lower(name);
    var r := Trim(lower);
    assert forall i :: 0 <= i < |r| ==> r[i] == lower[LeadingTrimmable(lower) + i];
    r
  }

  /** A normalised name is its own normalisation. */
  lemma NormalizeIdempotent(name: string)
    ensures Normalize(Normalize(name)) == Normalize(name)
  {
    var n := Normalize(name);
    assert Lower(n) == n;
    TrimIdempotent(n);
  }

  /** The normalised names of a request, empty results dropped. */
  function NormalizedNames(names: set<string>): (r: set<string>)
    ensures forall n :: n in names && Normalize(n) != [] ==> Normalize(n) in r
    ensures forall m :: m in r ==> m != [] && exists n :: n in names && Normalize(n) == m
  {
    set n | n in names && Normalize(n) != [] :: Normalize(n)
  }

  /** Every name `createOrGetTags` resolves is non-empty, trimmed, lower-case and normalised. */
  lemma NormalizedNamesAreNormal(names: set<string>)
    ensures forall m :: m in NormalizedNames(names) ==>
              m != [] && IsTrimmed(m) && Normalize(m) == m && !IsBlank(m)
  {
    forall m | m in NormalizedNames(names)
      ensures m != [] && IsTrimmed(m) && Normalize(m) == m && !IsBlank(m)
    {
      var n :| n in names && Normalize(n) == m;
      NormalizeIdempotent(n);
      TrimmedNonEmptyIsNotBlank(m);
    }
  }

  /** The names `createOrGetTags(tagNames)` resolves: none for a null set. */
  function Requested(tagNames: Option<set<string>>): set<string> {
    if tagNames.None? then {} else NormalizedNames(tagNames.value)
  }

  /** What `saveAll` of one new tag per name in `newNames` leaves behind: the old rows
      untouched, and the new keys holding exactly the `saved` rows, one per name. */
  ghost predicate Extends(before: map<int, TagRow>, after: map<int, TagRow>, saved: set<TagRow>, newNames: set<string>) {
    (forall k :: k in before ==> k in after && after[k] == before[k])
    && (forall k :: k in after && k !in before ==> after[k] in saved)
    && (forall t :: t in saved ==> t.id in after && after[t.id] == t && t.id !in before && t.name in newNames)
    && (forall n :: n in newNames ==> exists t :: t in saved && t.name == n)
  }

  /** Saving one more row under a key above every stored key extends the table by that row. */
  lemma ExtendsStep(before: map<int, TagRow>, after: map<int, TagRow>, saved: set<TagRow>, done: set<string>,
                    next: int, name: string)
    requires Extends(before, after, saved, done)
    requires TagsKeyed(after, next)
    ensures Extends(before, after[next := TagRow(next, name)], saved + {TagRow(next, name)}, done + {name})
  {
    var row := TagRow(next, name);
    forall n | n in done + {name}
      ensures exists t :: t in saved + {row} && t.name == n
    {
      if n != name {
        var t :| t in saved && t.name == n;
        assert t in saved + {row};
      } else {
        assert row in saved + {row};
      }
    }
  }

  /** `saveAll` of one new tag per name: each name gets a fresh key. */
  method SaveAll(db: Database, names: set<string>) returns (saved: set<TagRow>)
    requires db.Valid()
    requires names !! StoredNames(db.tags)
    modifies db`tags, db`nextTagId
    ensures db.Valid()
    ensures Extends(old(db.tags), db.tags, saved, names)
  {
    ghost var before := db.tags;
    saved := {};
    var rest := names;
    while rest != {}
      invariant db.Valid()
      invariant rest <= names
      invariant Extends(before, db.tags, saved, names - rest)
      invariant rest !! StoredNames(db.tags)
      decreases rest
    {
      var n :| n in rest;
      SaveStep(before, db.tags, saved, names, rest, db.nextTagId, n);
      var row := db.InsertTag(n);
      saved := saved + {row};
      rest := rest - {n};
    }
    assert names - rest == names;
  }

  /** One turn of `SaveAll`: saving the next name under the next key keeps the table an
      extension of the starting one by the names done so far. */
  lemma SaveStep(before: map<int, TagRow>, after: map<int, TagRow>, saved: set<TagRow>,
                 names: set<string>, rest: set<string>, next: int, n: string)
    requires Extends(before, after, saved, names - rest)
    requires TagsKeyed(after, next)
    requires n in rest && rest <= names
    ensures Extends(before, after[next := TagRow(next, n)], saved + {TagRow(next, n)}, names - (rest - {n}))
  {
    ExtendsStep(before, after, saved, names - rest, next, n);
    assert names - (rest - {n}) == (names - rest) + {n};
  }

  /** The names `findByNameIn` finds, subtracted from the request, are the names the
      table does not hold. */
  lemma MissingNames(tags: map<int, TagRow>, names: set<string>, existing: seq<TagRow>)
    requires forall t :: t in existing <==> InTable(tags, t) && t.name in names
    ensures names - (set t | t in existing :: t.name) == names - StoredNames(tags)
  {
    var existingNames := set t | t in existing :: t.name;
    forall n | n in names
      ensures n in existingNames <==> n in StoredNames(tags)
    {
      if n in StoredNames(tags) {
        var k :| k in tags && tags[k].name == n;
        assert tags[k] in existing;
      }
    }
  }

  /** What resolving `names` against the tag table promises: `r` holds exactly the rows now
      named in the request, one stored row per name; the old rows are untouched; every
      new key holds a requested name the table lacked; the table's names grew by the request. */
  ghost predicate Resolves(before: map<int, TagRow>, after: map<int, TagRow>, names: set<string>, r: set<TagRow>) {
    r == TagsNamed(after, names)
    && (forall t :: t in r ==> t.id in after && after[t.id] == t)
    && (forall n :: n in names ==> exists t :: t in r && t.name == n)
    && (forall a, b :: a in r && b in r && a.name == b.name ==> a == b)
    && (forall k :: k in before ==> k in after && after[k] == before[k])
    && (forall k :: k in after && k !in before ==> after[k].name in names - StoredNames(before))
    && StoredNames(after) == StoredNames(before) + names
  }

  /** When every requested name is already stored, resolving it leaves the table as it was. */
  lemma ResolvesStored(before: map<int, TagRow>, after: map<int, TagRow>, names: set<string>, r: set<TagRow>)
    requires Resolves(before, after, names, r)
    requires names <= StoredNames(before)
    ensures after == before
  {
    NoNewKeys(before, after, names);
  }

  lemma NoNewKeys(before: map<int, TagRow>, after: map<int, TagRow>, names: set<string>)
    requires forall k :: k in before ==> k in after && after[k] == before[k]
    requires forall k :: k in after && k !in before ==> after[k].name in names - StoredNames(before)
    requires names <= StoredNames(before)
    ensures after == before
  {
    assert names - StoredNames(before) == {};
    assert forall k :: k in after <==> k in before;
    assert after.Keys == before.Keys;
    assert forall k :: k in after ==> after[k] == before[k];
  }

  /** The reused rows plus the saved rows are exactly the rows now named in the request. */
  lemma ReconciledRows(before: map<int, TagRow>, after: map<int, TagRow>, names: set<string>,
                       existing: seq<TagRow>, saved: set<TagRow>)
    requires forall t :: t in existing <==> InTable(before, t) && t.name in names
    requires Extends(before, after, saved, names - StoredNames(before))
    ensures (set t | t in existing) + saved == TagsNamed(after, names)
  {
    var r := (set t | t in existing) + saved;
    forall t | t in r
      ensures InTable(after, t) && t.name in names
    {
      if t in existing {
        var k :| k in before && before[k] == t;
        assert after[k] == t;
      } else {
        assert after[t.id] == t;
      }
    }
    forall t | InTable(after, t) && t.name in names
      ensures t in r
    {
      var k :| k in after && after[k] == t;
      if k in before {
        assert InTable(before, t);
      }
    }
  }

  /** Saving one row per missing name grows the table's names by exactly the request. */
  lemma ReconciledNames(before: map<int, TagRow>, after: map<int, TagRow>, names: set<string>, saved: set<TagRow>)
    requires Extends(before, after, saved, names - StoredNames(before))
    ensures StoredNames(after) == StoredNames(before) + names
  {
    forall n | n in StoredNames(after)
      ensures n in StoredNames(before) + names
    {
      var k :| k in after && after[k].name == n;
      if k in before {
        assert before[k].name == n;
      }
    }
    forall n | n in names - StoredNames(before)
      ensures n in StoredNames(after)
    {
      var t :| t in saved && t.name == n;
      assert after[t.id].name == n;
    }
    forall n | n in StoredNames(before)
      ensures n in StoredNames(after)
    {
      var k :| k in before && before[k].name == n;
      assert after[k].name == n;
    }
  }

  /** The reused rows plus the saved rows resolve the request. */
  lemma Reconciled(before: map<int, TagRow>, after: map<int, TagRow>, next: int, names: set<string>,
                   existing: seq<TagRow>, saved: set<TagRow>)
    requires forall t :: t in existing <==> InTable(before, t) && t.name in names
    requires Extends(before, after, saved, names - StoredNames(before))
    requires TagsKeyed(after, next) && UniqueTagNames(after)
    ensures Resolves(before, after, names, (set t | t in existing) + saved)
  {
    ReconciledRows(before, after, names, existing, saved);
    ReconciledNames(before, after, names, saved);
    TagsNamedOnePerName(after, next, names);
  }

  /** Under the unique-name constraint, the rows named in a request are stored rows, one
      per name, and every requested name the table holds has its row among them. */
  lemma TagsNamedOnePerName(tags: map<int, TagRow>, next: int, names: set<string>)
    requires TagsKeyed(tags, next) && UniqueTagNames(tags)
    ensures forall t :: t in TagsNamed(tags, names) ==> t.id in tags && tags[t.id] == t
    ensures forall a, b :: a in TagsNamed(tags, names) && b in TagsNamed(tags, names) && a.name == b.name ==> a == b
    ensures forall n :: n in names && n in StoredNames(tags) ==> exists t :: t in TagsNamed(tags, names) && t.name == n
  {
    forall t | t in TagsNamed(tags, names)
      ensures t.id in tags && tags[t.id] == t
    {
      var k :| k in tags && tags[k] == t;
    }
    forall n | n in names && n in StoredNames(tags)
      ensures exists t :: t in TagsNamed(tags, names) && t.name == n
    {
      var k :| k in tags && tags[k].name == n;
      assert tags[k] in TagsNamed(tags, names);
    }
  }

  /** The lookup-and-insert part of `createOrGetTags`: reuse the stored tags named in
      `names` and save one new tag for every other name. */
  method FindOrCreate(db: Database, names: set<string>) returns (r: set<TagRow>)
    requires db.Valid()
    modifies db`tags, db`nextTagId
    ensures db.Valid()
    ensures Resolves(old(db.tags), db.tags, names, r)
    ensures names <= StoredNames(old(db.tags)) ==> db.nextTagId == old(db.nextTagId)
  {
    ghost var before := db.tags;
    var existing := FindByNameIn(db.tags, names);
    var existingNames := set t | t in existing :: t.name;
    var newNames := names - existingNames;
    MissingNames(db.tags, names, existing);
    var saved: set<TagRow> := {};
    if newNames != {} {
      saved := SaveAll(db, newNames);
    }
    r := (set t | t in existing) + saved;
    Reconciled(before, db.tags, db.nextTagId, names, existing, saved);
  }

  /** `createOrGetTags`: one stored tag per distinct normalised name, inserting only the
      names the table does not hold yet. */
  method CreateOrGetTags(db: Database, tagNames: Option<set<string>>) returns (r: set<TagRow>)
    requires db.Valid()
    modifies db`tags, db`nextTagId
    ensures db.Valid()
    ensures Resolves(old(db.tags), db.tags, Requested(tagNames), r)
    ensures Requested(tagNames) <= StoredNames(old(db.tags)) ==> db.nextTagId == old(db.nextTagId)
  {
    if tagNames.None? || tagNames.value == {} {
      return {};
    }
    var normalizedNames := NormalizedNames(tagNames.value);
    if normalizedNames == {} {
      return {};
    }
    r := FindOrCreate(db, normalizedNames);
  }

  /** Calling `createOrGetTags` a second time with the same names returns the same tags
      and writes nothing: the tag table and the key counter stay as the first call left
      them (`afterFirst`, `nextAfterFirst`). */
  method CreateOrGetTagsTwice(db: Database, tagNames: Option<set<string>>)
    returns (first: set<TagRow>, second: set<TagRow>, ghost afterFirst: map<int, TagRow>, ghost nextAfterFirst: int)
    requires db.Valid()
    modifies db`tags, db`nextTagId
    ensures db.Valid()
    ensures Resolves(old(db.tags), afterFirst, Requested(tagNames), first)
    ensures db.tags == afterFirst && db.nextTagId == nextAfterFirst
    ensures second == first
    ensures first == TagsNamed(db.tags, Requested(tagNames))
  {
    first := CreateOrGetTags(db, tagNames);
    afterFirst, nextAfterFirst := db.tags, db.nextTagId;
    second := CreateOrGetTags(db, tagNames);
    ResolvesStored(afterFirst, db.tags, Requested(tagNames), second);
  }

  /** `createTag`: store the normalised name, unless a tag already holds it. */
  method CreateTag(db: Database, tagName: string) returns (r: Result<TagRow>)
    requires db.Valid()
    modifies db`tags, db`nextTagId
    ensures db.Valid()
    ensures r.Failure? <==> Normalize(tagName) in StoredNames(old(db.tags))
    ensures r.Failure? ==> r.error == DuplicateResource("Tag", "name", NameKey(Normalize(tagName)))
    ensures r.Failure? ==> db.tags == old(db.tags) && db.nextTagId == old(db.nextTagId)
    ensures r.Success? ==> r.value.name == Normalize(tagName) && r.value.id !in old(db.tags)
    ensures r.Success? ==> db.tags == old(db.tags)[r.value.id := r.value]
  {
    var normalizedName := Normalize(tagName);
    if ExistsByName(db.tags, normalizedName) {
      return Failure(DuplicateResource("Tag", "name", NameKey(normalizedName)));
    }
    var row := db.InsertTag(normalizedName);
    r := Success(row);
  }

  /** `createOrGetTag`: the stored tag of the normalised name, inserted when missing. */
  method CreateOrGetTag(db: Database, tagName: string) returns (r: TagRow)
    requires db.Valid()
    modifies db`tags, db`nextTagId
    ensures db.Valid()
    ensures r.name == Normalize(tagName)
    ensures r.id in db.tags && db.tags[r.id] == r
    ensures Normalize(tagName) in StoredNames(old(db.tags)) ==>
              db.tags == old(db.tags) && db.nextTagId == old(db.nextTagId)
    ensures Normalize(tagName) !in StoredNames(old(db.tags)) ==>
              r.id !in old(db.tags) && db.tags == old(db.tags)[r.id := r]
  {
    var normalizedName := Normalize(tagName);
    var found := FindByName(db.tags, normalizedName);
    if found.Some? {
      var k :| k in db.tags && db.tags[k] == found.value;
      return found.value;
    }
    r := db.InsertTag(normalizedName);
  }

  /** `updateTag`: rename a tag to the normalised name; its own current name is allowed,
      a name another tag holds is not. */
  method UpdateTag(db: Database, id: int, newName: string) returns (r: Result<TagRow>)
    requires db.Valid()
    modifies db`tags
    ensures db.Valid()
    ensures id !in old(db.tags) ==> r == Failure(ResourceNotFound("Tag", "id", IdKey(id)))
    ensures id in old(db.tags) && old(db.tags)[id].name != Normalize(newName)
              && Normalize(newName) in StoredNames(old(db.tags)) ==>
              r == Failure(DuplicateResource("Tag", "name", NameKey(Normalize(newName))))
    ensures r.Failure? ==> db.tags == old(db.tags)
    ensures r.Success? <==> id in old(db.tags) && (old(db.tags)[id].name == Normalize(newName)
                                                   || Normalize(newName) !in StoredNames(old(db.tags)))
    ensures r.Success? ==> r.value == TagRow(id, Normalize(newName)) && db.tags == old(db.tags)[id := r.value]
  {
    var normalizedName := Normalize(newName);
    if id !in db.tags {
      return Failure(ResourceNotFound("Tag", "id", IdKey(id)));
    }
    var existingTag := db.tags[id];
    if existingTag.name != normalizedName && ExistsByName(db.tags, normalizedName) {
      return Failure(DuplicateResource("Tag", "name", NameKey(normalizedName)));
    }
    var savedTag := existingTag.(name := normalizedName);
    db.tags := db.tags[id := savedTag];
    r := Success(savedTag);
  }

  /** The keys of a list of rows. */
  function Ids(ts: seq<TagRow>): (ids: set<int>)
    ensures forall j :: 0 <= j < |ts| ==> ts[j].id in ids
    ensures forall k :: k in ids ==> exists j :: 0 <= j < |ts| && ts[j].id == k
  {
    set j | 0 <= j < |ts| :: ts[j].id
  }

  /** `tagRepository.deleteAll(ts)`: delete the row of each listed tag. */
  method DeleteAll(db: Database, ts: seq<TagRow>)
    modifies db`tags
    ensures db.tags == old(db.tags) - Ids(ts)
  {
    for i := 0 to |ts|
      invariant db.tags == old(db.tags) - Ids(ts[..i])
    {
      assert Ids(ts[..i + 1]) == Ids(ts[..i]) + {ts[i].id} by {
        assert forall j :: 0 <= j < i ==> ts[..i + 1][j] == ts[..i][j];
      }
      db.tags := db.tags - {ts[i].id};
    }
    assert ts[..|ts|] == ts;
  }

  /** The keys of the rows `findUnusedTags` returns are exactly the stored keys no
      document carries, so deleting them keeps the keys in use and only those, and keeps
      the tables consistent. */
  lemma RemoveUnused(users: map<int, UserRow>, documents: map<int, DocRow>, tags: map<int, TagRow>,
                     after: map<int, TagRow>, nu: int, nd: int, nt: int)
    requires Consistent(users, documents, tags, nu, nd, nt)
    requires after == tags - Ids(FindUnusedTags(tags, documents))
    ensures forall k :: k in after <==> k in tags && InUse(documents, k)
    ensures forall k :: k in after ==> after[k] == tags[k]
    ensures Consistent(users, documents, after, nu, nd, nt)
  {
    var unusedTags := FindUnusedTags(tags, documents);
    var removed := Ids(unusedTags);
    forall k | k in tags && !InUse(documents, k)
      ensures k in removed
    {
      var t := tags[k];
      assert t in unusedTags;
      var j :| 0 <= j < |unusedTags| && unusedTags[j] == t;
    }
    forall k | k in removed
      ensures !InUse(documents, k)
    {
      var j :| 0 <= j < |unusedTags| && unusedTags[j].id == k;
      assert unusedTags[j] in unusedTags;
    }
    forall k | k in documents
      ensures documents[k].tagIds <= (tags - removed).Keys
    {
      forall id | id in documents[k].tagIds
        ensures id in (tags - removed).Keys
      {
        assert InUse(documents, id);
      }
    }
  }

  /** `deleteUnusedTags`: delete every tag that no document carries, and nothing else. */
  method DeleteUnusedTags(db: Database)
    requires db.Valid()
    modifies db`tags
    ensures db.Valid()
    ensures forall k :: k in db.tags <==> k in old(db.tags) && InUse(db.documents, k)
    ensures forall k :: k in db.tags ==> db.tags[k] == old(db.tags[k])
  {
    ghost var before := db.tags;
    var unusedTags := FindUnusedTags(db.tags, db.documents);
    DeleteIfAny(db, unusedTags);
    RemoveUnused(db.users, db.documents, before, db.tags, db.nextUserId, db.nextDocumentId, db.nextTagId);
  }

  /** The guarded call of `deleteUnusedTags`: `deleteAll` only when the list is not empty. */
  method DeleteIfAny(db: Database, ts: seq<TagRow>)
    modifies db`tags
    ensures db.tags == old(db.tags) - Ids(ts)
  {
    if |ts| > 0 {
      DeleteAll(db, ts);
    } else {
      assert Ids(ts) == {};
      assert db.tags == db.tags - {};
    }
  }

  /** The counters of `getTagStats`. */
  datatype TagStats = TagStats(totalTags: int, usedTags: int, unusedTags: int)

  /** `getTagStats`: `count()`, the size of `findUnusedTags()`, and their difference,
      which is the number of tags some document carries. */
  function GetTagStats(tags: map<int, TagRow>, documents: map<int, DocRow>): (r: TagStats)
    ensures r.totalTags == |tags|
    ensures r.unusedTags == |FindUnusedTags(tags, documents)|
    ensures r.usedTags == |Select(tags, Used(documents))|
    ensures 0 <= r.usedTags <= r.totalTags && r.usedTags + r.unusedTags == r.totalTags
  {
    UsedPlusUnused(tags, documents);
    var totalTags := |tags|;
    var unusedTags := |FindUnusedTags(tags, documents)|;
    TagStats(totalTags, totalTags - unusedTags, unusedTags)
  }
}
