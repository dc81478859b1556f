/** The persisted state: the `users`, `documents`, `tags` tables (with the
    `document_tags` join table folded into each document row) as maps from
    primary key to row, and the identity counter of each table. */
module Store {
  import opened Base

  datatype Role = RoleUser | RoleAdmin

  /** The columns of a `users` row other than its key. */
  datatype UserFields = UserFields(
    username: string,
    email: string,
    password: string,
    firstName: Option<string>,
    lastName: Option<string>,
    enabled: bool,
    accountNonExpired: bool,
    accountNonLocked: bool,
    credentialsNonExpired: bool,
    roles: set<Role>)

  datatype UserRow = UserRow(id: int, fields: UserFields)

  /** The seven scalar columns of a `documents` row; `documentDate` is a day number. */
  datatype DocFields = DocFields(
    title: string,
    category: Option<string>,
    filePath: Option<string>,
    fileType: Option<string>,
    fileSize: Option<int>,
    extractedText: Option<string>,
    documentDate: Option<int>)

  /** A `documents` row with its owner (`user_id`), its tags (the `document_tags` rows
      that name it) and its creation timestamp. */
  datatype DocRow = DocRow(id: int, fields: DocFields, ownerId: int, tagIds: set<int>, createdAt: int)

  datatype TagRow = TagRow(id: int, name: string)

  predicate UsersKeyed(users: map<int, UserRow>, next: int) {
    forall k :: k in users ==> users[k].id == k && 1 <= k < next
  }

  predicate DocumentsKeyed(documents: map<int, DocRow>, next: int) {
    forall k :: k in documents ==> documents[k].id == k && 1 <= k < next
  }

  predicate TagsKeyed(tags: map<int, TagRow>, next: int) {
    forall k :: k in tags ==> tags[k].id == k && 1 <= k < next
  }

  /** The unique constraint on `users.username`. */
  predicate UniqueUsernames(users: map<int, UserRow>) {
    forall a, b :: a in users && b in users && users[a].fields.username == users[b].fields.username ==> a == b
  }

  /** The unique constraint on `users.email`. */
  predicate UniqueEmails(users: map<int, UserRow>) {
    forall a, b :: a in users && b in users && users[a].fields.email == users[b].fields.email ==> a == b
  }

  /** The unique constraint on `tags.name`. */
  predicate UniqueTagNames(tags: map<int, TagRow>) {
    forall a, b :: a in tags && b in tags && tags[a].name == tags[b].name ==> a == b
  }

  /** The foreign keys `documents.user_id` and `document_tags.tag_id`. */
  predicate DocumentRefs(documents: map<int, DocRow>, users: map<int, UserRow>, tags: map<int, TagRow>) {
    forall k :: k in documents ==> documents[k].ownerId in users && documents[k].tagIds <= tags.Keys
  }

  /** Some key of the table holds `row`. */
  predicate InTable<R(==)>(m: map<int, R>, row: R) {
    exists k :: k in m && m[k] == row
  }

  /** The names held by the tag table. */
  function StoredNames(tags: map<int, TagRow>): (names: set<string>)
    ensures forall k :: k in tags ==> tags[k].name in names
    ensures forall n :: n in names ==> exists k :: k in tags && tags[k].name == n
  {
    set k | k in tags :: tags[k].name
  }

  /** Keys match row ids and lie below the identity counters; the unique and
      foreign-key constraints hold. */
  ghost predicate Consistent(users: map<int, UserRow>, documents: map<int, DocRow>, tags: map<int, TagRow>,
                             nextUserId: int, nextDocumentId: int, nextTagId: int) {
    1 <= nextUserId && 1 <= nextDocumentId && 1 <= nextTagId
    && UsersKeyed(users, nextUserId) && DocumentsKeyed(documents, nextDocumentId) && TagsKeyed(tags, nextTagId)
    && UniqueUsernames(users) && UniqueEmails(users) && UniqueTagNames(tags)
    && DocumentRefs(documents, users, tags)
  }

  /** A row under the next identity keeps the tables consistent when its name is new. */
  lemma InsertTagConsistent(users: map<int, UserRow>, documents: map<int, DocRow>, tags: map<int, TagRow>,
                            nu: int, nd: int, nt: int, name: string)
    requires Consistent(users, documents, tags, nu, nd, nt)
    requires name !in StoredNames(tags)
    ensures Consistent(users, documents, tags[nt := TagRow(nt, name)], nu, nd, nt + 1)
    ensures StoredNames(tags[nt := TagRow(nt, name)]) == StoredNames(tags) + {name}
  {
    var after := tags[nt := TagRow(nt, name)];
    forall n | n in StoredNames(after)
      ensures n in StoredNames(tags) + {name}
    {
      var k :| k in after && after[k].name == n;
      if k != nt {
        assert tags[k].name == n;
      }
    }
    forall n | n in StoredNames(tags)
      ensures n in StoredNames(after)
    {
      var k :| k in tags && tags[k].name == n;
      assert after[k] == tags[k];
    }
    assert after[nt].name == name;
  }

  /** No stored user holds this username or this email. */
  predicate FreshIdentity(users: map<int, UserRow>, f: UserFields) {
    forall k :: k in users ==> users[k].fields.username != f.username && users[k].fields.email != f.email
  }

  /** No user other than `id` holds this username or this email. */
  predicate FreeFor(users: map<int, UserRow>, id: int, f: UserFields) {
    forall k :: k in users && k != id ==> users[k].fields.username != f.username && users[k].fields.email != f.email
  }

  /** The keys of the documents `userId` owns. */
  function OwnedKeys(documents: map<int, DocRow>, userId: int): (ks: set<int>)
    ensures forall k :: k in ks <==> k in documents && documents[k].ownerId == userId
  {
    set k | k in documents && documents[k].ownerId == userId
  }

  /** Replacing a user row by one whose username and email no other user holds keeps the
      tables consistent. */
  lemma PutUserConsistent(users: map<int, UserRow>, documents: map<int, DocRow>, tags: map<int, TagRow>,
                          nu: int, nd: int, nt: int, row: UserRow)
    requires Consistent(users, documents, tags, nu, nd, nt)
    requires 1 <= row.id < nu && FreeFor(users, row.id, row.fields)
    ensures Consistent(users[row.id := row], documents, tags, nu, nd, nt)
  {
  }

  /** Deleting a user together with the documents it owns keeps the tables consistent. */
  lemma DeleteUserConsistent(users: map<int, UserRow>, documents: map<int, DocRow>, tags: map<int, TagRow>,
                             nu: int, nd: int, nt: int, id: int)
    requires Consistent(users, documents, tags, nu, nd, nt)
    ensures Consistent(users - {id}, documents - OwnedKeys(documents, id), tags, nu, nd, nt)
  {
  }

  /** Putting a document row whose owner and tags are stored keeps the tables consistent. */
  lemma PutDocumentConsistent(users: map<int, UserRow>, documents: map<int, DocRow>, tags: map<int, TagRow>,
                              nu: int, nd: int, nt: int, row: DocRow)
    requires Consistent(users, documents, tags, nu, nd, nt)
    requires 1 <= row.id < nd && row.ownerId in users && row.tagIds <= tags.Keys
    ensures Consistent(users, documents[row.id := row], tags, nu, nd, nt)
  {
  }

  class Database {
    var users: map<int, UserRow>
    var documents: map<int, DocRow>
    var tags: map<int, TagRow>
    var nextUserId: int
    var nextDocumentId: int
    var nextTagId: int

    /** The tables are `Consistent`. */
    ghost predicate Valid()
      reads this
    {
      Consistent(users, documents, tags, nextUserId, nextDocumentId, nextTagId)
    }

    /** An empty schema; identities start at 1. */
    constructor ()
      ensures Valid()
      ensures users == map[] && documents == map[] && tags == map[]
      ensures nextUserId == 1 && nextDocumentId == 1 && nextTagId == 1
    {
      users, documents, tags := map[], map[], map[];
      nextUserId, nextDocumentId, nextTagId := 1, 1, 1;
    }

    /** `save` of a new tag: the row gets the next identity; the unique constraint on
        `tags.name` admits only a name the table does not hold. */
    method InsertTag(name: string) returns (row: TagRow)
      requires Valid()
      requires name !in StoredNames(tags)
      modifies this`tags, this`nextTagId
      ensures Valid()
      ensures row == TagRow(old(nextTagId), name) && row.id !in old(tags)
      ensures tags == old(tags)[row.id := row] && nextTagId == old(nextTagId) + 1
      ensures StoredNames(tags) == StoredNames(old(tags)) + {name}
    {
      InsertTagConsistent(users, documents, tags, nextUserId, nextDocumentId, nextTagId, name);
      row := TagRow(nextTagId, name);
      tags := tags[row.id := row];
      nextTagId := nextTagId + 1;
    }
    /** `save` of a new user: the row gets the next identity; the unique constraints on
        `users.username` and `users.email` admit only values no row holds. */
    method InsertUser(f: UserFields) returns (row: UserRow)
      requires Valid()
      requires FreshIdentity(users, f)
      modifies this`users, this`nextUserId
      ensures Valid()
      ensures row == UserRow(old(nextUserId), f) && row.id !in old(users)
      ensures users == old(users)[row.id := row] && nextUserId == old(nextUserId) + 1
    {
      PutUserConsistent(users, documents, tags, nextUserId + 1, nextDocumentId, nextTagId, UserRow(nextUserId, f));
      row := UserRow(nextUserId, f);
      users := users[row.id := row];
      nextUserId := nextUserId + 1;
    }

    /** `save` of a changed user row. */
    method PutUser(row: UserRow)
      requires Valid()
      requires row.id in users && FreeFor(users, row.id, row.fields)
      modifies this`users
      ensures Valid()
      ensures users == old(users)[row.id := row]
    {
      PutUserConsistent(users, documents, tags, nextUserId, nextDocumentId, nextTagId, row);
      users := users[row.id := row];
    }

    /** `deleteById` of a user: `CascadeType.ALL` on `User.documents` deletes its documents too. */
    method DeleteUser(id: int)
      requires Valid()
      modifies this`users, this`documents
      ensures Valid()
      ensures users == old(users) - {id}
      ensures documents == old(documents) - OwnedKeys(old(documents), id)
    {
      DeleteUserConsistent(users, documents, tags, nextUserId, nextDocumentId, nextTagId, id);
      documents := documents - OwnedKeys(documents, id);
      users := users - {id};
    }

    /** `save` of a new document: the row gets the next identity and the creation timestamp `now`. */
    method InsertDocument(fields: DocFields, ownerId: int, tagIds: set<int>, now: int) returns (row: DocRow)
      requires Valid()
      requires ownerId in users && tagIds <= tags.Keys
      modifies this`documents, this`nextDocumentId
      ensures Valid()
      ensures row == DocRow(old(nextDocumentId), fields, ownerId, tagIds, now) && row.id !in old(documents)
      ensures documents == old(documents)[row.id := row] && nextDocumentId == old(nextDocumentId) + 1
    {
      row := DocRow(nextDocumentId, fields, ownerId, tagIds, now);
      PutDocumentConsistent(users, documents, tags, nextUserId, nextDocumentId + 1, nextTagId, row);
      documents := documents[row.id := row];
      nextDocumentId := nextDocumentId + 1;
    }

    /** `save` of a changed document row. */
    method PutDocument(row: DocRow)
      requires Valid()
      requires row.id in documents && row.ownerId in users && row.tagIds <= tags.Keys
      modifies this`documents
      ensures Valid()
      ensures documents == old(documents)[row.id := row]
    {
      PutDocumentConsistent(users, documents, tags, nextUserId, nextDocumentId, nextTagId, row);
      documents := documents[row.id := row];
    }

    /** `deleteById` of a document; its `document_tags` rows go with it. */
    method DeleteDocument(id: int)
      requires Valid()
      modifies this`documents
      ensures Valid()
      ensures documents == old(documents) - {id}
    {
      documents := documents - {id};
    }
  }
}
