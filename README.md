# docmanager: a Dafny model of the document-management backend

docmanager is a Spring Boot REST backend. Users own documents and label them with
free-text tags. An uploaded file goes into an upload directory. Requests are
authorised by a table of path rules, and every single-document endpoint also
checks that the caller owns the document or is an admin.

This project models the core of that backend and proves what its services,
repositories, entities, mappers and security table promise.

- **Persisted state.** The tables are the `Database` class (`store.dfy`). Its
  fields are `map<int, Row>` tables for users, documents and tags, plus one
  identity counter per table. Its invariant `Valid()` bundles:
  - keys below the counter;
  - unique usernames, e-mails and tag names;
  - every document row pointing at a stored owner and at stored tags.

  Every service method that writes keeps `Valid()`.
- **Repository queries.** The queries of `TagRepository` and `DocumentRepository`
  are functions of those tables. Each one states exactly which rows it returns.
  The ordering of `findByUserIdOrderByCreatedAtDesc` is stated as a permutation
  plus newest-first order.
- **Services.** `TagService`, `DocumentService`, `UserService`, `AuthService` and
  `FileStorageService` are methods over the `Database`, or over an
  `UploadDirectory` object holding the stored file names. Their error paths are
  `Result` failures carrying the exception the code throws.
- **Entity helpers.** The JPA entities `User`, `Document` and `Tag` are heap
  classes. Their relationship helpers (`addTag`, `setUser`, `clearDocuments`, ...)
  are methods with `modifies` frames. The two mappers convert these objects to and
  from their transfer objects.
- **Controller.** `DocumentController` is modelled as the owner-or-admin gate in
  front of the service calls, including the tag-parameter parser of the upload
  endpoint.
- **Security table.** `SecurityConfig.securityFilterChain` is an ordered rule
  table with first-match semantics. Lemmas state what each kind of request needs.

The central property is the tag reconciler `createOrGetTags`
(`TagService.CreateOrGetTags`):
- it returns exactly one stored tag per distinct non-empty normalised name;
- it inserts only the names that were missing;
- it leaves every existing row as it was;
- it keeps tag names unique.

A second call with the same names returns the same tags and leaves the tag table
and its key counter exactly as the first call left them
(`TagService.CreateOrGetTagsTwice`).

Outside effects are parameters, and each has a stated assumption:
- **Clock:** `now`.
- **Random file identifier:** `uniqueId`.
- **File-system outcomes:** `copyFails`, `ioError`, `Probe`.
- **BCrypt encoder and JWT provider:** values holding functions. BCrypt's
  promise that a password matches its own encoding is the `Sound` condition.
- **Authentication manager:** an `Authentication` outcome.

The snapshot of the source is not self-consistent in a few places, and the model
follows the code that uses the entities:
- `Tag` carries no `@Builder`, yet `TagService` and `DocumentMapper` build tags
  with `Tag.builder()`. The model gives such a tag its name, no id and an empty
  document set.
- `User` declares no password, role or account-flag fields, yet `AuthService`
  and the security code read and set them. The model's user row holds them.
- `User.builder().id(...)` in `DocumentMapper` names a field of `BaseEntity`,
  which `User`'s `@Builder` does not cover. The model gives the owner built there
  only its id.
- `DocumentMapper.toEntityWithoutUser` is called by `createDocument` and
  `uploadDocument` but is not defined anywhere. The model assumes it copies the
  seven request columns and sets no owner, no id and no tags, which is what
  `DocumentController.Create` and `DocumentController.Upload` take as their input.

## Model

| member | source | states |
|---|---|---|
| Text.SplitJoined | src/main/java/com/app/docmanager/controller/DocumentController.java:106 | the raw pieces between separators: a separator-joined list of separator-free pieces splits back into them |
| Text.StringSplit | src/main/java/com/app/docmanager/controller/DocumentController.java:106 | `String.split`: the whole string when there is no separator, else the raw pieces with the trailing empty ones removed; no piece holds the separator |
| Text.StringSplitJoined | src/main/java/com/app/docmanager/controller/DocumentController.java:106 | separator-free pieces whose last one is non-empty (or that are a single piece) come back from their joined form through `String.split` |
| Text.LikeAll | src/main/java/com/app/docmanager/repository/DocumentRepository.java:28 | the pattern `%` matches every string |
| Text.LikePercentPrefix | src/main/java/com/app/docmanager/repository/DocumentRepository.java:28 | a leading `%` matches exactly when the rest of the pattern matches some suffix |
| Text.LikeLiteralPrefix | src/main/java/com/app/docmanager/repository/DocumentRepository.java:28 | a wildcard-free pattern followed by `%` matches exactly the strings it begins |
| Text.LikeContainsLiteral | src/main/java/com/app/docmanager/repository/TagRepository.java:34-35 | for a needle without `%` or `_`, the pattern `%needle%` matches exactly the strings containing the needle |
| Text.LikeContainsIgnoreCaseLiteral | src/main/java/com/app/docmanager/repository/DocumentRepository.java:34 | for a query without `%` or `_`, the lower-cased `LIKE` match is case-insensitive containment |
| Text.LikeUnderscoreMatchesAny | src/main/java/com/app/docmanager/repository/DocumentRepository.java:34 | with a `_` in the query the two differ: "my_file" matches "myXfile" as a pattern but is not contained in it |
| Text.TrimLowerCommute | src/main/java/com/app/docmanager/service/TagService.java:83 | trimming and lower-casing commute, so either order gives the same normal form |
| Store.Database.constructor | src/main/java/com/app/docmanager/entity/BaseEntity.java:18-21 | an empty database, every identity counter at 1, satisfies the invariant |
| Store.Database.InsertTag | src/main/java/com/app/docmanager/entity/Tag.java:21-25 | saving a tag whose name is not yet stored adds one row under a fresh key, adds exactly that name, and keeps the table invariant (unique names) |
| Store.Database.DeleteUser | src/main/java/com/app/docmanager/entity/User.java:44-46 | deleting a user also deletes exactly the documents the user owns (cascade), and the invariant holds afterwards |
| TagRepository.FindAll | src/main/java/com/app/docmanager/service/TagService.java:26-28 | returns exactly the stored tag rows |
| TagRepository.FindByName | src/main/java/com/app/docmanager/repository/TagRepository.java:18 | finds a row exactly when some stored tag has that name; with unique names it is that tag |
| TagRepository.ExistsByName | src/main/java/com/app/docmanager/repository/TagRepository.java:20 | a name exists exactly when it is among the stored tag names |
| TagRepository.ExistsByNameIffFound | src/main/java/com/app/docmanager/repository/TagRepository.java:18-20 | `existsByName` holds exactly when `findByName` finds a tag |
| TagRepository.FindByNameIn | src/main/java/com/app/docmanager/repository/TagRepository.java:22 | returns exactly the stored tags whose name is in the given set |
| TagRepository.FindUnusedTags | src/main/java/com/app/docmanager/repository/TagRepository.java:40-41 | returns exactly the stored tags that no document carries |
| TagRepository.FindByNameContainingIgnoreCase | src/main/java/com/app/docmanager/repository/TagRepository.java:34-35 | returns exactly the tags whose name matches the `LIKE` pattern `%name%`, case-sensitively as the query text is written, with `%` and `_` in the argument acting as wildcards |
| TagRepository.NameSearchIsSubstring | src/main/java/com/app/docmanager/repository/TagRepository.java:34-35 | for an argument without wildcards, the name search returns exactly the tags whose name contains it |
| TagRepository.FindTagsByUserId | src/main/java/com/app/docmanager/repository/TagRepository.java:37-38 | returns exactly the tags carried by at least one document of the user |
| TagRepository.TagsNamed | src/main/java/com/app/docmanager/service/TagService.java:92-111 | the set of stored tags named in a request: a tag is in it exactly when it is stored and its name is requested |
| TagRepository.UsedPlusUnused | src/main/java/com/app/docmanager/service/TagService.java:165-174 | unused tags plus tags in use is the number of tags, so `usedTags = total - unused` counts the tags in use |
| TagService.Normalize | src/main/java/com/app/docmanager/service/TagService.java:48 | the normal form of a name is trimmed, has no upper-case letter and is no longer than the name |
| TagService.NormalizeIdempotent | src/main/java/com/app/docmanager/service/TagService.java:83 | normalising a normal form changes nothing |
| TagService.NormalizedNames | src/main/java/com/app/docmanager/service/TagService.java:82-85 | holds the normal form of every requested name that is not empty after normalising, and nothing else |
| TagService.NormalizedNamesAreNormal | src/main/java/com/app/docmanager/service/TagService.java:82-85 | every resolved name is non-empty, trimmed, not blank and its own normal form |
| TagService.ExtendsStep | src/main/java/com/app/docmanager/service/TagService.java:102-108 | saving one more tag under a key above all stored keys extends the table by exactly that row |
| TagService.SaveAll | src/main/java/com/app/docmanager/service/TagService.java:102-108 | `saveAll` of one new tag per missing name gives each name one fresh row, keeps every old row and keeps the invariant |
| TagService.SaveStep | src/main/java/com/app/docmanager/service/TagService.java:107 | one iteration of `saveAll` keeps the table an extension of the old one by the names saved so far |
| TagService.MissingNames | src/main/java/com/app/docmanager/service/TagService.java:92-100 | the request minus the names `findByNameIn` found is exactly the request minus the stored names |
| TagService.ResolvesStored | src/main/java/com/app/docmanager/service/TagService.java:97-106 | when every requested name is already stored, resolving leaves the table unchanged |
| TagService.NoNewKeys | src/main/java/com/app/docmanager/service/TagService.java:97-106 | a table that keeps every old row and adds only rows for missing names adds nothing when no name is missing |
| TagService.ReconciledRows | src/main/java/com/app/docmanager/service/TagService.java:92-111 | the found tags plus the saved tags are exactly the stored tags named in the request |
| TagService.ReconciledNames | src/main/java/com/app/docmanager/service/TagService.java:98-108 | after saving the missing names, the stored names are the old names plus the request |
| TagService.Reconciled | src/main/java/com/app/docmanager/service/TagService.java:91-111 | the returned set is one stored tag per requested name, with old rows unchanged and only missing names added |
| TagService.TagsNamedOnePerName | src/main/java/com/app/docmanager/service/TagService.java:111 | under unique names, the tags named in a request are stored rows, one per stored requested name, never two with the same name |
| TagService.FindOrCreate | src/main/java/com/app/docmanager/service/TagService.java:91-111 | reuses the stored tags named in the request, saves the rest, and returns one stored tag per name; nothing is saved when every name exists |
| TagService.CreateOrGetTags | src/main/java/com/app/docmanager/service/TagService.java:77-112 | null, empty or all-blank requests resolve to no tags; otherwise one stored tag per distinct normal form, inserting only missing names and keeping names unique |
| TagService.CreateOrGetTagsTwice | src/main/java/com/app/docmanager/service/TagService.java:77-112 | calling `createOrGetTags` again with the same names returns the same set of tags and leaves the tag table and key counter as the first call left them |
| TagService.CreateTag | src/main/java/com/app/docmanager/service/TagService.java:47-61 | fails with a duplicate-name error exactly when the normal form is already stored, writing nothing; otherwise adds one row with that name |
| TagService.CreateOrGetTag | src/main/java/com/app/docmanager/service/TagService.java:64-74 | returns the stored tag with the normal form, inserting it only when no tag has that name |
| TagService.UpdateTag | src/main/java/com/app/docmanager/service/TagService.java:115-131 | unknown id is not found; renaming to a name held by another tag is a duplicate; otherwise only that tag's name changes, to the normal form |
| TagService.Ids | src/main/java/com/app/docmanager/service/TagService.java:153 | the keys of a list of tags are exactly the keys of its elements |
| TagService.DeleteAll | src/main/java/com/app/docmanager/service/TagService.java:153 | `deleteAll` removes exactly the rows of the listed tags |
| TagService.RemoveUnused | src/main/java/com/app/docmanager/service/TagService.java:150-156 | removing the unused tags keeps exactly the tags in use, unchanged, and keeps the database consistent |
| TagService.DeleteUnusedTags | src/main/java/com/app/docmanager/service/TagService.java:150-156 | afterwards a tag is stored exactly when it was stored and some document carries it; surviving rows are unchanged |
| TagService.DeleteIfAny | src/main/java/com/app/docmanager/service/TagService.java:152-155 | the guarded delete removes exactly the listed tags, and an empty list removes nothing |
| TagService.GetTagStats | src/main/java/com/app/docmanager/service/TagService.java:165-174 | total is the number of tags, unused is the number of unused tags, used is the number in use, and used + unused = total |
| Entities.RemoveFirst | src/main/java/com/app/docmanager/entity/User.java:69-72 | `List.remove` shortens the list by at most one |
| Entities.RemoveFirstAbsent | src/main/java/com/app/docmanager/entity/User.java:69-72 | removing an element that is not in the list leaves it unchanged |
| Entities.RemoveFirstMultiset | src/main/java/com/app/docmanager/entity/User.java:69-72 | removing takes away exactly one occurrence of the element, when there is one |
| Entities.Attach | src/main/java/com/app/docmanager/entity/Document.java:105-117 | joining an owner's list adds the document once unless it is already there |
| Entities.User.constructor | src/main/java/com/app/docmanager/entity/User.java:49-61 | a new user has the given columns and an empty document list |
| Entities.User.GetFullName | src/main/java/com/app/docmanager/entity/User.java:81-92 | "first last" when both names are set, whichever is set when only one is, else the username |
| Entities.DistinctCount | src/main/java/com/app/docmanager/entity/User.java:94-96 | a list has at least as many entries as distinct elements, and exactly as many when none repeats |
| Entities.User.GetDocumentCount | src/main/java/com/app/docmanager/entity/User.java:94-96 | the count is at least the number of distinct documents, and equal to it when the list holds none twice |
| Entities.User.AddDocument | src/main/java/com/app/docmanager/entity/User.java:64-67 | the document then belongs to this user, is in its list once, and has left its previous owner's list |
| Entities.User.RemoveDocument | src/main/java/com/app/docmanager/entity/User.java:69-72 | the document loses its owner and one occurrence leaves the list (plus one more from `setUser(null)`) |
| Entities.User.ClearDocuments | src/main/java/com/app/docmanager/entity/User.java:74-78 | the list ends empty and every former document has no owner |
| Entities.Document.constructor | src/main/java/com/app/docmanager/entity/Document.java:56-63 | a new document has no columns set, no owner and no tags |
| Entities.Document.AddTag | src/main/java/com/app/docmanager/entity/Document.java:88-91 | both sides gain the link; a tag already present is not duplicated |
| Entities.Document.RemoveTag | src/main/java/com/app/docmanager/entity/Document.java:93-96 | both sides lose the link and nothing else changes |
| Entities.Document.ClearTags | src/main/java/com/app/docmanager/entity/Document.java:98-102 | the tag set ends empty and every former tag loses exactly this document |
| Entities.Document.SetUser | src/main/java/com/app/docmanager/entity/Document.java:105-117 | the document leaves its previous owner's list, takes the new owner and appears once in the new owner's list |
| Entities.Document.GetUserUsername | src/main/java/com/app/docmanager/entity/Document.java:120-122 | null without an owner, else the owner's username |
| Entities.Document.GetUserFullName | src/main/java/com/app/docmanager/entity/Document.java:125-127 | null without an owner, else the owner's full name, which is present when the owner has any name |
| Entities.Tag.constructor | src/main/java/com/app/docmanager/entity/Tag.java:32-34 | a new tag has the given name, no id and no documents |
| Entities.Tag.AddDocument | src/main/java/com/app/docmanager/entity/Tag.java:37-40 | both sides gain the link |
| Entities.Tag.RemoveDocument | src/main/java/com/app/docmanager/entity/Tag.java:42-45 | both sides lose the link |
| Entities.AddThenRemoveRestores | src/main/java/com/app/docmanager/entity/Tag.java:37-45 | adding then removing a document that was not linked restores both sides |
| DocumentRepository.FindByUser | src/main/java/com/app/docmanager/repository/DocumentRepository.java:15 | returns exactly the documents the user owns |
| DocumentRepository.FindByUserIdAndCategory | src/main/java/com/app/docmanager/repository/DocumentRepository.java:16 | returns exactly the user's documents in that category |
| DocumentRepository.FindByUserIdOrderByCreatedAtDesc | src/main/java/com/app/docmanager/repository/DocumentRepository.java:17 | a permutation of the user's documents, ordered newest first |
| DocumentRepository.SearchByTitle | src/main/java/com/app/docmanager/repository/DocumentRepository.java:34-35 | the full result behind the paged query: exactly the documents whose lower-cased title matches the lower-cased pattern `%query%` |
| DocumentRepository.SearchByUserIdAndTitle | src/main/java/com/app/docmanager/repository/DocumentRepository.java:27-31 | the full result behind the paged query: the same `LIKE` match, restricted to the user's documents |
| DocumentRepository.SearchByUserIsRestriction | src/main/java/com/app/docmanager/repository/DocumentRepository.java:27-35 | the per-user search is the global search filtered to the user, in the same order |
| DocumentRepository.CategoryWithinUser | src/main/java/com/app/docmanager/repository/DocumentRepository.java:15-16 | a category listing is the user's listing filtered by category |
| DocumentService.TagIds | src/main/java/com/app/docmanager/service/DocumentService.java:62-64 | the keys of a set of tags are exactly its elements' keys |
| DocumentService.TagIdsNamed | src/main/java/com/app/docmanager/service/DocumentService.java:62-64 | the keys of the tags named in a request are the stored keys whose name is requested |
| DocumentService.ResolveTags | src/main/java/com/app/docmanager/service/DocumentService.java:62-64 | the attached keys are exactly the stored tags whose name was requested, and the tag table grows by exactly the requested names |
| DocumentService.CreateDocument | src/main/java/com/app/docmanager/service/DocumentService.java:53-71 | unknown owner is not found and nothing is written; otherwise one new row owned by the user, with the requested tags when any were given; the names in the tag table grow by exactly the requested names and existing tag rows are kept |
| DocumentService.UpdateDocument | src/main/java/com/app/docmanager/service/DocumentService.java:74-100 | unknown id is not found; otherwise the columns are replaced, owner and creation time kept, tags kept for null, cleared for empty, resolved otherwise; the tag table changes only for a non-empty set, whose names it gains and no others, existing rows kept |
| DocumentService.DeleteDocument | src/main/java/com/app/docmanager/service/DocumentService.java:103-109 | unknown id is not found; otherwise exactly that row goes |
| DocumentService.CountDocumentsByUser | src/main/java/com/app/docmanager/service/DocumentService.java:111-113 | the size of the newest-first listing equals the number of the user's documents in key order |
| DocumentService.CountIsOwned | src/main/java/com/app/docmanager/service/DocumentService.java:111-113 | the count is the number of documents the user owns |
| DocumentService.SearchDocumentsByTitle | src/main/java/com/app/docmanager/service/DocumentService.java:115-119 | returns exactly the documents whose lower-cased title contains the lower-cased query |
| DocumentService.SearchAgreesWithRepository | src/main/java/com/app/docmanager/service/DocumentService.java:115-119 | for a query without `%` or `_`, the in-memory search returns the same list as the repository's `searchByTitle` query |
| UserService.ExistsByUsername | src/main/java/com/app/docmanager/repository/UserRepository.java:16 | the username exists exactly when the query selecting its rows returns some row |
| UserService.ExistsByEmail | src/main/java/com/app/docmanager/repository/UserRepository.java:17 | the email exists exactly when the query selecting its rows returns some row |
| UserService.FindByUsername | src/main/java/com/app/docmanager/service/UserService.java:27-29 | finds a user exactly when the username exists, and the one found has it |
| UserService.CreateUser | src/main/java/com/app/docmanager/service/UserService.java:36-44 | a taken username is refused first, then a taken email; otherwise exactly one new row with the given fields |
| UserService.UpdateUser | src/main/java/com/app/docmanager/service/UserService.java:47-70 | unknown id is not found; a changed username or email that another user holds is refused; otherwise only the four columns change |
| UserService.DeleteUser | src/main/java/com/app/docmanager/service/UserService.java:73-78 | unknown id is not found and nothing is deleted; otherwise the user and exactly its documents go |
| AuthService.InfoOf | src/main/java/com/app/docmanager/service/AuthService.java:121-128 | the user part of a response carries the row's id, username, email and roles |
| AuthService.NewAccount | src/main/java/com/app/docmanager/service/AuthService.java:84-98 | a new account has the encoded password, every account flag set and exactly the USER role; with a sound encoder the raw password matches |
| AuthService.AuthenticationError | src/main/java/com/app/docmanager/service/AuthService.java:104-109 | a failed authentication propagates as the exception the manager threw |
| AuthService.Register | src/main/java/com/app/docmanager/service/AuthService.java:72-130 | a taken username, then a taken email, are refused without writing; a failed auto-login rolls the save back and fails; otherwise exactly one new account is saved and described in the response |
| AuthService.ChangePassword | src/main/java/com/app/docmanager/service/AuthService.java:166-185 | unknown user is not found; a wrong current password is rejected; otherwise only the password changes, and the new password then matches |
| AuthService.RefreshToken | src/main/java/com/app/docmanager/service/AuthService.java:132-164 | an invalid token is rejected before any lookup; an unknown user is not found; otherwise the response is for the token's user |
| AuthService.Login | src/main/java/com/app/docmanager/service/AuthService.java:36-70 | succeeds exactly when authentication does; bad credentials become one fixed message, other failures pass through |
| FileStorage.Extension | src/main/java/com/app/docmanager/service/FileStorageService.java:43-47 | the suffix from the last '.', empty when there is no dot after the first character |
| FileStorage.GetContentType | src/main/java/com/app/docmanager/service/FileStorageService.java:81-88 | the probed type, or "application/octet-stream" when probing throws |
| FileStorage.UploadDirectory.constructor | src/main/java/com/app/docmanager/service/FileStorageService.java:22-30 | the upload directory starts empty |
| FileStorage.UploadDirectory.StoreFile | src/main/java/com/app/docmanager/service/FileStorageService.java:32-60 | a name with ".." is refused before writing; a failed copy stores nothing; otherwise the identifier plus the extension is added, and `FileExists` holds for the name returned |
| FileStorage.UploadDirectory.DeleteFile | src/main/java/com/app/docmanager/service/FileStorageService.java:66-74 | removes the name if present; an absent file is no error; an I/O error changes nothing and is not raised; after a deletion that succeeds `FileExists` is false for the name |
| FileStorage.StoredNameKeepsExtension | src/main/java/com/app/docmanager/service/FileStorageService.java:43-49 | the stored name has the same extension as the uploaded one |
| DocumentController.FindVisible | src/main/java/com/app/docmanager/controller/DocumentController.java:61-72 | a document is found exactly when it exists and the caller owns it or is an admin; otherwise not found |
| DocumentController.HiddenIsMissing | src/main/java/com/app/docmanager/controller/DocumentController.java:66-70 | a document the caller may not see gets the same answer as an absent one |
| DocumentController.ListDocuments | src/main/java/com/app/docmanager/controller/DocumentController.java:44-59 | lists only the caller's documents: by category when one is given, else all of them newest first |
| DocumentController.Search | src/main/java/com/app/docmanager/controller/DocumentController.java:211-228 | admins get every title match; other callers get only their own matches |
| DocumentController.SearchIsRepositoryQuery | src/main/java/com/app/docmanager/controller/DocumentController.java:211-228 | for a query without `%` or `_`, the admin result is the global title query, and anyone else's is the per-user query |
| DocumentController.TrimmedPieces | src/main/java/com/app/docmanager/controller/DocumentController.java:106-109 | the non-empty trimmed forms of the pieces, and nothing else |
| DocumentController.ParsedTags | src/main/java/com/app/docmanager/controller/DocumentController.java:106-109 | the trimmed non-empty pieces `String.split` makes at the commas; each is non-empty, trimmed and comma-free |
| DocumentController.TrimmedPiecesDropTrailing | src/main/java/com/app/docmanager/controller/DocumentController.java:106-109 | the trailing empty pieces `String.split` drops do not change the parsed tags |
| DocumentController.ParseTags | src/main/java/com/app/docmanager/controller/DocumentController.java:104-110 | a null or blank parameter gives no tag set; otherwise the trimmed non-empty comma-separated pieces |
| DocumentController.ParseTagsJoined | src/main/java/com/app/docmanager/controller/DocumentController.java:104-110 | tags that are non-empty, trimmed and comma-free survive a comma-join followed by parsing |
| DocumentController.ParsedJoined | src/main/java/com/app/docmanager/controller/DocumentController.java:106-109 | the pieces of such a join are the tags themselves |
| DocumentController.TrimmedPiecesOfTrimmed | src/main/java/com/app/docmanager/controller/DocumentController.java:107-108 | pieces already trimmed and non-empty are kept as they are |
| DocumentController.Create | src/main/java/com/app/docmanager/controller/DocumentController.java:74-88 | the new document is owned by the caller whatever the request's user id, carrying exactly the tags named by the request; the tag table gains exactly those names and keeps its rows; unknown caller is not found and neither table nor counter changes |
| DocumentController.Upload | src/main/java/com/app/docmanager/controller/DocumentController.java:90-131 | the file is stored first and failures are wrapped; on success the caller owns a new document with the stored name and the parsed tags, and the tag table gains exactly the parsed names; an unknown caller changes no table |
| DocumentController.DownloadTarget | src/main/java/com/app/docmanager/controller/DocumentController.java:139-163 | a hidden or absent document is not found; no file path fails; a file not in the directory fails; otherwise the stored name |
| DocumentController.DownloadAsWritten | src/main/java/com/app/docmanager/controller/DocumentController.java:133-166 | as written: the checks of `DownloadTarget`, then a probe that finds no content type fails the media-type parse; otherwise the file with the probed type and the attachment header |
| DocumentController.ServedContentType | src/main/java/com/app/docmanager/service/FileStorageService.java:81-88 | the probed type, or "application/octet-stream" when there is none |
| DocumentController.Download | src/main/java/com/app/docmanager/controller/DocumentController.java:133-166 | corrected: fails exactly when `DownloadTarget` does, with its error; otherwise the file with `ServedContentType` and the attachment header |
| DocumentController.DownloadWithoutTypeDiffers | src/main/java/com/app/docmanager/controller/DocumentController.java:152-156 | a present file whose probe finds no type fails as written but is served as generic binary content when corrected; with a type, both agree |
| DocumentController.Update | src/main/java/com/app/docmanager/controller/DocumentController.java:168-188 | fails exactly when the gate does and then changes nothing; otherwise the columns are replaced, owner and creation time kept, tags kept for null, cleared for empty, resolved otherwise, and the tag table gains exactly the names of a non-empty set |
| DocumentController.Delete | src/main/java/com/app/docmanager/controller/DocumentController.java:190-209 | fails exactly when the gate does; otherwise the stored file is deleted (when there is one) before the record, and only that record goes |
| DocumentController.Stats | src/main/java/com/app/docmanager/controller/DocumentController.java:230-242 | the total is the number of documents the caller owns |
| SecurityConfig.Decide | src/main/java/com/app/docmanager/config/SecurityConfig.java:71-100 | the first matching rule decides; with no match the request only needs authentication |
| SecurityConfig.DecideAppend | src/main/java/com/app/docmanager/config/SecurityConfig.java:71-100 | a table whose first part misses decides as its second part; one whose first part matches decides as the first part |
| SecurityConfig.AuthAndPublicOpen | src/main/java/com/app/docmanager/config/SecurityConfig.java:73-74 | the authentication and public API are open to everyone |
| SecurityConfig.ConsoleOpenIffEnabled | src/main/java/com/app/docmanager/config/SecurityConfig.java:77-79 | the H2 console is open exactly when its switch is on, else it needs authentication |
| SecurityConfig.SwaggerOpenIffEnabled | src/main/java/com/app/docmanager/config/SecurityConfig.java:82-84 | the API documentation is open exactly when its switch is on, else it needs authentication |
| SecurityConfig.UnlistedNeedsAuthentication | src/main/java/com/app/docmanager/config/SecurityConfig.java:100 | a path under none of the table's bases needs only authentication, whatever the method |
| SecurityConfig.OutsideApiUnlisted | src/main/java/com/app/docmanager/config/SecurityConfig.java:100 | a path under a base whose second character is not 'a' (nor 'h' with the console on, nor 's' or 'v' with the documentation on) needs only authentication |
| SecurityConfig.ProtectedDecidedByGuardedRules | src/main/java/com/app/docmanager/config/SecurityConfig.java:86-100 | for a path under "/api/" outside the authentication and public API, the decision is the role rules' decision |
| SecurityConfig.AdminOnly | src/main/java/com/app/docmanager/config/SecurityConfig.java:87-88 | deleting a user and anything on the admin API need the ADMIN role |
| SecurityConfig.AvailabilityChecksOpen | src/main/java/com/app/docmanager/config/SecurityConfig.java:91-92 | GET of the username and email availability checks is open, although they lie under the user API |
| SecurityConfig.UserRoleRequired | src/main/java/com/app/docmanager/config/SecurityConfig.java:93-97 | reading and changing users and every document request need USER or ADMIN |
| SecurityConfig.CreateUserNeedsAuthentication | src/main/java/com/app/docmanager/config/SecurityConfig.java:86-100 | POST on the user API matches no rule and so needs only authentication, no role |
| UserMapper.ToDto | src/main/java/com/app/docmanager/mapper/UserMapper.java:17-33 | null for null; otherwise the user's columns, its display name and its number of documents |
| UserMapper.ToDtoList | src/main/java/com/app/docmanager/mapper/UserMapper.java:79-87 | null for null; otherwise one entry per user, in order |
| UserMapper.ToUserInfo | src/main/java/com/app/docmanager/mapper/UserMapper.java:92-102 | null for null; otherwise id, username and display name |
| UserMapper.UserInfoAgreesWithDto | src/main/java/com/app/docmanager/mapper/UserMapper.java:17-102 | the owner shown inside a document agrees with the user's own transfer object |
| UserMapper.ToEntity | src/main/java/com/app/docmanager/mapper/UserMapper.java:38-49 | null for null; otherwise a new user with the four request fields, no id and no documents |
| UserMapper.UpdateEntity | src/main/java/com/app/docmanager/mapper/UserMapper.java:54-74 | only the request values that are set overwrite; id and documents are kept; no request changes nothing |
| UserMapper.OverwriteOnlySet | src/main/java/com/app/docmanager/mapper/UserMapper.java:59-70 | an unset value keeps the field, a set one replaces it, and applying the request twice changes nothing more |
| DocumentMapper.NormalizedNamesMembers | src/main/java/com/app/docmanager/mapper/DocumentMapper.java:73-77 | each requested name contributes its normal form, and nothing else is produced |
| DocumentMapper.NormalizedNamesEmpty | src/main/java/com/app/docmanager/mapper/DocumentMapper.java:72-77 | some tags are produced exactly when some names were requested |
| DocumentMapper.MapTagsToStrings | src/main/java/com/app/docmanager/mapper/DocumentMapper.java:135-143 | null for no tags; otherwise exactly the tags' names |
| DocumentMapper.ToDto | src/main/java/com/app/docmanager/mapper/DocumentMapper.java:23-42 | null for null; otherwise the eight columns, the owner as `toUserInfo` shows it (id, username, full name) and the tag names |
| DocumentMapper.ToDtoList | src/main/java/com/app/docmanager/mapper/DocumentMapper.java:122-130 | null for null; otherwise one entry per document, in order |
| DocumentMapper.NewTags | src/main/java/com/app/docmanager/mapper/DocumentMapper.java:73-77 | one new unsaved tag per distinct name, never two with the same name |
| DocumentMapper.ToEntity | src/main/java/com/app/docmanager/mapper/DocumentMapper.java:47-82 | null for null; otherwise a new document with the seven columns, an id-only owner when a user id is given, and new tags named by the normalised request names |
| DocumentMapper.UpdateEntity | src/main/java/com/app/docmanager/mapper/DocumentMapper.java:87-117 | no request or document changes nothing; otherwise the seven columns are replaced, tags kept for null, cleared (both sides) and replaced by new tags otherwise |
| DocumentMapper.NormalizationsAgree | src/main/java/com/app/docmanager/mapper/DocumentMapper.java:75 | the mapper's trim-then-lowercase equals the service's lowercase-then-trim |

## Left out

- I/O is not modelled. The upload directory is the set of stored names, and
  `StringUtils.cleanPath` is taken as already applied to the incoming name. Path
  `resolve`/`normalize` in download and delete is the identity. The outcome of
  each file-system call is a parameter.
- The random identifier is the `uniqueId` parameter, and the clock is the `now`
  parameter. Auditing timestamps (`createdAt`, `updatedAt`) of the mappers and
  transfer objects are not modelled. `createdAt` is set once, when a row is
  inserted.
- Tokens and password hashing are not modelled:
  - BCrypt and the JWT provider are values holding functions. Token generation,
    expiry and `tokenType` in the responses are left out.
  - `SecurityContextHolder` updates are left out.
  - The auto-login inside `register` is the `login` parameter. Because the
    method is transactional, a failure there rolls back the new user. The model
    writes nothing in that case; whether the database's identity counter still
    advances is not modelled.
  - `logout` and `getCurrentUser` of `AuthService` are left out, because they
    only read the security context.
- The ORM is not modelled: lazy loading, dirty checking, flush order and
  `@Transactional` rollback. Each service method is one atomic step on the tables.
- Pagination is left out. DocumentRepository.SearchByTitle and
  DocumentRepository.SearchByUserIdAndTitle exist in the source only with a
  `Pageable` parameter; the model returns the whole result in key order, of which
  every page is a slice. The sort order a `Pageable` may impose is not modelled.
- Concurrency is not modelled. Two requests cannot interleave in the model.
- Text handling is simplified:
  - `LOWER`/`toLowerCase` is ASCII-only.
  - `trim` removes the characters up to U+0020.
  - `LIKE` has its two wildcards and no escape character. Some databases treat
    a backslash as a default escape; that is not modelled.
- Bean validation (`@NotBlank`, `@Size`, `@Email`) is not enforced by the model.
  `Entities.ValidTagName` states the tag constraint but nothing checks it.
- Lombok-generated equality is not modelled. Tags inside one mapper call are
  distinct per normalised name, which is what the id-and-name equality of
  unsaved tags produces.
- Some `TagService` operations are left out:
  - `deleteTag` deletes a tag row that documents may still reference through
    `document_tags`. What happens then depends on the database's
    foreign-key behaviour, which is outside the model.
  - `existsByName`, `searchTags`, `getAllTags`, `getTagById`, `getTagByName` and
    `getTagsByUserId` are one-line delegations to the repository queries
    modelled in `TagRepository`.
- The `getAll*`, `get*ById` and `get*By*` readers of `DocumentService` and
  `UserService` are one-line delegations to repository queries, and are not
  separate members.
- Some `DocumentController` endpoints are covered by other members:
  - `getDocumentById` is `DocumentController.FindVisible` followed by the
    mapper.
  - `DocumentMapper.toEntityWithoutUser` is not defined in the source. The
    controller members take the seven columns it is assumed to copy.
- `DocumentMapper.mapStringsToTags` is left out, because nothing calls it. Its
  normalisation is the one `DocumentMapper.NewTags` uses.
- DocumentMapper.ToEntity and DocumentMapper.UpdateEntity do not link the new
  tags back to the document, because `setTags` is a plain setter.
- UserMapper.ToDto reads `documents` as a list that is never null. The model has
  no null list, so the `0` branch of `getDocumentCount` does not arise.
- `TagController`, `UserController`, `AuthController` and `DataLoader` are left
  out. They are thin wrappers over the services, and their own rules are not
  modelled.
- CORS, CSRF and the session policy of `SecurityConfig` are left out. So are the
  frame-options header, the authentication provider and the JWT filter.
- TagRepository.FindTagsByUserId returns each tag once. The query joins tags with
  documents without `DISTINCT`, so the database returns a tag once per document
  of the user that carries it.
- TagRepository.FindByNameContainingIgnoreCase compares case-sensitively. Its
  query text has no `LOWER`, despite the method's name.

## Findings

| source | as written | input that shows it | evidently intended | confidence | as-written member | corrected member |
|---|---|---|---|---|---|---|
| src/main/java/com/app/docmanager/controller/DocumentController.java:152-156 | the probed content type is parsed as a media type even when probing found none, and that parse throws | a visible document whose file is present and whose type the probe cannot determine (`Probed(None)`) | serve the file as "application/octet-stream", the default `getContentType` already uses when probing throws | not executed | DocumentController.DownloadAsWritten | DocumentController.Download |
