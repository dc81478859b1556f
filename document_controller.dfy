/** `DocumentController`: the owner-or-admin gate in front of every single-document
    endpoint, the category branch of the listing, the admin/non-admin search filter, the
    upload tag parameter parser, and the order of effects of upload and delete. The
    authenticated caller is a `Principal`; the uploaded file's bytes, the generated
    identifier and the outcome of each file-system call are parameters. */
module DocumentController {
  import opened Base
  import opened Text
  import opened Store
  import opened Query
  import opened TagService
  import opened DocumentRepository
  import opened DocumentService
  import opened FileStorage

  /** `CustomUserDetails` of the caller: its id, username and roles. */
  datatype Principal = Principal(id: int, username: string, roles: set<Role>)

  /** The caller holds the administrator role. */
  predicate IsAdmin(p: Principal) {
    RoleAdmin in p.roles
  }

  /** The filter of every single-document endpoint: the caller owns it or is an admin. */
  predicate CanSee(p: Principal, d: DocRow) {
    d.ownerId == p.id || IsAdmin(p)
  }

  /** The lookup every document endpoint starts with: the document is found only when it
      exists and the caller owns it or is an administrator; a document the caller may not
      see is reported exactly like a missing one. */
  function FindVisible(documents: map<int, DocRow>, p: Principal, id: int): (r: Result<DocRow>)
    ensures r.Success? <==> id in documents && CanSee(p, documents[id])
    ensures r.Success? ==> r.value == documents[id]
    ensures r.Failure? ==> r.error == ResourceNotFound("Document", "id", IdKey(id))
  {
    if id in documents && CanSee(p, documents[id]) then Success(documents[id])
    else Failure(ResourceNotFound("Document", "id", IdKey(id)))
  }

  /** The documents the caller may see. */
  function VisibleTo(documents: map<int, DocRow>, p: Principal): map<int, DocRow> {
    map k | k in documents && CanSee(p, documents[k]) :: documents[k]
  }

  /** A hidden document is indistinguishable from an absent one: the gate answers on the
      whole table exactly as it answers on the caller's visible part of it. */
  lemma HiddenIsMissing(documents: map<int, DocRow>, p: Principal, id: int)
    ensures FindVisible(documents, p, id) == FindVisible(VisibleTo(documents, p), p, id)
    ensures id in documents && !CanSee(p, documents[id]) ==>
              FindVisible(documents, p, id) == FindVisible(documents - {id}, p, id)
  {
    var visible := VisibleTo(documents, p);
    if id in documents && CanSee(p, documents[id]) {
      assert id in visible && visible[id] == documents[id];
    } else {
      assert id !in visible;
    }
  }

  /** `getAllDocuments`: a non-null, non-empty category lists the caller's documents of
      that category; otherwise every document of the caller is listed, newest first. */
  function ListDocuments(documents: map<int, DocRow>, p: Principal, category: Option<string>): (r: seq<DocRow>)
    ensures forall d :: d in r ==> InTable(documents, d) && d.ownerId == p.id
    ensures category.Some? && category.value != [] ==>
              forall d :: d in r <==> InTable(documents, d) && d.ownerId == p.id && d.fields.category == category
    ensures category.None? || category.value == [] ==>
              (forall d :: d in r <==> InTable(documents, d) && d.ownerId == p.id) && NewestFirst(r, CreatedAt)
  {
    if category.Some? && category.value != [] then FindByUserIdAndCategory(documents, p.id, category)
    else FindByUserIdOrderByCreatedAtDesc(documents, p.id)
  }

  /** `searchDocuments`: the title search, kept whole for an admin and restricted to the
      caller's own documents for anyone else. */
  function Search(documents: map<int, DocRow>, p: Principal, query: string): (r: seq<DocRow>)
    ensures forall d :: d in r <==>
              InTable(documents, d) && ContainsIgnoreCase(d.fields.title, query) && (IsAdmin(p) || d.ownerId == p.id)
  {
    var found := SearchDocumentsByTitle(documents, query);
    if IsAdmin(p) then found else Filter(found, OwnedBy(p.id))
  }

  /** For a query without `LIKE` wildcards: for an admin the search is the repository's
      global title search; for anyone else it is the repository's per-user title search,
      in the same order. */
  lemma SearchIsRepositoryQuery(documents: map<int, DocRow>, p: Principal, query: string)
    requires !HasWildcard(query)
    ensures IsAdmin(p) ==> Search(documents, p, query) == SearchByTitle(documents, query)
    ensures !IsAdmin(p) ==> Search(documents, p, query) == SearchByUserIdAndTitle(documents, p.id, query)
  {
    SearchAgreesWithRepository(documents, query);
    SearchByUserIsRestriction(documents, p.id, query);
  }

  /** The non-empty trimmed forms of the pieces, duplicates collapsed. */
  function TrimmedPieces(pieces: seq<string>): (tags: set<string>)
    ensures forall t :: t in tags ==> t != [] && IsTrimmed(t)
    ensures forall piece :: piece in pieces && Trim(piece) != [] ==> Trim(piece) in tags
    ensures forall t :: t in tags ==> exists piece :: piece in pieces && Trim(piece) == t
  {
    set piece | piece in pieces && Trim(piece) != [] :: Trim(piece)
  }

  /** The tags of a non-blank parameter: the pieces `String.split` makes at the commas,
      trimmed, without the empty ones, duplicates collapsed. None of them holds a comma. */
  function ParsedTags(param: string): (tags: set<string>)
    ensures tags == TrimmedPieces(StringSplit(param, ','))
    ensures forall t :: t in tags ==> t != [] && IsTrimmed(t) && ',' !in t
  {
    var pieces := StringSplit(param, ',');
    var tags := TrimmedPieces(pieces);
    assert forall t :: t in tags ==> ',' !in t by {
      forall t | t in tags ensures ',' !in t {
        var piece :| piece in pieces && Trim(piece) == t;
        assert forall j :: 0 <= j < |t| ==> t[j] in piece;
      }
    }
    tags
  }

  /** The tag parameter of `uploadDocument`: null or blank gives no tag set at all. */
  function ParseTags(tagsParam: Option<string>): (r: Option<set<string>>)
    ensures r.None? <==> tagsParam.None? || Trim(tagsParam.value) == []
    ensures r.Some? ==> r.value == ParsedTags(tagsParam.value)
  {
    if tagsParam.None? || Trim(tagsParam.value) == [] then None
    else Some(ParsedTags(tagsParam.value))
  }

  /** Tags that are non-empty, trimmed and free of commas come back from their
      comma-joined form as exactly the set of them. */
  lemma ParseTagsJoined(tags: seq<string>)
    requires |tags| >= 1
    requires forall k :: 0 <= k < |tags| ==> tags[k] != [] && IsTrimmed(tags[k]) && ',' !in tags[k]
    ensures ParseTags(Some(Join(tags, ','))) == Some(set t | t in tags)
  {
    var param := Join(tags, ',');
    JoinStartsWithFirst(tags, ',');
    assert param[0] == tags[0][0];
    NotBlankWhenFirstKept(param);
    ParsedJoined(tags, param);
  }

  /** The pieces of a joined list of trimmed, non-empty tags are the tags themselves. */
  lemma ParsedJoined(tags: seq<string>, param: string)
    requires |tags| >= 1 && param == Join(tags, ',')
    requires forall k :: 0 <= k < |tags| ==> tags[k] != [] && IsTrimmed(tags[k]) && ',' !in tags[k]
    ensures ParsedTags(param) == set t | t in tags
  {
    StringSplitJoined(tags, ',');
    TrimmedPiecesOfTrimmed(tags);
  }

  /** The trailing empty pieces `String.split` drops would have been dropped as blank
      anyway: the parsed tags are those of every raw piece between commas. */
  lemma TrimmedPiecesDropTrailing(param: string)
    ensures ParsedTags(param) == TrimmedPieces(Split(param, ','))
  {
    var raw := Split(param, ',');
    var kept := StringSplit(param, ',');
    forall t ensures t in TrimmedPieces(kept) <==> t in TrimmedPieces(raw) {
      if t in TrimmedPieces(raw) {
        var piece :| piece in raw && Trim(piece) == t;
        var k :| 0 <= k < |raw| && raw[k] == piece;
        assert k < |kept|;
        assert kept[k] == piece;
      }
      if t in TrimmedPieces(kept) {
        var piece :| piece in kept && Trim(piece) == t;
        var k :| 0 <= k < |kept| && kept[k] == piece;
        assert raw[k] == piece;
      }
    }
  }

  /** Pieces that are already trimmed and non-empty are kept as they are. */
  lemma TrimmedPiecesOfTrimmed(tags: seq<string>)
    requires forall k :: 0 <= k < |tags| ==> tags[k] != [] && IsTrimmed(tags[k])
    ensures TrimmedPieces(tags) == set t | t in tags
  {
    var parsed := TrimmedPieces(tags);
    TrimmedPiecesKeep(tags);
    TrimmedPiecesOnly(tags);
    forall x ensures x in parsed <==> x in tags {
    }
  }

  /** Every non-blank trimmed piece is among the parsed tags. */
  lemma TrimmedPiecesKeep(tags: seq<string>)
    requires forall k :: 0 <= k < |tags| ==> tags[k] != [] && IsTrimmed(tags[k])
    ensures forall k :: 0 <= k < |tags| ==> tags[k] in TrimmedPieces(tags)
  {
    forall k | 0 <= k < |tags| ensures tags[k] in TrimmedPieces(tags) {
      TrimIdempotent(tags[k]);
    }
  }

  /** Every parsed tag is one of the trimmed pieces. */
  lemma TrimmedPiecesOnly(tags: seq<string>)
    requires forall k :: 0 <= k < |tags| ==> tags[k] != [] && IsTrimmed(tags[k])
    ensures forall t :: t in TrimmedPieces(tags) ==> t in tags
  {
    forall t | t in TrimmedPieces(tags) ensures t in tags {
      var piece :| piece in tags && Trim(piece) == t;
      TrimIdempotent(piece);
    }
  }

  /** A joined list starts with its first piece. */
  lemma JoinStartsWithFirst(pieces: seq<string>, sep: char)
    requires |pieces| >= 1
    ensures |pieces[0]| <= |Join(pieces, sep)| && Join(pieces, sep)[..|pieces[0]|] == pieces[0]
  {
    if |pieces| > 1 {
      assert Join(pieces, sep) == pieces[0] + [sep] + Join(pieces[1..], sep);
    }
  }

  /** A string whose first character is kept by `trim` does not trim to nothing. */
  lemma NotBlankWhenFirstKept(s: string)
    requires s != [] && !IsTrimmable(s[0])
    ensures Trim(s) != []
  {
    assert LeadingTrimmable(s) == 0;
  }

  /** Every failure of `uploadDocument` becomes a runtime error whose message is
      "Could not upload file: " followed by the cause's message. */
  function UploadFailure(e: Error): Error {
    Wrapped("Could not upload file: ", e)
  }

  /** `createDocument`: the document is owned by the caller whatever user id the request
      carries; the request's tags are created by the service, so the document starts from none. */
  method Create(db: Database, p: Principal, fields: DocFields, requestUserId: Option<int>,
                tagNames: Option<set<string>>, now: int) returns (r: Result<DocRow>)
    requires db.Valid()
    modifies db`tags, db`nextTagId, db`documents, db`nextDocumentId
    ensures db.Valid()
    ensures r.Failure? <==> p.id !in old(db.users)
    ensures r.Failure? ==> r.error == ResourceNotFound("User", "id", IdKey(p.id)) && db.documents == old(db.documents)
    ensures r.Failure? ==> db.tags == old(db.tags) && db.nextTagId == old(db.nextTagId) && db.nextDocumentId == old(db.nextDocumentId)
    ensures r.Success? ==> r.value.ownerId == p.id && r.value.fields == fields && r.value.createdAt == now
    ensures r.Success? ==> r.value.id !in old(db.documents) && db.documents == old(db.documents)[r.value.id := r.value]
    ensures r.Success? ==> forall k :: k in r.value.tagIds <==> k in db.tags && db.tags[k].name in Requested(tagNames)
    ensures r.Success? ==> StoredNames(db.tags) == StoredNames(old(db.tags)) + Requested(tagNames)
    ensures forall k :: k in old(db.tags) ==> k in db.tags && db.tags[k] == old(db.tags[k])
  {
    r := CreateDocument(db, fields, {}, p.id, tagNames, now);
    if r.Success? && (tagNames.None? || tagNames.value == {}) {
      assert Requested(tagNames) == {};
    }
  }

  /** `uploadDocument`: the file is stored first, then the tag parameter is parsed and the
      record created; a failure of either step is wrapped, and a record that cannot be
      created leaves the stored file behind. */
  method Upload(db: Database, dir: UploadDirectory, p: Principal, fileName: string, uniqueId: string,
                copyFails: bool, title: string, category: Option<string>, tagsParam: Option<string>,
                contentType: Option<string>, fileSize: int, now: int) returns (r: Result<DocRow>)
    requires db.Valid()
    modifies db`tags, db`nextTagId, db`documents, db`nextDocumentId, dir
    ensures db.Valid()
    ensures Contains(fileName, "..") ==>
              r == Failure(UploadFailure(Runtime("Sorry! Filename contains invalid path sequence " + fileName, NoKey)))
    ensures !Contains(fileName, "..") && copyFails ==>
              r == Failure(UploadFailure(Runtime("Could not store file " + fileName + ". Please try again!", NoKey)))
    ensures Contains(fileName, "..") || copyFails ==>
              dir.files == old(dir.files) && db.documents == old(db.documents) && db.tags == old(db.tags)
    ensures !Contains(fileName, "..") && !copyFails ==> dir.files == old(dir.files) + {uniqueId + Extension(fileName)}
    ensures !Contains(fileName, "..") && !copyFails && p.id !in old(db.users) ==>
              r == Failure(UploadFailure(ResourceNotFound("User", "id", IdKey(p.id)))) && db.documents == old(db.documents)
              && db.tags == old(db.tags) && db.nextTagId == old(db.nextTagId) && db.nextDocumentId == old(db.nextDocumentId)
    ensures r.Success? <==> !Contains(fileName, "..") && !copyFails && p.id in old(db.users)
    ensures r.Success? ==> r.value.ownerId == p.id && r.value.createdAt == now
    ensures r.Success? ==>
              r.value.fields == DocFields(title, category, Some(uniqueId + Extension(fileName)), contentType, Some(fileSize), None, None)
    ensures r.Success? ==> r.value.id !in old(db.documents) && db.documents == old(db.documents)[r.value.id := r.value]
    ensures r.Success? ==> forall k :: k in r.value.tagIds <==> k in db.tags && db.tags[k].name in Requested(ParseTags(tagsParam))
    ensures r.Success? ==> StoredNames(db.tags) == StoredNames(old(db.tags)) + Requested(ParseTags(tagsParam))
    ensures forall k :: k in old(db.tags) ==> k in db.tags && db.tags[k] == old(db.tags[k])
  {
    var stored := dir.StoreFile(fileName, uniqueId, copyFails);
    if stored.Failure? {
      return Failure(UploadFailure(stored.error));
    }
    var tags := ParseTags(tagsParam);
    var fields := DocFields(title, category, Some(stored.value), contentType, Some(fileSize), None, None);
    var created := Create(db, p, fields, None, tags, now);
    if created.Failure? {
      return Failure(UploadFailure(created.error));
    }
    r := created;
  }

  /** The response of a download: the stored file, its content type and the attachment header. */
  datatype FileResponse = FileResponse(fileName: string, contentType: string, contentDisposition: string)

  /** The checks of `downloadDocument` before the response is built: the gate first, then a
      document without a file fails, then a file that is not in the upload directory
      fails; otherwise the stored name of the file. */
  function DownloadTarget(documents: map<int, DocRow>, files: set<string>, p: Principal, id: int): (r: Result<string>)
    ensures FindVisible(documents, p, id).Failure? ==> r == Failure(ResourceNotFound("Document", "id", IdKey(id)))
    ensures FindVisible(documents, p, id).Success? && documents[id].fields.filePath.None? ==>
              r == Failure(Runtime("No file associated with this document", NoKey))
    ensures FindVisible(documents, p, id).Success? && documents[id].fields.filePath.Some?
              && documents[id].fields.filePath.value !in files ==>
              r == Failure(Runtime("File not found: ", NameKey(documents[id].fields.filePath.value)))
    ensures r.Success? <==> id in documents && CanSee(p, documents[id]) && documents[id].fields.filePath.Some?
                            && documents[id].fields.filePath.value in files
    ensures r.Success? ==> Some(r.value) == documents[id].fields.filePath
  {
    match FindVisible(documents, p, id)
    case Failure(e) => Failure(e)
    case Success(document) =>
      if document.fields.filePath.None? then Failure(Runtime("No file associated with this document", NoKey))
      else
        var path := document.fields.filePath.value;
        if path !in files then Failure(Runtime("File not found: ", NameKey(path)))
        else Success(path)
  }

  /** The attachment header naming the document's title. */
  function Disposition(title: string): string {
    "attachment; filename=\"" + title + "\""
  }

  /** `downloadDocument` as written: the probed content type is parsed as a media type,
      and a probe that finds no type makes that parse fail, so the download of a present
      file fails. */
  function DownloadAsWritten(documents: map<int, DocRow>, files: set<string>, p: Principal, id: int, probe: Probe): (r: Result<FileResponse>)
    ensures DownloadTarget(documents, files, p, id).Failure? ==> r == Failure(DownloadTarget(documents, files, p, id).error)
    ensures DownloadTarget(documents, files, p, id).Success? && GetContentType(probe).None? ==>
              r == Failure(InvalidMediaType("'mimeType' must not be empty"))
    ensures r.Success? <==> DownloadTarget(documents, files, p, id).Success? && GetContentType(probe).Some?
    ensures r.Success? ==> Some(r.value.fileName) == documents[id].fields.filePath
                           && Some(r.value.contentType) == GetContentType(probe)
                           && r.value.contentDisposition == Disposition(documents[id].fields.title)
  {
    match DownloadTarget(documents, files, p, id)
    case Failure(e) => Failure(e)
    case Success(path) =>
      var contentType := GetContentType(probe);
      if contentType.None? then Failure(InvalidMediaType("'mimeType' must not be empty"))
      else Success(FileResponse(path, contentType.value, Disposition(documents[id].fields.title)))
  }

  /** The content type a download is served with: the probed one, or the generic binary
      type when there is none, as `getContentType` already does when probing throws. */
  function ServedContentType(probe: Probe): (t: string)
    ensures GetContentType(probe).Some? ==> t == GetContentType(probe).value
    ensures GetContentType(probe).None? ==> t == "application/octet-stream"
  {
    match GetContentType(probe)
    case Some(t) => t
    case None => "application/octet-stream"
  }

  /** `downloadDocument` with the missing content type defaulted: the checks of
      `DownloadTarget` decide the outcome, and every file that passes them is served. */
  function Download(documents: map<int, DocRow>, files: set<string>, p: Principal, id: int, probe: Probe): (r: Result<FileResponse>)
    ensures r.Failure? <==> DownloadTarget(documents, files, p, id).Failure?
    ensures r.Failure? ==> r.error == DownloadTarget(documents, files, p, id).error
    ensures r.Success? ==> id in documents && CanSee(p, documents[id]) && Some(r.value.fileName) == documents[id].fields.filePath
                           && r.value.fileName in files
    ensures r.Success? ==> r.value.contentType == ServedContentType(probe)
                           && r.value.contentDisposition == Disposition(documents[id].fields.title)
  {
    match DownloadTarget(documents, files, p, id)
    case Failure(e) => Failure(e)
    case Success(path) => Success(FileResponse(path, ServedContentType(probe), Disposition(documents[id].fields.title)))
  }

  /** The two differ exactly on a file whose probe finds no type: as written the download
      fails, while the corrected one serves it as generic binary content; on every other
      input they agree. */
  lemma DownloadWithoutTypeDiffers(documents: map<int, DocRow>, files: set<string>, p: Principal, id: int, probe: Probe)
    ensures DownloadTarget(documents, files, p, id).Success? && probe == Probed(None) ==>
              DownloadAsWritten(documents, files, p, id, probe).Failure?
              && Download(documents, files, p, id, probe).Success?
              && Download(documents, files, p, id, probe).value.contentType == "application/octet-stream"
    ensures GetContentType(probe).Some? ==> DownloadAsWritten(documents, files, p, id, probe) == Download(documents, files, p, id, probe)
  {
  }

  /** `updateDocument`: the gate, then the service update with the request's fields and tags. */
  method Update(db: Database, p: Principal, id: int, fields: DocFields, tagNames: Option<set<string>>)
    returns (r: Result<DocRow>)
    requires db.Valid()
    modifies db`tags, db`nextTagId, db`documents
    ensures db.Valid()
    ensures r.Failure? <==> FindVisible(old(db.documents), p, id).Failure?
    ensures r.Failure? ==> r.error == ResourceNotFound("Document", "id", IdKey(id))
                           && db.documents == old(db.documents) && db.tags == old(db.tags)
    ensures r.Failure? ==> db.nextTagId == old(db.nextTagId)
    ensures r.Success? ==> r.value.id == id && r.value.fields == fields && r.value.ownerId == old(db.documents[id].ownerId)
    ensures r.Success? ==> r.value.createdAt == old(db.documents[id].createdAt)
    ensures r.Success? ==> db.documents == old(db.documents)[id := r.value]
    ensures r.Success? && tagNames.None? ==> r.value.tagIds == old(db.documents[id].tagIds) && db.tags == old(db.tags)
    ensures r.Success? && tagNames == Some({}) ==> r.value.tagIds == {} && db.tags == old(db.tags)
    ensures r.Success? && tagNames.Some? && tagNames.value != {} ==>
              forall k :: k in r.value.tagIds <==> k in db.tags && db.tags[k].name in Requested(tagNames)
    ensures r.Success? && tagNames.Some? && tagNames.value != {} ==>
              StoredNames(db.tags) == StoredNames(old(db.tags)) + Requested(tagNames)
    ensures forall k :: k in old(db.tags) ==> k in db.tags && db.tags[k] == old(db.tags[k])
  {
    var existing := FindVisible(db.documents, p, id);
    if existing.Failure? {
      return Failure(existing.error);
    }
    r := UpdateDocument(db, id, fields, tagNames);
  }

  /** The two effects of `deleteDocument`, in the order they happen. */
  datatype Effect = DeleteFileCall(fileName: string) | DeleteRecordCall(id: int)

  /** `deleteDocument`: the gate, then the stored file (if the document has one), then the record. */
  method Delete(db: Database, dir: UploadDirectory, p: Principal, id: int, ioError: bool)
    returns (r: Result<Unit>, effects: seq<Effect>)
    requires db.Valid()
    modifies db`documents, dir
    ensures db.Valid()
    ensures r.Failure? <==> FindVisible(old(db.documents), p, id).Failure?
    ensures r.Failure? ==> r.error == ResourceNotFound("Document", "id", IdKey(id)) && effects == []
                           && db.documents == old(db.documents) && dir.files == old(dir.files)
    ensures r.Success? ==> db.documents == old(db.documents) - {id}
    ensures r.Success? && old(db.documents[id].fields.filePath).None? ==>
              effects == [DeleteRecordCall(id)] && dir.files == old(dir.files)
    ensures r.Success? && old(db.documents[id].fields.filePath).Some? ==>
              effects == [DeleteFileCall(old(db.documents[id].fields.filePath.value)), DeleteRecordCall(id)]
              && dir.files == (if ioError then old(dir.files) else old(dir.files) - {old(db.documents[id].fields.filePath.value)})
  {
    var document := FindVisible(db.documents, p, id);
    if document.Failure? {
      return Failure(document.error), [];
    }
    effects := [];
    if document.value.fields.filePath.Some? {
      dir.DeleteFile(document.value.fields.filePath.value, ioError);
      effects := effects + [DeleteFileCall(document.value.fields.filePath.value)];
    }
    r := DeleteDocument(db, id);
    effects := effects + [DeleteRecordCall(id)];
  }

  /** `getDocumentStats`: the caller's document count. */
  function Stats(documents: map<int, DocRow>, p: Principal): (total: nat)
    ensures total == |OwnedKeys(documents, p.id)|
  {
    CountIsOwned(documents, p.id);
    CountDocumentsByUser(documents, p.id)
  }
}
