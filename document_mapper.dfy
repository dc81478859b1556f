/** `DocumentMapper`: between the `Document` entity and its transfer objects. Tag names
    from a request become new, unsaved tags named trim-then-lowercase; a document's tags
    become the set of their names, or null when there are none. */
module DocumentMapper {
  import opened Base
  import opened Text
  import opened Entities
  import opened UserMapper
  import TagService

  /** `DocumentDTO` without its timestamps. */
  datatype DocumentDto = DocumentDto(id: Option<int>, title: Option<string>, category: Option<string>,
                                     filePath: Option<string>, fileType: Option<string>, fileSize: Option<int>,
                                     extractedText: Option<string>, documentDate: Option<int>,
                                     user: Option<UserInfo>, tags: Option<set<string>>)

  /** `DocumentDTO.CreateDocumentRequest`. */
  datatype CreateRequest = CreateRequest(title: Option<string>, category: Option<string>,
                                         filePath: Option<string>, fileType: Option<string>, fileSize: Option<int>,
                                         extractedText: Option<string>, documentDate: Option<int>,
                                         userId: Option<int>, tags: Option<set<string>>)

  /** `DocumentDTO.UpdateDocumentRequest`. */
  datatype UpdateRequest = UpdateRequest(title: Option<string>, category: Option<string>,
                                         filePath: Option<string>, fileType: Option<string>, fileSize: Option<int>,
                                         extractedText: Option<string>, documentDate: Option<int>,
                                         tags: Option<set<string>>)

  /** A requested tag name, trimmed and then lower-cased. */
  function NormalizeName(name: string): string {
    Lower(Trim(name))
  }

  /** The names a request's tag set turns into, equal names collapsed. */
  function NormalizedNames(names: set<string>): set<string> {
    set n | n in names :: NormalizeName(n)
  }

  /** Every requested name contributes its normal form and nothing else is produced. */
  lemma NormalizedNamesMembers(names: set<string>, m: string)
    ensures m in NormalizedNames(names) <==> exists n :: n in names && NormalizeName(n) == m
  {
  }

  /** Some tags are produced exactly when some names were requested. */
  lemma NormalizedNamesEmpty(names: set<string>)
    ensures NormalizedNames(names) == {} <==> names == {}
  {
    if names != {} {
      var n :| n in names;
      assert NormalizeName(n) in NormalizedNames(names);
    }
  }

  /** The names of a set of tags. */
  function Names(tags: set<Tag>): set<string>
    reads tags
  {
    set t | t in tags :: t.name
  }

  /** `mapTagsToStrings`: null for no tags, otherwise the set of the tags' names. */
  function MapTagsToStrings(tags: set<Tag>): (r: Option<set<string>>)
    reads tags
    ensures r.None? <==> tags == {}
    ensures r.Some? ==> forall n :: n in r.value <==> exists t :: t in tags && t.name == n
  {
    if tags == {} then None else Some(Names(tags))
  }

  /** The objects a document's transfer object is read from. */
  function Parts(d: Document?): set<object>
    reads d
  {
    if d == null then {} else {d} + Opt(d.user) + d.tags
  }

  /** `toDto`: null for null; otherwise the eight columns, the owner as `toUserInfo` shows
      it, and the tag names. */
  function ToDto(d: Document?): (r: Option<DocumentDto>)
    reads Parts(d)
    ensures r.None? <==> d == null
    ensures d != null ==> r.value.id == d.id && r.value.title == d.title && r.value.category == d.category
    ensures d != null ==> r.value.filePath == d.filePath && r.value.fileType == d.fileType
    ensures d != null ==> r.value.fileSize == d.fileSize && r.value.extractedText == d.extractedText
    ensures d != null ==> r.value.documentDate == d.documentDate
    ensures d != null ==> (r.value.user.None? <==> d.user == null)
    ensures d != null && d.user != null ==>
              r.value.user == Some(UserInfo(d.user.id, d.user.username, d.user.GetFullName()))
    ensures d != null ==> r.value.tags == MapTagsToStrings(d.tags)
  {
    if d == null then None
    else Some(DocumentDto(d.id, d.title, d.category, d.filePath, d.fileType, d.fileSize,
                          d.extractedText, d.documentDate, ToUserInfo(d.user), MapTagsToStrings(d.tags)))
  }

  /** The objects the documents of a list are read from. */
  function ListParts(ds: seq<Document?>): set<object>
    reads set i | 0 <= i < |ds| && ds[i] != null :: ds[i]
  {
    set i, o | 0 <= i < |ds| && o in Parts(ds[i]) :: o
  }

  /** The element-wise conversion behind `toDtoList`. */
  function ToDtos(ds: seq<Document?>): (r: seq<Option<DocumentDto>>)
    reads set i | 0 <= i < |ds| && ds[i] != null :: ds[i]
    reads ListParts(ds)
    ensures |r| == |ds|
    ensures forall i :: 0 <= i < |ds| ==> r[i] == ToDto(ds[i])
  {
    if ds == [] then []
    else
      assert ListParts(ds[1..]) <= ListParts(ds) by {
        forall o | o in ListParts(ds[1..]) ensures o in ListParts(ds) {
          var i :| 0 <= i < |ds[1..]| && o in Parts(ds[1..][i]);
          assert ds[i + 1] == ds[1..][i];
        }
      }
      assert Parts(ds[0]) <= ListParts(ds);
      [ToDto(ds[0])] + ToDtos(ds[1..])
  }

  /** `toDtoList`: null for null; otherwise one entry per document, in the list's order. */
  function ToDtoList(ds: Option<seq<Document?>>): (r: Option<seq<Option<DocumentDto>>>)
    reads if ds.Some? then set i | 0 <= i < |ds.value| && ds.value[i] != null :: ds.value[i] else {}
    reads if ds.Some? then ListParts(ds.value) else {}
    ensures r.None? <==> ds.None?
    ensures ds.Some? ==> |r.value| == |ds.value|
    ensures ds.Some? ==> forall i :: 0 <= i < |ds.value| ==> r.value[i] == ToDto(ds.value[i])
  {
    if ds.None? then None else Some(ToDtos(ds.value))
  }

  /** The stream-and-collect of the tag names: one new, unsaved tag per distinct name
      (new tags with equal names are equal in a Java set, so only one of them is kept). */
  method NewTags(wanted: set<string>) returns (tags: set<Tag>)
    ensures forall t :: t in tags ==> fresh(t) && t.id.None? && t.documents == {}
    ensures Names(tags) == wanted
    ensures forall t, u :: t in tags && u in tags && t.name == u.name ==> t == u
  {
    var byName: map<string, Tag> := map[];
    var rest := wanted;
    while rest != {}
      invariant rest <= wanted && byName.Keys == wanted - rest
      invariant forall n :: n in byName ==> fresh(byName[n]) && byName[n].name == n
      invariant forall n :: n in byName ==> byName[n].id.None? && byName[n].documents == {}
      decreases rest
    {
      var name :| name in rest;
      var tag := new Tag(name);
      byName := byName[name := tag];
      rest := rest - {name};
    }
    tags := byName.Values;
    forall n | n in wanted ensures n in Names(tags) {
      assert byName[n] in tags;
    }
  }

  /** The tag step of `toEntity` and `updateEntity`: the document's tag set becomes new
      tags for the normalised names (the new tags are not told of the document). */
  method SetNewTags(d: Document, names: set<string>)
    requires names != {}
    modifies d`tags
    ensures forall t :: t in d.tags ==> fresh(t) && t.id.None? && t.documents == {}
    ensures MapTagsToStrings(d.tags) == Some(NormalizedNames(names))
  {
    NormalizedNamesEmpty(names);
    var tags := NewTags(NormalizedNames(names));
    d.tags := tags;
  }

  /** `Document.builder()` with the seven request columns: no id, no owner, no tags. */
  method Build(request: CreateRequest) returns (d: Document)
    ensures fresh(d) && d.id.None? && d.user == null && d.tags == {}
    ensures d.title == request.title && d.category == request.category
    ensures d.filePath == request.filePath && d.fileType == request.fileType
    ensures d.fileSize == request.fileSize && d.extractedText == request.extractedText
    ensures d.documentDate == request.documentDate
  {
    d := new Document();
    d.title, d.category, d.filePath, d.fileType := request.title, request.category, request.filePath, request.fileType;
    d.fileSize, d.extractedText, d.documentDate := request.fileSize, request.extractedText, request.documentDate;
  }

  /** `toEntity`: null for null; otherwise a new document with the seven request columns,
      an owner stub carrying only the requested user id (none without one), and new tags
      for the normalised names when the request has any. */
  method ToEntity(req: Option<CreateRequest>) returns (d: Document?)
    ensures d == null <==> req.None?
    ensures d != null ==> fresh(d) && d.id.None?
    ensures d != null ==>
              (d.title == req.value.title && d.category == req.value.category
               && d.filePath == req.value.filePath && d.fileType == req.value.fileType
               && d.fileSize == req.value.fileSize && d.extractedText == req.value.extractedText
               && d.documentDate == req.value.documentDate)
    ensures d != null && req.value.userId.None? ==> d.user == null
    ensures d != null && req.value.userId.Some? ==>
              d.user != null && fresh(d.user) && d.user.id == req.value.userId
              && d.user.username.None? && d.user.email.None? && d.user.firstName.None? && d.user.lastName.None?
              && d.user.documents == []
    ensures d != null ==> forall t :: t in d.tags ==> fresh(t) && t.id.None? && t.documents == {}
    ensures d != null ==>
              MapTagsToStrings(d.tags) == (if req.value.tags.None? || req.value.tags.value == {} then None
                                           else Some(NormalizedNames(req.value.tags.value)))
  {
    if req.None? {
      return null;
    }
    var request := req.value;
    d := Build(request);
    if request.userId.Some? {
      var user := new User(request.userId, None, None, None, None);
      d.user := user;
    }
    if request.tags.Some? && request.tags.value != {} {
      SetNewTags(d, request.tags.value);
    }
  }

  /** The tags of a document, as a frame (none for null). */
  function TagsOf(d: Document?): set<Tag>
    reads d
  {
    if d == null then {} else d.tags
  }

  /** `updateEntity`: with no request or no document, the document argument comes back
      untouched. Otherwise the seven columns take the request's values, unset ones too;
      with request tags, the old tags are cleared on both sides and, when there are
      names, replaced by new tags for the normalised names; without request tags the tags
      are kept. The id and the owner never change. */
  method UpdateEntity(d: Document?, req: Option<UpdateRequest>) returns (r: Document?)
    modifies d, TagsOf(d)`documents
    ensures r == d
    ensures d != null && req.None? ==> unchanged(d)
    ensures d != null && (req.None? || req.value.tags.None?) ==>
              forall t :: t in old(d.tags) ==> t.documents == old(t.documents)
    ensures d != null ==> d.id == old(d.id) && d.user == old(d.user)
    ensures d != null && req.Some? ==>
              d.title == req.value.title && d.category == req.value.category
              && d.filePath == req.value.filePath && d.fileType == req.value.fileType
              && d.fileSize == req.value.fileSize && d.extractedText == req.value.extractedText
              && d.documentDate == req.value.documentDate
    ensures d != null && req.Some? && req.value.tags.None? ==> d.tags == old(d.tags)
    ensures d != null && req.Some? && req.value.tags.Some? ==>
              forall t :: t in old(d.tags) ==> t.documents == old(t.documents) - {d}
    ensures d != null && req.Some? && req.value.tags.Some? ==>
              forall t :: t in d.tags ==> fresh(t) && t.id.None? && t.documents == {}
    ensures d != null && req.Some? && req.value.tags.Some? ==>
              MapTagsToStrings(d.tags) ==
              (if req.value.tags.value == {} then None else Some(NormalizedNames(req.value.tags.value)))
  {
    if req.None? || d == null {
      return d;
    }
    var request := req.value;
    d.title, d.category, d.filePath, d.fileType := request.title, request.category, request.filePath, request.fileType;
    d.fileSize, d.extractedText, d.documentDate := request.fileSize, request.extractedText, request.documentDate;
    if request.tags.Some? {
      d.ClearTags();
      if request.tags.value != {} {
        SetNewTags(d, request.tags.value);
      }
    }
    r := d;
  }

  /** Both normalisations of a tag name agree: the mapper's trim-then-lowercase and the
      tag service's lowercase-then-trim give the same name. */
  lemma NormalizationsAgree(name: string)
    ensures NormalizeName(name) == TagService.Normalize(name)
  {
    TrimLowerCommute(name);
  }
}
