/** The JPA entities `User`, `Document` and `Tag` as heap objects, with the
    helper methods that keep the two sides of each relationship in step:
    a user's `documents` list against each document's `user`, and a
    document's `tags` set against each tag's `documents` set. */
module Entities {
  import opened Base
  import opened Text

  /** `List.remove(Object)`: drop the first occurrence of `x`, if any. */
  function RemoveFirst<T(==)>(s: seq<T>, x: T): (r: seq<T>)
    ensures |s| - 1 <= |r| <= |s|
  {
    if s == [] then []
    else if s[0] == x then s[1..]
    else [s[0]] + RemoveFirst(s[1..], x)
  }

  /** `List.remove` of an absent element leaves the list as it was. */
  lemma {:induction false} RemoveFirstAbsent<T>(s: seq<T>, x: T)
    requires x !in s
    ensures RemoveFirst(s, x) == s
  {
    if s != [] {
      assert s[0] != x && x !in s[1..];
      RemoveFirstAbsent(s[1..], x);
      assert s == [s[0]] + s[1..];
    }
  }

  /** `List.remove` takes away exactly one occurrence of `x`, when there is one. */
  lemma {:induction false} RemoveFirstMultiset<T>(s: seq<T>, x: T)
    ensures multiset(RemoveFirst(s, x)) == multiset(s) - multiset{x}
  {
    if s != [] {
      assert s == [s[0]] + s[1..];
      if s[0] != x {
        RemoveFirstMultiset(s[1..], x);
      }
    }
  }

  lemma ShrinkBelow<T>(a: seq<T>, b: seq<T>, c: seq<T>, x: T)
    requires multiset(a) <= multiset(b) - multiset{x}
    requires multiset(b) <= multiset(c)
    requires |c| > 0 && c[0] == x
    ensures multiset(a) <= multiset(c[1..])
  {
    assert c == [x] + c[1..];
  }

  /** Append `x` unless the list already contains it. */
  function Attach<T(==)>(s: seq<T>, x: T): (r: seq<T>)
    ensures x in r
    ensures x in s ==> r == s
    ensures x !in s ==> multiset(r) == multiset(s) + multiset{x}
  {
    if x in s then s else s + [x]
  }

  /** The object `u` refers to, as a frame: empty for `null`. */
  function Opt(u: User?): set<User> {
    if u == null then {} else {u}
  }

  /** The documents of a list, as a frame. */
  function Elems(ds: seq<Document>): set<Document> {
    set j | 0 <= j < |ds| :: ds[j]
  }

  /** A list holds at least as many entries as distinct elements, and exactly as many
      when no element occurs twice. */
  lemma {:induction false} DistinctCount<T>(s: seq<T>)
    ensures |set j | 0 <= j < |s| :: s[j]| <= |s|
    ensures (forall i, j :: 0 <= i < j < |s| ==> s[i] != s[j]) ==> |set j | 0 <= j < |s| :: s[j]| == |s|
  {
    if s != [] {
      var tail := s[1..];
      DistinctCount(tail);
      var all := set j | 0 <= j < |s| :: s[j];
      var rest := set j | 0 <= j < |tail| :: tail[j];
      assert all == {s[0]} + rest by {
        forall x | x in all ensures x in {s[0]} + rest {
          var j :| 0 <= j < |s| && s[j] == x;
          if j > 0 {
            assert tail[j - 1] == x;
          }
        }
        forall x | x in rest ensures x in all {
          var j :| 0 <= j < |tail| && tail[j] == x;
          assert s[j + 1] == x;
        }
      }
      if forall i, j :: 0 <= i < j < |s| ==> s[i] != s[j] {
        assert forall j :: 0 <= j < |tail| ==> tail[j] == s[j + 1] != s[0];
        assert s[0] !in rest;
      }
    }
  }

  /** The users that own some document of `ds`. */
  function Owners(ds: seq<Document>): set<User>
    reads Elems(ds)
  {
    set j | 0 <= j < |ds| && ds[j].user != null :: ds[j].user
  }

  /** The bean-validation constraints on a tag name: not blank, at most 100 characters.
      (Uniqueness across tags is a property of the table, `Store.UniqueTagNames`.) */
  predicate ValidTagName(name: string) {
    !IsBlank(name) && |name| <= 100
  }

  class User {
    var id: Option<int>
    var username: Option<string>
    var email: Option<string>
    var firstName: Option<string>
    var lastName: Option<string>
    var documents: seq<Document>

    /** The builder and the all-field constructors: the document list starts empty. */
    constructor (id: Option<int>, username: Option<string>, email: Option<string>,
                 firstName: Option<string>, lastName: Option<string>)
      ensures this.id == id && this.username == username && this.email == email
      ensures this.firstName == firstName && this.lastName == lastName
      ensures documents == []
    {
      this.id := id;
      this.username := username;
      this.email := email;
      this.firstName := firstName;
      this.lastName := lastName;
      documents := [];
    }

    /** `getFullName`: "first last" when both are set, else whichever is set, else the username. */
    function GetFullName(): (r: Option<string>)
      reads this
      ensures firstName.Some? || lastName.Some? ==> r.Some?
      ensures firstName.None? && lastName.None? ==> r == username
      ensures firstName.Some? ==> firstName.value <= r.value
      ensures lastName.Some? ==> |lastName.value| <= |r.value| && r.value[|r.value| - |lastName.value|..] == lastName.value
      ensures firstName.Some? && lastName.Some? ==>
                |r.value| == |firstName.value| + 1 + |lastName.value| && r.value[|firstName.value|] == ' '
      ensures firstName.Some? && lastName.None? ==> |r.value| == |firstName.value|
      ensures firstName.None? && lastName.Some? ==> |r.value| == |lastName.value|
    {
      if firstName.Some? && lastName.Some? then Some(firstName.value + " " + lastName.value)
      else if firstName.Some? then firstName
      else if lastName.Some? then lastName
      else username
    }

    /** `getDocumentCount`: the size of the document list, which counts every distinct
        document and, when the list holds none twice, nothing more. */
    function GetDocumentCount(): (n: nat)
      reads this
      ensures |Elems(documents)| <= n
      ensures (forall i, j :: 0 <= i < j < |documents| ==> documents[i] != documents[j]) ==> n == |Elems(documents)|
    {
      DistinctCount(documents);
      |documents|
    }

    /** `addDocument`: append `d`, then `d.setUser(this)`, which detaches `d` from its
        previous owner (removing one occurrence from this list when that owner is this
        user) and re-appends it only if the list no longer holds it. */
    method AddDocument(d: Document)
      modifies this`documents, d`user, Opt(d.user)`documents
      ensures d.user == this
      ensures d in documents
      ensures documents == Attach(if old(d.user) == this then RemoveFirst(old(documents) + [d], d)
                                  else old(documents) + [d], d)
      ensures old(d.user) != null && old(d.user) != this ==>
                old(d.user).documents == RemoveFirst(old(d.user.documents), d)
      ensures (d in old(documents) <==> old(d.user) == this) && multiset(old(documents))[d] <= 1 ==>
                multiset(documents)[d] == 1
    {
      RemoveFirstMultiset(documents + [d], d);
      documents := documents + [d];
      d.SetUser(this);
    }

    /** `removeDocument`: remove one occurrence of `d`, then `d.setUser(null)`, which removes
        one more occurrence from the list of `d`'s owner (this list again when the owner is this user). */
    method RemoveDocument(d: Document)
      modifies this`documents, d`user, Opt(d.user)`documents
      ensures d.user == null
      ensures documents == if old(d.user) == this then RemoveFirst(RemoveFirst(old(documents), d), d)
                           else RemoveFirst(old(documents), d)
      ensures old(d.user) != null && old(d.user) != this ==>
                old(d.user).documents == RemoveFirst(old(d.user.documents), d)
      ensures multiset(documents) <= multiset(old(documents)) - multiset{d}
      ensures multiset(old(documents))[d] <= 1 ==> d !in documents
    {
      RemoveFirstMultiset(documents, d);
      RemoveFirstMultiset(RemoveFirst(documents, d), d);
      documents := RemoveFirst(documents, d);
      d.SetUser(null);
    }

    /** `clearDocuments`: `removeDocument` on each element of a copy of the list. */
    method ClearDocuments()
      modifies this`documents, Elems(documents)`user, Owners(documents)`documents
      ensures documents == []
      ensures forall d :: d in old(documents) ==> d.user == null
    {
      var copy := documents;
      for i := 0 to |copy|
        invariant multiset(documents) <= multiset(copy[i..])
        invariant forall x :: x in copy[..i] ==> x.user == null
        invariant forall j :: 0 <= j < |copy| ==> copy[j].user == null || copy[j].user == old(copy[j].user)
      {
        var d := copy[i];
        ghost var before := documents;
        RemoveDocument(d);
        ShrinkBelow(documents, before, copy[i..], d);
        assert copy[..i + 1] == copy[..i] + [d];
      }
      assert copy[|copy|..] == [];
      assert |documents| == |multiset(documents)| == 0;
      assert copy[..|copy|] == copy;
    }
  }

  class Document {
    var id: Option<int>
    var title: Option<string>
    var category: Option<string>
    var filePath: Option<string>
    var fileType: Option<string>
    var fileSize: Option<int>
    var extractedText: Option<string>
    var documentDate: Option<int>
    var user: User?
    var tags: set<Tag>

    /** The no-argument constructor and the builder: no owner, no tags. */
    constructor ()
      ensures id.None? && title.None? && category.None? && filePath.None? && fileType.None?
      ensures fileSize.None? && extractedText.None? && documentDate.None?
      ensures user == null && tags == {}
    {
      id, title, category, filePath, fileType := None, None, None, None, None;
      fileSize, extractedText, documentDate := None, None, None;
      user, tags := null, {};
    }

    /** `addTag`: both sides gain the link; a tag already present is not duplicated. */
    method AddTag(t: Tag)
      modifies this`tags, t`documents
      ensures tags == old(tags) + {t} && t in tags
      ensures t.documents == old(t.documents) + {this} && this in t.documents
      ensures t in old(tags) ==> tags == old(tags)
    {
      tags := tags + {t};
      t.documents := t.documents + {this};
    }

    /** `removeTag`: both sides lose the link, nothing else changes. */
    method RemoveTag(t: Tag)
      modifies this`tags, t`documents
      ensures tags == old(tags) - {t} && t !in tags
      ensures t.documents == old(t.documents) - {this} && this !in t.documents
    {
      tags := tags - {t};
      t.documents := t.documents - {this};
    }

    /** `clearTags`: `removeTag` on each element of a copy of the tag set. */
    method ClearTags()
      modifies this`tags, tags`documents
      ensures tags == {}
      ensures forall t :: t in old(tags) ==> t.documents == old(t.documents) - {this}
    {
      var rest := tags;
      while rest != {}
        invariant tags == rest && rest <= old(tags)
        invariant forall t :: t in old(tags) && t !in rest ==> t.documents == old(t.documents) - {this}
        invariant forall t :: t in rest ==> t.documents == old(t.documents)
        decreases rest
      {
        var t :| t in rest;
        RemoveTag(t);
        rest := rest - {t};
      }
    }

    /** `setUser`: leave the previous owner's list, take the new owner, and join the new
        owner's list unless it already holds this document. */
    method SetUser(u: User?)
      modifies this`user, Opt(user)`documents, Opt(u)`documents
      ensures user == u
      ensures old(user) != null && old(user) != u ==>
                old(user).documents == RemoveFirst(old(user.documents), this)
      ensures u != null ==>
                u.documents == Attach(if old(user) == u then RemoveFirst(old(u.documents), this)
                                      else old(u.documents), this)
      ensures u != null ==> this in u.documents
      ensures u != null && multiset(old(u.documents))[this] <= 1 ==> multiset(u.documents)[this] == 1
    {
      if u != null {
        RemoveFirstMultiset(u.documents, this);
      }
      if user != null {
        user.documents := RemoveFirst(user.documents, this);
      }
      user := u;
      if u != null && this !in u.documents {
        u.documents := u.documents + [this];
      }
    }

    /** `getUserFullName`: null without an owner, else the owner's full name, which is
        present whenever the owner has a first name, a last name or a username. */
    function GetUserFullName(): (r: Option<string>)
      reads this, Opt(user)
      ensures user == null ==> r.None?
      ensures user != null ==> r == user.GetFullName()
      ensures user != null && (user.firstName.Some? || user.lastName.Some? || user.username.Some?) ==> r.Some?
    {
      if user == null then None else user.GetFullName()
    }

    /** `getUserUsername`: null without an owner, else the owner's username. */
    function GetUserUsername(): (r: Option<string>)
      reads this, Opt(user)
      ensures user == null ==> r.None?
      ensures user != null ==> r == user.username
    {
      if user == null then None else user.username
    }
  }

  class Tag {
    var id: Option<int>
    var name: string
    var documents: set<Document>

    /** `new Tag(name)` and `Tag.builder().name(name).build()`: no id, no documents. */
    constructor (name: string)
      ensures this.name == name && id.None? && documents == {}
    {
      this.name := name;
      id := None;
      documents := {};
    }

    /** `addDocument`: both sides gain the link. */
    method AddDocument(d: Document)
      modifies this`documents, d`tags
      ensures documents == old(documents) + {d} && d in documents
      ensures d.tags == old(d.tags) + {this} && this in d.tags
    {
      documents := documents + {d};
      d.tags := d.tags + {this};
    }

    /** `removeDocument`: both sides lose the link. */
    method RemoveDocument(d: Document)
      modifies this`documents, d`tags
      ensures documents == old(documents) - {d} && d !in documents
      ensures d.tags == old(d.tags) - {this} && this !in d.tags
    {
      documents := documents - {d};
      d.tags := d.tags - {this};
    }
  }

  /** `addDocument` followed by `removeDocument` of a document not yet linked restores both sides. */
  method AddThenRemoveRestores(t: Tag, d: Document)
    requires d !in t.documents && t !in d.tags
    modifies t`documents, d`tags
    ensures t.documents == old(t.documents) && d.tags == old(d.tags)
  {
    t.AddDocument(d);
    t.RemoveDocument(d);
  }
}
