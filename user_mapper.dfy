/** `UserMapper`: between the `User` entity and its transfer objects. Every conversion
    maps `null` to `null`; the update copies only the request values that are set. */
module UserMapper {
  import opened Base
  import opened Entities

  /** `UserDTO` without its timestamps. */
  datatype UserDto = UserDto(id: Option<int>, username: Option<string>, email: Option<string>,
                             firstName: Option<string>, lastName: Option<string>,
                             fullName: Option<string>, documentCount: nat)

  /** `DocumentDTO.UserInfo`: the owner as shown inside a document. */
  datatype UserInfo = UserInfo(id: Option<int>, username: Option<string>, fullName: Option<string>)

  /** `UserDTO.CreateUserRequest` and `UserDTO.UpdateUserRequest` (the same four fields). */
  datatype UserRequest = UserRequest(username: Option<string>, email: Option<string>,
                                     firstName: Option<string>, lastName: Option<string>)

  /** A request value replaces the current one only when it is set. */
  function Overwrite<T>(current: Option<T>, requested: Option<T>): Option<T> {
    if requested.Some? then requested else current
  }

  /** `toDto`: null for null; otherwise the identity and name columns, the display name
      and the number of documents. */
  function ToDto(u: User?): (r: Option<UserDto>)
    reads u
    ensures r.None? <==> u == null
    ensures u != null ==> r.value.id == u.id && r.value.username == u.username && r.value.email == u.email
    ensures u != null ==> r.value.firstName == u.firstName && r.value.lastName == u.lastName
    ensures u != null ==> r.value.fullName == u.GetFullName()
    ensures u != null ==> r.value.documentCount == |u.documents|
  {
    if u == null then None
    else Some(UserDto(u.id, u.username, u.email, u.firstName, u.lastName, u.GetFullName(), u.GetDocumentCount()))
  }

  /** The users of a list, as a frame. */
  function Users(us: seq<User?>): set<User> {
    set i | 0 <= i < |us| && us[i] != null :: us[i]
  }

  /** The element-wise conversion behind `toDtoList`. */
  function ToDtos(us: seq<User?>): (r: seq<Option<UserDto>>)
    reads Users(us)
    ensures |r| == |us|
    ensures forall i :: 0 <= i < |us| ==> r[i] == ToDto(us[i])
  {
    if us == [] then []
    else
      assert Users(us[1..]) <= Users(us) by {
        forall u | u in Users(us[1..]) ensures u in Users(us) {
          var i :| 0 <= i < |us[1..]| && us[1..][i] == u;
          assert us[i + 1] == u;
        }
      }
      [ToDto(us[0])] + ToDtos(us[1..])
  }

  /** `toDtoList`: null for null; otherwise one entry per user, in the list's order. */
  function ToDtoList(us: Option<seq<User?>>): (r: Option<seq<Option<UserDto>>>)
    reads if us.Some? then Users(us.value) else {}
    ensures r.None? <==> us.None?
    ensures us.Some? ==> |r.value| == |us.value|
    ensures us.Some? ==> forall i :: 0 <= i < |us.value| ==> r.value[i] == ToDto(us.value[i])
  {
    if us.None? then None else Some(ToDtos(us.value))
  }

  /** `toUserInfo`: null for null; otherwise id, username and display name. */
  function ToUserInfo(u: User?): (r: Option<UserInfo>)
    reads u
    ensures r.None? <==> u == null
    ensures u != null ==> r.value == UserInfo(u.id, u.username, u.GetFullName())
  {
    if u == null then None else Some(UserInfo(u.id, u.username, u.GetFullName()))
  }

  /** The user information inside a document agrees with the user's own transfer object. */
  lemma UserInfoAgreesWithDto(u: User)
    ensures ToUserInfo(u).value.id == ToDto(u).value.id
    ensures ToUserInfo(u).value.username == ToDto(u).value.username
    ensures ToUserInfo(u).value.fullName == ToDto(u).value.fullName
  {
  }

  /** `toEntity`: null for null; otherwise a new user with the four request fields, no id
      and no documents. */
  method ToEntity(req: Option<UserRequest>) returns (u: User?)
    ensures u == null <==> req.None?
    ensures u != null ==> fresh(u) && u.id.None? && u.documents == []
    ensures u != null ==> u.username == req.value.username && u.email == req.value.email
    ensures u != null ==> u.firstName == req.value.firstName && u.lastName == req.value.lastName
  {
    if req.None? {
      return null;
    }
    u := new User(None, req.value.username, req.value.email, req.value.firstName, req.value.lastName);
  }

  /** `updateEntity`: with no request or no user, the user argument comes back untouched;
      otherwise each of the four fields takes the request's value when that is set, and
      the id and the document list stay as they were. */
  method UpdateEntity(u: User?, req: Option<UserRequest>) returns (r: User?)
    modifies u
    ensures r == u
    ensures u != null && req.None? ==> unchanged(u)
    ensures u != null && req.Some? ==>
              u.username == Overwrite(old(u.username), req.value.username)
              && u.email == Overwrite(old(u.email), req.value.email)
              && u.firstName == Overwrite(old(u.firstName), req.value.firstName)
              && u.lastName == Overwrite(old(u.lastName), req.value.lastName)
    ensures u != null ==> u.id == old(u.id) && u.documents == old(u.documents)
  {
    if req.None? || u == null {
      return u;
    }
    if req.value.username.Some? {
      u.username := req.value.username;
    }
    if req.value.email.Some? {
      u.email := req.value.email;
    }
    if req.value.firstName.Some? {
      u.firstName := req.value.firstName;
    }
    if req.value.lastName.Some? {
      u.lastName := req.value.lastName;
    }
    r := u;
  }

  /** Only set values overwrite: an unset request value keeps the field, a set one
      replaces it, and applying the same request again changes nothing more. */
  lemma OverwriteOnlySet<T>(current: Option<T>, requested: Option<T>)
    ensures requested.None? ==> Overwrite(current, requested) == current
    ensures requested.Some? ==> Overwrite(current, requested) == requested
    ensures Overwrite(Overwrite(current, requested), requested) == Overwrite(current, requested)
  {
  }
}
