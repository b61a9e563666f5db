/** The database tables the backend reads and writes, held in memory: one
    sequence of records per table, in insertion order. The SQL engine, its
    sessions and commits are not modelled; identifiers are opaque values
    that the caller supplies fresh. */
module Db {
  import opened Wrappers

  type Uuid = nat

  datatype User = User(id: Uuid, email: string, hashedPassword: string,
                       isActive: bool, isSuperuser: bool, fullName: Option<string>)

  datatype FileRecord = FileRecord(id: Uuid, filename: string, extractedText: Option<string>,
                                   fileUrl: Option<string>, ownerId: Uuid)

  /** An HTTP error the routes raise: a status code and a detail text. */
  datatype ApiError = ApiError(status: int, detail: string)

  const NotFound: ApiError := ApiError(404, "File not found")
  const Forbidden: ApiError := ApiError(403, "Not enough permissions")

  predicate UserIdsDistinct(users: seq<User>) {
    forall i, j :: 0 <= i < j < |users| ==> users[i].id != users[j].id
  }

  predicate FileIdsDistinct(files: seq<FileRecord>) {
    forall i, j :: 0 <= i < j < |files| ==> files[i].id != files[j].id
  }

  /** Removing one record keeps the primary keys unique. */
  lemma RemoveKeepsDistinct(files: seq<FileRecord>, k: nat)
    requires FileIdsDistinct(files) && k < |files|
    ensures FileIdsDistinct(files[..k] + files[k + 1..])
  {
    var rest := files[..k] + files[k + 1..];
    forall i, j | 0 <= i < j < |rest| ensures rest[i].id != rest[j].id {
      assert rest[i] == files[if i < k then i else i + 1];
      assert rest[j] == files[if j < k then j else j + 1];
    }
  }

  class Session {
    var users: seq<User>
    var files: seq<FileRecord>

    /** Primary keys are unique. */
    ghost predicate Valid()
      reads this
    {
      UserIdsDistinct(users) && FileIdsDistinct(files)
    }

    constructor ()
      ensures Valid() && users == [] && files == []
    {
      users, files := [], [];
    }
  }

  /** The position of the first element that satisfies `p`, if any: the
      search behind both `session.get` and the e-mail lookup. */
  function FirstIndex<T>(s: seq<T>, p: T -> bool): (r: Option<nat>)
    ensures r.Some? ==> r.value < |s| && p(s[r.value])
    ensures r.Some? ==> forall j :: 0 <= j < r.value ==> !p(s[j])
    ensures r.None? <==> forall k :: 0 <= k < |s| ==> !p(s[k])
    decreases |s|
  {
    if s == [] then None
    else if p(s[0]) then Some(0)
    else
      match FirstIndex(s[1..], p)
      case None => None
      case Some(k) => Some(k + 1)
  }

  /** The position of the record with primary key `id`, if any. */
  function FileIndex(files: seq<FileRecord>, id: Uuid): Option<nat> {
    FirstIndex(files, (f: FileRecord) => f.id == id)
  }

  /** `session.get(File, id)`. */
  function GetFile(files: seq<FileRecord>, id: Uuid): (r: Option<FileRecord>)
    ensures r.Some? ==> r.value in files && r.value.id == id
    ensures r.None? <==> forall f :: f in files ==> f.id != id
  {
    match FileIndex(files, id)
    case None => None
    case Some(k) => Some(files[k])
  }
}
