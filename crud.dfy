/** The record operations of backend/app/crud.py. Password hashing and
    verification are parameters (`hash`, `verify`), as their implementation
    lives in a module this model does not include. */
module Crud {
  import opened Wrappers
  import opened Db

  datatype UserCreate = UserCreate(email: string, password: string, isActive: bool,
                                   isSuperuser: bool, fullName: Option<string>)

  /** An update; `None` is a field the client did not set
      (`model_dump(exclude_unset=True)` leaves it out). */
  datatype UserUpdate = UserUpdate(email: Option<string>, password: Option<string>,
                                   isActive: Option<bool>, isSuperuser: Option<bool>,
                                   fullName: Option<Option<string>>)

  datatype FileCreate = FileCreate(filename: string, extractedText: Option<string>, fileUrl: Option<string>)

  /** `create_user`: stores a new user with the hash of the password. */
  method CreateUser(session: Session, userCreate: UserCreate, hash: string -> string, newId: Uuid)
    returns (u: User)
    requires session.Valid()
    requires forall k :: 0 <= k < |session.users| ==> session.users[k].id != newId
    modifies session
    ensures session.Valid()
    ensures u.id == newId && u.email == userCreate.email && u.hashedPassword == hash(userCreate.password)
    ensures u.isActive == userCreate.isActive && u.isSuperuser == userCreate.isSuperuser
    ensures u.fullName == userCreate.fullName
    ensures session.users == old(session.users) + [u] && session.files == old(session.files)
  {
    u := User(newId, userCreate.email, hash(userCreate.password),
              userCreate.isActive, userCreate.isSuperuser, userCreate.fullName);
    session.users := session.users + [u];
  }

  /** `db_user.sqlmodel_update(user_data, update=extra_data)`: each field set
      in the update is copied; a password becomes `hashed_password`. */
  function ApplyUpdate(user: User, upd: UserUpdate, hash: string -> string): (r: User)
    ensures r.id == user.id
    ensures r.hashedPassword == if upd.password.Some? then hash(upd.password.value) else user.hashedPassword
    ensures r.email == upd.email.GetOr(user.email)
    ensures r.isActive == upd.isActive.GetOr(user.isActive)
    ensures r.isSuperuser == upd.isSuperuser.GetOr(user.isSuperuser)
    ensures r.fullName == upd.fullName.GetOr(user.fullName)
  {
    User(user.id, upd.email.GetOr(user.email),
         if upd.password.Some? then hash(upd.password.value) else user.hashedPassword,
         upd.isActive.GetOr(user.isActive), upd.isSuperuser.GetOr(user.isSuperuser),
         upd.fullName.GetOr(user.fullName))
  }

  const NoChanges: UserUpdate := UserUpdate(None, None, None, None, None)

  /** An update that sets nothing changes nothing. Applying an update a
      second time gives what the second application alone gives: each call
      may hash with its own function, as a salted hash gives a new digest
      every time, and only without a password is the second call a no-op. */
  lemma UpdateLaws(user: User, upd: UserUpdate, hash1: string -> string, hash2: string -> string)
    ensures ApplyUpdate(user, NoChanges, hash1) == user
    ensures ApplyUpdate(ApplyUpdate(user, upd, hash1), upd, hash2) == ApplyUpdate(user, upd, hash2)
    ensures upd.password.None? ==>
              ApplyUpdate(ApplyUpdate(user, upd, hash1), upd, hash2) == ApplyUpdate(user, upd, hash1)
  {
  }

  /** `update_user`: the stored record is replaced by its updated version. */
  method UpdateUser(session: Session, index: nat, userIn: UserUpdate, hash: string -> string)
    returns (u: User)
    requires session.Valid() && index < |session.users|
    modifies session
    ensures session.Valid()
    ensures u == ApplyUpdate(old(session.users[index]), userIn, hash)
    ensures session.users == old(session.users)[index := u] && session.files == old(session.files)
  {
    u := ApplyUpdate(session.users[index], userIn, hash);
    session.users := session.users[index := u];
  }

  /** The position of the first user with this e-mail address. */
  function UserIndexByEmail(users: seq<User>, email: string): Option<nat> {
    FirstIndex(users, (u: User) => u.email == email)
  }

  /** `get_user_by_email`: the first user with the address, or `None`. */
  function GetUserByEmail(users: seq<User>, email: string): (r: Option<User>)
    ensures r.Some? ==> r.value in users && r.value.email == email
    ensures r.None? <==> forall u :: u in users ==> u.email != email
  {
    match UserIndexByEmail(users, email)
    case None => None
    case Some(k) => Some(users[k])
  }

  /** `authenticate`: the user with the address whose stored hash verifies
      the password. */
  function Authenticate(users: seq<User>, email: string, password: string,
                        verify: (string, string) -> bool): (r: Option<User>)
    ensures r.Some? ==> r.value in users && r.value.email == email && verify(password, r.value.hashedPassword)
    ensures (forall u :: u in users ==> u.email != email) ==> r.None?
    ensures r.Some? ==> r == GetUserByEmail(users, email)
    ensures GetUserByEmail(users, email).Some? ==>
              (r.Some? <==> verify(password, GetUserByEmail(users, email).value.hashedPassword))
  {
    match GetUserByEmail(users, email)
    case None => None
    case Some(u) => if verify(password, u.hashedPassword) then Some(u) else None
  }

  /** When the first user with the address fails verification, a later one
      with the same address is not tried. */
  lemma AuthenticateTriesFirstOnly(users: seq<User>, email: string, password: string,
                                   verify: (string, string) -> bool, k: nat)
    requires k < |users| && users[k].email == email
    requires forall j :: 0 <= j < k ==> users[j].email != email
    ensures Authenticate(users, email, password, verify).Some? <==> verify(password, users[k].hashedPassword)
  {
    if UserIndexByEmail(users, email).Some? {
      var i := UserIndexByEmail(users, email).value;
      assert i == k;
    }
  }

  /** `create_file`: stores one record owned by `ownerId`. */
  method CreateFile(session: Session, fileIn: FileCreate, ownerId: Uuid, newId: Uuid)
    returns (f: FileRecord)
    requires session.Valid()
    requires forall k :: 0 <= k < |session.files| ==> session.files[k].id != newId
    modifies session
    ensures session.Valid()
    ensures f == FileRecord(newId, fileIn.filename, fileIn.extractedText, fileIn.fileUrl, ownerId)
    ensures session.files == old(session.files) + [f] && session.users == old(session.users)
  {
    f := FileRecord(newId, fileIn.filename, fileIn.extractedText, fileIn.fileUrl, ownerId);
    session.files := session.files + [f];
  }
}
