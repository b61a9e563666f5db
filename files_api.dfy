/** The file routes of backend/app/api/routes/files.py: upload, the
    caller's paged listing, and delete. The caller is the user the
    authentication layer resolved. */
module FilesApi {
  import opened Wrappers
  import opened Db
  import Utf8
  import Crud

  const DecodeFallback: string := "텍스트 변환 실패 (바이너리 파일)"

  /** Lines 23-27: the content as UTF-8 text, or the fixed fallback when
      it is not valid UTF-8. */
  function ExtractText(content: seq<Utf8.byte>): (r: string)
    ensures Utf8.Decode(content).Some? ==> r == Utf8.Decode(content).value
    ensures Utf8.Decode(content).None? ==> r == DecodeFallback
  {
    match Utf8.Decode(content)
    case Some(text) => text
    case None => DecodeFallback
  }

  /** Any text uploaded as UTF-8 is stored as exactly that text. */
  lemma ExtractTextOfEncoded(s: string)
    ensures ExtractText(Utf8.Encode(s)) == s
  {
    Utf8.DecodeEncode(s);
  }

  /** The fallback is stored exactly for content that is not the UTF-8
      encoding of any text. */
  lemma FallbackExactlyForInvalid(content: seq<Utf8.byte>)
    ensures Utf8.Decode(content).None? <==> forall s :: Utf8.Encode(s) != content
  {
    match Utf8.Decode(content)
    case Some(s0) =>
      Utf8.EncodeDecode(content);
    case None =>
      forall s ensures Utf8.Encode(s) != content {
        Utf8.DecodeIffEncode(content, s);
      }
  }

  datatype Upload = Upload(filename: string, content: seq<Utf8.byte>)

  /** `create_file` (POST /files/). */
  method CreateFile(session: Session, currentUser: User, upload: Upload, newId: Uuid)
    returns (f: FileRecord)
    requires session.Valid()
    requires forall k :: 0 <= k < |session.files| ==> session.files[k].id != newId
    modifies session
    ensures session.Valid()
    ensures f.id == newId && f.filename == upload.filename && f.ownerId == currentUser.id
    ensures f.fileUrl == None && f.extractedText == Some(ExtractText(upload.content))
    ensures session.files == old(session.files) + [f] && session.users == old(session.users)
  {
    var extracted := ExtractText(upload.content);
    var fileIn := Crud.FileCreate(upload.filename, Some(extracted), None);
    f := Crud.CreateFile(session, fileIn, currentUser.id, newId);
  }

  /** The records owned by `owner`, in table order. */
  function OwnedBy(files: seq<FileRecord>, owner: Uuid): (r: seq<FileRecord>)
    ensures |r| <= |files|
    ensures forall f :: f in r ==> f in files && f.ownerId == owner
    ensures forall k :: 0 <= k < |files| && files[k].ownerId == owner ==> files[k] in r
    decreases |files|
  {
    if files == [] then []
    else if files[0].ownerId == owner then [files[0]] + OwnedBy(files[1..], owner)
    else OwnedBy(files[1..], owner)
  }

  datatype FilesPublic = FilesPublic(data: seq<FileRecord>, count: nat)

  function Min(a: int, b: int): int { if a < b then a else b }

  /** `read_files` (GET /files/?skip=&limit=). */
  function ReadFiles(files: seq<FileRecord>, userId: Uuid, skip: nat, limit: nat): (r: FilesPublic)
    ensures forall f :: f in r.data ==> f in files && f.ownerId == userId
    ensures r.count == |OwnedBy(files, userId)|
    ensures |r.data| == if skip >= r.count then 0 else Min(limit, r.count - skip)
    ensures skip < r.count ==> r.data == OwnedBy(files, userId)[skip..skip + |r.data|]
  {
    var owned := OwnedBy(files, userId);
    var from := Min(skip, |owned|);
    var to := Min(from + limit, |owned|);
    assert forall f :: f in owned[from..to] ==> f in owned;
    FilesPublic(owned[from..to], |owned|)
  }

  /** Consecutive pages put together are the longer page. */
  lemma PagesConcatenate(files: seq<FileRecord>, userId: Uuid, a: nat, b: nat)
    ensures ReadFiles(files, userId, 0, a).data + ReadFiles(files, userId, a, b).data
            == ReadFiles(files, userId, 0, a + b).data
  {
    var owned := OwnedBy(files, userId);
    var n := |owned|;
    var first := ReadFiles(files, userId, 0, a).data;
    var second := ReadFiles(files, userId, a, b).data;
    assert first == owned[0..Min(a, n)];
    assert second == owned[Min(a, n)..Min(Min(a, n) + b, n)];
    assert ReadFiles(files, userId, 0, a + b).data == owned[0..Min(a + b, n)];
  }

  datatype Message = Message(message: string)

  const Deleted: Message := Message("File deleted successfully")

  /** `delete_file` (DELETE /files/{id}): 404 before 403, then removal. */
  method DeleteFile(session: Session, currentUser: User, id: Uuid) returns (r: Result<Message, ApiError>)
    requires session.Valid()
    modifies session
    ensures session.Valid() && session.users == old(session.users)
    ensures FileIndex(old(session.files), id).None? ==>
              r == Err(NotFound) && session.files == old(session.files)
    ensures FileIndex(old(session.files), id).Some? ==>
              var k := FileIndex(old(session.files), id).value;
              if old(session.files)[k].ownerId != currentUser.id then
                r == Err(Forbidden) && session.files == old(session.files)
              else
                r == Ok(Deleted) && session.files == old(session.files)[..k] + old(session.files)[k + 1..]
  {
    var found := FileIndex(session.files, id);
    if found.None? {
      return Err(NotFound);
    }
    var k := found.value;
    if session.files[k].ownerId != currentUser.id {
      return Err(Forbidden);
    }
    RemoveKeepsDistinct(session.files, k);
    session.files := session.files[..k] + session.files[k + 1..];
    return Ok(Deleted);
  }

  /** After removing the record at `id`'s position, no record has `id` and
      every other record is still there, in the same order. */
  lemma DeleteRemovesExactlyOne(files: seq<FileRecord>, id: Uuid)
    requires FileIdsDistinct(files) && FileIndex(files, id).Some?
    ensures var k := FileIndex(files, id).value;
            var rest := files[..k] + files[k + 1..];
            && FileIndex(rest, id).None?
            && |rest| == |files| - 1
            && forall j :: 0 <= j < |files| && j != k ==> files[j] in rest
  {
    var k := FileIndex(files, id).value;
    var rest := files[..k] + files[k + 1..];
    forall j | 0 <= j < |rest| ensures rest[j].id != id {
      assert rest[j] == files[if j < k then j else j + 1];
    }
    forall j | 0 <= j < |files| && j != k ensures files[j] in rest {
      assert files[j] == rest[if j < k then j else j - 1];
    }
  }
}
