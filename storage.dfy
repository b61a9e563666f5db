/** The object-storage upload (backend/app/core/storage.py): builds an
    object key from the environment, the date and a fresh identifier, hands
    the bytes to the storage client, and returns the public URL. The clock,
    the UUID generator and the outcome of `put_object` are parameters. */
module Storage {
  import opened Wrappers
  import opened Text
  import Utf8

  datatype StorageSettings = StorageSettings(
    accountId: Option<string>, accessKeyId: Option<string>, bucketName: Option<string>,
    environment: string, publicDomain: Option<string>)

  predicate Truthy(v: Option<string>) {
    v.Some? && v.value != ""
  }

  /** Lines 7-20: a client exists when both the account id and the access
      key are set and constructing it did not raise. */
  predicate HasClient(s: StorageSettings, clientInitRaises: bool) {
    Truthy(s.accountId) && Truthy(s.accessKeyId) && !clientInitRaises
  }

  datatype PutRequest = PutRequest(bucket: string, key: string, body: seq<Utf8.byte>, contentType: string)

  /** The URL returned, if any, and the `put_object` call made, if any. */
  datatype UploadOutcome = UploadOutcome(url: Option<string>, put: Option<PutRequest>)

  function EnvPrefix(environment: string): (r: string)
    ensures r == "dev" <==> environment == "local"
    ensures r == "dev" || r == "prod"
  {
    if environment == "local" then "dev" else "prod"
  }

  /** `f"{env_prefix}/{date_folder}/{uuid}_{filename}"`. */
  function ObjectKey(environment: string, dateFolder: string, uuid: string, filename: string): string {
    EnvPrefix(environment) + "/" + dateFolder + "/" + uuid + "_" + filename
  }

  /** Python's `str()` of the configured domain: an unset one is "None". */
  function DomainText(d: Option<string>): string {
    if d.Some? then d.value else "None"
  }

  function PublicUrl(domain: string, key: string): string {
    RStrip(domain, '/') + "/" + key
  }

  /** `upload_file_to_r2`; `putRaises` says whether `put_object` raised. */
  function UploadFileToR2(s: StorageSettings, clientInitRaises: bool, content: seq<Utf8.byte>,
                          filename: string, contentType: string,
                          dateFolder: string, uuid: string, putRaises: bool): (r: UploadOutcome)
    ensures !HasClient(s, clientInitRaises) || !Truthy(s.bucketName) ==> r == UploadOutcome(None, None)
    ensures HasClient(s, clientInitRaises) && Truthy(s.bucketName) ==>
              r.put == Some(PutRequest(s.bucketName.value,
                                       ObjectKey(s.environment, dateFolder, uuid, filename), content, contentType))
    ensures r.url.Some? <==> r.put.Some? && !putRaises
    ensures r.url.Some? ==> r.url.value == PublicUrl(DomainText(s.publicDomain), r.put.value.key)
  {
    if !HasClient(s, clientInitRaises) || !Truthy(s.bucketName) then UploadOutcome(None, None)
    else
      var key := ObjectKey(s.environment, dateFolder, uuid, filename);
      var put := PutRequest(s.bucketName.value, key, content, contentType);
      if putRaises then UploadOutcome(None, Some(put))
      else UploadOutcome(Some(PublicUrl(DomainText(s.publicDomain), key)), Some(put))
  }

  /** The key sits under the environment's folder and the date folder and
      ends with the original file name, after the identifier and `_`. */
  lemma ObjectKeyShape(environment: string, dateFolder: string, uuid: string, filename: string)
    ensures var key := ObjectKey(environment, dateFolder, uuid, filename);
            && EndsWith(key, "_" + filename)
            && EndsWith(key, filename)
            && key[..|EnvPrefix(environment)| + 1] == EnvPrefix(environment) + "/"
            && key[|EnvPrefix(environment)| + 1..][..|dateFolder| + 1] == dateFolder + "/"
  {
    var p := EnvPrefix(environment);
    var key := ObjectKey(environment, dateFolder, uuid, filename);
    assert key == (p + "/") + (dateFolder + "/") + (uuid + "_" + filename);
    assert key[|key| - |filename|..] == filename;
    assert key[|key| - |filename| - 1..] == "_" + filename;
  }

  /** The URL is the domain without its trailing slashes, one slash, the
      key; so adding slashes to the configured domain changes nothing. */
  lemma {:induction false} PublicUrlShape(domain: string, key: string)
    ensures var url := PublicUrl(domain, key);
            && EndsWith(url, "/" + key)
            && (var host := url[..|url| - |key| - 1]; host == [] || host[|host| - 1] != '/')
            && PublicUrl(domain + "/", key) == url
  {
    var url := PublicUrl(domain, key);
    var host := RStrip(domain, '/');
    assert url == host + ("/" + key);
    assert url[..|url| - |key| - 1] == host;
    assert (domain + "/")[..|domain|] == domain;
  }
}
