/**
 * The client's operations (`apiClient` in client_implementation.go): each one
 * builds its request path, sends it through `makeRequest`, and turns the
 * response into its result. JSON decoding of a body is a function the caller
 * supplies; `File` then dispatches on the decoded record's encoding.
 */
module Client {
  import opened Wrappers
  import opened ByteStrings
  import PathEscape
  import Decimal
  import Base64
  import Paths
  import opened Requests

  const Base64Name: Bytes := Ascii("base64")
  const Ref: Bytes := Ascii("ref")

  /** A client: the token it sends and the access point it goes through. */
  datatype ApiClient = ApiClient(token: Bytes, access: ApiAccess)

  /** The JSON record the files endpoint returns. */
  datatype FileRecord = FileRecord(encoding: Bytes, content: Bytes, contentSha256: Bytes)

  /** The query `File` and `Archive` send: the tag under `ref`. */
  function RefQuery(tag: Bytes): (keys: map<Bytes, Bytes>)
    ensures keys.Keys == {Ref} && keys[Ref] == tag
  {
    map[Ref := tag]
  }

  /** A request on `path` whose body is then decoded as JSON into a `T`. */
  function Fetch<T>(c: ApiClient, path: Bytes, keys: map<Bytes, Bytes>, decode: Bytes -> Option<T>): (r: Result<T, Error>)
    ensures Outcome(c.access, path, c.token, keys).Failure? ==> r == Failure(Outcome(c.access, path, c.token, keys).error)
    ensures r.Success? <==>
      Outcome(c.access, path, c.token, keys).Success? && decode(Outcome(c.access, path, c.token, keys).value.body).Some?
    ensures r.Success? ==> r.value == decode(Outcome(c.access, path, c.token, keys).value.body).value
    ensures Outcome(c.access, path, c.token, keys).Success? && decode(Outcome(c.access, path, c.token, keys).value.body).None?
            ==> r == Failure(DecodeFailed)
  {
    match Outcome(c.access, path, c.token, keys)
    case Failure(e) => Failure(e)
    case Success(resp) =>
      match decode(resp.body)
      case None => Failure(DecodeFailed)
      case Some(v) => Success(v)
  }

  /**
   * The encoding switch of `File`: base64 content is decoded, and any other
   * encoding is an error that names it.
   */
  function FileContent(rec: FileRecord): (r: Result<Bytes, Error>)
    ensures rec.encoding != Base64Name ==> r == Failure(UnsupportedEncoding(rec.encoding))
    ensures rec.encoding == Base64Name && Base64.Decode(rec.content).None? ==> r == Failure(CorruptContent)
    ensures rec.encoding == Base64Name && Base64.Decode(rec.content).Some? ==> r == Success(Base64.Decode(rec.content).value)
    ensures r.Success? ==> rec.encoding == Base64Name && Base64.Decode(rec.content) == Some(r.value)
  {
    if rec.encoding == Base64Name then
      match Base64.Decode(rec.content)
      case None => Failure(CorruptContent)
      case Some(b) => Success(b)
    else
      Failure(UnsupportedEncoding(rec.encoding))
  }

  /** Content that is the base64 encoding of some bytes yields exactly those bytes. */
  lemma FileContentOfEncoded(b: Bytes, sha: Bytes)
    ensures FileContent(FileRecord(Base64Name, Base64.Encode(b), sha)) == Success(b)
  {
    Base64.DecodeEncode(b);
  }

  /** Base64 content cut off inside a quantum is an error, never bytes. */
  lemma FileContentOfTruncated(content: Bytes, sha: Bytes)
    requires |Base64.StripNewlines(content)| % 4 != 0
    ensures FileContent(FileRecord(Base64Name, content, sha)) == Failure(CorruptContent)
  {
    Base64.IncompleteQuantum(content);
  }

  /** Base64 content wrapped with a CR or LF gives the same result as the unwrapped content. */
  lemma FileContentIgnoresNewline(before: Bytes, after: Bytes, c: Byte, sha: Bytes)
    requires c == Base64.CR || c == Base64.LF
    ensures FileContent(FileRecord(Base64Name, before + [c] + after, sha))
         == FileContent(FileRecord(Base64Name, before + after, sha))
  {
    Base64.NewlineIgnored(before, after, c);
  }

  /** An empty encoding field is not base64: it is reported as unsupported. */
  lemma FileContentOfNoEncoding(content: Bytes, sha: Bytes)
    ensures FileContent(FileRecord([], content, sha)) == Failure(UnsupportedEncoding([]))
  {
    assert Base64Name[0] == 98;
  }

  /** What `Tags` returns. */
  function TagsResult<T>(c: ApiClient, project: Bytes, tagPrefix: Bytes, decode: Bytes -> Option<T>): Result<T, Error>
  {
    Fetch(c, Paths.TagsPath(project, tagPrefix), map[], decode)
  }

  /** What `File` returns: the fetched record, then its encoding switch. */
  function FileResult(c: ApiClient, project: Bytes, path: Bytes, tag: Bytes, decode: Bytes -> Option<FileRecord>): Result<Bytes, Error>
  {
    match Fetch(c, Paths.FilePath(project, path), RefQuery(tag), decode)
    case Failure(e) => Failure(e)
    case Success(rec) => FileContent(rec)
  }

  /** What `ProjectInfo` returns. */
  function ProjectInfoResult<T>(c: ApiClient, project: Bytes, decode: Bytes -> Option<T>): Result<T, Error>
  {
    Fetch(c, Paths.ProjectInfoPath(project), map[], decode)
  }

  /** What `Archive` returns: the body of the response, not decoded. */
  function ArchiveResult(c: ApiClient, projectID: int, tag: Bytes): Result<Bytes, Error>
  {
    match Outcome(c.access, Paths.ArchivePath(projectID), c.token, RefQuery(tag))
    case Failure(e) => Failure(e)
    case Success(resp) => Success(resp.body)
  }

  /** `Tags`: the prefix is appended as one more segment only when it is non-empty. */
  method Tags<T>(c: ApiClient, project: Bytes, tagPrefix: Bytes, decode: Bytes -> Option<T>) returns (r: Result<T, Error>)
    ensures r == TagsResult(c, project, tagPrefix, decode)
  {
    var urlPath: Bytes;
    if |tagPrefix| > 0 {
      urlPath := Paths.ProjectUrl(project, [Paths.Repository, Paths.TagsSegment, tagPrefix]);
    } else {
      urlPath := Paths.ProjectUrl(project, [Paths.Repository, Paths.TagsSegment]);
    }
    var resp := MakeRequest(c.access, urlPath, c.token, map[]);
    if resp.Failure? {
      return Failure(resp.error);
    }
    var dest := decode(resp.value.body);
    if dest.None? {
      return Failure(DecodeFailed);
    }
    r := Success(dest.value);
  }

  /** `File`: fetch the record for the escaped path at `tag`, then decode its content. */
  method File(c: ApiClient, project: Bytes, path: Bytes, tag: Bytes, decode: Bytes -> Option<FileRecord>)
    returns (r: Result<Bytes, Error>)
    ensures r == FileResult(c, project, path, tag, decode)
  {
    var urlPath := Paths.ProjectUrl(project, [Paths.Repository, Paths.Files, PathEscape.Escape(path)]);
    var resp := MakeRequest(c.access, urlPath, c.token, map[Ref := tag]);
    if resp.Failure? {
      return Failure(resp.error);
    }
    var dest := decode(resp.value.body);
    if dest.None? {
      return Failure(DecodeFailed);
    }
    if dest.value.encoding == Base64Name {
      var content := Base64.DecodeString(dest.value.content);
      if content.None? {
        return Failure(CorruptContent);
      }
      r := Success(content.value);
    } else {
      r := Failure(UnsupportedEncoding(dest.value.encoding));
    }
  }

  /** `ProjectInfo`: the project path with nothing behind it. */
  method ProjectInfo<T>(c: ApiClient, project: Bytes, decode: Bytes -> Option<T>) returns (r: Result<T, Error>)
    ensures r == ProjectInfoResult(c, project, decode)
  {
    var urlPath := Paths.ProjectUrl(project, []);
    var resp := MakeRequest(c.access, urlPath, c.token, map[]);
    if resp.Failure? {
      return Failure(resp.error);
    }
    var dest := decode(resp.value.body);
    if dest.None? {
      return Failure(DecodeFailed);
    }
    r := Success(dest.value);
  }

  /** `Archive`: the decimal project ID in the project slot, the tag under `ref`. */
  method Archive(c: ApiClient, projectID: int, tag: Bytes) returns (r: Result<Bytes, Error>)
    ensures r == ArchiveResult(c, projectID, tag)
  {
    var urlPath := Paths.ProjectUrl(Decimal.Itoa(projectID), [Paths.Repository, Paths.ArchiveZip]);
    var resp := MakeRequest(c.access, urlPath, c.token, map[Ref := tag]);
    if resp.Failure? {
      return Failure(resp.error);
    }
    r := Success(resp.value.body);
  }
}
