# gitlab client core in Dafny

This project models the request-building and response-handling logic of the
`sirkon/gitlab` API client (`client_implementation.go`). It covers:

- **Request paths.** `projectURL` builds the slice `["", "projects",
  PathEscape(project), items...]` and joins it with `/`. `Tags`, `File`,
  `ProjectInfo` and `Archive` each choose the trailing segments. `Paths`
  models this, including the in-place slice filling, as the method
  `ProjectUrl` over an `array`.
- **Path escaping.** `PathEscape` models Go's `url.PathEscape`, a
  percent-encoder for one path segment (section 2.1 of RFC 3986), and its
  inverse `PathUnescape`.
- **Project IDs.** `Decimal` models the decimal rendering of `Archive`'s
  numeric project ID (`strconv.Itoa`) and its inverse `strconv.Atoi`.
- **File content.** `Base64` models `base64.StdEncoding.DecodeString`
  (section 4 of RFC 4648, with Go's handling of CR/LF), plus an encoder used
  to state the round trip. `File`'s encoding switch sits on top of it.
- **Requests.** `Requests` models `makeRequest`:
  - the query loop that `Set`s every key;
  - the `PRIVATE-TOKEN` the request carries;
  - the classification of the transport's answer. Only status 200 passes the
    response on; everything else is an error.

The HTTP machinery is abstract. An `ApiAccess` value holds:

- the API base URL;
- a function for the query that `http.NewRequest` parses out of a URL (`None`
  when it rejects the URL);
- a transport function from request to optional response.

JSON decoding of a response body is a function the caller passes to each
operation.

Go strings are byte strings, so text is `seq<Byte>` throughout. Every
operation's error is one of the constructors of `Requests.Error`.

Paths, queries and results are functions. `ProjectUrl`, `MakeRequest`,
`DecodeString` and the four client operations are methods written the way the
source runs them (slice filling, a loop over the key map, a loop over base64
quanta). Each is proved equal to its function.

Every status other than 200, 404 included, gives the same `gitlab error`
(client_implementation.go:62-71); the model follows the code
(`Requests.Error.GitlabError`).

`Tags` appends the tag prefix unescaped. `Paths.TagsPathSegments` proves
this: a prefix that holds `/` spans several path segments, unlike the project
and the file path.

## Model

| member | source | states |
|---|---|---|
| Paths.ProjectUrl | client_implementation.go:87-94 | Filling the `len(items)+3` slot array (empty, `projects`, the escaped project, then the items copied in) and joining it with `/` gives exactly `ProjectPath(project, items)` |
| Paths.ProjectPathShape | client_implementation.go:87-94 | A project path is `/projects/`, the escaped project, then each item behind its own `/`, in the order given |
| Paths.ProjectPathSegments | client_implementation.go:88-93 | When no item holds `/`, splitting the path on `/` gives back exactly `len(items)+3` parts: an empty first part, `projects`, the escaped project as one part, then the items |
| Paths.ProjectPathSnoc | client_implementation.go:92-93 | One more item adds `/` and that item at the end of the path, leaving the rest unchanged |
| Paths.ProjectInfoPathExact | client_implementation.go:166 | `ProjectInfo` asks for exactly `/projects/` plus the escaped project, with no trailing slash |
| Paths.TagsPathShape | client_implementation.go:97-102 | `Tags` asks for the project path plus `/repository/tags`, followed by `/<prefix>` when the prefix is non-empty and by nothing when it is empty |
| Paths.TwoItemsThenOptional | client_implementation.go:98-102 | Two items, then a third one only when it is non-empty, each land behind their own `/` after the project path |
| Paths.TagsPathSegments | client_implementation.go:97-102 | The tags path splits into the five fixed parts followed by the parts of the unescaped prefix; an empty prefix adds no part |
| Paths.FilePathSegments | client_implementation.go:125 | The file path splits into exactly six parts, and the escaped file path is the last one, whole |
| Paths.ArchivePathSegments | client_implementation.go:189 | The archive path splits into exactly five parts: empty, `projects`, the decimal project ID, `repository`, `archive.zip` |
| Paths.ItoaNeedsNoEscape | client_implementation.go:189 | Escaping leaves a decimal project ID unchanged, so the ID appears as written |
| PathEscape.Escape | client_implementation.go:91 | Escaping a segment leaves no `/` in it and makes it at most three times longer |
| PathEscape.UnescapeEscape | client_implementation.go:91 | Unescaping an escaped segment gives back the original bytes, so escaping loses nothing |
| PathEscape.EscapeIdentity | client_implementation.go:91 | A segment escapes to itself exactly when none of its bytes needs escaping (both directions) |
| PathEscape.EscapeAppend | client_implementation.go:91 | Escaping works byte by byte: escaping a concatenation concatenates the escapes |
| PathEscape.SlashBecomesPercent2F | client_implementation.go:91 | A `/` inside a project or file path becomes `%2F`, and the text on either side is escaped on its own |
| PathEscape.GroupProjectEscaped | client_implementation.go:91 | A project such as `group/proj` (lower-case names around one `/`) escapes to `group%2Fproj` |
| PathEscape.HexRoundTrip | client_implementation.go:91 | Each upper-case hex digit written by the escaper reads back as its value |
| Decimal.Itoa | client_implementation.go:189 | The rendering is non-empty, starts with `-` exactly when the ID is negative, every byte after that sign (every byte, for an ID that is not negative) is a decimal digit, and there is no leading zero unless the ID is zero |
| Decimal.Digits | client_implementation.go:189 | The digits of a natural number are non-empty and all decimal, with a leading zero only for zero itself |
| Decimal.DigitsValueOfDigits | client_implementation.go:189 | Reading the rendered digits back gives the number |
| Decimal.AtoiItoa | client_implementation.go:189 | Parsing the decimal rendering of any ID gives that ID back |
| Base64.DecodeString | client_implementation.go:152 | The decoder returns exactly `Decode(s)`, what Go's decoder returns; it is computed by a pass that drops CR/LF and then a loop over quanta of four bytes |
| Base64.SkipNewlines | client_implementation.go:152 | The first pass removes every CR and LF byte and keeps every other byte in order |
| Base64.StripNewlines | client_implementation.go:152 | Stripping leaves no CR or LF and never makes the input longer |
| Base64.DecodeQuantum | client_implementation.go:152 | A valid quantum gives one to three bytes, and exactly three unless it is the last one (padding is allowed only at the end) |
| Base64.DecodeEncode | client_implementation.go:152 | Decoding the standard encoding of any bytes gives back exactly those bytes |
| Base64.DecodedLength | client_implementation.go:152 | Input that decodes has a length that is a multiple of four, and yields between `3k-2` and `3k` bytes for `k` quanta |
| Base64.IncompleteQuantum | client_implementation.go:152-156 | Content whose length without newlines is not a multiple of four is rejected |
| Base64.CharOf | client_implementation.go:152 | No alphabet character is the pad or a newline |
| Base64.SextetOfCharOf | client_implementation.go:152 | Reading back an alphabet character gives its six-bit value |
| Requests.WithKeys | client_implementation.go:49-53 | After the loop the query holds the keys of the parsed URL's query and of `keys`: every key of `keys` maps to the single value `[keys[k]]`, replacing anything there before, and every other key keeps its values |
| Requests.MakeRequest | client_implementation.go:43-74 | Whatever order the loop visits the keys in, the method returns exactly `Outcome`: a rejected URL, a missing response or a non-200 status each give their error, and status 200 gives the response |
| Requests.Outcome | client_implementation.go:43-74 | A request succeeds exactly when the URL parses, the transport answers, and the status is 200. The response returned is the one the transport gave for the request carrying the assembled query and the token. A rejected URL is `RequestNotCreated`, no response is `RequestFailed`, and any status other than 200 is `GitlabError` |
| Requests.Classify | client_implementation.go:58-73 | Success exactly when a response came back with status 200, and then that response unchanged. No response is `RequestFailed`; any other status is `GitlabError` |
| Requests.WithKeysOneMore | client_implementation.go:50-52 | Visiting one more key replaces just that key's values with `[value]` |
| Client.RefQuery | client_implementation.go:130 | `File` and `Archive` send exactly one key, `ref`, holding the tag |
| Client.Fetch | client_implementation.go:107-121 | A failed request passes its error on unchanged. Success comes exactly when the request succeeds and its body decodes, and the result is the decoded body. A body that does not decode is `DecodeFailed` |
| Client.FileContent | client_implementation.go:149-162 | Any encoding other than `base64` is an error naming that encoding. `base64` content that does not decode is `CorruptContent`. `base64` content that decodes gives a success holding exactly its decoding, and a success only ever comes that way |
| Client.FileContentOfEncoded | client_implementation.go:151-156 | A `base64` record whose content encodes some bytes yields exactly those bytes |
| Client.FileContentOfTruncated | client_implementation.go:152-156 | A `base64` record cut off inside a quantum yields an error and no bytes |
| Base64.NewlineIgnored | client_implementation.go:152 | A CR or LF inserted anywhere in the content leaves the decoding unchanged |
| Client.FileContentIgnoresNewline | client_implementation.go:151-156 | `base64` content with a CR or LF inserted gives the same result as the content without it, bytes or error |
| Client.FileContentOfNoEncoding | client_implementation.go:157-160 | An empty encoding is reported as an unsupported encoding named by the empty string |
| Client.Tags | client_implementation.go:96-121 | Chooses `repository/tags[/prefix]`, sends no keys, and returns exactly `TagsResult`: the request's error, `DecodeFailed`, or the decoded tags |
| Client.File | client_implementation.go:124-162 | Requests the escaped file path with `ref` set to the tag, then applies the encoding switch, decoding base64 with `DecodeString`. The result is exactly `FileResult` |
| Client.ProjectInfo | client_implementation.go:165-185 | Requests the bare project path with no keys and returns exactly `ProjectInfoResult` |
| Client.Archive | client_implementation.go:188-200 | Requests `repository/archive.zip` under the decimal ID with `ref` set to the tag, and returns exactly `ArchiveResult`: the request's error or the undecoded body |
| ByteStrings.SplitJoin | client_implementation.go:93 | Joining parts that hold no separator and splitting the result on it gives the parts back |
| ByteStrings.SplitAround | client_implementation.go:93 | Splitting around one separator gives the parts of the left side followed by the parts of the right side |
| ByteStrings.JoinSnoc | client_implementation.go:93 | Joining one more part appends the separator and that part |
| ByteStrings.JoinIsEachPrefixed | client_implementation.go:93 | A join is the first part followed by every other part behind its own separator |

## Left out

- `Commits`: only its interface is declared (client.go:29); no implementation exists to model.
- HTTP transport: request sending, the `PRIVATE-TOKEN` header (kept as a field of the request), the context attached to the request, `closeBody` and the returned `io.ReadCloser`. All of these are network I/O; the transport is a function parameter.
- How `http.NewRequest` parses `a.url+project`. This is a function parameter returning the parsed query or `None`.
- `q.Encode()`: serialising the query into `RawQuery` (sorted by key, percent-encoded). The model sends the query map itself.
- Reading the error body before `gitlab error` is returned (client_implementation.go:63-68): when that read fails the source returns the read error instead. The model has the body in hand and always returns `GitlabError`.
- JSON decoding (`encoding/json`) in `Tags`, `File` and `ProjectInfo`. This is a function parameter, so the tag and project types stay generic. The `content_sha256` field is carried but never checked, as in the source.
- zerolog logging and `context.Context` cancellation throughout.
- `NewAPIAccess`'s defaulting to `http.DefaultClient`, and `Client(token)`. These are wiring; `ApiClient` and `ApiAccess` are plain values.
- Error message texts and the byte offset inside base64's `CorruptInputError`. Errors are constructors of `Requests.Error`; `UnsupportedEncoding` keeps the encoding it names.
- Go's `url.PathEscape`, `strconv.Itoa` and `encoding/base64` are standard library code and not part of the client's source. `PathEscape`, `Decimal` and `Base64` model them from their documented behaviour.
- Decimal.Itoa: does not model the 64-bit range of Go's `int`. The model renders any integer, and `Atoi` has no overflow check.
