/**
 * `apiAccess.makeRequest` (client_implementation.go): the query assembled
 * from the caller's keys, the `PRIVATE-TOKEN` the request carries, and the
 * classification of what comes back. The HTTP machinery is abstract: parsing
 * the request URL and sending the request are functions the access point is
 * given.
 */
module Requests {
  import opened Wrappers
  import opened ByteStrings

  const StatusOK := 200

  /** `url.Values`: every key maps to a list of values. */
  type Query = map<Bytes, seq<Bytes>>

  /** What goes over the wire: the URL, its query, and the `PRIVATE-TOKEN` header. */
  datatype Request = Request(url: Bytes, query: Query, token: Bytes)

  datatype Response = Response(status: int, body: Bytes)

  /** The errors the client can return; each names the step that failed. */
  datatype Error =
    | RequestNotCreated          // http.NewRequest rejected the URL
    | RequestFailed              // the transport returned no response
    | GitlabError                // the API answered with a status other than 200
    | DecodeFailed               // the JSON body did not decode
    | CorruptContent             // a base64 file body did not decode
    | UnsupportedEncoding(encoding: Bytes)

  /**
   * The access point: the API base URL, the query `http.NewRequest` parses out
   * of a URL (None when it rejects the URL), and the transport.
   */
  datatype ApiAccess = ApiAccess(
    url: Bytes,
    parseQuery: Bytes -> Option<Query>,
    transport: Request -> Option<Response>)

  /**
   * The query after `q.Set(key, value)` for every entry of `keys`, whatever
   * order the entries are visited in.
   */
  function WithKeys(q: Query, keys: map<Bytes, Bytes>): (r: Query)
    ensures r.Keys == q.Keys + keys.Keys
    ensures forall k :: k in keys ==> r[k] == [keys[k]]
    ensures forall k :: k in q && k !in keys ==> r[k] == q[k]
  {
    map k | k in q.Keys + keys.Keys :: if k in keys then [keys[k]] else q[k]
  }

  /** The entries of `keys` whose key is in `done`. */
  function Restrict(keys: map<Bytes, Bytes>, done: set<Bytes>): (r: map<Bytes, Bytes>)
    requires done <= keys.Keys
    ensures r.Keys == done
  {
    map k | k in done :: keys[k]
  }

  /** Setting one more key on top of the others replaces just that key. */
  lemma WithKeysOneMore(q: Query, keys: map<Bytes, Bytes>, done: set<Bytes>, key: Bytes)
    requires done <= keys.Keys && key in keys && key !in done
    ensures WithKeys(q, Restrict(keys, done + {key})) == WithKeys(q, Restrict(keys, done))[key := [keys[key]]]
  {
    assert Restrict(keys, done + {key}) == Restrict(keys, done)[key := keys[key]];
  }

  /** The loop's step: one key fewer remaining, that key set on the query. */
  lemma SetOneMore(q: Query, keys: map<Bytes, Bytes>, remaining: set<Bytes>, key: Bytes)
    requires remaining <= keys.Keys && key in remaining
    ensures WithKeys(q, Restrict(keys, keys.Keys - (remaining - {key})))
         == WithKeys(q, Restrict(keys, keys.Keys - remaining))[key := [keys[key]]]
  {
    WithKeysOneMore(q, keys, keys.Keys - remaining, key);
    assert keys.Keys - (remaining - {key}) == (keys.Keys - remaining) + {key};
  }

  /** The status check: only 200 passes the response on, untouched. */
  function Classify(sent: Option<Response>): (r: Result<Response, Error>)
    ensures r.Success? <==> sent.Some? && sent.value.status == StatusOK
    ensures r.Success? ==> r.value == sent.value
    ensures sent.None? ==> r == Failure(RequestFailed)
    ensures sent.Some? && sent.value.status != StatusOK ==> r == Failure(GitlabError)
  {
    match sent
    case None => Failure(RequestFailed)
    case Some(resp) => if resp.status != StatusOK then Failure(GitlabError) else Success(resp)
  }

  /** The request `makeRequest` sends once the URL has been parsed into `q`. */
  function RequestFor(access: ApiAccess, path: Bytes, token: Bytes, q: Query, keys: map<Bytes, Bytes>): Request
  {
    Request(access.url + path, WithKeys(q, keys), token)
  }

  /** What `makeRequest(project, token, keys)` returns. */
  function Outcome(access: ApiAccess, path: Bytes, token: Bytes, keys: map<Bytes, Bytes>): (r: Result<Response, Error>)
    ensures access.parseQuery(access.url + path).None? ==> r == Failure(RequestNotCreated)
    ensures r.Success? <==>
      access.parseQuery(access.url + path).Some? &&
      var sent := access.transport(RequestFor(access, path, token, access.parseQuery(access.url + path).value, keys));
      sent.Some? && sent.value.status == StatusOK
    ensures r.Success? ==>
      r.value == access.transport(RequestFor(access, path, token, access.parseQuery(access.url + path).value, keys)).value
    ensures access.parseQuery(access.url + path).Some? ==>
      var sent := access.transport(RequestFor(access, path, token, access.parseQuery(access.url + path).value, keys));
      (sent.None? ==> r == Failure(RequestFailed)) &&
      (sent.Some? && sent.value.status != StatusOK ==> r == Failure(GitlabError))
  {
    match access.parseQuery(access.url + path)
    case None => Failure(RequestNotCreated)
    case Some(q) => Classify(access.transport(RequestFor(access, path, token, q, keys)))
  }

  /**
   * `makeRequest` as the source runs it: the query is updated key by key in a
   * loop over the map, then the request is sent and its status checked.
   */
  method MakeRequest(access: ApiAccess, path: Bytes, token: Bytes, keys: map<Bytes, Bytes>)
    returns (r: Result<Response, Error>)
    ensures r == Outcome(access, path, token, keys)
  {
    var url := access.url + path;
    var parsed := access.parseQuery(url);
    if parsed.None? {
      return Failure(RequestNotCreated);
    }
    var q := parsed.value;
    var remaining := keys.Keys;
    while remaining != {}
      invariant remaining <= keys.Keys
      invariant q == WithKeys(parsed.value, Restrict(keys, keys.Keys - remaining))
      decreases remaining
    {
      var key :| key in remaining;
      SetOneMore(parsed.value, keys, remaining, key);
      q := q[key := [keys[key]]];
      remaining := remaining - {key};
    }
    assert Restrict(keys, keys.Keys) == keys;
    assert Request(url, q, token) == RequestFor(access, path, token, parsed.value, keys);
    var sent := access.transport(Request(url, q, token));
    if sent.None? {
      return Failure(RequestFailed);
    }
    if sent.value.status != StatusOK {
      return Failure(GitlabError);
    }
    r := Success(sent.value);
  }
}
