/**
 * ContextMiddleware.dispatch: give the request an id, copy what the request
 * says about itself into the context cells, run the rest of the application,
 * stamp the id on the response, and reset every cell on the way out.
 */
module Middleware {
  import opened Wrappers
  import opened Text
  import opened Context

  /** Raw headers as Starlette keeps them: lower-case names, in order. */
  type Headers = seq<(string, string)>

  /** `request.client`: the peer address, absent for some transports. */
  datatype Address = Address(host: string, port: int)

  /** The parts of an incoming request that the middleware reads or writes. */
  class Request {
    const httpMethod: string  // request.method
    const path: string              // request.url.path
    const hostname: Option<string>  // request.url.hostname
    const client: Option<Address>
    const headers: Headers
    var stateRequestId: Option<string>  // request.state.request_id

    constructor (httpMethod: string, path: string, hostname: Option<string>,
                 client: Option<Address>, headers: Headers)
      ensures this.httpMethod == httpMethod && this.path == path && this.hostname == hostname
      ensures this.client == client && this.headers == headers
      ensures stateRequestId == None
    {
      this.httpMethod := httpMethod;
      this.path := path;
      this.hostname := hostname;
      this.client := client;
      this.headers := headers;
      stateRequestId := None;
    }
  }

  datatype Response = Response(status: int, headers: Headers, body: string)

  /** What the rest of the application does: answer, or raise. */
  datatype Outcome = Answered(response: Response) | Failed(error: PyException)

  /**
   * What the rest of the application can observe while it runs: the context
   * cells, `current_user_id` and `request.state.request_id`.
   */
  datatype Seen = Seen(cells: Cells, userId: Option<int>, stateRequestId: Option<string>)

  // ------------------------------------------------------------------ headers

  /** `headers.get(name)`: the first value stored under the lower-cased name. */
  function HeaderGet(hs: Headers, name: string): (v: Option<string>)
    ensures v.Some? <==> exists i :: 0 <= i < |hs| && hs[i].0 == Lower(name)
    ensures v.Some? ==> (Lower(name), v.value) in hs
  {
    Lookup(hs, Lower(name))
  }

  function Lookup(hs: Headers, key: string): (v: Option<string>)
    ensures v.Some? <==> exists i :: 0 <= i < |hs| && hs[i].0 == key
    ensures v.Some? ==> (key, v.value) in hs
  {
    if hs == [] then None
    else if hs[0].0 == key then Some(hs[0].1)
    else
      var v := Lookup(hs[1..], key);
      assert forall i :: 1 <= i < |hs| ==> hs[i] == hs[1..][i - 1];
      v
  }

  /** The headers whose name is not `key`, in order. */
  function Without(hs: Headers, key: string): (r: Headers)
    ensures forall h :: h in r <==> h in hs && h.0 != key
  {
    if hs == [] then []
    else if hs[0].0 == key then Without(hs[1..], key)
    else [hs[0]] + Without(hs[1..], key)
  }

  /** Every value stored under `key`, in order. */
  function ValuesOf(hs: Headers, key: string): seq<string> {
    if hs == [] then []
    else if hs[0].0 == key then [hs[0].1] + ValuesOf(hs[1..], key)
    else ValuesOf(hs[1..], key)
  }

  /** The first header named `key` takes the value; later ones are dropped. */
  function ReplaceFirst(hs: Headers, key: string, value: string): Headers {
    if hs == [] then []
    else if hs[0].0 == key then [(key, value)] + Without(hs[1..], key)
    else [hs[0]] + ReplaceFirst(hs[1..], key, value)
  }

  /**
   * `headers[name] = value` on a response: the name is lower-cased; an existing
   * header keeps its place and takes the value, duplicates of it are removed,
   * and a new header is appended.
   */
  function SetHeader(hs: Headers, name: string, value: string): Headers {
    var key := Lower(name);
    if Lookup(hs, key).Some? then ReplaceFirst(hs, key, value) else hs + [(key, value)]
  }

  lemma {:induction false} ValuesOfWithout(hs: Headers, key: string)
    ensures ValuesOf(Without(hs, key), key) == []
  {
    if hs != [] {
      ValuesOfWithout(hs[1..], key);
    }
  }

  lemma {:induction false} WithoutWithout(hs: Headers, key: string)
    ensures Without(Without(hs, key), key) == Without(hs, key)
  {
    if hs != [] {
      WithoutWithout(hs[1..], key);
    }
  }

  lemma {:induction false} ReplaceFirstEffect(hs: Headers, key: string, value: string)
    requires Lookup(hs, key).Some?
    ensures ValuesOf(ReplaceFirst(hs, key, value), key) == [value]
    ensures Without(ReplaceFirst(hs, key, value), key) == Without(hs, key)
  {
    if hs[0].0 == key {
      ValuesOfWithout(hs[1..], key);
      WithoutWithout(hs[1..], key);
    } else {
      ReplaceFirstEffect(hs[1..], key, value);
    }
  }

  lemma {:induction false} AppendEffect(hs: Headers, key: string, value: string)
    requires Lookup(hs, key).None?
    ensures ValuesOf(hs + [(key, value)], key) == [value]
    ensures Without(hs + [(key, value)], key) == Without(hs, key)
  {
    if hs == [] {
      assert [] + [(key, value)] == [(key, value)];
    } else {
      assert (hs + [(key, value)])[1..] == hs[1..] + [(key, value)];
      AppendEffect(hs[1..], key, value);
    }
  }

  /**
   * After `headers[name] = value`, the name holds exactly that one value,
   * every other header is still there in the same order, and reading the
   * name back gives the value.
   */
  lemma SetHeaderEffect(hs: Headers, name: string, value: string)
    ensures ValuesOf(SetHeader(hs, name, value), Lower(name)) == [value]
    ensures Without(SetHeader(hs, name, value), Lower(name)) == Without(hs, Lower(name))
    ensures HeaderGet(SetHeader(hs, name, value), name) == Some(value)
  {
    var key := Lower(name);
    if Lookup(hs, key).Some? {
      ReplaceFirstEffect(hs, key, value);
    } else {
      AppendEffect(hs, key, value);
    }
    FirstValue(SetHeader(hs, name, value), key);
  }

  lemma {:induction false} FirstValue(hs: Headers, key: string)
    requires |ValuesOf(hs, key)| >= 1
    ensures Lookup(hs, key) == Some(ValuesOf(hs, key)[0])
  {
    if hs[0].0 != key {
      FirstValue(hs[1..], key);
    }
  }

  // ---------------------------------------------------------------- request id

  /** `secrets.token_hex(8)`, its eight random bytes given. */
  function RequestId(entropy: seq<byte>): (id: string)
    requires |entropy| == 8
    ensures |id| == 16 && forall i :: 0 <= i < |id| ==> IsHexChar(id[i])
    ensures Unhex(id) == entropy
  {
    UnhexHex(entropy);
    Hex(entropy)
  }

  // ------------------------------------------------------------------ dispatch

  const XRequestId: string := "X-Request-ID"

  /** The seven cells and what dispatch sets them to, in the order it sets them. */
  function Assignments(httpMethod: string, path: string, hostname: Option<string>,
                       client: Option<Address>, headers: Headers, id: string)
    : (asg: seq<(Cell, Option<string>)>)
    ensures |asg| == 7
  {
    [
      (HttpIdentifier, Some(id)),
      (RequestIp, Some(if client.Some? then client.value.host else "unknown")),
      (RequestMethod, Some(httpMethod)),
      (RequestRoute, Some(path)),
      (ClientHost, if client.Some? then Some(client.value.host) else None),
      (RequestHost, hostname),
      (UserAgent, HeaderGet(headers, "user-agent"))
    ]
  }

  /** Dispatch sets seven different cells. */
  lemma AssignmentsDistinct(httpMethod: string, path: string, hostname: Option<string>,
                            client: Option<Address>, headers: Headers, id: string)
    ensures Distinct(CellsOf(Assignments(httpMethod, path, hostname, client, headers, id)))
  {
    var asg := Assignments(httpMethod, path, hostname, client, headers, id);
    assert CellsOf(asg) == [HttpIdentifier, RequestIp, RequestMethod, RequestRoute,
                            ClientHost, RequestHost, UserAgent];
  }

  /** The cells the rest of the application sees while dispatch runs it. */
  function Active(cells: Cells, r: Request, id: string): Cells {
    SetAll(cells, Assignments(r.httpMethod, r.path, r.hostname, r.client, r.headers, id)).0
  }

  /** On an answer the id is stamped on the response; an exception passes unchanged. */
  function Stamp(o: Outcome, id: string): (r: Outcome)
    ensures r.Answered? <==> o.Answered?
    ensures o.Failed? ==> r == o
    ensures r.Answered? ==> r.response.status == o.response.status
                            && r.response.body == o.response.body
                            && HeaderGet(r.response.headers, XRequestId) == Some(id)
                            && Without(r.response.headers, Lower(XRequestId))
                               == Without(o.response.headers, Lower(XRequestId))
  {
    match o
    case Failed(_) => o
    case Answered(resp) =>
      SetHeaderEffect(resp.headers, XRequestId, id);
      Answered(resp.(headers := SetHeader(resp.headers, XRequestId, id)))
  }

  /**
   * ContextMiddleware.dispatch.  `entropy` is what `token_hex` draws; `next` is
   * the rest of the application, a function of what it can observe.  The cells
   * come back exactly as they were, on an answer and on an exception alike.
   */
  method Dispatch(store: ContextStore, request: Request, entropy: seq<byte>,
                  next: Seen -> Outcome)
    returns (result: Outcome)
    requires |entropy| == 8
    modifies store, request
    ensures store.cells == old(store.cells) && store.userId == old(store.userId)
    ensures request.stateRequestId == Some(RequestId(entropy))
    ensures result == Stamp(next(Seen(Active(old(store.cells), request, RequestId(entropy)),
                                      old(store.userId), Some(RequestId(entropy)))),
                            RequestId(entropy))
  {
    var requestId := RequestId(entropy);
    ghost var start := store.cells;
    var tokens := Enter(store, request, requestId);
    request.stateRequestId := Some(requestId);

    var outcome := next(Seen(store.cells, store.userId, request.stateRequestId));
    match outcome {
      case Answered(response) =>
        result := Answered(response.(headers := SetHeader(response.headers, XRequestId, requestId)));
      case Failed(_) =>
        result := outcome;
    }

    // finally
    Leave(store, tokens);
    AssignmentsDistinct(request.httpMethod, request.path, request.hostname,
                        request.client, request.headers, requestId);
    BracketRestores(start, Assignments(request.httpMethod, request.path, request.hostname,
                                       request.client, request.headers, requestId));
  }

  /** The seven `set` calls of dispatch, in its order; the tokens in the same order. */
  method Enter(store: ContextStore, request: Request, requestId: string)
    returns (tokens: seq<Token>)
    modifies store
    ensures (store.cells, tokens)
            == SetAll(old(store.cells), Assignments(request.httpMethod, request.path,
                        request.hostname, request.client, request.headers, requestId))
    ensures store.userId == old(store.userId)
  {
    ghost var start := store.cells;
    ghost var done: seq<(Cell, Option<string>)> := [];
    ghost var m := store.cells;
    tokens := [];
    var tokenId := store.Set(HttpIdentifier, Some(requestId));
    SetAllStep(start, done, HttpIdentifier, Some(requestId), m, tokens, tokenId, store.cells);
    done, tokens, m := done + [(HttpIdentifier, Some(requestId))], tokens + [tokenId], store.cells;
    var tokenIp := store.Set(RequestIp, Some(if request.client.Some? then request.client.value.host else "unknown"));
    SetAllStep(start, done, RequestIp, Some(if request.client.Some? then request.client.value.host else "unknown"), m, tokens, tokenIp, store.cells);
    done, tokens, m := done + [(RequestIp, Some(if request.client.Some? then request.client.value.host else "unknown"))], tokens + [tokenIp], store.cells;
    var tokenMethod := store.Set(RequestMethod, Some(request.httpMethod));
    SetAllStep(start, done, RequestMethod, Some(request.httpMethod), m, tokens, tokenMethod, store.cells);
    done, tokens, m := done + [(RequestMethod, Some(request.httpMethod))], tokens + [tokenMethod], store.cells;
    var tokenRoute := store.Set(RequestRoute, Some(request.path));
    SetAllStep(start, done, RequestRoute, Some(request.path), m, tokens, tokenRoute, store.cells);
    done, tokens, m := done + [(RequestRoute, Some(request.path))], tokens + [tokenRoute], store.cells;
    var tokenClientHost := store.Set(ClientHost, if request.client.Some? then Some(request.client.value.host) else None);
    SetAllStep(start, done, ClientHost, if request.client.Some? then Some(request.client.value.host) else None, m, tokens, tokenClientHost, store.cells);
    done, tokens, m := done + [(ClientHost, if request.client.Some? then Some(request.client.value.host) else None)], tokens + [tokenClientHost], store.cells;
    var tokenHost := store.Set(RequestHost, request.hostname);
    SetAllStep(start, done, RequestHost, request.hostname, m, tokens, tokenHost, store.cells);
    done, tokens, m := done + [(RequestHost, request.hostname)], tokens + [tokenHost], store.cells;
    var tokenUserAgent := store.Set(UserAgent, HeaderGet(request.headers, "user-agent"));
    SetAllStep(start, done, UserAgent, HeaderGet(request.headers, "user-agent"), m, tokens, tokenUserAgent, store.cells);
    done, tokens, m := done + [(UserAgent, HeaderGet(request.headers, "user-agent"))], tokens + [tokenUserAgent], store.cells;
    assert done == Assignments(request.httpMethod, request.path, request.hostname,
                               request.client, request.headers, requestId);
  }

  /** The `finally` block of dispatch: reset with each token, first one first. */
  method Leave(store: ContextStore, tokens: seq<Token>)
    requires |tokens| == 7
    modifies store
    ensures store.cells == ResetAll(old(store.cells), tokens)
    ensures store.userId == old(store.userId)
  {
    ghost var after := store.cells;
    assert tokens[..0] == [];
    store.Reset(tokens[0]);
    ResetAllStep(after, tokens, 0);
    store.Reset(tokens[1]);
    ResetAllStep(after, tokens, 1);
    store.Reset(tokens[2]);
    ResetAllStep(after, tokens, 2);
    store.Reset(tokens[3]);
    ResetAllStep(after, tokens, 3);
    store.Reset(tokens[4]);
    ResetAllStep(after, tokens, 4);
    store.Reset(tokens[5]);
    ResetAllStep(after, tokens, 5);
    store.Reset(tokens[6]);
    ResetAllStep(after, tokens, 6);
    assert tokens[..7] == tokens;
  }

  /**
   * What the rest of the application reads while dispatch runs it: the id in
   * `current_http_identifier` and in `request.state`, `"unknown"` for the
   * address when there is no client but None for the client host, and the
   * method, path, host name and user agent as the request carries them.
   */
  lemma ActiveCells(cells: Cells, r: Request, entropy: seq<byte>)
    requires |entropy| == 8
    ensures var a := Active(cells, r, RequestId(entropy));
            && Read(a, HttpIdentifier) == Some(RequestId(entropy))
            && Read(a, RequestIp) == Some(if r.client.Some? then r.client.value.host else "unknown")
            && Read(a, ClientHost) == (if r.client.Some? then Some(r.client.value.host) else None)
            && Read(a, RequestMethod) == Some(r.httpMethod)
            && Read(a, RequestRoute) == Some(r.path)
            && Read(a, RequestHost) == r.hostname
            && Read(a, UserAgent) == HeaderGet(r.headers, "user-agent")
  {
    var id := RequestId(entropy);
    var asg := Assignments(r.httpMethod, r.path, r.hostname, r.client, r.headers, id);
    AssignmentsDistinct(r.httpMethod, r.path, r.hostname, r.client, r.headers, id);
    SetAllEffect(cells, asg);
    var a := Active(cells, r, id);
    assert PriorOf(a, asg[0].0) == Held(asg[0].1);
    assert PriorOf(a, asg[1].0) == Held(asg[1].1);
    assert PriorOf(a, asg[2].0) == Held(asg[2].1);
    assert PriorOf(a, asg[3].0) == Held(asg[3].1);
    assert PriorOf(a, asg[4].0) == Held(asg[4].1);
    assert PriorOf(a, asg[5].0) == Held(asg[5].1);
    assert PriorOf(a, asg[6].0) == Held(asg[6].1);
  }
}
