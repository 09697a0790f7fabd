/**
  The session/token layer of the mobile client: helpers that read, write and remove
  the `token` entry of the device's key-value store, and the two interceptors of the
  authenticated HTTP client. The request interceptor attaches `Bearer <token>` when a
  token is stored; the response interceptor turns the first 401 of a request into a
  session teardown (token removed, `sessionExpired` set) and still rejects.

  Each storage call can fail; whether it does is a parameter (`readable`,
  `writable`). A failed write is modelled as leaving the store as it was.
 */
module AuthUtils {
  import opened Wrappers

  const TokenKey: string := "token"
  const SessionExpiredKey: string := "sessionExpired"
  const AuthorizationHeader: string := "Authorization"
  const BearerPrefix: string := "Bearer "
  const Unauthorized: int := 401

  /** The persistent key-value store of the device (string keys, string values). */
  class Storage {
    var items: map<string, string>

    constructor (items: map<string, string>)
      ensures this.items == items
    {
      this.items := items;
    }
  }

  /** `getItem(key)`: the stored value, or null when the key is absent. */
  function Lookup(items: map<string, string>, key: string): Option<string> {
    if key in items then Some(items[key]) else None
  }

  /** JavaScript truthiness of what `getToken` resolves to: null and "" are falsy. */
  predicate Truthy(token: Option<string>) {
    token.Some? && token.value != ""
  }

  /** `getToken`: the stored token, or null when it is absent or the read fails; never throws. */
  method GetToken(storage: Storage, readable: bool) returns (token: Option<string>)
    ensures readable ==> token == Lookup(storage.items, TokenKey)
    ensures !readable ==> token == None
  {
    if readable {
      token := Lookup(storage.items, TokenKey);
    } else {
      token := None;
    }
  }

  /** `setToken`: true, and `token` maps to the value, unless the write fails (false). */
  method SetToken(storage: Storage, token: string, writable: bool) returns (ok: bool)
    modifies storage
    ensures ok == writable
    ensures ok ==> storage.items == old(storage.items)[TokenKey := token]
    ensures !ok ==> storage.items == old(storage.items)
  {
    if writable {
      storage.items := storage.items[TokenKey := token];
    }
    ok := writable;
  }

  /** `removeToken`: true, and `token` is absent whether or not it was present, unless the write fails. */
  method RemoveToken(storage: Storage, writable: bool) returns (ok: bool)
    modifies storage
    ensures ok == writable
    ensures ok ==> storage.items == old(storage.items) - {TokenKey}
    ensures !ok ==> storage.items == old(storage.items)
  {
    if writable {
      storage.items := storage.items - {TokenKey};
    }
    ok := writable;
  }

  /** Removing the token twice leaves the store as removing it once. */
  lemma RemoveTokenIdempotent(items: map<string, string>)
    ensures TokenKey !in items - {TokenKey}
    ensures (items - {TokenKey}) - {TokenKey} == items - {TokenKey}
    ensures forall k :: k != TokenKey ==> Lookup(items - {TokenKey}, k) == Lookup(items, k)
  {
  }

  /** `isAuthenticated`: `!!token`, so an absent, null or empty token (or a failed read) gives false. */
  method IsAuthenticated(storage: Storage, readable: bool) returns (authenticated: bool)
    ensures authenticated <==> readable && TokenKey in storage.items && storage.items[TokenKey] != ""
  {
    var token := GetToken(storage, readable);
    authenticated := token.Some? && token.value != "";
  }

  /** The request configuration object that axios hands to the interceptors. */
  class RequestConfig {
    var headers: map<string, string>
    /** `_retry`: undefined (falsy) until the response interceptor sets it. */
    var retry: bool

    constructor (headers: map<string, string>)
      ensures this.headers == headers && !retry
    {
      this.headers := headers;
      retry := false;
    }
  }

  /** The headers after the request interceptor has read `token`. */
  function WithBearer(headers: map<string, string>, token: Option<string>): (h: map<string, string>)
    ensures Truthy(token) ==> AuthorizationHeader in h && h[AuthorizationHeader] == BearerPrefix + token.value
    ensures !Truthy(token) ==> h == headers
    ensures h.Keys == headers.Keys + (if Truthy(token) then {AuthorizationHeader} else {})
    ensures forall k :: k in headers && k != AuthorizationHeader ==> h[k] == headers[k]
  {
    if token.Some? && token.value != "" then headers[AuthorizationHeader := BearerPrefix + token.value] else headers
  }

  /** The header value names the token exactly: different tokens give different headers. */
  lemma {:induction false} BearerHeaderDeterminesToken(t1: string, t2: string)
    requires BearerPrefix + t1 == BearerPrefix + t2
    ensures t1 == t2
  {
    assert t1 == (BearerPrefix + t1)[|BearerPrefix|..];
    assert t2 == (BearerPrefix + t2)[|BearerPrefix|..];
  }

  /**
    The request interceptor: when the token read is truthy, `headers.Authorization`
    becomes `Bearer <token>`; otherwise the config is untouched. It returns the same
    config object and never writes the store.
   */
  method InterceptRequest(storage: Storage, config: RequestConfig, readable: bool) returns (result: RequestConfig)
    modifies config
    ensures result == config
    ensures config.headers == WithBearer(old(config.headers), if readable then Lookup(storage.items, TokenKey) else None)
    ensures config.retry == old(config.retry)
  {
    var token := GetToken(storage, readable);
    if token.Some? && token.value != "" {
      config.headers := config.headers[AuthorizationHeader := BearerPrefix + token.value];
    }
    result := config;
  }

  /** An HTTP response as far as the interceptors look at it. */
  datatype HttpResponse = HttpResponse(status: int, data: string)

  /** An axios error: the config of the failed request and the response, if one arrived. */
  datatype AxiosError = AxiosError(config: RequestConfig, response: Option<HttpResponse>)

  /** Why a promise of the client rejects. */
  datatype Failure = RequestFailed(error: AxiosError) | StorageFailed

  /** The settled state of a promise. */
  datatype Settled<T> = Fulfilled(value: T) | Rejected(reason: Failure)

  /** The request interceptor's error handler: rejects with the same error. */
  function RejectRequest(error: Failure): (s: Settled<RequestConfig>)
    ensures s.Rejected? && s.reason == error
  {
    Rejected(error)
  }

  /** The response interceptor's success handler: the response passes through unchanged. */
  function PassResponse(response: HttpResponse): (s: Settled<HttpResponse>)
    ensures s.Fulfilled? && s.value == response
  {
    Fulfilled(response)
  }

  /** The condition under which the response interceptor tears the session down. */
  predicate FirstUnauthorized(response: Option<HttpResponse>, retried: bool) {
    response.Some? && response.value.status == Unauthorized && !retried
  }

  /**
    The store after the teardown: the token removed (unless that write fails, which
    `removeToken` swallows) and `sessionExpired` set to "true" (unless that write fails).
   */
  function AfterTeardown(items: map<string, string>, removable: bool, flagWritable: bool): (r: map<string, string>)
    ensures removable ==> TokenKey !in r
    ensures !removable ==> Lookup(r, TokenKey) == Lookup(items, TokenKey)
    ensures flagWritable ==> SessionExpiredKey in r && r[SessionExpiredKey] == "true"
    ensures !flagWritable ==> Lookup(r, SessionExpiredKey) == Lookup(items, SessionExpiredKey)
    ensures forall k :: k != TokenKey && k != SessionExpiredKey ==> Lookup(r, k) == Lookup(items, k)
  {
    var cleared := if removable then items - {TokenKey} else items;
    if flagWritable then cleared[SessionExpiredKey := "true"] else cleared
  }

  /**
    The response interceptor's error handler. On the first 401 of a request it marks
    the config `_retry`, removes the token, sets `sessionExpired` to "true" and rejects
    with the original error (no retry, no refresh); if writing the flag throws, the
    handler rejects with that storage error instead. Any other error (no response,
    another status, `_retry` already set) is rejected unchanged and nothing is written.
   */
  method InterceptResponseError(storage: Storage, error: AxiosError, removable: bool, flagWritable: bool)
    returns (s: Settled<HttpResponse>)
    modifies storage, error.config
    ensures error.config.headers == old(error.config.headers)
    ensures FirstUnauthorized(error.response, old(error.config.retry)) ==>
      && error.config.retry
      && storage.items == AfterTeardown(old(storage.items), removable, flagWritable)
      && s == Rejected(if flagWritable then RequestFailed(error) else StorageFailed)
    ensures !FirstUnauthorized(error.response, old(error.config.retry)) ==>
      && error.config.retry == old(error.config.retry)
      && storage.items == old(storage.items)
      && s == Rejected(RequestFailed(error))
  {
    var original := error.config;
    if error.response.Some? && error.response.value.status == Unauthorized && !original.retry {
      original.retry := true;
      var _ := RemoveToken(storage, removable);
      if !flagWritable {
        return Rejected(StorageFailed);
      }
      storage.items := storage.items[SessionExpiredKey := "true"];
      return Rejected(RequestFailed(error));
    }
    s := Rejected(RequestFailed(error));
  }

  /** What the transport produced for a dispatched request. */
  datatype Reply = Answered(response: HttpResponse) | NoResponse

  /** axios' default `validateStatus`: a 2xx status resolves, anything else rejects. */
  predicate IsSuccess(status: int) {
    200 <= status < 300
  }

  /**
    One call through the authenticated client: the request interceptor, the transport
    (its outcome is the parameter `reply`), then the response interceptors.
   */
  method Send(storage: Storage, config: RequestConfig, reply: Reply, readable: bool, removable: bool, flagWritable: bool)
    returns (s: Settled<HttpResponse>)
    modifies storage, config
    ensures config.headers == WithBearer(old(config.headers), if readable then Lookup(old(storage.items), TokenKey) else None)
    ensures reply.Answered? && IsSuccess(reply.response.status) ==>
      s == Fulfilled(reply.response) && storage.items == old(storage.items) && config.retry == old(config.retry)
    ensures reply.Answered? && reply.response.status == Unauthorized && !old(config.retry) ==>
      && config.retry
      && storage.items == AfterTeardown(old(storage.items), removable, flagWritable)
      && s == Rejected(if flagWritable then RequestFailed(AxiosError(config, Some(reply.response))) else StorageFailed)
    ensures (reply.NoResponse? || old(config.retry) || reply.response.status != Unauthorized) && !(reply.Answered? && IsSuccess(reply.response.status)) ==>
      && s == Rejected(RequestFailed(AxiosError(config, if reply.Answered? then Some(reply.response) else None)))
      && storage.items == old(storage.items) && config.retry == old(config.retry)
  {
    var sent := InterceptRequest(storage, config, readable);
    match reply {
      case Answered(response) =>
        if IsSuccess(response.status) {
          s := PassResponse(response);
        } else {
          s := InterceptResponseError(storage, AxiosError(sent, Some(response)), removable, flagWritable);
        }
      case NoResponse =>
        s := InterceptResponseError(storage, AxiosError(sent, None), removable, flagWritable);
    }
  }

  /**
    A session that expires: with token "abc123" stored, a request carries
    `Bearer abc123`; its 401 removes the token and sets the flag; the same config
    answered 401 again writes nothing more.
   */
  method ExpiredSessionScenario() returns (header: string, before: bool, after: bool, flag: Option<string>, unchangedByRepeat: bool)
    ensures header == "Bearer abc123"
    ensures before && !after
    ensures flag == Some("true")
    ensures unchangedByRepeat
  {
    var storage := new Storage(map[TokenKey := "abc123"]);
    before := IsAuthenticated(storage, true);
    var config := new RequestConfig(map[]);
    var first := Send(storage, config, Answered(HttpResponse(401, "")), true, true, true);
    header := config.headers[AuthorizationHeader];
    after := IsAuthenticated(storage, true);
    flag := Lookup(storage.items, SessionExpiredKey);
    var snapshot := storage.items;
    var second := InterceptResponseError(storage, AxiosError(config, Some(HttpResponse(401, ""))), true, true);
    unchangedByRepeat := storage.items == snapshot && second == Rejected(RequestFailed(AxiosError(config, Some(HttpResponse(401, "")))));
  }
}
