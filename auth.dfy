/** The session controller of controllers/auth.js: a session kept as two entries,
    `"token"` and `"user"`, of the browser's local storage, and the two identity
    calls to the backend (login and current user). The backend is a parameter:
    a function from the request the controller sends to the response it gets. */
module AuthController {
  import opened Wrappers
  import opened Json

  const TokenKey: string := "token"
  const UserKey: string := "user"

  const NotAuthenticated: string := "Usuário não autenticado"
  const LoginFailed: string := "Erro ao fazer login"
  const CurrentUserFailed: string := "Erro ao buscar dados do usuário"
  /** Stands for the message of the `TypeError` that reading a property of
      `null` throws (`data.error` when the body is `null`). The real text
      depends on the JavaScript engine; this one is a placeholder. */
  const NullPropertyError: string := "TypeError: Cannot read properties of null"

  const LoginPath: string := "/usuarios/login/"
  const CurrentUserPath: string := "/usuarios/current-user/"

  /** The browser's local storage: string keys to string values. */
  class LocalStorage {
    var items: map<string, string>

    constructor (initial: map<string, string>)
      ensures items == initial
    {
      items := initial;
    }

    /** `localStorage.getItem(key)`; `None` stands for `null`. */
    function GetItem(key: string): (r: Option<string>)
      reads this
      ensures r.Some? <==> key in items
      ensures r.Some? ==> r.value == items[key]
    {
      if key in items then Some(items[key]) else None
    }

    method SetItem(key: string, value: string)
      modifies this
      ensures items == old(items)[key := value]
    {
      items := items[key := value];
    }

    method RemoveItem(key: string)
      modifies this
      ensures items == old(items) - {key}
    {
      items := items - {key};
    }
  }

  /** What `getAuthData` returns: the stored token (`None` for `null`) and the
      parsed user. */
  datatype AuthData = AuthData(token: Option<string>, user: Json)

  /** What `login` returns: `data.token` and `data.user` of the response body,
      `None` standing for `undefined`. */
  datatype LoginData = LoginData(token: Option<Json>, user: Option<Json>)

  /** An HTTP request as the controller builds it: method, path below the
      configured base URL, `Authorization` header and body. */
  datatype Request = Request(verb: string, path: string, authorization: Option<string>, body: Option<string>)

  /** A response: whether its status is 2xx, and its body as parsed by `response.json()`. */
  datatype Response = Response(ok: bool, body: Json)

  // ---------------------------------------------------------------------------
  // The store, as a function of the map it holds

  /** The store after `setAuthData(token, user)`. */
  function WithSession(items: map<string, string>, token: string, user: Json): (r: map<string, string>)
    ensures r.Keys == items.Keys + {TokenKey, UserKey}
    ensures r[TokenKey] == token && Parse(r[UserKey]) == Success(user)
    ensures forall k :: k in items && k != TokenKey && k != UserKey ==> r[k] == items[k]
  {
    ParseStringify(user);
    items[TokenKey := token][UserKey := Stringify(user)]
  }

  /** The store after `clearAuthData()`. */
  function WithoutSession(items: map<string, string>): (r: map<string, string>)
    ensures r.Keys == items.Keys - {TokenKey, UserKey}
    ensures forall k :: k in r ==> r[k] == items[k]
  {
    items - {TokenKey, UserKey}
  }

  /** `getAuthData()` on a store holding `items`: the token as stored, and the
      user parsed from its text, or from `"null"` when the entry is missing or
      empty. It fails only where `JSON.parse` throws. */
  function ReadAuthData(items: map<string, string>): (r: Result<AuthData>)
    ensures r.Success? ==> r.value.token == (if TokenKey in items then Some(items[TokenKey]) else None)
    ensures r.Failure? ==> r.error == SyntaxError && UserKey in items && items[UserKey] != ""
  {
    var token := if TokenKey in items then Some(items[TokenKey]) else None;
    var text := if UserKey in items && items[UserKey] != "" then items[UserKey] else "null";
    ParseNullText();
    match Parse(text)
    case Success(user) => Success(AuthData(token, user))
    case Failure(e) => Failure(e)
  }

  /** `!token` in JavaScript, for a token read from the store: the token is
      absent (`null`) or a falsy string. */
  predicate MissingToken(token: Option<string>)
    ensures MissingToken(token) <==> token.None? || !Truthy(JStr(token.value))
  {
    token.None? || token.value == ""
  }

  /** `data[key]` on a response body; reading a property of `null` throws. */
  function Field(data: Json, key: string): (r: Result<Option<Json>>)
    ensures r.Failure? <==> data.JNull?
    ensures r.Success? ==> r.value == Get(data, key)
  {
    if data.JNull? then Failure(NullPropertyError) else Success(Get(data, key))
  }

  /** `String(x)`, the message `new Error(x)` keeps. */
  function JsString(v: Json): (r: string)
    ensures v.JStr? ==> r == v.s
    ensures v.JNull? || v.JBool? || v.JNum? ==> r == Stringify(v)
  {
    match v
    case JNull => "null"
    case JBool(b) => if b then "true" else "false"
    case JNum(n) => NumberText(n)
    case JStr(s) => s
    case JArr(items) => JoinElements(items)
    case JObj(_) => "[object Object]"
  }

  /** `Array.prototype.join(",")`: `null` elements print as nothing. */
  function JoinElements(items: seq<Json>): string {
    if items == [] then ""
    else
      var first := if items[0].JNull? then "" else JsString(items[0]);
      if |items| == 1 then first else first + "," + JoinElements(items[1..])
  }

  /** The message thrown for a non-ok response: `data.error || fallback`. */
  function FailureMessage(data: Json, fallback: string): (r: string)
    ensures data.JNull? ==> r == NullPropertyError
    ensures !data.JNull? && (Get(data, "error").None? || !Truthy(Get(data, "error").value)) ==> r == fallback
    ensures !data.JNull? && Get(data, "error").Some? && Truthy(Get(data, "error").value) ==>
      r == JsString(Get(data, "error").value)
    ensures (Get(data, "error").Some? && Get(data, "error").value.JStr? &&
             Get(data, "error").value.s != "") ==> r == Get(data, "error").value.s
  {
    match Field(data, "error")
    case Failure(e) => e
    case Success(error) =>
      if error.Some? && Truthy(error.value) then JsString(error.value) else fallback
  }

  /** The body `login` posts: `JSON.stringify({ cpf, password })`. */
  function Credentials(cpf: string, password: string): Json {
    JObj([Member("cpf", JStr(cpf)), Member("password", JStr(password))])
  }

  /** The request `login` sends: a POST to the login path, without an
      `Authorization` header, whose JSON body the backend reads back as the
      credentials. */
  function LoginRequest(cpf: string, password: string): (r: Request)
    ensures r.verb == "POST" && r.path == LoginPath && r.authorization.None?
    ensures r.body.Some? && Parse(r.body.value) == Success(Credentials(cpf, password))
  {
    ParseStringify(Credentials(cpf, password));
    Request("POST", LoginPath, None, Some(Stringify(Credentials(cpf, password))))
  }

  /** `login(cpf, password)` against `backend`. */
  function LoginOutcome(cpf: string, password: string, backend: Request -> Response): (r: Result<LoginData>)
    ensures r.Success? <==> backend(LoginRequest(cpf, password)).ok && !backend(LoginRequest(cpf, password)).body.JNull?
  {
    var response := backend(LoginRequest(cpf, password));
    if !response.ok then Failure(FailureMessage(response.body, LoginFailed))
    else if response.body.JNull? then Failure(NullPropertyError)
    else Success(LoginData(Get(response.body, "token"), Get(response.body, "user")))
  }

  /** The request `getCurrentUser` sends: a GET of the current-user path,
      without a body, authorised by `Token ` followed by the stored token. */
  function CurrentUserRequest(token: string): (r: Request)
    ensures r.verb == "GET" && r.path == CurrentUserPath && r.body.None?
    ensures r.authorization.Some? && |r.authorization.value| == |token| + 6
    ensures r.authorization.value[..6] == "Token " && r.authorization.value[6..] == token
  {
    Request("GET", CurrentUserPath, Some("Token " + token), None)
  }

  /** `getCurrentUser()` on a store holding `items`, against `backend`. */
  function CurrentUserOutcome(items: map<string, string>, backend: Request -> Response): (r: Result<Json>)
    ensures r.Success? ==>
      (TokenKey in items && items[TokenKey] != "" &&
       backend(CurrentUserRequest(items[TokenKey])).ok && r.value == backend(CurrentUserRequest(items[TokenKey])).body)
  {
    match ReadAuthData(items)
    case Failure(e) => Failure(e)
    case Success(data) =>
      if MissingToken(data.token) then Failure(NotAuthenticated)
      else
        var response := backend(CurrentUserRequest(data.token.value));
        if !response.ok then Failure(FailureMessage(response.body, CurrentUserFailed))
        else Success(response.body)
  }

  // ---------------------------------------------------------------------------
  // The controller

  class Controller {
    const storage: LocalStorage

    constructor (storage: LocalStorage)
      ensures this.storage == storage
    {
      this.storage := storage;
    }

    method SetAuthData(token: string, user: Json)
      modifies storage
      ensures storage.items == WithSession(old(storage.items), token, user)
    {
      storage.SetItem(TokenKey, token);
      storage.SetItem(UserKey, Stringify(user));
    }

    method GetAuthData() returns (r: Result<AuthData>)
      ensures r == ReadAuthData(storage.items)
    {
      var token := storage.GetItem(TokenKey);
      var stored := storage.GetItem(UserKey);
      var text := if stored.Some? && stored.value != "" then stored.value else "null";
      match Parse(text)
      case Success(user) => r := Success(AuthData(token, user));
      case Failure(e) => r := Failure(e);
    }

    method ClearAuthData()
      modifies storage
      ensures storage.items == WithoutSession(old(storage.items))
    {
      storage.RemoveItem(TokenKey);
      storage.RemoveItem(UserKey);
      assert storage.items == old(storage.items) - {TokenKey} - {UserKey};
    }

    /** Sends the credentials and returns the token and user of the answer;
        the store is not written (no `modifies`). */
    method Login(cpf: string, password: string, backend: Request -> Response) returns (r: Result<LoginData>)
      ensures r == LoginOutcome(cpf, password, backend)
    {
      var response := backend(LoginRequest(cpf, password));
      if !response.ok {
        r := Failure(FailureMessage(response.body, LoginFailed));
        return;
      }
      var token := Field(response.body, "token");
      if token.Failure? {
        r := Failure(token.error);
        return;
      }
      r := Success(LoginData(token.value, Get(response.body, "user")));
    }

    /** Fetches the profile of the stored session; the store is only read. */
    method GetCurrentUser(backend: Request -> Response) returns (r: Result<Json>)
      ensures r == CurrentUserOutcome(storage.items, backend)
    {
      var data := GetAuthData();
      if data.Failure? {
        r := Failure(data.error);
        return;
      }
      var token := data.value.token;
      if MissingToken(token) {
        r := Failure(NotAuthenticated);
        return;
      }
      var response := backend(CurrentUserRequest(token.value));
      if !response.ok {
        r := Failure(FailureMessage(response.body, CurrentUserFailed));
      } else {
        r := Success(response.body);
      }
    }
  }

  // ---------------------------------------------------------------------------
  // Properties of the session store

  /** `setAuthData(t, u)` then `getAuthData()` gives back `t` and `u`. */
  lemma SetThenGet(items: map<string, string>, token: string, user: Json)
    ensures ReadAuthData(WithSession(items, token, user)) == Success(AuthData(Some(token), user))
  {
    ParseStringify(user);
  }

  /** After `clearAuthData()`, `getAuthData()` gives `{token: null, user: null}`. */
  lemma ClearThenGet(items: map<string, string>)
    ensures ReadAuthData(WithoutSession(items)) == Success(AuthData(None, JNull))
  {
    ParseNullText();
  }

  /** An empty store reads as no session rather than failing. */
  lemma EmptyStoreReads()
    ensures ReadAuthData(map[]) == Success(AuthData(None, JNull))
  {
    ParseNullText();
  }

  /** Without a `user` entry, `getAuthData()` never throws, and the user is `null`. */
  lemma MissingUserReadsNull(items: map<string, string>)
    requires UserKey !in items
    ensures ReadAuthData(items).Success? && ReadAuthData(items).value.user == JNull
  {
    ParseNullText();
  }

  lemma ClearIdempotent(items: map<string, string>)
    ensures WithoutSession(WithoutSession(items)) == WithoutSession(items)
  {
  }

  /** A second `setAuthData` replaces the first session entirely. */
  lemma SetOverwrites(items: map<string, string>, t1: string, u1: Json, t2: string, u2: Json)
    ensures WithSession(WithSession(items, t1, u1), t2, u2) == WithSession(items, t2, u2)
    ensures ReadAuthData(WithSession(WithSession(items, t1, u1), t2, u2)) == Success(AuthData(Some(t2), u2))
  {
    SetThenGet(items, t2, u2);
  }

  /** Logging out after logging in leaves the store as clearing it would have. */
  lemma SetThenClear(items: map<string, string>, token: string, user: Json)
    ensures WithoutSession(WithSession(items, token, user)) == WithoutSession(items)
  {
  }

  /** Set and clear touch the `"token"` and `"user"` entries and nothing else. */
  lemma OtherKeysUntouched(items: map<string, string>, token: string, user: Json, key: string)
    requires key != TokenKey && key != UserKey
    ensures key in WithSession(items, token, user) <==> key in items
    ensures key in WithoutSession(items) <==> key in items
    ensures key in items ==> WithSession(items, token, user)[key] == items[key] && WithoutSession(items)[key] == items[key]
  {
  }

  // ---------------------------------------------------------------------------
  // Properties of the identity calls

  /** With no token stored, `getCurrentUser` fails with "Usuário não autenticado"
      whatever the backend would answer: no request is sent. */
  lemma NoTokenNoRequest(items: map<string, string>, backend: Request -> Response)
    requires ReadAuthData(items).Success? && MissingToken(ReadAuthData(items).value.token)
    ensures CurrentUserOutcome(items, backend) == Failure(NotAuthenticated)
  {
  }

  /** With a token stored, the only request `getCurrentUser` sends carries
      `Authorization: Token <token>`: two backends that answer that request
      alike give the same outcome. */
  lemma CurrentUserSendsToken(items: map<string, string>, b1: Request -> Response, b2: Request -> Response)
    requires TokenKey in items && items[TokenKey] != ""
    requires b1(CurrentUserRequest(items[TokenKey])) == b2(CurrentUserRequest(items[TokenKey]))
    ensures CurrentUserOutcome(items, b1) == CurrentUserOutcome(items, b2)
  {
  }

  /** After logout, the current user can no longer be fetched. */
  lemma ClearThenCurrentUser(items: map<string, string>, backend: Request -> Response)
    ensures CurrentUserOutcome(WithoutSession(items), backend) == Failure(NotAuthenticated)
  {
    ClearThenGet(items);
  }

  /** After `setAuthData(t, u)` with a non-empty token, the backend's answer to
      `Token t` decides the outcome. */
  lemma SetThenCurrentUser(items: map<string, string>, token: string, user: Json, backend: Request -> Response)
    requires token != ""
    ensures var response := backend(CurrentUserRequest(token));
      CurrentUserOutcome(WithSession(items, token, user), backend) ==
        if response.ok then Success(response.body) else Failure(FailureMessage(response.body, CurrentUserFailed))
  {
    SetThenGet(items, token, user);
  }

  /** The credentials the login body carries are the ones given: the backend
      finds them under `cpf` and `password`, and two logins send the same
      request only when they send the same credentials. */
  lemma LoginBodyCarriesCredentials(cpf: string, password: string, cpf': string, password': string)
    ensures Get(Credentials(cpf, password), "cpf") == Some(JStr(cpf))
    ensures Get(Credentials(cpf, password), "password") == Some(JStr(password))
    ensures LoginRequest(cpf, password) == LoginRequest(cpf', password') <==> cpf == cpf' && password == password'
  {
  }

  /** A rejected login fails with the text of a truthy `error`, with
      "Erro ao fazer login" when `error` is missing or falsy, and with the
      `TypeError` of reading a property of `null` when the body is `null`. */
  lemma LoginRejected(cpf: string, password: string, backend: Request -> Response)
    requires !backend(LoginRequest(cpf, password)).ok
    ensures var body := backend(LoginRequest(cpf, password)).body;
      var error := Get(body, "error");
      && (body.JNull? ==> LoginOutcome(cpf, password, backend) == Failure(NullPropertyError))
      && (!body.JNull? && (error.None? || !Truthy(error.value)) ==>
            LoginOutcome(cpf, password, backend) == Failure(LoginFailed))
      && (!body.JNull? && error.Some? && Truthy(error.value) ==>
            LoginOutcome(cpf, password, backend) == Failure(JsString(error.value)))
      && (error.Some? && error.value.JStr? && error.value.s != "" ==>
            LoginOutcome(cpf, password, backend) == Failure(error.value.s))
  {
  }

  /** An accepted login returns the answer's `token` and `user` as they are,
      whatever else the body holds; a `null` body throws on reading `token`. */
  lemma LoginAccepted(cpf: string, password: string, backend: Request -> Response)
    requires backend(LoginRequest(cpf, password)).ok
    ensures var body := backend(LoginRequest(cpf, password)).body;
      && (!body.JNull? ==>
            LoginOutcome(cpf, password, backend) == Success(LoginData(Get(body, "token"), Get(body, "user"))))
      && (body.JNull? ==> LoginOutcome(cpf, password, backend) == Failure(NullPropertyError))
  {
  }
}
