/** The authorization-code flow of src/Provider.php as the Instagram provider
    runs it: the redirect that stores an anti-forgery state in the session,
    and the callback that checks that state, exchanges the code for a token,
    fetches the user and maps it. The HTTP transport is not modelled: each
    operation returns the requests it issues, and the decoded responses are
    parameters. */
module AuthFlow {

  import opened Values
  import opened ProviderCore
  import opened Users
  import Instagram

  /** The value stored under `key`, or None. */
  function Lookup(entries: map<string, string>, key: string): Option<string> {
    if key in entries then Some(entries[key]) else None
  }

  /** The session of the browser driving the flow. */
  class Session {
    var entries: map<string, string>

    constructor (entries: map<string, string>)
      ensures this.entries == entries
    {
      this.entries := entries;
    }

    /** `put($key, $value)`. */
    method Put(key: string, value: string)
      modifies this
      ensures entries == old(entries)[key := value]
    {
      entries := entries[key := value];
    }

    /** `pull($key)`: reads the value and forgets it. */
    method Pull(key: string) returns (v: Option<string>)
      modifies this
      ensures v == Lookup(old(entries), key)
      ensures entries == old(entries) - {key}
    {
      v := Lookup(entries, key);
      entries := entries - {key};
    }
  }

  /** The incoming HTTP request: its decoded input parameters. */
  datatype Request = Request(inputs: map<string, Value>)

  /** `$request->input($key)`: null when the request has no such input. */
  function Input(request: Request, key: string): Value {
    if key in request.inputs then request.inputs[key] else Null
  }

  // ---------------------------------------------------------------------
  // the callback, as a function of the session, the request and the responses

  /** What `retrieveUser` ends with: the user or the exception, and the HTTP
      requests issued on the way. */
  datatype Retrieval = Retrieval(user: Result<UserRecord, Failure>, calls: seq<HttpCall>)

  /** The callback is refused: the provider keeps state and the state pulled
      from the session does not vouch for the request. */
  predicate Rejects(stateless: bool, stored: map<string, string>, request: Request) {
    !stateless && InvalidState(Lookup(stored, StateKey), Input(request, StateKey))
  }

  /** The user the callback builds from the user payload and the token
      response. */
  function TokenUser(tokenResponse: Value, payload: Value): UserRecord {
    Instagram.MappedUser(Get(payload, "data")).(
      token := Get(tokenResponse, "access_token"),
      refreshToken := Get(tokenResponse, "refresh_token"),
      expiresIn := Get(tokenResponse, "expires_in"))
  }

  /** `retrieveUser()`, given the session's content before the call, the
      decoded token response and the decoded user payload. */
  function Retrieve(config: Config, stateless: bool, stored: map<string, string>, request: Request,
                    tokenResponse: Value, payload: Value): Retrieval
  {
    if Rejects(stateless, stored, request) then Retrieval(Err(InvalidStateException), [])
    else
      var token := Get(tokenResponse, "access_token");
      var calls := [ HttpPost(Instagram.TokenUrl, Instagram.TokenFields(config, Input(request, "code"))),
                     HttpGet(Instagram.SelfUrl(Text(token))) ];
      if Instagram.Mappable(payload) then Retrieval(Ok(TokenUser(tokenResponse, payload)), calls)
      else Retrieval(Err(TypeError), calls)
  }

  /** The callback once the state is accepted. */
  lemma RetrieveAccepted(config: Config, stateless: bool, stored: map<string, string>, request: Request,
                         tokenResponse: Value, payload: Value)
    requires !Rejects(stateless, stored, request)
    ensures var out := Retrieve(config, stateless, stored, request, tokenResponse, payload);
      var token := Get(tokenResponse, "access_token");
      && out.calls == [ HttpPost(Instagram.TokenUrl, Instagram.TokenFields(config, Input(request, "code"))),
                        HttpGet(Instagram.SelfUrl(Text(token))) ]
      && out.user == if Instagram.Mappable(payload) then Ok(TokenUser(tokenResponse, payload)) else Err(TypeError)
  {
  }

  /** A stateful callback goes on to the token endpoint only when the session
      held a non-empty state and the request carries that very string; when
      it does not, the callback fails with `InvalidStateException` before
      any request is sent. A stateless provider never refuses. */
  lemma RetrieveChecksState(config: Config, stateless: bool, stored: map<string, string>, request: Request,
                            tokenResponse: Value, payload: Value)
    ensures var out := Retrieve(config, stateless, stored, request, tokenResponse, payload);
      && (out.calls == [] <==>
            !stateless &&
            (StateKey !in stored || stored[StateKey] == "" || Input(request, StateKey) != Str(stored[StateKey])))
      && (out.calls == [] ==> out.user == Err(InvalidStateException))
      && (out.user == Err(InvalidStateException) ==> out.calls == [])
  {
    InvalidStateCases(Lookup(stored, StateKey), Input(request, StateKey));
  }

  /** An accepted callback first posts the client credentials, the
      request's code, the redirect URL and `grant_type=authorization_code`
      to the token endpoint. */
  lemma RetrieveExchangesCode(config: Config, stateless: bool, stored: map<string, string>, request: Request,
                              tokenResponse: Value, payload: Value)
    requires !Rejects(stateless, stored, request)
    ensures var out := Retrieve(config, stateless, stored, request, tokenResponse, payload);
      && |out.calls| == 2
      && out.calls[0] == HttpPost(Instagram.TokenUrl, [
           ("client_id", Str(config.clientId)),
           ("client_secret", Str(config.clientSecret)),
           ("code", Input(request, "code")),
           ("redirect_uri", Str(config.redirectUrl)),
           ("grant_type", Str("authorization_code")) ])
  {
    Instagram.TokenFieldsExact(config, Input(request, "code"));
  }

  /** It then reads the user at the URL `getBaseUrl` builds for `users/self`
      with the access token the token endpoint answered with. */
  lemma RetrieveReadsUser(config: Config, stateless: bool, stored: map<string, string>, request: Request,
                          tokenResponse: Value, payload: Value)
    requires !Rejects(stateless, stored, request)
    ensures WellFormedTemplate(Instagram.SelfEndpoint) && Placeholders(Instagram.SelfEndpoint) == 0
    ensures var out := Retrieve(config, stateless, stored, request, tokenResponse, payload);
      && |out.calls| == 2
      && out.calls[1] == HttpGet(Instagram.ApiUrl(Instagram.SelfEndpoint, Text(Get(tokenResponse, "access_token")), Null))
  {
    Instagram.SelfUrlIsApiUrl(Text(Get(tokenResponse, "access_token")));
  }

  /** An accepted callback returns a user exactly when the payload has the
      shape `mapUserToObject` accepts, and that user carries the payload's
      fields and the token response's access token, refresh token and
      lifetime; otherwise it fails with a `TypeError`. */
  lemma RetrieveBuildsUser(config: Config, stateless: bool, stored: map<string, string>, request: Request,
                           tokenResponse: Value, payload: Value)
    requires !Rejects(stateless, stored, request)
    ensures var out := Retrieve(config, stateless, stored, request, tokenResponse, payload);
      && (out.user.Ok? <==> Instagram.Mappable(payload))
      && (out.user.Err? ==> out.user.error == TypeError)
      && (out.user.Ok? ==>
            var u := out.user.value;
            var data := Get(payload, "data");
            && Property(u, "id") == Get(data, "id")
            && Property(u, "username") == Get(data, "username")
            && Property(u, "user") == data
            && Property(u, "token") == Get(tokenResponse, "access_token")
            && Property(u, "refreshToken") == Get(tokenResponse, "refresh_token")
            && Property(u, "expiresIn") == Get(tokenResponse, "expires_in"))
  {
    var data := Get(payload, "data");
    var mapped := Instagram.MappedUser(data);
    Instagram.MappedUserRenames(data);
    Instagram.MappedUserRest(data, "user");
    FixedSlots();
    assert mapped.id == Get(data, "id") && mapped.username == Get(data, "username");
    assert mapped.user == data;
  }

  // ---------------------------------------------------------------------
  // the provider object

  class Provider {
    const config: Config
    const request: Request
    const session: Session
    var stateless: bool

    /** `new Instagram($request, $clientId, $clientSecret, $redirectUrl, $scopes)`:
        no custom parameters, and state is used. */
    constructor (request: Request, session: Session, clientId: string, clientSecret: string,
                 redirectUrl: string, scopes: seq<string>)
      ensures this.config == Config(clientId, clientSecret, redirectUrl, scopes, [])
      ensures this.request == request && this.session == session && !stateless
    {
      this.config := Config(clientId, clientSecret, redirectUrl, scopes, []);
      this.request := request;
      this.session := session;
      stateless := false;
    }

    /** `stateless()`: stop using the session state; returns the provider. */
    method Stateless() returns (self: Provider)
      modifies this
      ensures self == this && stateless
    {
      stateless := true;
      self := this;
    }

    /** `usesState()`. */
    function UsesState(): (r: bool)
      reads this
      ensures r <==> !stateless
    {
      !stateless
    }

    /** `authenticate()`: the URL the browser is redirected to. A stateful
        provider first stores the nonce (`Str::random(40)`, given here as a
        parameter) in the session under `state` and sends it along; a
        stateless one leaves the session alone and sends no state. */
    method Authenticate(nonce: string) returns (url: string)
      requires |nonce| == 40
      modifies session
      ensures !stateless ==> session.entries == old(session.entries)[StateKey := nonce]
      ensures stateless ==> session.entries == old(session.entries)
      ensures url == Instagram.AuthUrl(config, stateless, if stateless then None else Some(nonce))
    {
      var state: Option<string> := None;
      if UsesState() {
        state := Some(nonce);
        session.Put(StateKey, nonce);
      }
      url := Instagram.AuthUrl(config, stateless, state);
    }

    /** `hasInvalidState()`: a stateful provider pulls the state out of the
        session (it cannot be used twice) and compares it with the
        request's. */
    method HasInvalidState() returns (invalid: bool)
      modifies session
      ensures invalid == Rejects(stateless, old(session.entries), request)
      ensures session.entries == if stateless then old(session.entries) else old(session.entries) - {StateKey}
    {
      if stateless {
        return false;
      }
      var pulled := session.Pull(StateKey);
      invalid := InvalidState(pulled, Input(request, StateKey));
    }

    /** `retrieveUser()`: `tokenResponse` and `payload` are the decoded bodies
        the token endpoint and the user endpoint answer with. */
    method RetrieveUser(tokenResponse: Value, payload: Value) returns (r: Result<User, Failure>, calls: seq<HttpCall>)
      modifies session
      ensures var out := Retrieve(config, stateless, old(session.entries), request, tokenResponse, payload);
        && calls == out.calls
        && r.Ok? == out.user.Ok?
        && (r.Err? ==> r.error == out.user.error)
        && (r.Ok? ==> fresh(r.value) && r.value.Snapshot() == out.user.value)
      ensures session.entries == if stateless then old(session.entries) else old(session.entries) - {StateKey}
    {
      ghost var out := Retrieve(config, stateless, session.entries, request, tokenResponse, payload);
      var invalid := HasInvalidState();
      if invalid {
        return Err(InvalidStateException), [];
      }
      RetrieveAccepted(config, stateless, old(session.entries), request, tokenResponse, payload);
      var token := Get(tokenResponse, "access_token");
      calls := [ HttpPost(Instagram.TokenUrl, Instagram.TokenFields(config, Input(request, "code"))),
                 HttpGet(Instagram.SelfUrl(Text(token))) ];
      var mapped := Instagram.MapUserToObject(payload);
      if mapped.Err? {
        return Err(mapped.error), calls;
      }
      var u := mapped.value;
      u := u.SetToken(token);
      u := u.SetRefreshToken(Get(tokenResponse, "refresh_token"));
      u := u.SetExpiresIn(Get(tokenResponse, "expires_in"));
      assert u.Snapshot() == out.user.value;
      r := Ok(u);
    }

    /** `userFromToken($token)`: reads the user with a token the application
        already holds; neither the session nor the state is involved. */
    method UserFromToken(token: string, payload: Value) returns (r: Result<User, Failure>, calls: seq<HttpCall>)
      ensures calls == [HttpGet(Instagram.SelfUrl(token))]
      ensures r.Ok? <==> Instagram.Mappable(payload)
      ensures r.Err? ==> r.error == TypeError
      ensures r.Ok? ==> fresh(r.value) &&
                        r.value.Snapshot() == Instagram.MappedUser(Get(payload, "data")).(token := Str(token))
    {
      calls := [HttpGet(Instagram.SelfUrl(token))];
      var mapped := Instagram.MapUserToObject(payload);
      if mapped.Err? {
        return Err(mapped.error), calls;
      }
      var u := mapped.value;
      u := u.SetToken(Str(token));
      r := Ok(u);
    }
  }
}
