/** The concrete Instagram provider (src/Instagram.php): its endpoints, its
    scope separator, the extra `grant_type` token field, and the mapping of
    the `users/self` payload onto a `User`. */
module Instagram {

  import opened Values
  import Strings
  import QueryString
  import opened ProviderCore
  import opened Users

  const BaseUrl: string := "https://api.instagram.com"
  const Version: string := "v1"

  /** Scopes are joined with a space, as section 3.3 of RFC 6749 asks. */
  const ScopeSeparator: char := ' '

  /** The URL `getAuthUrl` hands to `buildAuthUrlFromBase`: it already holds
      a query, with the client id and redirect URL written in unencoded. */
  function AuthUrlBase(config: Config): string {
    BaseUrl + "/oauth/authorize/?" + "client_id=" + config.clientId +
    "&redirect_uri=" + config.redirectUrl + "&response_type=code"
  }

  /** `getAuthUrl($state)`. */
  function AuthUrl(config: Config, stateless: bool, state: Option<string>): string {
    BuildAuthUrlFromBase(AuthUrlBase(config), CodeFields(config, ScopeSeparator, stateless, state))
  }

  /** The authorization URL is the fixed authorize URL with its hand-written
      query, then a second `?`, then a query that a server reads back as
      exactly the code fields, in order. */
  lemma AuthUrlShape(config: Config, stateless: bool, state: Option<string>)
    ensures var url := AuthUrl(config, stateless, state);
      var n := |AuthUrlBase(config)|;
      && |url| > n
      && url[..n + 1] == AuthUrlBase(config) + "?"
      && QueryString.ParseQuery(url[n + 1..]) ==
           Some(QueryString.Carried(CodeFields(config, ScopeSeparator, stateless, state)))
  {
    var fields := CodeFields(config, ScopeSeparator, stateless, state);
    var url := AuthUrl(config, stateless, state);
    var n := |AuthUrlBase(config)|;
    assert url == (AuthUrlBase(config) + "?") + QueryString.BuildQuery(fields);
    assert url[n + 1..] == QueryString.BuildQuery(fields);
    QueryString.ParseBuildQuery(fields);
  }

  /** The `scope` field of the authorization request lists the configured
      scopes separated by single spaces: splitting it on spaces gives the
      scopes back, unless a custom parameter replaced it. */
  lemma AuthScopeIsSpaceDelimited(config: Config, stateless: bool, state: Option<string>)
    requires UniqueKeys(config.parameters) && "scope" !in Keys(config.parameters)
    requires |config.scopes| > 0 && forall s :: s in config.scopes ==> ' ' !in s
    ensures var scope := Find(CodeFields(config, ScopeSeparator, stateless, state), "scope");
      && scope.Some? && scope.value.Str?
      && Strings.Split(scope.value.s, ' ') == config.scopes
  {
    CodeFieldsValues(config, ScopeSeparator, stateless, state);
    FormatScopesRoundTrip(config.scopes, ' ');
  }

  /** `getTokenUrl()`. */
  const TokenUrl: string := BaseUrl + "/oauth/access_token"

  /** The URL `getUserByToken` fetches the current user from. */
  function SelfUrl(token: string): string {
    BaseUrl + "/" + Version + "/users/self?access_token=" + token
  }

  /** `getBaseUrl` with this provider's base URL and version. */
  function ApiUrl(endpoint: string, token: string, params: Value): string
    requires WellFormedTemplate(endpoint) && Placeholders(endpoint) <= |FormatArgs(params)|
  {
    VsprintfLiteralPrefix(BaseUrl + "/" + Version + "/", endpoint, FormatArgs(params));
    GetBaseUrl(BaseUrl, Version, endpoint, token, params)
  }

  /** Filling a template behind this provider's base URL fills the endpoint
      alone. */
  lemma ApiUrlFill(endpoint: string, token: string, params: Value)
    requires WellFormedTemplate(endpoint) && Placeholders(endpoint) <= |FormatArgs(params)|
    ensures ApiUrl(endpoint, token, params) ==
            BaseUrl + "/" + Version + "/" + Vsprintf(endpoint, FormatArgs(params)) +
            (if '?' in endpoint then "&" else "?") + "access_token=" + token
  {
    VsprintfLiteralPrefix(BaseUrl + "/" + Version + "/", endpoint, FormatArgs(params));
  }

  /** What every API URL starts with. */
  const ApiRoot: string := BaseUrl + "/" + Version + "/"

  lemma ApiRootSpelledOut()
    ensures ApiRoot == "https://api.instagram.com/v1/"
  {
  }

  /** The separator and the token parameter name joined into one literal;
      stated apart so that the proofs of the endpoint URLs stay small. */
  lemma TokenQuery(url: string, token: string)
    ensures url + "?" + "access_token=" + token == url + "?access_token=" + token
  {
    assert "?" + "access_token=" == "?access_token=";
  }

  /** An endpoint without `?` whose filled form is known. */
  lemma ApiUrlFilled(t: string, token: string, params: Value, filled: string)
    requires WellFormedTemplate(t) && Placeholders(t) <= |FormatArgs(params)| && '?' !in t
    requires Vsprintf(t, FormatArgs(params)) == filled
    ensures ApiUrl(t, token, params) == ApiRoot + filled + "?access_token=" + token
  {
    ApiUrlFill(t, token, params);
    TokenQuery(ApiRoot + filled, token);
  }

  /** An endpoint without placeholders or `?` and no parameters: the
      endpoint itself, then the access token. */
  lemma ApiUrlLiteral(e: string, token: string)
    requires '%' !in e && '?' !in e
    ensures WellFormedTemplate(e) && Placeholders(e) == 0 && FormatArgs(Arr([])) == []
    ensures ApiUrl(e, token, Arr([])) == ApiRoot + e + "?access_token=" + token
  {
    VsprintfLiteral(e, []);
    ApiUrlFilled(e, token, Arr([]), e);
  }

  /** Regrouping a URL's parts after the root, stated apart so that the
      proofs of the endpoint URLs stay small. */
  lemma Regroup(root: string, parts: seq<string>)
    requires 2 <= |parts| <= 5
    ensures |parts| == 2 ==> root + (parts[0] + parts[1]) == root + parts[0] + parts[1]
    ensures |parts| == 3 ==> root + (parts[0] + parts[1] + parts[2]) == root + parts[0] + parts[1] + parts[2]
    ensures |parts| == 4 ==> root + (parts[0] + parts[1] + parts[2] + parts[3]) == root + parts[0] + parts[1] + parts[2] + parts[3]
    ensures |parts| == 5 ==> root + (parts[0] + parts[1] + parts[2] + parts[3] + parts[4]) ==
                             root + parts[0] + parts[1] + parts[2] + parts[3] + parts[4]
  {
  }

  /** A template built from parts without `?` has none; stated apart so
      that the proofs of the endpoint URLs stay small. */
  lemma NoQuestionMark(t: string, parts: seq<string>)
    requires |parts| == 2 || |parts| == 3
    requires forall i :: 0 <= i < |parts| ==> '?' !in parts[i]
    requires |parts| == 2 ==> t == parts[0] + "%s" + parts[1]
    requires |parts| == 3 ==> t == parts[0] + "%s" + parts[1] + "%s" + parts[2]
    ensures '?' !in t
  {
    var h := "%s";
    assert '?' !in h;
  }

  /** An endpoint `t` with one placeholder between literal parts, filled
      with a single value. */
  lemma ApiUrlOne(t: string, a: string, b: string, token: string, x: Value)
    requires t == a + "%s" + b && '%' !in a && '%' !in b && '?' !in a && '?' !in b
    requires !x.Null? && !x.Arr?
    ensures WellFormedTemplate(t) && Placeholders(t) == 1 && FormatArgs(x) == [x]
    ensures ApiUrl(t, token, x) == ApiRoot + a + Text(x) + b + "?access_token=" + token
  {
    VsprintfOne(a, b, x);
    NoQuestionMark(t, [a, b]);
    ApiUrlFilled(t, token, x, a + Text(x) + b);
    Regroup(ApiRoot, [a, Text(x), b]);
  }

  /** An endpoint `t` with two placeholders between literal parts, filled
      with the two values of a list, in order. */
  lemma ApiUrlTwo(t: string, a: string, b: string, c: string, token: string, x: Value, y: Value)
    requires t == a + "%s" + b + "%s" + c
    requires '%' !in a && '%' !in b && '%' !in c && '?' !in a && '?' !in b && '?' !in c
    ensures WellFormedTemplate(t) && Placeholders(t) == 2 && FormatArgs(Arr([("0", x), ("1", y)])) == [x, y]
    ensures ApiUrl(t, token, Arr([("0", x), ("1", y)])) ==
            ApiRoot + a + Text(x) + b + Text(y) + c + "?access_token=" + token
  {
    var args := Arr([("0", x), ("1", y)]);
    VsprintfTwo(a, b, c, x, y);
    ListArgs(x, y);
    NoQuestionMark(t, [a, b, c]);
    ApiUrlFilled(t, token, args, a + Text(x) + b + Text(y) + c);
    Regroup(ApiRoot, [a, Text(x), b, Text(y), c]);
  }

  /** An endpoint ending in its one placeholder. */
  lemma ApiUrlOneLast(t: string, a: string, token: string, x: Value)
    requires t == a + "%s" && '%' !in a && '?' !in a
    requires !x.Null? && !x.Arr?
    ensures WellFormedTemplate(t) && Placeholders(t) == 1 && FormatArgs(x) == [x]
    ensures ApiUrl(t, token, x) == ApiRoot + a + Text(x) + "?access_token=" + token
  {
    VsprintfOneLast(a, x);
    var h := "%s";
    assert '?' !in h;
    ApiUrlFilled(t, token, x, a + Text(x));
    Regroup(ApiRoot, [a, Text(x)]);
  }

  /** An endpoint ending in the second of its two placeholders. */
  lemma ApiUrlTwoLast(t: string, a: string, b: string, token: string, x: Value, y: Value)
    requires t == a + "%s" + b + "%s"
    requires '%' !in a && '%' !in b && '?' !in a && '?' !in b
    ensures WellFormedTemplate(t) && Placeholders(t) == 2 && FormatArgs(Arr([("0", x), ("1", y)])) == [x, y]
    ensures ApiUrl(t, token, Arr([("0", x), ("1", y)])) ==
            ApiRoot + a + Text(x) + b + Text(y) + "?access_token=" + token
  {
    var args := Arr([("0", x), ("1", y)]);
    VsprintfTwoLast(a, b, x, y);
    ListArgs(x, y);
    var h := "%s";
    assert '?' !in h;
    ApiUrlFilled(t, token, args, a + Text(x) + b + Text(y));
    Regroup(ApiRoot, [a, Text(x), b, Text(y)]);
  }

  /** The endpoint the current user is read from. */
  const SelfEndpoint: string := "users/self"

  lemma SelfEndpointIsLiteral()
    ensures WellFormedTemplate(SelfEndpoint) && Placeholders(SelfEndpoint) == 0
    ensures Vsprintf(SelfEndpoint, []) == SelfEndpoint && '?' !in SelfEndpoint
  {
    assert '%' !in SelfEndpoint;
    VsprintfLiteral(SelfEndpoint, []);
  }

  lemma SelfUrlSpelledOut(token: string, url: string)
    requires url == BaseUrl + "/" + Version + "/" + SelfEndpoint + "?" + "access_token=" + token
    ensures SelfUrl(token) == url
  {
    assert "/" + SelfEndpoint + "?" + "access_token=" == "/users/self?access_token=";
  }

  /** The hand-built user URL is the one `getBaseUrl` builds for `users/self`. */
  lemma SelfUrlIsApiUrl(token: string)
    ensures WellFormedTemplate(SelfEndpoint) && Placeholders(SelfEndpoint) == 0
    ensures SelfUrl(token) == ApiUrl(SelfEndpoint, token, Null)
  {
    SelfEndpointIsLiteral();
    ApiUrlFill(SelfEndpoint, token, Null);
    SelfUrlSpelledOut(token, ApiUrl(SelfEndpoint, token, Null));
  }

  /** `Arr::add($array, $key, $value)`: sets the key only if it holds null or
      is absent. */
  function ArrayAdd(fields: seq<(string, Value)>, key: string, value: Value): seq<(string, Value)> {
    if Get(Arr(fields), key) == Null then SetField(fields, key, value) else fields
  }

  /** `getTokenFields($code)`. */
  function TokenFields(config: Config, code: Value): seq<(string, Value)> {
    ArrayAdd(ProviderCore.TokenFields(config, code), "grant_type", Str("authorization_code"))
  }

  /** The token request carries `client_id`, `client_secret`, `code` and
      `redirect_uri`, in that order, then `grant_type=authorization_code`. */
  lemma TokenFieldsExact(config: Config, code: Value)
    ensures TokenFields(config, code) == [
      ("client_id", Str(config.clientId)),
      ("client_secret", Str(config.clientSecret)),
      ("code", code),
      ("redirect_uri", Str(config.redirectUrl)),
      ("grant_type", Str("authorization_code")) ]
  {
    var parent := ProviderCore.TokenFields(config, code);
    assert Keys(parent) == ["client_id", "client_secret", "code", "redirect_uri"];
    SetFieldKeys(parent, "grant_type", Str("authorization_code"));
  }

  /** The user properties `mapUserToObject` assigns, in order. */
  const AttributeNames: seq<string> :=
    ["id", "username", "fullname", "email", "profilePicture", "website"]

  /** The payload field each of those properties is read from. */
  const PayloadFields: seq<string> :=
    ["id", "username", "full_name", "email", "profile_picture", "website"]

  /** The attributes `mapUserToObject` assigns: each property gets the
      payload's value, or null when the payload lacks it or holds null. */
  function UserAttributes(data: Value): seq<(string, Value)> {
    seq(6, i requires 0 <= i < 6 => (AttributeNames[i], Get(data, PayloadFields[i])))
  }

  /** The property names start with six different letters. */
  lemma AttributeNamesDistinct()
    ensures Distinct(AttributeNames)
  {
    var ks := AttributeNames;
    assert ks == ["id", "username", "fullname", "email", "profilePicture", "website"];
    assert forall i, j :: 0 <= i < j < 6 ==> ks[i][0] != ks[j][0];
  }

  /** An array whose entries carry the given names in order has those
      keys; stated apart so that `UserAttributesKeys` stays a small proof. */
  lemma KeysAre<V>(entries: seq<(string, V)>, names: seq<string>)
    requires |entries| == |names| && forall i :: 0 <= i < |names| ==> entries[i].0 == names[i]
    ensures Keys(entries) == names
  {
  }

  lemma UserAttributesKeys(data: Value)
    ensures Keys(UserAttributes(data)) == AttributeNames
  {
    KeysAre(UserAttributes(data), AttributeNames);
  }

  lemma UserAttributesUnique(data: Value)
    ensures Keys(UserAttributes(data)) == AttributeNames
    ensures UniqueKeys(UserAttributes(data))
  {
    UserAttributesKeys(data);
    AttributeNamesDistinct();
  }

  /** The user `mapUserToObject` builds from the unwrapped `data` array. */
  function MappedUser(data: Value): UserRecord {
    MapAttributes(Unmapped.(user := data), UserAttributes(data))
  }

  /** The payload has the shape `mapUserToObject(array $user)` accepts: an
      array whose `data` entry is an array. */
  predicate Mappable(payload: Value) {
    payload.Arr? && Get(payload, "data").Arr?
  }

  lemma MappedUserProperty(data: Value, name: string)
    ensures Property(MappedUser(data), name) ==
            match Find(UserAttributes(data), name)
            case Some(v) => v
            case None => Property(Unmapped.(user := data), name)
  {
    UserAttributesUnique(data);
    MapAttributesEffect(Unmapped.(user := data), UserAttributes(data), name);
  }

  /** The mapped user takes each attribute from the payload field it is
      renamed from. */
  lemma MappedUserRenames(data: Value)
    ensures var u := MappedUser(data);
      && Property(u, "id") == Get(data, "id")
      && Property(u, "username") == Get(data, "username")
      && Property(u, "fullname") == Get(data, "full_name")
      && Property(u, "email") == Get(data, "email")
      && Property(u, "profilePicture") == Get(data, "profile_picture")
      && Property(u, "website") == Get(data, "website")
  {
    var attrs := UserAttributes(data);
    UserAttributesUnique(data);
    FindAt(attrs, 0);
    FindAt(attrs, 1);
    FindAt(attrs, 2);
    FindAt(attrs, 3);
    FindAt(attrs, 4);
    FindAt(attrs, 5);
    MappedUserProperty(data, "id");
    MappedUserProperty(data, "username");
    MappedUserProperty(data, "fullname");
    MappedUserProperty(data, "email");
    MappedUserProperty(data, "profilePicture");
    MappedUserProperty(data, "website");
  }

  /** A user holding only a raw payload reads null under every other name. */
  lemma RawOnlyProperty(data: Value, name: string)
    ensures Property(Unmapped.(user := data), name) == if name == "user" then data else Null
  {
    if name == "user" {
      FixedSlots();
    } else if SlotOf(name) == Raw {
      FixedSlots();
      SlotOfInjective(name, "user");
    }
  }

  lemma NotAttributeNames()
    ensures "user" !in AttributeNames && "token" !in AttributeNames
    ensures "refreshToken" !in AttributeNames && "expiresIn" !in AttributeNames
  {
    var names := AttributeNames;
    assert forall i :: 0 <= i < |names| ==> |names[i]| != 4 || names[i][0] != 'u';
    assert forall i :: 0 <= i < |names| ==> |names[i]| != 5 || names[i][0] != 't';
    assert forall i :: 0 <= i < |names| ==> |names[i]| != 12 || names[i][0] != 'r';
    assert forall i :: 0 <= i < |names| ==> |names[i]| != 9 || names[i][0] != 'e';
  }

  /** Outside the six attributes the mapped user reads like the raw-only
      user. */
  lemma MappedUserOther(data: Value, name: string)
    requires name !in AttributeNames
    ensures Property(MappedUser(data), name) == if name == "user" then data else Null
  {
    UserAttributesUnique(data);
    MappedUserProperty(data, name);
    RawOnlyProperty(data, name);
  }

  /** The mapped user keeps the unwrapped payload as its raw attributes, has
      no token yet, and holds null under every name it was not given. */
  lemma MappedUserRest(data: Value, name: string)
    ensures var u := MappedUser(data);
      && Property(u, "user") == data
      && Property(u, "token") == Null
      && Property(u, "refreshToken") == Null
      && Property(u, "expiresIn") == Null
      && (name !in AttributeNames && name != "user" ==> Property(u, name) == Null)
  {
    NotAttributeNames();
    MappedUserOther(data, "user");
    MappedUserOther(data, "token");
    MappedUserOther(data, "refreshToken");
    MappedUserOther(data, "expiresIn");
    if name !in AttributeNames {
      MappedUserOther(data, name);
    }
  }

  /** `mapUserToObject($user)`: unwraps `data`, keeps it as the raw user and
      maps the renamed fields onto a new `User`. */
  method MapUserToObject(payload: Value) returns (r: Result<User, Failure>)
    ensures r.Ok? <==> Mappable(payload)
    ensures r.Err? ==> r.error == TypeError
    ensures r.Ok? ==> fresh(r.value) && r.value.Snapshot() == MappedUser(Get(payload, "data"))
  {
    if !payload.Arr? {
      return Err(TypeError);
    }
    var data := Get(payload, "data");
    if !data.Arr? {
      return Err(TypeError);
    }
    var u := new User();
    u := u.SetRaw(data);
    u := u.Map(UserAttributes(data));
    r := Ok(u);
  }
}
