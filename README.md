# Instagram OAuth 2.0 client, modelled in Dafny

This project models the core of the `dotenv/instagram` PHP package. The
package is a Laravel client for the Instagram API. It signs a user in with the
OAuth 2.0 authorization-code flow (RFC 6749):

- It redirects the browser to Instagram's authorize URL. For a stateful
  provider it first stores a random 40-character `state` in the session.
- On the callback it checks that `state` and posts the code to the token
  endpoint.
- It fetches `users/self` with the access token and maps the payload onto a
  `User` object.

It also wraps the API endpoints. This model covers the comment endpoints,
the local comment checks they apply, and the location endpoints.

Modules, one per source file or concern:

- `Strings` (`strings.dfy`): the PHP string functions the client relies on:
  `implode`, `strlen` over UTF-8, `substr_count`, and upper-casing. It also
  holds a splitting function, used to state that the joined scopes and a
  built query can be read back.
- `Values` (`values.dfy`): decoded PHP/JSON values and ordered arrays with
  string keys. It includes `isset`, `Arr::get` and truthiness.
- `QueryString` (`query.dfy`): `http_build_query` in RFC 1738 mode, and a
  parser that reads such a query back.
- `ProviderCore` (`provider.dfy`): the pure part of `src/Provider.php`. This
  is the configuration, the code fields, the token fields, the URL builders,
  the state test and `getBaseUrl` with its `vsprintf`.
- `Users` (`user.dfy`): `src/User.php` as a class whose setters update fields
  in place.
- `Instagram` (`instagram.dfy`): `src/Instagram.php`, covering its URLs, its
  token fields and its user mapping.
- `AuthFlow` (`auth_flow.dfy`): the stateful part of `src/Provider.php`. It
  holds a `Session` class, a `Provider` class, and the callback `Retrieve` as a
  function of the session, the request and the decoded responses.
- `Validates`, `Comments`, `Locations` (`validates.dfy`, `comments.dfy`,
  `locations.dfy`): the traits of the same names.
- `Scenarios` (`scenarios.dfy`): the situations of `tests/InstagramTest.php`,
  replayed against the Instagram provider.

The network is not modelled. Each operation returns the HTTP requests it
would issue (`HttpGet`, `HttpPost`, `HttpDelete`). The decoded response bodies
are parameters. `Str::random(40)` is a parameter too: the nonce.

## Model

| member | source | states |
|---|---|---|
| Strings.SplitJoin | src/Provider.php:219-222 | splitting at the separator undoes `implode` when no part holds the separator |
| Strings.ByteLength | src/Traits/Validates.php:26 | `strlen`: the number of UTF-8 bytes of the string; its bounds are stated by `Strings.ByteLengthBounds` |
| Strings.ByteLengthBounds | src/Traits/Validates.php:26 | `strlen` counts bytes: at least one and at most four per character, exactly one for ASCII, and zero only for the empty string |
| Strings.Count | src/Traits/Validates.php:31-39 | `substr_count`: non-overlapping occurrences scanned left to right, so the count times the needle's length fits in the string |
| Strings.CountPositive | src/Traits/Validates.php:31-39 | `substr_count` is positive exactly when the needle occurs |
| Strings.CountAtLeastTwo | src/Traits/Validates.php:36 | `substr_count(s, n) > 1` exactly when `n` occurs twice without overlap |
| Strings.CountChar | src/Traits/Validates.php:31 | counting a one-character needle gives the multiplicity of that character |
| Strings.ToUpperAscii | src/Traits/Validates.php:41 | upper-casing keeps the length, upper-cases each character on its own and leaves no lower-case ASCII letter |
| Strings.UpperFixedIff | src/Traits/Validates.php:41 | upper-casing leaves a string unchanged exactly when it has no lower-case letter |
| Values.Find | src/Traits/LocationsWS.php:88 | a key is absent from the lookup exactly when it is not among the array's keys |
| Values.FindAt | src/Instagram.php:103-111 | in an array without repeated keys, looking up an entry's key gives that entry's value |
| Values.FindSnoc | src/User.php:138-146 | appending an entry affects only the lookup of a key that was absent before |
| Values.Get | src/Instagram.php:103-111 | `Arr::get` / `isset(..) ? .. : null`: the value under the key, or null when the value is not an array or lacks the key |
| Values.Isset | src/Traits/LocationsWS.php:88 | `isset($a[$k])`: the key is present and its value is not null |
| Values.Truthy | src/Traits/LocationsWS.php:67 | PHP's boolean conversion: null, false, 0, `""`, `"0"` and the empty array are false, everything else true |
| Values.Text | src/Provider.php:456 | PHP's string conversion as `%s` and `.` apply it: null and false give the empty string, true gives `1`, an integer its decimal digits, a string itself, an array `Array`; `ProviderCore.VsprintfOne` and `ProviderCore.VsprintfTwo` state that it is what a placeholder receives |
| QueryString.UrlEncode | src/Provider.php:173 | `urlencode` of each key and value: unreserved bytes kept, space as `+`, every other UTF-8 byte as `%XX`; inverted by `QueryString.DecodeUrlEncode` |
| QueryString.BuildQuery | src/Provider.php:173-186 | `http_build_query` in RFC 1738 mode: `key=value` pieces of the non-null fields, in order, joined by `&`; read back by `QueryString.ParseBuildQuery` |
| QueryString.DecodeUrlEncode | src/Provider.php:173 | decoding a `urlencode`d string gives back exactly its UTF-8 bytes |
| QueryString.UrlEncodeIsSafe | src/Provider.php:186 | an encoded component never holds `&`, `=`, `?` or `#` |
| QueryString.ParseBuildQuery | src/Provider.php:184-187 | a built query reads back as exactly the non-null fields, in order, as byte pairs |
| ProviderCore.FormatScopesRoundTrip | src/Provider.php:219-222 | the joined scopes split back into the scope list |
| ProviderCore.FormatScopes | src/Provider.php:219-222 | `implode($scopeSeparator, $scopes)`; read back by `ProviderCore.FormatScopesRoundTrip` |
| ProviderCore.CodeFields | src/Provider.php:195-210 | the four authorization fields, `state` when state is used, then `array_merge` with the custom parameters; order and values stated by `ProviderCore.CodeFieldsOrder` and `ProviderCore.CodeFieldsValues` |
| ProviderCore.BuildAuthUrlFromBase | src/Provider.php:171-174 | the base URL, `?`, then the query of the code fields |
| ProviderCore.BuildUrlFromBase | src/Provider.php:184-187 | `buildUrlFromBase`: the URL, the separator, then the query of the parameters; what the Locations URLs look like through it is stated by `Locations.GetLocationMediaRecentUrl` and `Locations.SearchLocationUrl` |
| ProviderCore.TokenFields | src/Provider.php:295-303 | the parent's token form: `client_id`, `client_secret`, `code`, `redirect_uri`, in that order |
| ProviderCore.InvalidState | src/Provider.php:261-269 | the pulled state is missing or empty, or the request's `state` is not strictly equal to it; cases stated by `ProviderCore.InvalidStateCases` |
| ProviderCore.SetFieldFind | src/Provider.php:204-207 | `$fields['state'] = $state` changes the lookup of that key only |
| ProviderCore.SetFieldKeys | src/Provider.php:204-207 | assigning a key keeps the key order and appends a new key at the end |
| ProviderCore.SetField | src/Provider.php:206 | `$fields['state'] = $state`: the entry is overwritten in place or appended; its effect is stated by `ProviderCore.SetFieldFind` and `ProviderCore.SetFieldKeys` |
| ProviderCore.ArrayMergeEffect | src/Provider.php:209 | after `array_merge` a key holds the value of the second array if it has that key, else the value of the first |
| ProviderCore.ArrayMergeKeys | src/Provider.php:209 | after `array_merge` the first array's keys come first, in place, followed by the second array's new keys in the order it first gives them; no key repeats |
| ProviderCore.ArrayMergeDisjoint | src/Provider.php:209 | when the second array brings only new keys, `array_merge` appends it whole, in order |
| ProviderCore.ArrayMerge | src/Provider.php:209 | `array_merge` for string keys; the values are stated by `ProviderCore.ArrayMergeEffect`, the key order by `ProviderCore.ArrayMergeKeys`, the disjoint case by `ProviderCore.ArrayMergeDisjoint` |
| ProviderCore.CodeFieldsOrder | src/Provider.php:195-210 | the code fields start `client_id`, `redirect_uri`, `scope`, `response_type`, followed by `state` when state is used, with no key twice |
| ProviderCore.CodeFieldsValues | src/Provider.php:195-210 | each code field holds the configured value unless a custom parameter overrides it; `state` is present only when state is used |
| ProviderCore.InvalidStateCases | src/Provider.php:261-269 | a callback is invalid exactly when no state was stored, the stored state is empty, or the request's `state` is not strictly equal to it |
| ProviderCore.GetBaseUrl | src/Provider.php:443-459 | base URL, version and endpoint filled by `vsprintf` with `(array) $params`, then `?` or `&` and `access_token=` with the token |
| ProviderCore.Vsprintf | src/Provider.php:456 | `vsprintf` with `%s` and `%%`, at least as many values as placeholders; stated by `ProviderCore.VsprintfLiteralPrefix`, `ProviderCore.VsprintfOne`, `ProviderCore.VsprintfTwo` and `ProviderCore.VsprintfChars` |
| ProviderCore.VsprintfLiteralPrefix | src/Provider.php:456 | `vsprintf` copies a prefix without `%` unchanged |
| ProviderCore.VsprintfOne | src/Provider.php:456 | a one-placeholder template takes its single value in place of `%s` |
| ProviderCore.VsprintfTwo | src/Provider.php:456 | a two-placeholder template takes two values in order |
| ProviderCore.VsprintfOneLast | src/Provider.php:456 | a template ending in its one placeholder ends in that value's text |
| ProviderCore.VsprintfTwoLast | src/Provider.php:456 | a template ending in its second placeholder takes the two values in order and ends in the second |
| ProviderCore.FormatArgs | src/Provider.php:454 | `(array) $params`: null gives no values, a scalar gives one, and an array gives its values in order |
| ProviderCore.ListArgs | src/Provider.php:454 | `(array)` of the PHP list `[$x, $y]` gives the two values in order |
| ProviderCore.VsprintfChars | src/Provider.php:456 | every character of the output comes from the template or from a value |
| ProviderCore.GetBaseUrlSeparator | src/Provider.php:443-459 | when no `?` is in the base URL, the version or the substituted values, the filled URL holds a `?` exactly when the endpoint template does, so the token opens or continues a query |
| ProviderCore.QuestionMarkSurvives | src/Provider.php:449-456 | a `?` in the template reaches the filled URL |
| Users.SlotOfInjective | src/User.php:142 | two property names designate the same property only when they are equal |
| Users.WithPropertyEffect | src/User.php:142 | assigning one property changes it and no other |
| Users.MapAttributesEffect | src/User.php:138-146 | after `map`, each listed property holds its listed value and every other property is unchanged |
| Users.MapAttributes | src/User.php:138-146 | the effect of the `foreach` of `map`, each entry assigned in turn; stated by `Users.MapAttributesEffect`, and `Users.User.Map` is proved equal to it |
| Users.User.constructor | src/User.php:16-58 | a new user has every property null |
| Users.User.SetProperty | src/User.php:142 | the new state is the old one with that one property assigned |
| Users.User.Map | src/User.php:138-146 | the loop assigns the entries in order: the new state is `MapAttributes` of the old, and the method returns the user itself |
| Users.User.SetRaw | src/User.php:126-130 | only the raw payload changes; returns the user itself |
| Users.User.SetToken | src/User.php:154-158 | only the token changes; returns the user itself |
| Users.User.SetRefreshToken | src/User.php:166-170 | only the refresh token changes; returns the user itself |
| Users.User.SetExpiresIn | src/User.php:178-182 | only the lifetime changes; returns the user itself |
| Users.User.GetId | src/User.php:65-68 | reads the `id` property |
| Users.User.GetUserName | src/User.php:75-78 | reads the `username` property |
| Users.User.GetFullName | src/User.php:85-88 | reads the `fullname` property |
| Users.User.GetEmail | src/User.php:95-98 | reads the `email` property |
| Users.User.GetProfilePicture | src/User.php:105-108 | reads the `profilePicture` property |
| Users.User.GetRaw | src/User.php:115-118 | reads the raw payload that `setRaw` stored |
| Instagram.AuthUrlShape | src/Instagram.php:57-64 | the authorize URL is the hand-written base, a second `?`, then a query that reads back as exactly the code fields in order |
| Instagram.AuthUrl | src/Instagram.php:57-64 | the hand-written authorize URL with client id, redirect URL and `response_type=code`, then `?` and the code fields; its shape stated by `Instagram.AuthUrlShape` |
| Instagram.TokenUrl | src/Instagram.php:71-74 | the token endpoint `https://api.instagram.com/oauth/access_token`; posted to by `AuthFlow.RetrieveExchangesCode` |
| Instagram.AuthScopeIsSpaceDelimited | src/Instagram.php:49 | the `scope` field splits on spaces back into the configured scopes |
| Instagram.ApiUrlFill | src/Provider.php:443-459 | with this provider's base URL and version, filling the template fills the endpoint alone |
| Instagram.ApiUrl | src/Provider.php:443-459 | `getBaseUrl` with `https://api.instagram.com` and `v1`; stated by `Instagram.ApiUrlFill`, `Instagram.ApiUrlLiteral`, `Instagram.ApiUrlOne` and `Instagram.ApiUrlTwo` |
| Instagram.ApiUrlLiteral | src/Provider.php:443-459 | an endpoint without placeholders or `?`, given no parameters, gives root, endpoint, `?access_token=`, token |
| Instagram.ApiRootSpelledOut | src/Instagram.php:35-42 | every API URL starts `https://api.instagram.com/v1/` |
| Instagram.ApiUrlOne | src/Provider.php:443-459 | a one-placeholder endpoint gives root, filled endpoint, `?access_token=`, token |
| Instagram.ApiUrlOneLast | src/Provider.php:443-459 | an endpoint ending in its one placeholder gives root, literal part, the value, `?access_token=`, token |
| Instagram.ApiUrlTwo | src/Provider.php:443-459 | a two-placeholder endpoint filled from a list takes the list's values in order |
| Instagram.ApiUrlTwoLast | src/Provider.php:443-459 | an endpoint ending in its second placeholder takes the list's two values in order |
| Instagram.SelfUrlIsApiUrl | src/Instagram.php:84 | the hand-built `users/self` URL equals what `getBaseUrl` builds for that endpoint |
| Instagram.SelfUrl | src/Instagram.php:82-84 | base URL, version, `users/self?access_token=` and the token |
| Instagram.TokenFieldsExact | src/Instagram.php:121-126 | the token request carries `client_id`, `client_secret`, `code`, `redirect_uri`, then `grant_type=authorization_code`, exactly |
| Instagram.TokenFields | src/Instagram.php:121-126 | `array_add` of `grant_type=authorization_code` to the parent's token form; stated exactly by `Instagram.TokenFieldsExact` |
| Instagram.ArrayAdd | src/Instagram.php:123-125 | `array_add`: the key is set only when absent or null; for the token form its result is stated by `Instagram.TokenFieldsExact` |
| Instagram.UserAttributesUnique | src/Instagram.php:105-112 | the mapped attribute names are the six listed, none twice |
| Instagram.MappedUser | src/Instagram.php:101-113 | a new user with `data` as its raw payload and the six renamed attributes assigned by `map`; stated by `Instagram.MappedUserRenames` and `Instagram.MappedUserRest` |
| Instagram.MappedUserProperty | src/Instagram.php:101-113 | a property of the mapped user is its attribute if listed, else what the raw-only user holds |
| Instagram.MappedUserRenames | src/Instagram.php:106-111 | `fullname` comes from `full_name`, `profilePicture` from `profile_picture`, and `id`, `username`, `email` and `website` from their own names |
| Instagram.MappedUserOther | src/Instagram.php:103-112 | under a name outside the six attributes the mapped user holds the raw payload (`user`) or null |
| Instagram.MappedUserRest | src/Instagram.php:103-105 | the mapped user keeps `data` as its raw payload and has no tokens; any other name reads null |
| Instagram.MapUserToObject | src/Instagram.php:101-113 | succeeds exactly when the payload and its `data` are arrays; gives a fresh user mapped from `data`, else a `TypeError` |
| AuthFlow.Session.Put | src/Provider.php:158 | the session gains or overwrites that one key |
| AuthFlow.Session.Pull | src/Provider.php:267 | returns the stored value, or none, and removes the key |
| AuthFlow.Retrieve | src/Provider.php:227-242 | `retrieveUser` as a function of the session, the request and the decoded responses: the outcome and the requests issued; stated by the five lemmas below |
| AuthFlow.RetrieveAccepted | src/Provider.php:233-241 | once the state is accepted, the callback posts the token form to the token URL (`https://api.instagram.com/oauth/access_token`), then reads `users/self` with the returned token; the result is the mapped user or a `TypeError` |
| AuthFlow.RetrieveChecksState | src/Provider.php:227-231 | a stateful callback sends nothing and raises `InvalidStateException` exactly when the stored state is missing, empty or different from the request's; a stateless one never refuses |
| AuthFlow.RetrieveExchangesCode | src/Provider.php:233 | an accepted callback first posts the five token fields, with the request's code, to the token URL |
| AuthFlow.RetrieveReadsUser | src/Provider.php:235-237 | it then reads `users/self` with the returned access token |
| AuthFlow.RetrieveBuildsUser | src/Provider.php:235-241 | the result is a user exactly when the payload is mappable; that user carries the payload fields, the access token, the refresh token and the lifetime; otherwise a `TypeError` |
| AuthFlow.Provider.constructor | src/Provider.php:107-115 | the configuration holds the arguments and no custom parameters; state is used |
| AuthFlow.Provider.Stateless | src/Provider.php:365-369 | switches the provider to stateless and returns it |
| AuthFlow.Provider.UsesState | src/Provider.php:345-348 | true exactly when the provider is not stateless |
| AuthFlow.Provider.Authenticate | src/Provider.php:153-162 | a stateful provider stores the nonce under `state` and sends it; a stateless one leaves the session alone; the URL is the Instagram authorize URL |
| AuthFlow.Provider.HasInvalidState | src/Provider.php:261-269 | the answer is `Rejects` on the session before the call; a stateful provider removes the state, so it cannot be used twice |
| AuthFlow.Provider.RetrieveUser | src/Provider.php:227-242 | requests, outcome and user equal `Retrieve` on the session before the call; the state is consumed |
| AuthFlow.Provider.UserFromToken | src/Provider.php:250-254 | reads `users/self` with the given token; the user is the mapped payload carrying that token, or a `TypeError` |
| Validates.ValidateComment | src/Traits/Validates.php:24-45 | any failure is an `InvalidParamException` |
| Validates.ValidateCommentRules | src/Traits/Validates.php:24-45 | the checks, stated on the comment itself: more than 300 bytes, more than four `#`, two non-overlapping `http://`, no lower-case letter; the first rule broken gives the message |
| Validates.ValidateCommentAccepts | src/Traits/Validates.php:24-45 | a comment passes exactly when it breaks none of the four rules |
| Validates.AsciiLengthLimit | src/Traits/Validates.php:26-29 | for an ASCII comment the length rule fires exactly above 300 characters |
| Validates.NoColonNoLinks | src/Traits/Validates.php:36 | a comment without a colon never holds two `http://` |
| Validates.ShortCommentVerdict | src/Traits/Validates.php:24-45 | a comment of at most 75 characters with at most four `#` and no colon passes exactly when it has a lower-case letter, and is otherwise rejected as all capitals |
| Validates.LinksRejected | src/Traits/Validates.php:36-39 | a comment of at most 75 characters without `#` that holds two non-overlapping `http://` is rejected for too many URLs |
| Validates.NoLetterCommentsRejected | src/Traits/Validates.php:41-44 | the empty comment and `2024` are rejected as all capitals |
| Validates.LengthBoundary | src/Traits/Validates.php:26-29 | 300 letters pass and 301 are rejected for length |
| Validates.HashtagBoundary | src/Traits/Validates.php:31-34 | four hashtags pass and five are rejected |
| Validates.TwoLinksRejected | src/Traits/Validates.php:36-39 | two `http://` links are rejected |
| Validates.CapitalsRejected | src/Traits/Validates.php:41-44 | `HELLO` is rejected as all capitals |
| Validates.HelloWorldAccepted | src/Traits/Validates.php:24-45 | `Hello #world` passes |
| Comments.GetMediaComments | src/Traits/CommentsWS.php:44-49 | a GET of `getBaseUrl('media/%s/comments', $token, $mediaId)`; spelled out by `Comments.GetMediaCommentsUrl` |
| Comments.GetMediaCommentsUrl | src/Traits/CommentsWS.php:25-49 | listing reads `media/{mediaId}/comments` with the access token |
| Comments.CreateMediaComment | src/Traits/CommentsWS.php:67-74 | the exception `validateComment` raises, else a POST of the comment as `text`; stated by `Comments.CreateValidatesFirst` |
| Comments.CreateValidatesFirst | src/Traits/CommentsWS.php:67-74 | a comment is posted exactly when it has at most 300 bytes, at most four `#`, no two non-overlapping `http://` and a lower-case letter; it is posted with `text` as the only field to `media/{mediaId}/comments` with the token; otherwise the first broken rule's exception is raised and nothing is sent |
| Comments.CapitalsNeverPosted | src/Traits/CommentsWS.php:67-74 | no comment without a lower-case letter is ever posted |
| Comments.DeleteMediaComment | src/Traits/CommentsWS.php:86-91 | a DELETE of `getBaseUrl('media/%s/comments/%s', $token, [$mediaId, $commentId])`; spelled out by `Comments.DeleteMediaCommentUrl` |
| Comments.DeleteMediaCommentUrl | src/Traits/CommentsWS.php:32-91 | deleting targets `media/{mediaId}/comments/{commentId}`, the two ids in that order |
| Locations.ArrayFilter | src/Traits/LocationsWS.php:67 | an entry is kept exactly when it is an entry of the input with a truthy value |
| Locations.ArrayFilterOrder | src/Traits/LocationsWS.php:67 | filtering keeps the input order: filtering a concatenation is the concatenation of the filtered parts |
| Locations.ArrayFilterOne | src/Traits/LocationsWS.php:67 | a single entry is kept exactly when its value is truthy |
| Locations.ArrayFilterFind | src/Traits/LocationsWS.php:86 | after filtering, a key keeps its value if that value is truthy and is absent otherwise |
| Locations.IssetAfterFilter | src/Traits/LocationsWS.php:86-88 | `isset` on the filtered parameters means "given with a truthy value" |
| Locations.GetLocation | src/Traits/LocationsWS.php:48-53 | a GET of `getBaseUrl('locations/%s', $token, $locationId)`; spelled out by `Locations.GetLocationUrl` |
| Locations.GetLocationUrl | src/Traits/LocationsWS.php:48-53 | reads `locations/{id}` with the access token |
| Locations.GetLocationMediaRecent | src/Traits/LocationsWS.php:65-73 | filters the parameters, then a GET of the location's media URL, `&` and their query; spelled out by `Locations.GetLocationMediaRecentUrl` |
| Locations.GetLocationMediaRecentUrl | src/Traits/LocationsWS.php:65-73 | reads `locations/{id}/media/recent` with the token, then `&` and the truthy parameters; the URL ends in `&` when none is left |
| Locations.SearchLocation | src/Traits/LocationsWS.php:84-97 | filters the parameters, raises the exception unless a place or both coordinates remain, else a GET of `locations/search` with `&` and their query; stated by `Locations.SearchLocationGuard` and `Locations.SearchLocationUrl` |
| Locations.SearchLocationGuard | src/Traits/LocationsWS.php:84-91 | a search is sent exactly when a Facebook place, or both coordinates, are given with truthy values; otherwise the exception with its message |
| Locations.ZeroLatitudeRefused | src/Traits/LocationsWS.php:86-91 | a latitude of `0` or `"0"` counts as missing, so without a Facebook place the search is refused |
| Locations.SearchLocationUrl | src/Traits/LocationsWS.php:93-96 | an accepted search reads `locations/search` with the token, then `&` and a query that reads back as the truthy parameters |
| Scenarios.MatchingStateSignsIn | tests/InstagramTest.php:33-55 | a matching 40-character state: the code is exchanged and the user has id `foo`, token `access_token`, refresh token `refresh_token` and lifetime 3600 |
| Scenarios.MismatchedStateRefused | tests/InstagramTest.php:60-68 | a state of forty `B`s against forty `A`s raises `InvalidStateException` and sends nothing |
| Scenarios.MissingStateRefused | tests/InstagramTest.php:73-81 | with no stored state the callback raises `InvalidStateException` and sends nothing |
| Scenarios.RedirectStoresState | tests/InstagramTest.php:20-31 | the redirect puts exactly the nonce into the session under `state`, and the code fields carry it |

## Left out

- HTTP transport, the `Accept: application/json` header and JSON decoding are
  not modelled. Requests are returned as values, and the decoded bodies are
  parameters. The Guzzle version switch between `form_params` and `body` has
  no effect on the form's content, so it is left out. So is the lazy creation
  of the HTTP client.
- `getState` (`Str::random(40)`) is randomness. The nonce is a parameter of
  `AuthFlow.Provider.Authenticate`, which requires it to have 40 characters.
- The Laravel request and session are modelled as maps. The redirect response
  object is modelled as its target URL.
- `getScopes` and `getCode` are plain reads and are inlined. `isStateless` is
  `!UsesState()`.
- The other endpoint traits (`TagsWS`, `UsersWS`, `MediaWS`, `LikesWS`,
  `RelationshipsWS`, `RequestHelper`), the contracts, the facade and the
  service provider are not part of this model.
- Validates.ValidateComment: the capitals test upper-cases ASCII letters only
  and compares strictly. The source uses `mb_strtoupper` and loose `==`, so a
  comment whose only lower-case letters are non-ASCII (`é`) is accepted there
  but rejected here. A numeric string such as `1e3`, which compares loosely
  equal to its upper-cased form `1E3`, is rejected there but accepted here.
- `vsprintf` is modelled for templates that use only `%s` and `%%`. That is
  all the library's templates use. `ProviderCore.GetBaseUrl` requires at least
  as many values as placeholders. With fewer, PHP raises an error that is not
  modelled.
- `array_merge` and `http_build_query` are modelled for string keys and scalar
  values. Integer keys, which `array_merge` renumbers, and nested arrays, which
  `http_build_query` expands into `k[i]=v`, do not occur in the core. Floats
  are not represented.
- The custom `parameters` of the authorization request are modelled in
  `ProviderCore.CodeFields`. No code in the core sets them, so
  `AuthFlow.Provider.constructor` leaves them empty.
- Instagram.MapUserToObject: `$user['data']` and `$user['id']` on a missing
  key read as null. In PHP that also raises a notice, which Laravel may turn
  into an exception; that is not modelled. A payload that is not an array
  gives the `TypeError` of the `array` type hint.
- Comments.DeleteMediaComment: the PHP list `[$mediaId, $commentId]` is
  modelled as an array with keys `"0"` and `"1"`.
- Values.Find: a decoded JSON object with a repeated key keeps its first
  entry here, while `json_decode` keeps the last. `AuthFlow.Retrieve` does not
  require its decoded payloads to have unique keys, so for such a payload the
  model reads the first value where PHP reads the last.
- Users.User.SetRaw: requires an array payload, so `setRaw`'s own `TypeError`
  for a non-array argument is not modelled in it. Its only caller,
  `Instagram.MapUserToObject`, checks that case first and returns the
  `TypeError` itself, so no outcome of the client is lost.
- The scenarios of `tests/InstagramTest.php` use a stub provider with its own
  URLs and mapping. They are replayed here against the Instagram provider,
  with the user payload wrapped in `data`.
