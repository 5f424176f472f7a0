/** The pure part of the abstract OAuth 2.0 provider (src/Provider.php):
    the configuration, the authorization-request fields, the token-request
    fields, the URL builders and the anti-forgery state test. The stateful
    part (session, `stateless` flag) is the `Provider` class of module
    AuthFlow. */
module ProviderCore {

  import opened Values
  import Strings
  import QueryString

  /** What a provider is constructed with; never changed afterwards.
      `parameters` are the custom parameters added to the authorization
      request (empty unless a subclass sets them). */
  datatype Config = Config(
    clientId: string,
    clientSecret: string,
    redirectUrl: string,
    scopes: seq<string>,
    parameters: seq<(string, string)>)

  /** An outbound HTTP request, as handed to the HTTP client. Every request
      also carries the header `Accept: application/json`. */
  datatype HttpCall =
    | HttpGet(url: string)
    | HttpPost(url: string, form: seq<(string, Value)>)
    | HttpDelete(url: string)

  /** The exceptions the client raises: `InvalidStateException` on a forged
      or expired callback, `InvalidParamException` when a parameter fails a
      local check, and PHP's `TypeError` when a decoded payload is not the
      array a method's signature demands. */
  datatype Failure =
    | InvalidStateException
    | InvalidParamException(message: string)
    | TypeError

  /** The session key under which the pending state is kept. */
  const StateKey: string := "state"

  // ---------------------------------------------------------------------
  // scopes

  /** `formatScopes`: the scopes joined by the provider's separator. */
  function FormatScopes(scopes: seq<string>, separator: char): string {
    Strings.Join(scopes, separator)
  }

  /** The joined scopes can be split back into the list, as long as no scope
      holds the separator. */
  lemma FormatScopesRoundTrip(scopes: seq<string>, separator: char)
    requires |scopes| > 0
    requires forall s :: s in scopes ==> separator !in s
    ensures Strings.Split(FormatScopes(scopes, separator), separator) == scopes
  {
    Strings.SplitJoin(scopes, separator);
  }

  // ---------------------------------------------------------------------
  // ordered associative arrays with string keys

  /** `$fields[$key] = $value`: overwrite the entry in place, or append. */
  function SetField<V>(fields: seq<(string, V)>, key: string, value: V): seq<(string, V)> {
    if fields == [] then [(key, value)]
    else if fields[0].0 == key then [(key, value)] + fields[1..]
    else [fields[0]] + SetField(fields[1..], key, value)
  }

  lemma {:induction false} SetFieldFind<V>(fields: seq<(string, V)>, key: string, value: V, k: string)
    ensures Find(SetField(fields, key, value), k) == if k == key then Some(value) else Find(fields, k)
  {
    if fields != [] && fields[0].0 != key {
      SetFieldFind(fields[1..], key, value, k);
      assert ([fields[0]] + SetField(fields[1..], key, value))[1..] == SetField(fields[1..], key, value);
    } else if fields != [] {
      assert ([(key, value)] + fields[1..])[1..] == fields[1..];
    }
  }

  /** Setting a field keeps the keys, and appends the key if it is new. */
  lemma {:induction false} SetFieldKeys<V>(fields: seq<(string, V)>, key: string, value: V)
    ensures Keys(SetField(fields, key, value)) ==
            if key in Keys(fields) then Keys(fields) else Keys(fields) + [key]
    ensures key !in Keys(fields) ==> SetField(fields, key, value) == fields + [(key, value)]
  {
    if fields != [] {
      var rest := fields[1..];
      assert Keys(fields) == [fields[0].0] + Keys(rest);
      if fields[0].0 != key {
        SetFieldKeys(rest, key, value);
        assert Keys(SetField(fields, key, value)) == [fields[0].0] + Keys(SetField(rest, key, value));
        assert fields == [fields[0]] + rest;
      } else {
        assert Keys(SetField(fields, key, value)) == [key] + Keys(rest);
      }
    }
  }

  lemma DistinctAppend(ks: seq<string>, k: string)
    requires Distinct(ks) && k !in ks
    ensures Distinct(ks + [k])
  {
  }

  lemma SetFieldUnique<V>(fields: seq<(string, V)>, key: string, value: V)
    requires UniqueKeys(fields)
    ensures UniqueKeys(SetField(fields, key, value))
  {
    SetFieldKeys(fields, key, value);
    if key !in Keys(fields) {
      DistinctAppend(Keys(fields), key);
    }
  }

  /** `array_merge($base, $extra)` for string keys: each entry of `extra`
      overwrites the entry with the same key in place, or is appended. */
  function ArrayMerge<V>(base: seq<(string, V)>, extra: seq<(string, V)>): seq<(string, V)>
    decreases |extra|
  {
    if extra == [] then base
    else ArrayMerge(SetField(base, extra[0].0, extra[0].1), extra[1..])
  }

  /** After the merge a key holds the value `extra` gives it, else the value
      `base` gave it. */
  lemma {:induction false} ArrayMergeEffect<V>(base: seq<(string, V)>, extra: seq<(string, V)>, k: string)
    requires UniqueKeys(extra)
    ensures Find(ArrayMerge(base, extra), k) == if k in Keys(extra) then Find(extra, k) else Find(base, k)
    decreases |extra|
  {
    if extra != [] {
      var b' := SetField(base, extra[0].0, extra[0].1);
      var e' := extra[1..];
      SetFieldFind(base, extra[0].0, extra[0].1, k);
      assert Keys(extra) == [extra[0].0] + Keys(e');
      assert UniqueKeys(e');
      ArrayMergeEffect(b', e', k);
      if k == extra[0].0 {
        assert k !in Keys(e');
      }
    }
  }

  /** The keys of `ks` not in `seen`, each at its first appearance, in the
      order of `ks`. */
  function NewKeys(seen: seq<string>, ks: seq<string>): seq<string>
    decreases |ks|
  {
    if ks == [] then []
    else if ks[0] in seen then NewKeys(seen, ks[1..])
    else [ks[0]] + NewKeys(seen + [ks[0]], ks[1..])
  }

  /** The keys of `base` keep their places at the front, then come the keys
      `extra` adds, in the order `extra` first gives them. */
  lemma {:induction false} ArrayMergeKeyOrder<V>(base: seq<(string, V)>, extra: seq<(string, V)>)
    ensures Keys(ArrayMerge(base, extra)) == Keys(base) + NewKeys(Keys(base), Keys(extra))
    decreases |extra|
  {
    if extra != [] {
      var k := extra[0].0;
      var b' := SetField(base, k, extra[0].1);
      var e' := extra[1..];
      assert ArrayMerge(base, extra) == ArrayMerge(b', e');
      SetFieldKeys(base, k, extra[0].1);
      ArrayMergeKeyOrder(b', e');
      KeysCons(extra);
      if k in Keys(base) {
        assert NewKeys(Keys(base), Keys(extra)) == NewKeys(Keys(base), Keys(e'));
      } else {
        var rest := NewKeys(Keys(base) + [k], Keys(e'));
        assert NewKeys(Keys(base), Keys(extra)) == [k] + rest;
        assert Keys(base) + [k] + rest == Keys(base) + ([k] + rest);
      }
    }
  }

  /** The keys of a non-empty array: its first key, then the rest's keys;
      stated apart so that the `array_merge` proofs stay small. */
  lemma KeysCons<V>(entries: seq<(string, V)>)
    requires entries != []
    ensures Keys(entries)[0] == entries[0].0 && Keys(entries)[1..] == Keys(entries[1..])
  {
  }

  /** The keys of `base` keep their places at the front, the keys `extra`
      adds follow in the order `extra` first gives them, and no key appears
      twice. */
  lemma {:induction false} ArrayMergeKeys<V>(base: seq<(string, V)>, extra: seq<(string, V)>)
    ensures Keys(ArrayMerge(base, extra)) == Keys(base) + NewKeys(Keys(base), Keys(extra))
    ensures |Keys(ArrayMerge(base, extra))| >= |base|
    ensures Keys(ArrayMerge(base, extra))[..|base|] == Keys(base)
    ensures UniqueKeys(base) ==> UniqueKeys(ArrayMerge(base, extra))
    decreases |extra|
  {
    ArrayMergeKeyOrder(base, extra);
    if extra != [] {
      var b' := SetField(base, extra[0].0, extra[0].1);
      if UniqueKeys(base) {
        SetFieldUnique(base, extra[0].0, extra[0].1);
      }
      ArrayMergeKeys(b', extra[1..]);
    }
  }

  /** When `extra` brings only new keys, `array_merge` appends it whole. */
  lemma {:induction false} ArrayMergeDisjoint<V>(base: seq<(string, V)>, extra: seq<(string, V)>)
    requires UniqueKeys(extra)
    requires forall k :: k in Keys(extra) ==> k !in Keys(base)
    ensures ArrayMerge(base, extra) == base + extra
    decreases |extra|
  {
    if extra != [] {
      var e0, e' := extra[0], extra[1..];
      var b' := base + [e0];
      KeysCons(extra);
      assert e0.0 in Keys(extra);
      SetFieldKeys(base, e0.0, e0.1);
      assert SetField(base, e0.0, e0.1) == b';
      assert ArrayMerge(base, extra) == ArrayMerge(b', e');
      assert UniqueKeys(e') by {
        assert Keys(e') == Keys(extra)[1..];
      }
      assert Keys(b') == Keys(base) + [e0.0];
      assert forall k :: k in Keys(e') ==> k !in Keys(b') by {
        forall k | k in Keys(e')
          ensures k !in Keys(b')
        {
          assert k in Keys(extra);
          assert k != e0.0;
        }
      }
      ArrayMergeDisjoint(b', e');
      AppendHead(base, extra);
    }
  }

  /** Moving a sequence's head onto the end of what precedes it; stated
      apart so that `ArrayMergeDisjoint` stays a small proof. */
  lemma AppendHead<T>(xs: seq<T>, ys: seq<T>)
    requires ys != []
    ensures xs + [ys[0]] + ys[1..] == xs + ys
  {
    assert [ys[0]] + ys[1..] == ys;
  }

  // ---------------------------------------------------------------------
  // authorization request (section 4.1.1 of RFC 6749)

  function StateValue(state: Option<string>): Scalar {
    match state
    case Some(s) => Str(s)
    case None => Null
  }

  function AsFields(parameters: seq<(string, string)>): (fs: seq<(string, Scalar)>)
    ensures Keys(fs) == Keys(parameters)
    ensures forall k :: Find(fs, k) == match Find(parameters, k)
                                       case Some(v) => Some(Str(v))
                                       case None => None
  {
    if parameters == [] then [] else [(parameters[0].0, Str(parameters[0].1))] + AsFields(parameters[1..])
  }

  /** The four fields every authorization request starts with. */
  function InitialCodeFields(config: Config, separator: char): seq<(string, Scalar)> {
    [ ("client_id", Str(config.clientId)),
      ("redirect_uri", Str(config.redirectUrl)),
      ("scope", Str(FormatScopes(config.scopes, separator))),
      ("response_type", Str("code")) ]
  }

  /** The fields `getCodeFields` builds before merging the custom parameters. */
  function OwnCodeFields(config: Config, separator: char, stateless: bool, state: Option<string>): seq<(string, Scalar)> {
    var fields := InitialCodeFields(config, separator);
    if !stateless then SetField(fields, StateKey, StateValue(state)) else fields
  }

  /** `getCodeFields($state)`. */
  function CodeFields(config: Config, separator: char, stateless: bool, state: Option<string>): seq<(string, Scalar)> {
    ArrayMerge(OwnCodeFields(config, separator, stateless, state), AsFields(config.parameters))
  }

  /** The keys every authorization request starts with, in order. */
  const InitialKeys: seq<string> := ["client_id", "redirect_uri", "scope", "response_type"]

  lemma InitialKeysDistinct()
    ensures Distinct(InitialKeys) && StateKey !in InitialKeys && Distinct(InitialKeys + [StateKey])
  {
    var ks := InitialKeys + [StateKey];
    assert ks == ["client_id", "redirect_uri", "scope", "response_type", "state"];
    assert forall i, j :: 0 <= i < j < 5 ==> |ks[i]| != |ks[j]| || ks[i][1] != ks[j][1];
  }

  lemma InitialCodeFieldsKeys(config: Config, separator: char)
    ensures Keys(InitialCodeFields(config, separator)) == InitialKeys
  {
  }

  lemma OwnCodeFieldsKeys(config: Config, separator: char, stateless: bool, state: Option<string>)
    ensures Keys(OwnCodeFields(config, separator, stateless, state)) ==
            InitialKeys + (if stateless then [] else [StateKey])
    ensures UniqueKeys(OwnCodeFields(config, separator, stateless, state))
  {
    var base := InitialCodeFields(config, separator);
    InitialCodeFieldsKeys(config, separator);
    InitialKeysDistinct();
    if stateless {
      assert InitialKeys + [] == InitialKeys;
    } else {
      SetFieldKeys(base, StateKey, StateValue(state));
    }
  }

  lemma InitialCodeFieldsContent(config: Config, separator: char)
    ensures var f := InitialCodeFields(config, separator);
      && Find(f, "client_id") == Some(Str(config.clientId))
      && Find(f, "redirect_uri") == Some(Str(config.redirectUrl))
      && Find(f, "scope") == Some(Str(FormatScopes(config.scopes, separator)))
      && Find(f, "response_type") == Some(Str("code"))
      && Find(f, StateKey) == None
  {
    var f := InitialCodeFields(config, separator);
    InitialCodeFieldsKeys(config, separator);
    InitialKeysDistinct();
    FindAt(f, 2);
    FindAt(f, 3);
  }

  lemma OwnCodeFieldsContent(config: Config, separator: char, stateless: bool, state: Option<string>)
    ensures var f := OwnCodeFields(config, separator, stateless, state);
      && Find(f, "client_id") == Some(Str(config.clientId))
      && Find(f, "redirect_uri") == Some(Str(config.redirectUrl))
      && Find(f, "scope") == Some(Str(FormatScopes(config.scopes, separator)))
      && Find(f, "response_type") == Some(Str("code"))
      && Find(f, StateKey) == if stateless then None else Some(StateValue(state))
  {
    var base := InitialCodeFields(config, separator);
    InitialCodeFieldsContent(config, separator);
    if !stateless {
      var v := StateValue(state);
      SetFieldFind(base, StateKey, v, "client_id");
      SetFieldFind(base, StateKey, v, "redirect_uri");
      SetFieldFind(base, StateKey, v, "scope");
      SetFieldFind(base, StateKey, v, "response_type");
      SetFieldFind(base, StateKey, v, StateKey);
    }
  }

  lemma AsFieldsUnique(parameters: seq<(string, string)>)
    requires UniqueKeys(parameters)
    ensures UniqueKeys(AsFields(parameters))
  {
  }

  /** The authorization request starts with `client_id`, `redirect_uri`,
      `scope` and `response_type`, in that order, followed by `state` when the
      provider is not stateless, and no field appears twice. */
  lemma CodeFieldsOrder(config: Config, separator: char, stateless: bool, state: Option<string>)
    ensures var r := CodeFields(config, separator, stateless, state);
      && UniqueKeys(r)
      && |r| >= 4
      && Keys(r)[..4] == InitialKeys
      && (!stateless ==> |r| >= 5 && Keys(r)[4] == StateKey)
  {
    var f := OwnCodeFields(config, separator, stateless, state);
    OwnCodeFieldsKeys(config, separator, stateless, state);
    var r := ArrayMerge(f, AsFields(config.parameters));
    ArrayMergeKeys(f, AsFields(config.parameters));
    assert Keys(r)[..4] == Keys(r)[..|f|][..4];
    if !stateless {
      assert Keys(r)[4] == Keys(r)[..|f|][4];
    }
  }

  /** Each field holds the provider's value (`scope` the joined scopes,
      `response_type` the word `code`, `state` the given state, present
      exactly when the provider is not stateless) unless a custom parameter of
      the same name overrides it. */
  lemma CodeFieldsValues(config: Config, separator: char, stateless: bool, state: Option<string>)
    requires UniqueKeys(config.parameters)
    ensures var r := CodeFields(config, separator, stateless, state);
      && (forall k :: k in Keys(config.parameters) ==> Find(r, k) == Some(Str(Find(config.parameters, k).value)))
      && ("client_id" !in Keys(config.parameters) ==> Find(r, "client_id") == Some(Str(config.clientId)))
      && ("redirect_uri" !in Keys(config.parameters) ==> Find(r, "redirect_uri") == Some(Str(config.redirectUrl)))
      && ("scope" !in Keys(config.parameters) ==>
            Find(r, "scope") == Some(Str(FormatScopes(config.scopes, separator))))
      && ("response_type" !in Keys(config.parameters) ==> Find(r, "response_type") == Some(Str("code")))
      && (StateKey !in Keys(config.parameters) ==>
            Find(r, StateKey) == if stateless then None else Some(StateValue(state)))
  {
    var f := OwnCodeFields(config, separator, stateless, state);
    var ps := AsFields(config.parameters);
    OwnCodeFieldsContent(config, separator, stateless, state);
    AsFieldsUnique(config.parameters);
    forall k ensures Find(CodeFields(config, separator, stateless, state), k) ==
                     if k in Keys(ps) then Find(ps, k) else Find(f, k) {
      ArrayMergeEffect(f, ps, k);
    }
  }

  /** `buildAuthUrlFromBase`: the URL, a `?`, and the encoded fields. */
  function BuildAuthUrlFromBase(url: string, fields: seq<(string, Scalar)>): string {
    url + "?" + QueryString.BuildQuery(fields)
  }

  /** `buildUrlFromBase`: the URL, the given separator, and the encoded
      parameters (an empty query when there are none). */
  function BuildUrlFromBase(url: string, separator: string, params: seq<(string, Scalar)>): string {
    url + separator + QueryString.BuildQuery(params)
  }

  // ---------------------------------------------------------------------
  // token request (section 4.1.3 of RFC 6749)

  /** `getTokenFields($code)`: the form of the token request. */
  function TokenFields(config: Config, code: Value): seq<(string, Value)> {
    [ ("client_id", Str(config.clientId)),
      ("client_secret", Str(config.clientSecret)),
      ("code", code),
      ("redirect_uri", Str(config.redirectUrl)) ]
  }

  // ---------------------------------------------------------------------
  // anti-forgery state (section 10.12 of RFC 6749)

  /** `hasInvalidState` once the session value has been pulled: the request
      is valid only when the pulled value has a positive `strlen` and is
      strictly equal (`===`) to the request's `state` input. */
  predicate InvalidState(pulled: Option<string>, input: Value) {
    !(pulled.Some? && Strings.ByteLength(pulled.value) > 0 && input == Str(pulled.value))
  }

  /** The state is rejected exactly when nothing was stored, the stored value
      is empty, or the request's `state` is not that very string. */
  lemma InvalidStateCases(pulled: Option<string>, input: Value)
    ensures InvalidState(pulled, input) <==>
            pulled == None || pulled == Some("") || input != Str(pulled.value)
  {
    if pulled.Some? {
      Strings.ByteLengthBounds(pulled.value);
    }
  }

  // ---------------------------------------------------------------------
  // getBaseUrl: vsprintf over the endpoint template, then the access token

  /** Every `%` of a template starts `%s` (a value) or `%%` (a literal `%`):
      the only conversions the library's templates use. */
  predicate WellFormedTemplate(t: string)
    decreases |t|
  {
    if t == [] then true
    else if t[0] == '%' then |t| >= 2 && (t[1] == 's' || t[1] == '%') && WellFormedTemplate(t[2..])
    else WellFormedTemplate(t[1..])
  }

  function Placeholders(t: string): nat
    requires WellFormedTemplate(t)
    decreases |t|
  {
    if t == [] then 0
    else if t[0] == '%' then (if t[1] == 's' then 1 else 0) + Placeholders(t[2..])
    else Placeholders(t[1..])
  }

  /** `vsprintf($t, $args)` for a template using `%s` and `%%` only, with at
      least as many values as placeholders; extra values are ignored. */
  function Vsprintf(t: string, args: seq<Value>): string
    requires WellFormedTemplate(t) && Placeholders(t) <= |args|
    decreases |t|
  {
    if t == [] then ""
    else if t[0] == '%' then
      if t[1] == 's' then Text(args[0]) + Vsprintf(t[2..], args[1..])
      else "%" + Vsprintf(t[2..], args)
    else [t[0]] + Vsprintf(t[1..], args)
  }

  /** A prefix without `%` passes through `vsprintf` untouched. */
  lemma {:induction false} VsprintfLiteralPrefix(a: string, b: string, args: seq<Value>)
    requires '%' !in a
    ensures WellFormedTemplate(a + b) == WellFormedTemplate(b)
    ensures WellFormedTemplate(b) ==> Placeholders(a + b) == Placeholders(b)
    ensures WellFormedTemplate(b) && Placeholders(b) <= |args| ==>
            Vsprintf(a + b, args) == a + Vsprintf(b, args)
  {
    if a != [] {
      assert (a + b)[0] == a[0];
      assert (a + b)[1..] == a[1..] + b;
      VsprintfLiteralPrefix(a[1..], b, args);
    } else {
      assert a + b == b;
    }
  }

  /** A leading `%s` takes the first value. */
  lemma VsprintfPlaceholder(b: string, x: Value, rest: seq<Value>)
    ensures WellFormedTemplate("%s" + b) == WellFormedTemplate(b)
    ensures WellFormedTemplate(b) ==> Placeholders("%s" + b) == 1 + Placeholders(b)
    ensures WellFormedTemplate(b) && Placeholders(b) <= |rest| ==>
            Vsprintf("%s" + b, [x] + rest) == Text(x) + Vsprintf(b, rest)
  {
    assert ("%s" + b)[2..] == b;
    assert ([x] + rest)[1..] == rest;
  }

  /** A template without `%` is its own output. */
  lemma VsprintfLiteral(t: string, args: seq<Value>)
    requires '%' !in t
    ensures WellFormedTemplate(t) && Placeholders(t) == 0 && Vsprintf(t, args) == t
  {
    VsprintfLiteralPrefix(t, "", args);
    assert t + "" == t;
  }

  /** A literal prefix, then `%s`: the prefix is copied and the placeholder
      takes the first value. */
  lemma VsprintfPrefixPlaceholder(a: string, b: string, x: Value, rest: seq<Value>)
    requires '%' !in a
    ensures WellFormedTemplate(a + "%s" + b) == WellFormedTemplate(b)
    ensures WellFormedTemplate(b) ==> Placeholders(a + "%s" + b) == 1 + Placeholders(b)
    ensures WellFormedTemplate(b) && Placeholders(b) <= |rest| ==>
            Vsprintf(a + "%s" + b, [x] + rest) == a + Text(x) + Vsprintf(b, rest)
  {
    var t := "%s" + b;
    assert a + "%s" + b == a + t;
    VsprintfPlaceholder(b, x, rest);
    VsprintfLiteralPrefix(a, t, [x] + rest);
  }

  /** A template with one `%s` between literal parts takes the first value. */
  lemma VsprintfOne(a: string, b: string, x: Value)
    requires '%' !in a && '%' !in b
    ensures WellFormedTemplate(a + "%s" + b) && Placeholders(a + "%s" + b) == 1
    ensures Vsprintf(a + "%s" + b, [x]) == a + Text(x) + b
  {
    VsprintfLiteral(b, []);
    VsprintfPrefixPlaceholder(a, b, x, []);
    assert [x] + [] == [x];
  }

  /** A template with two `%s` between literal parts takes the first two
      values, in order. */
  lemma VsprintfTwo(a: string, b: string, c: string, x: Value, y: Value)
    requires '%' !in a && '%' !in b && '%' !in c
    ensures WellFormedTemplate(a + "%s" + b + "%s" + c) && Placeholders(a + "%s" + b + "%s" + c) == 2
    ensures Vsprintf(a + "%s" + b + "%s" + c, [x, y]) == a + Text(x) + b + Text(y) + c
  {
    VsprintfOne(b, c, y);
    TwoPlaceholdersRegroup(a, b, c, Text(x), Text(y));
    VsprintfTwoSteps(a + "%s" + b + "%s" + c, a, b + "%s" + c, x, [y], [x, y], b + Text(y) + c);
  }

  /** A template ending in its one `%s`: the value closes the output. */
  lemma VsprintfOneLast(a: string, x: Value)
    requires '%' !in a
    ensures WellFormedTemplate(a + "%s") && Placeholders(a + "%s") == 1
    ensures Vsprintf(a + "%s", [x]) == a + Text(x)
  {
    VsprintfOne(a, "", x);
    assert a + "%s" + "" == a + "%s";
    assert a + Text(x) + "" == a + Text(x);
  }

  /** A template ending in the second of its two `%s`: the second value
      closes the output. */
  lemma VsprintfTwoLast(a: string, b: string, x: Value, y: Value)
    requires '%' !in a && '%' !in b
    ensures WellFormedTemplate(a + "%s" + b + "%s") && Placeholders(a + "%s" + b + "%s") == 2
    ensures Vsprintf(a + "%s" + b + "%s", [x, y]) == a + Text(x) + b + Text(y)
  {
    VsprintfTwo(a, b, "", x, y);
    var t := a + "%s" + b + "%s";
    assert t + "" == t;
    var r := a + Text(x) + b + Text(y);
    assert r + "" == r;
  }

  /** Regrouping of the two-placeholder template and its output, stated
      apart so that `VsprintfTwo` stays a small proof. */
  lemma TwoPlaceholdersRegroup(a: string, b: string, c: string, tx: string, ty: string)
    ensures a + "%s" + b + "%s" + c == a + "%s" + (b + "%s" + c)
    ensures a + tx + (b + ty + c) == a + tx + b + ty + c
  {
  }

  lemma VsprintfTwoSteps(t: string, a: string, u: string, x: Value, rest: seq<Value>, args: seq<Value>, filled: string)
    requires '%' !in a && WellFormedTemplate(u) && Placeholders(u) <= |rest|
    requires t == a + "%s" + u && args == [x] + rest && Vsprintf(u, rest) == filled
    ensures WellFormedTemplate(t) && Placeholders(t) == 1 + Placeholders(u)
    ensures Vsprintf(t, args) == a + Text(x) + filled
  {
    VsprintfPrefixPlaceholder(a, u, x, rest);
  }

  /** The values `vsprintf` receives: `(array) $params`. */
  function FormatArgs(params: Value): (args: seq<Value>)
    ensures params.Null? ==> args == []
    ensures params.Arr? ==> |args| == |params.entries|
    ensures params.Arr? ==> forall i :: 0 <= i < |args| ==> args[i] == params.entries[i].1
    ensures !params.Null? && !params.Arr? ==> args == [params]
  {
    match params
    case Null => []
    case Arr(es) => seq(|es|, i requires 0 <= i < |es| => es[i].1)
    case _ => [params]
  }

  /** A PHP list of two values gives those values, in order. */
  lemma ListArgs(x: Value, y: Value)
    ensures FormatArgs(Arr([("0", x), ("1", y)])) == [x, y]
  {
    var args := FormatArgs(Arr([("0", x), ("1", y)]));
    assert args[0] == x && args[1] == y;
  }

  /** The full template of an API URL. */
  function Template(baseUrl: string, version: string, endpoint: string): string {
    baseUrl + "/" + version + "/" + endpoint
  }

  predicate CanFill(baseUrl: string, version: string, endpoint: string, params: Value) {
    WellFormedTemplate(Template(baseUrl, version, endpoint))
    && Placeholders(Template(baseUrl, version, endpoint)) <= |FormatArgs(params)|
  }

  /** `getBaseUrl($endpoint, $token, $params)`: the filled template, then
      `&` if the unfilled endpoint already holds a `?` and `?` otherwise,
      then `access_token=` and the token. */
  function GetBaseUrl(baseUrl: string, version: string, endpoint: string, token: string, params: Value): string
    requires CanFill(baseUrl, version, endpoint, params)
  {
    var url := Vsprintf(Template(baseUrl, version, endpoint), FormatArgs(params));
    var separator := if '?' in endpoint then "&" else "?";
    url + separator + "access_token=" + token
  }

  /** The characters of the output come from the template or from the
      values. */
  lemma {:induction false} VsprintfChars(t: string, args: seq<Value>, c: char)
    requires WellFormedTemplate(t) && Placeholders(t) <= |args|
    requires c != '%' && c !in t
    requires forall a :: a in args ==> c !in Text(a)
    ensures c !in Vsprintf(t, args)
    decreases |t|
  {
    if t != [] {
      if t[0] == '%' {
        if t[1] == 's' {
          assert args[0] in args;
          VsprintfChars(t[2..], args[1..], c);
        } else {
          VsprintfChars(t[2..], args, c);
        }
      } else {
        VsprintfChars(t[1..], args, c);
      }
    }
  }

  /** When neither the base URL, the version nor any value holds a `?`, the
      filled URL has one exactly when the endpoint template has one, so the
      separator always opens or continues a well-formed query. */
  lemma GetBaseUrlSeparator(baseUrl: string, version: string, endpoint: string, token: string, params: Value)
    requires CanFill(baseUrl, version, endpoint, params)
    requires '?' !in baseUrl && '?' !in version
    requires forall a :: a in FormatArgs(params) ==> '?' !in Text(a)
    ensures var filled := Vsprintf(Template(baseUrl, version, endpoint), FormatArgs(params));
      && ('?' in filled <==> '?' in endpoint)
      && GetBaseUrl(baseUrl, version, endpoint, token, params) ==
           filled + (if '?' in filled then "&" else "?") + "access_token=" + token
  {
    var t := Template(baseUrl, version, endpoint);
    var args := FormatArgs(params);
    var filled := Vsprintf(t, args);
    if '?' in endpoint {
      var i :| 0 <= i < |endpoint| && endpoint[i] == '?';
      QuestionMarkSurvives(t, args, |t| - |endpoint| + i);
    } else {
      assert '?' !in t;
      VsprintfChars(t, args, '?');
    }
  }

  /** A `?` of the template that is not part of a conversion reaches the
      output. */
  lemma {:induction false} QuestionMarkSurvives(t: string, args: seq<Value>, i: nat)
    requires WellFormedTemplate(t) && Placeholders(t) <= |args|
    requires i < |t| && t[i] == '?'
    ensures '?' in Vsprintf(t, args)
    decreases |t|
  {
    if i == 0 {
      assert Vsprintf(t, args) == [t[0]] + Vsprintf(t[1..], args);
    } else if t[0] == '%' {
      assert i != 1;
      if t[1] == 's' {
        QuestionMarkSurvives(t[2..], args[1..], i - 2);
      } else {
        QuestionMarkSurvives(t[2..], args, i - 2);
      }
    } else {
      QuestionMarkSurvives(t[1..], args, i - 1);
    }
  }
}
