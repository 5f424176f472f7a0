/** The callback scenarios of tests/InstagramTest.php, replayed against the
    Instagram provider: a matching state, a mismatching state, and a session
    without state. */
module Scenarios {

  import opened Values
  import opened ProviderCore
  import opened Users
  import Instagram
  import opened AuthFlow

  function Repeat(c: char, n: nat): (s: string)
    ensures |s| == n && forall i :: 0 <= i < n ==> s[i] == c
  {
    seq(n, _ => c)
  }

  const TestConfig: Config := Config("client_id", "client_secret", "redirect_uri", [], [])

  /** The token endpoint's answer in the scenarios. */
  const TokenAnswer: Value :=
    Arr([("access_token", Str("access_token")), ("refresh_token", Str("refresh_token")), ("expires_in", Int(3600))])

  /** The user endpoint's answer in the scenarios. */
  const UserAnswer: Value := Arr([("data", Arr([("id", Str("foo"))]))])

  function Callback(state: string): Request {
    Request(map["state" := Str(state), "code" := Str("code")])
  }

  lemma TestAnswers()
    ensures Get(TokenAnswer, "access_token") == Str("access_token")
    ensures Get(TokenAnswer, "refresh_token") == Str("refresh_token")
    ensures Get(TokenAnswer, "expires_in") == Int(3600)
    ensures Instagram.Mappable(UserAnswer) && Get(Get(UserAnswer, "data"), "id") == Str("foo")
  {
    FindAt(TokenAnswer.entries, 1);
    FindAt(TokenAnswer.entries, 2);
  }

  /** The session holds forty `A`s and the callback carries the same: the
      code is exchanged and the user carries the token response. */
  lemma MatchingStateSignsIn()
    ensures var a40 := Repeat('A', 40);
      var out := Retrieve(TestConfig, false, map[StateKey := a40], Callback(a40), TokenAnswer, UserAnswer);
      && out.user.Ok?
      && Property(out.user.value, "id") == Str("foo")
      && Property(out.user.value, "token") == Str("access_token")
      && Property(out.user.value, "refreshToken") == Str("refresh_token")
      && Property(out.user.value, "expiresIn") == Int(3600)
      && |out.calls| == 2
      && out.calls[0] == HttpPost(Instagram.TokenUrl, [
           ("client_id", Str("client_id")), ("client_secret", Str("client_secret")),
           ("code", Str("code")), ("redirect_uri", Str("redirect_uri")),
           ("grant_type", Str("authorization_code")) ])
  {
    var a40 := Repeat('A', 40);
    var stored := map[StateKey := a40];
    var request := Callback(a40);
    assert Input(request, StateKey) == Str(a40);
    InvalidStateCases(Lookup(stored, StateKey), Input(request, StateKey));
    assert !Rejects(false, stored, request);
    TestAnswers();
    RetrieveBuildsUser(TestConfig, false, stored, request, TokenAnswer, UserAnswer);
    RetrieveExchangesCode(TestConfig, false, stored, request, TokenAnswer, UserAnswer);
  }

  /** The session holds forty `A`s but the callback carries forty `B`s: the
      callback fails with `InvalidStateException` and nothing is sent. */
  lemma MismatchedStateRefused()
    ensures var out := Retrieve(TestConfig, false, map[StateKey := Repeat('A', 40)], Callback(Repeat('B', 40)),
                                TokenAnswer, UserAnswer);
      out == Retrieval(Err(InvalidStateException), [])
  {
    var stored := map[StateKey := Repeat('A', 40)];
    var request := Callback(Repeat('B', 40));
    assert Repeat('A', 40)[0] != Repeat('B', 40)[0];
    assert Input(request, StateKey) != Str(Repeat('A', 40));
    InvalidStateCases(Lookup(stored, StateKey), Input(request, StateKey));
  }

  /** The session holds no state at all: the callback fails with
      `InvalidStateException` and nothing is sent. */
  lemma MissingStateRefused()
    ensures Retrieve(TestConfig, false, map[], Callback("state"), TokenAnswer, UserAnswer) ==
            Retrieval(Err(InvalidStateException), [])
  {
    InvalidStateCases(None, Str("state"));
  }

  /** The redirect of a stateful provider stores the nonce in the session,
      the only write it makes, and sends it as the `state` field. */
  method RedirectStoresState(nonce: string) returns (url: string, stored: map<string, string>)
    requires |nonce| == 40
    ensures stored == map[StateKey := nonce]
    ensures Find(CodeFields(TestConfig, Instagram.ScopeSeparator, false, Some(nonce)), StateKey) == Some(Str(nonce))
    ensures url == Instagram.AuthUrl(TestConfig, false, Some(nonce))
  {
    var session := new Session(map[]);
    var provider := new Provider(Request(map[]), session, "client_id", "client_secret", "redirect_uri", []);
    url := provider.Authenticate(nonce);
    stored := session.entries;
    CodeFieldsValues(TestConfig, Instagram.ScopeSeparator, false, Some(nonce));
  }
}
