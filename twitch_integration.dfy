/** The scoreboard's side of the Twitch integration
    (Scorebini/Data/TwitchIntegrationService.cs, Scorebini/Data/TwitchUserState.cs):
    the cache of per-login user states, the URL joining rule for the
    side-service, the state a user ends in after an authorisation reply,
    and the status code reported when a reply cannot be read. The HTTP
    exchanges themselves are cut away: their outcomes are parameters. */
module TwitchIntegration {
  import opened Base
  import opened Text

  /** `ScorebiniTwitchUserState`. */
  datatype UserState = Unknown | Error | Authed | AwaitingAuth | RequestInProgres

  /** `ResponseCommonMetadata`: a status code and a message. */
  datatype ResponseMeta = ResponseMeta(code: int32, message: Option<string>)

  /** `BasicResponse`, as far as the service reads it. */
  datatype BasicResponse = BasicResponse(meta: Option<ResponseMeta>)

  /** `AuthorizeRedirectResponse`, as far as the service reads it. */
  datatype AuthorizeRedirectResponse = AuthorizeRedirectResponse(redirectUri: Option<string>)

  const OK: int := 200
  const SeeOther: int := 303
  const NotFound: int := 404
  const TooManyRequests: int := 429

  /** The fields of a user state that `AuthUser` writes. */
  datatype AuthFields = AuthFields(
    state: UserState,
    redirectUrl: Option<string>,
    mostRecentError: Option<string>,
    mostRecentResponseMeta: Option<ResponseMeta>)

  /** `TwitchUserState`. */
  class TwitchUserState {
    var login: Option<string>
    var state: UserState
    var redirectUrl: Option<string>
    var mostRecentError: Option<string>
    var mostRecentResponseMeta: Option<ResponseMeta>

    /** `new TwitchUserState()` followed by setting `Login`. */
    constructor(login: Option<string>)
      ensures this.login == login && state == Unknown
      ensures redirectUrl.None? && mostRecentError.None? && mostRecentResponseMeta.None?
    {
      this.login := login;
      state := Unknown;
      redirectUrl := None;
      mostRecentError := None;
      mostRecentResponseMeta := None;
    }

    function Fields(): AuthFields
      reads this
    {
      AuthFields(state, redirectUrl, mostRecentError, mostRecentResponseMeta)
    }
  }

  // ---------------------------------------------------------------------
  // The user cache
  // ---------------------------------------------------------------------

  /** The position of the first entry equal to `login`, or -1. */
  function IndexOfLogin(logins: seq<Option<string>>, login: Option<string>): (r: int)
    ensures -1 <= r < |logins|
    ensures r >= 0 ==> logins[r] == login && forall k :: 0 <= k < r ==> logins[k] != login
    ensures r == -1 <==> login !in logins
  {
    if logins == [] then -1
    else if logins[0] == login then 0
    else
      var r := IndexOfLogin(logins[1..], login);
      assert login in logins[1..] ==> login in logins;
      assert login in logins && logins[0] != login ==> login in logins[1..];
      if r == -1 then -1 else r + 1
  }

  /** No login appears twice. */
  predicate UniqueLogins(logins: seq<Option<string>>) {
    forall i, j :: 0 <= i < j < |logins| ==> logins[i] != logins[j]
  }

  /** Adding a login that was missing keeps the logins unique, and the next
      lookup of that login finds the added entry. */
  lemma AddMissingLogin(logins: seq<Option<string>>, login: Option<string>)
    requires login !in logins
    ensures UniqueLogins(logins) ==> UniqueLogins(logins + [login])
    ensures IndexOfLogin(logins + [login], login) == |logins|
  {
    var extended := logins + [login];
    assert extended[|logins|] == login;
    assert forall k :: 0 <= k < |logins| ==> extended[k] == logins[k];
  }

  /** `TwitchIntegrationService`, holding the user cache. */
  class TwitchIntegrationService {
    var userCache: seq<TwitchUserState>

    constructor()
      ensures userCache == []
    {
      userCache := [];
    }

    /** The logins of the cached users, in cache order. */
    function Logins(): (r: seq<Option<string>>)
      reads this, userCache
      ensures |r| == |userCache|
      ensures forall i :: 0 <= i < |userCache| ==> r[i] == userCache[i].login
    {
      seq(|userCache|, i reads this, userCache requires 0 <= i < |userCache| => userCache[i].login)
    }

    /** `GetUser`: the first cached user with this login, leaving the cache
        as it is; otherwise a new user with this login in state Unknown,
        appended to the cache. */
    method GetUser(twitchLogin: Option<string>) returns (user: TwitchUserState)
      modifies this
      ensures var i := IndexOfLogin(old(Logins()), twitchLogin);
              && (i >= 0 ==> user == old(userCache)[i] && userCache == old(userCache))
              && (i < 0 ==> fresh(user) && userCache == old(userCache) + [user]
                            && user.login == twitchLogin && user.state == Unknown)
      ensures user in userCache && user.login == twitchLogin
      ensures Logins() == if twitchLogin in old(Logins()) then old(Logins()) else old(Logins()) + [twitchLogin]
      ensures UniqueLogins(old(Logins())) ==> UniqueLogins(Logins())
    {
      var i := 0;
      while i < |userCache|
        invariant 0 <= i <= |userCache|
        invariant forall k :: 0 <= k < i ==> userCache[k].login != twitchLogin
      {
        if userCache[i].login == twitchLogin {
          return userCache[i];
        }
        i := i + 1;
      }
      ghost var before := Logins();
      user := new TwitchUserState(twitchLogin);
      userCache := userCache + [user];
      AddMissingLogin(before, twitchLogin);
      assert Logins() == before + [twitchLogin];
    }
  }

  // ---------------------------------------------------------------------
  // URLs of the side-service
  // ---------------------------------------------------------------------

  /** `MakeScorebiniUrl`, given the side-service's base URL: trailing
      slashes of the base and leading slashes of the rest give way to a
      single '/'. */
  function MakeScorebiniUrl(baseUrl: string, rest: string): (r: string)
    ensures var head := TrimEnd(baseUrl, '/');
            var tail := TrimStart(rest, '/');
            && |r| == |head| + 1 + |tail|
            && r[..|head|] == head && r[|head|] == '/' && r[|head| + 1..] == tail
            && (|head| > 0 ==> r[|head| - 1] != '/')
            && (|tail| > 0 ==> r[|head| + 1] != '/')
  {
    var head := TrimEnd(baseUrl, '/');
    var tail := TrimStart(rest, '/');
    var r := head + "/" + tail;
    assert r[..|head|] == head && r[|head| + 1..] == tail;
    r
  }

  /** Extra slashes on either side of the join make no difference. */
  lemma ExtraSlashesIgnored(baseUrl: string, rest: string, n: nat, m: nat)
    ensures MakeScorebiniUrl(baseUrl + Slashes(n), Slashes(m) + rest) == MakeScorebiniUrl(baseUrl, rest)
  {
    TrimEndSlashes(baseUrl, n);
    TrimStartSlashes(rest, m);
  }

  /** `n` slashes. */
  function Slashes(n: nat): string {
    if n == 0 then [] else "/" + Slashes(n - 1)
  }

  /** One trailing '/' more or less makes no difference to `TrimEnd`. */
  lemma TrimEndDropsSlash(u: string)
    ensures TrimEnd(u + "/", '/') == TrimEnd(u, '/')
  {
    assert (u + "/")[..|u|] == u;
  }

  /** One leading '/' more or less makes no difference to `TrimStart`. */
  lemma TrimStartDropsSlash(u: string)
    ensures TrimStart("/" + u, '/') == TrimStart(u, '/')
  {
    assert ("/" + u)[1..] == u;
  }

  lemma {:induction false} TrimEndSlashes(s: string, n: nat)
    ensures TrimEnd(s + Slashes(n), '/') == TrimEnd(s, '/')
  {
    if n > 0 {
      SlashesSnoc(n);
      var u := s + Slashes(n - 1);
      ConcatAssociative(s, Slashes(n - 1), "/");
      TrimEndDropsSlash(u);
      TrimEndSlashes(s, n - 1);
    } else {
      assert s + Slashes(0) == s;
    }
  }

  lemma {:induction false} TrimStartSlashes(s: string, n: nat)
    ensures TrimStart(Slashes(n) + s, '/') == TrimStart(s, '/')
  {
    if n > 0 {
      var u := Slashes(n - 1) + s;
      ConcatAssociative("/", Slashes(n - 1), s);
      TrimStartDropsSlash(u);
      TrimStartSlashes(s, n - 1);
    } else {
      assert Slashes(0) + s == s;
    }
  }

  lemma ConcatAssociative(a: string, b: string, c: string)
    ensures (a + b) + c == a + (b + c)
  {
  }

  lemma {:induction false} SlashesSnoc(n: nat)
    requires n > 0
    ensures Slashes(n) == Slashes(n - 1) + "/"
  {
    if n > 1 {
      SlashesSnoc(n - 1);
      ConcatAssociative("/", Slashes(n - 2), "/");
    }
  }

  // ---------------------------------------------------------------------
  // AuthUser
  // ---------------------------------------------------------------------

  /** The fields after `AuthUser`, step by step as the method writes them:
      the request marks the user as in progress, the reply's body sets or
      clears the error and metadata, and the status code decides the rest. */
  function AuthTransition(before: AuthFields, statusCode: int, basicResponse: Option<BasicResponse>,
                          redirectResponse: Option<AuthorizeRedirectResponse>): (after: AuthFields)
    ensures statusCode == OK ==> after.state == Authed
    ensures statusCode == SeeOther && redirectResponse.None? ==>
              after.state == Error && after.mostRecentError == Some("Unable to deserialize auth redirect response")
    ensures statusCode == SeeOther && redirectResponse.Some? ==>
              after.state == AwaitingAuth && after.redirectUrl == redirectResponse.value.redirectUri
    ensures statusCode == NotFound ==> after.state == Error
    ensures statusCode == TooManyRequests ==> after.state == Error
    ensures statusCode !in {OK, SeeOther, NotFound, TooManyRequests} ==>
              after.state == (if basicResponse.None? then Error else RequestInProgres)
    ensures after.redirectUrl != before.redirectUrl ==> statusCode == SeeOther && redirectResponse.Some?
    ensures statusCode != SeeOther ==>
              after.mostRecentResponseMeta == (if basicResponse.Some? then basicResponse.value.meta else None)
  {
    var inProgress := before.(state := RequestInProgres);
    var read :=
      if basicResponse.None? then
        inProgress.(mostRecentError := Some("Unable to deserialize auth response"),
                    mostRecentResponseMeta := None, state := Error)
      else
        inProgress.(mostRecentError := None, mostRecentResponseMeta := basicResponse.value.meta);
    if statusCode == OK then read.(state := Authed)
    else if statusCode == SeeOther then
      if redirectResponse.None? then
        read.(mostRecentError := Some("Unable to deserialize auth redirect response"), state := Error)
      else read.(redirectUrl := redirectResponse.value.redirectUri, state := AwaitingAuth)
    else if statusCode == NotFound then
      read.(state := Error, mostRecentError := Some(ServerMessageOr(basicResponse, "Unknown 404")))
    else if statusCode == TooManyRequests then
      read.(state := Error, mostRecentError := Some(ServerMessageOr(basicResponse, "Too many requests")))
    else read
  }

  /** `basicResponse?.Meta?.Message ?? fallback`. */
  function ServerMessageOr(basicResponse: Option<BasicResponse>, fallback: string): (r: string)
    ensures basicResponse.Some? && basicResponse.value.meta.Some? && basicResponse.value.meta.value.message.Some? ==>
              r == basicResponse.value.meta.value.message.value
    ensures basicResponse.None? || basicResponse.value.meta.None? || basicResponse.value.meta.value.message.None? ==>
              r == fallback
  {
    if basicResponse.Some? && basicResponse.value.meta.Some? && basicResponse.value.meta.value.message.Some? then
      basicResponse.value.meta.value.message.value
    else fallback
  }

  /** A 404 or 429 reply reports the server's message, or the fixed text
      for that code when the reply carried none. */
  lemma ErrorRepliesExplainThemselves(before: AuthFields, basicResponse: Option<BasicResponse>,
                                      redirectResponse: Option<AuthorizeRedirectResponse>)
    ensures AuthTransition(before, NotFound, basicResponse, redirectResponse).mostRecentError
            == Some(ServerMessageOr(basicResponse, "Unknown 404"))
    ensures AuthTransition(before, TooManyRequests, basicResponse, redirectResponse).mostRecentError
            == Some(ServerMessageOr(basicResponse, "Too many requests"))
  {
  }

  /** After a reply the user is never left in the Unknown state. */
  lemma AuthLeavesNoStaleState(before: AuthFields, statusCode: int, basicResponse: Option<BasicResponse>,
                               redirectResponse: Option<AuthorizeRedirectResponse>)
    ensures AuthTransition(before, statusCode, basicResponse, redirectResponse).state
            in {Error, Authed, AwaitingAuth, RequestInProgres}
  {
  }

  /** `AuthUser`, with the reply's status code and its two possible
      readings as parameters (`None` when the body deserialises to null,
      as an empty body does). A null login makes building the query string
      throw once the state is already in progress, so no request is sent. */
  method AuthUser(user: TwitchUserState, statusCode: int, basicResponse: Option<BasicResponse>,
                  redirectResponse: Option<AuthorizeRedirectResponse>)
    modifies user
    ensures old(user.login).None? ==> user.Fields() == old(user.Fields()).(state := RequestInProgres)
    ensures old(user.login).Some? ==>
              user.Fields() == AuthTransition(old(user.Fields()), statusCode, basicResponse, redirectResponse)
    ensures user.login == old(user.login)
  {
    user.state := RequestInProgres;
    if user.login.None? {
      return;
    }
    if basicResponse.None? {
      user.mostRecentError := Some("Unable to deserialize auth response");
      user.mostRecentResponseMeta := None;
      user.state := Error;
    } else {
      user.mostRecentError := None;
      user.mostRecentResponseMeta := basicResponse.value.meta;
    }
    if statusCode == OK {
      user.state := Authed;
      return;
    } else if statusCode == SeeOther {
      if redirectResponse.None? {
        user.mostRecentError := Some("Unable to deserialize auth redirect response");
        user.state := Error;
        return;
      }
      user.redirectUrl := redirectResponse.value.redirectUri;
      user.state := AwaitingAuth;
      return;
    } else if statusCode == NotFound {
      user.state := Error;
      user.mostRecentError := Some(ServerMessageOr(basicResponse, "Unknown 404"));
      return;
    } else if statusCode == TooManyRequests {
      user.state := Error;
      user.mostRecentError := Some(ServerMessageOr(basicResponse, "Too many requests"));
      return;
    }
  }

  // ---------------------------------------------------------------------
  // Replies that cannot be read
  // ---------------------------------------------------------------------

  /** The code reported for a reply whose body deserialises to null: the
      HTTP code, except that 200 becomes -1 so it cannot pass for success. */
  function UnreadableReplyCode(httpStatus: int32): (r: int32)
    ensures r != OK
    ensures httpStatus != OK ==> r == httpStatus
    ensures httpStatus == OK ==> r == -1
  {
    if httpStatus == 200 then -1 else httpStatus
  }

  /** The metadata such a reply is replaced by. */
  function UnreadableReplyMeta(httpStatus: int32): (r: ResponseMeta)
    ensures r.code != OK
    ensures r.message == Some("Could not deserialize response.")
  {
    ResponseMeta(UnreadableReplyCode(httpStatus), Some("Could not deserialize response."))
  }

  /** Distinct HTTP codes other than 200 are still told apart. */
  lemma UnreadableReplyCodeKeepsErrors(a: int32, b: int32)
    requires a != b && a != OK && b != OK
    ensures UnreadableReplyCode(a) != UnreadableReplyCode(b)
  {
  }
}
