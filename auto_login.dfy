/** The `/saas/client_login/<token>` controller: its own redemption
    sequence over the same `ir.config_parameter` store. It reads only the
    legacy `user_id|expiry` encoding, does not check the token's length, and
    leaves the token in place when the user is missing or inactive.
    Establishing the HTTP session itself is outside the model: a success
    reports the uid, login and database the session would receive. */
module AutoLogin {
  import opened Wrappers
  import opened Text
  import opened ConfigStore
  import opened Users
  import opened TokenManager

  datatype LoginError =
    | DatabaseNotFound
    | TokenNotFound
    | InvalidTokenFormat
    | TokenExpired
    | NoSuchUser
    | InactiveUser

  /** What the session is given on success. */
  datatype Session = Session(uid: int, login: string, db: string)

  /** `host.split(':')[0]`. */
  function HostName(host: string): string {
    Split(host, ':')[0]
  }

  /** The host name is the text before the first ':', or all of it. */
  lemma HostNameIsPrefix(host: string)
    ensures var name := HostName(host);
            && ':' !in name
            && |name| <= |host| && host[..|name|] == name
            && (':' in host ==> host[|name|] == ':')
            && (':' !in host ==> name == host)
  {
    var parts := Split(host, ':');
    JoinSplit(host, ':');
    if |parts| > 1 {
      assert host == parts[0] + [':'] + Join(parts[1..], ':');
      assert host[|parts[0]|] == ':';
    }
  }

  /** The database name: from the `Host` header, else from the request host. */
  function DatabaseName(hostHeader: string, host: string): string {
    var fromHeader := HostName(hostHeader);
    if fromHeader != "" then fromHeader else HostName(host)
  }

  /** The legacy fields stored under the token's key, if any are readable. */
  function StoredFields(params: map<string, string>, token: string): Option<(int, int)> {
    match GetParam(params, TokenKey(token))
    case None => None
    case Some(text) => LegacyFields(text)
  }

  /** A readable record whose expiry has not passed, looked up for a known database. */
  predicate Live(params: map<string, string>, hostHeader: string, host: string, token: string, now: int) {
    DatabaseName(hostHeader, host) != "" && StoredFields(params, token).Some?
    && now <= StoredFields(params, token).value.1
  }

  /** `auto_login(token)`, lines up to the session set-up, at time `now`. */
  function AutoLoginStep(params: map<string, string>, users: map<int, User>,
                         hostHeader: string, host: string, token: string, now: int): (s: Step<Result<Session, LoginError>>)
    // no database name: refused before the store is read
    ensures s.result == Failure(DatabaseNotFound) <==> DatabaseName(hostHeader, host) == ""
    // nothing stored under the key: refused, store unchanged
    ensures s.result == Failure(TokenNotFound) <==>
              DatabaseName(hostHeader, host) != "" && GetParam(params, TokenKey(token)).None?
    // only two '|'-separated integers are accepted; JSON records are refused
    ensures s.result == Failure(InvalidTokenFormat) <==>
              && DatabaseName(hostHeader, host) != "" && GetParam(params, TokenKey(token)).Some?
              && LegacyFields(GetParam(params, TokenKey(token)).value).None?
    // a record past its expiry is refused, and its key removed
    ensures s.result == Failure(TokenExpired) <==>
              && DatabaseName(hostHeader, host) != "" && StoredFields(params, token).Some?
              && now > StoredFields(params, token).value.1
    ensures s.result == Failure(TokenExpired) ==>
              && TokenKey(token) in params && s.params == params - {TokenKey(token)}
              && LegacyFields(params[TokenKey(token)]).Some?
              && now > LegacyFields(params[TokenKey(token)]).value.1
    // a missing or inactive user leaves the token in place
    ensures s.result == Failure(NoSuchUser) || s.result == Failure(InactiveUser) ==> s.params == params
    ensures s.result == Failure(NoSuchUser) <==>
              Live(params, hostHeader, host, token, now) && StoredFields(params, token).value.0 !in users
    ensures s.result == Failure(InactiveUser) <==>
              && Live(params, hostHeader, host, token, now) && StoredFields(params, token).value.0 in users
              && !users[StoredFields(params, token).value.0].active
    // a live record of an existing, active user logs that user in
    ensures s.result.Success? <==>
              && Live(params, hostHeader, host, token, now) && StoredFields(params, token).value.0 in users
              && users[StoredFields(params, token).value.0].active
    // success: the token is removed and the session gets the stored user id
    ensures s.result.Success? ==>
              && TokenKey(token) in params && s.params == params - {TokenKey(token)}
              && LegacyFields(params[TokenKey(token)]).Some?
              && s.result.value.uid == LegacyFields(params[TokenKey(token)]).value.0
              && now <= LegacyFields(params[TokenKey(token)]).value.1
              && s.result.value.uid in users && users[s.result.value.uid].active
              && s.result.value.login == users[s.result.value.uid].login
              && s.result.value.db == DatabaseName(hostHeader, host)
    ensures s.params == params || s.params == params - {TokenKey(token)}
  {
    var db := DatabaseName(hostHeader, host);
    if db == "" then Step(Failure(DatabaseNotFound), params)
    else
      var key := TokenKey(token);
      match GetParam(params, key)
      case None => Step(Failure(TokenNotFound), params)
      case Some(text) =>
        match LegacyFields(text)
        case None => Step(Failure(InvalidTokenFormat), params)
        case Some((userId, expiry)) =>
          if now > expiry then Step(Failure(TokenExpired), params - {key})
          else if userId !in users then Step(Failure(NoSuchUser), params)
          else if !users[userId].active then Step(Failure(InactiveUser), params)
          else Step(Success(Session(userId, users[userId].login, db)), params - {key})
  }

  /** The controller consumes the token exactly on success and on expiry. */
  lemma AutoLoginConsumesExactly(params: map<string, string>, users: map<int, User>,
                                 hostHeader: string, host: string, token: string, now: int)
    ensures var s := AutoLoginStep(params, users, hostHeader, host, token, now);
            (TokenKey(token) in params && TokenKey(token) !in s.params) <==>
            (s.result.Success? || s.result == Failure(TokenExpired))
  {
  }

  /** No replay on the controller path either. */
  lemma AutoLoginNoReplay(params: map<string, string>, users: map<int, User>,
                          hostHeader: string, host: string, token: string, now: int,
                          users': map<int, User>, later: int)
    requires AutoLoginStep(params, users, hostHeader, host, token, now).result.Success?
    ensures var after := AutoLoginStep(params, users, hostHeader, host, token, now).params;
            AutoLoginStep(after, users', hostHeader, host, token, later) == Step(Failure(TokenNotFound), after)
  {
    var after := AutoLoginStep(params, users, hostHeader, host, token, now).params;
    assert TokenKey(token) !in after;
  }

  /** The two redemption paths disagree on a legacy token whose user no
      longer exists: the token manager deletes it, the controller keeps it. */
  lemma PathsDivergeOnMissingUser(json: JsonDecoder, params: map<string, string>, users: map<int, User>,
                                  hostHeader: string, host: string, token: string,
                                  userId: int, expiry: int, now: int)
    requires DecoderSound(json)
    requires |token| >= MinTokenLength
    requires DatabaseName(hostHeader, host) != ""
    requires TokenKey(token) in params && params[TokenKey(token)] == LegacyEncode(userId, expiry)
    requires now <= expiry && userId !in users
    ensures Redeem(json, params, users, token, now) == Step(LoginFailed(UserNotFound(userId)), params - {TokenKey(token)})
    ensures AutoLoginStep(params, users, hostHeader, host, token, now) == Step(Failure(NoSuchUser), params)
  {
    LegacyTokenLifetime(json, params, token, userId, expiry, now);
    LegacyDecodeEncode(userId, expiry);
  }

  /** The controller has no length check: a short token with a live legacy
      record logs in there, while the token manager refuses its format. */
  lemma ControllerAcceptsShortTokens(json: JsonDecoder, params: map<string, string>, users: map<int, User>,
                                     hostHeader: string, host: string, token: string,
                                     userId: int, expiry: int, now: int)
    requires |token| < MinTokenLength
    requires DatabaseName(hostHeader, host) != ""
    requires TokenKey(token) in params && params[TokenKey(token)] == LegacyEncode(userId, expiry)
    requires now <= expiry && userId in users && users[userId].active
    ensures Validate(json, params, token, now).result == Invalid(InvalidFormat)
    ensures AutoLoginStep(params, users, hostHeader, host, token, now).result
            == Success(Session(userId, users[userId].login, DatabaseName(hostHeader, host)))
  {
    LegacyDecodeEncode(userId, expiry);
  }

  /** The controller's redemption, on the shared store. */
  method AutoLogin(store: ConfigParameters, users: map<int, User>,
                   hostHeader: string, host: string, token: string, now: int) returns (r: Result<Session, LoginError>)
    modifies store
    ensures Step(r, store.params) == AutoLoginStep(old(store.params), users, hostHeader, host, token, now)
  {
    var db := HostName(hostHeader);
    if db == "" {
      db := HostName(host);
    }
    if db == "" {
      return Failure(DatabaseNotFound);
    }
    var key := TokenKey(token);
    var text := GetParam(store.params, key);
    if text.None? {
      return Failure(TokenNotFound);
    }
    var fields := LegacyFields(text.value);
    if fields.None? {
      return Failure(InvalidTokenFormat);
    }
    var (userId, expiry) := fields.value;
    if now > expiry {
      store.Unset(key);
      return Failure(TokenExpired);
    }
    if userId !in users {
      return Failure(NoSuchUser);
    }
    if !users[userId].active {
      return Failure(InactiveUser);
    }
    var login := users[userId].login;
    store.Unset(key);
    r := Success(Session(userId, login, db));
  }
}
