/** `saas.client.token.manager`: single-use, time-boxed auto-login tokens
    kept in `ir.config_parameter` under `saas_auto_login_token_<token>`, with
    their validation, consumption, periodic sweep and statistics.

    The current time (`int(time.time())`) is the parameter `now`, and JSON
    decoding is the parameter `json`, which yields the decoded object's
    fields, or None when the text is not JSON or not a JSON object. */
module TokenManager {
  import opened Wrappers
  import opened Text
  import opened ConfigStore
  import opened Users

  const TokenPrefix: string := "saas_auto_login_token_"

  /** Tokens shorter than this are refused before the store is read. */
  const MinTokenLength: nat := 32

  /** The decoded token record. A field is None when the key is missing or
      does not hold an integer; `metadata` is already defaulted to `{}`. */
  datatype TokenData = TokenData(userId: Option<int>, expiry: Option<int>, metadata: map<string, string>)

  type JsonDecoder = string -> Option<TokenData>

  /** What every JSON decoder satisfies: the text of a JSON object contains '{'. */
  ghost predicate DecoderSound(json: JsonDecoder) {
    forall s :: json(s).Some? ==> '{' in s
  }

  function TokenKey(token: string): string {
    TokenPrefix + token
  }

  /** The keys the token store owns: those that start with the prefix. */
  predicate IsTokenKey(key: string) {
    |key| >= |TokenPrefix| && key[..|TokenPrefix|] == TokenPrefix
  }

  // ---------------------------------------------------------------------
  // _parse_token_data
  // ---------------------------------------------------------------------

  /** The legacy encoding `f"{user_id}|{expiry}"`. */
  function LegacyEncode(userId: int, expiry: int): string {
    Join([IntToString(userId), IntToString(expiry)], '|')
  }

  /** `parts = s.split('|')`, accepted only as exactly two integers. */
  function LegacyFields(s: string): Option<(int, int)> {
    var parts := Split(s, '|');
    if |parts| == 2 && ParseInt(parts[0]).Some? && ParseInt(parts[1]).Some? then
      Some((ParseInt(parts[0]).value, ParseInt(parts[1]).value))
    else None
  }

  /** `_parse_token_data`: a JSON object as is, else the legacy pair with
      empty metadata; None where the source raises ValueError. */
  function ParseTokenData(json: JsonDecoder, s: string): Option<TokenData> {
    match json(s)
    case Some(d) => Some(d)
    case None =>
      match LegacyFields(s)
      case Some((u, e)) => Some(TokenData(Some(u), Some(e), map[]))
      case None => None
  }

  /** The legacy reader gives back the pair the legacy encoding wrote, and
      the encoding never looks like a JSON object. */
  lemma LegacyDecodeEncode(userId: int, expiry: int)
    ensures LegacyFields(LegacyEncode(userId, expiry)) == Some((userId, expiry))
    ensures '{' !in LegacyEncode(userId, expiry)
  {
    var a, b := IntToString(userId), IntToString(expiry);
    var s := LegacyEncode(userId, expiry);
    assert [a, b][1..] == [b];
    assert Join([b], '|') == b;
    assert s == a + ['|'] + b;
    assert '{' !in s by {
      forall k | 0 <= k < |s| ensures s[k] != '{' {
        if k < |a| { assert s[k] == a[k]; }
        else if k > |a| { assert s[k] == b[k - |a| - 1]; }
      }
    }
    assert '|' !in a && '|' !in b;
    SplitJoin([a, b], '|');
    IntToStringRoundTrip(userId);
    IntToStringRoundTrip(expiry);
  }

  /** Legacy round trip: the parser reads back the user id and expiry that
      the legacy encoding wrote, with empty metadata. */
  lemma LegacyRoundTrip(json: JsonDecoder, userId: int, expiry: int)
    requires DecoderSound(json)
    ensures json(LegacyEncode(userId, expiry)).None?
    ensures ParseTokenData(json, LegacyEncode(userId, expiry)) == Some(TokenData(Some(userId), Some(expiry), map[]))
  {
    LegacyDecodeEncode(userId, expiry);
  }

  /** Conversely, an accepted legacy text is one integer text, a single '|',
      and another integer text. */
  lemma LegacyFieldsReadBothSides(s: string)
    requires LegacyFields(s).Some?
    ensures exists a, b :: s == a + "|" + b && '|' !in a && '|' !in b
                           && ParseInt(a) == Some(LegacyFields(s).value.0)
                           && ParseInt(b) == Some(LegacyFields(s).value.1)
  {
    var parts := Split(s, '|');
    JoinSplit(s, '|');
    assert parts[1..] == [parts[1]];
    assert s == parts[0] + "|" + parts[1];
  }

  // ---------------------------------------------------------------------
  // validate_token
  // ---------------------------------------------------------------------

  datatype Reason = InvalidFormat | NotFound | Expired | ParseError

  datatype Validation =
    | Valid(userId: int, tokenKey: string, metadata: map<string, string>)
    | Invalid(reason: Reason)

  /** A result together with the store it leaves behind. */
  datatype Step<T> = Step(result: T, params: map<string, string>)

  /** The stored record behind a key, decoded. */
  function Lookup(json: JsonDecoder, params: map<string, string>, key: string): Option<TokenData> {
    match GetParam(params, key)
    case Some(v) => ParseTokenData(json, v)
    case None => None
  }

  /** `validate_token(token)` at time `now`. */
  function Validate(json: JsonDecoder, params: map<string, string>, token: string, now: int): (s: Step<Validation>)
    // a short or empty token is refused without reading the store
    ensures s.result == Invalid(InvalidFormat) <==> |token| < MinTokenLength
    // a well-formed token with nothing stored is not found
    ensures s.result == Invalid(NotFound) <==>
              |token| >= MinTokenLength && GetParam(params, TokenKey(token)).None?
    // expiry is strict: the record is expired only once `now` is past it, and then that one key goes
    ensures s.result == Invalid(Expired) <==>
              |token| >= MinTokenLength && Lookup(json, params, TokenKey(token)).Some?
              && Lookup(json, params, TokenKey(token)).value.expiry.Some?
              && now > Lookup(json, params, TokenKey(token)).value.expiry.value
    ensures s.result == Invalid(Expired) ==> s.params == params - {TokenKey(token)} && TokenKey(token) in params
    ensures s.result != Invalid(Expired) ==> s.params == params
    // a valid result reports the stored user under the prefixed key
    ensures s.result.Valid? <==>
              |token| >= MinTokenLength && Lookup(json, params, TokenKey(token)).Some?
              && Lookup(json, params, TokenKey(token)).value.expiry.Some?
              && now <= Lookup(json, params, TokenKey(token)).value.expiry.value
              && Lookup(json, params, TokenKey(token)).value.userId.Some?
    ensures s.result.Valid? ==>
              && s.result.tokenKey == TokenKey(token)
              && Lookup(json, params, TokenKey(token)).value.userId == Some(s.result.userId)
              && Lookup(json, params, TokenKey(token)).value.metadata == s.result.metadata
  {
    if |token| < MinTokenLength then Step(Invalid(InvalidFormat), params)
    else
      var key := TokenKey(token);
      match GetParam(params, key)
      case None => Step(Invalid(NotFound), params)
      case Some(text) =>
        match ParseTokenData(json, text)
        case None => Step(Invalid(ParseError), params)
        case Some(data) =>
          match data.expiry
          case None => Step(Invalid(ParseError), params)
          case Some(expiry) =>
            if now > expiry then Step(Invalid(Expired), params - {key})
            else
              match data.userId
              case None => Step(Invalid(ParseError), params)
              case Some(userId) => Step(Valid(userId, key, data.metadata), params)
  }

  /** A token issued in the legacy format is valid up to and including its
      expiry second and expired from the next second on. */
  lemma LegacyTokenLifetime(json: JsonDecoder, params: map<string, string>, token: string,
                            userId: int, expiry: int, now: int)
    requires DecoderSound(json)
    requires |token| >= MinTokenLength
    requires TokenKey(token) in params && params[TokenKey(token)] == LegacyEncode(userId, expiry)
    ensures now <= expiry ==> Validate(json, params, token, now).result == Valid(userId, TokenKey(token), map[])
    ensures now > expiry ==> Validate(json, params, token, now) == Step(Invalid(Expired), params - {TokenKey(token)})
  {
    LegacyRoundTrip(json, userId, expiry);
    assert LegacyEncode(userId, expiry) != "" by {
      assert |IntToString(userId)| >= 1;
    }
  }

  // ---------------------------------------------------------------------
  // validate_and_login_user
  // ---------------------------------------------------------------------

  datatype LoginFailure =
    | ValidationFailed(reason: Reason)
    | UserNotFound(userId: int)
    | UserInactive(userName: string)

  datatype LoginResult =
    | LoggedIn(userId: int, userName: string, userLogin: string)
    | LoginFailed(failure: LoginFailure)

  /** `validate_and_login_user(token)`, with `users` the `res.users` table by id. */
  function Redeem(json: JsonDecoder, params: map<string, string>, users: map<int, User>,
                  token: string, now: int): (s: Step<LoginResult>)
    // success consumes the token and names an existing, active user
    ensures s.result.LoggedIn? ==>
              && TokenKey(token) in params && s.params == params - {TokenKey(token)}
              && s.result.userId in users && users[s.result.userId].active
              && s.result.userName == users[s.result.userId].name
              && s.result.userLogin == users[s.result.userId].login
    // an unknown user also consumes the token
    ensures s.result.LoginFailed? && s.result.failure.UserNotFound? ==>
              && TokenKey(token) in params && s.params == params - {TokenKey(token)}
              && s.result.failure.userId !in users
    // an inactive user leaves the token in the store
    ensures s.result.LoginFailed? && s.result.failure.UserInactive? ==> s.params == params
    // a failed validation is passed on with its reason and its effect on the store
    ensures s.result.LoginFailed? && s.result.failure.ValidationFailed? ==>
              var v := Validate(json, params, token, now);
              v.result == Invalid(s.result.failure.reason) && s.params == v.params
    ensures var v := Validate(json, params, token, now);
            v.result.Invalid? ==> s == Step(LoginFailed(ValidationFailed(v.result.reason)), v.params)
    // a valid token decides by the user it names: unknown, inactive, or logged in
    ensures var v := Validate(json, params, token, now);
            v.result.Valid? ==>
              && (v.result.userId !in users <==> s.result == LoginFailed(UserNotFound(v.result.userId)))
              && (v.result.userId in users && !users[v.result.userId].active <==> s.result.LoginFailed? && s.result.failure.UserInactive?)
              && (v.result.userId in users && users[v.result.userId].active <==> s.result.LoggedIn?)
    // the user logged in is the one stored with the token
    ensures s.result.LoggedIn? ==>
              && Lookup(json, params, TokenKey(token)).Some?
              && Lookup(json, params, TokenKey(token)).value.userId == Some(s.result.userId)
  {
    var v := Validate(json, params, token, now);
    match v.result
    case Invalid(reason) => Step(LoginFailed(ValidationFailed(reason)), v.params)
    case Valid(userId, key, _) =>
      if userId !in users then Step(LoginFailed(UserNotFound(userId)), v.params - {key})
      else if !users[userId].active then Step(LoginFailed(UserInactive(users[userId].name)), v.params)
      else Step(LoggedIn(userId, users[userId].name, users[userId].login), v.params - {key})
  }

  /** The token is consumed by a redemption attempt exactly when the attempt
      succeeds, finds no such user, or finds the token expired. */
  lemma RedeemConsumesExactly(json: JsonDecoder, params: map<string, string>, users: map<int, User>,
                              token: string, now: int)
    ensures var s := Redeem(json, params, users, token, now);
            (TokenKey(token) in params && TokenKey(token) !in s.params) <==>
            (s.result.LoggedIn?
             || s.result == LoginFailed(ValidationFailed(Expired))
             || (s.result.LoginFailed? && s.result.failure.UserNotFound?))
  {
  }

  /** No replay: once a token has logged someone in, every later attempt with
      it, at any time and whatever the user table, finds nothing. */
  lemma RedeemNoReplay(json: JsonDecoder, params: map<string, string>, users: map<int, User>,
                       token: string, now: int, users': map<int, User>, later: int)
    requires Redeem(json, params, users, token, now).result.LoggedIn?
    ensures var after := Redeem(json, params, users, token, now).params;
            Redeem(json, after, users', token, later) == Step(LoginFailed(ValidationFailed(NotFound)), after)
  {
    var after := Redeem(json, params, users, token, now).params;
    assert TokenKey(token) !in after;
  }

  /** A token presented after its expiry never logs anyone in, even the
      first time it is presented. */
  lemma RedeemAfterExpiryFails(json: JsonDecoder, params: map<string, string>, users: map<int, User>,
                               token: string, now: int)
    requires Lookup(json, params, TokenKey(token)).Some?
    requires Lookup(json, params, TokenKey(token)).value.expiry.Some?
    requires now > Lookup(json, params, TokenKey(token)).value.expiry.value
    ensures !Redeem(json, params, users, token, now).result.LoggedIn?
  {
  }

  /** An attempt refused because the user is inactive changes nothing, so
      the same token logs the user in once the account is re-activated. */
  lemma InactiveUserTokenStaysRedeemable(json: JsonDecoder, params: map<string, string>, users: map<int, User>,
                                         token: string, now: int, userId: int)
    requires userId in users
    requires Validate(json, params, token, now).result.Valid?
    requires Validate(json, params, token, now).result.userId == userId
    requires !users[userId].active
    ensures Redeem(json, params, users, token, now).params == params
    ensures Redeem(json, params, users[userId := users[userId].(active := true)], token, now).result.LoggedIn?
  {
  }

  // ---------------------------------------------------------------------
  // cleanup_expired_tokens and get_token_stats
  // ---------------------------------------------------------------------

  datatype SweepAction = RemoveExpired | RemoveUnparsable | Keep

  /** What the sweep does with one stored value. A record whose `expiry` is
      missing or not an integer raises KeyError/TypeError, which the sweep
      logs and skips: it is kept and not counted. */
  function SweepActionOf(json: JsonDecoder, value: string, now: int): SweepAction {
    match ParseTokenData(json, value)
    case None => RemoveUnparsable
    case Some(data) =>
      match data.expiry
      case None => Keep
      case Some(expiry) => if expiry < now then RemoveExpired else Keep
  }

  /** The stored value holds a record whose expiry is `now` or later. */
  predicate IsActive(json: JsonDecoder, value: string, now: int) {
    var parsed := ParseTokenData(json, value);
    parsed.Some? && parsed.value.expiry.Some? && parsed.value.expiry.value >= now
  }

  function TokenKeys(params: map<string, string>): set<string> {
    set k | k in params && IsTokenKey(k)
  }

  function KeysWithAction(json: JsonDecoder, params: map<string, string>, now: int, action: SweepAction): (keys: set<string>)
    ensures keys <= TokenKeys(params)
  {
    set k | k in TokenKeys(params) && SweepActionOf(json, params[k], now) == action
  }

  function ActiveKeys(json: JsonDecoder, params: map<string, string>, now: int): (keys: set<string>)
    ensures keys <= TokenKeys(params)
  {
    set k | k in TokenKeys(params) && IsActive(json, params[k], now)
  }

  /** Two disjoint subsets of a finite set together are no larger than it. */
  lemma DisjointSubsetsCardinality<T>(a: set<T>, b: set<T>, whole: set<T>)
    requires a <= whole && b <= whole && a !! b
    ensures |a| + |b| <= |whole|
  {
    assert |a + b| == |a| + |b|;
    SubsetCardinality(a + b, whole);
  }

  lemma {:induction false} SubsetCardinality<T>(a: set<T>, whole: set<T>)
    requires a <= whole
    ensures |a| <= |whole|
    decreases |whole|
  {
    if a != {} {
      var x :| x in a;
      SubsetCardinality(a - {x}, whole - {x});
    }
  }

  datatype CleanupReport = CleanupReport(expired: nat, errors: nat, total: nat)

  /** `cleanup_expired_tokens()` at time `now`. */
  function Cleanup(json: JsonDecoder, params: map<string, string>, now: int): (s: Step<CleanupReport>)
    // the sweep only removes entries, and only token entries
    ensures s.params.Keys <= params.Keys
    ensures forall k :: k in s.params ==> s.params[k] == params[k]
    ensures forall k :: k in params && !IsTokenKey(k) ==> k in s.params
    // every token with expiry at or after `now` survives
    ensures forall k :: k in params && IsTokenKey(k) && IsActive(json, params[k], now) ==> k in s.params
    // so does a record that decodes but has no integer expiry
    ensures forall k :: (k in params && IsTokenKey(k) && ParseTokenData(json, params[k]).Some?
                         && !SweepExpiryKnown(json, params[k])) ==> k in s.params
    // exactly the expired and the unparsable token records go
    ensures forall k :: k in s.params <==> k in params && !(IsTokenKey(k) && SweepActionOf(json, params[k], now) != Keep)
    // the counters: one per removed record, by kind, out of all token records
    ensures s.result.total == |TokenKeys(params)|
    ensures s.result.expired == |KeysWithAction(json, params, now, RemoveExpired)|
    ensures s.result.errors == |KeysWithAction(json, params, now, RemoveUnparsable)|
    ensures s.result.expired + s.result.errors == |params.Keys - s.params.Keys|
    ensures s.result.expired + s.result.errors <= s.result.total
  {
    var expired := KeysWithAction(json, params, now, RemoveExpired);
    var unparsable := KeysWithAction(json, params, now, RemoveUnparsable);
    DisjointSubsetsCardinality(expired, unparsable, TokenKeys(params));
    RemovedKeys(json, params, now);
    Step(CleanupReport(|expired|, |unparsable|, |TokenKeys(params)|), params - (expired + unparsable))
  }

  /** The keys the sweep removes are the token keys whose value calls for
      removal, and the store loses exactly those. */
  lemma RemovedKeys(json: JsonDecoder, params: map<string, string>, now: int)
    ensures var removed := KeysWithAction(json, params, now, RemoveExpired) + KeysWithAction(json, params, now, RemoveUnparsable);
            && (forall k :: k in removed <==> k in params && IsTokenKey(k) && SweepActionOf(json, params[k], now) != Keep)
            && params.Keys - (params - removed).Keys == removed
  {
  }

  datatype TokenStats = TokenStats(total: nat, active: nat, expired: nat)

  /** `get_token_stats()` at time `now`: unparsable records and records
      without an integer expiry count as expired. */
  function Stats(json: JsonDecoder, params: map<string, string>, now: int): (s: TokenStats)
    ensures s.total == |TokenKeys(params)|
    ensures s.active + s.expired == s.total
    ensures s.active == |ActiveKeys(json, params, now)|
  {
    var active := ActiveKeys(json, params, now);
    var all := TokenKeys(params);
    assert all == active + (all - active);
    TokenStats(|all|, |active|, |all - active|)
  }

  /** After a sweep, the statistics taken at the same instant count as
      expired only records without an integer expiry: the sweep keeps those,
      yet the statistics call them expired. */
  lemma StatsAfterCleanup(json: JsonDecoder, params: map<string, string>, now: int)
    ensures var after := Cleanup(json, params, now).params;
            forall k :: k in TokenKeys(after) && !IsActive(json, after[k], now) ==>
              ParseTokenData(json, after[k]).Some? && ParseTokenData(json, after[k]).value.expiry.None?
    ensures var after := Cleanup(json, params, now).params;
            (forall k :: k in TokenKeys(after) ==> SweepExpiryKnown(json, after[k])) ==>
              Stats(json, after, now).expired == 0
  {
    var after := Cleanup(json, params, now).params;
    var all := TokenKeys(after);
    var active := ActiveKeys(json, after, now);
    if forall k :: k in all ==> SweepExpiryKnown(json, after[k]) {
      forall k | k in all ensures k in active {
        assert k in params && IsTokenKey(k);
      }
      assert all - active == {};
    }
  }

  /** The stored value decodes to a record with an integer expiry. */
  predicate SweepExpiryKnown(json: JsonDecoder, value: string) {
    ParseTokenData(json, value).Some? && ParseTokenData(json, value).value.expiry.Some?
  }

  // ---------------------------------------------------------------------
  // The key filter of cleanup and stats, as written
  // ---------------------------------------------------------------------

  /** `search([('key', 'like', 'saas_auto_login_token_%')])` as Odoo runs
      it: `like` wraps the value as `%...%`, and each `_` in the prefix is
      the SQL wildcard for one arbitrary character. So a key is selected when
      some window of it matches the prefix with `_` read as "any character". */
  predicate LikeSelects(key: string) {
    exists i :: 0 <= i && i + |TokenPrefix| <= |key| && WindowMatches(key, i)
  }

  predicate WindowMatches(key: string, i: nat)
    requires i + |TokenPrefix| <= |key|
  {
    forall j :: 0 <= j < |TokenPrefix| ==> TokenPrefix[j] == '_' || key[i + j] == TokenPrefix[j]
  }

  /** The filter as written selects every key of the token store, so the
      corrected filter `IsTokenKey` never loses a real token. */
  lemma TokenKeysAreLikeSelected(key: string)
    requires IsTokenKey(key)
    ensures LikeSelects(key)
  {
    assert WindowMatches(key, 0) by {
      forall j | 0 <= j < |TokenPrefix| ensures key[j] == TokenPrefix[j] {
        assert key[..|TokenPrefix|][j] == key[j];
      }
    }
  }

  /** The filter as written also selects foreign keys such as
      `saas.auto.login.token.ttl`; with a value like "300" (a JSON number,
      not an object, and not two '|'-separated integers) the sweep as
      written would delete that parameter as an unparsable token. */
  lemma LikeSelectsForeignKey(json: JsonDecoder, now: int)
    requires DecoderSound(json)
    ensures LikeSelects("saas.auto.login.token.ttl")
    ensures !IsTokenKey("saas.auto.login.token.ttl")
    ensures SweepActionOf(json, "300", now) == RemoveUnparsable
  {
    var key := "saas.auto.login.token.ttl";
    assert WindowMatches(key, 0);
    assert key[..|TokenPrefix|] != TokenPrefix by { assert key[4] != TokenPrefix[4]; }
    assert '{' !in "300";
    assert Split("300", '|') == ["300"] by { SplitWithoutSeparator("300", '|'); }
  }

  /** The store the sweep leaves when it selects keys with the filter as
      written. */
  function CleanupAsWritten(json: JsonDecoder, params: map<string, string>, now: int): (after: map<string, string>)
    ensures forall k :: k in after <==> k in params && !(LikeSelects(k) && SweepActionOf(json, params[k], now) != Keep)
  {
    params - (set k | k in params && LikeSelects(k) && SweepActionOf(json, params[k], now) != Keep)
  }

  /** The sweep as written deletes an unrelated parameter whose key only
      resembles the prefix; the corrected sweep keeps it. */
  lemma SweepAsWrittenDeletesForeignKey(json: JsonDecoder, now: int)
    requires DecoderSound(json)
    ensures var params := map["saas.auto.login.token.ttl" := "300"];
            && "saas.auto.login.token.ttl" !in CleanupAsWritten(json, params, now)
            && Cleanup(json, params, now).params == params
  {
    var params := map["saas.auto.login.token.ttl" := "300"];
    LikeSelectsForeignKey(json, now);
    assert TokenKeys(params) == {};
  }

  /** `get_token_stats()`'s `total` with the filter as written: the number
      of keys the `like` pattern selects. */
  function StatsTotalAsWritten(params: map<string, string>): (n: nat)
    ensures n >= |TokenKeys(params)|
  {
    var selected := set k | k in params && LikeSelects(k);
    forall k | k in TokenKeys(params) ensures k in selected {
      TokenKeysAreLikeSelected(k);
    }
    SubsetCardinality(TokenKeys(params), selected);
    |selected|
  }

  /** The statistics as written count the foreign parameter as a token
      record; the corrected statistics count none. */
  lemma StatsAsWrittenCountsForeignKey(json: JsonDecoder, now: int)
    requires DecoderSound(json)
    ensures var params := map["saas.auto.login.token.ttl" := "300"];
            && StatsTotalAsWritten(params) == 1
            && Stats(json, params, now).total == 0
  {
    var params := map["saas.auto.login.token.ttl" := "300"];
    LikeSelectsForeignKey(json, now);
    assert TokenKeys(params) == {};
    assert (set k | k in params && LikeSelects(k)) == {"saas.auto.login.token.ttl"};
  }

  /** Visiting one more element adds one to the count of visited members of
      `s` exactly when the element belongs to `s`. */
  lemma VisitCount<T>(s: set<T>, todo: set<T>, key: T)
    requires key in todo
    ensures key in s ==> |s - (todo - {key})| == |s - todo| + 1
    ensures key !in s ==> |s - (todo - {key})| == |s - todo|
  {
    if key in s {
      assert s - (todo - {key}) == (s - todo) + {key};
    } else {
      assert s - (todo - {key}) == s - todo;
    }
  }

  /** A token key is marked for an action exactly when its value calls for it. */
  lemma ActionMembership(json: JsonDecoder, params: map<string, string>, now: int, key: string)
    requires key in TokenKeys(params)
    ensures key in KeysWithAction(json, params, now, RemoveExpired) <==> SweepActionOf(json, params[key], now) == RemoveExpired
    ensures key in KeysWithAction(json, params, now, RemoveUnparsable) <==> SweepActionOf(json, params[key], now) == RemoveUnparsable
  {
  }

  /** Removing one more visited key from the store keeps it equal to the
      initial store minus the visited keys marked for removal. */
  lemma SweepStep(initial: map<string, string>, removed: set<string>, todo: set<string>, key: string)
    requires key in todo && key in initial
    ensures key in (initial - (removed - todo)) && (initial - (removed - todo))[key] == initial[key]
    ensures key in removed ==> (initial - (removed - todo)) - {key} == initial - (removed - (todo - {key}))
    ensures key !in removed ==> initial - (removed - todo) == initial - (removed - (todo - {key}))
  {
    if key in removed {
      assert removed - (todo - {key}) == (removed - todo) + {key};
    } else {
      assert removed - (todo - {key}) == removed - todo;
    }
  }

  // ---------------------------------------------------------------------
  // The operations, on the shared store
  // ---------------------------------------------------------------------

  /** `validate_token(token)`. */
  method ValidateToken(store: ConfigParameters, json: JsonDecoder, token: string, now: int) returns (r: Validation)
    modifies store
    ensures Step(r, store.params) == Validate(json, old(store.params), token, now)
  {
    if |token| < MinTokenLength {
      return Invalid(InvalidFormat);
    }
    var key := TokenKey(token);
    var text := GetParam(store.params, key);
    if text.None? {
      return Invalid(NotFound);
    }
    var parsed := ParseTokenData(json, text.value);
    if parsed.None? || parsed.value.expiry.None? {
      return Invalid(ParseError);
    }
    var data := parsed.value;
    if now > data.expiry.value {
      store.Unset(key);
      return Invalid(Expired);
    }
    if data.userId.None? {
      return Invalid(ParseError);
    }
    r := Valid(data.userId.value, key, data.metadata);
  }

  /** `delete_token(token_key)`. */
  method DeleteToken(store: ConfigParameters, key: string) returns (ok: bool)
    modifies store
    ensures ok
    ensures store.params == old(store.params) - {key}
  {
    store.Unset(key);
    ok := true;
  }

  /** `validate_and_login_user(token)`. */
  method ValidateAndLoginUser(store: ConfigParameters, json: JsonDecoder, users: map<int, User>,
                              token: string, now: int) returns (r: LoginResult)
    modifies store
    ensures Step(r, store.params) == Redeem(json, old(store.params), users, token, now)
  {
    var validation := ValidateToken(store, json, token, now);
    if validation.Invalid? {
      return LoginFailed(ValidationFailed(validation.reason));
    }
    var userId, key := validation.userId, validation.tokenKey;
    if userId !in users {
      var _ := DeleteToken(store, key);
      return LoginFailed(UserNotFound(userId));
    }
    var user := users[userId];
    if !user.active {
      return LoginFailed(UserInactive(user.name));
    }
    var _ := DeleteToken(store, key);
    r := LoggedIn(userId, user.name, user.login);
  }

  /** The sweep's state once it has visited every token key outside `todo`:
      the visited keys marked for removal are gone, and the counters count
      them. */
  ghost predicate SweptUpTo(json: JsonDecoder, initial: map<string, string>, now: int,
                            todo: set<string>, params: map<string, string>, expired: nat, errors: nat) {
    var expiredKeys := KeysWithAction(json, initial, now, RemoveExpired);
    var unparsableKeys := KeysWithAction(json, initial, now, RemoveUnparsable);
    && todo <= TokenKeys(initial)
    && params == initial - ((expiredKeys + unparsableKeys) - todo)
    && expired == |expiredKeys - todo|
    && errors == |unparsableKeys - todo|
  }

  lemma SweepStart(json: JsonDecoder, initial: map<string, string>, now: int)
    ensures SweptUpTo(json, initial, now, TokenKeys(initial), initial, 0, 0)
  {
    var expiredKeys := KeysWithAction(json, initial, now, RemoveExpired);
    var unparsableKeys := KeysWithAction(json, initial, now, RemoveUnparsable);
    assert (expiredKeys + unparsableKeys) - TokenKeys(initial) == {};
    assert expiredKeys - TokenKeys(initial) == {};
    assert unparsableKeys - TokenKeys(initial) == {};
  }

  /** Visiting one more key keeps the sweep's state. */
  lemma SweepAdvance(json: JsonDecoder, initial: map<string, string>, now: int, todo: set<string>,
                     params: map<string, string>, expired: nat, errors: nat, key: string)
    requires SweptUpTo(json, initial, now, todo, params, expired, errors) && key in todo
    ensures key in params && params[key] == initial[key]
    ensures var action := SweepActionOf(json, initial[key], now);
            SweptUpTo(json, initial, now, todo - {key},
                      if action == Keep then params else params - {key},
                      if action == RemoveExpired then expired + 1 else expired,
                      if action == RemoveUnparsable then errors + 1 else errors)
  {
    var expiredKeys := KeysWithAction(json, initial, now, RemoveExpired);
    var unparsableKeys := KeysWithAction(json, initial, now, RemoveUnparsable);
    VisitCount(expiredKeys, todo, key);
    VisitCount(unparsableKeys, todo, key);
    SweepStep(initial, expiredKeys + unparsableKeys, todo, key);
    ActionMembership(json, initial, now, key);
  }

  /** Once every key is visited, the sweep's state is what `Cleanup` says. */
  lemma SweepDone(json: JsonDecoder, initial: map<string, string>, now: int,
                  params: map<string, string>, expired: nat, errors: nat)
    requires SweptUpTo(json, initial, now, {}, params, expired, errors)
    ensures Step(CleanupReport(expired, errors, |TokenKeys(initial)|), params) == Cleanup(json, initial, now)
  {
    var expiredKeys := KeysWithAction(json, initial, now, RemoveExpired);
    var unparsableKeys := KeysWithAction(json, initial, now, RemoveUnparsable);
    assert (expiredKeys + unparsableKeys) - {} == expiredKeys + unparsableKeys;
    assert expiredKeys - {} == expiredKeys && unparsableKeys - {} == unparsableKeys;
  }

  /** The body of the sweep for one token record: `unlink` it when it is
      expired or unparsable. */
  method SweepRecord(store: ConfigParameters, json: JsonDecoder, now: int, key: string) returns (action: SweepAction)
    requires key in store.params
    modifies store
    ensures action == SweepActionOf(json, old(store.params)[key], now)
    ensures store.params == if action == Keep then old(store.params) else old(store.params) - {key}
  {
    action := SweepActionOf(json, store.params[key], now);
    if action != Keep {
      store.Unset(key);
    }
  }

  /** `cleanup_expired_tokens()`: visits every token record once, removing
      the expired and the unparsable ones and counting each kind. */
  method CleanupExpiredTokens(store: ConfigParameters, json: JsonDecoder, now: int) returns (report: CleanupReport)
    modifies store
    ensures Step(report, store.params) == Cleanup(json, old(store.params), now)
  {
    ghost var initial := store.params;
    var allTokens := TokenKeys(store.params);
    var todo := allTokens;
    var expiredCount, errorCount := 0, 0;
    SweepStart(json, initial, now);
    while todo != {}
      invariant SweptUpTo(json, initial, now, todo, store.params, expiredCount, errorCount)
      decreases |todo|
    {
      var key :| key in todo;
      SweepAdvance(json, initial, now, todo, store.params, expiredCount, errorCount, key);
      var action := SweepRecord(store, json, now, key);
      if action == RemoveExpired {
        expiredCount := expiredCount + 1;
      } else if action == RemoveUnparsable {
        errorCount := errorCount + 1;
      }
      todo := todo - {key};
    }
    SweepDone(json, initial, now, store.params, expiredCount, errorCount);
    report := CleanupReport(expiredCount, errorCount, |allTokens|);
  }

  /** `get_token_stats()`: counts each token record as active or expired. */
  method GetTokenStats(store: ConfigParameters, json: JsonDecoder, now: int) returns (stats: TokenStats)
    ensures stats == Stats(json, store.params, now)
  {
    ghost var activeKeys := ActiveKeys(json, store.params, now);
    var allTokens := TokenKeys(store.params);
    var todo := allTokens;
    var activeCount, expiredCount := 0, 0;
    while todo != {}
      invariant todo <= allTokens
      invariant activeCount == |activeKeys - todo|
      invariant activeCount + expiredCount == |allTokens - todo|
      decreases |todo|
    {
      var key :| key in todo;
      VisitCount(activeKeys, todo, key);
      VisitCount(allTokens, todo, key);
      if IsActive(json, store.params[key], now) {
        activeCount := activeCount + 1;
      } else {
        expiredCount := expiredCount + 1;
      }
      todo := todo - {key};
    }
    SplitCount(activeKeys, allTokens);
    stats := TokenStats(|allTokens|, activeCount, expiredCount);
  }

  /** Nothing left to visit: the visited part of a set is all of it, and a
      subset and its complement add up to the whole. */
  lemma SplitCount<T>(part: set<T>, whole: set<T>)
    requires part <= whole
    ensures part - {} == part && whole - {} == whole
    ensures |whole - part| == |whole| - |part|
  {
    assert whole == part + (whole - part);
  }
}
