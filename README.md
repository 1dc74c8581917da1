# saas_user_limit in Dafny

This project models the logic core of the Odoo add-on `saas_user_limit` and proves properties of that model.

**Auto-login tokens.** A SaaS master database creates single-use, time-limited auto-login tokens in a client database. It stores each one in `ir.config_parameter` under `saas_auto_login_token_<token>`, either as a JSON object or in the legacy form `"user_id|expiry"`. Two pieces of code redeem these tokens:
- the token manager (`saas.client.token.manager`), which also validates, deletes, sweeps and counts tokens;
- the `/saas/client_login/<token>` controller, a redemption sequence of its own.

**User limit.** The limit on internal users is kept in a singleton `saas.user.limit.control` record. The `res.users` overrides of `create` and `write` enforce it.

**Storage quota.** A storage read-only mode is switched on through the config parameter `storage.readonly_mode`. Overrides of `create`, `write` and `unlink` on every model enforce it, as do overrides of `create` on `ir.attachment` and `mail.message`.

Modules and files:
- `wrappers.dfy` (`Wrappers`): `Option`, `Result`, and `Outcome` (an operation either passes or raises).
- `text.dfy` (`Text`): the Python string handling the token codec relies on. This covers `str.split`, `sep.join`, `int()` on base-10 text, and `str()` of an integer, with their round trips.
- `config_store.dfy` (`ConfigStore`): the `ir.config_parameter` table as a class holding a `map<string, string>`.
  - `get_param` returns the stored value `or` the default, so an empty value reads as missing.
  - `set_param(key, False)` removes the key.
- `users.dfy` (`Users`): the `res.users` fields that are read, and the count of active internal users.
- `token_manager.dfy` (`TokenManager`): `_parse_token_data`, `validate_token`, `delete_token`, `cleanup_expired_tokens`, `get_token_stats` and `validate_and_login_user`.
  - Each operation is a function from the old store to a result and the new store.
  - A method on the shared `ConfigParameters` object is proved equal to that function.
  - The sweep and the statistics are loops over the token records.
- `auto_login.dfy` (`AutoLogin`): the controller's decision sequence, up to the point where the session is set up.
- `user_limit_control.dfy` (`UserLimitControl`): the computed fields, `get_user_limit`, `check_user_limit`, and the table class with `create`, `write`, `unlink` and `update_limit_from_saas`.
- `res_users.dfy` (`ResUsers`): the user table class with the guarded `create` and `write`.
- `storage_guard.dfy` (`StorageGuard`): the read-only guards as pure decisions.

Parameters:
- The clock (`int(time.time())`) is the parameter `now`.
- JSON decoding is the parameter `json`. It is a function from text to the decoded record's fields, or None when the text is not a JSON object. The one property required of it (`DecoderSound`) is that the text of a JSON object contains `{`.
- The `res.users` table is a map from id to user for the redemption paths, and a sequence of users for the limit.
- `search` on `saas.user.limit.control` sees only active records, because the model has an `active` field. `search([], limit=1)` returns the first of them in id order.

Two behaviours of the code are worth knowing before reading the contracts:
- A redemption attempt does not always consume the token. Neither path consumes it for an inactive user, and the controller also keeps it when the user does not exist. `InactiveUserTokenStaysRedeemable` and `PathsDivergeOnMissingUser` state this.
- The sweep removes expired records and also records that cannot be parsed. It keeps records that parse but lack an integer `expiry`.

## Model

| member | source | states |
|---|---|---|
| `Text.Split` | models/saas_client_token_manager.py:81 | `str.split` gives at least one piece, and no piece contains the separator |
| `Text.JoinSplit` | models/saas_client_token_manager.py:81 | joining the pieces of a split gives back the text |
| `Text.SplitJoin` | models/saas_client_token_manager.py:81 | splitting a join of separator-free pieces gives back the pieces |
| `Text.IntToStringRoundTrip` | models/saas_client_token_manager.py:84-85 | `int(str(n)) == n` for every integer, negative ones included |
| `Text.UnsignedLiteral` | models/saas_client_token_manager.py:84-85 | `int()` reads a decimal literal as its value |
| `Text.NegativeLiteral` | models/saas_client_token_manager.py:84-85 | `int()` reads a minus sign followed by a literal as the negated value |
| `ConfigStore.ReadAfterUnset` | models/saas_client_token_manager.py:32-36 | after `set_param(key, False)`, the key reads as absent and `get_param(key, default)` gives the default, while every other key reads as before |
| `ConfigStore.ReadStored` | models/saas_client_token_manager.py:32-36 | a stored non-empty value reads back as itself, whatever the default |
| `ConfigStore.ConfigParameters.Unset` | models/saas_client_token_manager.py:101 | `set_param(key, False)` removes exactly that key |
| `Users.ActiveInternalCount` | models/user_limit_control.py:79-82 | the count of active non-shared users is at most the table size |
| `Users.ActiveInternalCountAppend` | models/res_user.py:33-36 | the count adds up over two parts of the table |
| `TokenManager.LegacyDecodeEncode` | models/saas_client_token_manager.py:79-87 | the legacy reader returns the user id and expiry that the legacy form was written from, and that form never contains `{` |
| `TokenManager.LegacyRoundTrip` | models/saas_client_token_manager.py:71-91 | `_parse_token_data` on the legacy form of user `u` and expiry `e` gives `u`, `e` and empty metadata, because the JSON decoder declines the text |
| `TokenManager.LegacyFieldsReadBothSides` | models/saas_client_token_manager.py:80-87 | an accepted legacy text is an integer text, one vertical bar, and another integer text |
| `TokenManager.Validate` | models/saas_client_token_manager.py:26-61 | each outcome is characterised both ways; see the note below the table |
| `TokenManager.ValidateToken` | models/saas_client_token_manager.py:19-61 | the method's result and its effect on the shared store are those of `Validate` |
| `TokenManager.LegacyTokenLifetime` | models/saas_client_token_manager.py:43-57 | a legacy token is valid up to and including its expiry second; after that it is expired and its key is removed |
| `TokenManager.DeleteToken` | models/saas_client_token_manager.py:94-106 | removes exactly the key and reports True |
| `TokenManager.Redeem` | models/saas_client_token_manager.py:210-251 | login outcomes and their effect on the token; see the note below the table |
| `TokenManager.ValidateAndLoginUser` | models/saas_client_token_manager.py:201-251 | the method's result and new store are those of `Redeem` |
| `TokenManager.RedeemConsumesExactly` | models/saas_client_token_manager.py:225-243 | the token disappears exactly on success, on an unknown user, or on expiry |
| `TokenManager.RedeemNoReplay` | models/saas_client_token_manager.py:242-243 | after a successful login, every later attempt with the token reports `not_found`, at any time and with any user table |
| `TokenManager.RedeemAfterExpiryFails` | models/saas_client_token_manager.py:43-48 | a token presented after its expiry never logs anyone in |
| `TokenManager.InactiveUserTokenStaysRedeemable` | models/saas_client_token_manager.py:234-240 | refusing an inactive user changes nothing, so the token logs the user in once the account is re-activated |
| `TokenManager.Cleanup` | models/saas_client_token_manager.py:122-157 | the sweep with the corrected key filter; see the note below the table |
| `TokenManager.CleanupExpiredTokens` | models/saas_client_token_manager.py:109-157 | the loop over the token records leaves the store and reports the counts that `Cleanup` specifies |
| `TokenManager.Stats` | models/saas_client_token_manager.py:172-194 | with the corrected key filter: `active + expired == total`, where `total` is the number of token records and `active` counts those with an expiry at or after `now` |
| `TokenManager.GetTokenStats` | models/saas_client_token_manager.py:164-194 | the counting loop returns `Stats` and leaves the store alone |
| `TokenManager.StatsAfterCleanup` | models/saas_client_token_manager.py:180-188 | right after a sweep, the only records counted as expired are those without an integer expiry; if there are none, `expired == 0` |
| `TokenManager.TokenKeysAreLikeSelected` | models/saas_client_token_manager.py:122-124 | the `like` filter as written selects every real token key |
| `TokenManager.LikeSelectsForeignKey` | models/saas_client_token_manager.py:122-124 | the `like` filter as written also selects `saas.auto.login.token.ttl`, which is not a token key, and the sweep would class the value `300` as unparsable |
| `TokenManager.StatsTotalAsWritten` | models/saas_client_token_manager.py:172-174 | `total` as written counts every key the `like` filter selects, which is never fewer than the token records |
| `TokenManager.StatsAsWrittenCountsForeignKey` | models/saas_client_token_manager.py:172-174 | the statistics as written count `saas.auto.login.token.ttl` as a token record, and the corrected ones do not |
| `TokenManager.CleanupAsWritten` | models/saas_client_token_manager.py:122-142 | the sweep as written removes every key the `like` filter selects whose value is expired or unparsable |
| `TokenManager.SweepAsWrittenDeletesForeignKey` | models/saas_client_token_manager.py:122-142 | the sweep as written deletes `saas.auto.login.token.ttl = 300`; the corrected sweep keeps it |
| `AutoLogin.HostNameIsPrefix` | models/saas_auto_login_client.py:28 | the database name is the host text before the first `:`, or all of it |
| `AutoLogin.AutoLoginStep` | models/saas_auto_login_client.py:28-85 | the controller's steps; see the note below the table |
| `AutoLogin.AutoLogin` | models/saas_auto_login_client.py:26-85 | the controller method's result and effect on the shared store are those of `AutoLoginStep` |
| `AutoLogin.AutoLoginConsumesExactly` | models/saas_auto_login_client.py:62-83 | the controller removes the token exactly on success and on expiry |
| `AutoLogin.AutoLoginNoReplay` | models/saas_auto_login_client.py:81-83 | after a successful login, the controller reports a token not found for every later attempt |
| `AutoLogin.PathsDivergeOnMissingUser` | models/saas_auto_login_client.py:69-73 | on a live legacy token whose user is missing, the token manager deletes the token and the controller keeps it |
| `AutoLogin.ControllerAcceptsShortTokens` | models/saas_auto_login_client.py:41-59 | the controller checks no token length: a short token with a live record logs in there, while the token manager reports `invalid_format` |
| `UserLimitControl.RemainingUsers` | models/user_limit_control.py:84-88 | `remaining_users` is never negative; it is 0 exactly when the limit is reached, and otherwise `current + remaining == max_users` |
| `UserLimitControl.CheckAgreesWithRemaining` | models/user_limit_control.py:88-94 | the check passes exactly when a slot remains |
| `UserLimitControl.FirstActive` | models/user_limit_control.py:158 | `search([], limit=1)` finds the first active record, and finds none exactly when no record is active |
| `UserLimitControl.ActiveCountPositive` | models/user_limit_control.py:102-103 | `search([])` finds something exactly when the count of active records is positive |
| `UserLimitControl.GetUserLimit` | models/user_limit_control.py:153-159 | returns the control record's `max_users`, or 1 without one |
| `UserLimitControl.CheckUserLimit` | models/user_limit_control.py:162-194 | returns True with no control record or below the limit; at or over the limit it returns False, or raises when `raise_exception` is set; each case both ways |
| `UserLimitControl.CreateAsWritten` | models/user_limit_control.py:96-117 | `create` as written fails exactly when a record already exists; otherwise it appends the whole batch |
| `UserLimitControl.BatchCreateBreaksSingleton` | models/user_limit_control.py:102-109 | one `create` call with two records on an empty table leaves two control records |
| `UserLimitControl.CreateSingleton` | models/user_limit_control.py:102-107 | the corrected `create` fails exactly when a record exists or the batch holds more than one record |
| `UserLimitControl.CreateSingletonKeepsOne` | models/user_limit_control.py:102-109 | a corrected `create` that succeeds started from no control record and leaves at most one |
| `UserLimitControl.LimitControlTable.Create` | models/user_limit_control.py:96-117 | the table changes as `CreateSingleton` says, and is unchanged on failure |
| `UserLimitControl.StripProtected` | models/user_limit_control.py:125-132 | the written vals are exactly the given ones without `name`, `active` and `company_id`, with their values unchanged |
| `UserLimitControl.WriteRecords` | models/user_limit_control.py:119-142 | `write` keeps every record's name, active flag and company; it sets `max_users` on the targets when given and leaves everything else alone |
| `UserLimitControl.WriteKeepsControl` | models/user_limit_control.py:125-134 | a write changes neither the number of control records nor which one `search` finds |
| `UserLimitControl.LimitControlTable.Write` | models/user_limit_control.py:119-142 | the loop that pops the protected fields leaves the stripped vals, and the table becomes `WriteRecords` |
| `UserLimitControl.LimitControlTable.Unlink` | models/user_limit_control.py:144-150 | `unlink` always raises and changes nothing |
| `UserLimitControl.UpdateLimitSetsLimit` | models/user_limit_control.py:208-221 | after `update_limit_from_saas(n)`, `get_user_limit()` returns `n` |
| `UserLimitControl.UpdateLimitLeavesOne` | models/user_limit_control.py:208-221 | from at most one control record, the update leaves exactly one |
| `UserLimitControl.LimitControlTable.UpdateLimitFromSaas` | models/user_limit_control.py:197-221 | returns True and either writes the control record or creates one |
| `ResUsers.InternalCountZero` | models/res_user.py:22-32 | a batch asks for no internal user exactly when every entry has `share` set to True |
| `ResUsers.CountInternalUsers` | models/res_user.py:22-26 | the counting loop returns the number of entries whose `share` is missing or false |
| `ResUsers.CreateCheck` | models/res_user.py:29-56 | `create` is refused exactly when the batch has internal users, a control record exists, and `current + adding > max_users`; the error carries these numbers |
| `ResUsers.NewUsersWithinCount` | models/res_user.py:64 | a batch adds no more active internal users than it asks for |
| `ResUsers.CreateNeverExceedsLimit` | models/res_user.py:29-64 | a create that goes through leaves the count within the limit, or unchanged |
| `ResUsers.ExactlyAtLimitAllowed` | models/res_user.py:38-40 | reaching exactly `max_users` is allowed |
| `ResUsers.UncheckedCreate` | models/res_user.py:29-32 | a batch of shared users only, or any batch without a control record, is created unchecked |
| `ResUsers.UserTable.Create` | models/res_user.py:15-64 | the method's outcome and new table are those of `CreateUsers` |
| `ResUsers.UserWrite` | models/res_user.py:66-89 | a write fails exactly when it sets `share` to False, a control record exists, and the count after the write exceeds `max_users`; a failure restores the table |
| `ResUsers.ConversionKeepsLimit` | models/res_user.py:73-87 | a conversion to internal that goes through leaves the count within the limit |
| `ResUsers.ReactivationCanExceedLimit` | models/res_user.py:72-73 | writes that do not set `share` to False are not checked: re-activating an archived user can exceed the limit |
| `ResUsers.UserTable.Write` | models/res_user.py:66-89 | the method writes first and rolls back a refused conversion; its outcome and table are those of `UserWrite` |
| `StorageGuard.QuotaCheck` | models/storage_management.py:19-53 | refuses exactly when the mode reads as exactly `true` and the quota text can be read, with that text or its default as the message; it fails open and never raises |
| `StorageGuard.BaseGuard` | models/storage_management.py:55-77 | create and write on a non-exempt model are refused exactly in read-only mode; the exempt models and `unlink` always proceed |
| `StorageGuard.MissingModeAllows` | models/storage_management.py:23-25 | with no mode parameter, nothing is refused |
| `StorageGuard.ModeIsCaseSensitive` | models/storage_management.py:25 | the value `True` does not switch on read-only mode |
| `StorageGuard.AttachmentGuard` | models/storage_management.py:84-101 | uploads are refused exactly in read-only mode; a failed config read raises |
| `StorageGuard.AttachmentCreateBlocksIff` | models/storage_management.py:84-101 | the chain of the attachment guard and the `base` guard refuses uploads exactly in read-only mode, always for the upload reason |
| `StorageGuard.AnyAttachments` | models/storage_management.py:116-117 | true exactly when some message in the batch has non-empty `attachment_ids` |
| `StorageGuard.MessageGuard` | models/storage_management.py:108-125 | the message guard refuses exactly in read-only mode when some message has attachments; a failed config read raises |
| `StorageGuard.TextMessageBlockedAsWritten` | models/storage_management.py:110-125 | in read-only mode, a text-only batch passes the message guard but is refused by the `base` guard behind it |
| `StorageGuard.BaseGuardFixed` | models/storage_management.py:55-63 | the corrected `base` guard leaves message creation to the message guard and agrees with `BaseGuard` everywhere else |
| `StorageGuard.MessageCreateBlocksIff` | models/storage_management.py:114-125 | with the corrected chain, read-only mode refuses exactly the batches with attachments, and text messages go through |

Notes on the longer contracts:
- `TokenManager.Validate`:
  - A token shorter than 32 characters gives `invalid_format`.
  - A missing or empty stored value gives `not_found`.
  - `expired` is given exactly when `now > expiry`, and then only that key is removed.
  - A valid result carries the stored user id, the prefixed key and the metadata, and leaves the store unchanged.
- `TokenManager.Redeem`:
  - A failed validation gives `ValidationFailed` with the same reason, and leaves the store that validation leaves.
  - For a valid token, the user it names decides the outcome. An unknown user gives `UserNotFound`. An inactive user gives `UserInactive`. An active user is logged in. Each case holds in both directions.
  - A success consumes the token, and the user logged in is the `user_id` stored with the token.
  - An unknown user also consumes the token.
  - An inactive user leaves the store unchanged.
- `TokenManager.Cleanup`:
  - A key stays exactly when it is not a token key, or its record is neither expired nor unparsable.
  - So every record whose expiry is at or after `now` is kept, and so is every record that parses but has no integer `expiry`.
  - `expired` is the number of expired records and `errors` the number of unparsable ones. Together they equal the number of keys removed.
  - `total` is the number of token records.
- `AutoLogin.AutoLoginStep`:
  - An empty database name is refused before the store is read.
  - An absent key, or a value that is not exactly two integers, is refused with the store unchanged.
  - A record past its expiry is refused exactly when `now > expiry`, and its key is removed.
  - For a live record, the stored user decides, in both directions. A missing user gives `NoSuchUser`, an inactive one `InactiveUser`, and an active one a success. The first two leave the token in place.
  - A success removes the token and gives the session the stored user id, that user's login, and the database name.

## Left out

- JSON decoding is the parameter `json`, not a model of `json.loads`.
- `TokenManager.Validate`: a JSON record whose `user_id` is not an integer is reported as `parse_error`. The source reports it as valid and fails later, when the user is looked up.
- `TokenManager.ParseTokenData`: a JSON `expiry` or `user_id` that is a float or a boolean counts as not an integer. Python would compare or use such a value.
- `Text.ParseInt` accepts ASCII white space (including the separators `\x1c` to `\x1f`) and ASCII digits only. Python's `int()` also accepts Unicode digits and white space.
- `TokenManager.Stats` counts only keys that start with the literal prefix. The source's filter at models/saas_client_token_manager.py:172-174 is the same `like` filter as the sweep's, so its `total` and `expired` also count foreign keys such as `saas.auto.login.token.ttl`. `TokenManager.StatsTotalAsWritten` gives the `total` as written.
- The outer `except` clauses that turn a failure of the whole sweep or of the statistics into zero counts are not modelled. Store reads and writes never fail in this model, except the config reads of the storage guard.
- `delete_token` reports False when the store raises. The model's store never raises, so `TokenManager.DeleteToken` always reports True.
- Sessions, cookies, the redirect, the fresh session token from `secrets`, and HTML error pages are not modelled. A successful controller login returns the uid, login and database the session would be given.
- Separate cursors, `cr.commit()`, and concurrent redemptions of one token across workers are not modelled. Each store operation is one atomic step.
- Logging, `SaasClientSecurityLog`, `_compute_display_name`, `action_view_users`, and the `_check_credentials` and `systray_get_activities` hooks are not modelled.
- `Users.ActiveInternalCount` counts over a sequence of users, not through Odoo's domain evaluation. Record rules and multi-company filtering on `search` are not modelled.
- `ResUsers.CountsAsInternal` reads `share` as a boolean or missing. Other falsy values are not modelled.
- `share` is taken from the vals as given. In Odoo, `share` is computed from the user's groups.
- `UserLimitControl.NewRecord` and `UserLimitControl.ApplyVals` take only values of the field's own type. The ORM's conversion of other values is not modelled.
- Writes on `ir.attachment` and `mail.message` go through `StorageGuard.BaseGuard` like every other model. They have no overrides of their own.

## Findings

| source | as written | input that shows it | evidently intended | confidence | as-written member | corrected member |
|---|---|---|---|---|---|---|
| models/saas_client_token_manager.py:122-124 | the filter `('key', 'like', 'saas_auto_login_token_%')`: Odoo wraps a `like` value in `%...%`, and each `_` is the SQL one-character wildcard | a parameter `saas.auto.login.token.ttl = 300` is selected, cannot be parsed as a token, and is deleted by the sweep | only keys that begin with the literal prefix `saas_auto_login_token_` are swept | not executed | `TokenManager.CleanupAsWritten`, `TokenManager.SweepAsWrittenDeletesForeignKey` | `TokenManager.Cleanup`, `TokenManager.TokenKeysAreLikeSelected` |
| models/saas_client_token_manager.py:172-174 | `get_token_stats` selects records with the same `like` filter | a parameter `saas.auto.login.token.ttl = 300` is counted in `total`, and as expired | `total` counts only keys that begin with the literal prefix | not executed | `TokenManager.StatsTotalAsWritten`, `TokenManager.StatsAsWrittenCountsForeignKey` | `TokenManager.Stats`, `TokenManager.TokenKeysAreLikeSelected` |
| models/user_limit_control.py:102-109 | `create` rejects only when a record already exists, then creates the whole batch | `create([{}, {}])` on an empty table creates two control records | at most one control record per database | not executed | `UserLimitControl.CreateAsWritten`, `UserLimitControl.BatchCreateBreaksSingleton` | `UserLimitControl.CreateSingleton`, `UserLimitControl.CreateSingletonKeepsOne` |
| models/storage_management.py:55-63 | the `mail.message` override passes a text-only batch on with `super().create`, which reaches the `base` override; that override does not exempt `mail.message`, so it refuses | `storage.readonly_mode = true`, and a message batch without `attachment_ids` is refused | in read-only mode, text messages can still be sent, and only messages with attachments are refused | not executed | `StorageGuard.MessageGuard`, `StorageGuard.TextMessageBlockedAsWritten` | `StorageGuard.BaseGuardFixed`, `StorageGuard.MessageCreateBlocksIff` |
