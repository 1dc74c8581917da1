/** The `res.users` overrides that enforce the user limit: `create` refuses a
    batch whose internal users would push the active internal count over
    `max_users`, and `write` undoes a conversion to internal user that leaves
    the count over it. A raised ValidationError rolls the transaction back,
    so a refused call leaves the user table as it was. */
module ResUsers {
  import opened Wrappers
  import opened Users
  import opened UserLimitControl

  /** The fields of a `vals` dictionary the guards read. */
  datatype UserVals = UserVals(name: string, login: string, share: Option<bool>, active: Option<bool>)

  /** The fields a `write` may set; None = not in `vals`. */
  datatype WriteVals = WriteVals(name: Option<string>, share: Option<bool>, active: Option<bool>)

  datatype UserError =
    | CreateLimitExceeded(maxUsers: int, current: nat, adding: nat, total: nat)
    | ConversionLimitExceeded(current: nat, maxUsers: int)

  /** The outcome of a call and the user table it leaves. */
  datatype Change = Change(outcome: Outcome<UserError>, users: seq<User>)

  // ---------------------------------------------------------------------
  // create
  // ---------------------------------------------------------------------

  /** `not vals.get('share', False)`: a missing or false `share` is internal. */
  predicate CountsAsInternal(vals: UserVals) {
    vals.share != Some(true)
  }

  /** The number of internal users a batch asks for. */
  function InternalCount(valsList: seq<UserVals>): (n: nat)
    ensures n <= |valsList|
    decreases |valsList|
  {
    if valsList == [] then 0
    else InternalCount(valsList[..|valsList| - 1]) + (if CountsAsInternal(valsList[|valsList| - 1]) then 1 else 0)
  }

  /** A batch asks for no internal user exactly when every entry is shared. */
  lemma {:induction false} InternalCountZero(valsList: seq<UserVals>)
    ensures InternalCount(valsList) == 0 <==> forall i :: 0 <= i < |valsList| ==> valsList[i].share == Some(true)
    decreases |valsList|
  {
    if valsList != [] {
      var init := valsList[..|valsList| - 1];
      InternalCountZero(init);
      if InternalCount(valsList) == 0 {
        forall i | 0 <= i < |valsList| ensures valsList[i].share == Some(true) {
          if i < |init| { assert valsList[i] == init[i]; }
        }
      }
    }
  }

  /** The loop in `create` that counts the batch's internal users. */
  method CountInternalUsers(valsList: seq<UserVals>) returns (n: nat)
    ensures n == InternalCount(valsList)
  {
    n := 0;
    for i := 0 to |valsList|
      invariant n == InternalCount(valsList[..i])
    {
      assert valsList[..i + 1][..i] == valsList[..i];
      if CountsAsInternal(valsList[i]) {
        n := n + 1;
      }
    }
    assert valsList[..|valsList|] == valsList;
  }

  /** The user a `vals` entry creates: internal and active unless told otherwise. */
  function NewUser(vals: UserVals): User {
    User(vals.name, vals.login, vals.active.GetOr(true), vals.share.GetOr(false))
  }

  function NewUsers(valsList: seq<UserVals>): (r: seq<User>)
    ensures |r| == |valsList|
  {
    seq(|valsList|, i requires 0 <= i < |valsList| => NewUser(valsList[i]))
  }

  /** The check `create` makes before creating the batch. */
  function CreateCheck(limits: seq<LimitRecord>, users: seq<User>, valsList: seq<UserVals>): (o: Outcome<UserError>)
    ensures o.Fail? <==>
              && InternalCount(valsList) > 0 && Control(limits).Some?
              && ActiveInternalCount(users) + InternalCount(valsList) > Control(limits).value.maxUsers
    ensures o.Fail? ==>
              o.error == CreateLimitExceeded(Control(limits).value.maxUsers, ActiveInternalCount(users),
                                             InternalCount(valsList), ActiveInternalCount(users) + InternalCount(valsList))
  {
    var adding := InternalCount(valsList);
    if adding > 0 then
      match Control(limits)
      case None => Pass
      case Some(control) =>
        var current := ActiveInternalCount(users);
        if current + adding > control.maxUsers then
          Fail(CreateLimitExceeded(control.maxUsers, current, adding, current + adding))
        else Pass
    else Pass
  }

  /** `create(vals_list)`: the batch is created when the check passes. */
  function CreateUsers(limits: seq<LimitRecord>, users: seq<User>, valsList: seq<UserVals>): Change {
    match CreateCheck(limits, users, valsList)
    case Pass => Change(Pass, users + NewUsers(valsList))
    case Fail(e) => Change(Fail(e), users)
  }

  /** A batch never adds more active internal users than it asks for. */
  lemma {:induction false} NewUsersWithinCount(valsList: seq<UserVals>)
    ensures ActiveInternalCount(NewUsers(valsList)) <= InternalCount(valsList)
    decreases |valsList|
  {
    if valsList != [] {
      var init := valsList[..|valsList| - 1];
      NewUsersWithinCount(init);
      assert NewUsers(valsList)[..|valsList| - 1] == NewUsers(init);
    }
  }

  /** A create that goes through never takes the active internal count past
      the limit, unless it was already past it and the batch adds none. */
  lemma CreateNeverExceedsLimit(limits: seq<LimitRecord>, users: seq<User>, valsList: seq<UserVals>)
    requires Control(limits).Some?
    requires CreateUsers(limits, users, valsList).outcome.Pass?
    ensures var after := ActiveInternalCount(CreateUsers(limits, users, valsList).users);
            after <= Control(limits).value.maxUsers || after == ActiveInternalCount(users)
  {
    ActiveInternalCountAppend(users, NewUsers(valsList));
    NewUsersWithinCount(valsList);
  }

  /** Reaching the limit exactly is allowed. */
  lemma ExactlyAtLimitAllowed(limits: seq<LimitRecord>, users: seq<User>, valsList: seq<UserVals>)
    requires Control(limits).Some?
    requires ActiveInternalCount(users) + InternalCount(valsList) == Control(limits).value.maxUsers
    ensures CreateUsers(limits, users, valsList) == Change(Pass, users + NewUsers(valsList))
  {
  }

  /** A batch of shared users only, or any batch without a control record,
      is created unchecked. */
  lemma UncheckedCreate(limits: seq<LimitRecord>, users: seq<User>, valsList: seq<UserVals>)
    requires Control(limits).None? || forall i :: 0 <= i < |valsList| ==> valsList[i].share == Some(true)
    ensures CreateUsers(limits, users, valsList) == Change(Pass, users + NewUsers(valsList))
  {
    InternalCountZero(valsList);
  }

  // ---------------------------------------------------------------------
  // write
  // ---------------------------------------------------------------------

  function ApplyUserVals(u: User, vals: WriteVals): User {
    User(vals.name.GetOr(u.name), u.login, vals.active.GetOr(u.active), vals.share.GetOr(u.share))
  }

  /** `super().write(vals)` on the users at `targets`. */
  function ApplyUserWrite(users: seq<User>, targets: set<nat>, vals: WriteVals): (r: seq<User>)
    ensures |r| == |users|
  {
    seq(|users|, i requires 0 <= i < |users| => if i in targets then ApplyUserVals(users[i], vals) else users[i])
  }

  /** `write(vals)`: the write happens first; only a write setting `share`
      to False is then checked, and a failed check undoes it. */
  function UserWrite(limits: seq<LimitRecord>, users: seq<User>, targets: set<nat>, vals: WriteVals): (c: Change)
    ensures c.outcome.Fail? <==>
              && vals.share == Some(false) && Control(limits).Some?
              && ActiveInternalCount(ApplyUserWrite(users, targets, vals)) > Control(limits).value.maxUsers
    ensures c.outcome.Fail? ==>
              && c.users == users
              && c.outcome.error == ConversionLimitExceeded(ActiveInternalCount(ApplyUserWrite(users, targets, vals)),
                                                            Control(limits).value.maxUsers)
    ensures c.outcome.Pass? ==> c.users == ApplyUserWrite(users, targets, vals)
  {
    var after := ApplyUserWrite(users, targets, vals);
    if vals.share == Some(false) then
      match Control(limits)
      case None => Change(Pass, after)
      case Some(control) =>
        var current := ActiveInternalCount(after);
        if current > control.maxUsers then Change(Fail(ConversionLimitExceeded(current, control.maxUsers)), users)
        else Change(Pass, after)
    else Change(Pass, after)
  }

  /** A conversion to internal that goes through leaves the count within the limit. */
  lemma ConversionKeepsLimit(limits: seq<LimitRecord>, users: seq<User>, targets: set<nat>, vals: WriteVals)
    requires vals.share == Some(false) && Control(limits).Some?
    requires UserWrite(limits, users, targets, vals).outcome.Pass?
    ensures ActiveInternalCount(UserWrite(limits, users, targets, vals).users) <= Control(limits).value.maxUsers
  {
  }

  /** Writes that do not set `share` to False are not checked: reactivating
      an archived internal user can take the count past the limit. */
  lemma ReactivationCanExceedLimit()
    ensures var limits := [LimitRecord(DefaultName, 0, true, 1)];
            var users := [User("a", "a", false, false)];
            var c := UserWrite(limits, users, {0}, WriteVals(None, None, Some(true)));
            c.outcome.Pass? && ActiveInternalCount(c.users) > Control(limits).value.maxUsers
  {
    var users := [User("a", "a", false, false)];
    var after := ApplyUserWrite(users, {0}, WriteVals(None, None, Some(true)));
    assert after == [User("a", "a", true, false)];
    assert after[..0] == [];
  }

  // ---------------------------------------------------------------------
  // The table
  // ---------------------------------------------------------------------

  class UserTable {
    var users: seq<User>

    constructor (initial: seq<User>)
      ensures users == initial
    {
      users := initial;
    }

    /** `create(vals_list)` against the limit records in `limits`. */
    method Create(limits: seq<LimitRecord>, valsList: seq<UserVals>) returns (o: Outcome<UserError>)
      modifies this
      ensures Change(o, users) == CreateUsers(limits, old(users), valsList)
    {
      var adding := CountInternalUsers(valsList);
      if adding > 0 {
        var control := Control(limits);
        if control.Some? {
          var current := ActiveInternalCount(users);
          var total := current + adding;
          if total > control.value.maxUsers {
            return Fail(CreateLimitExceeded(control.value.maxUsers, current, adding, total));
          }
        }
      }
      users := users + NewUsers(valsList);
      o := Pass;
    }

    /** `write(vals)` on the users at `targets`; a refused conversion is
        rolled back. */
    method Write(limits: seq<LimitRecord>, targets: set<nat>, vals: WriteVals) returns (o: Outcome<UserError>)
      modifies this
      ensures Change(o, users) == UserWrite(limits, old(users), targets, vals)
    {
      var before := users;
      users := ApplyUserWrite(users, targets, vals);
      if vals.share == Some(false) {
        var control := Control(limits);
        if control.Some? {
          var current := ActiveInternalCount(users);
          if current > control.value.maxUsers {
            users := before;
            return Fail(ConversionLimitExceeded(current, control.value.maxUsers));
          }
        }
      }
      o := Pass;
    }
  }
}
