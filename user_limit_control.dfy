/** `saas.user.limit.control`: the record that holds the database's maximum
    number of internal users. The table is meant to hold a single record that
    can be updated but never deleted. Records are kept in id order, which is
    the order `search` returns them in; `search` only sees active records,
    because the model has an `active` field. */
module UserLimitControl {
  import opened Wrappers
  import opened Users

  /** A value in an ORM `vals` dictionary, as far as these fields use them. */
  datatype FieldValue = Text(text: string) | Number(number: int) | Flag(flag: bool)

  type Vals = map<string, FieldValue>

  datatype LimitRecord = LimitRecord(name: string, maxUsers: int, active: bool, companyId: int)

  datatype LimitError =
    | SingletonExists
    | DeletionForbidden
    | UserLimitReached(maxUsers: int, current: nat)

  const DefaultName: string := "User Limit Control"
  const DefaultMaxUsers: int := 1

  /** The fields `write` refuses to change. */
  const ProtectedFields: seq<string> := ["name", "active", "company_id"]

  // ---------------------------------------------------------------------
  // Computed fields
  // ---------------------------------------------------------------------

  /** `limit_reached`. */
  predicate LimitReached(current: nat, maxUsers: int) {
    current >= maxUsers
  }

  /** `remaining_users`: the free slots, never negative; none are left
      exactly when the limit is reached. */
  function RemainingUsers(current: nat, maxUsers: int): (r: nat)
    ensures r == 0 <==> LimitReached(current, maxUsers)
    ensures r > 0 ==> current + r == maxUsers
  {
    if maxUsers > current then maxUsers - current else 0
  }

  // ---------------------------------------------------------------------
  // search([], limit=1) and the number of records search([]) sees
  // ---------------------------------------------------------------------

  /** The position of the record `search([], limit=1)` returns. */
  function FirstActive(records: seq<LimitRecord>): (i: Option<nat>)
    ensures i.Some? ==> i.value < |records| && records[i.value].active
    ensures i.Some? ==> forall j :: 0 <= j < i.value ==> !records[j].active
    ensures i.None? <==> forall j :: 0 <= j < |records| ==> !records[j].active
    decreases |records|
  {
    if records == [] then None
    else if records[0].active then Some(0)
    else
      match FirstActive(records[1..])
      case None => None
      case Some(k) => Some(k + 1)
  }

  /** The control record, if any. */
  function Control(records: seq<LimitRecord>): Option<LimitRecord> {
    match FirstActive(records)
    case None => None
    case Some(i) => Some(records[i])
  }

  /** `search_count([])`: the active records. */
  function ActiveCount(records: seq<LimitRecord>): (n: nat)
    ensures n <= |records|
    decreases |records|
  {
    if records == [] then 0
    else ActiveCount(records[..|records| - 1]) + (if records[|records| - 1].active then 1 else 0)
  }

  lemma {:induction false} ActiveCountAppend(a: seq<LimitRecord>, b: seq<LimitRecord>)
    ensures ActiveCount(a + b) == ActiveCount(a) + ActiveCount(b)
    decreases |b|
  {
    if b == [] {
      assert a + b == a;
    } else {
      var b' := b[..|b| - 1];
      assert (a + b)[..|a + b| - 1] == a + b';
      ActiveCountAppend(a, b');
    }
  }

  /** `search([])` finds something exactly when some record is active. */
  lemma {:induction false} ActiveCountPositive(records: seq<LimitRecord>)
    ensures ActiveCount(records) > 0 <==> FirstActive(records).Some?
    decreases |records|
  {
    if records != [] {
      var init := records[..|records| - 1];
      ActiveCountPositive(init);
      if FirstActive(init).Some? {
        assert records[FirstActive(init).value].active;
      } else if records[|records| - 1].active {
        assert FirstActive(records).Some?;
      } else {
        assert forall j :: 0 <= j < |records| ==> !records[j].active by {
          forall j | 0 <= j < |records| ensures !records[j].active {
            if j < |init| { assert records[j] == init[j]; }
          }
        }
      }
    }
  }

  /** Two tables whose records agree on `active`, position by position,
      have the same number of active records. */
  lemma {:induction false} ActiveCountSameFlags(a: seq<LimitRecord>, b: seq<LimitRecord>)
    requires |a| == |b|
    requires forall i :: 0 <= i < |a| ==> a[i].active == b[i].active
    ensures ActiveCount(a) == ActiveCount(b)
    decreases |a|
  {
    if a != [] {
      ActiveCountSameFlags(a[..|a| - 1], b[..|b| - 1]);
    }
  }

  // ---------------------------------------------------------------------
  // get_user_limit and check_user_limit
  // ---------------------------------------------------------------------

  /** `get_user_limit()`: the control record's maximum, 1 without one. */
  function GetUserLimit(records: seq<LimitRecord>): (n: int)
    ensures FirstActive(records).None? ==> n == DefaultMaxUsers
    ensures FirstActive(records).Some? ==> n == records[FirstActive(records).value].maxUsers
  {
    match Control(records)
    case None => DefaultMaxUsers
    case Some(control) => control.maxUsers
  }

  /** `check_user_limit(raise_exception)`: True while a slot is free or no
      control record exists; at the limit, False or the error. */
  function CheckUserLimit(records: seq<LimitRecord>, users: seq<User>, raiseException: bool): (r: Result<bool, LimitError>)
    ensures r == Success(true) <==>
              Control(records).None? || ActiveInternalCount(users) < Control(records).value.maxUsers
    ensures r == Success(false) <==>
              Control(records).Some? && !raiseException
              && LimitReached(ActiveInternalCount(users), Control(records).value.maxUsers)
    ensures r.Failure? <==>
              Control(records).Some? && raiseException
              && LimitReached(ActiveInternalCount(users), Control(records).value.maxUsers)
    ensures r.Failure? ==> r.error == UserLimitReached(Control(records).value.maxUsers, ActiveInternalCount(users))
  {
    match Control(records)
    case None => Success(true)
    case Some(control) =>
      var current := ActiveInternalCount(users);
      if current >= control.maxUsers then
        if raiseException then Failure(UserLimitReached(control.maxUsers, current)) else Success(false)
      else Success(true)
  }

  /** The check and the displayed `remaining_users` agree: a check passes
      exactly when a slot remains. */
  lemma CheckAgreesWithRemaining(records: seq<LimitRecord>, users: seq<User>)
    requires Control(records).Some?
    ensures CheckUserLimit(records, users, false) == Success(true) <==>
            RemainingUsers(ActiveInternalCount(users), Control(records).value.maxUsers) > 0
  {
  }

  // ---------------------------------------------------------------------
  // create
  // ---------------------------------------------------------------------

  /** A new record from `vals` with the field defaults; the company defaults
      to the current one. */
  function NewRecord(vals: Vals, company: int): LimitRecord {
    LimitRecord(
      if "name" in vals && vals["name"].Text? then vals["name"].text else DefaultName,
      if "max_users" in vals && vals["max_users"].Number? then vals["max_users"].number else DefaultMaxUsers,
      if "active" in vals && vals["active"].Flag? then vals["active"].flag else true,
      if "company_id" in vals && vals["company_id"].Number? then vals["company_id"].number else company)
  }

  function NewRecords(valsList: seq<Vals>, company: int): (r: seq<LimitRecord>)
    ensures |r| == |valsList|
  {
    seq(|valsList|, i requires 0 <= i < |valsList| => NewRecord(valsList[i], company))
  }

  /** `create(vals_list)` as written: refused while a record exists, but a
      whole batch is created when none does. */
  function CreateAsWritten(records: seq<LimitRecord>, valsList: seq<Vals>, company: int): (r: Result<seq<LimitRecord>, LimitError>)
    ensures r.Failure? <==> FirstActive(records).Some?
    ensures r.Failure? ==> r.error == SingletonExists
    ensures r.Success? ==> r.value == records + NewRecords(valsList, company)
  {
    if FirstActive(records).Some? then Failure(SingletonExists)
    else Success(records + NewRecords(valsList, company))
  }

  /** One call with two default records on an empty table leaves two
      control records. */
  lemma BatchCreateBreaksSingleton(company: int)
    ensures var r := CreateAsWritten([], [map[], map[]], company);
            r.Success? && ActiveCount(r.value) == 2
  {
    var r := CreateAsWritten([], [map[], map[]], company);
    assert r.value == [NewRecord(map[], company), NewRecord(map[], company)];
    assert r.value[..1] == [NewRecord(map[], company)];
  }

  /** `create(vals_list)` as intended: at most one record, ever. A batch of
      more than one record is refused like a second record. */
  function CreateSingleton(records: seq<LimitRecord>, valsList: seq<Vals>, company: int): (r: Result<seq<LimitRecord>, LimitError>)
    ensures r.Failure? <==> FirstActive(records).Some? || |valsList| > 1
    ensures r.Failure? ==> r.error == SingletonExists
    ensures r.Success? ==> r.value == records + NewRecords(valsList, company)
  {
    if FirstActive(records).Some? || |valsList| > 1 then Failure(SingletonExists)
    else Success(records + NewRecords(valsList, company))
  }

  /** The intended create never leaves more than one control record. */
  lemma CreateSingletonKeepsOne(records: seq<LimitRecord>, valsList: seq<Vals>, company: int)
    ensures var r := CreateSingleton(records, valsList, company);
            r.Success? ==> ActiveCount(records) == 0 && ActiveCount(r.value) <= 1
  {
    var r := CreateSingleton(records, valsList, company);
    if r.Success? {
      ActiveCountPositive(records);
      ActiveCountAppend(records, NewRecords(valsList, company));
    }
  }

  // ---------------------------------------------------------------------
  // write
  // ---------------------------------------------------------------------

  /** The `vals` left once the protected fields are popped. */
  function StripProtected(vals: Vals): (kept: Vals)
    ensures forall k :: k in kept <==> k in vals && k !in ProtectedFields
    ensures forall k :: k in kept ==> kept[k] == vals[k]
  {
    map k | k in vals && k !in ProtectedFields :: vals[k]
  }

  function ApplyVals(rec: LimitRecord, vals: Vals): LimitRecord {
    LimitRecord(
      if "name" in vals && vals["name"].Text? then vals["name"].text else rec.name,
      if "max_users" in vals && vals["max_users"].Number? then vals["max_users"].number else rec.maxUsers,
      if "active" in vals && vals["active"].Flag? then vals["active"].flag else rec.active,
      if "company_id" in vals && vals["company_id"].Number? then vals["company_id"].number else rec.companyId)
  }

  /** `super().write(vals)` on the records at `targets`. */
  function ApplyWrite(records: seq<LimitRecord>, targets: set<nat>, vals: Vals): (r: seq<LimitRecord>)
    ensures |r| == |records|
  {
    seq(|records|, i requires 0 <= i < |records| => if i in targets then ApplyVals(records[i], vals) else records[i])
  }

  /** `write(vals)` on the records at `targets`: only `max_users` can change;
      name, active flag and company stay as they were on every record. */
  function WriteRecords(records: seq<LimitRecord>, targets: set<nat>, vals: Vals): (r: seq<LimitRecord>)
    ensures |r| == |records|
    ensures forall i :: 0 <= i < |r| ==>
              r[i].name == records[i].name && r[i].active == records[i].active
              && r[i].companyId == records[i].companyId
    ensures forall i :: 0 <= i < |r| ==>
              r[i].maxUsers ==
                if i in targets && "max_users" in vals && vals["max_users"].Number?
                then vals["max_users"].number else records[i].maxUsers
  {
    ApplyWrite(records, targets, StripProtected(vals))
  }

  /** A write neither adds nor removes a control record, nor changes which
      one `search` finds. */
  lemma WriteKeepsControl(records: seq<LimitRecord>, targets: set<nat>, vals: Vals)
    ensures ActiveCount(WriteRecords(records, targets, vals)) == ActiveCount(records)
    ensures FirstActive(WriteRecords(records, targets, vals)) == FirstActive(records)
  {
    var r := WriteRecords(records, targets, vals);
    ActiveCountSameFlags(records, r);
    FirstActiveSameFlags(records, r);
  }

  lemma {:induction false} FirstActiveSameFlags(a: seq<LimitRecord>, b: seq<LimitRecord>)
    requires |a| == |b|
    requires forall i :: 0 <= i < |a| ==> a[i].active == b[i].active
    ensures FirstActive(a) == FirstActive(b)
    decreases |a|
  {
    if a != [] && !a[0].active {
      FirstActiveSameFlags(a[1..], b[1..]);
    }
  }

  // ---------------------------------------------------------------------
  // update_limit_from_saas
  // ---------------------------------------------------------------------

  /** The vals `update_limit_from_saas` creates a missing record with. */
  function SaasCreateVals(n: int): Vals {
    map["name" := Text(DefaultName), "max_users" := Number(n)]
  }

  /** `update_limit_from_saas(n)`: writes the limit on the control record,
      or creates one carrying it. */
  function UpdateLimit(records: seq<LimitRecord>, n: int, company: int): seq<LimitRecord> {
    match FirstActive(records)
    case None => CreateSingleton(records, [SaasCreateVals(n)], company).value
    case Some(i) => WriteRecords(records, {i}, map["max_users" := Number(n)])
  }

  /** After the update the limit in force is the new one. */
  lemma UpdateLimitSetsLimit(records: seq<LimitRecord>, n: int, company: int)
    ensures GetUserLimit(UpdateLimit(records, n, company)) == n
  {
    var r := UpdateLimit(records, n, company);
    if FirstActive(records).None? {
      assert r == records + [NewRecord(SaasCreateVals(n), company)];
      assert r[|records|].active;
      assert forall j :: 0 <= j < |records| ==> r[j] == records[j];
    } else {
      WriteKeepsControl(records, {FirstActive(records).value}, map["max_users" := Number(n)]);
    }
  }

  /** From a table with at most one control record, the update leaves
      exactly one. */
  lemma UpdateLimitLeavesOne(records: seq<LimitRecord>, n: int, company: int)
    requires ActiveCount(records) <= 1
    ensures ActiveCount(UpdateLimit(records, n, company)) == 1
  {
    ActiveCountPositive(records);
    if FirstActive(records).None? {
      var added := NewRecords([SaasCreateVals(n)], company);
      ActiveCountAppend(records, added);
      assert added[..0] == [];
    } else {
      WriteKeepsControl(records, {FirstActive(records).value}, map["max_users" := Number(n)]);
    }
  }

  // ---------------------------------------------------------------------
  // The table
  // ---------------------------------------------------------------------

  class LimitControlTable {
    var records: seq<LimitRecord>

    constructor (initial: seq<LimitRecord>)
      ensures records == initial
    {
      records := initial;
    }

    /** `create(vals_list)`, with the singleton rule applied to the batch. */
    method Create(valsList: seq<Vals>, company: int) returns (o: Outcome<LimitError>)
      modifies this
      ensures var r := CreateSingleton(old(records), valsList, company);
              && (r.Success? ==> o == Pass && records == r.value)
              && (r.Failure? ==> o == Fail(r.error) && records == old(records))
    {
      if FirstActive(records).Some? || |valsList| > 1 {
        return Fail(SingletonExists);
      }
      records := records + NewRecords(valsList, company);
      o := Pass;
    }

    /** `write(vals)`: pops the protected fields, then writes the rest.
        Returns the vals actually written. */
    method Write(targets: set<nat>, vals: Vals) returns (kept: Vals)
      modifies this
      ensures kept == StripProtected(vals)
      ensures records == WriteRecords(old(records), targets, vals)
    {
      kept := vals;
      for i := 0 to |ProtectedFields|
        invariant forall k :: k in kept <==> k in vals && k !in ProtectedFields[..i]
        invariant forall k :: k in kept ==> kept[k] == vals[k]
      {
        var field := ProtectedFields[i];
        if field in kept && field != "max_users" {
          kept := kept - {field};
        }
      }
      assert ProtectedFields[..|ProtectedFields|] == ProtectedFields;
      assert kept == StripProtected(vals);
      records := ApplyWrite(records, targets, kept);
    }

    /** `unlink()`: always refused, so the table keeps every record. */
    method Unlink(targets: set<nat>) returns (o: Outcome<LimitError>)
      ensures o == Fail(DeletionForbidden)
    {
      o := Fail(DeletionForbidden);
    }

    /** `update_limit_from_saas(n)`: always reports success. */
    method UpdateLimitFromSaas(n: int, company: int) returns (ok: bool)
      modifies this
      ensures ok
      ensures records == UpdateLimit(old(records), n, company)
    {
      var control := FirstActive(records);
      if control.None? {
        var o := Create([SaasCreateVals(n)], company);
      } else {
        var kept := Write({control.value}, map["max_users" := Number(n)]);
      }
      ok := true;
    }
  }
}
