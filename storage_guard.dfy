/** The storage read-only guard. When the config parameter
    `storage.readonly_mode` holds exactly "true", creating and writing records
    is refused, while deleting them stays allowed so that space can be freed.
    Three overrides decide:
    - the one on every model (`base`);
    - the one on `ir.attachment`, which refuses uploads;
    - the one on `mail.message`, which refuses messages that carry
      attachments.
    Each override delegates to the next one with `super()`. The model on
    `ir.attachment` and `mail.message` therefore runs its own guard first and
    then the `base` guard.

    A guard's decision is a value. Reading the config table may raise, for
    instance on a database error; the `failing` set of a `ConfigView` names
    the keys whose read raises. */
module StorageGuard {
  import opened Wrappers
  import opened ConfigStore

  const ModeKey: string := "storage.readonly_mode"
  const QuotaInfoKey: string := "storage.quota_info"
  const DefaultMode: string := "false"
  const DefaultQuotaInfo: string := "Storage quota exceeded. Contact administrator."

  /** Models the `base` guard never checks. */
  const ExemptModels: seq<string> := ["ir.config_parameter", "ir.logging", "bus.bus"]

  /** The config table as the guards read it. */
  datatype ConfigView = ConfigView(params: map<string, string>, failing: set<string>)

  datatype Operation = Create | Write | Unlink

  datatype BlockReason = ReadOnlyMode(quotaInfo: string) | UploadBlocked | AttachmentsBlocked

  /** Proceed to the next override, refuse with a UserError, or let another
      exception escape. */
  datatype Decision = Proceed | Blocked(reason: BlockReason) | Raised

  /** `ICP.get_param(key, default)`; None when the read raises. */
  function ReadParam(view: ConfigView, key: string, default: string): Option<string> {
    if key in view.failing then None else Some(GetParamOr(view.params, key, default))
  }

  /** The mode reads as exactly "true". A missing or empty parameter reads
      as "false". */
  predicate ReadOnly(view: ConfigView) {
    ModeKey !in view.failing && GetParamOr(view.params, ModeKey, DefaultMode) == "true"
  }

  // ---------------------------------------------------------------------
  // The guard on every model
  // ---------------------------------------------------------------------

  /** `_check_storage_quota_before_write`: refuses in read-only mode. It fails
      open: when a config read raises, the exception is logged and the
      operation goes on. */
  function QuotaCheck(view: ConfigView): (d: Decision)
    ensures d != Raised
    ensures d.Blocked? <==> ReadOnly(view) && QuotaInfoKey !in view.failing
    ensures d.Blocked? ==> d.reason == ReadOnlyMode(GetParamOr(view.params, QuotaInfoKey, DefaultQuotaInfo))
  {
    match ReadParam(view, ModeKey, DefaultMode)
    case None => Proceed
    case Some(mode) =>
      if mode == "true" then
        match ReadParam(view, QuotaInfoKey, DefaultQuotaInfo)
        case None => Proceed
        case Some(info) => Blocked(ReadOnlyMode(info))
      else Proceed
  }

  /** The `base` overrides of `create`, `write` and `unlink`. */
  function BaseGuard(op: Operation, model: string, view: ConfigView): (d: Decision)
    ensures d != Raised
    ensures d.Blocked? <==>
              op != Unlink && model !in ExemptModels && ReadOnly(view) && QuotaInfoKey !in view.failing
    ensures d.Blocked? ==> d.reason == ReadOnlyMode(GetParamOr(view.params, QuotaInfoKey, DefaultQuotaInfo))
  {
    if op == Unlink || model in ExemptModels then Proceed else QuotaCheck(view)
  }

  /** Without a mode parameter, nothing is blocked. */
  lemma MissingModeAllows(op: Operation, model: string, params: map<string, string>)
    requires ModeKey !in params
    ensures BaseGuard(op, model, ConfigView(params, {})) == Proceed
  {
  }

  /** The mode must be exactly "true": other spellings leave the database writable. */
  lemma ModeIsCaseSensitive(model: string)
    ensures BaseGuard(Create, model, ConfigView(map[ModeKey := "True"], {})) == Proceed
  {
    assert "True" != "true" by { assert "True"[0] != "true"[0]; }
  }

  // ---------------------------------------------------------------------
  // ir.attachment
  // ---------------------------------------------------------------------

  /** The `ir.attachment` override's own check. Its config read is not
      guarded, so a read that raises escapes. */
  function AttachmentGuard(view: ConfigView): (d: Decision)
    ensures d == Raised <==> ModeKey in view.failing
    ensures d.Blocked? <==> ReadOnly(view)
    ensures d.Blocked? ==> d.reason == UploadBlocked
  {
    match ReadParam(view, ModeKey, DefaultMode)
    case None => Raised
    case Some(mode) => if mode == "true" then Blocked(UploadBlocked) else Proceed
  }

  /** Creating attachments: the `ir.attachment` check, then the `base` one. */
  function AttachmentCreate(view: ConfigView): Decision {
    var d := AttachmentGuard(view);
    if d == Proceed then BaseGuard(Create, "ir.attachment", view) else d
  }

  /** Uploads are refused exactly in read-only mode, and always for the
      upload reason: the `base` check behind it never gets to refuse. */
  lemma AttachmentCreateBlocksIff(view: ConfigView)
    ensures AttachmentCreate(view).Blocked? <==> ReadOnly(view)
    ensures AttachmentCreate(view).Blocked? ==> AttachmentCreate(view).reason == UploadBlocked
    ensures AttachmentCreate(view) == Raised <==> ModeKey in view.failing
  {
  }

  // ---------------------------------------------------------------------
  // mail.message
  // ---------------------------------------------------------------------

  /** The part of a message's `vals` the guard reads: its `attachment_ids`
      commands, truthy when non-empty. */
  datatype MessageVals = MessageVals(body: string, attachmentIds: seq<int>)

  /** Some message of the batch carries attachments. */
  function AnyAttachments(batch: seq<MessageVals>): (b: bool)
    ensures b <==> exists i :: 0 <= i < |batch| && batch[i].attachmentIds != []
    decreases |batch|
  {
    if batch == [] then false
    else if batch[0].attachmentIds != [] then true
    else
      var rest := AnyAttachments(batch[1..]);
      assert rest <==> exists i :: 1 <= i < |batch| && batch[i].attachmentIds != [] by {
        if rest {
          var k :| 0 <= k < |batch[1..]| && batch[1..][k].attachmentIds != [];
          assert batch[k + 1] == batch[1..][k];
        }
        if exists i :: 1 <= i < |batch| && batch[i].attachmentIds != [] {
          var i :| 1 <= i < |batch| && batch[i].attachmentIds != [];
          assert batch[1..][i - 1] == batch[i];
        }
      }
      rest
  }

  /** The `mail.message` override's own check: in read-only mode, a batch
      with attachments is refused. Its config read is not guarded. */
  function MessageGuard(view: ConfigView, batch: seq<MessageVals>): (d: Decision)
    ensures d == Raised <==> ModeKey in view.failing
    ensures d.Blocked? <==> ReadOnly(view) && AnyAttachments(batch)
    ensures d.Blocked? ==> d.reason == AttachmentsBlocked
  {
    match ReadParam(view, ModeKey, DefaultMode)
    case None => Raised
    case Some(mode) => if mode == "true" && AnyAttachments(batch) then Blocked(AttachmentsBlocked) else Proceed
  }

  /** Creating messages as written: the message check, then the `base`
      check, which does not exempt `mail.message`. */
  function MessageCreateAsWritten(view: ConfigView, batch: seq<MessageVals>): Decision {
    var d := MessageGuard(view, batch);
    if d == Proceed then BaseGuard(Create, "mail.message", view) else d
  }

  /** In read-only mode a text-only message is refused too, by the `base`
      check, although the message check lets it through. */
  lemma TextMessageBlockedAsWritten(view: ConfigView, batch: seq<MessageVals>)
    requires ReadOnly(view) && QuotaInfoKey !in view.failing
    requires !AnyAttachments(batch)
    ensures MessageGuard(view, batch) == Proceed
    ensures MessageCreateAsWritten(view, batch) ==
            Blocked(ReadOnlyMode(GetParamOr(view.params, QuotaInfoKey, DefaultQuotaInfo)))
  {
    assert "mail.message" !in ExemptModels;
  }

  /** The `base` guard as intended: message creation is left to the
      `mail.message` check. */
  function BaseGuardFixed(op: Operation, model: string, view: ConfigView): (d: Decision)
    ensures op == Create && model == "mail.message" ==> d == Proceed
    ensures !(op == Create && model == "mail.message") ==> d == BaseGuard(op, model, view)
  {
    if op == Create && model == "mail.message" then Proceed else BaseGuard(op, model, view)
  }

  /** Creating messages as intended: the message check alone decides. */
  function MessageCreate(view: ConfigView, batch: seq<MessageVals>): Decision {
    var d := MessageGuard(view, batch);
    if d == Proceed then BaseGuardFixed(Create, "mail.message", view) else d
  }

  /** With the intended chain, read-only mode refuses exactly the batches
      that carry attachments, and text messages go through. */
  lemma MessageCreateBlocksIff(view: ConfigView, batch: seq<MessageVals>)
    ensures MessageCreate(view, batch).Blocked? <==> ReadOnly(view) && AnyAttachments(batch)
    ensures MessageCreate(view, batch) == Raised <==> ModeKey in view.failing
    ensures ModeKey !in view.failing && !AnyAttachments(batch) ==> MessageCreate(view, batch) == Proceed
  {
  }
}
