/** Odoo's `ir.config_parameter` table: a key -> text store shared by the
    token manager, the login controller and the storage guard. */
module ConfigStore {
  import opened Wrappers

  /** `get_param(key)`: Odoo returns the stored value `or` the default, so a
      missing key and an empty stored text both read as absent. */
  function GetParam(params: map<string, string>, key: string): (v: Option<string>)
    ensures v.Some? <==> key in params && params[key] != ""
    ensures v.Some? ==> v.value == params[key]
  {
    if key in params && params[key] != "" then Some(params[key]) else None
  }

  /** `get_param(key, default)`. */
  function GetParamOr(params: map<string, string>, key: string, default: string): string {
    GetParam(params, key).GetOr(default)
  }

  /** Read after `set_param(key, False)`: the removed key reads as absent,
      with or without a default, and every other key reads as before. */
  lemma ReadAfterUnset(params: map<string, string>, key: string, other: string, default: string)
    ensures GetParam(params - {key}, key).None?
    ensures GetParamOr(params - {key}, key, default) == default
    ensures other != key ==> GetParam(params - {key}, other) == GetParam(params, other)
  {
  }

  /** A stored non-empty value reads back as itself whatever the default. */
  lemma ReadStored(params: map<string, string>, key: string, value: string, default: string)
    requires value != ""
    ensures GetParamOr(params[key := value], key, default) == value
  {
  }

  class ConfigParameters {
    var params: map<string, string>

    constructor (initial: map<string, string>)
      ensures params == initial
    {
      params := initial;
    }

    /** `set_param(key, False)`: Odoo unlinks the parameter when the new
        value is False; a missing key is left missing. */
    method Unset(key: string)
      modifies this
      ensures params == old(params) - {key}
    {
      params := params - {key};
    }
  }
}
