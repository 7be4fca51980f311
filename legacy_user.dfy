/**
 * The older revision of the user helpers (db_backend/user.py). Its permission check,
 * ban-line checks and anonymous user are those of `Users`; its `parse_permissions`
 * lacks the guard for an empty array and hands every input to the deserialiser.
 */
module LegacyUsers {
  import opened Wrappers
  import opened Users

  /** The older `parse_permissions`: always deserialises. */
  function LegacyPermissionsOf(text: string, loads: Deserializer): Option<map<string, set<int>>> {
    if loads(text).None? then None else Some(Parsed(loads(text).value))
  }

  method ParsePermissions(text: string, loads: Deserializer) returns (r: Option<map<string, set<int>>>)
    ensures r == LegacyPermissionsOf(text, loads)
  {
    var raw := loads(text);
    if raw.None? {
      return None;
    }
    var parsed := CollectPermissions(raw.value);
    return Some(parsed);
  }

  /** On a non-empty array both revisions agree. */
  lemma AgreesOnNonEmpty(text: string, loads: Deserializer)
    requires |text| > 0
    ensures LegacyPermissionsOf(text, loads) == PermissionsOf(text, loads)
  {
  }

  /**
   * On the empty array the older revision gives whatever the deserialiser makes of
   * it: it fails where the deserialiser rejects empty input, while the newer one
   * yields no permissions.
   */
  lemma EmptyArrayDiffers(loads: Deserializer)
    requires loads("").None?
    ensures LegacyPermissionsOf("", loads).None? && PermissionsOf("", loads) == Some(map[])
  {
  }
}
