/**
 * Forum permissions, temporary bans and the anonymous API user
 * (db_backend/utils/user.py). A forum's permission array is a PHP-serialised
 * associative array from permission type to a comma-separated list of mask ids;
 * a user may do something when one of its masks is listed for that type.
 */
module Users {
  import opened Wrappers
  import opened Strings

  /** `GUEST_MASK`: the masks of a user who is not logged in. */
  const GuestMask: seq<int> := [2]

  const PermRead: string := "read_perms"
  const PermReply: string := "reply_perms"
  const PermStart: string := "start_perms"
  const PermUpload: string := "upload_perms"
  const PermShow: string := "show_perms"

  /** The deserialised permission array: each type's comma list, or PHP null. */
  type RawPermissions = map<string, Option<string>>

  /** `phpserialize.loads`; `None` stands for the exception it raises on bad input. */
  type Deserializer = string -> Option<RawPermissions>

  // ---------------------------------------------------------------- parsing

  /** The mask ids a comma list holds: every piece that `int()` accepts. */
  function MaskSet(list: string): set<int> {
    set piece | piece in Split(list, ',') && ParseInt(piece).Some? :: ParseInt(piece).value
  }

  /** Each permission type with its mask ids; a null list gives no ids. */
  function Parsed(raw: RawPermissions): map<string, set<int>> {
    map t | t in raw :: if raw[t].None? then {} else MaskSet(raw[t].value)
  }

  /** `parse_permissions`: empty input is no permissions at all, without deserialising. */
  function PermissionsOf(text: string, loads: Deserializer): Option<map<string, set<int>>> {
    if |text| == 0 then Some(map[])
    else if loads(text).None? then None
    else Some(Parsed(loads(text).value))
  }

  /** The inner loop: `int()` of every comma piece, skipping those it rejects. */
  method CollectMasks(list: string) returns (masks: set<int>)
    ensures masks == MaskSet(list)
  {
    var pieces := Split(list, ',');
    masks := {};
    for i := 0 to |pieces|
      invariant masks == set piece | piece in pieces[..i] && ParseInt(piece).Some? :: ParseInt(piece).value
    {
      var n := ParseInt(pieces[i]);
      if n.Some? {
        masks := masks + {n.value};
      }
      assert pieces[..i + 1] == pieces[..i] + [pieces[i]];
    }
    assert pieces[..|pieces|] == pieces;
  }

  /** The outer loop: one entry per permission type of the deserialised array. */
  method CollectPermissions(raw: RawPermissions) returns (parsed: map<string, set<int>>)
    ensures parsed == Parsed(raw)
  {
    parsed := map[];
    var todo := raw.Keys;
    while todo != {}
      invariant todo <= raw.Keys
      invariant parsed.Keys == raw.Keys - todo
      invariant forall t :: t in parsed ==> parsed[t] == Parsed(raw)[t]
      decreases todo
    {
      var t :| t in todo;
      var masks: set<int> := {};
      if raw[t].Some? {
        masks := CollectMasks(raw[t].value);
      }
      parsed := parsed[t := masks];
      todo := todo - {t};
    }
  }

  /** `parse_permissions(permission_array)`; `None` when deserialising raises. */
  method ParsePermissions(text: string, loads: Deserializer) returns (r: Option<map<string, set<int>>>)
    ensures r == PermissionsOf(text, loads)
  {
    if |text| == 0 {
      return Some(map[]);
    }
    var raw := loads(text);
    if raw.None? {
      return None;
    }
    var parsed := CollectPermissions(raw.value);
    return Some(parsed);
  }

  /** An empty permission array grants nothing, whatever the deserialiser would do. */
  lemma EmptyArrayHasNoPermissions(loads: Deserializer)
    ensures PermissionsOf("", loads) == Some(map[])
  {
  }

  /** Every type of the array is present; a null list has no ids. */
  lemma ParsedKeepsTypes(raw: RawPermissions, t: string)
    ensures t in Parsed(raw) <==> t in raw
    ensures t in raw && raw[t].None? ==> Parsed(raw)[t] == {}
  {
  }

  /** An empty list, as in `s:0:""`, holds no ids. */
  lemma EmptyListNoMasks()
    ensures MaskSet("") == {}
  {
    SplitNoSep("", ',');
  }

  /** One more comma piece adds its value when `int()` accepts it, and nothing otherwise. */
  lemma MaskSetAppend(list: string, piece: string)
    requires ',' !in piece
    ensures MaskSet(list + [','] + piece) ==
              MaskSet(list) + (if ParseInt(piece).Some? then {ParseInt(piece).value} else {})
  {
    SplitAppendLast(list, piece, ',');
    var pieces := Split(list, ',') + [piece];
    assert forall p :: p in pieces <==> p in Split(list, ',') || p == piece;
  }

  /** A single formatted id is read back as itself. */
  lemma MaskSetOfOne(n: int)
    ensures MaskSet(IntToString(n)) == {n}
  {
    var s := IntToString(n);
    assert ',' !in s;
    SplitNoSep(s, ',');
    ParseIntToString(n);
  }

  // ---------------------------------------------------------------- checking

  /** A parsed permission array. */
  datatype ForumPermissions = ForumPermissions(permissions: map<string, set<int>>) {

    /** Some given mask is listed for the permission type; an unknown type grants nothing. */
    predicate Fulfilled(masks: seq<int>, permissionType: string) {
      permissionType in permissions &&
      exists i :: 0 <= i < |masks| && masks[i] in permissions[permissionType]
    }

    /** `is_fulfilled`: scans the masks and stops at the first one listed. */
    method IsFulfilled(masks: seq<int>, permissionType: string) returns (ok: bool)
      ensures ok <==> Fulfilled(masks, permissionType)
    {
      if permissionType !in permissions {
        return false;
      }
      var perms := permissions[permissionType];
      for i := 0 to |masks|
        invariant forall j :: 0 <= j < i ==> masks[j] !in perms
      {
        if masks[i] in perms {
          return true;
        }
      }
      assert !exists i :: 0 <= i < |masks| && masks[i] in perms;
      return false;
    }
  }

  /** Checking against two mask lists at once is checking against either. */
  lemma FulfilledConcat(p: ForumPermissions, a: seq<int>, b: seq<int>, t: string)
    ensures p.Fulfilled(a + b, t) <==> p.Fulfilled(a, t) || p.Fulfilled(b, t)
  {
    if p.Fulfilled(a + b, t) {
      var i :| 0 <= i < |a + b| && (a + b)[i] in p.permissions[t];
      if i >= |a| {
        assert b[i - |a|] == (a + b)[i];
      }
    }
    if p.Fulfilled(a, t) {
      var i :| 0 <= i < |a| && a[i] in p.permissions[t];
      assert (a + b)[i] == a[i];
    }
    if p.Fulfilled(b, t) {
      var i :| 0 <= i < |b| && b[i] in p.permissions[t];
      assert (a + b)[|a| + i] == b[i];
    }
  }

  /** No masks, or a type the array does not have, never grants anything. */
  lemma NothingGrantsNothing(p: ForumPermissions, masks: seq<int>, t: string)
    ensures !p.Fulfilled([], t)
    ensures t !in p.permissions ==> !p.Fulfilled(masks, t)
  {
  }

  // ---------------------------------------------------------------- bans

  /**
   * The structural checks of `UserBan.from_banline`: no line, the line `"0"`, and a
   * line that does not split into exactly four `:`-separated parts carry no ban;
   * otherwise the four parts are returned.
   */
  function BanParts(line: Option<string>): (r: Option<seq<string>>)
    ensures line.None? || line == Some("0") ==> r.None?
    ensures line.Some? && |Split(line.value, ':')| != 4 ==> r.None?
    ensures r.Some? ==> |r.value| == 4 && Join(r.value, ":") == line.value
    ensures r.Some? ==> forall i :: 0 <= i < 4 ==> ':' !in r.value[i]
  {
    if line.None? || line.value == "0" then None
    else
      var parts := Split(line.value, ':');
      if |parts| == 4 then Some(parts) else None
  }

  /** A line built from four colon-free parts is accepted with exactly those parts. */
  lemma BanPartsOfLine(start: string, end: string, duration: string, unit: string)
    requires ':' !in start && ':' !in end && ':' !in duration && ':' !in unit
    ensures BanParts(Some(start + ":" + end + ":" + duration + ":" + unit)) == Some([start, end, duration, unit])
  {
    var parts := [start, end, duration, unit];
    var line := start + ":" + end + ":" + duration + ":" + unit;
    assert [end, duration, unit][1..] == [duration, unit];
    assert [duration, unit][1..] == [unit];
    assert Join([duration, unit], ":") == duration + ":" + unit;
    assert Join([end, duration, unit], ":") == end + ":" + (duration + ":" + unit);
    assert parts[1..] == [end, duration, unit];
    assert Join(parts, ":") == line;
    SplitJoin(parts, ':');
    assert |line| >= 3;
  }

  // ---------------------------------------------------------------- guests

  /** The anonymous user of the API. */
  datatype ApiUser = ApiUser {
    /** `authenticated()`: an anonymous user never is. */
    function Authenticated(): (r: bool)
      ensures !r
    {
      false
    }

    /** `perm_masks`: the guest masks. */
    function PermMasks(): (r: seq<int>)
      ensures r == GuestMask
    {
      GuestMask
    }
  }

  /** A guest may do exactly what mask 2 may do. */
  lemma GuestPermission(u: ApiUser, p: ForumPermissions, t: string)
    ensures p.Fulfilled(u.PermMasks(), t) <==> t in p.permissions && 2 in p.permissions[t]
  {
    if t in p.permissions && 2 in p.permissions[t] {
      assert u.PermMasks()[0] == 2;
    }
  }
}
