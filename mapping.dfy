/**
 * The rules the database mapping adds on top of its tables
 * (db_backend/mapping/__init__.py): comma-separated id sets, forum read access,
 * the event window query, event recurrence and type names, a member's group
 * masks, password checks and bans.
 */
module Mapping {
  import opened Wrappers
  import opened Strings
  import opened Users

  // ---------------------------------------------------------------- id sets

  /**
   * The comprehension of `_split_set` over the comma pieces, left to right: the
   * `int()` of every non-empty piece; `None` stands for the `ValueError` of a
   * non-empty piece that is not an integer.
   */
  function ParsePieces(pieces: seq<string>): Option<set<int>> {
    if pieces == [] then Some({})
    else
      var init := ParsePieces(pieces[..|pieces| - 1]);
      var last := pieces[|pieces| - 1];
      if init.None? then None
      else if |last| == 0 then init
      else if ParseInt(last).None? then None
      else Some(init.value + {ParseInt(last).value})
  }

  /** `_split_set`. */
  function SplitSet(raw: string): Option<set<int>> {
    ParsePieces(Split(raw, ','))
  }

  /** The pieces parse exactly when every non-empty one is an integer. */
  lemma {:induction false} ParsePiecesDefined(pieces: seq<string>)
    ensures ParsePieces(pieces).Some? <==>
              forall i :: 0 <= i < |pieces| && |pieces[i]| > 0 ==> ParseInt(pieces[i]).Some?
  {
    if pieces != [] {
      var init := pieces[..|pieces| - 1];
      ParsePiecesDefined(init);
      assert forall i :: 0 <= i < |init| ==> init[i] == pieces[i];
    }
  }

  /** Parsed pieces give exactly the integers some piece reads as. */
  lemma {:induction false} ParsePiecesMembers(pieces: seq<string>, n: int)
    requires ParsePieces(pieces).Some?
    ensures n in ParsePieces(pieces).value <==>
              exists i :: 0 <= i < |pieces| && ParseInt(pieces[i]) == Some(n)
  {
    if pieces != [] {
      var init := pieces[..|pieces| - 1];
      var k := |pieces| - 1;
      ParsePiecesMembers(init, n);
      if exists i :: 0 <= i < |pieces| && ParseInt(pieces[i]) == Some(n) {
        var i :| 0 <= i < |pieces| && ParseInt(pieces[i]) == Some(n);
        if i < k {
          assert ParseInt(init[i]) == Some(n);
        }
      }
      if exists i :: 0 <= i < |init| && ParseInt(init[i]) == Some(n) {
        var i :| 0 <= i < |init| && ParseInt(init[i]) == Some(n);
        assert ParseInt(pieces[i]) == Some(n);
      }
    }
  }

  /**
   * Where `_split_set` succeeds it reads the same ids as the forgiving permission
   * parser: skipping empty pieces and skipping unparsable ones coincide.
   */
  lemma SplitSetIsMaskSet(raw: string)
    requires SplitSet(raw).Some?
    ensures SplitSet(raw).value == MaskSet(raw)
  {
    var pieces := Split(raw, ',');
    forall n
      ensures n in SplitSet(raw).value <==> n in MaskSet(raw)
    {
      ParsePiecesMembers(pieces, n);
      if n in MaskSet(raw) {
        var p :| p in pieces && ParseInt(p).Some? && ParseInt(p).value == n;
        var i :| 0 <= i < |pieces| && pieces[i] == p;
        assert ParseInt(pieces[i]) == Some(n);
      }
      if n in SplitSet(raw).value {
        var i :| 0 <= i < |pieces| && ParseInt(pieces[i]) == Some(n);
        assert pieces[i] in pieces;
      }
    }
  }

  /** `_split_set` fails exactly when a non-empty comma piece is not an integer. */
  lemma SplitSetFails(raw: string)
    ensures SplitSet(raw).None? <==>
              exists p :: p in Split(raw, ',') && |p| > 0 && ParseInt(p).None?
  {
    var pieces := Split(raw, ',');
    ParsePiecesDefined(pieces);
    if SplitSet(raw).None? {
      var i :| 0 <= i < |pieces| && |pieces[i]| > 0 && ParseInt(pieces[i]).None?;
      assert pieces[i] in pieces;
    }
  }

  /** An empty column holds no ids, and a single formatted id is read back. */
  lemma SplitSetSimple(n: int)
    ensures SplitSet("") == Some({})
    ensures SplitSet(IntToString(n)) == Some({n})
  {
    SplitNoSep("", ',');
    assert [""][..0] == [];
    var s := IntToString(n);
    assert ',' !in s;
    SplitNoSep(s, ',');
    ParseIntToString(n);
    assert |s| > 0;
    assert [s][..0] == [];
    assert ParsePieces([s]) == Some({} + {n});
    assert {} + {n} == {n};
  }

  // ---------------------------------------------------------------- forums

  /** `DbForums.can_read`: the forum's `read_perms` check. */
  method CanRead(perms: ForumPermissions, masks: seq<int>) returns (ok: bool)
    ensures ok <==> perms.Fulfilled(masks, PermRead)
  {
    ok := perms.IsFulfilled(masks, PermRead);
  }

  // ---------------------------------------------------------------- events

  /** The filter of `DbEvents.query_between` as written, on Unix timestamps. */
  predicate QueryBetweenAsWritten(evStart: int, evEnd: int, s: int, e: int) {
    (s <= evStart < e) || (s <= evEnd < e) || (evStart < s && evEnd > e)
  }

  /** An event that starts before the window and ends exactly at its end spans all of it, yet is not selected. */
  lemma SpanningEventMissed()
    ensures !QueryBetweenAsWritten(5, 20, 10, 20)
    ensures QueryBetween(5, 20, 10, 20)
  {
  }

  /** The filter with the covering case closed: an event ending at the window's end also spans it. */
  predicate QueryBetween(evStart: int, evEnd: int, s: int, e: int) {
    (s <= evStart < e) || (s <= evEnd < e) || (evStart < s && evEnd >= e)
  }

  /** The corrected filter selects exactly the events whose span meets the window `[s, e)`. */
  lemma QueryBetweenIsOverlap(evStart: int, evEnd: int, s: int, e: int)
    requires evStart <= evEnd && s <= e
    ensures QueryBetween(evStart, evEnd, s, e) <==> evStart < e && s <= evEnd
  {
  }

  /** The two filters differ only on events that start before the window and end exactly at its end. */
  lemma QueryBetweenDifference(evStart: int, evEnd: int, s: int, e: int)
    ensures QueryBetweenAsWritten(evStart, evEnd, s, e) ==> QueryBetween(evStart, evEnd, s, e)
    ensures QueryBetween(evStart, evEnd, s, e) && !QueryBetweenAsWritten(evStart, evEnd, s, e) <==>
              evStart < s && evEnd == e
  {
  }

  datatype Frequency = Daily | Weekly

  /** `recurrence_interval`: type 0 recurs daily, every other type weekly. */
  function RecurrenceInterval(eventType: int): (f: Frequency)
    ensures f == Daily <==> eventType == 0
  {
    if eventType == 0 then Daily else Weekly
  }

  /** `type_name` on the event's length in seconds (`end_date - start_date`). */
  function TypeName(eventType: int, length: int): (name: string)
    ensures eventType != 0 ==> name == "WEEKLY"
    ensures eventType == 0 && length < 86400 ==> name == "SINGLE"
    ensures eventType == 0 && length >= 86400 ==> name == "DAYLY"
  {
    if eventType != 0 then "WEEKLY"
    else if length < 86400 then "SINGLE"
    else "DAYLY"
  }

  /** The type name agrees with the recurrence: weekly exactly when named so, daily otherwise. */
  lemma TypeNameMatchesRecurrence(eventType: int, length: int)
    ensures TypeName(eventType, length) == "WEEKLY" <==> RecurrenceInterval(eventType) == Weekly
    ensures TypeName(eventType, length) == "SINGLE" <==> RecurrenceInterval(eventType) == Daily && length < 86400
  {
  }

  // ---------------------------------------------------------------- members

  /** `_split_set` of every row, in order. */
  function ParsedRows(rows: seq<string>): (r: seq<Option<set<int>>>)
    ensures |r| == |rows| && forall i :: 0 <= i < |rows| ==> r[i] == SplitSet(rows[i])
  {
    if rows == [] then [] else ParsedRows(rows[..|rows| - 1]) + [SplitSet(rows[|rows| - 1])]
  }

  /** The union of parsed id sets, left to right; `None` from the first that failed on. */
  function UnionOf(parsed: seq<Option<set<int>>>): Option<set<int>> {
    if parsed == [] then Some({})
    else
      var init := UnionOf(parsed[..|parsed| - 1]);
      var last := parsed[|parsed| - 1];
      if init.None? || last.None? then None else Some(init.value + last.value)
  }

  /** The union is defined exactly when every set is. */
  lemma {:induction false} UnionOfDefined(parsed: seq<Option<set<int>>>)
    ensures UnionOf(parsed).Some? <==> forall i :: 0 <= i < |parsed| ==> parsed[i].Some?
  {
    if parsed != [] {
      var init := parsed[..|parsed| - 1];
      UnionOfDefined(init);
      assert forall i :: 0 <= i < |init| ==> init[i] == parsed[i];
    }
  }

  /** A defined union holds exactly the ids of its sets. */
  lemma {:induction false} UnionOfMembers(parsed: seq<Option<set<int>>>, n: int)
    requires UnionOf(parsed).Some?
    ensures n in UnionOf(parsed).value <==>
              exists i :: 0 <= i < |parsed| && parsed[i].Some? && n in parsed[i].value
  {
    if parsed != [] {
      var init := parsed[..|parsed| - 1];
      var last := parsed[|parsed| - 1];
      UnionOfMembers(init, n);
      if n in UnionOf(parsed).value && n !in last.value {
        var i :| 0 <= i < |init| && init[i].Some? && n in init[i].value;
        assert parsed[i] == init[i];
      }
      if exists i :: 0 <= i < |parsed| && parsed[i].Some? && n in parsed[i].value {
        var i :| 0 <= i < |parsed| && parsed[i].Some? && n in parsed[i].value;
        if i < |init| {
          assert init[i] == parsed[i];
        }
      }
    }
  }

  /**
   * `group_permissions`: the primary group's masks, and when the member lists
   * secondary groups, the masks of every secondary group row as well.
   */
  function GroupPermissionsOf(primary: string, others: string, rows: seq<string>): Option<set<int>> {
    var own := SplitSet(primary);
    var ids := SplitSet(others);
    if own.None? || ids.None? then None
    else if |ids.value| == 0 then own
    else
      var more := UnionOf(ParsedRows(rows));
      if more.None? then None else Some(own.value + more.value)
  }

  /**
   * `DbMembers.group_permissions`; `rows` are the `g_perm_id` columns the query
   * returns for the secondary group ids.
   */
  method GroupPermissions(primary: string, others: string, rows: seq<string>) returns (r: Option<set<int>>)
    ensures r == GroupPermissionsOf(primary, others, rows)
  {
    var own := SplitSet(primary);
    if own.None? {
      return None;
    }
    var ids := SplitSet(others);
    if ids.None? {
      return None;
    }
    if |ids.value| == 0 {
      return own;
    }
    r := AddRows(own.value, rows);
  }

  /** The loop of `group_permissions`: `result.update(...)` for every secondary group row. */
  method AddRows(own: set<int>, rows: seq<string>) returns (r: Option<set<int>>)
    ensures var more := UnionOf(ParsedRows(rows));
            r == if more.None? then None else Some(own + more.value)
  {
    ghost var parsed := ParsedRows(rows);
    var result := own;
    for i := 0 to |rows|
      invariant UnionOf(parsed[..i]).Some?
      invariant result == own + UnionOf(parsed[..i]).value
    {
      var masks := SplitSet(rows[i]);
      assert parsed[..i + 1][..i] == parsed[..i];
      if masks.None? {
        UnionNoneExtends(parsed, i + 1);
        return None;
      }
      result := result + masks.value;
    }
    assert parsed[..|rows|] == parsed;
    return Some(result);
  }

  /** Once a prefix fails, the whole union fails. */
  lemma {:induction false} UnionNoneExtends(parsed: seq<Option<set<int>>>, k: nat)
    requires k <= |parsed| && UnionOf(parsed[..k]).None?
    ensures UnionOf(parsed).None?
    decreases |parsed| - k
  {
    if k < |parsed| {
      assert parsed[..k + 1][..k] == parsed[..k];
      UnionNoneExtends(parsed, k + 1);
    } else {
      assert parsed[..k] == parsed;
    }
  }

  /** A member's masks are exactly the primary group's and, with secondary groups, theirs. */
  lemma GroupPermissionsMembers(primary: string, others: string, rows: seq<string>, n: int)
    requires GroupPermissionsOf(primary, others, rows).Some?
    ensures n in GroupPermissionsOf(primary, others, rows).value <==>
              n in SplitSet(primary).value ||
              (|SplitSet(others).value| > 0 &&
               exists i :: 0 <= i < |rows| && SplitSet(rows[i]).Some? && n in SplitSet(rows[i]).value)
  {
    if |SplitSet(others).value| > 0 {
      var parsed := ParsedRows(rows);
      UnionOfMembers(parsed, n);
    }
  }

  /** A member with secondary groups has no masks at all when one group's column does not parse. */
  lemma GroupPermissionsFail(primary: string, others: string, rows: seq<string>, i: int)
    requires SplitSet(others).Some? && |SplitSet(others).value| > 0
    requires 0 <= i < |rows| && SplitSet(rows[i]).None?
    ensures GroupPermissionsOf(primary, others, rows).None?
  {
    UnionOfDefined(ParsedRows(rows));
  }

  /**
   * `password_valid`: without a stored hash no password is valid; otherwise the
   * salted hash of the password must equal it. `passhash` stands for `exma_passhash`.
   */
  function PasswordValid(referenceHash: Option<string>, salt: string, password: string,
                         passhash: (string, string) -> string): (ok: bool)
    ensures referenceHash.None? ==> !ok
    ensures ok <==> referenceHash == Some(passhash(password, salt))
  {
    if referenceHash.Some? then passhash(password, salt) == referenceHash.value else false
  }

  /**
   * `is_banned`: a ban line that passes the structural checks, whose parts convert
   * (`parse`, the timestamp conversion of `from_banline`), and whose ban is active
   * now (`isActive`, the clock comparison of `UserBan.is_active`).
   */
  function IsBanned<B>(tempBan: Option<string>, parse: seq<string> -> Option<B>, isActive: B -> bool): (r: bool)
    ensures BanParts(tempBan).None? ==> !r
    ensures r <==> BanParts(tempBan).Some? && parse(BanParts(tempBan).value).Some? &&
                   isActive(parse(BanParts(tempBan).value).value)
  {
    var parts := BanParts(tempBan);
    if parts.None? then false
    else
      var ban := parse(parts.value);
      ban.Some? && isActive(ban.value)
  }

  /** `DbMembers.authenticated`: a member is authenticated unless banned. */
  function Authenticated<B>(tempBan: Option<string>, parse: seq<string> -> Option<B>, isActive: B -> bool): (r: bool)
    ensures r <==> !IsBanned(tempBan, parse, isActive)
  {
    !IsBanned(tempBan, parse, isActive)
  }

  /** No ban line, or the line `"0"`, leaves a member authenticated whatever the clock says. */
  lemma UnbannedLines<B>(parse: seq<string> -> Option<B>, isActive: B -> bool)
    ensures Authenticated(None, parse, isActive)
    ensures Authenticated(Some("0"), parse, isActive)
  {
  }
}
