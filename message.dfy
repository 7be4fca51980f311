/**
 * A member's private-message folders (db_backend/utils/message.py). The folder list
 * is stored in the `vdirs` column of `member_extra` as `id:name;count` entries joined
 * by `|`. `DirList` parses that text into an insertion-ordered dictionary of
 * `VirtualDir` objects and hands out fresh `dir_N` identifiers for new folders.
 */
module Messages {
  import opened Wrappers
  import opened Strings

  /** `DirList.vdir_template`: the folders of a member who has none stored. */
  const Template: string := "in:Inbox;0|sent:Sent Items;0"

  /** Identifiers of folders the member created start with this prefix. */
  const CustomPrefix: string := "dir_"

  /** The attributes a `VirtualDir` exposes as properties. */
  const AttributeNames: set<string> := {"name", "message_count", "identifier"}

  /** One folder as stored: identifier, display name and optional message count. */
  datatype Entry = Entry(identifier: string, name: string, messageCount: Option<int>)

  /** The ValueErrors the parser raises. */
  datatype ParseError =
    | MissingColon(entry: string)          // unpacking a `split(":", 1)` with one piece
    | BadCount(text: string)               // `int()` of the text after the last `;`
    | BadCustomNumber(identifier: string)  // `int()` of the last `_` piece of a `dir_` id

  /**
   * What the parsing loop builds: the identifiers in insertion order, the folder per
   * identifier and `_max_custom`.
   */
  datatype Listing = Listing(order: seq<string>, dirs: map<string, Entry>, maxCustom: int)

  /** The text actually parsed: a missing or empty column falls back to the template. */
  function EffectiveText(vdirs: Option<string>): string {
    if vdirs.None? || |vdirs.value| == 0 then Template else vdirs.value
  }

  // ---------------------------------------------------------------- one entry

  /**
   * One `|`-separated entry: the identifier runs up to the first `:`, the rest is
   * read by `ParseTail`.
   */
  function ParseEntry(piece: string): (r: Result<Entry, ParseError>)
    ensures ':' !in piece <==> r == Err(MissingColon(piece))
    ensures r.Ok? ==> ':' !in r.value.identifier && piece == r.value.identifier + [':'] + SplitFirst(piece, ':').1
  {
    if ':' !in piece then Err(MissingColon(piece))
    else
      var (identifier, tail) := SplitFirst(piece, ':');
      match ParseTail(tail)
      case Err(err) => Err(err)
      case Ok((name, count)) => Ok(Entry(identifier, name, count))
  }

  /**
   * The text after the identifier: when it holds a `;`, the count is the integer
   * after the last `;` and the name everything before it; otherwise it is the name
   * and there is no count.
   */
  function ParseTail(tail: string): (r: Result<(string, Option<int>), ParseError>)
    ensures ';' !in tail <==> r == Ok((tail, None))
  {
    if ';' in tail then
      var pieces := Split(tail, ';');
      var count := pieces[|pieces| - 1];
      match ParseInt(count)
      case None => Err(BadCount(count))
      case Some(n) => Ok((Join(pieces[..|pieces| - 1], ";"), Some(n)))
    else Ok((tail, None))
  }

  /**
   * A tail read with a count is the name, `;` and a `;`-free text that reads as
   * the count.
   */
  lemma ParseTailCounted(tail: string)
    requires ParseTail(tail).Ok? && ParseTail(tail).value.1.Some?
    ensures var (name, count) := ParseTail(tail).value;
            var k := |name| + 1;
            k <= |tail| && tail[..k] == name + [';'] && ';' !in tail[k..] && ParseInt(tail[k..]) == count
  {
    var pieces := Split(tail, ';');
    var name := Join(pieces[..|pieces| - 1], ";");
    var text := pieces[|pieces| - 1];
    assert ParseTail(tail).value == (name, ParseInt(text));
    SplitSeveral(tail, ';');
    JoinLast(pieces, ";");
    assert ";" == [';'];
    assert tail == name + [';'] + text;
    assert ';' !in text;
    assert tail[..|name| + 1] == name + [';'];
    assert tail[|name| + 1..] == text;
  }

  /** A text holding the separator splits into at least two pieces. */
  lemma SplitSeveral(s: string, sep: char)
    requires sep in s
    ensures |Split(s, sep)| >= 2
  {
  }

  /** Joining all pieces is joining all but the last, the separator and the last. */
  lemma JoinLast(pieces: seq<string>, sep: string)
    requires |pieces| >= 2
    ensures Join(pieces, sep) == Join(pieces[..|pieces| - 1], sep) + sep + pieces[|pieces| - 1]
  {
    var init := pieces[..|pieces| - 1];
    JoinAppend(init, pieces[|pieces| - 1], sep);
    assert init + [pieces[|pieces| - 1]] == pieces;
  }

  /**
   * The number of a `dir_` identifier: the last `_`-separated piece read as an
   * integer. Other identifiers carry no number.
   */
  function CustomNumber(identifier: string): (r: Result<Option<int>, ParseError>)
    ensures r == Ok(None) <==> !StartsWith(identifier, CustomPrefix)
    ensures r.Err? ==> r.error == BadCustomNumber(identifier)
  {
    if StartsWith(identifier, CustomPrefix) then
      var pieces := Split(identifier, '_');
      match ParseInt(pieces[|pieces| - 1])
      case None => Err(BadCustomNumber(identifier))
      case Some(n) => Ok(Some(n))
    else Ok(None)
  }

  /** The identifier `add_dir` makes for number `n` carries exactly that number. */
  lemma CustomNumberOfNew(n: nat)
    ensures CustomNumber(CustomPrefix + NatToString(n)) == Ok(Some(n))
  {
    var digits := NatToString(n);
    var id := CustomPrefix + digits;
    assert id == "dir" + ['_'] + digits;
    assert StartsWith(id, CustomPrefix);
    assert '_' !in digits;
    SplitAppendLast("dir", digits, '_');
    ParseNatToString(n);
  }

  // ---------------------------------------------------------------- the whole text

  /**
   * The effect of one parsed entry on the ordered dictionary: a new identifier goes
   * to the end, a repeated one keeps its place and takes the new folder; `_max_custom`
   * rises to the entry's number.
   */
  function Insert(l: Listing, e: Entry, number: Option<int>): Listing {
    Listing(if e.identifier in l.dirs then l.order else l.order + [e.identifier],
            l.dirs[e.identifier := e],
            if number.Some? && number.value > l.maxCustom then number.value else l.maxCustom)
  }

  /** The loop of `DirList.__init__` over the entries; the first failing entry's error wins. */
  function ParsePieces(pieces: seq<string>): Result<Listing, ParseError>
    decreases |pieces|
  {
    if |pieces| == 0 then Ok(Listing([], map[], 2))
    else
      match ParsePieces(pieces[..|pieces| - 1])
      case Err(err) => Err(err)
      case Ok(l) =>
        match ParseEntry(pieces[|pieces| - 1])
        case Err(err) => Err(err)
        case Ok(e) =>
          match CustomNumber(e.identifier)
          case Err(err) => Err(err)
          case Ok(n) => Ok(Insert(l, e, n))
  }

  function ParseVdirs(text: string): Result<Listing, ParseError> {
    ParsePieces(Split(text, '|'))
  }

  /** One more well-read entry is inserted into the listing built so far. */
  lemma ParsePiecesStep(pieces: seq<string>, i: nat, l: Listing, e: Entry, n: Option<int>)
    requires i < |pieces| && ParsePieces(pieces[..i]) == Ok(l)
    requires ParseEntry(pieces[i]) == Ok(e) && CustomNumber(e.identifier) == Ok(n)
    ensures ParsePieces(pieces[..i + 1]) == Ok(Insert(l, e, n))
  {
    assert pieces[..i + 1][..i] == pieces[..i];
  }

  /** Once a prefix of the entries fails, the whole parse fails with that error. */
  lemma {:induction false} ParseErrorPropagates(pieces: seq<string>, i: nat)
    requires i <= |pieces| && ParsePieces(pieces[..i]).Err?
    ensures ParsePieces(pieces) == ParsePieces(pieces[..i])
    decreases |pieces| - i
  {
    if i < |pieces| {
      assert pieces[..i + 1][..i] == pieces[..i];
      ParseErrorPropagates(pieces, i + 1);
    } else {
      assert pieces[..i] == pieces;
    }
  }

  /** Every number of a `dir_` identifier is at most `max`. */
  ghost predicate NumbersBelow(ids: set<string>, max: int) {
    forall k :: k in ids ==>
      CustomNumber(k).Ok? && (CustomNumber(k).value.Some? ==> CustomNumber(k).value.value <= max)
  }

  /** The identifier numbered one above the maximum is new, and the maximum moves up to it. */
  lemma NumbersBelowAdd(ids: set<string>, max: int, id: string)
    requires NumbersBelow(ids, max) && CustomNumber(id) == Ok(Some(max + 1))
    ensures id !in ids && NumbersBelow(ids + {id}, max + 1)
  {
  }

  /** A folder entry as the parser can produce it and the serialiser can write it back. */
  ghost predicate WellFormedEntry(e: Entry) {
    && ':' !in e.identifier && '|' !in e.identifier && '|' !in e.name
    && (e.messageCount.None? ==> ';' !in e.name)
    && CustomNumber(e.identifier).Ok?
  }

  /**
   * What the parsed dictionary always satisfies: the order lists each identifier once
   * and exactly the identifiers present, each folder is filed under its own identifier,
   * and `_max_custom` is at least 2 and at least every `dir_` number.
   */
  ghost predicate Consistent(l: Listing) {
    && (forall i, j :: 0 <= i < j < |l.order| ==> l.order[i] != l.order[j])
    && (forall k :: k in l.dirs <==> k in l.order)
    && (forall k :: k in l.dirs ==> l.dirs[k].identifier == k && WellFormedEntry(l.dirs[k]))
    && l.maxCustom >= 2
    && NumbersBelow(l.dirs.Keys, l.maxCustom)
  }

  /** An entry read from a `|`-free piece is well formed. */
  lemma ParsedEntryWellFormed(piece: string)
    requires '|' !in piece && ParseEntry(piece).Ok?
    requires CustomNumber(ParseEntry(piece).value.identifier).Ok?
    ensures WellFormedEntry(ParseEntry(piece).value)
  {
    var e := ParseEntry(piece).value;
    var tail := SplitFirst(piece, ':').1;
    NotInParts(e.identifier + [':'], tail, '|');
    NotInParts(e.identifier, [':'], '|');
    if e.messageCount.Some? {
      ParseTailCounted(tail);
      var k := |e.name| + 1;
      assert tail == tail[..k] + tail[k..];
      NotInParts(tail[..k], tail[k..], '|');
      NotInParts(e.name, [';'], '|');
    } else {
      assert e.name == tail;
    }
  }

  /** A character missing from a concatenation is missing from both parts. */
  lemma NotInParts(a: string, b: string, c: char)
    requires c !in a + b
    ensures c !in a && c !in b
  {
    assert forall i :: 0 <= i < |a| ==> (a + b)[i] == a[i];
    assert forall i :: 0 <= i < |b| ==> (a + b)[|a| + i] == b[i];
  }

  /** Inserting a well-formed entry with its own number keeps a listing consistent. */
  lemma InsertConsistent(l: Listing, e: Entry, n: Option<int>)
    requires Consistent(l) && WellFormedEntry(e) && CustomNumber(e.identifier) == Ok(n)
    ensures Consistent(Insert(l, e, n)) && |Insert(l, e, n).order| > 0
  {
    var l' := Insert(l, e, n);
    assert e.identifier in l'.order;
    forall k | k in l'.dirs
      ensures CustomNumber(k).Ok? && (CustomNumber(k).value.Some? ==> CustomNumber(k).value.value <= l'.maxCustom)
    {
      if k != e.identifier {
        assert k in l.dirs;
      }
    }
  }

  /**
   * `_max_custom` is exactly the larger of 2 and the largest `dir_` number: either it
   * is still the initial 2, or some filed identifier carries it.
   */
  ghost predicate MaxAttained(l: Listing) {
    l.maxCustom == 2 || exists k :: k in l.dirs && CustomNumber(k) == Ok(Some(l.maxCustom))
  }

  /** Inserting an entry with its own number keeps `_max_custom` attained. */
  lemma InsertMaxAttained(l: Listing, e: Entry, n: Option<int>)
    requires MaxAttained(l) && CustomNumber(e.identifier) == Ok(n)
    ensures MaxAttained(Insert(l, e, n))
  {
    var l' := Insert(l, e, n);
    if n.Some? && n.value > l.maxCustom {
      assert e.identifier in l'.dirs && CustomNumber(e.identifier) == Ok(Some(l'.maxCustom));
    } else if l.maxCustom != 2 {
      var k :| k in l.dirs && CustomNumber(k) == Ok(Some(l.maxCustom));
      assert k in l'.dirs;
    }
  }

  lemma {:induction false} ParsePiecesMaxAttained(pieces: seq<string>)
    requires ParsePieces(pieces).Ok?
    ensures MaxAttained(ParsePieces(pieces).value)
    decreases |pieces|
  {
    if |pieces| > 0 {
      var init := pieces[..|pieces| - 1];
      ParsePiecesMaxAttained(init);
      var e := ParseEntry(pieces[|pieces| - 1]).value;
      InsertMaxAttained(ParsePieces(init).value, e, CustomNumber(e.identifier).value);
    }
  }

  lemma {:induction false} ParsePiecesConsistent(pieces: seq<string>)
    requires forall i :: 0 <= i < |pieces| ==> '|' !in pieces[i]
    requires ParsePieces(pieces).Ok?
    ensures Consistent(ParsePieces(pieces).value)
    ensures |pieces| > 0 ==> |ParsePieces(pieces).value.order| > 0
    decreases |pieces|
  {
    if |pieces| > 0 {
      var init := pieces[..|pieces| - 1];
      var piece := pieces[|pieces| - 1];
      ParsePiecesConsistent(init);
      var l := ParsePieces(init).value;
      var e := ParseEntry(piece).value;
      var n := CustomNumber(e.identifier).value;
      ParsedEntryWellFormed(piece);
      InsertConsistent(l, e, n);
    }
  }

  /**
   * A successful parse of the column yields a consistent, non-empty folder list whose
   * `_max_custom` is exactly the larger of 2 and the largest `dir_` number.
   */
  lemma ParseVdirsConsistent(text: string)
    requires ParseVdirs(text).Ok?
    ensures Consistent(ParseVdirs(text).value) && |ParseVdirs(text).value.order| > 0
    ensures MaxAttained(ParseVdirs(text).value)
  {
    ParsePiecesConsistent(Split(text, '|'));
    ParsePiecesMaxAttained(Split(text, '|'));
  }

  // ---------------------------------------------------------------- writing back

  /** `"%s:%s"` of identifier and name, followed by `";%d"` of the count when there is one. */
  function Format(e: Entry): string {
    e.identifier + ":" + e.name + (if e.messageCount.Some? then ";" + IntToString(e.messageCount.value) else "")
  }

  function FormatAll(es: seq<Entry>): (r: seq<string>)
    ensures |r| == |es| && forall i :: 0 <= i < |es| ==> r[i] == Format(es[i])
  {
    seq(|es|, i requires 0 <= i < |es| => Format(es[i]))
  }

  /** The folder list as the column text. */
  function Serialize(es: seq<Entry>): string {
    Join(FormatAll(es), "|")
  }

  /** Reading a written entry gives the entry back. */
  lemma ParseFormat(e: Entry)
    requires WellFormedEntry(e)
    ensures ParseEntry(Format(e)) == Ok(e)
  {
    var piece := Format(e);
    var tail := e.name + (if e.messageCount.Some? then ";" + IntToString(e.messageCount.value) else "");
    assert piece == e.identifier + [':'] + tail;
    SplitFirstUnique(piece, ':', e.identifier, tail);
    if e.messageCount.Some? {
      assert tail == e.name + ";" + IntToString(e.messageCount.value);
      ParseTailFormat(e.name, e.messageCount.value);
    } else {
      assert tail == e.name;
    }
  }

  lemma ParseTailFormat(name: string, n: int)
    ensures ParseTail(name + ";" + IntToString(n)) == Ok((name, Some(n)))
  {
    var count := IntToString(n);
    var tail := name + ";" + count;
    assert ';' !in count;
    assert tail == name + [';'] + count;
    SplitAppendLast(name, count, ';');
    var pieces := Split(tail, ';');
    assert pieces[..|pieces| - 1] == Split(name, ';');
    ParseIntToString(n);
  }

  function Ids(es: seq<Entry>): (r: seq<string>)
    ensures |r| == |es| && forall i :: 0 <= i < |es| ==> r[i] == es[i].identifier
  {
    seq(|es|, i requires 0 <= i < |es| => es[i].identifier)
  }

  ghost predicate DistinctIds(es: seq<Entry>) {
    forall i, j :: 0 <= i < j < |es| ==> es[i].identifier != es[j].identifier
  }

  /** The listing holds exactly the folders `es`, in their order. */
  ghost predicate ReadsBack(es: seq<Entry>, l: Listing) {
    && l.order == Ids(es)
    && forall i :: 0 <= i < |es| ==> es[i].identifier in l.dirs && l.dirs[es[i].identifier] == es[i]
  }

  lemma {:induction false} ParseFormatted(es: seq<Entry>)
    requires forall i :: 0 <= i < |es| ==> WellFormedEntry(es[i])
    requires DistinctIds(es)
    ensures ParsePieces(FormatAll(es)).Ok? && ReadsBack(es, ParsePieces(FormatAll(es)).value)
    decreases |es|
  {
    if |es| > 0 {
      var init := es[..|es| - 1];
      var e := es[|es| - 1];
      ParseFormatted(init);
      var parts := FormatAll(es);
      assert parts[..|parts| - 1] == FormatAll(init);
      assert parts[|parts| - 1] == Format(e);
      ParseFormat(e);
      var l := ParsePieces(FormatAll(init)).value;
      var n := CustomNumber(e.identifier).value;
      ParsePiecesStep(parts, |parts| - 1, l, e, n);
      assert parts[..|parts|] == parts;
      ParsePiecesKeysInOrder(FormatAll(init));
      InsertReadsBack(es, l, n);
    }
  }

  /** Inserting one more folder with a new identifier after a listing of the others lists them all. */
  lemma InsertReadsBack(es: seq<Entry>, l: Listing, n: Option<int>)
    requires |es| > 0 && DistinctIds(es)
    requires ReadsBack(es[..|es| - 1], l)
    requires forall k :: k in l.dirs <==> k in l.order
    ensures ReadsBack(es, Insert(l, es[|es| - 1], n))
  {
    var init := es[..|es| - 1];
    var e := es[|es| - 1];
    assert forall j :: 0 <= j < |init| ==> Ids(init)[j] != e.identifier;
    assert e.identifier !in l.dirs;
    var l' := Insert(l, e, n);
    assert l'.order == Ids(init) + [e.identifier];
    forall k | 0 <= k < |es|
      ensures (Ids(init) + [e.identifier])[k] == Ids(es)[k]
    {
      if k < |init| {
        assert es[k] == init[k];
      }
    }
    assert Ids(init) + [e.identifier] == Ids(es);
    forall i | 0 <= i < |es|
      ensures es[i].identifier in l'.dirs && l'.dirs[es[i].identifier] == es[i]
    {
      if i < |init| {
        assert es[i] == init[i] && es[i].identifier != e.identifier;
      }
    }
  }

  lemma {:induction false} ParsePiecesKeysInOrder(pieces: seq<string>)
    requires ParsePieces(pieces).Ok?
    ensures forall k :: k in ParsePieces(pieces).value.dirs <==> k in ParsePieces(pieces).value.order
    decreases |pieces|
  {
    if |pieces| > 0 {
      ParsePiecesKeysInOrder(pieces[..|pieces| - 1]);
    }
  }

  /**
   * Writing a non-empty list of well-formed folders with distinct identifiers and
   * parsing the text again gives the same folders in the same order.
   */
  lemma SerializeRoundTrip(es: seq<Entry>)
    requires |es| > 0
    requires forall i :: 0 <= i < |es| ==> WellFormedEntry(es[i])
    requires DistinctIds(es)
    ensures ParseVdirs(Serialize(es)).Ok?
    ensures ParseVdirs(Serialize(es)).value.order == Ids(es)
    ensures forall i :: 0 <= i < |es| ==>
              es[i].identifier in ParseVdirs(Serialize(es)).value.dirs &&
              ParseVdirs(Serialize(es)).value.dirs[es[i].identifier] == es[i]
  {
    var parts := FormatAll(es);
    forall i | 0 <= i < |parts|
      ensures '|' !in parts[i]
    {
      var e := es[i];
      if e.messageCount.Some? {
        var count := IntToString(e.messageCount.value);
        assert '|' !in count;
      }
    }
    SplitJoin(parts, '|');
    ParseFormatted(es);
  }

  /** What the write-back does as written. */
  datatype UpdateOutcome = RaisesAttributeError(attribute: string) | RebindsMemberExtra(text: string)

  /**
   * `DirList.update` as written iterates the dictionary itself, which yields the keys;
   * a key is a string, so the first `.identifier` raises AttributeError. With no
   * folders it rebinds `_member_extra` to the empty string. Either way the `vdirs`
   * column is never written.
   */
  function UpdateAsWritten(keys: seq<string>): (r: UpdateOutcome)
    ensures r.RebindsMemberExtra? ==> |keys| == 0
  {
    if |keys| == 0 then RebindsMemberExtra(Join([], "|")) else RaisesAttributeError("identifier")
  }

  // ---------------------------------------------------------------- the objects

  /** The `member_extra` row; only its `vdirs` column is modelled. */
  class MemberExtra {
    var vdirs: Option<string>

    constructor (vdirs: Option<string>)
      ensures this.vdirs == vdirs
    {
      this.vdirs := vdirs;
    }
  }

  /** A value assigned through one of the folder properties. */
  datatype AttrValue = Text(text: string) | Count(count: Option<int>)

  /** One folder; its three properties read and write the underscored fields. */
  class VirtualDir {
    const dirList: DirList
    var name: string
    var identifier: string
    var messageCount: Option<int>

    constructor (dirList: DirList, name: string, identifier: string, messageCount: Option<int>)
      ensures this.dirList == dirList
      ensures this.name == name && this.identifier == identifier && this.messageCount == messageCount
    {
      this.dirList := dirList;
      this.name := name;
      this.identifier := identifier;
      this.messageCount := messageCount;
    }

    function AsEntry(): Entry
      reads this
    {
      Entry(identifier, name, messageCount)
    }

    /** `_get`: the three property names read their field, any other key is an AttributeError. */
    function Get(key: string): (r: Result<AttrValue, string>)
      reads this
      ensures r.Err? <==> key !in AttributeNames
      ensures r.Err? ==> r.error == key
    {
      if key == "name" then Ok(Text(name))
      else if key == "identifier" then Ok(Text(identifier))
      else if key == "message_count" then Ok(Count(messageCount))
      else Err(key)
    }

    /**
     * `_update`: an unknown key is an AttributeError and changes nothing; a known key
     * sets its field, leaves the other two alone and has the owning list write itself
     * back to the member's row.
     */
    method Update(key: string, value: AttrValue) returns (r: Result<(), string>)
      requires dirList.Valid() && this in dirList.vdirs.Values
      requires key == "message_count" ==> value.Count?
      requires key == "name" || key == "identifier" ==> value.Text?
      modifies this, dirList.memberExtra
      ensures key !in AttributeNames ==> r == Err(key) && unchanged(this, dirList.memberExtra)
      ensures key in AttributeNames ==> r == Ok(()) && Get(key) == Ok(value)
      ensures forall k :: k in AttributeNames && k != key ==> Get(k) == old(Get(k))
      ensures key in AttributeNames ==> dirList.memberExtra.vdirs == Some(Serialize(dirList.Entries()))
      ensures dirList.Valid()
    {
      if key !in AttributeNames {
        return Err(key);
      }
      if key == "name" {
        name := value.text;
      } else if key == "identifier" {
        identifier := value.text;
      } else {
        messageCount := value.count;
      }
      dirList.Save();
      r := Ok(());
    }
  }

  /**
   * The parsed folder list: `_vdirs` is an insertion-ordered dictionary, kept here as
   * the key order plus the map from identifier to folder object.
   */
  class DirList {
    const memberExtra: MemberExtra
    var order: seq<string>
    var vdirs: map<string, VirtualDir>
    var maxCustom: int

    /**
     * The order lists each key once and exactly the keys; every folder belongs to this
     * list and is its own object; no `dir_` key has a number above `_max_custom`.
     */
    ghost predicate Valid()
      reads this
    {
      && |order| > 0
      && (forall i, j :: 0 <= i < j < |order| ==> order[i] != order[j])
      && (forall k :: k in vdirs <==> k in order)
      && (forall k :: k in vdirs ==> vdirs[k].dirList == this)
      && (forall k, k' :: k in vdirs && k' in vdirs && k != k' ==> vdirs[k] != vdirs[k'])
      && maxCustom >= 2
      && NumbersBelow(vdirs.Keys, maxCustom)
    }

    /** An empty list before the parsing loop has run. */
    constructor (memberExtra: MemberExtra)
      ensures this.memberExtra == memberExtra
      ensures order == [] && vdirs == map[] && maxCustom == 2
    {
      this.memberExtra := memberExtra;
      order := [];
      vdirs := map[];
      maxCustom := 2;
    }

    /** The folders' current contents in list order. */
    function Entries(): (es: seq<Entry>)
      reads this, vdirs.Values
      requires Valid()
      ensures |es| == |order|
      ensures forall i :: 0 <= i < |order| ==> es[i] == vdirs[order[i]].AsEntry()
    {
      seq(|order|, i reads this, vdirs.Values requires 0 <= i < |order| && Valid() => vdirs[order[i]].AsEntry())
    }

    /**
     * `DirList(member_extra)`: a missing or empty column is first set to the template;
     * the column is then parsed and the list holds exactly what the parse yields, or
     * the parse error is raised.
     */
    static method Load(extra: MemberExtra) returns (r: Result<DirList, ParseError>)
      modifies extra
      ensures extra.vdirs == Some(EffectiveText(old(extra.vdirs)))
      ensures r.Ok? <==> ParseVdirs(EffectiveText(old(extra.vdirs))).Ok?
      ensures r.Err? ==> r.error == ParseVdirs(EffectiveText(old(extra.vdirs))).error
      ensures r.Ok? ==>
                var d, l := r.value, ParseVdirs(EffectiveText(old(extra.vdirs))).value;
                && fresh(d) && d.Valid() && d.memberExtra == extra
                && d.order == l.order && d.maxCustom == l.maxCustom && d.vdirs.Keys == l.dirs.Keys
                && (forall k :: k in d.vdirs ==> d.vdirs[k].AsEntry() == l.dirs[k])
    {
      if extra.vdirs.None? || |extra.vdirs.value| == 0 {
        extra.vdirs := Some(Template);
      }
      r := Parse(extra, extra.vdirs.value);
    }

    /** The parsing loop of `__init__` over the column text `text`. */
    static method Parse(extra: MemberExtra, text: string) returns (r: Result<DirList, ParseError>)
      ensures r.Ok? <==> ParseVdirs(text).Ok?
      ensures r.Err? ==> r.error == ParseVdirs(text).error
      ensures r.Ok? ==>
                var d, l := r.value, ParseVdirs(text).value;
                && fresh(d) && d.Valid() && d.memberExtra == extra
                && d.order == l.order && d.maxCustom == l.maxCustom && d.vdirs.Keys == l.dirs.Keys
                && (forall k :: k in d.vdirs ==> d.vdirs[k].AsEntry() == l.dirs[k])
    {
      var pieces := Split(text, '|');
      var d := new DirList(extra);
      var filled;
      ghost var dirs;
      filled, dirs := d.Fill(pieces);
      if filled.Err? {
        return Err(filled.error);
      }
      ParseVdirsConsistent(text);
      d.ValidFromListing(ParseVdirs(text).value);
      return Ok(d);
    }

    /**
     * The loop itself, on a list still empty: each piece in turn is parsed and filed;
     * the first piece that fails stops the loop with its error.
     */
    method Fill(pieces: seq<string>) returns (r: Result<(), ParseError>, ghost dirs: map<string, Entry>)
      requires order == [] && vdirs == map[] && maxCustom == 2
      modifies this
      ensures r.Ok? <==> ParsePieces(pieces).Ok?
      ensures r.Err? ==> r.error == ParsePieces(pieces).error
      ensures r.Ok? ==> ParsePieces(pieces) == Ok(Listing(order, dirs, maxCustom)) && Mirrors(dirs)
    {
      dirs := map[];
      var i := 0;
      while i < |pieces|
        invariant 0 <= i <= |pieces|
        invariant ParsePieces(pieces[..i]) == Ok(Listing(order, dirs, maxCustom))
        invariant Mirrors(dirs)
      {
        var entry := ParseEntry(pieces[i]);
        assert pieces[..i + 1][..i] == pieces[..i];
        if entry.Err? {
          ParseErrorPropagates(pieces, i + 1);
          return Err(entry.error), dirs;
        }
        var e := entry.value;
        var number := CustomNumber(e.identifier);
        if number.Err? {
          ParseErrorPropagates(pieces, i + 1);
          return Err(number.error), dirs;
        }
        ParsePiecesStep(pieces, i, Listing(order, dirs, maxCustom), e, number.value);
        Store(e, number.value, dirs);
        dirs := dirs[e.identifier := e];
        i := i + 1;
      }
      assert pieces[..i] == pieces;
      return Ok(()), dirs;
    }

    /**
     * The folders are distinct objects of this list whose contents are `dirs`,
     * key by key.
     */
    ghost predicate Mirrors(dirs: map<string, Entry>)
      reads this, vdirs.Values
    {
      && vdirs.Keys == dirs.Keys
      && (forall k :: k in vdirs ==> vdirs[k].dirList == this && vdirs[k].AsEntry() == dirs[k])
      && (forall k, k' :: k in vdirs && k' in vdirs && k != k' ==> vdirs[k] != vdirs[k'])
    }

    /** One parsed entry: `_max_custom` rises to the entry's number and the folder is filed. */
    method Store(e: Entry, number: Option<int>, ghost dirs: map<string, Entry>)
      requires Mirrors(dirs)
      modifies this
      ensures Mirrors(dirs[e.identifier := e])
      ensures Listing(order, dirs[e.identifier := e], maxCustom) ==
                Insert(Listing(old(order), dirs, old(maxCustom)), e, number)
    {
      if number.Some? && number.value > maxCustom {
        maxCustom := number.value;
      }
      Accept(e, dirs);
    }

    /**
     * `self._vdirs[identifier] = VirtualDir(...)`: a new identifier goes to the end of
     * the order, a known one keeps its place and gets the new folder.
     */
    method Accept(e: Entry, ghost dirs: map<string, Entry>)
      requires Mirrors(dirs)
      modifies this
      ensures Mirrors(dirs[e.identifier := e])
      ensures order == if e.identifier in old(vdirs) then old(order) else old(order) + [e.identifier]
      ensures maxCustom == old(maxCustom)
    {
      var vdir := new VirtualDir(this, e.name, e.identifier, e.messageCount);
      assert vdir.AsEntry() == e;
      assert forall k :: k in vdirs ==> vdirs[k] != vdir;
      if e.identifier !in vdirs {
        order := order + [e.identifier];
      }
      vdirs := vdirs[e.identifier := vdir];
    }

    /** A list that mirrors a consistent parse result, with its own distinct folders, is valid. */
    lemma ValidFromListing(l: Listing)
      requires Consistent(l) && |l.order| > 0
      requires order == l.order && maxCustom == l.maxCustom && Mirrors(l.dirs)
      ensures Valid()
    {
    }

    /** Every property assignment on a loaded list ends in the as-written AttributeError. */
    lemma UpdateAsWrittenRaises()
      requires Valid()
      ensures UpdateAsWritten(order) == RaisesAttributeError("identifier")
    {
    }

    /** `__getitem__`: the folder filed under `item`; a missing key is a KeyError (`None`). */
    function GetItem(item: string): (r: Option<VirtualDir>)
      reads this
      ensures r.Some? <==> item in vdirs
      ensures r.Some? ==> r.value == vdirs[item]
    {
      if item in vdirs then Some(vdirs[item]) else None
    }

    /** `__contains__`: whether a folder is filed under `item`. */
    predicate Contains(item: string): (b: bool)
      reads this
      ensures b <==> GetItem(item).Some?
      ensures Valid() ==> (b <==> item in order)
    {
      item in vdirs
    }

    /** `as_list`: every folder object once, in insertion order. */
    function AsList(): (r: seq<VirtualDir>)
      reads this
      requires Valid()
      ensures |r| == |order|
      ensures forall i :: 0 <= i < |r| ==> r[i] == vdirs[order[i]]
    {
      seq(|order|, i reads this requires 0 <= i < |order| && Valid() => vdirs[order[i]])
    }

    /**
     * `add_dir`: `_max_custom` goes up by one and a folder without a count is filed at
     * the end under `dir_<_max_custom>`, an identifier no existing folder has.
     */
    method AddDir(name: string)
      requires Valid()
      modifies this
      ensures Valid()
      ensures maxCustom == old(maxCustom) + 1
      ensures var id := CustomPrefix + NatToString(maxCustom);
              && id !in old(vdirs)
              && order == old(order) + [id]
              && vdirs.Keys == old(vdirs.Keys) + {id}
              && (forall k :: k in old(vdirs) ==> vdirs[k] == old(vdirs[k]))
              && fresh(vdirs[id]) && vdirs[id].AsEntry() == Entry(id, name, None)
    {
      maxCustom := maxCustom + 1;
      var id := CustomPrefix + NatToString(maxCustom);
      CustomNumberOfNew(maxCustom);
      NumbersBelowAdd(vdirs.Keys, maxCustom - 1, id);
      assert id !in order;
      var vdir := new VirtualDir(this, name, id, None);
      order := order + [id];
      vdirs := vdirs[id := vdir];
      assert vdirs.Keys == old(vdirs.Keys) + {id};
    }

    /**
     * The write-back `update` is meant to do: every folder's `id:name` with `;count`
     * when it has one, joined by `|`, stored in the member's `vdirs` column.
     */
    method Save()
      requires Valid()
      modifies memberExtra
      ensures memberExtra.vdirs == Some(Serialize(Entries()))
    {
      var parts: seq<string> := [];
      for i := 0 to |order|
        invariant parts == FormatAll(Entries()[..i])
      {
        var vdir := vdirs[order[i]];
        var part := vdir.identifier + ":" + vdir.name;
        if vdir.messageCount.Some? {
          part := part + ";" + IntToString(vdir.messageCount.value);
        }
        assert part == Format(Entries()[i]);
        assert Entries()[..i + 1] == Entries()[..i] + [Entries()[i]];
        parts := parts + [part];
      }
      assert Entries()[..|order|] == Entries();
      memberExtra.vdirs := Some(Join(parts, "|"));
    }
  }
}
