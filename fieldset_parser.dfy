/**
 * `FieldSetParser` of api/fieldset.py, the type converter of the `fields` and
 * `embedd` query arguments, and the request-level parsing that feeds its two
 * results to the marshalling plan.
 */
module Selection {
  import opened Wrappers
  import opened Strings
  import opened Schema

  /** The value handed to the parser: query arguments are text; anything else is rejected. */
  datatype SelectorInput = Text(s: string) | NotText

  /** The parser's outcome: None (use the defaults), a set of names, or a ValueError message. */
  datatype Parsed = UseDefaults | Selected(names: set<string>) | Rejected(message: string)

  /** `FieldSetParser(possible_fields)`: the universe of acceptable names. */
  datatype FieldSetParser = FieldSetParser(possibleFields: set<string>)

  /** `set(value.split(","))`. */
  function Elements(s: string): (r: set<string>)
    ensures r != {}
    ensures forall x :: x in r ==> ',' !in x
  {
    var parts := Split(s, ',');
    var r := set x | x in parts;
    assert parts[0] in r;
    r
  }

  const UnknownPrefix := "Unknown fields: "

  /** `FieldSetParser.__call__(value)`. */
  function Parse(p: FieldSetParser, v: SelectorInput): Parsed {
    match v
    case NotText => Rejected("Need a str")
    case Text(s) =>
      if |s| == 0 then UseDefaults
      else
        var unknown := Elements(s) - p.possibleFields;
        if unknown != {} then Rejected(UnknownPrefix + Join(Sorted(unknown), ", "))
        else Selected(Elements(s))
  }

  /**
   * The outcomes, both ways: only "" uses the defaults, a non-empty text is
   * accepted exactly when all its comma-separated names are known (and then its
   * set of names is the result), and every unknown name is named in the message.
   */
  lemma ParseOutcomes(p: FieldSetParser, v: SelectorInput)
    ensures Parse(p, v) == UseDefaults <==> v == Text("")
    ensures Parse(p, v) == Rejected("Need a str") <==> v.NotText?
    ensures Parse(p, v).Selected? <==> v.Text? && v.s != "" && Elements(v.s) <= p.possibleFields
    ensures Parse(p, v).Selected? ==> Parse(p, v).names == Elements(v.s) && Parse(p, v).names != {}
    ensures Parse(p, v).Selected? ==> Parse(p, v).names <= p.possibleFields
    ensures v.Text? && Parse(p, v).Rejected? ==>
              StartsWith(Parse(p, v).message, UnknownPrefix)
              && forall x :: x in Elements(v.s) && x !in p.possibleFields ==> IsInfix(x, Parse(p, v).message)
  {
    if v.Text? && v.s != "" {
      var e := Elements(v.s);
      if e - p.possibleFields == {} {
        forall x | x in e ensures x in p.possibleFields { assert x !in e - p.possibleFields; }
      }
    }
    if v.Text? && v.s != "" && Parse(p, v).Rejected? {
      var unknown := Elements(v.s) - p.possibleFields;
      var listed := Sorted(unknown);
      var msg := UnknownPrefix + Join(listed, ", ");
      assert msg[..|UnknownPrefix|] == UnknownPrefix;
      forall x | x in Elements(v.s) && x !in p.possibleFields ensures IsInfix(x, msg) {
        assert x in unknown && x in listed;
        var i :| 0 <= i < |listed| && listed[i] == x;
        JoinContains(listed, ", ", i);
        InfixAfter(UnknownPrefix, x, Join(listed, ", "));
      }
    }
  }

  /** The same names in any order and with repetitions parse alike. */
  lemma ParseIgnoresOrderAndRepetition(p: FieldSetParser, a: string, b: string)
    requires a != "" && b != ""
    requires forall x :: x in Split(a, ',') <==> x in Split(b, ',')
    ensures Parse(p, Text(a)) == Parse(p, Text(b))
  {
    assert Elements(a) == Elements(b);
  }

  /** Two names joined by a comma select exactly those two names. */
  lemma ElementsOfPair(a: string, b: string)
    requires ',' !in a && ',' !in b
    ensures Elements(a + "," + b) == {a, b}
  {
    SplitTwo(a, b, ',');
  }

  lemma PairElements()
    ensures Elements("test01,test02") - {} == {"test01", "test02"}
  {
    ElementsOfPair("test01", "test02");
    assert "test01" + "," + "test02" == "test01,test02";
  }

  lemma PairMessage()
    ensures UnknownPrefix + Join(Sorted({"test01", "test02"}), ", ") == "Unknown fields: test01, test02"
  {
    PairOrdered();
    JoinOfTwo("test01", "test02", ", ");
    PairText();
  }

  lemma JoinOfTwo(a: string, b: string, sep: string)
    ensures Join([a, b], sep) == a + sep + b
  {
    assert [a, b][1..] == [b];
  }

  lemma PairText()
    ensures UnknownPrefix + ("test01" + ", " + "test02") == "Unknown fields: test01, test02"
  {
  }

  lemma PairOrdered()
    ensures Sorted({"test01", "test02"}) == ["test01", "test02"]
  {
    assert "test01" == "test0" + "1" && "test02" == "test0" + "2";
    assert StrLe("1", "2");
    StrLeCommonPrefix("test0", "1", "2");
    SortedPair("test01", "test02");
  }

  lemma RejectedUnknown(p: FieldSetParser, s: string)
    requires s != "" && !(Elements(s) <= p.possibleFields)
    ensures Parse(p, Text(s)) == Rejected(UnknownPrefix + Join(Sorted(Elements(s) - p.possibleFields), ", "))
  {
    var x :| x in Elements(s) && x !in p.possibleFields;
    assert x in Elements(s) - p.possibleFields;
  }

  /** Unknown names are reported in sorted order: "test01,test02" against an empty universe. */
  lemma UnknownPairMessage()
    ensures Parse(FieldSetParser({}), Text("test01,test02")) == Rejected("Unknown fields: test01, test02")
  {
    PairElements();
    PairMessage();
    RejectedUnknown(FieldSetParser({}), "test01,test02");
  }

  /** The parser of `?fields=`: all field names, dotted ones included. */
  function FieldsParser(fs: Fieldset): FieldSetParser {
    FieldSetParser(fs.fieldsRecursive)
  }

  /** The parser of `?embedd=`: the embeddable names. */
  function EmbeddParser(fs: Fieldset): FieldSetParser {
    FieldSetParser(fs.nestedRecursive)
  }

  /** An embed selection the embed parser accepts is also an acceptable field selection. */
  lemma EmbeddAcceptedAsFields(fs: Fieldset, v: SelectorInput)
    requires Valid(fs)
    requires Parse(EmbeddParser(fs), v).Selected?
    ensures Parse(FieldsParser(fs), v) == Parse(EmbeddParser(fs), v)
  {
    NestedWithinAll(fs);
  }

  /**
   * `Fieldset._parse_request_overrides` without the Flask request: `query`
   * holds the query arguments. A missing argument and "" both mean "use the
   * defaults"; the first rejected argument (fields before embeds) aborts with
   * its message.
   */
  function ParseOverrides(fs: Fieldset, query: map<string, string>)
    : (r: Result<(Option<set<string>>, Option<set<string>>), string>)
    ensures r.Ok? ==> (r.value.0.Some? ==> r.value.0.value <= fs.fieldsRecursive && r.value.0.value != {})
    ensures r.Ok? ==> (r.value.1.Some? ==> r.value.1.value <= fs.nestedRecursive && r.value.1.value != {})
    ensures fs.meta.fieldsKw !in query && fs.meta.embeddKw !in query ==> r == Ok((None, None))
  {
    var f := if fs.meta.fieldsKw in query then Parse(FieldsParser(fs), Text(query[fs.meta.fieldsKw])) else UseDefaults;
    var e := if fs.meta.embeddKw in query then Parse(EmbeddParser(fs), Text(query[fs.meta.embeddKw])) else UseDefaults;
    ParseOutcomes(FieldsParser(fs), Text(if fs.meta.fieldsKw in query then query[fs.meta.fieldsKw] else ""));
    ParseOutcomes(EmbeddParser(fs), Text(if fs.meta.embeddKw in query then query[fs.meta.embeddKw] else ""));
    if f.Rejected? then Err(f.message)
    else if e.Rejected? then Err(e.message)
    else Ok((if f.Selected? then Some(f.names) else None, if e.Selected? then Some(e.names) else None))
  }

  /**
   * What `_parse_request_overrides` returns, in terms of the two parsers: each present
   * argument is handed to its own parser (an absent one means the defaults); a rejected
   * `fields` aborts with its message before `embedd` counts; otherwise each selection is
   * exactly its parser's set of names, or None for the defaults.
   */
  lemma ParseOverridesExact(fs: Fieldset, query: map<string, string>)
    ensures var f := if fs.meta.fieldsKw in query then Parse(FieldsParser(fs), Text(query[fs.meta.fieldsKw])) else UseDefaults;
            var e := if fs.meta.embeddKw in query then Parse(EmbeddParser(fs), Text(query[fs.meta.embeddKw])) else UseDefaults;
            var r := ParseOverrides(fs, query);
            && (f.Rejected? ==> r == Err(f.message))
            && (!f.Rejected? && e.Rejected? ==> r == Err(e.message))
            && (r.Ok? <==> !f.Rejected? && !e.Rejected?)
            && (r.Ok? ==> r.value == (if f.Selected? then Some(f.names) else None,
                                      if e.Selected? then Some(e.names) else None))
  {
  }
}
