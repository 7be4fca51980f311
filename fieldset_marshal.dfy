/**
 * `Fieldset.marshall_dict` of api/fieldset.py: from a field selection and an
 * embed selection (each None/empty for "use the defaults") it builds the plan
 * handed to flask-restful's `marshal`. Each selected own field is kept as its
 * descriptor, embedded as the plan of its child fieldset, or degraded to its
 * key field.
 */
module Marshalling {
  import opened Wrappers
  import opened Strings
  import opened Fields
  import opened Schema

  /** One entry of the plan. */
  datatype PlanEntry =
      /** A plain field: its descriptor, unchanged. */
    | Keep(field: Field)
      /** An embedded nested field: the child's plan (wrapped by `fields.Nested` with the field's options). */
    | Embed(plan: map<string, PlanEntry>, field: Field)
      /** A nested field that is not embedded: the value of `key_field()`. */
    | KeyValue(key: Option<Field>)

  /** A well-formed fieldset whose nested fields all have a child fieldset, all the way down. */
  ghost predicate Embeddable(fs: Fieldset)
    decreases fs
  {
    && Valid(fs)
    && forall n | n in fs.nested ::
         n in fs.fields && fs.fields[n].OptionalNested? && fs.fields[n].nested.Some?
         && Embeddable(fs.fields[n].nested.value)
  }

  lemma EmbeddableChild(fs: Fieldset, f: string)
    requires Embeddable(fs) && f in fs.nested
    ensures f in fs.fields && fs.fields[f].OptionalNested? && fs.fields[f].nested.Some?
    ensures Embeddable(fs.fields[f].nested.value)
  {
  }

  /** A selection that is None or empty falls back to the defaults. */
  function Resolve(sel: Option<set<string>>, defaults: set<string>): (r: set<string>)
    ensures sel.Some? && sel.value != {} ==> r == sel.value
    ensures sel.None? || sel.value == {} ==> r == defaults
  {
    if sel.None? || sel.value == {} then defaults else sel.value
  }

  /** `filtered_nested[f]`: the remainders of the dotted names whose first segment is `f`. */
  function Group(names: set<string>, f: string): set<string> {
    set n | n in names && '.' in n && SplitFirst(n, '.').0 == f :: SplitFirst(n, '.').1
  }

  /** The plan entry of the selected own field `f`. */
  function Entry(fs: Fieldset, f: string, embedded: bool, childFields: set<string>, childEmbed: set<string>)
    : PlanEntry
    requires Embeddable(fs) && f in fs.fields
    decreases fs, 0
  {
    if f in fs.nested then
      if embedded then
        Embed(Marshall(fs.fields[f].nested.value, Some(childFields), Some(childEmbed)), fs.fields[f])
      else KeyValue(KeyField(fs.fields[f]))
    else Keep(fs.fields[f])
  }

  /** The plan `marshall_dict(selected_fields, selected_embed)` returns. */
  function Marshall(fs: Fieldset, selectedFields: Option<set<string>>, selectedEmbed: Option<set<string>>)
    : map<string, PlanEntry>
    requires Embeddable(fs)
    decreases fs, 1
  {
    var selected := Resolve(selectedFields, fs.defaultFields);
    var direct := selected * fs.fields.Keys;
    var embed := Resolve(selectedEmbed, fs.defaultEmbedd);
    var embedDirect := embed * direct;
    map f | f in direct ::
      Entry(fs, f, f in embedDirect, Group(selected - direct, f), Group(embed - embedDirect, f))
  }

  /** `filtered_nested` / `filtered_embedd` as a map; absent keys read as empty (a defaultdict). */
  function Get(groups: map<string, set<string>>, f: string): set<string> {
    if f in groups then groups[f] else {}
  }

  lemma GroupAdd(done: set<string>, n: string, f: string)
    ensures Group(done + {n}, f) ==
            Group(done, f) + (if '.' in n && SplitFirst(n, '.').0 == f then {SplitFirst(n, '.').1} else {})
  {
  }

  /** The grouping loops of `marshall_dict`: names without a dot are skipped. */
  method GroupDotted(names: set<string>) returns (groups: map<string, set<string>>)
    ensures forall f :: Get(groups, f) == Group(names, f)
  {
    groups := map[];
    var todo := names;
    while todo != {}
      invariant todo <= names
      invariant forall f :: Get(groups, f) == Group(names - todo, f)
    {
      var n :| n in todo;
      forall f ensures Group(names - (todo - {n}), f) ==
                       Group(names - todo, f) + (if '.' in n && SplitFirst(n, '.').0 == f then {SplitFirst(n, '.').1} else {}) {
        assert names - (todo - {n}) == (names - todo) + {n};
        GroupAdd(names - todo, n, f);
      }
      if '.' in n {
        var (field, rest) := SplitFirst(n, '.');
        groups := groups[field := Get(groups, field) + {rest}];
      }
      todo := todo - {n};
    }
  }

  /** `Fieldset.marshall_dict`. */
  method MarshallDict(fs: Fieldset, selectedFields: Option<set<string>>, selectedEmbed: Option<set<string>>)
    returns (plan: map<string, PlanEntry>)
    requires Embeddable(fs)
    ensures plan == Marshall(fs, selectedFields, selectedEmbed)
    decreases fs, 2
  {
    var selected := if selectedFields.None? || selectedFields.value == {} then fs.defaultFields
                    else selectedFields.value;
    var direct := selected * fs.fields.Keys;
    var embed := if selectedEmbed.None? || selectedEmbed.value == {} then fs.defaultEmbedd
                 else selectedEmbed.value;
    var embedDirect := embed * direct;
    var filteredNested := GroupDotted(selected - direct);
    var filteredEmbedd := GroupDotted(embed - embedDirect);
    plan := BuildPlan(fs, direct, embedDirect, filteredNested, filteredEmbedd);
    MarshallUnfold(fs, selectedFields, selectedEmbed, plan);
  }

  /** The result loop of `marshall_dict`: one plan entry per selected own field. */
  method BuildPlan(fs: Fieldset, direct: set<string>, embedDirect: set<string>,
                   nested: map<string, set<string>>, embedd: map<string, set<string>>)
    returns (plan: map<string, PlanEntry>)
    requires Embeddable(fs) && direct <= fs.fields.Keys
    ensures plan.Keys == direct
    ensures forall g | g in plan :: plan[g] == Entry(fs, g, g in embedDirect, Get(nested, g), Get(embedd, g))
    decreases fs, 1
  {
    plan := map[];
    var todo := direct;
    while todo != {}
      invariant todo <= direct
      invariant plan.Keys == direct - todo
      invariant forall g | g in plan :: plan[g] == Entry(fs, g, g in embedDirect, Get(nested, g), Get(embedd, g))
    {
      var f :| f in todo;
      var entry := PlanEntryFor(fs, f, f in embedDirect, Get(nested, f), Get(embedd, f));
      plan := plan[f := entry];
      todo := todo - {f};
    }
  }

  /** A map with the keys and entries `Marshall` describes is the plan. */
  lemma MarshallUnfold(fs: Fieldset, sf: Option<set<string>>, se: Option<set<string>>, plan: map<string, PlanEntry>)
    requires Embeddable(fs)
    requires var selected := Resolve(sf, fs.defaultFields);
             var direct := selected * fs.fields.Keys;
             var embed := Resolve(se, fs.defaultEmbedd);
             var embedDirect := embed * direct;
             && plan.Keys == direct
             && forall g | g in plan ::
                  plan[g] == Entry(fs, g, g in embedDirect, Group(selected - direct, g), Group(embed - embedDirect, g))
    ensures plan == Marshall(fs, sf, se)
  {
  }

  /** The body of the result loop of `marshall_dict` for one selected own field. */
  method PlanEntryFor(fs: Fieldset, f: string, embedded: bool, childFields: set<string>, childEmbed: set<string>)
    returns (entry: PlanEntry)
    requires Embeddable(fs) && f in fs.fields
    ensures entry == Entry(fs, f, embedded, childFields, childEmbed)
    decreases fs, 0
  {
    if f in fs.nested {
      if embedded {
        EmbeddableChild(fs, f);
        var child := NestedFieldset(fs.fields[f]);
        var sub := MarshallDict(child.value, Some(childFields), Some(childEmbed));
        entry := Embed(sub, fs.fields[f]);
      } else {
        entry := KeyValue(KeyField(fs.fields[f]));
      }
    } else {
      entry := Keep(fs.fields[f]);
    }
  }

  /**
   * The keys of the plan are exactly the selected (or default) names that are
   * own fields; a plain field keeps its descriptor; a nested field is embedded
   * exactly when it is in the embed selection (or the default embeds), and
   * otherwise degrades to its key field, which is None.
   */
  lemma MarshallShape(fs: Fieldset, sf: Option<set<string>>, se: Option<set<string>>, f: string)
    requires Embeddable(fs)
    ensures f in Marshall(fs, sf, se) <==> f in Resolve(sf, fs.defaultFields) && f in fs.fields
    ensures f in Marshall(fs, sf, se) && f !in fs.nested ==> Marshall(fs, sf, se)[f] == Keep(fs.fields[f])
    ensures f in Marshall(fs, sf, se) && f in fs.nested ==>
              (Marshall(fs, sf, se)[f].Embed? <==> f in Resolve(se, fs.defaultEmbedd))
    ensures f in Marshall(fs, sf, se) && f in fs.nested && f !in Resolve(se, fs.defaultEmbedd) ==>
              Marshall(fs, sf, se)[f] == KeyValue(None)
  {
  }

  /**
   * An embedded field's plan is the child's plan for the dotted selections under
   * it; with no such selection the child uses its own defaults.
   */
  lemma EmbeddedChildPlan(fs: Fieldset, sf: Option<set<string>>, se: Option<set<string>>, f: string)
    requires Embeddable(fs)
    requires f in Marshall(fs, sf, se) && Marshall(fs, sf, se)[f].Embed?
    ensures f in fs.nested
    ensures var selected := Resolve(sf, fs.defaultFields);
            var embed := Resolve(se, fs.defaultEmbedd);
            var child := fs.fields[f].nested.value;
            (forall n :: n in selected && '.' in n ==> SplitFirst(n, '.').0 != f) &&
            (forall n :: n in embed && '.' in n ==> SplitFirst(n, '.').0 != f)
            ==> Marshall(fs, sf, se)[f].plan == Marshall(child, None, None)
  {
    var selected := Resolve(sf, fs.defaultFields);
    var embed := Resolve(se, fs.defaultEmbedd);
    var direct := selected * fs.fields.Keys;
    var embedDirect := embed * direct;
    if (forall n :: n in selected && '.' in n ==> SplitFirst(n, '.').0 != f) &&
       (forall n :: n in embed && '.' in n ==> SplitFirst(n, '.').0 != f) {
      assert Group(selected - direct, f) == {};
      assert Group(embed - embedDirect, f) == {};
      EmbeddableChild(fs, f);
      var child := fs.fields[f].nested.value;
      assert Marshall(child, Some({}), Some({})) == Marshall(child, None, None);
    }
  }

  /** A dotted selection whose parent field is not selected has no effect. */
  lemma DottedWithoutParentIgnored(fs: Fieldset, s: set<string>, se: Option<set<string>>, p: string, x: string)
    requires Embeddable(fs) && DotFree(fs)
    requires s != {} && p !in s && '.' !in p
    ensures Marshall(fs, Some(s + {p + "." + x}), se) == Marshall(fs, Some(s), se)
  {
    var d := p + "." + x;
    assert d == p + ['.'] + x;
    SplitFirstUnique(d, '.', p, x);
    assert d !in fs.fields;
    var s' := s + {d};
    var direct := s * fs.fields.Keys;
    assert s' * fs.fields.Keys == direct;
    forall f | f in direct ensures Group(s' - direct, f) == Group(s - direct, f) {
      assert s' - direct == (s - direct) + {d};
      GroupAdd(s - direct, d, f);
    }
  }

  /**
   * Selections the parsers accept stay acceptable one level down: each group of
   * dotted field names lies in the child's field universe.
   */
  lemma FieldGroupsStayInUniverse(fs: Fieldset, s: set<string>, f: string)
    requires Valid(fs) && DotFree(fs)
    requires s <= fs.fieldsRecursive
    ensures Group(s - fs.fields.Keys, f) <= ChildFields(fs.fields, f)
  {
    forall y | y in Group(s - fs.fields.Keys, f) ensures y in ChildFields(fs.fields, f) {
      var n :| n in s - fs.fields.Keys && '.' in n && SplitFirst(n, '.').0 == f && SplitFirst(n, '.').1 == y;
      DottedHeadIsNested(fs, n);
    }
  }

  /** Likewise each group of dotted embeds lies in the child's embeddable universe. */
  lemma EmbedGroupsStayInUniverse(fs: Fieldset, e: set<string>, f: string)
    requires Valid(fs) && DotFree(fs)
    requires e <= fs.nestedRecursive
    ensures Group(e - fs.fields.Keys, f) <= ChildNested(fs.fields, f)
  {
    forall y | y in Group(e - fs.fields.Keys, f) ensures y in ChildNested(fs.fields, f) {
      var n :| n in e - fs.fields.Keys && '.' in n && SplitFirst(n, '.').0 == f && SplitFirst(n, '.').1 == y;
      DottedNestedHeadIsNested(fs, n);
    }
  }

  /** The method names a descriptor has: `format`/`output` from flask-restful's `Raw`, plus its class's own. */
  function Methods(d: Field): set<string> {
    match d
    case OptionalNested(_, _, _, _, _) => {"format", "output", "key_field", "nested_fieldset"}
    case LazyNested(_) => {"format", "output"}
    case _ => {"format", "output"}
  }

  /** The embed branch of `marshall_dict` as written: it calls the field's `nested_kwargs()`. */
  function EmbedAsWritten(d: Field, childPlan: map<string, PlanEntry>): Result<PlanEntry, string> {
    if "nested_kwargs" in Methods(d) then Ok(Embed(childPlan, d))
    else Err("AttributeError: 'OptionalNestedField' object has no attribute 'nested_kwargs'")
  }

  /** No descriptor of the repository defines `nested_kwargs`, so the embed branch as written always fails. */
  lemma EmbedFailsAsWritten(d: Field, childPlan: map<string, PlanEntry>)
    requires d.OptionalNested?
    ensures EmbedAsWritten(d, childPlan).Err?
  {
  }
}
