/**
 * The fieldset instance of api/fieldset.py (`FieldsetBase`): a map from field
 * names to descriptors, the merged `Meta`, and the name sets `__init__` computes
 * once (`_nested`, `_nested_recursive`, `_fields_recursive`, and the default field
 * and embed sets). Dotted names "parent.child" address fields of embedded
 * fieldsets; the recursive sets are built from the children's own sets.
 */
module Schema {
  import opened Wrappers
  import opened Strings
  import opened Fields

  /** `Meta.default_fields` / `Meta.default_embedd`: None (every name) or a list of names. */
  datatype NameList = AllNames | Names(names: seq<string>)

  /** The merged `Meta` configuration an instance reads as `self.meta`. */
  datatype Meta = Meta(defaultFields: NameList, defaultEmbedd: NameList, fieldsKw: string, embeddKw: string)

  /** `DefaultMeta`, the `Meta` of the `Fieldset` base class. */
  const DefaultMeta := Meta(AllNames, AllNames, "fields", "embedd")

  datatype Fieldset = Fieldset(
    fields: map<string, Descriptor<Fieldset>>,
    meta: Meta,
    nested: set<string>,            // _nested
    nestedRecursive: set<string>,   // _nested_recursive, the `nested_field_names` property
    fieldsRecursive: set<string>,   // _fields_recursive, the `all_field_names` property
    defaultFields: set<string>,     // _default_fields
    defaultEmbedd: set<string>)     // _default_embedd

  type Field = Descriptor<Fieldset>

  /** The fieldset an optional nested field embeds, if it has one. */
  function ChildOf(f: Field): Option<Fieldset> {
    if f.OptionalNested? then f.nested else None
  }

  function ChildNested(fields: map<string, Field>, n: string): set<string> {
    if n in fields && ChildOf(fields[n]).Some? then ChildOf(fields[n]).value.nestedRecursive else {}
  }

  function ChildFields(fields: map<string, Field>, n: string): set<string> {
    if n in fields && ChildOf(fields[n]).Some? then ChildOf(fields[n]).value.fieldsRecursive else {}
  }

  /** Every name of `names` prefixed with "n.". */
  function Dotted(n: string, names: set<string>): set<string> {
    set x | x in names :: n + "." + x
  }

  /** The dotted names that `_find_nested_all` adds for the parents in `ns`. */
  function NestedDotted(fields: map<string, Field>, ns: set<string>): set<string> {
    set n, y | n in ns && y in Dotted(n, ChildNested(fields, n)) :: y
  }

  /** The dotted names that `_find_fields_all` adds for the parents in `ns`. */
  function FieldsDotted(fields: map<string, Field>, ns: set<string>): set<string> {
    set n, y | n in ns && y in Dotted(n, ChildFields(fields, n)) :: y
  }

  /** `_find_nested`: the fields carrying the optional-nested tag. */
  function NestedNames(fields: map<string, Field>): set<string> {
    set n | n in fields && OptionalNestedTag(fields[n])
  }

  /** `_find_nested_all`. */
  function NestedAll(fields: map<string, Field>, nested: set<string>): set<string> {
    nested + NestedDotted(fields, nested)
  }

  /** `_find_fields_all`. */
  function FieldsAll(fields: map<string, Field>, nested: set<string>): set<string> {
    fields.Keys + FieldsDotted(fields, nested)
  }

  function Elements(ns: seq<string>): set<string> {
    set i | 0 <= i < |ns| :: ns[i]
  }

  /** `_find_default_fields`: every field name unless `Meta.default_fields` lists some. */
  function DefaultFieldSet(meta: Meta, fields: map<string, Field>): set<string> {
    match meta.defaultFields
    case AllNames => fields.Keys
    case Names(ns) => Elements(ns)
  }

  /** `_find_default_embedd`: every nested field unless `Meta.default_embedd` lists some. */
  function DefaultEmbeddSet(meta: Meta, nested: set<string>): set<string> {
    match meta.defaultEmbedd
    case AllNames => nested
    case Names(ns) => Elements(ns)
  }

  /** The instance `FieldsetBase.__init__(fields, meta)` produces. */
  function Build(fields: map<string, Field>, meta: Meta): Fieldset {
    var nested := NestedNames(fields);
    Fieldset(fields, meta, nested, NestedAll(fields, nested), FieldsAll(fields, nested),
             DefaultFieldSet(meta, fields), DefaultEmbeddSet(meta, nested))
  }

  /** Every embedded fieldset is itself well-formed. */
  ghost predicate ChildrenValid(fields: map<string, Field>) {
    forall n | n in fields && fields[n].OptionalNested? && fields[n].nested.Some? ::
      Valid(fields[n].nested.value)
  }

  /** A fieldset whose name sets are those `__init__` computes, all the way down. */
  ghost predicate Valid(fs: Fieldset)
    decreases fs, 1
  {
    && fs == Build(fs.fields, fs.meta)
    && (forall n | n in fs.fields && fs.fields[n].OptionalNested? && fs.fields[n].nested.Some? ::
          Valid(fs.fields[n].nested.value))
  }

  lemma NestedDottedAdd(fields: map<string, Field>, ns: set<string>, n: string)
    ensures NestedDotted(fields, ns + {n}) == NestedDotted(fields, ns) + Dotted(n, ChildNested(fields, n))
  {
    var l := NestedDotted(fields, ns + {n});
    var r := NestedDotted(fields, ns) + Dotted(n, ChildNested(fields, n));
    forall y | y in l ensures y in r {
      var m :| m in ns + {n} && y in Dotted(m, ChildNested(fields, m));
    }
  }

  lemma FieldsDottedAdd(fields: map<string, Field>, ns: set<string>, n: string)
    ensures FieldsDotted(fields, ns + {n}) == FieldsDotted(fields, ns) + Dotted(n, ChildFields(fields, n))
  {
    var l := FieldsDotted(fields, ns + {n});
    var r := FieldsDotted(fields, ns) + Dotted(n, ChildFields(fields, n));
    forall y | y in l ensures y in r {
      var m :| m in ns + {n} && y in Dotted(m, ChildFields(fields, m));
    }
  }

  /** `_find_nested`: one pass over the fields. */
  method FindNested(fields: map<string, Field>) returns (names: set<string>)
    ensures names == NestedNames(fields)
    ensures names <= fields.Keys
  {
    names := {};
    var todo := fields.Keys;
    while todo != {}
      invariant todo <= fields.Keys
      invariant names == set n | n in fields.Keys - todo && OptionalNestedTag(fields[n])
    {
      var n :| n in todo;
      if OptionalNestedTag(fields[n]) {
        names := names + {n};
      }
      todo := todo - {n};
    }
  }

  /** Adds "n." + x for every x of `inner` to `acc` (the inner loops of `_find_*_all`). */
  method AddDotted(acc: set<string>, n: string, inner: set<string>) returns (names: set<string>)
    ensures names == acc + Dotted(n, inner)
  {
    names := acc;
    var todo := inner;
    while todo != {}
      invariant todo <= inner
      invariant names == acc + Dotted(n, inner - todo)
    {
      var x :| x in todo;
      names := names + {n + "." + x};
      todo := todo - {x};
      assert Dotted(n, inner - todo) == Dotted(n, inner - (todo + {x})) + {n + "." + x};
    }
  }

  /** `_find_nested_all`. */
  method FindNestedAll(fields: map<string, Field>, nested: set<string>) returns (names: set<string>)
    ensures names == NestedAll(fields, nested)
  {
    names := {};
    var todo := nested;
    while todo != {}
      invariant todo <= nested
      invariant names == (nested - todo) + NestedDotted(fields, nested - todo)
    {
      var n :| n in todo;
      NestedDottedAdd(fields, nested - todo, n);
      assert nested - (todo - {n}) == (nested - todo) + {n};
      names := names + {n};
      if n in fields {
        var field := fields[n];
        var child := ChildOf(field);
        if child.Some? {
          names := AddDotted(names, n, child.value.nestedRecursive);
        }
      }
      todo := todo - {n};
    }
  }

  /** `_find_fields_all`. */
  method FindFieldsAll(fields: map<string, Field>, nested: set<string>) returns (names: set<string>)
    ensures names == FieldsAll(fields, nested)
  {
    names := {};
    var own := fields.Keys;
    while own != {}
      invariant own <= fields.Keys
      invariant names == fields.Keys - own
    {
      var n :| n in own;
      names := names + {n};
      own := own - {n};
    }
    var todo := nested;
    while todo != {}
      invariant todo <= nested
      invariant names == fields.Keys + FieldsDotted(fields, nested - todo)
    {
      var n :| n in todo;
      FieldsDottedAdd(fields, nested - todo, n);
      assert nested - (todo - {n}) == (nested - todo) + {n};
      if n in fields {
        var child := ChildOf(fields[n]);
        if child.Some? {
          names := AddDotted(names, n, child.value.fieldsRecursive);
        }
      }
      todo := todo - {n};
    }
  }

  /** `FieldsetBase.__init__(fields, meta)`: stores both and computes the name sets in order. */
  method New(fields: map<string, Field>, meta: Meta) returns (fs: Fieldset)
    requires ChildrenValid(fields)
    ensures fs == Build(fields, meta)
    ensures Valid(fs)
  {
    var nested := FindNested(fields);
    var nestedAll := FindNestedAll(fields, nested);
    var fieldsAll := FindFieldsAll(fields, nested);
    var defaults := DefaultFieldSet(meta, fields);
    var embedd := DefaultEmbeddSet(meta, nested);
    fs := Fieldset(fields, meta, nested, nestedAll, fieldsAll, defaults, embedd);
  }

  /** Every name of a well-formed fieldset's field universe, computed from the fields alone. */
  ghost function Universe(fs: Fieldset): set<string>
    decreases fs
  {
    fs.fields.Keys +
    (set n, y | n in fs.fields && fs.fields[n].OptionalNested? && fs.fields[n].nested.Some?
                && y in Dotted(n, Universe(fs.fields[n].nested.value)) :: y)
  }

  /** Every name of the embeddable universe, computed from the fields alone. */
  ghost function NestedUniverse(fs: Fieldset): set<string>
    decreases fs
  {
    (set n | n in fs.fields && fs.fields[n].OptionalNested?) +
    (set n, y | n in fs.fields && fs.fields[n].OptionalNested? && fs.fields[n].nested.Some?
                && y in Dotted(n, NestedUniverse(fs.fields[n].nested.value)) :: y)
  }

  /** The cached name sets of a well-formed fieldset are the recursive universes. */
  lemma UniversesAreRecursive(fs: Fieldset)
    requires Valid(fs)
    ensures fs.fieldsRecursive == Universe(fs)
    ensures fs.nestedRecursive == NestedUniverse(fs)
  {
    FieldsUniverseIsRecursive(fs);
    NestedUniverseIsRecursive(fs);
  }

  lemma {:induction false} FieldsUniverseIsRecursive(fs: Fieldset)
    requires Valid(fs)
    ensures fs.fieldsRecursive == Universe(fs)
    decreases fs
  {
    forall n | n in fs.fields && fs.fields[n].OptionalNested? && fs.fields[n].nested.Some?
      ensures ChildFields(fs.fields, n) == Universe(fs.fields[n].nested.value)
    {
      FieldsUniverseIsRecursive(fs.fields[n].nested.value);
    }
    forall y | y in Universe(fs) ensures y in fs.fieldsRecursive {
      if y !in fs.fields.Keys {
        var n :| n in fs.fields && fs.fields[n].OptionalNested? && fs.fields[n].nested.Some?
                 && y in Dotted(n, Universe(fs.fields[n].nested.value));
        assert n in fs.nested && y in Dotted(n, ChildFields(fs.fields, n));
      }
    }
  }

  lemma {:induction false} NestedUniverseIsRecursive(fs: Fieldset)
    requires Valid(fs)
    ensures fs.nestedRecursive == NestedUniverse(fs)
    decreases fs
  {
    forall n | n in fs.fields && fs.fields[n].OptionalNested? && fs.fields[n].nested.Some?
      ensures ChildNested(fs.fields, n) == NestedUniverse(fs.fields[n].nested.value)
    {
      NestedUniverseIsRecursive(fs.fields[n].nested.value);
    }
    forall y | y in NestedUniverse(fs) ensures y in fs.nestedRecursive {
      if y !in fs.nested {
        var n :| n in fs.fields && fs.fields[n].OptionalNested? && fs.fields[n].nested.Some?
                 && y in Dotted(n, NestedUniverse(fs.fields[n].nested.value));
        assert n in fs.nested && y in Dotted(n, ChildNested(fs.fields, n));
      }
    }
  }

  /** Every embeddable name is also a field name: `nested_field_names` ⊆ `all_field_names`. */
  lemma {:induction false} NestedWithinAll(fs: Fieldset)
    requires Valid(fs)
    ensures fs.nested <= fs.fields.Keys
    ensures fs.nestedRecursive <= fs.fieldsRecursive
    decreases fs
  {
    forall y | y in fs.nestedRecursive ensures y in fs.fieldsRecursive {
      if y !in fs.nested {
        var n, x :| n in fs.nested && x in ChildNested(fs.fields, n) && y == n + "." + x;
        assert x in ChildNested(fs.fields, n);
        assert n in fs.fields && ChildOf(fs.fields[n]).Some?;
        var child := ChildOf(fs.fields[n]);
        NestedWithinAll(child.value);
        assert x in ChildFields(fs.fields, n);
        assert y in Dotted(n, ChildFields(fs.fields, n));
      }
    }
  }

  /** No own field name contains a dot (the engine's naming convention). */
  predicate DotFree(fs: Fieldset) {
    forall n | n in fs.fields :: '.' !in n
  }

  /**
   * Every name of the universe is an own field name or "parent.rest" where
   * `parent` is one of this fieldset's nested fields; splitting at the first dot
   * recovers the parent.
   */
  lemma DottedHeadIsNested(fs: Fieldset, y: string)
    requires Valid(fs) && DotFree(fs)
    requires y in fs.fieldsRecursive
    ensures y in fs.fields.Keys <==> '.' !in y
    ensures '.' in y ==> (SplitFirst(y, '.').0 in fs.nested
                          && SplitFirst(y, '.').1 in ChildFields(fs.fields, SplitFirst(y, '.').0))
  {
    if y !in fs.fields.Keys {
      var n, x :| n in fs.nested && x in ChildFields(fs.fields, n) && y == n + "." + x;
      assert y == n + ['.'] + x;
      SplitFirstUnique(y, '.', n, x);
    }
  }

  /** The embeddable names split the same way: "parent.rest" with `parent` nested and `rest` embeddable in it. */
  lemma DottedNestedHeadIsNested(fs: Fieldset, y: string)
    requires Valid(fs) && DotFree(fs)
    requires y in fs.nestedRecursive && '.' in y
    ensures SplitFirst(y, '.').0 in fs.nested
    ensures SplitFirst(y, '.').1 in ChildNested(fs.fields, SplitFirst(y, '.').0)
  {
    var n, x :| n in fs.nested && x in ChildNested(fs.fields, n) && y == n + "." + x;
    assert y == n + ['.'] + x;
    SplitFirstUnique(y, '.', n, x);
  }
}
