/**
 * `FieldsetMeta` of api/fieldset.py: the class object of a fieldset. It
 * discovers the field descriptors of the class, merges the `Meta` declarations
 * along the method resolution order, and caches both results on the class; the
 * `__setattr__`/`__delattr__` hooks clear a cache when a change may invalidate it.
 */
module FieldsetClasses {
  import opened Wrappers
  import opened Strings
  import opened Fields
  import opened Schema

  /** A class attribute as the metaclass sees it: a descriptor (it has `format` and `output`) or anything else. */
  datatype Attr = Desc(field: Field) | Other

  /** An inner `Meta` declaration; None marks an attribute the declaration does not set. */
  datatype MetaDecl = MetaDecl(defaultFields: Option<NameList>, defaultEmbedd: Option<NameList>,
                               fieldsKw: Option<string>, embeddKw: Option<string>)

  /** `DefaultMeta` as a declaration; the `Fieldset` base class declares it as its `Meta`. */
  const DefaultMetaDecl := MetaDecl(Some(AllNames), Some(AllNames), Some("fields"), Some("embedd"))

  /** The own namespace (`__dict__`) of one class of the method resolution order. */
  datatype ClassDict = ClassDict(attrs: map<string, Attr>, meta: Option<MetaDecl>)

  /** The `Fieldset` base class: no descriptors, `Meta = DefaultMeta`. */
  const FieldsetDict := ClassDict(map[], Some(DefaultMetaDecl))

  /** `getattr(cls, name)` along the method resolution order: the first class that defines it wins. */
  function Lookup(mro: seq<ClassDict>, name: string): (r: Option<Attr>)
    ensures r.Some? <==> exists i :: 0 <= i < |mro| && name in mro[i].attrs
    ensures r.Some? ==> exists i :: 0 <= i < |mro| && name in mro[i].attrs && r.value == mro[i].attrs[name]
                                   && forall j :: 0 <= j < i ==> name !in mro[j].attrs
  {
    if |mro| == 0 then None
    else if name in mro[0].attrs then Some(mro[0].attrs[name])
    else
      var r := Lookup(mro[1..], name);
      assert forall i :: 1 <= i < |mro| ==> mro[i] == mro[1..][i - 1];
      r
  }

  /** The attribute names `dir(cls)` lists. */
  function VisibleNames(mro: seq<ClassDict>): set<string> {
    if |mro| == 0 then {} else mro[0].attrs.Keys + VisibleNames(mro[1..])
  }

  lemma {:induction false} VisibleIffDefined(mro: seq<ClassDict>, name: string)
    ensures name in VisibleNames(mro) <==> Lookup(mro, name).Some?
  {
    if |mro| > 0 && name !in mro[0].attrs {
      VisibleIffDefined(mro[1..], name);
    }
  }

  predicate IsPublic(name: string) {
    !StartsWith(name, "_")
  }

  /** The descriptors found among `names`: public ones whose lookup yields a descriptor. */
  function DiscoverAmong(mro: seq<ClassDict>, names: set<string>): map<string, Field> {
    map n | n in names && IsPublic(n) && Lookup(mro, n).Some? && Lookup(mro, n).value.Desc? ::
      Lookup(mro, n).value.field
  }

  /** Looking at one more name adds it when it is a public descriptor, and changes nothing otherwise. */
  lemma DiscoverAmongAdd(mro: seq<ClassDict>, names: set<string>, n: string)
    ensures DiscoverAmong(mro, names + {n}) ==
              if IsPublic(n) && Lookup(mro, n).Some? && Lookup(mro, n).value.Desc?
              then DiscoverAmong(mro, names)[n := Lookup(mro, n).value.field]
              else DiscoverAmong(mro, names)
  {
  }

  /** The field map `FieldsetMeta.__call__` caches as `_unbound_fields`. */
  function Discover(mro: seq<ClassDict>): map<string, Field> {
    DiscoverAmong(mro, VisibleNames(mro))
  }

  /** Exactly the public names that resolve to a descriptor are fields, with the most-derived descriptor. */
  lemma DiscoverExactly(mro: seq<ClassDict>, name: string)
    ensures name in Discover(mro) <==>
              IsPublic(name) && Lookup(mro, name).Some? && Lookup(mro, name).value.Desc?
    ensures name in Discover(mro) ==> Discover(mro)[name] == Lookup(mro, name).value.field
    ensures |mro| > 0 && name in mro[0].attrs && IsPublic(name) && mro[0].attrs[name].Desc? ==>
              name in Discover(mro) && Discover(mro)[name] == mro[0].attrs[name].field
  {
    VisibleIffDefined(mro, name);
  }

  /** The `Meta` classes of the resolution order, most derived first (the `bases` list of `__call__`). */
  function MetaChain(mro: seq<ClassDict>): (chain: seq<MetaDecl>)
    ensures |chain| <= |mro|
    ensures forall m :: m in chain <==> exists i :: 0 <= i < |mro| && mro[i].meta == Some(m)
  {
    if |mro| == 0 then []
    else
      var rest := MetaChain(mro[1..]);
      assert forall i :: 1 <= i < |mro| ==> mro[i] == mro[1..][i - 1];
      if mro[0].meta.Some? then [mro[0].meta.value] + rest else rest
  }

  /** Attribute lookup on `type('Meta', tuple(chain), {})`: the first declaration that sets it. */
  function Pick<T>(chain: seq<MetaDecl>, get: MetaDecl -> Option<T>, fallback: T): (r: T)
    ensures (forall i :: 0 <= i < |chain| ==> get(chain[i]).None?) ==> r == fallback
    ensures (exists i :: 0 <= i < |chain| && get(chain[i]).Some?) ==>
              exists i :: 0 <= i < |chain| && get(chain[i]) == Some(r)
                          && forall j :: 0 <= j < i ==> get(chain[j]).None?
  {
    if |chain| == 0 then fallback
    else if get(chain[0]).Some? then get(chain[0]).value
    else
      var r := Pick(chain[1..], get, fallback);
      assert forall i :: 1 <= i < |chain| ==> chain[i] == chain[1..][i - 1];
      r
  }

  /**
   * The merged `Meta`, key by key. A resolution order that ends in `Fieldset`
   * always finds `DefaultMeta`; the fallbacks are its values.
   */
  function MergeChain(chain: seq<MetaDecl>): Meta {
    Meta(Pick(chain, (m: MetaDecl) => m.defaultFields, AllNames),
         Pick(chain, (m: MetaDecl) => m.defaultEmbedd, AllNames),
         Pick(chain, (m: MetaDecl) => m.fieldsKw, "fields"),
         Pick(chain, (m: MetaDecl) => m.embeddKw, "embedd"))
  }

  function MergeMeta(mro: seq<ClassDict>): Meta {
    MergeChain(MetaChain(mro))
  }

  /** With no `Meta` other than the base class's, the merged configuration is `DefaultMeta`. */
  lemma MergeDefaults(classes: seq<ClassDict>)
    requires forall i :: 0 <= i < |classes| ==> classes[i].meta.None?
    ensures MergeMeta(classes + [FieldsetDict]) == DefaultMeta
  {
    var mro := classes + [FieldsetDict];
    var chain := MetaChain(mro);
    assert mro[|classes|] == FieldsetDict;
    forall k | 0 <= k < |chain| ensures chain[k] == DefaultMetaDecl {
      var i :| 0 <= i < |mro| && mro[i].meta == Some(chain[k]);
    }
    assert DefaultMetaDecl in chain;
  }

  /**
   * The most-derived declaration of each key wins, and keys it leaves unset come
   * from the next declaration that sets them (merging is per key, not per class).
   */
  lemma MergeMostDerivedWins(own: MetaDecl, rest: seq<MetaDecl>)
    ensures var m := MergeChain([own] + rest);
            && (own.defaultFields.Some? ==> m.defaultFields == own.defaultFields.value)
            && (own.defaultEmbedd.Some? ==> m.defaultEmbedd == own.defaultEmbedd.value)
            && (own.fieldsKw.Some? ==> m.fieldsKw == own.fieldsKw.value)
            && (own.embeddKw.Some? ==> m.embeddKw == own.embeddKw.value)
            && (own.defaultFields.None? ==> m.defaultFields == MergeChain(rest).defaultFields)
            && (own.defaultEmbedd.None? ==> m.defaultEmbedd == MergeChain(rest).defaultEmbedd)
            && (own.fieldsKw.None? ==> m.fieldsKw == MergeChain(rest).fieldsKw)
            && (own.embeddKw.None? ==> m.embeddKw == MergeChain(rest).embeddKw)
  {
    assert ([own] + rest)[1..] == rest;
  }

  /** The instance a class with these namespaces produces (`Fieldset.__init__`). */
  function Instantiate(mro: seq<ClassDict>): Fieldset {
    Build(Discover(mro), MergeMeta(mro))
  }

  /** The class-level caches of one fieldset class, as a value. */
  datatype ClassState = ClassState(own: ClassDict, unboundFields: Option<map<string, Field>>,
                                   metadata: Option<Meta>)

  /** Both caches, when present, agree with the class's current namespaces. */
  predicate CachesCurrent(st: ClassState, bases: seq<ClassDict>) {
    && (st.unboundFields.Some? ==> st.unboundFields.value == Discover([st.own] + bases))
    && (st.metadata.Some? ==> st.metadata.value == MergeMeta([st.own] + bases))
  }

  /** `FieldsetMeta.__setattr__(name, value)` for a name other than "Meta", as written. */
  function SetAttrAsWritten(st: ClassState, name: string, value: Attr): (r: ClassState)
    requires name != "Meta"
    ensures r.own == st.own.(attrs := st.own.attrs[name := value])
    ensures r.metadata == st.metadata
    ensures r.unboundFields.None? <==> st.unboundFields.None? || (IsPublic(name) && value.Desc?)
  {
    var cleared := if IsPublic(name) && value.Desc? then None else st.unboundFields;
    ClassState(st.own.(attrs := st.own.attrs[name := value]), cleared, st.metadata)
  }

  /** `FieldsetMeta.__delattr__("Meta")` as written: only the field cache is cleared. */
  function DelMetaAsWritten(st: ClassState): (r: ClassState)
    ensures r.own == st.own.(meta := None)
    ensures r.unboundFields.None?
    ensures r.metadata == st.metadata
  {
    ClassState(st.own.(meta := None), None, st.metadata)
  }

  /**
   * As written, overwriting a descriptor with a plain value keeps the field
   * cache: the next instance still has the removed field.
   */
  lemma StaleFieldsAfterOverwrite(st: ClassState, bases: seq<ClassDict>, name: string)
    requires name != "Meta" && IsPublic(name)
    requires name in st.own.attrs && st.own.attrs[name].Desc?
    requires CachesCurrent(st, bases) && st.unboundFields.Some?
    ensures var after := SetAttrAsWritten(st, name, Other);
            && name in after.unboundFields.value
            && name !in Discover([after.own] + bases)
            && !CachesCurrent(after, bases)
  {
    var after := SetAttrAsWritten(st, name, Other);
    DiscoverExactly([st.own] + bases, name);
    assert Lookup([after.own] + bases, name) == Some(Other);
    DiscoverExactly([after.own] + bases, name);
  }

  const IntegerField: Field := Raw("Integer", None)

  /**
   * As written, the hooks clear only the caches of the class they run on. After a
   * descriptor is assigned on a base class, a subclass that was instantiated before
   * keeps its field cache, and that cache lacks the new field.
   */
  lemma StaleSubclassAfterBaseChange(st: ClassState, base: ClassDict, rest: seq<ClassDict>, name: string, f: Field)
    requires IsPublic(name) && name !in st.own.attrs
    requires CachesCurrent(st, [base] + rest) && st.unboundFields.Some? && name !in st.unboundFields.value
    ensures var base' := base.(attrs := base.attrs[name := Desc(f)]);
            && name in Discover([st.own] + ([base'] + rest))
            && !CachesCurrent(st, [base'] + rest)
  {
    var base' := base.(attrs := base.attrs[name := Desc(f)]);
    var mro := [st.own] + ([base'] + rest);
    assert mro[1..] == [base'] + rest;
    assert Lookup(mro, name) == Some(Desc(f));
    DiscoverExactly(mro, name);
  }

  /** A subclass of a field-less class, instantiated, then `test01` assigned on the base class. */
  lemma StaleSubclassExample()
    ensures var sub := ClassDict(map[], None);
            var base := ClassDict(map[], None);
            var st := ClassState(sub, Some(Discover([sub] + ([base] + [FieldsetDict]))), None);
            var base' := ClassDict(map["test01" := Desc(IntegerField)], None);
            && CachesCurrent(st, [base] + [FieldsetDict])
            && "test01" !in st.unboundFields.value
            && !CachesCurrent(st, [base'] + [FieldsetDict])
  {
    var sub := ClassDict(map[], None);
    var base := ClassDict(map[], None);
    var mro := [sub] + ([base] + [FieldsetDict]);
    var st := ClassState(sub, Some(Discover(mro)), None);
    assert IsPublic("test01") by { assert "test01"[..1] == "t"; }
    assert mro[1..] == [base] + [FieldsetDict] && mro[1..][1..] == [FieldsetDict] && mro[1..][1..][1..] == [];
    assert Lookup(mro, "test01").None?;
    DiscoverExactly(mro, "test01");
    StaleSubclassAfterBaseChange(st, base, [FieldsetDict], "test01", IntegerField);
  }

  /** A class holding one integer field `test01`, whose field cache is filled. */
  lemma StaleFieldsExample()
    ensures var own := ClassDict(map["test01" := Desc(IntegerField)], None);
            var st := ClassState(own, Some(Discover([own] + [FieldsetDict])), None);
            && CachesCurrent(st, [FieldsetDict])
            && "test01" in SetAttrAsWritten(st, "test01", Other).unboundFields.value
            && !CachesCurrent(SetAttrAsWritten(st, "test01", Other), [FieldsetDict])
  {
    var own := ClassDict(map["test01" := Desc(IntegerField)], None);
    var st := ClassState(own, Some(Discover([own] + [FieldsetDict])), None);
    assert IsPublic("test01") by { assert "test01"[..1] == "t"; }
    StaleFieldsAfterOverwrite(st, [FieldsetDict], "test01");
  }

  /**
   * As written, deleting a class's `Meta` keeps the merged-meta cache: the next
   * instance still uses the deleted declaration.
   */
  lemma StaleMetaAfterDelete()
    ensures var own := ClassDict(map[], Some(MetaDecl(Some(Names(["test01"])), None, None, None)));
            var bases := [FieldsetDict];
            var st := ClassState(own, Some(Discover([own] + bases)), Some(MergeMeta([own] + bases)));
            var after := DelMetaAsWritten(st);
            && CachesCurrent(st, bases)
            && !CachesCurrent(after, bases)
            && after.metadata.value.defaultFields == Names(["test01"])
            && MergeMeta([after.own] + bases).defaultFields == AllNames
  {
    var own := ClassDict(map[], Some(MetaDecl(Some(Names(["test01"])), None, None, None)));
    DeclaredMetaMerged(own);
    DeletedMetaMerged(own.(meta := None));
    assert Names(["test01"]) != AllNames;
  }

  lemma DeclaredMetaMerged(own: ClassDict)
    requires own.meta == Some(MetaDecl(Some(Names(["test01"])), None, None, None))
    ensures MergeMeta([own] + [FieldsetDict]).defaultFields == Names(["test01"])
  {
    var decl := own.meta.value;
    assert MetaChain([own] + [FieldsetDict]) == [decl, DefaultMetaDecl] by {
      assert ([own] + [FieldsetDict])[1..] == [FieldsetDict];
      assert [FieldsetDict][1..] == [];
    }
    MergeMostDerivedWins(decl, [DefaultMetaDecl]);
  }

  lemma DeletedMetaMerged(own: ClassDict)
    requires own.meta.None?
    ensures MergeMeta([own] + [FieldsetDict]).defaultFields == AllNames
  {
    MergeDefaults([own]);
  }

  /** Changing an attribute other than `name` leaves its lookup unchanged. */
  lemma LookupOwnUpdate(own: ClassDict, own': ClassDict, bases: seq<ClassDict>, name: string)
    requires forall n :: n != name ==> (n in own.attrs <==> n in own'.attrs)
    requires forall n :: n != name && n in own.attrs ==> own.attrs[n] == own'.attrs[n]
    ensures forall n :: n != name ==> Lookup([own] + bases, n) == Lookup([own'] + bases, n)
  {
    assert ([own] + bases)[1..] == bases && ([own'] + bases)[1..] == bases;
  }

  /** A change confined to a private name does not change the discovered fields. */
  lemma PrivateChangeKeepsFields(own: ClassDict, own': ClassDict, bases: seq<ClassDict>, name: string)
    requires !IsPublic(name)
    requires forall n :: n != name ==> (n in own.attrs <==> n in own'.attrs)
    requires forall n :: n != name && n in own.attrs ==> own.attrs[n] == own'.attrs[n]
    ensures Discover([own] + bases) == Discover([own'] + bases)
  {
    LookupOwnUpdate(own, own', bases, name);
    forall n ensures n in Discover([own] + bases) <==> n in Discover([own'] + bases) {
      DiscoverExactly([own] + bases, n);
      DiscoverExactly([own'] + bases, n);
    }
    forall n | n in Discover([own] + bases) ensures Discover([own] + bases)[n] == Discover([own'] + bases)[n] {
      DiscoverExactly([own] + bases, n);
      DiscoverExactly([own'] + bases, n);
    }
  }

  /** A fieldset class (a class whose metaclass is `FieldsetMeta`) with its two caches. */
  class FieldsetClass {
    /** The class's own namespace; assignments and deletions on the class change it. */
    var own: ClassDict
    /** The rest of the method resolution order, ending with `Fieldset`; changes to a base class change it. */
    var bases: seq<ClassDict>
    /** `_unbound_fields`: None until the first instantiation after a clear. */
    var unboundFields: Option<map<string, Field>>
    /** `_metadata_cls`, held as the merged configuration it resolves to. */
    var metadata: Option<Meta>

    function Mro(): seq<ClassDict>
      reads this
    {
      [own] + bases
    }

    /** Each cache, when present, is what rebuilding it now would produce. */
    ghost predicate Coherent()
      reads this
    {
      CachesCurrent(ClassState(own, unboundFields, metadata), bases)
    }

    /** `FieldsetMeta.__init__`: both caches start empty. */
    constructor (own: ClassDict, bases: seq<ClassDict>)
      ensures this.own == own && this.bases == bases
      ensures unboundFields == None && metadata == None
      ensures Coherent()
    {
      this.own := own;
      this.bases := bases;
      unboundFields := None;
      metadata := None;
    }

    /** The discovery loop of `__call__` over `dir(cls)`. */
    method DiscoverFields() returns (found: map<string, Field>)
      ensures found == Discover(Mro())
    {
      var mro := Mro();
      var names := VisibleNames(mro);
      found := map[];
      var todo := names;
      while todo != {}
        invariant todo <= names
        invariant found == DiscoverAmong(mro, names - todo)
      {
        var n :| n in todo;
        DiscoverAmongAdd(mro, names - todo, n);
        if IsPublic(n) {
          var a := Lookup(mro, n);
          if a.Some? && a.value.Desc? {
            found := found[n := a.value.field];
          }
        }
        assert names - (todo - {n}) == (names - todo) + {n};
        todo := todo - {n};
      }
    }

    /** The loop of `__call__` collecting the `Meta` of every class of `__mro__`. */
    method CollectMeta() returns (chain: seq<MetaDecl>)
      ensures chain == MetaChain(Mro())
    {
      var mro := Mro();
      chain := [];
      var i := |mro|;
      while i > 0
        invariant 0 <= i <= |mro|
        invariant chain == MetaChain(mro[i..])
      {
        i := i - 1;
        assert mro[i..][1..] == mro[i + 1..];
        if mro[i].meta.Some? {
          chain := [mro[i].meta.value] + chain;
        }
      }
      assert mro[0..] == mro;
    }

    /** `FieldsetMeta.__call__`: rebuilds whichever cache is empty, then instantiates. */
    method Call() returns (fs: Fieldset)
      requires Coherent()
      requires ChildrenValid(Discover(Mro()))
      modifies this
      ensures own == old(own) && bases == old(bases)
      ensures unboundFields == Some(Discover(Mro())) && metadata == Some(MergeMeta(Mro()))
      ensures Coherent()
      ensures fs == Instantiate(Mro()) && Valid(fs)
    {
      if unboundFields.None? {
        var found := DiscoverFields();
        unboundFields := Some(found);
      }
      if metadata.None? {
        var chain := CollectMeta();
        metadata := Some(MergeChain(chain));
      }
      fs := New(unboundFields.value, metadata.value);
    }

    /** `cls.Meta = decl`: clears the merged-meta cache. */
    method SetMeta(decl: MetaDecl)
      requires Coherent()
      modifies this
      ensures own == old(own).(meta := Some(decl)) && bases == old(bases)
      ensures metadata == None && unboundFields == old(unboundFields)
      ensures Coherent()
    {
      own := own.(meta := Some(decl));
      metadata := None;
    }

    /**
     * `cls.name = value` for any other name. Every public assignment clears the
     * field cache, whether or not the new value is a descriptor.
     */
    method SetAttr(name: string, value: Attr)
      requires name != "Meta"
      requires Coherent()
      modifies this
      ensures own == old(own).(attrs := old(own).attrs[name := value]) && bases == old(bases)
      ensures metadata == old(metadata)
      ensures unboundFields == if IsPublic(name) then None else old(unboundFields)
      ensures Coherent()
    {
      var before := own;
      own := own.(attrs := own.attrs[name := value]);
      if IsPublic(name) {
        unboundFields := None;
      } else {
        PrivateChangeKeepsFields(before, own, bases, name);
      }
    }

    /**
     * `del cls.name`. A public name clears the field cache, and "Meta" also
     * clears the merged-meta cache; `ok` is false when the class itself does not
     * define the name (Python raises AttributeError after clearing).
     */
    method DelAttr(name: string) returns (ok: bool)
      requires Coherent()
      modifies this
      ensures bases == old(bases)
      ensures name == "Meta" ==> ok == old(own).meta.Some? && own == old(own).(meta := None)
                                  && metadata == None
      ensures name != "Meta" ==> ok == (name in old(own).attrs) && own == old(own).(attrs := old(own).attrs - {name})
                                  && metadata == old(metadata)
      ensures unboundFields == if IsPublic(name) then None else old(unboundFields)
      ensures Coherent()
    {
      var before := own;
      if IsPublic(name) {
        unboundFields := None;
      }
      if name == "Meta" {
        ok := own.meta.Some?;
        own := own.(meta := None);
        metadata := None;
      } else {
        ok := name in own.attrs;
        own := own.(attrs := own.attrs - {name});
        if !IsPublic(name) {
          PrivateChangeKeepsFields(before, own, bases, name);
        }
      }
    }

    /**
     * A change to a class further up the resolution order (an attribute or `Meta`
     * assigned or deleted on a base class). Either cache may depend on the base, so
     * both are cleared.
     */
    method BaseChanged(newBases: seq<ClassDict>)
      modifies this
      ensures own == old(own) && bases == newBases
      ensures unboundFields == None && metadata == None
      ensures Coherent()
    {
      bases := newBases;
      unboundFields := None;
      metadata := None;
    }
  }

  /** Between changes, every instantiation sees the class as currently declared. */
  method TwoInstances(cls: FieldsetClass) returns (first: Fieldset, second: Fieldset)
    requires cls.Coherent()
    requires ChildrenValid(Discover(cls.Mro()))
    modifies cls
    ensures first == second == Instantiate(cls.Mro())
  {
    first := cls.Call();
    second := cls.Call();
  }
}
