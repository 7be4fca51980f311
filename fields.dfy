/**
 * Output-field descriptors of api/fields.py. A descriptor is anything the
 * fieldset engine treats as a field (it has `format` and `output`); the
 * variants are the library's plain fields and the project's own ones. The
 * type parameter `F` is the fieldset type an optional nested field points to.
 */
module Fields {
  import opened Wrappers
  import opened Strings

  datatype Descriptor<F> =
      /** A flask-restful field such as `fields.Integer` or `fields.String`; `kind` names it. */
    | Raw(kind: string, attribute: Option<string>)
      /** `OptionalNestedField`: an embed point with the `_optional_nested` tag. */
    | OptionalNested(nested: Option<F>, plain: Option<string>, plainKey: Option<string>,
                     default: Option<string>, attribute: Option<string>)
      /** `LazyNestedField`: a nested field that yields None for a missing key. */
    | LazyNested(attribute: Option<string>)
      /** `UsernameField`. */
    | Username(attribute: Option<string>)
      /** `PixmaUrl(format_type, attribute="pid")`. */
    | PixmaUrl(formatType: Option<string>, pidAttribute: string)

  /** The `_optional_nested` class tag: only `OptionalNestedField` carries it. */
  predicate OptionalNestedTag<F>(d: Descriptor<F>) {
    d.OptionalNested?
  }

  /** What the `nested` argument of `OptionalNestedField.__init__` was. */
  datatype NestedArg<F> =
      /** A fieldset class; `instance` is what calling it produced at construction time. */
    | NestedClass(instance: F)
      /** Anything else, stored as given (`None` included). */
    | NestedValue(value: Option<F>)

  /** `OptionalNestedField(nested, plain, plain_key, default, attribute)`. */
  function NewOptionalNested<F>(nested: NestedArg<F>, plain: Option<string>, plainKey: Option<string>,
                                default: Option<string>, attribute: Option<string>): (d: Descriptor<F>)
    ensures OptionalNestedTag(d)
    ensures nested.NestedClass? ==> NestedFieldset(d) == Some(nested.instance)
    ensures nested.NestedValue? ==> NestedFieldset(d) == nested.value
    ensures KeyField(d) == None
  {
    var stored := if nested.NestedClass? then Some(nested.instance) else nested.value;
    OptionalNested(stored, plain, plainKey, default, attribute)
  }

  /** `OptionalNestedField.nested_fieldset()`. */
  function NestedFieldset<F>(d: Descriptor<F>): Option<F>
    requires d.OptionalNested?
  {
    d.nested
  }

  /** `OptionalNestedField.key_field()`: its body is `pass`, so it always answers None. */
  function KeyField<F>(d: Descriptor<F>): Option<Descriptor<F>>
    requires d.OptionalNested?
  {
    None
  }

  /** The key `LazyNestedField.output` looks up: the configured attribute, else the field name. */
  function LazyKey<F>(d: Descriptor<F>, key: string): string
    requires d.LazyNested?
  {
    if d.attribute.Some? then d.attribute.value else key
  }

  /**
   * `LazyNestedField.output(key, obj)` up to the final `marshal` call: the value that
   * gets marshalled with the nested plan, or None when the key is absent.
   */
  function LazyOutput<F, V>(d: Descriptor<F>, key: string, data: map<string, V>): (r: Option<V>)
    requires d.LazyNested?
    ensures r.None? <==> LazyKey(d, key) !in data
    ensures r.Some? ==> r.value == data[LazyKey(d, key)]
    ensures d.attribute.Some? && d.attribute.value != key ==>
              r == (if d.attribute.value in data then Some(data[d.attribute.value]) else None)
  {
    var k := if d.attribute.Some? then d.attribute.value else key;
    if k !in data then None else Some(data[k])
  }

  /** A value handed to `UsernameField.format`: a member object or anything else. */
  datatype FormatValue = MemberValue(name: string) | OtherValue

  /** `UsernameField.format(value)`. */
  function UsernameFormat(value: FormatValue): (r: Option<string>)
    ensures r.Some? <==> value.MemberValue?
    ensures value.MemberValue? ==> r.value == value.name
  {
    match value
    case MemberValue(name) => Some(name)
    case OtherValue => None
  }

  /** The arguments of the `url_for("send_picture", ...)` call in `PixmaUrl.format`. */
  datatype UrlRequest = UrlRequest(endpoint: string, picId: int, typeString: Option<string>)

  function PixmaRequest<F>(d: Descriptor<F>, value: int): (r: UrlRequest)
    requires d.PixmaUrl?
    ensures r.endpoint == "send_picture" && r.picId == value
    ensures r.typeString.Some? <==> d.formatType.Some?
    ensures d.formatType.Some? ==> r.typeString == d.formatType
  {
    if d.formatType.None? then UrlRequest("send_picture", value, None)
    else UrlRequest("send_picture", value, d.formatType)
  }

  /**
   * `PixmaUrl.format(value)`: the request root and the route path joined by one "/".
   * Flask's `url_for` and `request.url_root` are parameters.
   */
  function PixmaFormat<F>(d: Descriptor<F>, value: int, urlRoot: string, urlFor: UrlRequest -> string): string
    requires d.PixmaUrl?
  {
    StripTrailing(urlRoot, '/') + "/" + StripLeading(urlFor(PixmaRequest(d, value)), '/')
  }

  /**
   * The url is the root without its trailing slashes, exactly one "/", and the
   * route path without its leading slashes.
   */
  lemma PixmaFormatJoinsOnce<F>(d: Descriptor<F>, value: int, urlRoot: string, urlFor: UrlRequest -> string)
    requires d.PixmaUrl?
    ensures var u := PixmaFormat(d, value, urlRoot, urlFor);
            var root := StripTrailing(urlRoot, '/');
            var path := urlFor(PixmaRequest(d, value));
            && StartsWith(urlRoot, root)
            && u == root + "/" + StripLeading(path, '/')
            && (|root| == 0 || u[|root| - 1] != '/')
            && u[|root|] == '/'
            && (|u| == |root| + 1 || u[|root| + 1] != '/')
            && |u| - |root| - 1 <= |path| && u[|root| + 1..] == path[|path| - (|u| - |root| - 1)..]
  {
    JoinOnce(urlRoot, urlFor(PixmaRequest(d, value)));
  }

  lemma JoinOnce(urlRoot: string, path: string)
    ensures var root := StripTrailing(urlRoot, '/');
            var u := root + "/" + StripLeading(path, '/');
            && (|root| == 0 || u[|root| - 1] != '/')
            && u[|root|] == '/'
            && (|u| == |root| + 1 || u[|root| + 1] != '/')
            && |u| - |root| - 1 <= |path| && u[|root| + 1..] == path[|path| - (|u| - |root| - 1)..]
  {
    var root := StripTrailing(urlRoot, '/');
    var tail := StripLeading(path, '/');
    var u := root + "/" + tail;
    assert |u| - |root| - 1 == |tail|;
    assert u[|root| + 1..] == tail;
    assert u[|root|] == '/';
    if |root| > 0 { assert u[|root| - 1] == root[|root| - 1]; }
    if |tail| > 0 { assert u[|root| + 1] == tail[0]; }
  }
}
