# exma-api core, modelled in Dafny

This project models the core of the eXma web API and proves properties of the model.
The API serves forum, event and picture data from the database of an Invision Power
Board (IPB).

The centre of the model is the **fieldset engine** of `api/fieldset.py`, together with
the descriptors of `api/fields.py`.

- **Fieldset classes.** A fieldset class declares output-field descriptors. Its
  metaclass discovers them and merges the `Meta` configuration along the class
  hierarchy. It caches both results on the class, and assignments and deletions on
  the class clear those caches (`fieldset_class.dfy`, a Dafny `class` with the two
  caches as fields).
- **Fieldset instances.** An instance computes the set of optionally embedded
  (nested) fields, the recursive dotted name universes `all_field_names` and
  `nested_field_names`, and the default field and embed sets (`fieldset_schema.dfy`).
  Each `_find_*` loop is a method proved against a specification function, and the
  recursive universes are proved equal to independent recursive definitions.
- **Selector parser.** `FieldSetParser` validates the `fields` and `embedd` query
  strings (`fieldset_parser.dfy`).
- **Marshalling plan.** `marshall_dict` turns the two selections into a plan. The plan
  keeps each selected field's descriptor, embeds the child fieldset's own plan, or
  degrades the field to its key field (`fieldset_marshal.dfy`).

Around the engine sit small rules over the board's legacy data formats:

- `ipb_mess.dfy`: the ordered escaping chain `ipb_clean_value` (`ipb_mess.py`).
- `message.dfy`: the private-message folder list, that is, the `vdirs` column parser
  `DirList`, the `dir_N` allocator, and the `VirtualDir` properties
  (`db_backend/utils/message.py`). It uses imperative classes over the column text.
- `user.dfy`: forum permissions, the validation of a ban line, and the anonymous API user
  (`db_backend/utils/user.py`).
- `legacy_user.dfy`: the older copy of that file (`db_backend/user.py`). Only its
  `parse_permissions` is modelled. It lacks the newer guard for an empty permission
  array. Its other differences are listed under "Left out".
- `events.dfy` and `event_registrations.dfy`: the event-category registry and event
  instances (`db_backend/events.py`). The module-level `make` calls of that file fill one
  concrete registry. They sit in their own module, `EventRegistrations`, apart from the
  registry's general operations and lemmas, which hold for every registry.
- `calendar.dfy`: the proleptic Gregorian calendar and the `relativedelta` month
  arithmetic that the event request rules use.
- `request_parsing.dfy`: the defaulted and validated event interval, and the
  resolution of a category keyword argument (`api/events/request_parsing.py`).
- `mapping.dfy`: the rules the database mapping adds to its rows
  (`db_backend/mapping/__init__.py`). These are comma-separated id sets, forum read
  access, the event window filter, event recurrence and type names, a member's group
  masks, password checks and bans.
- `thumbnailer.dfy`: the centred square crop box (`thumbnailer.py`).

The following are parameters of the model: the PHP deserialiser, the md5-based
password hash, Flask's `url_for` and request root, the conversion of ban-line parts
into a ban, the wall clock comparison of a ban, and today's date.

## Model

| member | source | states |
|---|---|---|
| FieldsetClasses.Lookup | api/fieldset.py:18 | a class attribute is found iff some class of the resolution order defines it, and its value is the one of the first such class |
| FieldsetClasses.DiscoverExactly | api/fieldset.py:15-21 | a name is a discovered field iff it is public and resolves to a descriptor; the field is the most-derived descriptor; plain values such as strings are ignored |
| FieldsetClasses.FieldsetClass.DiscoverFields | api/fieldset.py:15-21 | the discovery loop over `dir(cls)` yields exactly the discovered field map |
| FieldsetClasses.MetaChain | api/fieldset.py:23-26 | the collected `Meta` declarations are exactly those of the classes of the resolution order, at most one per class |
| FieldsetClasses.FieldsetClass.CollectMeta | api/fieldset.py:23-26 | the loop over `__mro__` collects that chain, most derived first |
| FieldsetClasses.Pick | api/fieldset.py:27 | a merged `Meta` attribute comes from the first declaration that sets it, and from the fallback when none does |
| FieldsetClasses.MergeDefaults | api/fieldset.py:51-55 | with no `Meta` but the base class's, the merged configuration is `DefaultMeta` (None, None, "fields", "embedd") |
| FieldsetClasses.MergeMostDerivedWins | api/fieldset.py:22-27 | merging is per key: the most-derived declaration wins each key it sets, and the other keys come from the rest of the chain |
| FieldsetClasses.FieldsetClass.constructor | api/fieldset.py:8-11 | a new class starts with both caches empty, which is coherent |
| FieldsetClasses.FieldsetClass.Call | api/fieldset.py:13-29 | instantiation rebuilds whichever cache is empty; afterwards both caches hold the current discovery and merge, and the instance is the well-formed fieldset of the current declarations |
| FieldsetClasses.TwoInstances | api/fieldset.py:13-29 | two instantiations without a change in between give the same instance, built from the current declarations |
| FieldsetClasses.FieldsetClass.SetMeta | api/fieldset.py:35-36 | assigning `Meta` replaces the declaration, clears the merged-meta cache, leaves the field cache alone and keeps both caches coherent |
| FieldsetClasses.FieldsetClass.SetAttr | api/fieldset.py:31-39 | corrected (Findings row 1): assigning any other attribute updates the namespace; a public name clears the field cache, a private name keeps it; the caches stay coherent |
| FieldsetClasses.FieldsetClass.DelAttr | api/fieldset.py:41-48 | corrected (Findings row 2): deleting a public name clears the field cache, deleting `Meta` also clears the merged-meta cache, success iff the class itself defined the name; the caches stay coherent |
| FieldsetClasses.FieldsetClass.BaseChanged | api/fieldset.py:31-48 | corrected (Findings row 6): a change to a class further up the resolution order clears both caches of this class, which keeps them coherent |
| FieldsetClasses.PrivateChangeKeepsFields | api/fieldset.py:17 | a change confined to a private name leaves the discovered fields unchanged, which is why such a change may keep the field cache |
| FieldsetClasses.SetAttrAsWritten | api/fieldset.py:31-39 | as written, the field cache is cleared only when a public name is assigned a descriptor |
| FieldsetClasses.StaleFieldsAfterOverwrite | api/fieldset.py:37-38 | as written, overwriting a public descriptor with a plain value keeps the removed field in the cache, so the caches are no longer current |
| FieldsetClasses.StaleFieldsExample | api/fieldset.py:37-38 | the same for a class with one integer field `test01` |
| FieldsetClasses.StaleSubclassAfterBaseChange | api/fieldset.py:31-48 | as written, the hooks clear only their own class's caches; after a descriptor is assigned on a base class, a subclass's filled field cache lacks the new field and is no longer current |
| FieldsetClasses.StaleSubclassExample | api/fieldset.py:37-38 | the same for an empty subclass of an empty class, after `test01` is assigned an integer field on the base class |
| FieldsetClasses.DelMetaAsWritten | api/fieldset.py:41-48 | as written, deleting `Meta` clears only the field cache |
| FieldsetClasses.StaleMetaAfterDelete | api/fieldset.py:46-47 | as written, after deleting a `Meta` that sets `default_fields`, the merged-meta cache still holds the deleted setting while the declarations now merge to the default |
| Schema.FindNested | api/fieldset.py:70-75 | `_find_nested` yields exactly the own fields carrying the optional-nested tag |
| Schema.FindNestedAll | api/fieldset.py:77-87 | `_find_nested_all` yields the nested names plus "n.y" for every embeddable name y of each nested child |
| Schema.FindFieldsAll | api/fieldset.py:89-100 | `_find_fields_all` yields the own names plus "n.x" for every field name x of each nested child |
| Schema.New | api/fieldset.py:59-68 | `FieldsetBase.__init__` stores fields and meta and computes all name sets, giving a well-formed fieldset when the children are well formed |
| Schema.UniversesAreRecursive | api/fieldset.py:118-124 | `all_field_names` and `nested_field_names` of a well-formed fieldset equal independent recursive definitions over the field tree |
| Schema.NestedWithinAll | api/fieldset.py:77-100 | nested names are own fields, and every embeddable name is a field name |
| Schema.DottedHeadIsNested | api/fieldset.py:89-100 | a field name is own iff it has no dot; a dotted one splits at its first dot into a nested field and a field name of that child |
| Schema.DottedNestedHeadIsNested | api/fieldset.py:77-87 | a dotted embeddable name splits into a nested field and an embeddable name of that child |
| Selection.Elements | api/fieldset.py:138 | splitting a selector gives a non-empty set of comma-free names |
| Selection.ParseOutcomes | api/fieldset.py:132-143 | a non-string is rejected with "Need a str"; only "" means use the defaults; a non-empty text is accepted iff all its names are known, and then the result is its set of names; a rejection message starts with "Unknown fields: " and names every unknown name |
| Selection.ParseIgnoresOrderAndRepetition | api/fieldset.py:138 | selectors with the same comma pieces in any order or multiplicity parse alike |
| Selection.UnknownPairMessage | api/fieldset.py:139-141 | unknown names are reported sorted and joined by ", " ("test01,test02" gives "Unknown fields: test01, test02") |
| Strings.Sorted | api/fieldset.py:141 | `sorted` of a set of names: strictly ascending and holding exactly the set's names |
| Selection.EmbeddAcceptedAsFields | api/fieldset.py:157-160 | an embed selection the embed parser accepts is also accepted, with the same result, by the field parser |
| Selection.ParseOverrides | api/fieldset.py:156-163 | the parsed request overrides lie in the universes and are non-empty when present; with neither argument present, both are None |
| Selection.ParseOverridesExact | api/fieldset.py:156-163 | each present argument goes to its own parser and an absent one means the defaults; a rejected `fields` aborts with its message before `embedd` counts, then a rejected `embedd` does; the result is accepted iff neither is rejected, and then each selection is exactly its parser's set of names, or None for the defaults |
| Marshalling.Resolve | api/fieldset.py:171-177 | a None or empty selection falls back to the defaults; any other selection is used as given |
| Marshalling.GroupDotted | api/fieldset.py:181-193 | the grouping loop maps every first segment to the remainders of the dotted names that start with it, and skips names without a dot |
| Marshalling.BuildPlan | api/fieldset.py:195-205 | the result loop makes exactly one entry per selected own field, and each entry is the specified entry for that field |
| Marshalling.PlanEntryFor | api/fieldset.py:196-205 | one field's entry: a plain field keeps its descriptor, an embedded nested field holds its child's plan for the grouped remainders, and any other nested field holds its key field |
| Marshalling.MarshallDict | api/fieldset.py:165-207 | corrected (Findings row 3): `marshall_dict` returns the specified plan, with the child plan as the embedded entry |
| Marshalling.MarshallShape | api/fieldset.py:170-205 | the plan's keys are exactly the selected (or default) names that are own fields; plain fields keep their descriptor; a nested field is embedded iff it is in the embed selection (or the default embeds) and otherwise renders as None |
| Marshalling.EmbeddedChildPlan | api/fieldset.py:197-201 | an embedded field with no dotted selection under it gets its child's default plan |
| Marshalling.DottedWithoutParentIgnored | api/fieldset.py:181-186 | for a non-empty field selection, adding a dotted name whose parent field is not selected leaves the plan unchanged |
| Marshalling.FieldGroupsStayInUniverse | api/fieldset.py:181-186 | for a selection inside `all_field_names`, each group of remainders lies in the child's field universe |
| Marshalling.EmbedGroupsStayInUniverse | api/fieldset.py:188-193 | for an embed selection inside `nested_field_names`, each group lies in the child's embeddable universe |
| Marshalling.EmbedFailsAsWritten | api/fieldset.py:199-201 | as written, the embed branch fails for every optional nested field, because none defines `nested_kwargs` |
| Fields.NewOptionalNested | api/fields.py:10-20 | an optional nested field carries the nested tag; a class argument is instantiated once and its instance is stored; any other argument is stored as given; its key field is None |
| Fields.LazyOutput | api/fields.py:31-37 | the key looked up is the configured attribute when set, else the field name; the result is None iff that key is absent, and otherwise the value under it |
| Fields.UsernameFormat | api/fields.py:44-47 | a member object formats as its name, and anything else as None |
| Fields.PixmaRequest | api/fields.py:74-77 | the route request is "send_picture" for the value, and carries a type string iff a format type is set |
| Fields.PixmaFormatJoinsOnce | api/fields.py:74-78 | the url is the root without its trailing slashes, exactly one "/", then the route path without its leading slashes |
| IpbMess.CleanValue | ipb_mess.py:84-87 | the loop applies the replacers one after another, in the listed order, each to the previous output |
| IpbMess.CleanValueEscapes | ipb_mess.py:16-29 | the cleaned value contains no `>`, `<`, `"`, `!` or `'` |
| IpbMess.SafeTextUnchanged | ipb_mess.py:16-29 | text without `&`, `<`, `>`, `"`, `!` and `'` passes unchanged (the empty text included) |
| IpbMess.AmpersandStepFirst | ipb_mess.py:17-29 | `&` is escaped before every step that writes an entity, and no later step matches `&`, so no entity is escaped twice |
| IpbMess.EscapedBlank | ipb_mess.py:17 | the escaped blank "&#032;" becomes a plain space |
| IpbMess.ScriptTagEscaped | ipb_mess.py:21 | the script guard ignores case: "<SCRIPT>" becomes "&#60;script&gt;" |
| Messages.ParseEntry | db_backend/utils/message.py:40-47 | an entry fails iff it has no ":"; the identifier is the colon-free text before the first ":" |
| Messages.ParseTailCounted | db_backend/utils/message.py:42-45 | a counted tail is the name, ";" and a ";"-free count text, so the name keeps any inner ";" |
| Messages.CustomNumber | db_backend/utils/message.py:49-50 | only identifiers starting with "dir_" carry a number; a number that does not parse is an error naming the identifier |
| Messages.ParseVdirsConsistent | db_backend/utils/message.py:34-54 | a successful parse yields a non-empty list whose order lists each identifier once, with every folder under its own identifier; `_max_custom` is exactly the larger of 2 and the largest `dir_` number (at least every number, and either 2 or the number of some filed identifier) |
| Messages.DirList.Load | db_backend/utils/message.py:36-54 | a missing or empty column is replaced by the template and written back; the list then holds exactly what parsing the column gives, or the parse error |
| Messages.DirList.Parse | db_backend/utils/message.py:39-54 | the parsing loop builds a valid list whose order, maximum and folders are those of the parse, or raises its error |
| Messages.DirList.Fill | db_backend/utils/message.py:39-54 | the loop over the entries stops at the first failing entry with its error; otherwise the list mirrors the parse result |
| Messages.DirList.Store | db_backend/utils/message.py:49-54 | one parsed entry raises `_max_custom` to its number and files its folder |
| Messages.DirList.Accept | db_backend/utils/message.py:53-54 | a new identifier is appended to the order, a known one keeps its place and gets the new folder |
| Messages.DirList.GetItem | db_backend/utils/message.py:56-57 | indexing finds the folder filed under the key, and fails iff there is none |
| Messages.DirList.Contains | db_backend/utils/message.py:59-60 | `in` holds iff indexing with the key would find a folder, which for a loaded list is iff the key is in the insertion order |
| Messages.DirList.AsList | db_backend/utils/message.py:62-64 | `as_list` gives the folders in insertion order, one per identifier |
| Messages.DirList.AddDir | db_backend/utils/message.py:66-70 | `add_dir` raises `_max_custom` by one and appends an empty-count folder under a new "dir_N", replacing no folder and keeping the list valid |
| Messages.CustomNumberOfNew | db_backend/utils/message.py:68 | the identifier made for number N carries exactly N |
| Messages.VirtualDir.Get | db_backend/utils/message.py:18-21 | reading fails iff the key is not one of the three property names, with the key as the error |
| Messages.VirtualDir.Update | db_backend/utils/message.py:12-16 | corrected (Findings row 4): an unknown key fails and changes nothing; a known key sets that property, keeps the other two, and writes the list back to the member's column |
| Messages.UpdateAsWritten | db_backend/utils/message.py:72-79 | as written, the write-back completes only for an empty dictionary (and then rebinds `_member_extra`); otherwise it raises AttributeError |
| Messages.DirList.UpdateAsWrittenRaises | db_backend/utils/message.py:72-79 | as written, the write-back raises for every loaded list |
| Messages.DirList.Save | db_backend/utils/message.py:72-79 | corrected (Findings row 4): the write-back stores every folder as "id:name" plus ";count" when it has a count, joined by "\|", in the member's column |
| Messages.SerializeRoundTrip | db_backend/utils/message.py:72-79 | parsing the written text of well-formed folders with distinct identifiers gives back the same folders in the same order |
| Users.CollectMasks | db_backend/utils/user.py:74-78 | the inner loop collects the `int()` of every comma piece it accepts |
| Users.CollectPermissions | db_backend/utils/user.py:71-78 | the outer loop yields one mask set per permission type |
| Users.ParsePermissions | db_backend/utils/user.py:64-79 | `parse_permissions` of the deserialised array, `{}` for the empty array, and failure when deserialising fails |
| Users.EmptyArrayHasNoPermissions | db_backend/utils/user.py:65-66 | the empty array gives no permissions, whatever the deserialiser does |
| Users.ParsedKeepsTypes | db_backend/utils/user.py:71-73 | every type of the array is present, and a null list gives the empty set |
| Users.EmptyListNoMasks | db_backend/utils/user.py:74-78 | an empty list holds no masks |
| Users.MaskSetAppend | db_backend/utils/user.py:74-78 | one more comma piece adds its value iff `int()` accepts it, so non-integers are dropped and duplicates collapse |
| Users.MaskSetOfOne | db_backend/utils/user.py:74-78 | a single formatted id is read back as itself |
| Users.ForumPermissions.IsFulfilled | db_backend/utils/user.py:40-45 | true iff the type is present and some given mask is in its set |
| Users.FulfilledConcat | db_backend/utils/user.py:42-44 | checking two mask lists together is checking either |
| Users.NothingGrantsNothing | db_backend/utils/user.py:40-45 | no masks, or an unknown type, never grants anything |
| Users.BanParts | db_backend/utils/user.py:146-148 | no line, the line "0" and a line without exactly four ":"-parts carry no ban; otherwise the four colon-free parts that join back to the line |
| Users.BanPartsOfLine | db_backend/utils/user.py:146-148 | a line made of four colon-free parts passes with exactly those parts |
| Users.ApiUser.Authenticated | db_backend/utils/user.py:170-175 | the anonymous user is never authenticated |
| Users.GuestPermission | db_backend/utils/user.py:177-184 | the guest's masks are `[2]`, so a guest may do exactly what mask 2 may do |
| LegacyUsers.ParsePermissions | db_backend/user.py:56-69 | the older `parse_permissions` always deserialises, then parses like the newer one |
| LegacyUsers.AgreesOnNonEmpty | db_backend/user.py:56-69 | on a non-empty array both revisions agree |
| LegacyUsers.EmptyArrayDiffers | db_backend/user.py:56-60 | on the empty array the older one fails where the deserialiser rejects it, while the newer one gives no permissions |
| Events.Unknown | db_backend/events.py:59-61 | the unknown category is (-1, "unknown", "(UNBEKANNT)") |
| Events.Registry.constructor | db_backend/events.py:28-29 | the registry starts with both dictionaries empty |
| Events.Registry.Make | db_backend/events.py:63-66 | `make` registers the category under its id and points its tag at that id; both lookups then find it and the registry stays valid |
| Events.Registry.ById | db_backend/events.py:45-49 | the registered category of the id, or the unknown one |
| Events.Registry.ByTag | db_backend/events.py:51-57 | the category of the tag's id, or the unknown one when the tag or its id is unregistered |
| Events.ByTagIsById | db_backend/events.py:51-57 | a tag lookup is an id lookup through the tag dictionary |
| Events.SortById | db_backend/events.py:71 | sorting gives a permutation ordered by id |
| Events.Registry.AllCategories | db_backend/events.py:68-71 | every registered category exactly once (a permutation of the values), sorted by id |
| EventRegistrations.Initial | db_backend/events.py:74-81 | the module-level `make` calls fill the registry with the eight initial categories and tags |
| EventRegistrations.InitialRegistry | db_backend/events.py:74-81 | the initial ids are 0 to 7, each under its own distinct tag, and every tag leads back to its category |
| EventRegistrations.InitialByTag | db_backend/events.py:74-81 | every initial category is found both by its id and by its tag |
| Events.NewInstance | db_backend/events.py:89-100 | an instance starts at its date and is never editable or all-day |
| Events.EventInstance.End | db_backend/events.py:111-118 | an instance ends exactly six hours after its start |
| Calendar.AddSeconds | db_backend/events.py:118 | adding less than a day of seconds gives a valid time exactly that many seconds later |
| Calendar.FirstOfMonth | api/events/request_parsing.py:46 | `relativedelta(day=1)` keeps year and month and sets the day to 1 |
| Calendar.AddMonths | api/events/request_parsing.py:53 | `relativedelta(months=k)` moves the month index by k and clips the day to the new month's length |
| Calendar.FirstOfPreviousMonth | api/events/request_parsing.py:49 | `relativedelta(day=1, months=+1)` subtracted gives the first of the previous month |
| EventRequests.Bounds | api/events/request_parsing.py:44-54 | given bounds are kept; a missing end is midnight one month after the start's date |
| EventRequests.ParseInterval | api/events/request_parsing.py:56-60 | end before start aborts with 400 "start cannot be before end!"; more than 100 days aborts with 400 "time interval too wide"; anything else is accepted |
| EventRequests.AcceptedIntervalBounded | api/events/request_parsing.py:56-60 | every accepted interval is ordered and at most 100 days long |
| EventRequests.NeitherBoundGiven | api/events/request_parsing.py:44-47 | with neither bound, the interval is today's month from its first day's midnight, and it is accepted |
| EventRequests.OnlyEndGiven | api/events/request_parsing.py:48-50 | with only an end, the start is the first of the month before the end's month, and the interval is accepted |
| EventRequests.OnlyStartGiven | api/events/request_parsing.py:52-54 | with only a start, the end is midnight one month after its date, and the interval is accepted |
| EventRequests.BothBoundsGiven | api/events/request_parsing.py:56-60 | with both bounds, the interval is accepted iff it is ordered and at most 100 days long (exactly 100 days passes) |
| EventRequests.EventInterval.constructor | api/events/request_parsing.py:24-26 | both bounds start unset |
| EventRequests.EventInterval.Parse | api/events/request_parsing.py:28-63 | `_parse` stores both bounds of an accepted interval, or returns the abort and stores nothing |
| EventRequests.EventInterval.Start | api/events/request_parsing.py:65-74 | `start` parses only when no start is stored; a stored start is returned unchanged |
| EventRequests.EventInterval.End | api/events/request_parsing.py:76-85 | `end` parses only when no end is stored; a stored end is returned unchanged |
| EventRequests.CategoryOfId | api/events/request_parsing.py:92 | an integer id is looked up; a text is never a registered id |
| EventRequests.CategoryOfTag | api/events/request_parsing.py:94 | a text tag is looked up; an integer is never a registered tag |
| EventRequests.ResolveCategory | api/events/request_parsing.py:88-97 | `category_id` is consumed and looked up first, then `category_tag`; with neither, the category is None and the keywords are unchanged |
| EventRequests.IdTakesPrecedence | api/events/request_parsing.py:91-94 | with both keywords, the tag's value is irrelevant and the tag is passed on untouched |
| EventRequests.OtherKeywordsKept | api/events/request_parsing.py:97 | every other keyword reaches the handler unchanged, and no keyword is added |
| Mapping.ParsePiecesDefined | db_backend/mapping/__init__.py:385-386 | the comprehension succeeds iff every non-empty piece is an integer |
| Mapping.ParsePiecesMembers | db_backend/mapping/__init__.py:385-386 | the parsed set holds exactly the integers some piece reads as |
| Mapping.SplitSetFails | db_backend/mapping/__init__.py:385-386 | `_split_set` fails iff some non-empty comma piece is not an integer |
| Mapping.SplitSetIsMaskSet | db_backend/mapping/__init__.py:385-386 | where `_split_set` succeeds it reads the same ids as the forgiving permission-list parser |
| Mapping.SplitSetSimple | db_backend/mapping/__init__.py:385-386 | an empty column is the empty set, and a single formatted id is read back |
| Mapping.CanRead | db_backend/mapping/__init__.py:71-79 | a forum is readable iff the masks fulfil its `read_perms` |
| Mapping.SpanningEventMissed | db_backend/mapping/__init__.py:232-240 | as written, an event from 5 to 20 is not selected for the window [10, 20), though it covers it |
| Mapping.QueryBetweenIsOverlap | db_backend/mapping/__init__.py:232-240 | corrected (Findings row 5): the filter selects exactly the events whose span meets the window |
| Mapping.QueryBetweenDifference | db_backend/mapping/__init__.py:232-240 | the filter as written selects a subset of the corrected one, missing exactly the events that start before the window and end at its end |
| Mapping.RecurrenceInterval | db_backend/mapping/__init__.py:183-187 | daily iff the type is 0 |
| Mapping.TypeName | db_backend/mapping/__init__.py:189-196 | "WEEKLY" for types other than 0; for type 0, "SINGLE" under one day and "DAYLY" otherwise |
| Mapping.TypeNameMatchesRecurrence | db_backend/mapping/__init__.py:183-196 | the type name is "WEEKLY" iff the recurrence is weekly, and "SINGLE" iff it is daily and shorter than a day |
| Mapping.GroupPermissions | db_backend/mapping/__init__.py:405-417 | `group_permissions` computes the specified union, or fails where a column fails to parse |
| Mapping.AddRows | db_backend/mapping/__init__.py:415-416 | the update loop adds the masks of every secondary group row, and fails at the first row that does not parse |
| Mapping.UnionOfMembers | db_backend/mapping/__init__.py:415-416 | a union holds exactly the ids of its sets |
| Mapping.GroupPermissionsMembers | db_backend/mapping/__init__.py:411-417 | a member's masks are exactly the primary group's, plus every secondary group's when the member has secondary groups |
| Mapping.GroupPermissionsFail | db_backend/mapping/__init__.py:412-416 | with secondary groups, one group column that does not parse makes the whole computation fail |
| Mapping.PasswordValid | db_backend/mapping/__init__.py:419-432 | no stored hash means no password is valid; otherwise valid iff the salted hash equals the stored one |
| Mapping.IsBanned | db_backend/mapping/__init__.py:445-451 | banned iff the ban line is well formed, converts into a ban, and that ban is active |
| Mapping.Authenticated | db_backend/mapping/__init__.py:475-481 | a member is authenticated iff not banned |
| Mapping.UnbannedLines | db_backend/mapping/__init__.py:445-451 | no ban line, or the line "0", leaves a member authenticated whatever the clock says |
| Thumbnailer.CropBox | thumbnailer.py:32-43 | the box is a square of side min(width, height) inside the image; a landscape image loses half the surplus (floored) on the left, and any other image on top |
| Thumbnailer.CropBoxCentred | thumbnailer.py:32-43 | the margins on either side differ by at most one pixel |
| Thumbnailer.SquareImageUncropped | thumbnailer.py:38-43 | a square image yields the full-image box |

## Left out

- `FieldsetClasses.FieldsetClass.SetAttr`, `DelAttr` and `SetMeta` are changes to the class they run on. A change to a base class reaches a subclass only through `BaseChanged`, the corrected behaviour of Findings row 6. The as-written propagation (none) is stated as values by `StaleSubclassAfterBaseChange`, not as a shared mutable base object: aliasing between class objects is not modelled.
- `LegacyUsers.ParsePermissions`: only this function of `db_backend/user.py` is modelled. Its `exma_passhash` hashes a `str` without encoding it first, which is a TypeError under Python 3. Its `ForumPermissions` lacks the `PERM_*` constants. Neither is modelled, since the newer copy in `db_backend/utils/user.py` is the one the mapping uses.
- `Mapping.TypeName`: the row's duration is a parameter. In the source, `end_date` calls the module `timestamps` instead of `timestamps.from_db` (db_backend/mapping/__init__.py:180). Also, `from_db` passes `pytz.utc` positionally to `replace` (db_backend/utils/timestamps.py:8). So `type_name` raises TypeError for every event of type 0. Only the branch logic is modelled.
- Everything that runs inside Flask, flask-restful, SQLAlchemy, PIL, phpserialize or hashlib is left out. The deserialiser, the password hash, `url_for` and the request root are function parameters.
- The `Fieldset.__call__` decorator and flask-restful's `marshal` of the data are left out. `reqparse` is reduced to a map of query arguments.
- `Selection.ParseOverrides`: does not model a query argument given several times, or a non-string value reaching the parser through `reqparse`.
- `Marshalling.PlanEntryFor`: the embedded entry is the child plan with the field, standing for `fields.Nested(plan, **kwargs)`. The options the wrapper would take are not modelled.
- `FieldsetClasses.Pick`: `type('Meta', bases, {})` is modelled as a lookup along the chain of declarations. Three cases are not modelled: the `Meta` classes' own base classes, a conflicting method resolution order, and the duplicate-base TypeError when two classes of the chain share one `Meta` object (`Meta = A.Meta`). The last two would raise TypeError.
- `dir()` order is not modelled: discovered fields and all name lists are sets, since every consumer of them uses set operations.
- A `Meta.default_fields` given as a single string (which `extend` would split into characters) is not modelled; name lists are sequences of names.
- Marshalling assumes every nested field has a child fieldset (`Embeddable`). A nested field whose `nested` is None is left out of `Marshall`; Python would fail on it when embedding.
- Fieldset nesting is a finite tree; cyclic nesting, which the source does not guard against, is left out.
- Python's `int()` is modelled as an optional sign followed by ASCII digits. Surrounding whitespace, underscores and non-ASCII digits are not modelled.
- The script guard's regular expression `(?i)<script` is modelled with ASCII case folding only.
- `Messages.VirtualDir.Update`: only text for `name` and `identifier` and an optional integer for `message_count` are modelled; other value types are not. A new `identifier` is stored on the folder and written to the column, as in Python, while the folder stays filed under its old dictionary key. The model states nothing about how such a renamed folder reads back, for example when it clashes with another identifier.
- `Messages.DirList.Load`: the folder objects are stated to mirror the parse, but not to be new objects on each load.
- The per-object caches `_perms` and `_ban` and the `_vdirs` cache of `DbMembersExtra` are not modelled.
- The conversion of a ban line's parts into a `UserBan` (`fromtimestamp`, the duration arithmetic) and the clock comparison of `UserBan.is_active` are parameters of `Mapping.IsBanned`.
- The event request's `start` and `end` arguments are modelled as already-converted local times. `fromtimestamp` and time zones are left out, and today's date is a parameter.
- `EventRequests.Bounds`: years are not restricted to Python's 1..9999, so `OverflowError` at the edge of the calendar is not modelled.
- `int(start.timestamp())` in `query_between` is not modelled; the filter is stated on integer timestamps.
- The recurrence rule, `make_event_instances`, `instances_between` and `first_instance` (dateutil `rrule`) are left out.
- `EventInstance.title` and the attribute forwarding of `EventInstance.__getattr__` are left out.
- `Events.Registry.AllCategories`: the order of the registry's values before sorting is not stated, and neither is the relative order of equal ids (ids are unique keys, so none exist).
- `_resolve_category` passes `category=` alongside the remaining keywords; a remaining keyword named `category` (a TypeError in Python) is not modelled.
- All queries (`by_id`, `by_name`, `readable_by`, `guest_readable`, `for_user`, `by_topic_query`) are left out. They are database access; the permission rule they apply is `Mapping.CanRead`.
- `Thumbnailer.CropBox`: `int(delta / 2)` is modelled as exact floor division. Float rounding for widths beyond 2^53 pixels is left out. Loading, scaling into the 120 × 120 `THUMB_SIZE` box, and JPEG encoding are left out.
- The template text is not proved to parse into the two default folders.

## Findings

| source | as written | input that shows it | evidently intended | confidence | as-written member | corrected member |
|---|---|---|---|---|---|---|
| api/fieldset.py:37-38 | the field cache is cleared only when a public name is assigned a descriptor | a class with field `test01` is instantiated, then `test01` is assigned a plain value; the next instance still has the field | any public assignment may change the fields, so it clears the cache | not executed | FieldsetClasses.StaleFieldsAfterOverwrite | FieldsetClasses.FieldsetClass.SetAttr |
| api/fieldset.py:46-47 | deleting `Meta` clears only the field cache | a class whose `Meta` sets `default_fields = ["test01"]` is instantiated and its `Meta` deleted; the next instance still uses `["test01"]` | deleting `Meta` clears the merged-meta cache, as assigning it does | not executed | FieldsetClasses.StaleMetaAfterDelete | FieldsetClasses.FieldsetClass.DelAttr |
| api/fieldset.py:201 | the embed branch calls `nested_kwargs()`, which `OptionalNestedField` does not define | any selection that embeds an optional nested field raises AttributeError | the embedded entry wraps the child's plan | not executed | Marshalling.EmbedFailsAsWritten | Marshalling.MarshallDict |
| db_backend/utils/message.py:72-79 | `update` iterates the dictionary's keys, reads `.identifier` of a string, and assigns the result to `_member_extra` | any property assignment on a loaded folder list raises AttributeError | every folder is written as "id:name;count", and the text is stored in the `vdirs` column | not executed | Messages.DirList.UpdateAsWrittenRaises | Messages.SerializeRoundTrip |
| db_backend/mapping/__init__.py:239-240 | the covering clause requires `end > end_timestamp` | an event from 5 to 20 and the window [10, 20) | an event covering the window, including one that ends at its end, is selected | not executed | Mapping.SpanningEventMissed | Mapping.QueryBetweenIsOverlap |
| api/fieldset.py:31-48 | the hooks clear only the caches of the class they run on, and every class keeps its own caches (api/fieldset.py:10-11) | `class B(Fieldset)` with no fields and `class S(B)`; `S()` is instantiated, then `B.test01 = fields.Integer()`; the next `S()` still lacks `test01` | a change to a class also clears the caches of its subclasses | not executed | FieldsetClasses.StaleSubclassExample | FieldsetClasses.FieldsetClass.BaseChanged |
