# dynantic in Dafny

A model of the core of **dynantic**, a DynamoDB object mapper built on
pydantic models. The core is the code between a declared model class and the
request dictionaries sent to DynamoDB. It covers:

- the field markers (`Key`, `SortKey`, `GSIKey`, `GSISortKey`, `Discriminator`);
- schema resolution in the `DynamoMeta` metaclass: key fields, the discriminator, the GSI definitions, inheritance and registered subclasses;
- the entity registry and polymorphic deserialization;
- the key dicts of `get`/`delete`/`update_item`, and the `scan_page` request;
- the serializer between Python values and DynamoDB attribute values, and the pagination cursor;
- the condition DSL (`Attr`, `&`, `|`, `~`, `compile_condition`);
- the chainable query and scan builders: their state, the requests they assemble, limit-truncated iteration over pages, and `page()`;
- the update compiler: the `SET`/`REMOVE`/`ADD`/`DELETE` grouping, the `#u_n{i}` / `:u_v{j}` placeholder counters, condition merging, and `execute`;
- the translation of DynamoDB client errors into the `DynanticError` family;
- `PageResult`.

There is one module per source file:

- `Common`: Option/Result, `str(n)`, `join`.
- `Values`: Python values as the mapper sees them (`Native`) and DynamoDB attribute values (`Wire`).
- `Errors`, `Serializer`, `Conditions`, `Fields`, `Config` and `Pagination`.
- `Requests`: the shapes of requests and responses.
- `Schema`: the metaclass.
- `Models`: the model class operations of `base.py`.
- `Reading`: what the query and scan builders share.
- `Query`, `Scan` and `Updates`.

Code that changes state step by step becomes imperative Dafny, each part proved against a specification function:

- the builders are classes whose chained calls are methods with `modifies` clauses;
- the registry is a class whose map the registration method updates;
- the field loop and the GSI loop of the metaclass are methods with loop invariants;
- so are the four clause loops of `_compile`, `to_dynamo`'s loop and the page/item loop of `__iter__`.

Several services are parameters rather than code:

- the boto3 `ConditionExpressionBuilder`;
- pydantic's `TypeAdapter.validate_python` (one validator per declared field);
- the DynamoDB client calls and the paginator.

Each is a function parameter. A paginator is a sequence of pages, optionally followed by a client fault. boto3's `TypeSerializer`/`TypeDeserializer` are modelled from their type mapping (`Serializer.Encode` / `Serializer.Decode`).

## Model

| member | source | states |
|---|---|---|
| Common.NatToStringInjective | dynantic/updates.py:279-296 | distinct counters render as distinct decimal strings, so no two placeholders collide |
| Common.PrefixedInjective | dynantic/updates.py:284-285 | `prefix + str(n)` determines `n`: `#u_n{i}` names are distinct for distinct `i` |
| Common.JoinSnoc | dynantic/updates.py:329 | `sep.join(parts + [p])` is the join of `parts`, the separator, then `p` |
| Values.Decimal.ToInt | dynantic/serializer.py:141-142 | `int(d)` of a whole decimal times `10^scale` is the digits: it is the value of the decimal |
| Values.IsoFormat | dynantic/serializer.py:112 | `isoformat()` is the naive text for a naive datetime, and the naive text followed by an offset suffix for an aware one |
| Values.TypeName | dynantic/updates.py:130-136 | `type(v).__name__`: the built-in names (`NoneType`, `bool`, `int`, `Decimal`, `str`, `bytes`, `set`, `list`, `dict`, `datetime`, `date`, `UUID`) for built-in values, the enum's class name for an enum member, the class name for any other object |
| Values.Get | dynantic/base.py:894 | `dict.get` yields the entry for a present key and `None` for a missing one |
| Errors.ConditionalCheckFailedError | dynantic/exceptions.py:33-43 | the message is "Conditional check failed", followed by ": <condition>" exactly when a non-empty condition is given |
| Errors.Translate | dynantic/exceptions.py:100-147 | every translated error keeps the fault as `original_error`; each error kind arises exactly for its own codes (table not found, conditional check, the three throttling codes, validation/serialization, collection size, transaction conflict, the two timeout codes); the generic error arises exactly for any other code, with the message "DynamoDB error (<code>): <message>"; `TableNotFoundError` names the given table or "unknown" in "Table '<name>' not found"; the dedicated kinds carry the client's message; no translation is a serialization or item-not-found error |
| Errors.ThrottlingCodesAgree | dynantic/exceptions.py:125-130 | the three throttling codes all give `ProvisionedThroughputExceededError` |
| Errors.MissingCodeIsUnknown | dynantic/exceptions.py:115-147 | a fault without a code is the generic error "DynamoDB error (Unknown): <message>" |
| Errors.TableNameOnlyForMissingTable | dynantic/exceptions.py:119-147 | the table name changes the result only for a missing table |
| Serializer.PrepareDateTime | dynantic/serializer.py:103-112 | a datetime with a zero UTC offset is its naive text plus "Z"; a naive datetime is its naive text; any other offset gets its `±HH:MM` suffix |
| Serializer.UtcDiffersFromIsoFormat | dynantic/serializer.py:103-112 | for UTC the stored text (`Z`) differs from `isoformat()` (`+00:00`) |
| Serializer.Prepare | dynantic/serializer.py:89-131 | without Enum members, the result is in prepared shape; sets stay sets and stay empty exactly when empty; lists keep their length; dicts keep their key set; any other scalar except datetime, date, UUID and Enum is unchanged (the per-type rules are `Serializer.PrepareRules`) |
| Serializer.PrepareRules | dynantic/serializer.py:89-131 | a datetime becomes its stored text, a date its ISO text, a UUID its text, an Enum member its value; a set is the set of its prepared elements; a list is its items prepared in order; a dict is its entries prepared under the same keys |
| Serializer.PrepareFixesPrepared | dynantic/serializer.py:89-131 | preparation leaves an already prepared value unchanged |
| Serializer.PrepareIdempotent | dynantic/serializer.py:89-131 | preparing twice is preparing once, for values without Enum members |
| Serializer.EncodeDecode | dynantic/serializer.py:36-64 | decoding an attribute value and encoding the result gives the attribute value back, for every value without an empty string or binary set |
| Serializer.EmptyStringSetBecomesNumberSet | dynantic/serializer.py:36-64 | an empty string set reads back as an empty set, which is written as an empty number set |
| Serializer.Restore | dynantic/serializer.py:133-148 | a decimal becomes an int exactly when it is whole, and then it is that int, and otherwise stays as it is; lists keep their length and dicts their key set; any other value is unchanged (the element-wise rules are `Serializer.RestoreRules`) |
| Serializer.RestoreRules | dynantic/serializer.py:133-148 | a list is its items restored in order; a dict is its entries restored under the same keys |
| Serializer.RestoreGivesRestored | dynantic/serializer.py:133-148 | no whole decimal remains outside a set after restoration |
| Serializer.RestoreIdempotent | dynantic/serializer.py:133-148 | restoring twice is restoring once |
| Serializer.FieldError | dynantic/serializer.py:37-41 | the error is a serialization error whose original error is the `TypeError` and whose message names the field |
| Serializer.ToDynamo | dynantic/serializer.py:28-45 | succeeds exactly when every prepared field encodes; the result is then the item of every field that is not an empty set, each encoded; otherwise the error names a field whose value does not encode |
| Serializer.EncodedStep | dynantic/serializer.py:33-44 | one more loop step adds the field's encoding, unless it is an empty set |
| Serializer.DropsExactlyEmptySets | dynantic/serializer.py:43-44 | the written item's keys are exactly the fields not holding an empty set |
| Serializer.ToDynamoValue | dynantic/serializer.py:47-60 | a failure is a serialization error wrapping the `TypeError` |
| Serializer.ToDynamoValueAgreesWithItems | dynantic/serializer.py:28-60 | a value serializes on its own exactly as it does as the only field of an item |
| Serializer.FromDynamo | dynantic/serializer.py:62-67 | the result has the item's key set |
| Serializer.FromDynamoRestored | dynantic/serializer.py:62-67 | every attribute read back is in restored shape |
| Serializer.PlainIsPrepared | dynantic/serializer.py:89-131 | plain values (those that survive a round trip) are already prepared |
| Serializer.PlainSetRoundTrip | dynantic/serializer.py:123-148 | a plain set written and read back is the set |
| Serializer.PlainValueRoundTrip | dynantic/serializer.py:28-67 | a plain value written and read back is the value |
| Serializer.PlainListRoundTrip | dynantic/serializer.py:127-145 | a list whose elements round-trip round-trips |
| Serializer.PlainDictRoundTrip | dynantic/serializer.py:129-147 | a dict whose entries round-trip round-trips |
| Serializer.ItemRoundTrip | dynantic/serializer.py:28-67 | `from_dynamo(to_dynamo(data))` gives back every field of plain data except those holding an empty set |
| Serializer.SerializeCursor | dynantic/serializer.py:69-77 | the cursor has the key's attribute names |
| Serializer.DeserializeCursor | dynantic/serializer.py:79-87 | succeeds exactly when every field encodes, with the item `to_dynamo` writes |
| Serializer.CursorRoundTrip | dynantic/serializer.py:69-87 | a key of string, binary and integer number attributes comes back unchanged from `deserialize_cursor(serialize_cursor(key))` |
| Serializer.EncodeItemInverts | dynantic/serializer.py:28-45 | a dict whose every field encodes to the matching key attribute writes exactly that key |
| Serializer.KeyAttributeRoundTrip | dynantic/serializer.py:62-131 | a key attribute read back is prepared, is not an empty set, and encodes to itself |
| Serializer.CursorNormalisesScale | dynantic/serializer.py:69-87 | a number key written with a trailing zero (`25.0`) comes back as `25`: the round trip is exact only up to the number's scale |
| Conditions.ExtractRaw | dynantic/conditions.py:239-262 | the boto3 condition of a `DynCondition` or the raw condition itself; a `TypeError` naming the type for anything else |
| Conditions.DynCondition.AndWith | dynantic/conditions.py:70-78 | `self & other` is `And(self.raw, raw(other))`; a non-condition is a `TypeError` |
| Conditions.DynCondition.RAndWith | dynantic/conditions.py:80-83 | `other & self` is `And(raw(other), self.raw)`; an operand that is not a condition is the `TypeError` naming its type |
| Conditions.DynCondition.OrWith | dynantic/conditions.py:85-93 | `self \| other` is `Or(self.raw, raw(other))`; a non-condition is a `TypeError` |
| Conditions.DynCondition.ROrWith | dynantic/conditions.py:95-98 | `other \| self` is `Or(raw(other), self.raw)`; an operand that is not a condition is the `TypeError` naming its type |
| Conditions.DynCondition.Invert | dynantic/conditions.py:100-107 | `~c` is `Not(c.raw)` and mentions the same attributes |
| Conditions.ComposeAttributes | dynantic/conditions.py:70-93 | `a & b` and `a \| b` mention exactly the attributes of `a` and `b` |
| Conditions.ReflectedOperatorsAgree | dynantic/conditions.py:70-98 | the reflected operators build the same tree as wrapping the raw condition and using the forward ones |
| Conditions.WrapCondition | dynantic/conditions.py:265-285 | a `DynCondition` is returned as it is; a raw condition is wrapped; anything else is `_extract_raw`'s `TypeError` |
| Conditions.WrapIdempotent | dynantic/conditions.py:278-281 | wrapping a wrapped condition changes nothing |
| Conditions.Attr.Leaf1 | dynantic/conditions.py:149-233 | every one-operand builder yields a leaf mentioning only the attribute's name |
| Conditions.AttrBuildersAreLeavesOnName | dynantic/conditions.py:144-233 | each builder of `Attr(name)`, `begins_with` included, is a single leaf on `name` with its operator and operands; `is_in` keeps the whole list as one operand |
| Conditions.CompileCondition | dynantic/conditions.py:288-340 | a non-condition is refused; otherwise the expression is the builder's; the name and value maps are present only when non-empty; every value placeholder keeps its key with the value serialized as `to_dynamo_value` does |
| Fields.Mark | dynantic/fields.py:6-136 | the marker keeps the default and the keyword arguments, puts its own entry in the extras, and keeps every other entry the caller supplied |
| Fields.MarkersSetOnlyTheirOwnEntry | dynantic/fields.py:6-136 | with no extras given, each marker's extras are exactly its own entry (`_dynamo_pk`, `_dynamo_sk`, `_dynamo_gsi_pk` = index, `_dynamo_gsi_sk` = index, `_dynamo_discriminator`) |
| Fields.MarkersKeepCallerExtras | dynantic/fields.py:6-136 | every marker keeps the caller's other extras and passes the default through |
| Config.NewGSIDefinition | dynantic/config.py:6-21 | the given index and key names, string key types and an `ALL` projection |
| Config.EntityRegistry.Register | dynantic/config.py:89-106 | an already taken value is refused with a message naming its owner and the registry is unchanged; otherwise exactly that one mapping is added |
| Config.ModelOptions.GetGsi | dynantic/config.py:44-66 | the definition exactly when the index is declared (so `has_gsi` agrees with `get_gsi`) |
| Config.ModelOptions.GetEntityClass | dynantic/config.py:77-87 | the registered class, or none when the value is not registered |
| Config.ModelOptions.RegisterEntity | dynantic/config.py:89-106 | the shared registry refuses a taken value with "Discriminator value '<v>' is already registered to <owner>, cannot register <class>" and stays unchanged, and otherwise gains exactly the one mapping; afterwards the value is registered |
| Config.NewModelOptions | dynantic/config.py:23-43 | the defaults: no sort key, region "us-east-1", no indexes, an empty registry, not a base entity, no parent and no discriminator value |
| Pagination.MakePage | dynantic/pagination.py:15-32 | items are kept as given, the count is their number, and `has_more` holds exactly when there is a cursor |
| Pagination.EmptyLastPage | dynantic/pagination.py:25-32 | a page with no items and no cursor has no more pages and a zero count |
| Schema.NameWhere | dynantic/base.py:149-176 | a name is found exactly when some field has the marker |
| Schema.GsiPkName | dynantic/base.py:179-187 | a partition-key field is found for an index exactly when some field declares one |
| Schema.GsiSkName | dynantic/base.py:189-197 | a sort-key field is found for an index exactly when some field declares one |
| Schema.Touch | dynantic/base.py:179-197 | `setdefault` makes the index known and keeps the first-seen order listing each index once |
| Schema.GsiPkStep | dynantic/base.py:179-187 | one field's GSI partition-key step keeps the first-seen order consistent |
| Schema.GsiSkStep | dynantic/base.py:189-197 | one field's GSI sort-key step keeps the first-seen order consistent |
| Schema.KeyStep | dynantic/base.py:163-176 | the table-key and discriminator step leaves the index keys alone |
| Schema.ScanStep | dynantic/base.py:157-197 | one field's step keeps the first-seen order consistent |
| Schema.ScanFrom | dynantic/base.py:149-197 | a successful scan lists every index it found once, in first-seen order |
| Schema.ScanFields | dynantic/base.py:149-197 | the field loop computes the scan over the fields in order |
| Schema.ScanPrefixFails | dynantic/base.py:149-197 | once a prefix of the fields fails, the whole scan fails with the same error |
| Schema.KeyStepDescribed | dynantic/base.py:163-176 | the table-key step fails exactly on a second partition key, sort key or discriminator, and otherwise records the field |
| Schema.GsiPkStepDescribed | dynantic/base.py:179-187 | the GSI partition-key step fails exactly on a second partition key for an index, and otherwise records it |
| Schema.GsiSkStepDescribed | dynantic/base.py:189-197 | the GSI sort-key step fails exactly on a second sort key for an index, and otherwise records it |
| Schema.ScanStepDescribed | dynantic/base.py:157-197 | one field's step succeeds exactly when the fields stay admissible and keeps the description of the state |
| Schema.ScanCharacterised | dynantic/base.py:149-197 | the scan succeeds exactly on admissible fields (at most one of each key kind and per index), and then finds their pk, sk, discriminator and index keys |
| Schema.SecondKeyRejected | dynantic/base.py:163-166 | a second `Key()` field is rejected |
| Schema.KeyWinsOverSortKey | dynantic/base.py:163-170 | a field with both markers counts only as the partition key |
| Schema.GsiFromCharacterised | dynantic/base.py:219-231 | the definitions are built exactly when every index has a partition key, each from its declared keys |
| Schema.GsiFromNamesFirstMissing | dynantic/base.py:221-225 | a failed build names the first index, in first-seen order, without a partition key |
| Schema.BuildGsiDefinitions | dynantic/base.py:219-231 | the GSI loop computes the definitions of the index keys in first-seen order |
| Schema.GsiPrefixFails | dynantic/base.py:219-231 | once a prefix of the order fails, the whole build fails the same way |
| Schema.DeclaredSchema.WithRegistry | dynantic/base.py:235-244 | the options are a base entity exactly when they have a discriminator field, and use the given registry |
| Schema.FirstBase | dynantic/base.py:101-217 | the position of the first base with the property, or none when no base has it |
| Schema.ResolvePending | dynantic/base.py:74-96 | a registered subclass copies the parent's table, keys, region, indexes and discriminator field, shares its registry, is not a base entity, and records the parent and its value |
| Schema.ResolvePendingAsWritten | dynantic/base.py:70-96 | as written, the branch succeeds, with the corrected options, only when the class carries the markers itself |
| Schema.ResolveSchema | dynantic/base.py:35-250 | the options the metaclass gives a class: none for `DynamoModel`, copied ones for subclasses (a marked class through the corrected `Schema.ResolvePending`, see "## Left out"), and a declaring class's options with a fresh, empty registry |
| Schema.DeclaredSchemaCharacterised | dynantic/base.py:142-244 | a class with `Meta` and a table name resolves exactly when its fields are admissible, it has or inherits a partition key, and every index has a partition key; keys, region, discriminator and index definitions are then those declared |
| Schema.MetaErrors | dynantic/base.py:124-145 | no `Meta` and no configured base is the "missing a 'class Meta'" error; a `Meta` without table name is the "missing a 'table_name'" error |
| Schema.MissingKeyRejected | dynantic/base.py:199-217 | without its own partition key and without a configured base, a class is rejected |
| Schema.PolymorphicSubclassSharesRegistry | dynantic/base.py:101-122 | a class without `Meta` below a polymorphic base shares that base's registry and options, is not a base entity, and records the base as parent |
| Schema.PlainSubclassCopiesBase | dynantic/base.py:124-140 | a class without `Meta` and no polymorphic base copies the first configured base's options, with no parent and no value |
| Schema.MarkedClassBecomesRegisteredSubclass | dynantic/base.py:70-96 | a class carrying registration markers resolves as a registered subclass of the marked parent, in the corrected resolution; as written this holds only for markers the class owns |
| Schema.InheritedMarkersFailAsWritten | dynantic/base.py:70-96 | as written, a class that inherits the markers fails on the `delattr`, where the corrected branch resolves it |
| Models.ModelClass.constructor | dynantic/base.py:35-250 | a class whose lineage is its ancestors and itself, with its options and no markers |
| Models.Register | dynantic/base.py:711-759 | a non-polymorphic base and a non-subclass are refused and nothing changes; otherwise the markers are set, the value is registered (or refused as taken with the "is already registered to <owner>" error, naming the subclass), and only on success the subclass's options record the value and the parent |
| Models.DiscriminatorOf | dynantic/base.py:893-896 | a value is read only for a discriminator field, and only when non-empty |
| Models.DeserializeItem | dynantic/base.py:877-906 | the instance holds the raw data; a polymorphic base builds the class registered for the item's value, and falls back to itself for a missing, empty, non-string or unregistered value (the source raises for a non-empty list, dict or set, see "## Left out"); any other class builds itself |
| Models.RegisteredValueSelectsSubclass | dynantic/base.py:892-903 | an item with a registered value becomes that subclass; an empty value stays the base |
| Models.KeyDict | dynantic/base.py:352-354 | the key has the partition key, and the sort key exactly when it is truthy and the model has a sort key |
| Models.FalsySortKeyDropped | dynantic/base.py:353 | a sort key of `0`, `""` or `None` is left out |
| Models.UpdateItemKey | dynantic/base.py:540-551 | a falsy or missing partition key is refused with its message; otherwise the partition key, and the sort key `key.get(sk_name)` for a model with one (`None` for a model without) |
| Models.UpdateItemKeyWithinGivenKey | dynantic/base.py:540-551 | the key used is the partition key of the given dict, plus its sort key when present |
| Models.DiscriminatorValueSerialized | dynantic/base.py:839-844 | the one `:disc_val` placeholder is bound to the discriminator value as `to_dynamo_value` serializes that string |
| Models.ScanPageRequest | dynantic/base.py:832-848 | the table; the index when given; the limit when non-zero; the discriminator filter and its maps exactly for a registered subclass; the start key; no key condition |
| Models.DeserializeAll | dynantic/base.py:865-868 | one instance per item, in order |
| Models.PageOf | dynantic/base.py:864-874 | the count is the number of items; `has_more` exactly when the response has a non-empty `LastEvaluatedKey`, whose attribute names the cursor keeps; every instance holds the item read back |
| Models.ScanPage | dynantic/base.py:797-874 | an undefined index is refused; a start key that does not serialize is the serializer's error; a client error is translated for the table; otherwise the page of the response to the request built |
| Reading.ComposeFilter | dynantic/query.py:219-260 | the first filter is the condition; each later one is the previous AND the condition; a non-condition is a `TypeError` |
| Reading.FilterChain | dynantic/scan.py:96-133 | after a series of `filter` calls there is a filter exactly when some call was made |
| Reading.FilterChainKeepsEveryCondition | dynantic/scan.py:128-131 | a chain of filters succeeds exactly when every argument is a condition, and the final filter mentions exactly the attributes of all of them |
| Reading.CombinedFilter | dynantic/scan.py:150-175 | only the user filter's compilation can fail; there is a filter exactly when there is a discriminator part or a user filter; it is the parts joined with " AND " and the maps extended by the user filter's |
| Reading.SubclassReadsAreFiltered | dynantic/query.py:91-101 | a read through a registered subclass always filters on `#disc = :disc_val` with the discriminator's name and value |
| Reading.FlattenPrefix | dynantic/scan.py:191-192 | the items of the first pages come first |
| Reading.StopAfter | dynantic/scan.py:199-200 | iteration stops after `limit` items for a non-zero limit, never for an unset or zero one |
| Reading.Outcome | dynantic/scan.py:188-200 | iteration yields every item in page order, cut at the stop count; a fault is raised, translated, only when it is reached before the stop count |
| Reading.OutcomeWhenStopped | dynantic/scan.py:199-200 | once the stop count is reached, the items are the first that many and no later fault is seen |
| Reading.OutcomeWhenExhausted | dynantic/scan.py:188-200 | without reaching the stop count, all items are yielded, or the translated fault |
| Reading.TakeItems | dynantic/scan.py:192-200 | the item loop over one page adds the page's items until the stop count |
| Reading.Collect | dynantic/scan.py:188-200 | the page/item loop computes the outcome of iteration |
| Reading.IterationHonoursLimit | dynantic/query.py:353-363 | without a fault, a positive limit yields `min(limit, total)` items and an unset or zero limit yields them all, in page order |
| Query.ConditionText | dynantic/query.py:105-202 | every single-value sort-key condition text differs from the `between` one |
| Query.QueryValueAsWritten | dynantic/query.py:74-89 | a datetime becomes its `isoformat()`; values other than datetime, date, UUID and Enum are unchanged |
| Query.SortKeyValueAsWritten | dynantic/query.py:74-113 | a datetime bound is written as the string of its `isoformat()` |
| Query.UtcBoundMissesStoredValue | dynantic/query.py:74-89 | a UTC datetime bound differs from the attribute `to_dynamo` stores for the same datetime |
| Query.SortKeyValue | dynantic/serializer.py:103-112 | a datetime bound is written as the serializer stores it |
| Query.SortKeyValueMatchesStored | dynantic/serializer.py:28-60 | the corrected bound equals the stored attribute for every value an item can hold |
| Query.SortKeyValuesAgreeOtherwise | dynantic/query.py:74-89 | the as-written and corrected bounds agree except for a UTC datetime |
| Query.QueryBuilder.constructor | dynantic/query.py:30-72 | the builder starts with only `:pk` and `#pk` bound, no sort-key condition, no limit, ascending order, no user filter, and the discriminator filter of a registered subclass |
| Query.QueryBuilder.Compare | dynantic/query.py:105-202 | without a sort key it is refused with "Index does not have a Sort Key defined." and nothing changes; otherwise the condition replaces any earlier one, `#sk` names the sort key, and `:sk` holds the value written as the attribute is stored (see Findings), or is left as it was when the value does not serialize |
| Query.QueryBuilder.Between | dynantic/query.py:117-130 | as the others, with `:low` and then `:high` bound to the bounds written as stored; a bound that does not serialize leaves its placeholder and the later one as they were |
| Query.QueryBuilder.Limit | dynantic/query.py:206-209 | only the limit changes, and the same builder is returned |
| Query.QueryBuilder.Reverse | dynantic/query.py:211-217 | only the order changes, to descending |
| Query.QueryBuilder.Filter | dynantic/query.py:219-260 | the user filter becomes the condition, or the previous AND it; a non-condition is refused and nothing changes |
| Query.QueryBuilder.UsingIndex | dynantic/query.py:262-282 | an undefined index is refused; otherwise the index and its key names are used, `#pk` is rebound, `#sk` only if already bound, and `:pk` is kept |
| Query.QueryBuilder.KeyExpression | dynantic/query.py:292-294 | `#pk = :pk`, followed by ` AND ` and the sort-key condition when one is set |
| Query.QueryBuilder.Request | dynantic/query.py:286-337 | the key condition with its maps extended by the filter's; the index when given; the limit when non-zero; `ScanIndexForward` always, as the builder's direction; the filter exactly when there is one; only the user filter's compilation can fail |
| Query.QueryBuilder.KeyPlaceholdersBound | dynantic/query.py:292-337 | every placeholder the key condition uses is bound in the request's maps |
| Query.QueryBuilder.All | dynantic/query.py:351-370 | the outcome of iterating the built request's pages with the limit as stop count |
| Query.QueryBuilder.First | dynantic/query.py:372-383 | a limit of one is set only when unset; the first item of the iteration, or none |
| Query.QueryBuilder.One | dynantic/query.py:385-392 | the first item, or "No items found for this query" |
| Query.QueryBuilder.Page | dynantic/query.py:394-497 | one `query` call for the built request, from the serialized start key when one is given; a client error translated for the table; otherwise the page of the response |
| Query.Open | dynantic/query.py:30-72 | an undefined index is refused; the index's key names replace the table's; a partition key value that does not serialize is the serializer's error; otherwise a fresh builder in its initial state |
| Scan.ScanBuilder.constructor | dynantic/scan.py:33-69 | no limit, no user filter, the given index, and the discriminator filter of a registered subclass |
| Scan.ScanBuilder.Limit | dynantic/scan.py:73-76 | only the limit changes, and the same builder is returned |
| Scan.ScanBuilder.UsingIndex | dynantic/scan.py:78-94 | an undefined index is refused and nothing changes; otherwise only the index changes |
| Scan.ScanBuilder.Filter | dynantic/scan.py:96-133 | the user filter becomes the condition, or the previous AND it; a non-condition is refused and nothing changes |
| Scan.ScanBuilder.Request | dynantic/scan.py:143-175 | the table; the index when given; the limit when non-zero; the filter and both maps exactly when there is a discriminator or user filter; only the user filter's compilation can fail |
| Scan.ScanBuilder.AgreesWithScanPage | dynantic/scan.py:143-175 | without a user filter the builder sends the very request `scan_page` sends |
| Scan.ScanBuilder.All | dynantic/scan.py:137-207 | the outcome of iterating the built request's pages with the limit as stop count |
| Scan.ScanBuilder.First | dynantic/scan.py:209-220 | a limit of one is set only when unset; the first item, or none |
| Scan.ScanBuilder.One | dynantic/scan.py:222-229 | the first item, or "No items found for this scan" |
| Scan.ScanBuilder.Page | dynantic/scan.py:231-318 | one `scan` call for the built request, with the serialized start key only for a non-empty one; a client error translated for the table; otherwise the page of the response |
| Scan.Open | dynantic/scan.py:33-57 | an undefined index is refused; otherwise a fresh builder in its initial state |
| Updates.Coerce | dynantic/updates.py:46-80 | an undeclared field keeps its value; a declared one takes the validator's value, or "Validation failed for field '<name>'" |
| Updates.Validate | dynantic/updates.py:59-155 | a removal and a `Set` to `None` carry no value; `Set` and `Delete` coerce; an accepted `Add` value is a number or a set, checked on the raw value for an undeclared field and on the coerced one otherwise; each failure of `Add` is stated with its error: the validation failure, the type refusal on a declared field, the value refusal on an undeclared one |
| Updates.AddAcceptsOnlyNumbersAndSets | dynantic/updates.py:103-137 | `Add` on an undeclared field is accepted exactly for a number or a set, and otherwise refused with "Invalid value for ADD operation"; on a declared field, a failed coercion gives "Validation failed for field", and a coerced value that is neither a number nor a set gives "Invalid type for ADD operation on field" |
| Updates.Place | dynantic/updates.py:248-267 | an action joins the list of its kind; a `Set` whose value is `None` joins the removals |
| Updates.GroupFrom | dynantic/updates.py:248-267 | a successful grouping places every action |
| Updates.GroupStep | dynantic/updates.py:248-267 | one more action: the earlier error stays, or its validation error, or it is placed |
| Updates.GroupPrefixFails | dynantic/updates.py:248-267 | the first action that fails validation decides the error |
| Updates.NumberedSnoc | dynantic/updates.py:276-296 | one more reference binds the next placeholder |
| Updates.NumberedAt | dynantic/updates.py:276-296 | the i-th reference is bound under its own placeholder |
| Updates.NumberedOnly | dynantic/updates.py:276-296 | the map binds no other placeholder |
| Updates.NumberedBindsEach | dynantic/updates.py:276-296 | every reference gets a fresh placeholder, with no merging |
| Updates.ClauseList | dynantic/updates.py:298-327 | one clause per action of the kind |
| Updates.Wires | dynantic/updates.py:289-296 | the values serialized, in order |
| Updates.FirstFailure | dynantic/updates.py:289-296 | there is a failure exactly when some value does not serialize |
| Updates.FirstFailureAt | dynantic/updates.py:289-327 | the loop's error is that of the first value that does not serialize |
| Updates.FirstFailureAppend | dynantic/updates.py:298-327 | the first failure of later kinds counts only when earlier kinds all serialize |
| Updates.FirstFailureByKind | dynantic/updates.py:298-327 | the first failing value overall is the SET one, else the ADD one, else the DELETE one |
| Updates.WiresSplit | dynantic/updates.py:298-327 | the values sent are those of SET, then ADD, then DELETE |
| Updates.NamesNumberEveryReference | dynantic/updates.py:276-327 | every attribute reference of all four kinds has its own `#u_n{i}`, and there are no others |
| Updates.ValuesNumberEveryValue | dynantic/updates.py:276-327 | every value of SET, ADD and DELETE has its own `:u_v{j}`, serialized, and there are no others |
| Updates.CompileSpec | dynantic/updates.py:233-353 | an empty action list is "No update actions specified"; a success has grouped every action and its update expression is that of the groups; a condition expression exactly when a condition is attached, and then it is the compiled condition's; maps present only when non-empty (the merged maps are stated by `Updates.CompiledWithCondition`) |
| Updates.CompiledWithoutCondition | dynantic/updates.py:329-353 | without a condition the parameters are the expression and the two maps, each only when non-empty |
| Updates.CompiledWithCondition | dynantic/updates.py:329-353 | with a condition, a condition that does not compile is the error; otherwise its expression is passed on and its name and value maps are merged into the update's, each merged map only when non-empty |
| Updates.SetNoneCompilesAsRemove | dynantic/updates.py:65-311 | `Set(field, None)` compiles to `REMOVE #u_n0`, binding only the name |
| Updates.AddBeforeSetCompilesSetFirst | dynantic/updates.py:298-329 | an `ADD` chained before a `SET` compiles to `SET #u_n0 = :u_v0 ADD #u_n1 :u_v1` |
| Updates.EmitRemovals | dynantic/updates.py:306-311 | the REMOVE loop: a fresh name per removal, no values |
| Updates.EmitValued | dynantic/updates.py:298-327 | the SET, ADD or DELETE loop: a fresh name and value per action; the error of the first value that does not serialize |
| Updates.GroupActions | dynantic/updates.py:248-267 | the grouping loop computes the grouping |
| Updates.EmitSetsAndRemovals | dynantic/updates.py:298-311 | the SET and REMOVE parts, with their maps and counters; the SET loop's serialization error |
| Updates.SetsEmitted | dynantic/updates.py:298-304 | the SET loop from empty maps numbers its names and values from zero |
| Updates.EmitAddsAndDeletes | dynantic/updates.py:313-327 | the ADD and DELETE parts continue the numbering |
| Updates.EmitClauses | dynantic/updates.py:298-329 | the four loops produce the expression and maps of the grouping, or the first serialization error |
| Updates.UpdateBuilder.constructor | dynantic/updates.py:163-169 | no actions, no condition, return mode "NONE" |
| Updates.UpdateBuilder.Append | dynantic/updates.py:171-209 | the action is appended; nothing else changes |
| Updates.UpdateBuilder.Condition | dynantic/updates.py:211-219 | the condition replaces any earlier one |
| Updates.UpdateBuilder.ReturnValues | dynantic/updates.py:221-231 | only the return mode changes |
| Updates.UpdateBuilder.Compile | dynantic/updates.py:233-353 | `_compile` computes the compiled parameters |
| Updates.UpdateBuilder.Execute | dynantic/updates.py:355-407 | the key (the sort key only when truthy and declared) serialized, then the compiled parameters; one call; a client error translated; with `ALL_NEW` and returned attributes, the updated item as the right class, otherwise the raw response |

## Left out

- Floats: `Decimal(str(float))` and the float branch of restoration. A non-whole decimal is restored as a decimal, standing in for the float.
- Dict insertion order: Python dicts are Dafny maps. Field declarations and the first-seen order of indexes are kept as sequences, because error messages depend on them.
- Serializer.Prepare: its own contract states the shapes it keeps. The per-type rules (datetime, date, UUID, Enum, and element by element for sets, lists and dicts) are stated by the lemma `Serializer.PrepareRules`, because every serialization in the model carries `Prepare`'s contract.
- Serializer.Restore: likewise, the element-wise rules for lists and dicts are stated by `Serializer.RestoreRules`.
- Serializer.ToDynamo: reports *a* field whose value does not encode, rather than the first in dict order. The message keeps only the prefix naming the field; the `repr` and the `TypeError` text are left out.
- Serializer.ToDynamoValue: the error message text (`repr` of the value) is left out; only its kind and cause are stated.
- Conditions.CompileCondition: the serialization error of a value is one fixed error, not the message naming the value.
- Decimal arithmetic context, microsecond offsets, string-valued enums beyond their value, `frozenset` (a set), and Decimal equality inside sets (numbers are compared by their exact value and scale).
- The pydantic instrumentation of the metaclass (`model_config`, `FieldInfo` rebuilding, `Attr` class attributes, base.py:38-64, 246-268) is reflection and not part of this model. Field declarations are given as a list of names and marker maps.
- Classes are identified by name. `issubclass` is a lineage set, and the method resolution order is approximated by the order of the bases.
- `DynamoModel` itself is not a `ModelClass`; its resolution is the "not a model" case.
- The aliasing of a caller's `json_schema_extra` dict, which the markers update in place, is not modelled: the markers return a new map.
- The client, the paginator, `_get_client`/`set_client`/`using_client`, logging and `redact_key` are left out. Client calls, paginators and the update actions' pydantic validation are function parameters.
- Models.DeserializeItem: never fails. In the source, a polymorphic base given a non-empty list, dict or set under the discriminator field passes it to `entity_registry.get` (base.py:896-897, config.py:87), which raises `TypeError: unhashable type`; the model falls back to the base class instead. The instantiation `cls(**raw_data)` is not validated either: a pydantic `ValidationError` on a malformed item is not modelled, and the instance simply holds the raw data.
- Serializer.Decode: a binary attribute (`B`, `BS`) is read back as `bytes`. boto3's `TypeDeserializer` gives `boto3.dynamodb.types.Binary`, whose `type(v).__name__` is "Binary", not "bytes".
- Laziness: iteration consumes a sequence of pages that may end in a fault. The generator's suspension between items is not modelled.
- Updates.Validate: the write-back of the coerced value into `action.value` (updates.py:258) is not modelled; the grouping carries the coerced value instead. pydantic's error detail text is a parameter of the validator.
- Updates.UpdateBuilder.Compile: the value serializer is the model's `to_dynamo_value`; the compiler's lemmas are stated for any serializer.
- A condition object that is falsy in Python is not distinguished from one that is truthy.
- `get`, `delete`, `save`, `patch` and `delete_item` are not modelled beyond their key dict (`Models.KeyDict`); their client calls are I/O.
- `query_index`'s own check of the index (base.py:689-708) is not modelled separately; its message lists the available indexes, and `Query.Open` states the builder's check.
- `page()` of the query builder sets `ExclusiveStartKey` twice with the same value (query.py:464-469); the model sets it once.
- Schema.ResolveSchema: a class carrying registration markers resolves through the corrected `Schema.ResolvePending`, not through the `delattr` of base.py:93. In the source, a class sees the markers only by inheriting them from a registered class, and that `delattr` then raises `AttributeError` (first row of "## Findings"; `Schema.ResolvePendingAsWritten` models the code as written).
- Schema.ResolveSpec: the same substitution as `Schema.ResolveSchema`, for the specification function it is proved against.
- Schema.MarkedClassBecomesRegisteredSubclass: states the corrected resolution for any marked class. The source gives it only to a class whose own body defines the markers.
- Query.QueryBuilder.Compare: binds `:sk` to the corrected `Query.SortKeyValue`, the value as the serializer stores it. The source binds `to_dynamo_value(_serialize_query_value(v))`, which differs for a UTC datetime (`+00:00` against `Z`) and for an Enum member whose value preparation rewrites (second row of "## Findings"; `Query.SortKeyValueAsWritten` models the code as written, and `Query.SortKeyValuesAgreeOtherwise` proves the two agree on every other value).
- Query.QueryBuilder.Between: the same substitution as `Query.QueryBuilder.Compare`, for `:low` and `:high`.
- `using_index` of the query builder never re-serializes `:pk` (query.py:278-280), and `one()` does not check uniqueness: both are kept as written.

## Findings

| source | as written | input that shows it | evidently intended | confidence | as-written member | corrected member |
|---|---|---|---|---|---|---|
| dynantic/base.py:70-96 | `register` (base.py:748-751) leaves the markers as class attributes, found by `getattr` on every later subclass; the branch then `delattr`s them from the new class, which does not own them | a class defined as a subclass of a registered subclass (`class Admin(User)` after `@Base.register("user")` on `User`) | the subclass resolves; the markers are read only from the class's own attributes or removed without error | medium, not executed | Schema.ResolvePendingAsWritten, Schema.InheritedMarkersFailAsWritten | Schema.ResolvePending |
| dynantic/query.py:74-89 | a sort-key bound is written with `isoformat()`, giving `+00:00` for a UTC datetime, while `_prepare_for_dynamo` (serializer.py:103-112) stores it with `Z` | `User.query(pk).eq(datetime(2024, 1, 1, tzinfo=timezone.utc))` against an item saved with that datetime | the bound is written the way the attribute is stored | medium, not executed | Query.SortKeyValueAsWritten, Query.UtcBoundMissesStoredValue | Query.SortKeyValue, Query.SortKeyValueMatchesStored |
