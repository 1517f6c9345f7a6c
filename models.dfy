/** The model class operations of dynantic/base.py that sit between the
    schema and the requests: registering entities on a polymorphic base,
    building instances of the right class, key dicts, and reading one page
    of a scan. */
module Models {
  import opened Common
  import opened Values
  import opened Errors
  import opened Serializer
  import opened Config
  import opened Pagination
  import opened Requests

  /** A model instance: the class it was built as and the data it was
      built from (validation by pydantic is not modelled). */
  datatype Instance = Instance(className: string, data: map<string, Native>)

  /** A model class: its name, the names `issubclass` accepts for it (its
      own and its ancestors'), its options, and the registration markers
      `register` sets on it (the parent's name and the value). */
  class ModelClass {
    const name: string
    const lineage: set<string>
    var meta: ModelOptions
    var pending: Option<(string, string)>

    constructor (name: string, ancestors: set<string>, meta: ModelOptions)
      ensures this.name == name && lineage == ancestors + {name}
      ensures this.meta == meta && pending == None
    {
      this.name := name;
      lineage := ancestors + {name};
      this.meta := meta;
      pending := None;
    }
  }

  function NotPolymorphic(base: string): Error
  {
    ValueError("Cannot register entities on " + base + ": it does not have a Discriminator() field")
  }

  function NotASubclass(sub: string, base: string): Error
  {
    ValueError(sub + " must inherit from " + base + " to be registered")
  }

  /** `base.register(value)(sub)`: a base without a discriminator field and
      a class outside the base's lineage are refused and nothing changes.
      Otherwise the markers are set on `sub` first; then the value is added
      to the base's registry, and only if that succeeds does `sub`'s
      options record the value and the base as parent. */
  method Register(base: ModelClass, sub: ModelClass, value: string) returns (r: Result<(), Error>)
    modifies sub, base.meta.registry
    ensures var registry := old(base.meta.registry);
      (!old(base.meta).IsPolymorphic() ==>
         r == Err(NotPolymorphic(base.name)) && registry.entries == old(registry.entries)
         && sub.meta == old(sub.meta) && sub.pending == old(sub.pending))
      && (old(base.meta).IsPolymorphic() && base.name !in sub.lineage ==>
         r == Err(NotASubclass(sub.name, base.name)) && registry.entries == old(registry.entries)
         && sub.meta == old(sub.meta) && sub.pending == old(sub.pending))
      && (old(base.meta).IsPolymorphic() && base.name in sub.lineage ==>
         sub.pending == Some((base.name, value))
         && (value in old(registry.entries) ==>
               r == Err(AlreadyRegistered(value, old(registry.entries)[value], sub.name))
               && registry.entries == old(registry.entries) && sub.meta == old(sub.meta))
         && (value !in old(registry.entries) ==>
               r == Ok(()) && registry.entries == old(registry.entries)[value := sub.name]
               && sub.meta == old(sub.meta).(discriminatorValue := Some(value), parentModel := Some(base.name))))
  {
    if !base.meta.IsPolymorphic() {
      return Err(NotPolymorphic(base.name));
    }
    if base.name !in sub.lineage {
      return Err(NotASubclass(sub.name, base.name));
    }
    var options := base.meta;
    sub.pending := Some((base.name, value));
    r := options.registry.Register(value, sub.name);
    if r.Err? {
      return;
    }
    sub.meta := sub.meta.(discriminatorValue := Some(value), parentModel := Some(base.name));
  }

  /** The discriminator value of a raw item, as a polymorphic base reads
      it: a non-empty string under the discriminator field. */
  function DiscriminatorOf(config: ModelOptions, raw: map<string, Native>): (v: Option<string>)
    ensures v.Some? ==> v.value != "" && config.discriminatorField.Some?
                        && Get(raw, config.discriminatorField.value) == NStr(v.value)
  {
    if config.isBaseEntity && Given(config.discriminatorField)
       && Truthy(Get(raw, config.discriminatorField.value)) && Get(raw, config.discriminatorField.value).NStr?
    then Some(Get(raw, config.discriminatorField.value).s)
    else None
  }

  /** `_deserialize_item`: a polymorphic base builds the class registered
      for the item's discriminator value, and itself when the value is
      missing, empty or unregistered; any other class builds itself. */
  function DeserializeItem(config: ModelOptions, className: string, raw: map<string, Native>): (inst: Instance)
    reads config.registry
    ensures inst.data == raw
    ensures !config.isBaseEntity ==> inst.className == className
    ensures inst.className == className || config.isBaseEntity
    ensures DiscriminatorOf(config, raw).Some? && DiscriminatorOf(config, raw).value in config.registry.entries
            ==> inst.className == config.registry.entries[DiscriminatorOf(config, raw).value]
    ensures (DiscriminatorOf(config, raw).None? || DiscriminatorOf(config, raw).value !in config.registry.entries)
            ==> inst.className == className
  {
    match DiscriminatorOf(config, raw)
    case Some(v) =>
      (match config.GetEntityClass(v)
       case Some(c) => Instance(c, raw)
       case None => Instance(className, raw))
    case None => Instance(className, raw)
  }

  /** An item written by a registered subclass (its discriminator field set
      to the registered value) is read back through the base as that
      subclass; an empty value falls back to the base even if registered. */
  lemma RegisteredValueSelectsSubclass(config: ModelOptions, base: string, raw: map<string, Native>, v: string)
    requires config.isBaseEntity && config.discriminatorField.Some? && config.discriminatorField.value != ""
    requires config.discriminatorField.value in raw && raw[config.discriminatorField.value] == NStr(v)
    ensures v != "" && v in config.registry.entries ==>
            DeserializeItem(config, base, raw) == Instance(config.registry.entries[v], raw)
    ensures v == "" ==> DeserializeItem(config, base, raw) == Instance(base, raw)
  {
  }

  /** The key dict `get` and `delete` build: the partition key, and the
      sort key only when its value is truthy and the model has a sort key. */
  function KeyDict(config: ModelOptions, pk: Native, sk: Native): (key: map<string, Native>)
    ensures key.Keys == {config.pkName} + (if Truthy(sk) && Given(config.skName) then {config.skName.value} else {})
    ensures Truthy(sk) && Given(config.skName) ==> key[config.skName.value] == sk
    ensures !(Truthy(sk) && Given(config.skName) && config.skName.value == config.pkName) ==> key[config.pkName] == pk
  {
    var key := map[config.pkName := pk];
    if Truthy(sk) && Given(config.skName) then key[config.skName.value := sk] else key
  }

  /** A falsy sort key (`0`, `""`, `None`) is left out of the key. */
  lemma FalsySortKeyDropped(config: ModelOptions, pk: Native)
    ensures KeyDict(config, pk, NInt(0)) == map[config.pkName := pk]
    ensures KeyDict(config, pk, NStr("")) == map[config.pkName := pk]
    ensures KeyDict(config, pk, NNone) == map[config.pkName := pk]
  {
  }

  function MissingPartitionKey(pkName: string): Error
  {
    ValueError("Key missing partition key '" + pkName + "'")
  }

  /** The key part of `update_item`: the partition key value, required to
      be truthy, and the sort key value when the model has a sort key. */
  function UpdateItemKey(config: ModelOptions, key: map<string, Native>): (r: Result<(Native, Native), Error>)
    ensures r.Ok? <==> Truthy(Get(key, config.pkName))
    ensures r.Err? ==> r.error == MissingPartitionKey(config.pkName)
    ensures r.Ok? ==> r.value.0 == key[config.pkName]
    ensures r.Ok? && !Given(config.skName) ==> r.value.1 == NNone
    ensures r.Ok? && Given(config.skName) ==> r.value.1 == Get(key, config.skName.value)
  {
    var pk := Get(key, config.pkName);
    if !Truthy(pk) then Err(MissingPartitionKey(config.pkName))
    else Ok((pk, if Given(config.skName) then Get(key, config.skName.value) else NNone))
  }

  /** The key `update_item` ends up using is part of the dict it was given:
      every attribute it holds was in that dict, with the same value. */
  lemma UpdateItemKeyWithinGivenKey(config: ModelOptions, key: map<string, Native>)
    requires UpdateItemKey(config, key).Ok?
    ensures var (pk, sk) := UpdateItemKey(config, key).value;
      forall k :: k in KeyDict(config, pk, sk) ==> k in key && KeyDict(config, pk, sk)[k] == key[k]
  {
  }

  // ---------------------------------------------------------------------
  // The discriminator filter of a registered subclass
  // ---------------------------------------------------------------------

  /** Reads through a registered subclass are filtered on its value. */
  predicate FiltersOnDiscriminator(config: ModelOptions)
  {
    Given(config.discriminatorValue) && Given(config.discriminatorField)
  }

  const DiscriminatorCondition: string := "#disc = :disc_val"

  function DiscriminatorNames(config: ModelOptions): map<string, string>
    requires FiltersOnDiscriminator(config)
  {
    map["#disc" := config.discriminatorField.value]
  }

  /** The value placeholder alone. */
  function DiscriminatorValues(config: ModelOptions): (m: map<string, Wire>)
    requires FiltersOnDiscriminator(config)
    ensures m.Keys == {":disc_val"}
  {
    map[":disc_val" := S(config.discriminatorValue.value)]
  }

  /** `:disc_val` holds the discriminator value serialized as
      `to_dynamo_value` serializes a string. */
  lemma DiscriminatorValueSerialized(config: ModelOptions)
    requires FiltersOnDiscriminator(config)
    ensures Ok(DiscriminatorValues(config)[":disc_val"]) == ToDynamoValue(NStr(config.discriminatorValue.value))
  {
  }

  // ---------------------------------------------------------------------
  // scan_page
  // ---------------------------------------------------------------------

  function UndefinedIndex(index: string, className: string): Error
  {
    ValueError("GSI '" + index + "' is not defined on model " + className)
  }

  /** The `scan` request `scan_page` sends: the table, the index and the
      limit only when given (a zero limit counts as none), the
      discriminator filter of a registered subclass, and the start key. */
  function ScanPageRequest(config: ModelOptions, limit: Option<int>, indexName: Option<string>,
                           startKey: Option<Item>): (q: ReadRequest)
    ensures q.tableName == config.tableName
    ensures q.indexName.Some? <==> Given(indexName)
    ensures q.indexName.Some? ==> q.indexName == indexName
    ensures q.limit.Some? <==> limit.Some? && limit.value != 0
    ensures q.limit.Some? ==> q.limit == limit
    ensures q.filterExpression.Some? <==> FiltersOnDiscriminator(config)
    ensures q.names.Some? <==> FiltersOnDiscriminator(config)
    ensures q.values.Some? <==> FiltersOnDiscriminator(config)
    ensures FiltersOnDiscriminator(config) ==>
      q.filterExpression == Some(DiscriminatorCondition)
      && q.names == Some(DiscriminatorNames(config)) && q.values == Some(DiscriminatorValues(config))
    ensures q.keyConditionExpression.None? && q.scanIndexForward.None?
    ensures q.exclusiveStartKey == startKey
  {
    var disc := FiltersOnDiscriminator(config);
    ReadRequest(
      config.tableName,
      if Given(indexName) then indexName else None,
      None,
      if disc then Some(DiscriminatorCondition) else None,
      if disc then Some(DiscriminatorNames(config)) else None,
      if disc then Some(DiscriminatorValues(config)) else None,
      None,
      if limit.Some? && limit.value != 0 then limit else None,
      startKey)
  }

  /** How a raw item becomes the attribute dict of an instance: the
      model's serializer (`from_dynamo`); the Serializer module's
      `FromDynamo` is the one the model uses. */
  type ItemDecoder = Item -> map<string, Native>

  /** The instances of a page of raw items, in order. */
  function DeserializeAll(config: ModelOptions, className: string, items: seq<Item>, decode: ItemDecoder)
    : (r: seq<Instance>)
    reads config.registry
    ensures |r| == |items|
    ensures forall i :: 0 <= i < |items| ==> r[i] == DeserializeItem(config, className, decode(items[i]))
  {
    if items == [] then []
    else DeserializeAll(config, className, items[..|items| - 1], decode)
         + [DeserializeItem(config, className, decode(items[|items| - 1]))]
  }

  /** The page built from one response: its items deserialized, and the
      cursor only when the response carries a non-empty last key. */
  function PageOf(config: ModelOptions, className: string, response: ReadResponse): (p: PageResult<Instance>)
    reads config.registry
    ensures p.count == |response.items| && |p.items| == |response.items|
    ensures p.HasMore() <==> Present(response.lastEvaluatedKey)
    ensures p.HasMore() ==> p.lastEvaluatedKey.value.Keys == response.lastEvaluatedKey.value.Keys
    ensures forall i :: 0 <= i < |p.items| ==> p.items[i].data == FromDynamo(response.items[i])
  {
    MakePage(DeserializeAll(config, className, response.items, FromDynamo),
             if Present(response.lastEvaluatedKey) then Some(FromDynamo(response.lastEvaluatedKey.value)) else None)
  }

  /** `scan_page`: one `scan` call. An undefined index is refused; a
      non-empty start key is serialized first (its failure is the
      serializer's); a client error is translated for the table; otherwise
      the page of the response. */
  method ScanPage(config: ModelOptions, className: string, limit: Option<int>, startKey: Option<map<string, Native>>,
                  indexName: Option<string>, client: ReadClient) returns (r: Result<PageResult<Instance>, Error>)
    ensures Given(indexName) && !config.HasGsi(indexName.value) ==> r == Err(UndefinedIndex(indexName.value, className))
    ensures !(Given(indexName) && !config.HasGsi(indexName.value)) ==>
      (Present(startKey) && !Encodable(startKey.value) ==>
         exists k :: k in startKey.value && r == Err(Dynantic(FieldError(k))))
      && (!(Present(startKey) && !Encodable(startKey.value)) ==>
         var q := ScanPageRequest(config, limit, indexName,
                                  if Present(startKey) then Some(EncodeItem(startKey.value)) else None);
         (client(q).Err? ==> r == Err(Dynantic(Translate(client(q).error, Some(config.tableName)))))
         && (client(q).Ok? ==> r == Ok(PageOf(config, className, client(q).value))))
  {
    if Given(indexName) && !config.HasGsi(indexName.value) {
      return Err(UndefinedIndex(indexName.value, className));
    }
    var start: Option<Item> := None;
    if Present(startKey) {
      var encoded := ToDynamo(startKey.value);
      if encoded.Err? {
        return Err(Dynantic(encoded.error));
      }
      start := Some(encoded.value);
    }
    var q := ScanPageRequest(config, limit, indexName, start);
    var response := client(q);
    if response.Err? {
      return Err(Dynantic(Translate(response.error, Some(config.tableName))));
    }
    return Ok(PageOf(config, className, response.value));
  }
}
