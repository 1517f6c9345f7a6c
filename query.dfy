/** The query builder (dynantic/query.py): a chainable object whose calls
    set the sort-key condition, the limit, the order, the index and the
    user filter, and which assembles the `query` request from them. */
module Query {
  import opened Common
  import opened Values
  import opened Errors
  import opened Serializer
  import opened Conditions
  import opened Config
  import opened Pagination
  import opened Requests
  import opened Models
  import opened Reading

  // ---------------------------------------------------------------------
  // Sort-key conditions
  // ---------------------------------------------------------------------

  /** The single-value sort-key conditions: `starts_with`, `gt`, `lt`,
      `ge`, `le`, `eq`, `ne`. */
  datatype SortOp = BeginsWith | Greater | Less | AtLeast | AtMost | Equal | NotEqual

  /** The key-condition text each one writes; all use `#sk` and `:sk`. */
  function ConditionText(op: SortOp): (s: string)
    ensures s != BetweenText
  {
    match op
    case BeginsWith => "begins_with(#sk, :sk)"
    case Greater => "#sk > :sk"
    case Less => "#sk < :sk"
    case AtLeast => "#sk >= :sk"
    case AtMost => "#sk <= :sk"
    case Equal => "#sk = :sk"
    case NotEqual => "#sk <> :sk"
  }

  const BetweenText: string := "#sk BETWEEN :low AND :high"

  /** The value placeholders a sort-key condition refers to. */
  function ConditionPlaceholders(cond: string): set<string>
  {
    if cond == BetweenText then {":low", ":high"} else {":sk"}
  }

  const NoSortKey: Error := ValueError("Index does not have a Sort Key defined.")

  const NoItems: Error := ValueError("No items found for this query")

  /** `_serialize_query_value` as written: a datetime or date becomes its
      `isoformat()`, a UUID its text, an Enum member its value. */
  function QueryValueAsWritten(v: Native): (q: Native)
    ensures v.NDateTime? ==> q == NStr(IsoFormat(v.dt))
    ensures !(v.NDateTime? || v.NDate? || v.NUuid? || v.NEnum?) ==> q == v
  {
    match v
    case NDateTime(dt) => NStr(IsoFormat(dt))
    case NDate(iso) => NStr(iso)
    case NUuid(text) => NStr(text)
    case NEnum(_, x) => x
    case _ => v
  }

  /** A sort-key bound as the builder writes it: through
      `_serialize_query_value`, then `to_dynamo_value`. */
  function SortKeyValueAsWritten(v: Native): (r: Result<Wire, DynanticError>)
    ensures v.NDateTime? ==> r == Ok(S(IsoFormat(v.dt)))
  {
    ToDynamoValue(QueryValueAsWritten(v))
  }

  /** A UTC datetime bound is written with `+00:00`, but the attribute it is
      compared with was stored with `Z`: `eq` can never match it, and `gt`
      includes it. */
  lemma UtcBoundMissesStoredValue(name: string, dt: DateTime)
    requires dt.utcOffset == Some(0)
    ensures Encodable(map[name := NDateTime(dt)])
    ensures SortKeyValueAsWritten(NDateTime(dt)) != Ok(EncodeItem(map[name := NDateTime(dt)])[name])
  {
    UtcDiffersFromIsoFormat(dt);
    var item := map[name := NDateTime(dt)];
    assert item.Keys == {name} && item[name] == NDateTime(dt);
    assert EncodeItem(item)[name] == S(PrepareDateTime(dt));
  }

  /** A sort-key bound written the way the attribute is stored: by
      `to_dynamo_value` alone, which prepares datetimes, dates, UUIDs and
      Enum members itself. */
  function SortKeyValue(v: Native): (r: Result<Wire, DynanticError>)
    ensures v.NDateTime? ==> r == Ok(S(PrepareDateTime(v.dt)))
  {
    ToDynamoValue(v)
  }

  /** The bound equals the stored attribute for every value an item can
      hold under the sort key. */
  lemma SortKeyValueMatchesStored(name: string, v: Native)
    requires Prepare(v) != NSet({}) && Encodable(map[name := v])
    ensures SortKeyValue(v) == Ok(EncodeItem(map[name := v])[name])
  {
    ToDynamoValueAgreesWithItems(name, v);
  }

  /** The two differ only for a UTC datetime (and for an Enum member whose
      value is itself rewritten by preparation). */
  lemma SortKeyValuesAgreeOtherwise(v: Native)
    requires !(v.NDateTime? && v.dt.utcOffset == Some(0))
    requires v.NEnum? ==> Prepared(v.enumValue)
    ensures SortKeyValueAsWritten(v) == SortKeyValue(v)
  {
    if v.NEnum? {
      PrepareFixesPrepared(v.enumValue);
    }
  }

  // ---------------------------------------------------------------------
  // The builder
  // ---------------------------------------------------------------------

  /** `DynamoQueryBuilder`: the model's options and class, the partition
      key value, the discriminator filter fixed at construction, and the
      state the chained calls change. */
  class QueryBuilder {
    const config: ModelOptions
    const className: string
    const pkValue: Native
    const filterConditions: seq<string>
    const filterNames: map<string, string>
    const filterValues: map<string, Wire>
    var pkName: string
    var skName: Option<string>
    var indexName: Option<string>
    var skCondition: Option<string>
    var limitVal: Option<int>
    var scanForward: bool
    var userFilter: Option<DynCondition>
    var expressionNames: map<string, string>
    var expressionValues: map<string, Wire>

    /** The discriminator filter is the one of the options, `#pk` names the
        current partition key, `:pk` is bound, and a sort-key condition has
        `#sk` and its value placeholders bound. */
    predicate Valid()
      reads this
    {
      DiscriminatorFilter(config, filterConditions, filterNames, filterValues)
      && ":pk" in expressionValues
      && "#pk" in expressionNames && expressionNames["#pk"] == pkName
      && (skCondition.Some? ==>
            "#sk" in expressionNames && ConditionPlaceholders(skCondition.value) <= expressionValues.Keys)
    }

    /** The state `__init__` leaves once the key names are resolved and the
        partition key value is serialized. */
    constructor (config: ModelOptions, className: string, pkValue: Native, indexName: Option<string>,
                 pkName: string, skName: Option<string>, pkWire: Wire)
      ensures this.config == config && this.className == className && this.pkValue == pkValue
      ensures this.indexName == indexName && this.pkName == pkName && this.skName == skName
      ensures skCondition.None? && limitVal.None? && scanForward && userFilter.None?
      ensures expressionValues == map[":pk" := pkWire] && expressionNames == map["#pk" := pkName]
      ensures DiscriminatorFilter(config, filterConditions, filterNames, filterValues)
      ensures Valid()
    {
      this.config := config;
      this.className := className;
      this.pkValue := pkValue;
      this.indexName := indexName;
      this.pkName := pkName;
      this.skName := skName;
      skCondition := None;
      limitVal := None;
      scanForward := true;
      userFilter := None;
      expressionValues := map[":pk" := pkWire];
      expressionNames := map["#pk" := pkName];
      if FiltersOnDiscriminator(config) {
        filterConditions := [DiscriminatorCondition];
        filterNames := DiscriminatorNames(config);
        filterValues := DiscriminatorValues(config);
      } else {
        filterConditions := [];
        filterNames := map[];
        filterValues := map[];
      }
    }

    /** `starts_with`, `gt`, `lt`, `ge`, `le`, `eq`, `ne`: refused without a
        sort key.  Otherwise the condition replaces any earlier one and
        `#sk` is bound to the sort key before the value is serialized; if
        that fails, `:sk` is left as it was. */
    method Compare(op: SortOp, value: Native) returns (r: Result<QueryBuilder, Error>)
      modifies this
      ensures !Given(old(skName)) ==> r == Err(NoSortKey) && unchanged(this)
      ensures Given(old(skName)) ==>
        skCondition == Some(ConditionText(op))
        && expressionNames == old(expressionNames)["#sk" := old(skName).value]
        && (SortKeyValue(value).Ok? ==>
              r == Ok(this) && expressionValues == old(expressionValues)[":sk" := SortKeyValue(value).value])
        && (SortKeyValue(value).Err? ==>
              r == Err(Dynantic(SortKeyValue(value).error)) && expressionValues == old(expressionValues))
      ensures pkName == old(pkName) && skName == old(skName) && indexName == old(indexName)
      ensures limitVal == old(limitVal) && scanForward == old(scanForward) && userFilter == old(userFilter)
      ensures old(Valid()) && r.Ok? ==> Valid()
    {
      if !Given(skName) {
        return Err(NoSortKey);
      }
      skCondition := Some(ConditionText(op));
      expressionNames := expressionNames["#sk" := skName.value];
      var w := SortKeyValue(value);
      if w.Err? {
        return Err(Dynantic(w.error));
      }
      expressionValues := expressionValues[":sk" := w.value];
      return Ok(this);
    }

    /** `between(low, high)`: as the others, with `:low` and `:high`
        serialized in that order; a failure leaves the later placeholders
        as they were. */
    method Between(low: Native, high: Native) returns (r: Result<QueryBuilder, Error>)
      modifies this`skCondition, this`expressionNames, this`expressionValues
      ensures !Given(old(skName)) ==> r == Err(NoSortKey) && unchanged(this)
      ensures Given(old(skName)) ==>
        skCondition == Some(BetweenText)
        && expressionNames == old(expressionNames)["#sk" := old(skName).value]
        && (SortKeyValue(low).Err? ==>
              r == Err(Dynantic(SortKeyValue(low).error)) && expressionValues == old(expressionValues))
        && (SortKeyValue(low).Ok? && SortKeyValue(high).Err? ==>
              r == Err(Dynantic(SortKeyValue(high).error))
              && expressionValues == old(expressionValues)[":low" := SortKeyValue(low).value])
        && (SortKeyValue(low).Ok? && SortKeyValue(high).Ok? ==>
              r == Ok(this)
              && expressionValues == old(expressionValues)[":low" := SortKeyValue(low).value]
                                                          [":high" := SortKeyValue(high).value])
      ensures pkName == old(pkName) && skName == old(skName) && indexName == old(indexName)
      ensures limitVal == old(limitVal) && scanForward == old(scanForward) && userFilter == old(userFilter)
      ensures old(Valid()) && r.Ok? ==> Valid()
    {
      if !Given(skName) {
        r := Err(NoSortKey);
      } else {
        skCondition := Some(BetweenText);
        expressionNames := expressionNames["#sk" := skName.value];
        var lo := SortKeyValue(low);
        if lo.Err? {
          r := Err(Dynantic(lo.error));
        } else {
          expressionValues := expressionValues[":low" := lo.value];
          var hi := SortKeyValue(high);
          if hi.Err? {
            r := Err(Dynantic(hi.error));
          } else {
            expressionValues := expressionValues[":high" := hi.value];
            r := Ok(this);
          }
        }
      }
    }

    /** `limit(n)`: only the limit changes. */
    method Limit(n: int) returns (b: QueryBuilder)
      modifies this
      ensures b == this && limitVal == Some(n)
      ensures pkName == old(pkName) && skName == old(skName) && indexName == old(indexName)
      ensures skCondition == old(skCondition) && scanForward == old(scanForward) && userFilter == old(userFilter)
      ensures expressionNames == old(expressionNames) && expressionValues == old(expressionValues)
    {
      limitVal := Some(n);
      return this;
    }

    /** `reverse()`: descending sort-key order; nothing else changes. */
    method Reverse() returns (b: QueryBuilder)
      modifies this
      ensures b == this && !scanForward
      ensures pkName == old(pkName) && skName == old(skName) && indexName == old(indexName)
      ensures skCondition == old(skCondition) && limitVal == old(limitVal) && userFilter == old(userFilter)
      ensures expressionNames == old(expressionNames) && expressionValues == old(expressionValues)
    {
      scanForward := false;
      return this;
    }

    /** `filter(condition)`: the user filter becomes the condition, or the
        previous filter AND the condition; a non-condition is refused and
        nothing changes. */
    method Filter(arg: ConditionArg) returns (r: Result<QueryBuilder, Error>)
      modifies this
      ensures ComposeFilter(old(userFilter), arg).Err? ==>
        r == Err(ComposeFilter(old(userFilter), arg).error) && unchanged(this)
      ensures ComposeFilter(old(userFilter), arg).Ok? ==>
        r == Ok(this) && userFilter == Some(ComposeFilter(old(userFilter), arg).value)
      ensures pkName == old(pkName) && skName == old(skName) && indexName == old(indexName)
      ensures skCondition == old(skCondition) && limitVal == old(limitVal) && scanForward == old(scanForward)
      ensures expressionNames == old(expressionNames) && expressionValues == old(expressionValues)
    {
      var c := ComposeFilter(userFilter, arg);
      if c.Err? {
        return Err(c.error);
      }
      userFilter := Some(c.value);
      return Ok(this);
    }

    /** `using_index(name)`: an undefined index is refused.  Otherwise the
        key names become the index's, `#pk` follows, `#sk` follows only
        when the index has a sort key and `#sk` was already bound, and
        `:pk` keeps the value serialized at construction. */
    method UsingIndex(name: string) returns (r: Result<QueryBuilder, Error>)
      modifies this
      ensures !config.HasGsi(name) ==> r == Err(UndefinedIndex(name, className)) && unchanged(this)
      ensures config.HasGsi(name) ==>
        var g := config.gsiDefinitions[name];
        r == Ok(this) && indexName == Some(name) && pkName == g.pkName && skName == g.skName
        && expressionNames == (if Given(g.skName) && "#sk" in old(expressionNames)
                               then old(expressionNames)["#pk" := g.pkName]["#sk" := g.skName.value]
                               else old(expressionNames)["#pk" := g.pkName])
        && expressionValues == old(expressionValues)
      ensures skCondition == old(skCondition) && limitVal == old(limitVal) && scanForward == old(scanForward)
      ensures userFilter == old(userFilter)
      ensures old(Valid()) ==> Valid()
    {
      var gsi := config.GetGsi(name);
      if gsi.None? {
        return Err(UndefinedIndex(name, className));
      }
      indexName := Some(name);
      pkName := gsi.value.pkName;
      skName := gsi.value.skName;
      expressionNames := expressionNames["#pk" := pkName];
      if Given(skName) && "#sk" in expressionNames {
        expressionNames := expressionNames["#sk" := skName.value];
      }
      return Ok(this);
    }

    /** The key condition: the partition key, then the sort-key condition
        when one is set. */
    function KeyExpression(): (e: string)
      reads this
      ensures skCondition.None? ==> e == "#pk = :pk"
      ensures skCondition.Some? ==> e == "#pk = :pk AND " + skCondition.value
    {
      "#pk = :pk" + (if skCondition.Some? then " AND " + skCondition.value else "")
    }

    /** The `query` request `__iter__` and `page` send: the key condition,
        the expression maps merged with the discriminator maps and then the
        user filter's, the order, the limit when non-zero, the index when
        given, and the combined filter when there is one; the user filter's
        compilation error otherwise. */
    function Request(build: RawCondition -> BuiltExpression): (r: Result<ReadRequest, Error>)
      reads this
      ensures r.Err? <==> CombinedFilter(filterConditions, filterNames, filterValues, userFilter, build).Err?
      ensures r.Ok? ==>
        var f := CombinedFilter(filterConditions, filterNames, filterValues, userFilter, build).value;
        r.value.tableName == config.tableName
        && r.value.keyConditionExpression == Some(KeyExpression())
        && r.value.scanIndexForward == Some(scanForward)
        && (r.value.limit.Some? <==> limitVal.Some? && limitVal.value != 0)
        && (r.value.limit.Some? ==> r.value.limit == limitVal)
        && (r.value.indexName.Some? <==> Given(indexName))
        && (r.value.indexName.Some? ==> r.value.indexName == indexName)
        && r.value.exclusiveStartKey.None?
        && (r.value.filterExpression.Some? <==> f.Some?)
        && (f.Some? ==> r.value.filterExpression == Some(f.value.expression)
                        && r.value.names == Some(expressionNames + f.value.names)
                        && r.value.values == Some(expressionValues + f.value.values))
        && (f.None? ==> r.value.names == Some(expressionNames + filterNames)
                        && r.value.values == Some(expressionValues + filterValues))
    {
      var f :- CombinedFilter(filterConditions, filterNames, filterValues, userFilter, build);
      var names := if f.Some? then expressionNames + f.value.names else expressionNames + filterNames;
      var values := if f.Some? then expressionValues + f.value.values else expressionValues + filterValues;
      Ok(ReadRequest(
        config.tableName,
        if Given(indexName) then indexName else None,
        Some(KeyExpression()),
        if f.Some? then Some(f.value.expression) else None,
        Some(names),
        Some(values),
        Some(scanForward),
        if limitVal.Some? && limitVal.value != 0 then limitVal else None,
        None))
    }

    /** Every placeholder the key condition uses is bound in the request
        (unless the user's filter rebinds it, in which case it is still
        bound). */
    lemma KeyPlaceholdersBound(build: RawCondition -> BuiltExpression)
      requires Valid() && Request(build).Ok?
      ensures var q := Request(build).value;
        ":pk" in q.values.value && "#pk" in q.names.value
        && (skCondition.Some? ==> "#sk" in q.names.value && ConditionPlaceholders(skCondition.value) <= q.values.value.Keys)
    {
    }

    /** Iterating the builder (`__iter__`, `all`): the request is built,
        and the pages the paginator delivers for it are read item by item
        until the limit is reached. */
    method All(build: RawCondition -> BuiltExpression, paginate: Paginator) returns (r: Result<seq<Instance>, Error>)
      ensures Request(build).Err? ==> r == Err(Request(build).error)
      ensures Request(build).Ok? ==>
        r == Outcome(config, className, paginate(Request(build).value), StopAfter(limitVal), FromDynamo)
    {
      var q := Request(build);
      if q.Err? {
        return Err(q.error);
      }
      r := Collect(config, className, paginate(q.value), StopAfter(limitVal), FromDynamo);
    }

    /** `first()`: a limit of one is set when no limit was; the first item
        of the iteration, or none when it is empty. */
    method First(build: RawCondition -> BuiltExpression, paginate: Paginator) returns (r: Result<Option<Instance>, Error>)
      modifies this
      ensures limitVal == (if old(limitVal).None? then Some(1) else old(limitVal))
      ensures pkName == old(pkName) && skName == old(skName) && indexName == old(indexName)
      ensures skCondition == old(skCondition) && scanForward == old(scanForward) && userFilter == old(userFilter)
      ensures expressionNames == old(expressionNames) && expressionValues == old(expressionValues)
      ensures Request(build).Err? ==> r == Err(Request(build).error)
      ensures Request(build).Ok? ==>
        var o := Outcome(config, className, paginate(Request(build).value), Some(1), FromDynamo);
        (o.Err? ==> r == Err(o.error))
        && (o.Ok? ==> r == Ok(if o.value == [] then None else Some(o.value[0])))
    {
      if limitVal.None? {
        limitVal := Some(1);
      }
      var q := Request(build);
      if q.Err? {
        return Err(q.error);
      }
      var items := Collect(config, className, paginate(q.value), Some(1), FromDynamo);
      if items.Err? {
        return Err(items.error);
      }
      return Ok(if items.value == [] then None else Some(items.value[0]));
    }

    /** `one()`: the first item, or "No items found for this query". */
    method One(build: RawCondition -> BuiltExpression, paginate: Paginator) returns (r: Result<Instance, Error>)
      modifies this
      ensures limitVal == (if old(limitVal).None? then Some(1) else old(limitVal))
      ensures pkName == old(pkName) && skName == old(skName) && indexName == old(indexName)
      ensures skCondition == old(skCondition) && scanForward == old(scanForward) && userFilter == old(userFilter)
      ensures expressionNames == old(expressionNames) && expressionValues == old(expressionValues)
      ensures Request(build).Err? ==> r == Err(Request(build).error)
      ensures Request(build).Ok? ==>
        var o := Outcome(config, className, paginate(Request(build).value), Some(1), FromDynamo);
        (o.Err? ==> r == Err(o.error))
        && (o.Ok? && o.value == [] ==> r == Err(NoItems))
        && (o.Ok? && o.value != [] ==> r == Ok(o.value[0]))
    {
      var first := First(build, paginate);
      if first.Err? {
        return Err(first.error);
      }
      if first.value.None? {
        return Err(NoItems);
      }
      return Ok(first.value.value);
    }

    /** `page(start_key)`: one `query` call for the built request, from the
        serialized start key when one is given (non-empty); a client error
        is translated for the table; otherwise the page of the response. */
    method Page(startKey: Option<map<string, Native>>, build: RawCondition -> BuiltExpression, client: ReadClient)
      returns (r: Result<PageResult<Instance>, Error>)
      ensures Request(build).Err? ==> r == Err(Request(build).error)
      ensures Request(build).Ok? ==>
        (Present(startKey) && !Encodable(startKey.value) ==>
           exists k :: k in startKey.value && r == Err(Dynantic(FieldError(k))))
        && (!(Present(startKey) && !Encodable(startKey.value)) ==>
           var q := Request(build).value.(exclusiveStartKey :=
                      if Present(startKey) then Some(EncodeItem(startKey.value)) else None);
           (client(q).Err? ==> r == Err(Dynantic(Translate(client(q).error, Some(config.tableName)))))
           && (client(q).Ok? ==> r == Ok(PageOf(config, className, client(q).value))))
    {
      var q :- Request(build);
      if Present(startKey) {
        var encoded := ToDynamo(startKey.value);
        if encoded.Err? {
          return Err(Dynantic(encoded.error));
        }
        q := q.(exclusiveStartKey := Some(encoded.value));
      }
      var response := client(q);
      if response.Err? {
        return Err(Dynantic(Translate(response.error, Some(config.tableName))));
      }
      return Ok(PageOf(config, className, response.value));
    }
  }

  /** `DynamoQueryBuilder(model, pk, index_name)`: a given index must be
      defined, and its key names are used instead of the table's; the
      partition key value is serialized (its failure is the serializer's);
      then the builder starts with only `:pk` and `#pk` bound and the
      discriminator filter of a registered subclass. */
  method Open(config: ModelOptions, className: string, pkValue: Native, indexName: Option<string>)
    returns (r: Result<QueryBuilder, Error>)
    ensures Given(indexName) && !config.HasGsi(indexName.value) ==> r == Err(UndefinedIndex(indexName.value, className))
    ensures !(Given(indexName) && !config.HasGsi(indexName.value)) ==>
      (ToDynamoValue(pkValue).Err? ==> r == Err(Dynantic(ToDynamoValue(pkValue).error)))
      && (ToDynamoValue(pkValue).Ok? ==>
            r.Ok? && fresh(r.value) && r.value.Valid()
            && r.value.config == config && r.value.className == className && r.value.indexName == indexName
            && r.value.pkName == (if Given(indexName) then config.gsiDefinitions[indexName.value].pkName else config.pkName)
            && r.value.skName == (if Given(indexName) then config.gsiDefinitions[indexName.value].skName else config.skName)
            && r.value.expressionValues == map[":pk" := ToDynamoValue(pkValue).value]
            && r.value.expressionNames == map["#pk" := r.value.pkName]
            && r.value.skCondition.None? && r.value.limitVal.None? && r.value.scanForward
            && r.value.userFilter.None?)
  {
    var pkName := config.pkName;
    var skName := config.skName;
    if Given(indexName) {
      var gsi := config.GetGsi(indexName.value);
      if gsi.None? {
        return Err(UndefinedIndex(indexName.value, className));
      }
      pkName := gsi.value.pkName;
      skName := gsi.value.skName;
    }
    var pkWire := ToDynamoValue(pkValue);
    if pkWire.Err? {
      return Err(Dynantic(pkWire.error));
    }
    var b := new QueryBuilder(config, className, pkValue, indexName, pkName, skName, pkWire.value);
    return Ok(b);
  }
}
