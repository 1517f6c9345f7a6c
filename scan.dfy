/** The scan builder (dynantic/scan.py): a chainable object whose calls set
    the limit, the index and the user filter, and which assembles the
    `scan` request from them. */
module Scan {
  import opened Common
  import opened Values
  import opened Errors
  import opened Serializer
  import opened Conditions
  import opened Config
  import opened Pagination
  import opened Requests
  import opened Models
  import opened Reading

  const NoItems: Error := ValueError("No items found for this scan")

  /** `DynamoScanBuilder`: the model's options and class, the discriminator
      filter fixed at construction, and the state the chained calls change. */
  class ScanBuilder {
    const config: ModelOptions
    const className: string
    const filterConditions: seq<string>
    const filterNames: map<string, string>
    const filterValues: map<string, Wire>
    var limitVal: Option<int>
    var indexName: Option<string>
    var userFilter: Option<DynCondition>

    /** The discriminator filter is the one of the options, and a given
        index is defined on the model. */
    predicate Valid()
      reads this
    {
      DiscriminatorFilter(config, filterConditions, filterNames, filterValues)
      && (Given(indexName) ==> config.HasGsi(indexName.value))
    }

    /** The state `__init__` leaves once the index is accepted. */
    constructor (config: ModelOptions, className: string, indexName: Option<string>)
      requires Given(indexName) ==> config.HasGsi(indexName.value)
      ensures this.config == config && this.className == className && this.indexName == indexName
      ensures limitVal.None? && userFilter.None?
      ensures Valid()
    {
      this.config := config;
      this.className := className;
      this.indexName := indexName;
      limitVal := None;
      userFilter := None;
      if FiltersOnDiscriminator(config) {
        filterConditions := [DiscriminatorCondition];
        filterNames := DiscriminatorNames(config);
        filterValues := DiscriminatorValues(config);
      } else {
        filterConditions := [];
        filterNames := map[];
        filterValues := map[];
      }
    }

    /** `limit(n)`: only the limit changes. */
    method Limit(n: int) returns (b: ScanBuilder)
      modifies this
      ensures b == this && limitVal == Some(n)
      ensures indexName == old(indexName) && userFilter == old(userFilter)
      ensures old(Valid()) ==> Valid()
    {
      limitVal := Some(n);
      return this;
    }

    /** `using_index(name)`: an undefined index is refused and nothing
        changes; otherwise only the index changes. */
    method UsingIndex(name: string) returns (r: Result<ScanBuilder, Error>)
      modifies this
      ensures !config.HasGsi(name) ==> r == Err(UndefinedIndex(name, className)) && unchanged(this)
      ensures config.HasGsi(name) ==>
        r == Ok(this) && indexName == Some(name) && limitVal == old(limitVal) && userFilter == old(userFilter)
      ensures old(Valid()) ==> Valid()
    {
      if !config.HasGsi(name) {
        return Err(UndefinedIndex(name, className));
      }
      indexName := Some(name);
      return Ok(this);
    }

    /** `filter(condition)`: the user filter becomes the condition, or the
        previous filter AND the condition; a non-condition is refused and
        nothing changes. */
    method Filter(arg: ConditionArg) returns (r: Result<ScanBuilder, Error>)
      modifies this
      ensures ComposeFilter(old(userFilter), arg).Err? ==>
        r == Err(ComposeFilter(old(userFilter), arg).error) && unchanged(this)
      ensures ComposeFilter(old(userFilter), arg).Ok? ==>
        r == Ok(this) && userFilter == Some(ComposeFilter(old(userFilter), arg).value)
        && limitVal == old(limitVal) && indexName == old(indexName)
      ensures old(Valid()) ==> Valid()
    {
      var c := ComposeFilter(userFilter, arg);
      if c.Err? {
        return Err(c.error);
      }
      userFilter := Some(c.value);
      return Ok(this);
    }

    /** The `scan` request `__iter__` and `page` send: the table, the index
        when given, the limit when non-zero, and the combined filter with
        its maps only when there is a discriminator or user filter; the
        user filter's compilation error otherwise. */
    function Request(build: RawCondition -> BuiltExpression): (r: Result<ReadRequest, Error>)
      reads this
      ensures r.Err? <==> CombinedFilter(filterConditions, filterNames, filterValues, userFilter, build).Err?
      ensures r.Ok? ==>
        var f := CombinedFilter(filterConditions, filterNames, filterValues, userFilter, build).value;
        r.value.tableName == config.tableName
        && r.value.keyConditionExpression.None? && r.value.scanIndexForward.None?
        && (r.value.limit.Some? <==> limitVal.Some? && limitVal.value != 0)
        && (r.value.limit.Some? ==> r.value.limit == limitVal)
        && (r.value.indexName.Some? <==> Given(indexName))
        && (r.value.indexName.Some? ==> r.value.indexName == indexName)
        && r.value.exclusiveStartKey.None?
        && (r.value.filterExpression.Some? <==> filterConditions != [] || userFilter.Some?)
        && (r.value.names.Some? <==> filterConditions != [] || userFilter.Some?)
        && (r.value.values.Some? <==> filterConditions != [] || userFilter.Some?)
        && (f.Some? ==> r.value.filterExpression == Some(f.value.expression)
                        && r.value.names == Some(f.value.names) && r.value.values == Some(f.value.values))
    {
      var f :- CombinedFilter(filterConditions, filterNames, filterValues, userFilter, build);
      Ok(ReadRequest(
        config.tableName,
        if Given(indexName) then indexName else None,
        None,
        if f.Some? then Some(f.value.expression) else None,
        if f.Some? then Some(f.value.names) else None,
        if f.Some? then Some(f.value.values) else None,
        None,
        if limitVal.Some? && limitVal.value != 0 then limitVal else None,
        None))
    }

    /** Without a user filter, the builder sends the very request the
        model's `scan_page` sends for the same limit and index. */
    lemma AgreesWithScanPage(build: RawCondition -> BuiltExpression)
      requires Valid() && userFilter.None?
      ensures Request(build) == Ok(ScanPageRequest(config, limitVal, indexName, None))
    {
    }

    /** Iterating the builder (`__iter__`, `all`). */
    method All(build: RawCondition -> BuiltExpression, paginate: Paginator) returns (r: Result<seq<Instance>, Error>)
      ensures Request(build).Err? ==> r == Err(Request(build).error)
      ensures Request(build).Ok? ==>
        r == Outcome(config, className, paginate(Request(build).value), StopAfter(limitVal), FromDynamo)
    {
      var q := Request(build);
      if q.Err? {
        return Err(q.error);
      }
      r := Collect(config, className, paginate(q.value), StopAfter(limitVal), FromDynamo);
    }

    /** `first()`: a limit of one is set when no limit was; the first item
        of the iteration, or none when it is empty. */
    method First(build: RawCondition -> BuiltExpression, paginate: Paginator) returns (r: Result<Option<Instance>, Error>)
      modifies this
      ensures limitVal == (if old(limitVal).None? then Some(1) else old(limitVal))
      ensures indexName == old(indexName) && userFilter == old(userFilter)
      ensures Request(build).Err? ==> r == Err(Request(build).error)
      ensures Request(build).Ok? ==>
        var o := Outcome(config, className, paginate(Request(build).value), Some(1), FromDynamo);
        (o.Err? ==> r == Err(o.error))
        && (o.Ok? ==> r == Ok(if o.value == [] then None else Some(o.value[0])))
    {
      if limitVal.None? {
        limitVal := Some(1);
      }
      var q := Request(build);
      if q.Err? {
        return Err(q.error);
      }
      var items := Collect(config, className, paginate(q.value), Some(1), FromDynamo);
      if items.Err? {
        return Err(items.error);
      }
      return Ok(if items.value == [] then None else Some(items.value[0]));
    }

    /** `one()`: the first item, or "No items found for this scan". */
    method One(build: RawCondition -> BuiltExpression, paginate: Paginator) returns (r: Result<Instance, Error>)
      modifies this
      ensures limitVal == (if old(limitVal).None? then Some(1) else old(limitVal))
      ensures indexName == old(indexName) && userFilter == old(userFilter)
      ensures Request(build).Err? ==> r == Err(Request(build).error)
      ensures Request(build).Ok? ==>
        var o := Outcome(config, className, paginate(Request(build).value), Some(1), FromDynamo);
        (o.Err? ==> r == Err(o.error))
        && (o.Ok? && o.value == [] ==> r == Err(NoItems))
        && (o.Ok? && o.value != [] ==> r == Ok(o.value[0]))
    {
      var first := First(build, paginate);
      if first.Err? {
        return Err(first.error);
      }
      if first.value.None? {
        return Err(NoItems);
      }
      return Ok(first.value.value);
    }

    /** `page(start_key)`: one `scan` call for the built request, from the
        serialized start key when one is given (non-empty); a client error
        is translated for the table; otherwise the page of the response. */
    method Page(startKey: Option<map<string, Native>>, build: RawCondition -> BuiltExpression, client: ReadClient)
      returns (r: Result<PageResult<Instance>, Error>)
      ensures Request(build).Err? ==> r == Err(Request(build).error)
      ensures Request(build).Ok? ==>
        (Present(startKey) && !Encodable(startKey.value) ==>
           exists k :: k in startKey.value && r == Err(Dynantic(FieldError(k))))
        && (!(Present(startKey) && !Encodable(startKey.value)) ==>
           var q := Request(build).value.(exclusiveStartKey :=
                      if Present(startKey) then Some(EncodeItem(startKey.value)) else None);
           (client(q).Err? ==> r == Err(Dynantic(Translate(client(q).error, Some(config.tableName)))))
           && (client(q).Ok? ==> r == Ok(PageOf(config, className, client(q).value))))
    {
      var q :- Request(build);
      if Present(startKey) {
        var encoded := ToDynamo(startKey.value);
        if encoded.Err? {
          return Err(Dynantic(encoded.error));
        }
        q := q.(exclusiveStartKey := Some(encoded.value));
      }
      var response := client(q);
      if response.Err? {
        return Err(Dynantic(Translate(response.error, Some(config.tableName))));
      }
      return Ok(PageOf(config, className, response.value));
    }
  }

  /** `DynamoScanBuilder(model, index_name)`: a given index must be
      defined; the builder starts with no limit, no user filter and the
      discriminator filter of a registered subclass. */
  method Open(config: ModelOptions, className: string, indexName: Option<string>) returns (r: Result<ScanBuilder, Error>)
    ensures Given(indexName) && !config.HasGsi(indexName.value) ==> r == Err(UndefinedIndex(indexName.value, className))
    ensures !(Given(indexName) && !config.HasGsi(indexName.value)) ==>
      r.Ok? && fresh(r.value) && r.value.Valid()
      && r.value.config == config && r.value.className == className && r.value.indexName == indexName
      && r.value.limitVal.None? && r.value.userFilter.None?
  {
    if Given(indexName) && !config.HasGsi(indexName.value) {
      return Err(UndefinedIndex(indexName.value, className));
    }
    var b := new ScanBuilder(config, className, indexName);
    return Ok(b);
  }
}
