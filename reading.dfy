/** What the query builder (dynantic/query.py) and the scan builder
    (dynantic/scan.py) share: the discriminator filter of a registered
    subclass, the AND-composition of user filters, the filter expression
    assembled from both, and iteration over the pages of a paginator with
    the limit check after every item. */
module Reading {
  import opened Common
  import opened Values
  import opened Errors
  import opened Serializer
  import opened Conditions
  import opened Config
  import opened Requests
  import opened Models

  // ---------------------------------------------------------------------
  // Filters
  // ---------------------------------------------------------------------

  /** The filter state `_add_discriminator_filter` leaves: one part with its
      name and value placeholders for a registered subclass, nothing for
      any other model. */
  predicate DiscriminatorFilter(config: ModelOptions, parts: seq<string>,
                                names: map<string, string>, values: map<string, Wire>)
  {
    if FiltersOnDiscriminator(config) then
      parts == [DiscriminatorCondition] && names == DiscriminatorNames(config)
      && values == DiscriminatorValues(config)
    else
      parts == [] && names == map[] && values == map[]
  }

  /** `filter(condition)`: the condition is wrapped (a `TypeError` for
      anything that is not a condition); the first one becomes the user
      filter and each later one is AND-ed onto the previous filter. */
  function ComposeFilter(previous: Option<DynCondition>, arg: ConditionArg): (r: Result<DynCondition, Error>)
    ensures r.Ok? <==> !arg.Foreign?
    ensures arg.Foreign? ==> r == Err(NotACondition(arg.typeName))
    ensures r.Ok? && previous.None? ==> Ok(r.value.raw) == ExtractRaw(arg)
    ensures r.Ok? && previous.Some? ==>
      r.value.raw.And? && r.value.raw.left == previous.value.raw && Ok(r.value.raw.right) == ExtractRaw(arg)
  {
    var c :- WrapCondition(arg);
    match previous
    case None => Ok(c)
    case Some(p) => p.AndWith(Wrapped(c))
  }

  /** The user filter after a series of `filter` calls, or the first
      `TypeError`. */
  function FilterChain(args: seq<ConditionArg>): (r: Result<Option<DynCondition>, Error>)
    ensures r.Ok? ==> (r.value.Some? <==> args != [])
    decreases |args|
  {
    if args == [] then Ok(None)
    else
      var previous :- FilterChain(args[..|args| - 1]);
      var c :- ComposeFilter(previous, args[|args| - 1]);
      Ok(Some(c))
  }

  /** Every attribute the conditions passed refer to. */
  function AllAttributes(args: seq<ConditionArg>): set<string>
    requires forall i :: 0 <= i < |args| ==> !args[i].Foreign?
  {
    set i, a | 0 <= i < |args| && a in Attributes(ExtractRaw(args[i]).value) :: a
  }

  /** Chained filters are all kept: the final filter refers to exactly the
      attributes of every condition passed, and it is refused exactly when
      one of them is not a condition. */
  lemma {:induction false} FilterChainKeepsEveryCondition(args: seq<ConditionArg>)
    ensures FilterChain(args).Ok? <==> forall i :: 0 <= i < |args| ==> !args[i].Foreign?
    ensures FilterChain(args).Ok? && args != [] ==>
      Attributes(FilterChain(args).value.value.raw) == AllAttributes(args)
    decreases |args|
  {
    if args != [] {
      var init := args[..|args| - 1];
      FilterChainKeepsEveryCondition(init);
      assert forall i :: 0 <= i < |init| ==> init[i] == args[i];
      if FilterChain(args).Ok? {
        var last := args[|args| - 1];
        var all := AllAttributes(args);
        if init == [] {
          assert all == Attributes(ExtractRaw(last).value) by {
            forall a | a in all ensures a in Attributes(ExtractRaw(last).value) {
              var i :| 0 <= i < |args| && a in Attributes(ExtractRaw(args[i]).value);
              assert i == 0;
            }
          }
        } else {
          var prev := FilterChain(init).value.value;
          assert FilterChain(args).value.value.raw == And(prev.raw, ExtractRaw(last).value);
          var before := AllAttributes(init);
          assert all == before + Attributes(ExtractRaw(last).value) by {
            forall a | a in all ensures a in before + Attributes(ExtractRaw(last).value) {
              var i :| 0 <= i < |args| && a in Attributes(ExtractRaw(args[i]).value);
              if i < |init| {
                assert init[i] == args[i];
              }
            }
            forall a | a in before ensures a in all {
              var i :| 0 <= i < |init| && a in Attributes(ExtractRaw(init[i]).value);
              assert args[i] == init[i];
            }
            assert args[|args| - 1] == last;
          }
        }
      }
    }
  }

  /** A filter expression with its placeholder maps. */
  datatype FilterPart = FilterPart(expression: string, names: map<string, string>, values: map<string, Wire>)

  /** The filter both builders assemble: the discriminator parts, then the
      compiled user filter, joined with ` AND `; the discriminator maps
      extended by the user filter's maps.  None when there is neither; the
      compilation error when the user filter does not compile. */
  function CombinedFilter(parts: seq<string>, names: map<string, string>, values: map<string, Wire>,
                          user: Option<DynCondition>, build: RawCondition -> BuiltExpression)
    : (r: Result<Option<FilterPart>, Error>)
    ensures r.Err? <==> user.Some? && CompileCondition(Wrapped(user.value), build).Err?
    ensures r.Err? ==> r.error == CompileCondition(Wrapped(user.value), build).error
    ensures r.Ok? ==> (r.value.Some? <==> parts != [] || user.Some?)
  {
    if parts == [] && user.None? then Ok(None)
    else if user.None? then Ok(Some(FilterPart(Join(" AND ", parts), names, values)))
    else
      var compiled :- CompileCondition(Wrapped(user.value), build);
      Ok(Some(FilterPart(Join(" AND ", parts + [compiled.conditionExpression]),
                         names + compiled.NameMap(), values + compiled.ValueMap())))
  }

  /** A read through a registered subclass is always restricted to its
      discriminator value: the filter is `#disc = :disc_val`, followed by
      ` AND ` and the user's filter when there is one, and (unless the
      user's filter reuses those placeholders) `#disc` names the
      discriminator field and `:disc_val` holds the value. */
  lemma SubclassReadsAreFiltered(config: ModelOptions, parts: seq<string>, names: map<string, string>,
                                 values: map<string, Wire>, user: Option<DynCondition>,
                                 build: RawCondition -> BuiltExpression)
    requires FiltersOnDiscriminator(config) && DiscriminatorFilter(config, parts, names, values)
    requires CombinedFilter(parts, names, values, user, build).Ok?
    ensures var f := CombinedFilter(parts, names, values, user, build).value;
      f.Some?
      && (user.None? ==> f.value.expression == DiscriminatorCondition)
      && (user.Some? ==> f.value.expression
                         == DiscriminatorCondition + " AND "
                            + CompileCondition(Wrapped(user.value), build).value.conditionExpression)
    ensures var f := CombinedFilter(parts, names, values, user, build).value;
      var c := if user.Some? then CompileCondition(Wrapped(user.value), build).value
               else CompiledCondition("", None, None);
      ("#disc" !in c.NameMap() ==> f.value.names["#disc"] == config.discriminatorField.value)
      && (":disc_val" !in c.ValueMap() ==> f.value.values[":disc_val"] == S(config.discriminatorValue.value))
  {
    if user.Some? {
      var c := CompileCondition(Wrapped(user.value), build).value;
      JoinSnoc(" AND ", parts, c.conditionExpression);
    }
  }

  // ---------------------------------------------------------------------
  // Iteration
  // ---------------------------------------------------------------------

  /** The items of the pages, page after page. */
  function Flatten(pages: seq<ReadResponse>): (items: seq<Item>)
    decreases |pages|
  {
    if pages == [] then [] else Flatten(pages[..|pages| - 1]) + pages[|pages| - 1].items
  }

  /** The items of the first pages come first. */
  lemma {:induction false} FlattenPrefix(pages: seq<ReadResponse>, p: nat)
    requires p <= |pages|
    ensures Flatten(pages[..p]) <= Flatten(pages)
    decreases |pages| - p
  {
    if p < |pages| {
      FlattenPrefix(pages, p + 1);
      assert pages[..p + 1][..p] == pages[..p];
    } else {
      assert pages[..p] == pages;
    }
  }

  /** How many items iteration stops after: none for an unset or zero
      limit; otherwise the limit, but at least one, since the check
      `count >= limit` follows each item. */
  function StopAfter(limit: Option<int>): (n: Option<nat>)
    ensures n.Some? <==> limit.Some? && limit.value != 0
    ensures n.Some? && limit.value > 0 ==> n.value == limit.value
    ensures n.Some? ==> n.value >= 1
  {
    if limit.Some? && limit.value != 0 then Some(if limit.value < 1 then 1 else limit.value) else None
  }

  /** Iteration ends at the stop count before the next page is requested. */
  predicate StopsEarly(total: nat, stop: Option<nat>)
  {
    stop.Some? && total >= stop.value
  }

  /** What iterating the pages yields: every item, in page order, each
      deserialized through the model; at most `stop` of them.  A client
      error raised while fetching a page is translated for the table,
      unless the stop count was reached before that page was needed. */
  function Outcome(config: ModelOptions, className: string, stream: PageStream, stop: Option<nat>,
                   decode: ItemDecoder)
    : (r: Result<seq<Instance>, Error>)
    reads config.registry
    ensures r.Err? <==> stream.fault.Some? && !StopsEarly(|Flatten(stream.pages)|, stop)
    ensures r.Err? ==> r.error == Dynantic(Translate(stream.fault.value, Some(config.tableName)))
    ensures r.Ok? ==>
      var total := |Flatten(stream.pages)|;
      |r.value| == (if stop.Some? && stop.value < total then stop.value else total)
      && forall i :: 0 <= i < |r.value| ==>
           r.value[i] == DeserializeItem(config, className, decode(Flatten(stream.pages)[i]))
  {
    var items := Flatten(stream.pages);
    if stream.fault.Some? && !StopsEarly(|items|, stop) then
      Err(Dynantic(Translate(stream.fault.value, Some(config.tableName))))
    else
      Ok(DeserializeAll(config, className,
                        if stop.Some? && stop.value < |items| then items[..stop.value] else items, decode))
  }

  /** The pages up to `p + 1` hold the items of those up to `p`, then those
      of page `p`; all of them are a prefix of the whole. */
  lemma FlattenSnoc(pages: seq<ReadResponse>, p: nat)
    requires p < |pages|
    ensures Flatten(pages[..p + 1]) == Flatten(pages[..p]) + pages[p].items
    ensures Flatten(pages[..p + 1]) <= Flatten(pages)
    ensures var n := |Flatten(pages[..p])|;
      n + |pages[p].items| <= |Flatten(pages)| && Flatten(pages)[n..n + |pages[p].items|] == pages[p].items
  {
    assert pages[..p + 1][..p] == pages[..p];
    FlattenPrefix(pages, p + 1);
    var front, items := Flatten(pages[..p]), pages[p].items;
    assert Flatten(pages)[..|front| + |items|] == front + items;
    assert (front + items)[|front|..] == items;
  }

  /** Deserializing one more item of a sequence extends the result by it. */
  lemma DeserializeAllSnoc(config: ModelOptions, className: string, items: seq<Item>, k: nat, decode: ItemDecoder)
    requires k < |items|
    ensures DeserializeAll(config, className, items[..k + 1], decode)
            == DeserializeAll(config, className, items[..k], decode) + [DeserializeItem(config, className, decode(items[k]))]
  {
    assert items[..k + 1][..k] == items[..k];
  }

  lemma OutcomeWhenStopped(config: ModelOptions, className: string, stream: PageStream, stop: Option<nat>,
                           decode: ItemDecoder)
    requires StopsEarly(|Flatten(stream.pages)|, stop)
    ensures Outcome(config, className, stream, stop, decode)
            == Ok(DeserializeAll(config, className, Flatten(stream.pages)[..stop.value], decode))
  {
    var items := Flatten(stream.pages);
    if stop.value == |items| {
      assert items[..stop.value] == items;
    }
  }

  lemma OutcomeWhenExhausted(config: ModelOptions, className: string, stream: PageStream, stop: Option<nat>,
                             decode: ItemDecoder)
    requires !StopsEarly(|Flatten(stream.pages)|, stop)
    ensures stream.fault.Some? ==>
      Outcome(config, className, stream, stop, decode) == Err(Dynantic(Translate(stream.fault.value, Some(config.tableName))))
    ensures stream.fault.None? ==>
      Outcome(config, className, stream, stop, decode)
      == Ok(DeserializeAll(config, className, Flatten(stream.pages)[..|Flatten(stream.pages)|], decode))
  {
    var items := Flatten(stream.pages);
    assert items[..|items|] == items;
  }

  /** The item loop of `__iter__` over one page: the items of the page,
      which continue the `count` items taken so far, are deserialized in
      order until the stop count is reached. */
  method TakeItems(config: ModelOptions, className: string, ghost all: seq<Item>, items: seq<Item>,
                   count: nat, out: seq<Instance>, stop: Option<nat>, decode: ItemDecoder)
    returns (taken: seq<Instance>, total: nat)
    requires count + |items| <= |all| && all[count..count + |items|] == items
    requires out == DeserializeAll(config, className, all[..count], decode) && !StopsEarly(count, stop)
    ensures count <= total <= count + |items|
    ensures taken == DeserializeAll(config, className, all[..total], decode)
    ensures total < count + |items| ==> StopsEarly(total, stop)
    ensures StopsEarly(total, stop) ==> total == stop.value
  {
    taken, total := out, count;
    var j := 0;
    while j < |items| && !StopsEarly(total, stop)
      invariant 0 <= j <= |items| && total == count + j
      invariant taken == DeserializeAll(config, className, all[..total], decode)
      invariant StopsEarly(total, stop) ==> total == stop.value
    {
      assert all[total] == all[count..count + |items|][j];
      DeserializeAllSnoc(config, className, all, total, decode);
      taken := taken + [DeserializeItem(config, className, decode(items[j]))];
      total := total + 1;
      j := j + 1;
    }
  }

  /** The page/item loop of `__iter__`, consumed until `stop` items have
      been taken or the pages run out. */
  method Collect(config: ModelOptions, className: string, stream: PageStream, stop: Option<nat>, decode: ItemDecoder)
    returns (r: Result<seq<Instance>, Error>)
    requires stop.Some? ==> stop.value >= 1
    ensures r == Outcome(config, className, stream, stop, decode)
  {
    var pages := stream.pages;
    ghost var all := Flatten(pages);
    var out: seq<Instance> := [];
    var count := 0;
    var p := 0;
    while p < |pages|
      invariant 0 <= p <= |pages|
      invariant count == |Flatten(pages[..p])| && Flatten(pages[..p]) <= all
      invariant out == DeserializeAll(config, className, all[..count], decode)
      invariant !StopsEarly(count, stop)
    {
      FlattenSnoc(pages, p);
      var next;
      out, next := TakeItems(config, className, all, pages[p].items, count, out, stop, decode);
      if StopsEarly(next, stop) {
        OutcomeWhenStopped(config, className, stream, stop, decode);
        return Ok(out);
      }
      count := next;
      p := p + 1;
    }
    assert pages[..p] == pages;
    OutcomeWhenExhausted(config, className, stream, stop, decode);
    if stream.fault.Some? {
      return Err(Dynantic(Translate(stream.fault.value, Some(config.tableName))));
    }
    return Ok(out);
  }

  /** Without a fault, a limit of `n > 0` yields `min(n, total)` items and no
      limit (or zero) yields them all, in page order. */
  lemma IterationHonoursLimit(config: ModelOptions, className: string, stream: PageStream, limit: Option<int>,
                              decode: ItemDecoder)
    requires stream.fault.None?
    ensures var r := Outcome(config, className, stream, StopAfter(limit), decode);
      var total := |Flatten(stream.pages)|;
      r.Ok?
      && (limit.Some? && limit.value > 0 ==> |r.value| == (if limit.value < total then limit.value else total))
      && (limit.None? || limit.value == 0 ==> |r.value| == total)
  {
  }
}
