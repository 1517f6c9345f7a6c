/** The condition-expression DSL (dynantic/conditions.py): attribute leaves,
    `&` / `|` / `~` composition with type-checked operands, and compilation
    into request parameters.  boto3's `ConditionExpressionBuilder` is a
    parameter of `CompileCondition`. */
module Conditions {
  import opened Common
  import opened Values
  import opened Errors
  import opened Serializer

  /** The boto3 condition functions and comparisons `Attr` exposes. */
  datatype Operator =
    | Eq | Ne | Lt | Lte | Gt | Gte
    | AttributeExists | AttributeNotExists
    | BeginsWith | ContainsValue | Between | In

  /** A boto3 condition object: a comparison or function on one attribute,
      or a boolean combination of conditions. */
  datatype RawCondition =
    | Leaf(op: Operator, attr: string, operands: seq<Native>)
    | And(left: RawCondition, right: RawCondition)
    | Or(left: RawCondition, right: RawCondition)
    | Not(operand: RawCondition)

  /** The attribute names a condition refers to. */
  function Attributes(c: RawCondition): set<string>
  {
    match c
    case Leaf(_, a, _) => {a}
    case And(l, r) => Attributes(l) + Attributes(r)
    case Or(l, r) => Attributes(l) + Attributes(r)
    case Not(x) => Attributes(x)
  }

  /** What a caller may pass where a condition is expected: the library's
      own wrapper, a raw boto3 condition, or any other object (by its type
      name). */
  datatype ConditionArg =
    | Wrapped(cond: DynCondition)
    | Raw(raw: RawCondition)
    | Foreign(typeName: string)

  function NotACondition(typeName: string): Error
  {
    TypeError("Expected DynCondition or boto3 ConditionBase, got " + typeName)
  }

  /** `_extract_raw`: the boto3 condition inside the argument; a `TypeError`
      for anything that is not a condition. */
  function ExtractRaw(arg: ConditionArg): (r: Result<RawCondition, Error>)
    ensures r.Ok? <==> !arg.Foreign?
    ensures arg.Wrapped? ==> r == Ok(arg.cond.raw)
    ensures arg.Raw? ==> r == Ok(arg.raw)
    ensures arg.Foreign? ==> r == Err(NotACondition(arg.typeName))
  {
    match arg
    case Wrapped(c) => Ok(c.raw)
    case Raw(raw) => Ok(raw)
    case Foreign(t) => Err(NotACondition(t))
  }

  /** The library's condition wrapper with its composition operators. */
  datatype DynCondition = DynCondition(raw: RawCondition)
  {
    /** `self & other`. */
    function AndWith(other: ConditionArg): (r: Result<DynCondition, Error>)
      ensures r.Ok? <==> !other.Foreign?
      ensures other.Foreign? ==> r == Err(NotACondition(other.typeName))
      ensures r.Ok? ==> r.value.raw.And? && r.value.raw.left == raw
                        && Ok(r.value.raw.right) == ExtractRaw(other)
    {
      var o := ExtractRaw(other);
      if o.Err? then Err(o.error) else Ok(DynCondition(And(raw, o.value)))
    }

    /** `other & self` with `other` not a `DynCondition`. */
    function RAndWith(other: ConditionArg): (r: Result<DynCondition, Error>)
      ensures r.Ok? <==> !other.Foreign?
      ensures other.Foreign? ==> r == Err(NotACondition(other.typeName))
      ensures r.Ok? ==> r.value.raw.And? && r.value.raw.right == raw
                        && Ok(r.value.raw.left) == ExtractRaw(other)
    {
      var o := ExtractRaw(other);
      if o.Err? then Err(o.error) else Ok(DynCondition(And(o.value, raw)))
    }

    /** `self | other`. */
    function OrWith(other: ConditionArg): (r: Result<DynCondition, Error>)
      ensures r.Ok? <==> !other.Foreign?
      ensures other.Foreign? ==> r == Err(NotACondition(other.typeName))
      ensures r.Ok? ==> r.value.raw.Or? && r.value.raw.left == raw
                        && Ok(r.value.raw.right) == ExtractRaw(other)
    {
      var o := ExtractRaw(other);
      if o.Err? then Err(o.error) else Ok(DynCondition(Or(raw, o.value)))
    }

    /** `other | self` with `other` not a `DynCondition`. */
    function ROrWith(other: ConditionArg): (r: Result<DynCondition, Error>)
      ensures r.Ok? <==> !other.Foreign?
      ensures other.Foreign? ==> r == Err(NotACondition(other.typeName))
      ensures r.Ok? ==> r.value.raw.Or? && r.value.raw.right == raw
                        && Ok(r.value.raw.left) == ExtractRaw(other)
    {
      var o := ExtractRaw(other);
      if o.Err? then Err(o.error) else Ok(DynCondition(Or(o.value, raw)))
    }

    /** `~self`. */
    function Invert(): (r: DynCondition)
      ensures r.raw.Not? && r.raw.operand == raw
      ensures Attributes(r.raw) == Attributes(raw)
    {
      DynCondition(Not(raw))
    }
  }

  /** Composing two wrapped conditions mentions exactly the attributes of
      both, whichever operator is used. */
  lemma ComposeAttributes(a: DynCondition, b: DynCondition)
    ensures Attributes(a.AndWith(Wrapped(b)).value.raw) == Attributes(a.raw) + Attributes(b.raw)
    ensures Attributes(a.OrWith(Wrapped(b)).value.raw) == Attributes(a.raw) + Attributes(b.raw)
  {
  }

  /** `c.__rand__(raw)` builds the same tree as wrapping `raw` first and
      using `&` with `c` on the right; likewise `__ror__` and `|`. */
  lemma ReflectedOperatorsAgree(raw: RawCondition, c: DynCondition)
    ensures c.RAndWith(Raw(raw)) == DynCondition(raw).AndWith(Wrapped(c))
    ensures c.ROrWith(Raw(raw)) == DynCondition(raw).OrWith(Wrapped(c))
  {
  }

  /** `wrap_condition`: a `DynCondition` as it is, a raw condition wrapped
      once, anything else a `TypeError`. */
  function WrapCondition(arg: ConditionArg): (r: Result<DynCondition, Error>)
    ensures r.Ok? <==> ExtractRaw(arg).Ok?
    ensures r.Ok? ==> r.value.raw == ExtractRaw(arg).value
    ensures r.Err? ==> r.error == ExtractRaw(arg).error
    ensures arg.Wrapped? ==> r == Ok(arg.cond)
  {
    match arg
    case Wrapped(c) => Ok(c)
    case Raw(raw) => Ok(DynCondition(raw))
    case Foreign(t) => Err(NotACondition(t))
  }

  /** Wrapping is idempotent. */
  lemma WrapIdempotent(arg: ConditionArg)
    requires WrapCondition(arg).Ok?
    ensures WrapCondition(Wrapped(WrapCondition(arg).value)) == WrapCondition(arg)
  {
  }

  /** `Attr(name)`: the leaf builders.  Each returns a condition on `name`
      alone. */
  datatype Attr = Attr(name: string)
  {
    function Leaf1(op: Operator, value: Native): (c: DynCondition)
      ensures Attributes(c.raw) == {name}
    {
      DynCondition(Leaf(op, name, [value]))
    }

    function Equals(value: Native): DynCondition { Leaf1(Eq, value) }
    function NotEquals(value: Native): DynCondition { Leaf1(Ne, value) }
    function LessThan(value: Native): DynCondition { Leaf1(Lt, value) }
    function AtMost(value: Native): DynCondition { Leaf1(Lte, value) }
    function GreaterThan(value: Native): DynCondition { Leaf1(Gt, value) }
    function AtLeast(value: Native): DynCondition { Leaf1(Gte, value) }

    function Exists(): DynCondition { DynCondition(Leaf(AttributeExists, name, [])) }
    function NotExists(): DynCondition { DynCondition(Leaf(AttributeNotExists, name, [])) }

    function BeginsWithPrefix(prefix: string): DynCondition { Leaf1(BeginsWith, NStr(prefix)) }
    function Contains(value: Native): DynCondition { Leaf1(ContainsValue, value) }

    function BetweenBounds(low: Native, high: Native): DynCondition
    {
      DynCondition(Leaf(Between, name, [low, high]))
    }

    /** `is_in`: the list is one operand, as boto3 keeps it. */
    function IsIn(values: seq<Native>): DynCondition { Leaf1(In, NList(values)) }
  }

  /** Every builder of `Attr(name)` yields a single leaf on `name`, with the
      operator it is named after and the given operands in order. */
  lemma AttrBuildersAreLeavesOnName(a: Attr, v: Native, w: Native, vs: seq<Native>, p: string)
    ensures a.Equals(v).raw == Leaf(Eq, a.name, [v])
    ensures a.NotEquals(v).raw == Leaf(Ne, a.name, [v])
    ensures a.LessThan(v).raw == Leaf(Lt, a.name, [v])
    ensures a.AtMost(v).raw == Leaf(Lte, a.name, [v])
    ensures a.GreaterThan(v).raw == Leaf(Gt, a.name, [v])
    ensures a.AtLeast(v).raw == Leaf(Gte, a.name, [v])
    ensures a.Exists().raw == Leaf(AttributeExists, a.name, [])
    ensures a.NotExists().raw == Leaf(AttributeNotExists, a.name, [])
    ensures a.BeginsWithPrefix(p).raw == Leaf(BeginsWith, a.name, [NStr(p)])
    ensures a.Contains(v).raw == Leaf(ContainsValue, a.name, [v])
    ensures a.BetweenBounds(v, w).raw == Leaf(Between, a.name, [v, w])
    ensures a.IsIn(vs).raw == Leaf(In, a.name, [NList(vs)])
  {
  }

  /** What boto3's builder returns: the expression text and its name and
      value placeholder maps (values still Python values). */
  datatype BuiltExpression = BuiltExpression(
    conditionExpression: string,
    names: map<string, string>,
    values: map<string, Native>)

  /** The request parameters a condition compiles to; a map that would be
      empty is absent. */
  datatype CompiledCondition = CompiledCondition(
    conditionExpression: string,
    names: Option<map<string, string>>,
    values: Option<map<string, Wire>>)
  {
    function NameMap(): map<string, string>
    {
      if names.Some? then names.value else map[]
    }

    function ValueMap(): map<string, Wire>
    {
      if values.Some? then values.value else map[]
    }
  }

  /** Every placeholder value serializes. */
  predicate ValuesSerialize(values: map<string, Native>)
  {
    forall p :: p in values ==> ToDynamoValue(values[p]).Ok?
  }

  /** The serialization error `to_dynamo_value` raises (the same for every
      value it rejects). */
  const ValueSerializationError: DynanticError :=
    SerializationError("Failed to serialize value", Some(FromTypeError))

  /** `compile_condition`: the builder's expression always; its name map
      only when non-empty; its value map only when non-empty, each value
      serialized under its own placeholder. */
  function CompileCondition(arg: ConditionArg, build: RawCondition -> BuiltExpression): (r: Result<CompiledCondition, Error>)
    ensures arg.Foreign? ==> r == Err(NotACondition(arg.typeName))
    ensures !arg.Foreign? ==>
      var b := build(ExtractRaw(arg).value);
      (r.Ok? <==> ValuesSerialize(b.values))
      && (r.Err? ==> r.error == Dynantic(ValueSerializationError))
      && (r.Ok? ==>
            r.value.conditionExpression == b.conditionExpression
            && (r.value.names.Some? <==> b.names != map[])
            && r.value.NameMap() == b.names
            && (r.value.values.Some? <==> b.values != map[])
            && r.value.ValueMap().Keys == b.values.Keys
            && forall p :: p in b.values ==> Ok(r.value.ValueMap()[p]) == ToDynamoValue(b.values[p]))
  {
    match ExtractRaw(arg)
    case Err(e) => Err(e)
    case Ok(raw) =>
      var b := build(raw);
      if !ValuesSerialize(b.values) then Err(Dynantic(ValueSerializationError))
      else
        var serialized := map p | p in b.values :: ToDynamoValue(b.values[p]).value;
        Ok(CompiledCondition(
          b.conditionExpression,
          if b.names != map[] then Some(b.names) else None,
          if b.values != map[] then Some(serialized) else None))
  }
}
