/** Atomic updates (dynantic/updates.py): the four update actions and their
    validation, the update builder, and the compiler that groups the
    actions into `SET`, `REMOVE`, `ADD` and `DELETE` clauses with numbered
    placeholders.  pydantic's coercion of a value to a field's declared
    type is a parameter: a validator per declared field. */
module Updates {
  import opened Common
  import opened Values
  import opened Errors
  import opened Serializer
  import opened Conditions
  import opened Config
  import opened Requests
  import opened Models

  // ---------------------------------------------------------------------
  // Actions and their validation
  // ---------------------------------------------------------------------

  /** An update action on one attribute. */
  datatype Action =
    | SetAction(field: string, value: Native)
    | RemoveAction(field: string)
    | AddAction(field: string, value: Native)
    | DeleteAction(field: string, value: Native)

  /** `TypeAdapter(annotation).validate_python`: the coerced value, or the
      text of the validation error. */
  type Validator = Native -> Result<Native, string>

  /** The validators of the model's declared fields, by attribute name. */
  type FieldTypes = map<string, Validator>

  function ValidationFailed(field: string, detail: string): Error
  {
    ValueError("Validation failed for field '" + field + "': " + detail)
  }

  function AddTypeRejected(field: string, v: Native): Error
  {
    ValueError("Invalid type for ADD operation on field '" + field
               + "'. DynamoDB ADD supports only Numbers and Sets. Got: " + TypeName(v))
  }

  function AddValueRejected(v: Native): Error
  {
    ValueError("Invalid value for ADD operation. DynamoDB ADD supports only Numbers and Sets. Got: "
               + TypeName(v))
  }

  /** What DynamoDB's ADD takes: a number (int, bool or Decimal) or a set. */
  predicate Addable(v: Native)
  {
    IsNumber(v) || v.NSet?
  }

  /** The value coerced to the declared type of the field, the value itself
      for an undeclared field, or the validation error. */
  function Coerce(fields: FieldTypes, field: string, value: Native): (r: Result<Native, Error>)
    ensures field !in fields ==> r == Ok(value)
    ensures field in fields && fields[field](value).Err? ==>
      r == Err(ValidationFailed(field, fields[field](value).error))
    ensures field in fields && fields[field](value).Ok? ==> r == Ok(fields[field](value).value)
  {
    if field !in fields then Ok(value)
    else match fields[field](value)
      case Ok(v) => Ok(v)
      case Err(detail) => Err(ValidationFailed(field, detail))
  }

  /** `validate`: a removal and a `Set` to `None` carry no value; `Set` and
      `Delete` coerce; `Add` coerces and then insists on a number or a set
      (for an undeclared field, on the raw value). */
  function Validate(a: Action, fields: FieldTypes): (r: Result<Native, Error>)
    ensures a.RemoveAction? ==> r == Ok(NNone)
    ensures a.SetAction? && a.value == NNone ==> r == Ok(NNone)
    ensures (a.SetAction? && a.value != NNone) || a.DeleteAction? ==> r == Coerce(fields, a.field, a.value)
    ensures a.AddAction? && r.Ok? ==> Addable(r.value)
    ensures a.AddAction? && a.field !in fields ==>
      (r.Ok? <==> Addable(a.value)) && (r.Ok? ==> r.value == a.value)
      && (r.Err? ==> r.error == AddValueRejected(a.value))
    ensures a.AddAction? && a.field in fields ==>
      (r.Ok? <==> fields[a.field](a.value).Ok? && Addable(fields[a.field](a.value).value))
      && (r.Ok? ==> r.value == fields[a.field](a.value).value)
    ensures a.AddAction? && a.field in fields && fields[a.field](a.value).Err? ==>
      r == Err(ValidationFailed(a.field, fields[a.field](a.value).error))
    ensures a.AddAction? && a.field in fields && fields[a.field](a.value).Ok? && !Addable(fields[a.field](a.value).value) ==>
      r == Err(AddTypeRejected(a.field, fields[a.field](a.value).value))
  {
    match a
    case SetAction(f, v) => if v == NNone then Ok(NNone) else Coerce(fields, f, v)
    case RemoveAction(_) => Ok(NNone)
    case DeleteAction(f, v) => Coerce(fields, f, v)
    case AddAction(f, v) =>
      if f in fields then
        var c :- Coerce(fields, f, v);
        if Addable(c) then Ok(c) else Err(AddTypeRejected(f, c))
      else if Addable(v) then Ok(v)
      else Err(AddValueRejected(v))
  }

  // ---------------------------------------------------------------------
  // Grouping
  // ---------------------------------------------------------------------

  /** A validated action carrying a value. */
  datatype Entry = Entry(field: string, value: Native)

  /** The actions sorted by kind, each kind in chaining order. */
  datatype Groups = Groups(sets: seq<Entry>, removes: seq<string>, adds: seq<Entry>, deletes: seq<Entry>)
  {
    function Size(): nat
    {
      |sets| + |removes| + |adds| + |deletes|
    }
  }

  const NoGroups: Groups := Groups([], [], [], [])

  /** Where one validated action goes: a `Set` whose value validated to
      `None` becomes a removal; every other action joins the end of its
      own kind, and the other kinds are left as they were. */
  function Place(g: Groups, a: Action, v: Native): (h: Groups)
    ensures h.Size() == g.Size() + 1
    ensures a.SetAction? && v == NNone ==> h == g.(removes := g.removes + [a.field])
    ensures a.SetAction? && v != NNone ==> h == g.(sets := g.sets + [Entry(a.field, v)])
    ensures a.RemoveAction? ==> h == g.(removes := g.removes + [a.field])
    ensures a.AddAction? ==> h == g.(adds := g.adds + [Entry(a.field, v)])
    ensures a.DeleteAction? ==> h == g.(deletes := g.deletes + [Entry(a.field, v)])
  {
    match a
    case SetAction(f, _) =>
      if v == NNone then g.(removes := g.removes + [f]) else g.(sets := g.sets + [Entry(f, v)])
    case RemoveAction(f) => g.(removes := g.removes + [f])
    case AddAction(f, _) => g.(adds := g.adds + [Entry(f, v)])
    case DeleteAction(f, _) => g.(deletes := g.deletes + [Entry(f, v)])
  }

  /** The grouping loop of `_compile`: every action validated in order and
      placed; the first validation error otherwise. */
  function GroupFrom(actions: seq<Action>, fields: FieldTypes): (r: Result<Groups, Error>)
    ensures r.Ok? ==> r.value.Size() == |actions|
    decreases |actions|
  {
    if actions == [] then Ok(NoGroups)
    else
      var g :- GroupFrom(actions[..|actions| - 1], fields);
      var v :- Validate(actions[|actions| - 1], fields);
      Ok(Place(g, actions[|actions| - 1], v))
  }

  /** One more step of the grouping loop. */
  lemma GroupStep(actions: seq<Action>, fields: FieldTypes, i: nat)
    requires i < |actions|
    ensures GroupFrom(actions[..i], fields).Err? ==>
      GroupFrom(actions[..i + 1], fields) == Err(GroupFrom(actions[..i], fields).error)
    ensures GroupFrom(actions[..i], fields).Ok? && Validate(actions[i], fields).Err? ==>
      GroupFrom(actions[..i + 1], fields) == Err(Validate(actions[i], fields).error)
    ensures GroupFrom(actions[..i], fields).Ok? && Validate(actions[i], fields).Ok? ==>
      GroupFrom(actions[..i + 1], fields)
      == Ok(Place(GroupFrom(actions[..i], fields).value, actions[i], Validate(actions[i], fields).value))
  {
    var next := actions[..i + 1];
    assert next != [] && next[..|next| - 1] == actions[..i] && next[|next| - 1] == actions[i];
  }

  /** Once a prefix of the actions fails validation, the whole list fails
      with the same error. */
  lemma {:induction false} GroupPrefixFails(actions: seq<Action>, fields: FieldTypes, i: nat)
    requires i <= |actions| && GroupFrom(actions[..i], fields).Err?
    ensures GroupFrom(actions, fields) == GroupFrom(actions[..i], fields)
    decreases |actions| - i
  {
    if i < |actions| {
      assert actions[..i + 1][..i] == actions[..i];
      GroupPrefixFails(actions, fields, i + 1);
    } else {
      assert actions[..i] == actions;
    }
  }

  // ---------------------------------------------------------------------
  // Placeholders and clauses
  // ---------------------------------------------------------------------

  /** A numbered placeholder: the prefix followed by the counter. */
  function Ph(prefix: string, n: nat): string
  {
    prefix + NatToString(n)
  }

  const NamePrefix: string := "#u_n"

  const ValuePrefix: string := ":u_v"

  /** The placeholder map a counter starting at `n0` produces for the
      items in order: the i-th item under placeholder `n0 + i`. */
  function Numbered<V>(prefix: string, xs: seq<V>, n0: nat): map<string, V>
    decreases |xs|
  {
    if xs == [] then map[]
    else Numbered(prefix, xs[..|xs| - 1], n0)[Ph(prefix, n0 + |xs| - 1) := xs[|xs| - 1]]
  }

  /** Extending the items by one binds one more placeholder, the next
      number. */
  lemma NumberedSnoc<V>(prefix: string, xs: seq<V>, x: V, n0: nat)
    ensures Numbered(prefix, xs + [x], n0) == Numbered(prefix, xs, n0)[Ph(prefix, n0 + |xs|) := x]
  {
    assert (xs + [x])[..|xs|] == xs;
  }

  /** The i-th item sits under its own placeholder: later items never
      overwrite an earlier one (no two counters render alike). */
  lemma {:induction false} NumberedAt<V>(prefix: string, xs: seq<V>, n0: nat, i: nat)
    requires n0 <= i < n0 + |xs|
    ensures Ph(prefix, i) in Numbered(prefix, xs, n0)
    ensures Numbered(prefix, xs, n0)[Ph(prefix, i)] == xs[i - n0]
    decreases |xs|
  {
    var last := n0 + |xs| - 1;
    if i < last {
      NumberedAt(prefix, xs[..|xs| - 1], n0, i);
      PrefixedInjective(prefix, i, last);
    }
  }

  /** The map holds no placeholder other than those of the items. */
  lemma {:induction false} NumberedOnly<V>(prefix: string, xs: seq<V>, n0: nat, key: string)
    requires key in Numbered(prefix, xs, n0)
    ensures exists i :: n0 <= i < n0 + |xs| && key == Ph(prefix, i)
    decreases |xs|
  {
    if key != Ph(prefix, n0 + |xs| - 1) {
      NumberedOnly(prefix, xs[..|xs| - 1], n0, key);
    }
  }

  /** Every item gets a placeholder of its own, none is merged with
      another (no deduplication), and there are no other placeholders. */
  lemma NumberedBindsEach<V>(prefix: string, xs: seq<V>, n0: nat)
    ensures forall i :: n0 <= i < n0 + |xs| ==>
      Ph(prefix, i) in Numbered(prefix, xs, n0) && Numbered(prefix, xs, n0)[Ph(prefix, i)] == xs[i - n0]
    ensures forall key :: key in Numbered(prefix, xs, n0) ==>
      exists i :: n0 <= i < n0 + |xs| && key == Ph(prefix, i)
  {
    forall i | n0 <= i < n0 + |xs|
      ensures Ph(prefix, i) in Numbered(prefix, xs, n0) && Numbered(prefix, xs, n0)[Ph(prefix, i)] == xs[i - n0]
    {
      NumberedAt(prefix, xs, n0, i);
    }
    forall key | key in Numbered(prefix, xs, n0)
      ensures exists i :: n0 <= i < n0 + |xs| && key == Ph(prefix, i)
    {
      NumberedOnly(prefix, xs, n0, key);
    }
  }

  /** The four clause kinds, in the order they appear. */
  datatype Kind = SetKind | RemoveKind | AddKind | DeleteKind

  function Keyword(k: Kind): string
  {
    match k
    case SetKind => "SET"
    case RemoveKind => "REMOVE"
    case AddKind => "ADD"
    case DeleteKind => "DELETE"
  }

  /** One clause: `#n = :v` for SET, `#n` for REMOVE, `#n :v` for ADD and
      DELETE. */
  function ClauseText(k: Kind, n: nat, v: nat): string
  {
    match k
    case SetKind => Ph(NamePrefix, n) + " = " + Ph(ValuePrefix, v)
    case RemoveKind => Ph(NamePrefix, n)
    case _ => Ph(NamePrefix, n) + " " + Ph(ValuePrefix, v)
  }

  /** The clauses of `count` actions of one kind, numbered from the
      counters `n0` and `v0`; a removal takes no value placeholder. */
  function ClauseList(k: Kind, count: nat, n0: nat, v0: nat): (cs: seq<string>)
    ensures |cs| == count
  {
    seq(count, i requires 0 <= i < count => ClauseText(k, n0 + i, if k == RemoveKind then v0 else v0 + i))
  }

  /** The part one kind contributes to the expression: none for no
      clauses, else the keyword and the comma-separated clauses. */
  function Section(k: Kind, clauses: seq<string>): seq<string>
  {
    if clauses == [] then [] else [PartText(k, clauses)]
  }

  /** The part of `count` actions of one kind, numbered from `n0` and
      `v0`. */
  function Part(k: Kind, count: nat, n0: nat, v0: nat): seq<string>
  {
    Section(k, ClauseList(k, count, n0, v0))
  }

  /** The keyword followed by the comma-separated clauses. */
  function PartText(k: Kind, clauses: seq<string>): string
  {
    Keyword(k) + " " + Join(", ", clauses)
  }

  function FieldsOf(es: seq<Entry>): (fs: seq<string>)
    ensures |fs| == |es| && forall i :: 0 <= i < |es| ==> fs[i] == es[i].field
  {
    seq(|es|, i requires 0 <= i < |es| => es[i].field)
  }

  function ValuesOf(es: seq<Entry>): (vs: seq<Native>)
    ensures |vs| == |es| && forall i :: 0 <= i < |es| ==> vs[i] == es[i].value
  {
    seq(|es|, i requires 0 <= i < |es| => es[i].value)
  }

  /** The model's serializer for one value (`to_dynamo_value`): the wire
      form, or the serialization error.  The builder uses the Serializer
      module's `ToDynamoValue`. */
  type ValueEncoder = Native -> Result<Wire, DynanticError>

  /** Every value serializes. */
  predicate AllSerialize(vs: seq<Native>, encode: ValueEncoder)
  {
    forall i :: 0 <= i < |vs| ==> encode(vs[i]).Ok?
  }

  /** The values serialized, in order. */
  function Wires(vs: seq<Native>, encode: ValueEncoder): (ws: seq<Wire>)
    requires AllSerialize(vs, encode)
    ensures |ws| == |vs| && forall i :: 0 <= i < |vs| ==> Ok(ws[i]) == encode(vs[i])
  {
    seq(|vs|, i requires 0 <= i < |vs| => encode(vs[i]).value)
  }

  /** The error of the first value, in order, that does not serialize;
      none exactly when all of them do. */
  function FirstFailure(vs: seq<Native>, encode: ValueEncoder): (f: Option<DynanticError>)
    ensures f.None? <==> AllSerialize(vs, encode)
    decreases |vs|
  {
    if vs == [] then None
    else if encode(vs[0]).Err? then Some(encode(vs[0]).error)
    else
      var rest := FirstFailure(vs[1..], encode);
      assert AllSerialize(vs, encode) <==> AllSerialize(vs[1..], encode) by {
        if AllSerialize(vs[1..], encode) {
          forall i | 0 <= i < |vs| ensures encode(vs[i]).Ok? {
            if i > 0 {
              assert vs[i] == vs[1..][i - 1];
            }
          }
        }
      }
      rest
  }

  /** The serialization loop stops at the first value that fails: when all
      values before index `i` serialize and the one at `i` does not, its
      error is the first failure. */
  lemma {:induction false} FirstFailureAt(vs: seq<Native>, i: nat, encode: ValueEncoder)
    requires i < |vs| && AllSerialize(vs[..i], encode) && encode(vs[i]).Err?
    ensures FirstFailure(vs, encode) == Some(encode(vs[i]).error)
    decreases i
  {
    if i > 0 {
      assert vs[..i][0] == vs[0];
      assert vs[1..][..i - 1] == vs[..i][1..];
      assert vs[1..][i - 1] == vs[i];
      FirstFailureAt(vs[1..], i - 1, encode);
    }
  }

  /** The first failure of concatenated values is the first of the front
      part, or else the first of the back part. */
  lemma {:induction false} FirstFailureAppend(a: seq<Native>, b: seq<Native>, encode: ValueEncoder)
    ensures FirstFailure(a + b, encode)
            == if FirstFailure(a, encode).Some? then FirstFailure(a, encode) else FirstFailure(b, encode)
    decreases |a|
  {
    if a == [] {
      assert a + b == b;
    } else {
      assert (a + b)[0] == a[0];
      assert (a + b)[1..] == a[1..] + b;
      FirstFailureAppend(a[1..], b, encode);
    }
  }

  /** The update expression of the grouped actions: the kinds in the
      order SET, REMOVE, ADD, DELETE, each present only if it has actions,
      separated by spaces.  Names are numbered across all four kinds in
      that order, values across SET, ADD and DELETE. */
  function Expression(g: Groups): string
  {
    Join(" ", Parts(g))
  }

  /** The parts of the expression, one per kind that has actions. */
  function Parts(g: Groups): seq<string>
  {
    var s, r, a := |g.sets|, |g.removes|, |g.adds|;
    Part(SetKind, s, 0, 0) + Part(RemoveKind, r, s, s) + Part(AddKind, a, s + r, s)
    + Part(DeleteKind, |g.deletes|, s + r + a, s + a)
  }

  /** The attribute of every name placeholder, in numbering order. */
  function NameOrder(g: Groups): seq<string>
  {
    FieldsOf(g.sets) + g.removes + FieldsOf(g.adds) + FieldsOf(g.deletes)
  }

  /** Every value to be sent, in numbering order. */
  function ValueOrder(g: Groups): seq<Native>
  {
    ValuesOf(g.sets) + ValuesOf(g.adds) + ValuesOf(g.deletes)
  }

  /** The name map: the i-th attribute reference under `#u_n{i}`. */
  function NamesOf(g: Groups): map<string, string>
  {
    Numbered(NamePrefix, NameOrder(g), 0)
  }

  /** The value map: the j-th value, serialized, under `:u_v{j}`. */
  function ValueMap(g: Groups, encode: ValueEncoder): map<string, Wire>
    requires AllSerialize(ValueOrder(g), encode)
  {
    Numbered(ValuePrefix, Wires(ValueOrder(g), encode), 0)
  }

  /** The first value of the whole order that does not serialize is the
      first such SET value, else ADD value, else DELETE value. */
  lemma FirstFailureByKind(g: Groups, encode: ValueEncoder)
    ensures var fs, fa, fd := FirstFailure(ValuesOf(g.sets), encode), FirstFailure(ValuesOf(g.adds), encode),
                              FirstFailure(ValuesOf(g.deletes), encode);
      FirstFailure(ValueOrder(g), encode) == if fs.Some? then fs else if fa.Some? then fa else fd
  {
    FirstFailureAppend(ValuesOf(g.sets) + ValuesOf(g.adds), ValuesOf(g.deletes), encode);
    FirstFailureAppend(ValuesOf(g.sets), ValuesOf(g.adds), encode);
  }

  /** The values sent, serialized, are those of each kind in turn. */
  lemma WiresSplit(g: Groups, encode: ValueEncoder)
    requires AllSerialize(ValuesOf(g.sets), encode) && AllSerialize(ValuesOf(g.adds), encode)
    requires AllSerialize(ValuesOf(g.deletes), encode)
    ensures AllSerialize(ValueOrder(g), encode)
    ensures Wires(ValueOrder(g), encode)
            == Wires(ValuesOf(g.sets), encode) + Wires(ValuesOf(g.adds), encode) + Wires(ValuesOf(g.deletes), encode)
  {
    FirstFailureByKind(g, encode);
  }

  /** Every attribute reference of the expression, across all four kinds,
      has a name placeholder of its own (`#u_n{i}` for the i-th, so the
      same attribute referenced twice gets two), and there is no other. */
  lemma NamesNumberEveryReference(g: Groups)
    ensures forall i :: 0 <= i < |NameOrder(g)| ==>
      Ph(NamePrefix, i) in NamesOf(g) && NamesOf(g)[Ph(NamePrefix, i)] == NameOrder(g)[i]
    ensures forall key :: key in NamesOf(g) ==> exists i :: 0 <= i < |NameOrder(g)| && key == Ph(NamePrefix, i)
  {
    NumberedBindsEach(NamePrefix, NameOrder(g), 0);
  }

  /** Every value sent, across SET, ADD and DELETE, has a value
      placeholder of its own holding it serialized (`:u_v{j}` for the
      j-th), and there is no other. */
  lemma ValuesNumberEveryValue(g: Groups, encode: ValueEncoder)
    requires AllSerialize(ValueOrder(g), encode)
    ensures forall j :: 0 <= j < |ValueOrder(g)| ==>
      Ph(ValuePrefix, j) in ValueMap(g, encode)
      && Ok(ValueMap(g, encode)[Ph(ValuePrefix, j)]) == encode(ValueOrder(g)[j])
    ensures forall key :: key in ValueMap(g, encode) ==>
      exists j :: 0 <= j < |ValueOrder(g)| && key == Ph(ValuePrefix, j)
  {
    var ws := Wires(ValueOrder(g), encode);
    forall j | 0 <= j < |ValueOrder(g)|
      ensures Ph(ValuePrefix, j) in ValueMap(g, encode)
              && Ok(ValueMap(g, encode)[Ph(ValuePrefix, j)]) == encode(ValueOrder(g)[j])
    {
      NumberedAt(ValuePrefix, ws, 0, j);
    }
    forall key | key in ValueMap(g, encode)
      ensures exists j :: 0 <= j < |ValueOrder(g)| && key == Ph(ValuePrefix, j)
    {
      NumberedOnly(ValuePrefix, ws, 0, key);
    }
  }

  // ---------------------------------------------------------------------
  // Compilation
  // ---------------------------------------------------------------------

  const NoActions: Error := ValueError("No update actions specified")

  /** The parameters `_compile` returns; a map that would be empty is
      absent. */
  datatype UpdateParams = UpdateParams(
    updateExpression: string,
    conditionExpression: Option<string>,
    names: Option<map<string, string>>,
    values: Option<map<string, Wire>>)

  /** The condition, compiled when one is attached. */
  function CompiledConditionOf(condition: Option<ConditionArg>, build: RawCondition -> BuiltExpression)
    : Result<Option<CompiledCondition>, Error>
  {
    match condition
    case None => Ok(None)
    case Some(c) =>
      var cc :- CompileCondition(c, build);
      Ok(Some(cc))
  }

  /** What `_compile` produces for a list of actions: refused when empty;
      the first validation error; the serialization error of the first
      value, in numbering order, that does not serialize; the condition's compilation error; otherwise the
      expression, the condition, and the placeholder maps extended by the
      condition's, each only when non-empty. */
  function CompileSpec(actions: seq<Action>, fields: FieldTypes, condition: Option<ConditionArg>,
                       build: RawCondition -> BuiltExpression, encode: ValueEncoder): (r: Result<UpdateParams, Error>)
    ensures actions == [] ==> r == Err(NoActions)
    ensures r.Ok? ==> (r.value.conditionExpression.Some? <==> condition.Some?)
    ensures r.Ok? ==> GroupFrom(actions, fields).Ok?
                      && r.value.updateExpression == Expression(GroupFrom(actions, fields).value)
    ensures r.Ok? && condition.Some? ==>
              CompileCondition(condition.value, build).Ok?
              && r.value.conditionExpression == Some(CompileCondition(condition.value, build).value.conditionExpression)
    ensures r.Ok? ==> (r.value.names.Some? ==> r.value.names.value != map[])
    ensures r.Ok? ==> (r.value.values.Some? ==> r.value.values.value != map[])
  {
    if actions == [] then Err(NoActions)
    else
      var g :- GroupFrom(actions, fields);
      if FirstFailure(ValueOrder(g), encode).Some? then
        Err(Dynantic(FirstFailure(ValueOrder(g), encode).value))
      else
        var cond :- CompiledConditionOf(condition, build);
        var names := if cond.Some? then NamesOf(g) + cond.value.NameMap() else NamesOf(g);
        var values := if cond.Some? then ValueMap(g, encode) + cond.value.ValueMap() else ValueMap(g, encode);
        Ok(UpdateParams(
          Expression(g),
          if cond.Some? then Some(cond.value.conditionExpression) else None,
          if names != map[] then Some(names) else None,
          if values != map[] then Some(values) else None))
  }

  lemma FirstPlaceholders()
    ensures Ph(NamePrefix, 0) == "#u_n0" && Ph(NamePrefix, 1) == "#u_n1"
    ensures Ph(ValuePrefix, 0) == ":u_v0" && Ph(ValuePrefix, 1) == ":u_v1"
  {
    assert NatToString(0) == [Digit(0)] == "0";
    assert NatToString(1) == [Digit(1)] == "1";
  }

  /** Without a condition, the compiled parameters are the expression and
      the two maps of the groups, each map only when non-empty. */
  lemma CompiledWithoutCondition(actions: seq<Action>, fields: FieldTypes, g: Groups,
                                 build: RawCondition -> BuiltExpression, encode: ValueEncoder)
    requires actions != [] && GroupFrom(actions, fields) == Ok(g)
    requires AllSerialize(ValueOrder(g), encode)
    ensures CompileSpec(actions, fields, None, build, encode)
            == Ok(UpdateParams(Expression(g), None,
                               if NamesOf(g) != map[] then Some(NamesOf(g)) else None,
                               if ValueMap(g, encode) != map[] then Some(ValueMap(g, encode)) else None))
  {
    assert FirstFailure(ValueOrder(g), encode).None?;
    assert CompiledConditionOf(None, build) == Ok(None);
  }

  /** With a condition that compiles, its expression is passed on and its
      placeholder maps are merged into the update's, each merged map only
      when non-empty; a condition that does not compile is the error. */
  lemma CompiledWithCondition(actions: seq<Action>, fields: FieldTypes, g: Groups, c: ConditionArg,
                              build: RawCondition -> BuiltExpression, encode: ValueEncoder)
    requires actions != [] && GroupFrom(actions, fields) == Ok(g)
    requires AllSerialize(ValueOrder(g), encode)
    ensures CompileCondition(c, build).Err? ==>
              CompileSpec(actions, fields, Some(c), build, encode) == Err(CompileCondition(c, build).error)
    ensures CompileCondition(c, build).Ok? ==>
              var cc := CompileCondition(c, build).value;
              var names := NamesOf(g) + cc.NameMap();
              var values := ValueMap(g, encode) + cc.ValueMap();
              CompileSpec(actions, fields, Some(c), build, encode)
              == Ok(UpdateParams(Expression(g), Some(cc.conditionExpression),
                                 if names != map[] then Some(names) else None,
                                 if values != map[] then Some(values) else None))
  {
    assert FirstFailure(ValueOrder(g), encode).None?;
  }

  /** A single `Set` to `None` is grouped as a removal. */
  lemma SetNoneGroups(field: string, fields: FieldTypes)
    ensures GroupFrom([SetAction(field, NNone)], fields) == Ok(Groups([], [field], [], []))
  {
    var actions := [SetAction(field, NNone)];
    GroupStep(actions, fields, 0);
    assert actions[..0] == [] && actions[..1] == actions;
    assert Validate(actions[0], fields) == Ok(NNone);
    assert GroupFrom(actions[..0], fields) == Ok(NoGroups);
    assert Place(NoGroups, actions[0], NNone) == Groups([], [field], [], []);
  }

  /** One removal: the clause and its name placeholder, no values. */
  lemma SingleRemoval(field: string, encode: ValueEncoder)
    ensures var g := Groups([], [field], [], []);
      AllSerialize(ValueOrder(g), encode) && Expression(g) == "REMOVE #u_n0"
      && NamesOf(g) == map["#u_n0" := field] && ValueMap(g, encode) == map[]
  {
    var g := Groups([], [field], [], []);
    FirstPlaceholders();
    assert ClauseList(RemoveKind, 1, 0, 0) == [ClauseText(RemoveKind, 0, 0)] == ["#u_n0"];
    assert Expression(g) == Join(" ", ["REMOVE #u_n0"]);
    assert NameOrder(g) == [field] && [field][..0] == [];
    assert Numbered(NamePrefix, [field], 0) == Numbered(NamePrefix, [], 0)[Ph(NamePrefix, 0) := field];
    assert ValueOrder(g) == [];
  }

  /** A `Set` to `None` compiles as the removal of that attribute, with a
      name placeholder and no value placeholder. */
  lemma SetNoneCompilesAsRemove(field: string, fields: FieldTypes, build: RawCondition -> BuiltExpression,
                                encode: ValueEncoder)
    ensures CompileSpec([SetAction(field, NNone)], fields, None, build, encode)
            == Ok(UpdateParams("REMOVE #u_n0", None, Some(map["#u_n0" := field]), None))
  {
    var g := Groups([], [field], [], []);
    SetNoneGroups(field, fields);
    SingleRemoval(field, encode);
    CompiledWithoutCondition([SetAction(field, NNone)], fields, g, build, encode);
    assert "#u_n0" in NamesOf(g);
  }

  /** The actions of the mixed-order example, and their groups. */
  function MixedActions(): seq<Action>
  {
    [AddAction("age", NInt(1)), SetAction("name", NStr("Bob"))]
  }

  function MixedGroups(): Groups
  {
    Groups([Entry("name", NStr("Bob"))], [], [Entry("age", NInt(1))], [])
  }

  lemma MixedGrouping()
    ensures GroupFrom(MixedActions(), map[]) == Ok(MixedGroups())
  {
    var actions, fields := MixedActions(), map[];
    var add := Entry("age", NInt(1));
    GroupStep(actions, fields, 0);
    GroupStep(actions, fields, 1);
    assert actions[..0] == [] && actions[..2] == actions;
    assert Validate(actions[0], fields) == Ok(NInt(1));
    assert Validate(actions[1], fields) == Ok(NStr("Bob"));
    assert GroupFrom(actions[..0], fields) == Ok(NoGroups);
    assert Place(NoGroups, actions[0], NInt(1)) == Groups([], [], [add], []);
    assert GroupFrom(actions[..1], fields) == Ok(Groups([], [], [add], []));
    assert Place(Groups([], [], [add], []), actions[1], NStr("Bob")) == MixedGroups();
  }

  /** One action of a kind makes a part of the keyword and its one clause. */
  lemma SingleClausePart(k: Kind, n: nat, v: nat)
    ensures Part(k, 1, n, v) == [Keyword(k) + " " + ClauseText(k, n, v)]
  {
    assert ClauseList(k, 1, n, v) == [ClauseText(k, n, v)];
  }

  lemma MixedClauses()
    ensures Keyword(SetKind) + " " + ClauseText(SetKind, 0, 0) == "SET #u_n0 = :u_v0"
    ensures Keyword(AddKind) + " " + ClauseText(AddKind, 1, 1) == "ADD #u_n1 :u_v1"
  {
    FirstPlaceholders();
    assert ClauseText(SetKind, 0, 0) == "#u_n0 = :u_v0";
    assert ClauseText(AddKind, 1, 1) == "#u_n1 :u_v1";
  }

  lemma MixedExpression()
    ensures Expression(MixedGroups()) == "SET #u_n0 = :u_v0 ADD #u_n1 :u_v1"
  {
    MixedClauses();
    SingleClausePart(SetKind, 0, 0);
    SingleClausePart(AddKind, 1, 1);
    var setPart, addPart := "SET #u_n0 = :u_v0", "ADD #u_n1 :u_v1";
    assert Part(SetKind, 1, 0, 0) == [setPart] && Part(AddKind, 1, 1, 1) == [addPart];
    assert Part(RemoveKind, 0, 1, 1) == [] && Part(DeleteKind, 0, 2, 2) == [];
    assert Parts(MixedGroups()) == [setPart, addPart];
    JoinPair(" ", setPart, addPart);
    MixedText();
  }

  lemma JoinPair(sep: string, a: string, b: string)
    ensures Join(sep, [a, b]) == a + sep + b
  {
    assert [a, b][1..] == [b];
  }

  lemma MixedText()
    ensures "SET #u_n0 = :u_v0" + " " + "ADD #u_n1 :u_v1" == "SET #u_n0 = :u_v0 ADD #u_n1 :u_v1"
  {
  }

  /** Two items are numbered 0 and 1. */
  lemma NumberedPair<V>(prefix: string, a: V, b: V)
    ensures Numbered(prefix, [a, b], 0) == Numbered(prefix, [], 0)[Ph(prefix, 0) := a][Ph(prefix, 1) := b]
  {
    assert [a, b][..1] == [a] && [a][..0] == [];
  }

  lemma MixedOrders()
    ensures NameOrder(MixedGroups()) == ["name", "age"]
    ensures ValueOrder(MixedGroups()) == [NStr("Bob"), NInt(1)]
  {
  }

  lemma MixedWires()
    ensures AllSerialize(ValueOrder(MixedGroups()), ToDynamoValue)
    ensures Wires(ValueOrder(MixedGroups()), ToDynamoValue) == [S("Bob"), N(Decimal(1, 0))]
  {
    MixedOrders();
    assert ToDynamoValue(NStr("Bob")) == Ok(S("Bob")) && ToDynamoValue(NInt(1)) == Ok(N(Decimal(1, 0)));
  }

  lemma MixedMaps()
    ensures AllSerialize(ValueOrder(MixedGroups()), ToDynamoValue)
    ensures NamesOf(MixedGroups()) == map["#u_n0" := "name", "#u_n1" := "age"]
    ensures ValueMap(MixedGroups(), ToDynamoValue) == map[":u_v0" := S("Bob"), ":u_v1" := N(Decimal(1, 0))]
  {
    FirstPlaceholders();
    MixedOrders();
    MixedWires();
    NumberedPair(NamePrefix, "name", "age");
    NumberedPair(ValuePrefix, S("Bob"), N(Decimal(1, 0)));
  }

  /** Clauses are grouped by kind whatever the chaining order: an ADD
      chained before a SET still comes after it, and the SET takes the
      first placeholders. */
  lemma AddBeforeSetCompilesSetFirst(build: RawCondition -> BuiltExpression)
    ensures CompileSpec(MixedActions(), map[], None, build, ToDynamoValue)
      == Ok(UpdateParams("SET #u_n0 = :u_v0 ADD #u_n1 :u_v1", None,
                         Some(map["#u_n0" := "name", "#u_n1" := "age"]),
                         Some(map[":u_v0" := S("Bob"), ":u_v1" := N(Decimal(1, 0))])))
  {
    MixedGrouping();
    MixedExpression();
    MixedMaps();
    var g := MixedGroups();
    CompiledWithoutCondition(MixedActions(), map[], g, build, ToDynamoValue);
    assert "#u_n0" in NamesOf(g) && ":u_v0" in ValueMap(g, ToDynamoValue);
  }

  /** The state the clause loops thread through: the placeholder maps and
      the two counters. */
  datatype Emitted = Emitted(clauses: seq<string>, names: map<string, string>, values: map<string, Wire>,
                             nameCounter: nat, valueCounter: nat)

  lemma ClauseListSnoc(k: Kind, i: nat, n0: nat, v0: nat)
    ensures ClauseList(k, i + 1, n0, v0)
            == ClauseList(k, i, n0, v0) + [ClauseText(k, n0 + i, if k == RemoveKind then v0 else v0 + i)]
  {
  }

  lemma FieldsSnoc(es: seq<Entry>, i: nat)
    requires i < |es|
    ensures FieldsOf(es[..i + 1]) == FieldsOf(es[..i]) + [es[i].field]
    ensures ValuesOf(es[..i + 1]) == ValuesOf(es[..i]) + [es[i].value]
  {
  }

  /** The first value of the entries that does not serialize is the one at
      `i` when all before it do. */
  lemma FailureAtEntry(es: seq<Entry>, i: nat, encode: ValueEncoder)
    requires i < |es| && AllSerialize(ValuesOf(es[..i]), encode) && encode(es[i].value).Err?
    ensures FirstFailure(ValuesOf(es), encode) == Some(encode(es[i].value).error)
  {
    assert ValuesOf(es)[..i] == ValuesOf(es[..i]);
    FirstFailureAt(ValuesOf(es), i, encode);
  }

  /** One more step of the REMOVE loop whose counters started at `n0` and
      `v0`. */
  lemma EmitRemovalStep(refs: seq<string>, i: nat, before: seq<string>, n0: nat, v0: nat)
    requires i < |refs| && n0 == |before|
    ensures ClauseList(RemoveKind, i + 1, n0, v0) == ClauseList(RemoveKind, i, n0, v0) + [Ph(NamePrefix, n0 + i)]
    ensures Numbered(NamePrefix, before + refs[..i + 1], 0)
            == Numbered(NamePrefix, before + refs[..i], 0)[Ph(NamePrefix, n0 + i) := refs[i]]
  {
    assert before + refs[..i + 1] == (before + refs[..i]) + [refs[i]];
    NumberedSnoc(NamePrefix, before + refs[..i], refs[i], 0);
    ClauseListSnoc(RemoveKind, i, n0, v0);
  }

  /** The REMOVE loop of `_compile`: a fresh name placeholder per removed
      attribute, continuing the numbering of the attributes before them;
      the value counter is untouched. */
  method EmitRemovals(refs: seq<string>, ghost before: seq<string>, names: map<string, string>,
                      values: map<string, Wire>, nameCounter: nat, valueCounter: nat) returns (e: Emitted)
    requires names == Numbered(NamePrefix, before, 0) && nameCounter == |before|
    ensures e == Emitted(ClauseList(RemoveKind, |refs|, nameCounter, valueCounter),
                         Numbered(NamePrefix, before + refs, 0), values,
                         nameCounter + |refs|, valueCounter)
  {
    var clauses: seq<string> := [];
    var ns := names;
    var i := 0;
    assert before + refs[..0] == before;
    while i < |refs|
      invariant 0 <= i <= |refs|
      invariant clauses == ClauseList(RemoveKind, i, nameCounter, valueCounter)
      invariant ns == Numbered(NamePrefix, before + refs[..i], 0)
    {
      EmitRemovalStep(refs, i, before, nameCounter, valueCounter);
      var n := Ph(NamePrefix, nameCounter + i);
      ns := ns[n := refs[i]];
      clauses := clauses + [n];
      i := i + 1;
    }
    assert refs[..i] == refs;
    return Emitted(clauses, ns, values, nameCounter + i, valueCounter);
  }

  /** Serializing one more entry's value extends the wire values by it. */
  lemma WiresSnoc(es: seq<Entry>, i: nat, encode: ValueEncoder)
    requires i < |es| && AllSerialize(ValuesOf(es[..i]), encode) && encode(es[i].value).Ok?
    ensures AllSerialize(ValuesOf(es[..i + 1]), encode)
    ensures Wires(ValuesOf(es[..i + 1]), encode) == Wires(ValuesOf(es[..i]), encode) + [encode(es[i].value).value]
  {
    FieldsSnoc(es, i);
  }

  /** One more step of a SET, ADD or DELETE loop whose counters started at
      `n0` and `v0`. */
  lemma EmitValuedStep(k: Kind, es: seq<Entry>, i: nat, before: seq<string>, sent: seq<Wire>, n0: nat, v0: nat,
                       encode: ValueEncoder)
    requires k != RemoveKind && i < |es| && n0 == |before| && v0 == |sent|
    requires AllSerialize(ValuesOf(es[..i]), encode) && encode(es[i].value).Ok?
    ensures AllSerialize(ValuesOf(es[..i + 1]), encode)
    ensures var n, v := Ph(NamePrefix, n0 + i), Ph(ValuePrefix, v0 + i);
      ClauseList(k, i + 1, n0, v0)
      == ClauseList(k, i, n0, v0) + [if k == SetKind then n + " = " + v else n + " " + v]
    ensures Numbered(NamePrefix, before + FieldsOf(es[..i + 1]), 0)
            == Numbered(NamePrefix, before + FieldsOf(es[..i]), 0)[Ph(NamePrefix, n0 + i) := es[i].field]
    ensures Numbered(ValuePrefix, sent + Wires(ValuesOf(es[..i + 1]), encode), 0)
            == Numbered(ValuePrefix, sent + Wires(ValuesOf(es[..i]), encode), 0)
               [Ph(ValuePrefix, v0 + i) := encode(es[i].value).value]
  {
    WiresSnoc(es, i, encode);
    NamesStep(es, i, before, n0);
    ValuesStep(es, i, sent, v0, encode);
    ClauseListSnoc(k, i, n0, v0);
  }

  lemma NamesStep(es: seq<Entry>, i: nat, before: seq<string>, n0: nat)
    requires i < |es| && n0 == |before|
    ensures Numbered(NamePrefix, before + FieldsOf(es[..i + 1]), 0)
            == Numbered(NamePrefix, before + FieldsOf(es[..i]), 0)[Ph(NamePrefix, n0 + i) := es[i].field]
  {
    FieldsSnoc(es, i);
    assert before + FieldsOf(es[..i + 1]) == (before + FieldsOf(es[..i])) + [es[i].field];
    NumberedSnoc(NamePrefix, before + FieldsOf(es[..i]), es[i].field, 0);
  }

  lemma ValuesStep(es: seq<Entry>, i: nat, sent: seq<Wire>, v0: nat, encode: ValueEncoder)
    requires i < |es| && v0 == |sent|
    requires AllSerialize(ValuesOf(es[..i]), encode) && encode(es[i].value).Ok?
    ensures AllSerialize(ValuesOf(es[..i + 1]), encode)
    ensures Numbered(ValuePrefix, sent + Wires(ValuesOf(es[..i + 1]), encode), 0)
            == Numbered(ValuePrefix, sent + Wires(ValuesOf(es[..i]), encode), 0)
               [Ph(ValuePrefix, v0 + i) := encode(es[i].value).value]
  {
    var w := encode(es[i].value).value;
    WiresSnoc(es, i, encode);
    assert sent + Wires(ValuesOf(es[..i + 1]), encode) == (sent + Wires(ValuesOf(es[..i]), encode)) + [w];
    NumberedSnoc(ValuePrefix, sent + Wires(ValuesOf(es[..i]), encode), w, 0);
  }

  /** The SET, ADD or DELETE loop of `_compile`: per action a fresh name
      placeholder, then a fresh value placeholder holding the serialized
      value, both continuing the numbering before them; the first value
      that does not serialize stops it. */
  method EmitValued(k: Kind, es: seq<Entry>, ghost before: seq<string>, ghost sent: seq<Wire>,
                    names: map<string, string>, values: map<string, Wire>, nameCounter: nat, valueCounter: nat,
                    encode: ValueEncoder)
    returns (r: Result<Emitted, Error>)
    requires k != RemoveKind
    requires names == Numbered(NamePrefix, before, 0) && nameCounter == |before|
    requires values == Numbered(ValuePrefix, sent, 0) && valueCounter == |sent|
    ensures r.Err? <==> FirstFailure(ValuesOf(es), encode).Some?
    ensures r.Err? ==> r.error == Dynantic(FirstFailure(ValuesOf(es), encode).value)
    ensures r.Ok? ==>
      AllSerialize(ValuesOf(es), encode)
      && r.value == Emitted(ClauseList(k, |es|, nameCounter, valueCounter),
                         Numbered(NamePrefix, before + FieldsOf(es), 0),
                         Numbered(ValuePrefix, sent + Wires(ValuesOf(es), encode), 0),
                         nameCounter + |es|, valueCounter + |es|)
  {
    var clauses: seq<string> := [];
    var ns, vs := names, values;
    var i := 0;
    assert before + FieldsOf(es[..0]) == before && sent + Wires(ValuesOf(es[..0]), encode) == sent;
    while i < |es|
      invariant 0 <= i <= |es|
      invariant AllSerialize(ValuesOf(es[..i]), encode)
      invariant clauses == ClauseList(k, i, nameCounter, valueCounter)
      invariant ns == Numbered(NamePrefix, before + FieldsOf(es[..i]), 0)
      invariant vs == Numbered(ValuePrefix, sent + Wires(ValuesOf(es[..i]), encode), 0)
    {
      var w := encode(es[i].value);
      if w.Err? {
        FailureAtEntry(es, i, encode);
        return Err(Dynantic(w.error));
      }
      EmitValuedStep(k, es, i, before, sent, nameCounter, valueCounter, encode);
      var n, v := Ph(NamePrefix, nameCounter + i), Ph(ValuePrefix, valueCounter + i);
      ns := ns[n := es[i].field];
      vs := vs[v := w.value];
      clauses := clauses + [if k == SetKind then n + " = " + v else n + " " + v];
      i := i + 1;
    }
    assert es[..i] == es;
    return Ok(Emitted(clauses, ns, vs, nameCounter + i, valueCounter + i));
  }

  /** The grouping loop of `_compile`. */
  method GroupActions(actions: seq<Action>, fields: FieldTypes) returns (r: Result<Groups, Error>)
    ensures r == GroupFrom(actions, fields)
  {
    var g := NoGroups;
    var i := 0;
    while i < |actions|
      invariant 0 <= i <= |actions|
      invariant GroupFrom(actions[..i], fields) == Ok(g)
    {
      var v := Validate(actions[i], fields);
      GroupStep(actions, fields, i);
      if v.Err? {
        GroupPrefixFails(actions, fields, i + 1);
        return Err(v.error);
      }
      g := Place(g, actions[i], v.value);
      i := i + 1;
    }
    assert actions[..i] == actions;
    return Ok(g);
  }

  /** The update expression with its placeholder maps, before any
      condition is merged. */
  datatype ClauseSet = ClauseSet(expression: string, names: map<string, string>, values: map<string, Wire>)

  /** The expression parts and placeholder maps emitted so far, with the
      two counters. */
  datatype Progress = Progress(parts: seq<string>, names: map<string, string>, values: map<string, Wire>,
                               nameCounter: nat, valueCounter: nat)

  /** The SET and REMOVE loops of `_compile`. */
  method EmitSetsAndRemovals(g: Groups, encode: ValueEncoder) returns (r: Result<Progress, Error>)
    ensures r.Err? <==> FirstFailure(ValuesOf(g.sets), encode).Some?
    ensures r.Err? ==> r.error == Dynantic(FirstFailure(ValuesOf(g.sets), encode).value)
    ensures r.Ok? ==>
      var s, rm := |g.sets|, |g.removes|;
      AllSerialize(ValuesOf(g.sets), encode)
      && r.value == Progress(Part(SetKind, s, 0, 0) + Part(RemoveKind, rm, s, s),
                             Numbered(NamePrefix, FieldsOf(g.sets) + g.removes, 0),
                             Numbered(ValuePrefix, Wires(ValuesOf(g.sets), encode), 0), s + rm, s)
  {
    var e1 := EmitValued(SetKind, g.sets, [], [], map[], map[], 0, 0, encode);
    if e1.Err? {
      return Err(e1.error);
    }
    SetsEmitted(g, encode, e1.value);
    var e2 := EmitRemovals(g.removes, FieldsOf(g.sets), e1.value.names, e1.value.values, e1.value.nameCounter,
                           e1.value.valueCounter);
    var p1 := Section(SetKind, e1.value.clauses);
    var p2 := Section(RemoveKind, e2.clauses);
    return Ok(Progress(p1 + p2, e2.names, e2.values, e2.nameCounter, e2.valueCounter));
  }

  /** The SET loop started from empty maps and zero counters leaves the
      SET part, the SET names and values, and both counters at the number
      of SET actions. */
  lemma SetsEmitted(g: Groups, encode: ValueEncoder, e: Emitted)
    requires AllSerialize(ValuesOf(g.sets), encode)
    requires e == Emitted(ClauseList(SetKind, |g.sets|, 0, 0), Numbered(NamePrefix, [] + FieldsOf(g.sets), 0),
                          Numbered(ValuePrefix, [] + Wires(ValuesOf(g.sets), encode), 0), 0 + |g.sets|, 0 + |g.sets|)
    ensures e.names == Numbered(NamePrefix, FieldsOf(g.sets), 0) && e.nameCounter == |FieldsOf(g.sets)|
    ensures e.values == Numbered(ValuePrefix, Wires(ValuesOf(g.sets), encode), 0)
    ensures e.nameCounter == |g.sets| && e.valueCounter == |g.sets|
  {
    assert [] + FieldsOf(g.sets) == FieldsOf(g.sets);
    assert [] + Wires(ValuesOf(g.sets), encode) == Wires(ValuesOf(g.sets), encode);
  }

  /** The ADD and DELETE parts, numbered after the SET and REMOVE ones,
      complete the parts of the expression. */
  lemma PartsContinue(g: Groups, front: seq<string>, n3: nat, v3: nat, c3: seq<string>,
                      n4: nat, v4: nat, c4: seq<string>)
    requires front == Part(SetKind, |g.sets|, 0, 0) + Part(RemoveKind, |g.removes|, |g.sets|, |g.sets|)
    requires n3 == |g.sets| + |g.removes| && v3 == |g.sets| && n4 == n3 + |g.adds| && v4 == v3 + |g.adds|
    requires c3 == ClauseList(AddKind, |g.adds|, n3, v3) && c4 == ClauseList(DeleteKind, |g.deletes|, n4, v4)
    ensures front + Section(AddKind, c3) + Section(DeleteKind, c4) == Parts(g)
  {
  }

  /** The ADD and DELETE loops of `_compile`, continuing the numbering of
      the SET and REMOVE loops. */
  method EmitAddsAndDeletes(g: Groups, p: Progress, encode: ValueEncoder) returns (r: Result<Progress, Error>)
    requires AllSerialize(ValuesOf(g.sets), encode)
    requires var s, rm := |g.sets|, |g.removes|;
      p == Progress(Part(SetKind, s, 0, 0) + Part(RemoveKind, rm, s, s),
                    Numbered(NamePrefix, FieldsOf(g.sets) + g.removes, 0),
                    Numbered(ValuePrefix, Wires(ValuesOf(g.sets), encode), 0), s + rm, s)
    ensures var fa, fd := FirstFailure(ValuesOf(g.adds), encode), FirstFailure(ValuesOf(g.deletes), encode);
      (r.Err? <==> fa.Some? || fd.Some?)
      && (r.Err? ==> r.error == Dynantic(if fa.Some? then fa.value else fd.value))
    ensures r.Ok? ==>
      AllSerialize(ValuesOf(g.adds), encode) && AllSerialize(ValuesOf(g.deletes), encode)
      && r.value.parts == Parts(g) && r.value.names == NamesOf(g)
      && r.value.values == Numbered(ValuePrefix, Wires(ValuesOf(g.sets), encode) + Wires(ValuesOf(g.adds), encode)
                                                 + Wires(ValuesOf(g.deletes), encode), 0)
  {
    var s, rm, a := |g.sets|, |g.removes|, |g.adds|;
    ghost var sf, sw := FieldsOf(g.sets), Wires(ValuesOf(g.sets), encode);
    var e3 := EmitValued(AddKind, g.adds, sf + g.removes, sw, p.names, p.values, p.nameCounter, p.valueCounter,
                         encode);
    if e3.Err? {
      return Err(e3.error);
    }
    assert e3.value.nameCounter == s + rm + a && e3.value.valueCounter == s + a;
    var e4 := EmitValued(DeleteKind, g.deletes, sf + g.removes + FieldsOf(g.adds),
                         sw + Wires(ValuesOf(g.adds), encode),
                         e3.value.names, e3.value.values, e3.value.nameCounter, e3.value.valueCounter, encode);
    if e4.Err? {
      return Err(e4.error);
    }
    var p3 := Section(AddKind, e3.value.clauses);
    var p4 := Section(DeleteKind, e4.value.clauses);
    PartsContinue(g, p.parts, p.nameCounter, p.valueCounter, e3.value.clauses,
                  e3.value.nameCounter, e3.value.valueCounter, e4.value.clauses);
    return Ok(Progress(p.parts + p3 + p4, e4.value.names, e4.value.values, e4.value.nameCounter, e4.value.valueCounter));
  }

  /** The four clause loops of `_compile` and the joining of their parts:
      the expression and maps of the grouped actions, or the
      serialization error of the first value that does not serialize. */
  method EmitClauses(g: Groups, encode: ValueEncoder) returns (r: Result<ClauseSet, Error>)
    ensures r.Err? <==> FirstFailure(ValueOrder(g), encode).Some?
    ensures r.Err? ==> r.error == Dynantic(FirstFailure(ValueOrder(g), encode).value)
    ensures r.Ok? ==>
      AllSerialize(ValueOrder(g), encode) && r.value == ClauseSet(Expression(g), NamesOf(g), ValueMap(g, encode))
  {
    FirstFailureByKind(g, encode);
    var p := EmitSetsAndRemovals(g, encode);
    if p.Err? {
      return Err(p.error);
    }
    var q := EmitAddsAndDeletes(g, p.value, encode);
    if q.Err? {
      return Err(q.error);
    }
    WiresSplit(g, encode);
    return Ok(ClauseSet(Join(" ", q.value.parts), q.value.names, q.value.values));
  }

  // ---------------------------------------------------------------------
  // The builder
  // ---------------------------------------------------------------------

  /** What `execute` returns: the updated item as a model instance, or the
      raw response. */
  datatype UpdateOutcome = Updated(instance: Instance) | RawResponse(response: map<string, Native>)

  /** `UpdateBuilder`: the model, the key values, and the actions, the
      condition and the return mode the chained calls set. */
  class UpdateBuilder {
    const config: ModelOptions
    const className: string
    const pk: Native
    const sk: Native
    var actions: seq<Action>
    var condition: Option<ConditionArg>
    var returnValues: string

    constructor (config: ModelOptions, className: string, pk: Native, sk: Native)
      ensures this.config == config && this.className == className && this.pk == pk && this.sk == sk
      ensures actions == [] && condition.None? && returnValues == "NONE"
    {
      this.config := config;
      this.className := className;
      this.pk := pk;
      this.sk := sk;
      actions := [];
      condition := None;
      returnValues := "NONE";
    }

    /** `set`, `remove`, `add`, `delete`: the action is appended; nothing
        else changes. */
    method Append(a: Action) returns (b: UpdateBuilder)
      modifies this
      ensures b == this && actions == old(actions) + [a]
      ensures condition == old(condition) && returnValues == old(returnValues)
    {
      actions := actions + [a];
      return this;
    }

    /** `condition(c)`: replaces any earlier condition. */
    method Condition(c: ConditionArg) returns (b: UpdateBuilder)
      modifies this
      ensures b == this && condition == Some(c)
      ensures actions == old(actions) && returnValues == old(returnValues)
    {
      condition := Some(c);
      return this;
    }

    /** `return_values(mode)`. */
    method ReturnValues(mode: string) returns (b: UpdateBuilder)
      modifies this
      ensures b == this && returnValues == mode
      ensures actions == old(actions) && condition == old(condition)
    {
      returnValues := mode;
      return this;
    }

    /** `_compile`: the grouping loop, then the SET, REMOVE, ADD and DELETE
        clause loops with the two shared counters, then the condition. */
    method Compile(fields: FieldTypes, build: RawCondition -> BuiltExpression) returns (r: Result<UpdateParams, Error>)
      ensures r == CompileSpec(actions, fields, condition, build, ToDynamoValue)
    {
      if actions == [] {
        return Err(NoActions);
      }
      var grouped := GroupActions(actions, fields);
      if grouped.Err? {
        return Err(grouped.error);
      }
      var g := grouped.value;
      var body := EmitClauses(g, ToDynamoValue);
      if body.Err? {
        return Err(body.error);
      }
      var expression, names, values := body.value.expression, body.value.names, body.value.values;
      assert expression == Expression(g) && names == NamesOf(g) && values == ValueMap(g, ToDynamoValue);
      var condExpr: Option<string> := None;
      if condition.Some? {
        var cc := CompileCondition(condition.value, build);
        if cc.Err? {
          assert CompiledConditionOf(condition, build) == Err(cc.error);
          return Err(cc.error);
        }
        assert CompiledConditionOf(condition, build) == Ok(Some(cc.value));
        condExpr := Some(cc.value.conditionExpression);
        names := names + cc.value.NameMap();
        values := values + cc.value.ValueMap();
      } else {
        assert CompiledConditionOf(condition, build) == Ok(None);
      }
      return Ok(UpdateParams(expression, condExpr,
                             if names != map[] then Some(names) else None,
                             if values != map[] then Some(values) else None));
    }

    /** `execute`: the key (the partition key, and the sort key only when
        truthy and the model has one) is serialized first, then the actions
        compiled; one `update_item` call, its client error translated for
        the table; with `ALL_NEW` and returned attributes, the updated item
        as an instance of the right class, otherwise the raw response. */
    method Execute(fields: FieldTypes, build: RawCondition -> BuiltExpression, client: UpdateClient)
      returns (r: Result<UpdateOutcome, Error>)
      ensures var key := KeyDict(config, pk, sk);
        (!Encodable(key) ==> exists k :: k in key && r == Err(Dynantic(FieldError(k))))
        && (Encodable(key) && CompileSpec(actions, fields, condition, build, ToDynamoValue).Err? ==>
              r == Err(CompileSpec(actions, fields, condition, build, ToDynamoValue).error))
        && (Encodable(key) && CompileSpec(actions, fields, condition, build, ToDynamoValue).Ok? ==>
              var p := CompileSpec(actions, fields, condition, build, ToDynamoValue).value;
              var q := UpdateRequest(config.tableName, EncodeItem(key), p.updateExpression, p.conditionExpression,
                                     p.names, p.values, returnValues);
              (client(q).Err? ==> r == Err(Dynantic(Translate(client(q).error, Some(config.tableName)))))
              && (client(q).Ok? ==>
                    r == Ok(if returnValues == "ALL_NEW" && client(q).value.attributes.Some?
                            then Updated(DeserializeItem(config, className, FromDynamo(client(q).value.attributes.value)))
                            else RawResponse(client(q).value.raw))))
    {
      var key := KeyDict(config, pk, sk);
      var dynamoKey := ToDynamo(key);
      if dynamoKey.Err? {
        return Err(Dynantic(dynamoKey.error));
      }
      var p := Compile(fields, build);
      if p.Err? {
        return Err(p.error);
      }
      var q := UpdateRequest(config.tableName, dynamoKey.value, p.value.updateExpression, p.value.conditionExpression,
                             p.value.names, p.value.values, returnValues);
      var response := client(q);
      if response.Err? {
        return Err(Dynantic(Translate(response.error, Some(config.tableName))));
      }
      if returnValues == "ALL_NEW" && response.value.attributes.Some? {
        return Ok(Updated(DeserializeItem(config, className, FromDynamo(response.value.attributes.value))));
      }
      return Ok(RawResponse(response.value.raw));
    }
  }

  /** ADD takes exactly numbers and sets: for an undeclared field the raw
      value decides; for a declared one, the coerced value. */
  lemma AddAcceptsOnlyNumbersAndSets(field: string, v: Native, fields: FieldTypes)
    ensures field !in fields ==> (Validate(AddAction(field, v), fields).Ok? <==> Addable(v))
    ensures field in fields && fields[field](v).Ok? ==>
      (Validate(AddAction(field, v), fields).Ok? <==> Addable(fields[field](v).value))
    ensures field in fields && fields[field](v).Ok? && !Addable(fields[field](v).value) ==>
      Validate(AddAction(field, v), fields) == Err(AddTypeRejected(field, fields[field](v).value))
    ensures field in fields && fields[field](v).Err? ==>
      Validate(AddAction(field, v), fields) == Err(ValidationFailed(field, fields[field](v).error))
    ensures field !in fields && !Addable(v) ==>
      Validate(AddAction(field, v), fields) == Err(AddValueRejected(v))
  {
  }
}
