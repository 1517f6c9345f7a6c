/** Conversion between Python values and DynamoDB attribute values
    (dynantic/serializer.py).  The boto3 `TypeSerializer` and
    `TypeDeserializer` the source delegates to are modelled by `Encode` and
    `Decode`, following their documented type mapping. */
module Serializer {
  import opened Common
  import opened Values
  import opened Errors

  // ---------------------------------------------------------------------
  // Preparation: `_prepare_for_dynamo`
  // ---------------------------------------------------------------------

  /** How a datetime is written: a UTC-aware datetime as its naive text
      followed by `Z`, any other datetime as `isoformat()`. */
  function PrepareDateTime(dt: DateTime): (s: string)
    ensures dt.utcOffset == Some(0) ==> s == dt.naiveIso + "Z"
    ensures dt.utcOffset.None? ==> s == dt.naiveIso
    ensures dt.utcOffset.Some? && dt.utcOffset.value != 0 ==>
      |s| > |dt.naiveIso| && s[..|dt.naiveIso|] == dt.naiveIso && s[|dt.naiveIso|] in {'+', '-'}
  {
    if dt.utcOffset.Some? && dt.utcOffset.value == 0 then dt.naiveIso + "Z"
    else IsoFormat(dt)
  }

  /** For a UTC datetime the stored text uses `Z`, not the `+00:00` that
      `isoformat()` would write. */
  lemma UtcDiffersFromIsoFormat(dt: DateTime)
    requires dt.utcOffset == Some(0)
    ensures PrepareDateTime(dt) != IsoFormat(dt)
    ensures IsoFormat(dt) == dt.naiveIso + "+00:00"
  {
    var s := IsoFormat(dt);
    assert s[|dt.naiveIso|] == '+';
    assert PrepareDateTime(dt)[|dt.naiveIso|] == 'Z';
  }

  /** No value the encoder cannot take for a reason preparation removes:
      no datetime, date, UUID or Enum member at any depth. */
  predicate Prepared(v: Native)
  {
    match v
    case NDateTime(_) => false
    case NDate(_) => false
    case NUuid(_) => false
    case NEnum(_, _) => false
    case NSet(e) => forall x :: x in e ==> Prepared(x)
    case NList(l) => forall i :: 0 <= i < |l| ==> Prepared(l[i])
    case NDict(m) => forall k :: k in m ==> Prepared(m[k])
    case _ => true
  }

  /** No Enum member at any depth (an Enum's own value is not prepared). */
  predicate EnumFree(v: Native)
  {
    match v
    case NEnum(_, _) => false
    case NSet(e) => forall x :: x in e ==> EnumFree(x)
    case NList(l) => forall i :: 0 <= i < |l| ==> EnumFree(l[i])
    case NDict(m) => forall k :: k in m ==> EnumFree(m[k])
    case _ => true
  }

  /** `_prepare_for_dynamo`: datetimes, dates and UUIDs become strings, an
      Enum member becomes its value, containers are prepared element-wise
      keeping their shape, and everything else is left as it is. */
  function Prepare(v: Native): (r: Native)
    ensures EnumFree(v) ==> Prepared(r)
    ensures v.NSet? ==> r.NSet? && (v.elems == {} <==> r.elems == {})
    ensures v.NList? ==> r.NList? && |r.items| == |v.items|
    ensures v.NDict? ==> r.NDict? && r.entries.Keys == v.entries.Keys
    ensures (!v.NDateTime? && !v.NDate? && !v.NUuid? && !v.NEnum?
             && !v.NSet? && !v.NList? && !v.NDict?) ==> r == v
  {
    match v
    case NDateTime(dt) => NStr(PrepareDateTime(dt))
    case NDate(iso) => NStr(iso)
    case NUuid(text) => NStr(text)
    case NEnum(_, x) => x
    case NSet(e) =>
      var r := set x | x in e :: Prepare(x);
      assert forall x :: x in e ==> Prepare(x) in r;
      NSet(r)
    case NList(l) => NList(seq(|l|, i requires 0 <= i < |l| => Prepare(l[i])))
    case NDict(m) => NDict(map k | k in m :: Prepare(m[k]))
    case _ => v
  }

  /** The rules of preparation: a datetime becomes its stored text, a date
      and a UUID their text, an Enum member its value, and a set, a list
      or a dict is prepared element by element. */
  lemma PrepareRules(v: Native)
    ensures v.NDateTime? ==> Prepare(v) == NStr(PrepareDateTime(v.dt))
    ensures v.NDate? ==> Prepare(v) == NStr(v.iso)
    ensures v.NUuid? ==> Prepare(v) == NStr(v.text)
    ensures v.NEnum? ==> Prepare(v) == v.enumValue
    ensures v.NSet? ==> Prepare(v) == NSet(set x | x in v.elems :: Prepare(x))
    ensures v.NList? ==> Prepare(v).NList? && |Prepare(v).items| == |v.items|
                         && forall i :: 0 <= i < |v.items| ==> Prepare(v).items[i] == Prepare(v.items[i])
    ensures v.NDict? ==> Prepare(v).NDict? && Prepare(v).entries.Keys == v.entries.Keys
                         && forall k :: k in v.entries ==> Prepare(v).entries[k] == Prepare(v.entries[k])
  {
  }

  /** Preparing an already prepared value changes nothing. */
  lemma {:induction false} PrepareFixesPrepared(v: Native)
    requires Prepared(v)
    ensures Prepare(v) == v
  {
    match v
    case NSet(e) =>
      forall x | x in e ensures Prepare(x) == x { PrepareFixesPrepared(x); }
      var r := set x | x in e :: Prepare(x);
      assert r == e by {
        forall y | y in r ensures y in e { var x :| x in e && y == Prepare(x); }
        forall x | x in e ensures x in r { assert Prepare(x) == x; }
      }
    case NList(l) =>
      forall i | 0 <= i < |l| ensures Prepare(l[i]) == l[i] { PrepareFixesPrepared(l[i]); }
      assert Prepare(v).items == l;
    case NDict(m) =>
      forall k | k in m ensures Prepare(m[k]) == m[k] { PrepareFixesPrepared(m[k]); }
      assert Prepare(v).entries == m;
    case _ =>
  }

  /** Preparation is idempotent on values without Enum members. */
  lemma PrepareIdempotent(v: Native)
    requires EnumFree(v)
    ensures Prepare(Prepare(v)) == Prepare(v)
  {
    PrepareFixesPrepared(Prepare(v));
  }

  // ---------------------------------------------------------------------
  // The boto3 type mapping
  // ---------------------------------------------------------------------

  /** The number a numeric Python value is sent as; `True` is `1`. */
  function NumberOf(v: Native): Decimal
    requires IsNumber(v)
  {
    match v
    case NBool(b) => Decimal(if b then 1 else 0, 0)
    case NInt(i) => Decimal(i, 0)
    case NDec(d) => d
  }

  /** `TypeSerializer.serialize`; `None` where it raises `TypeError`.  A set
      is a number set if all its elements are numbers (so the empty set is
      one), else a string set or a binary set; mixed sets, and objects of
      any class outside the mapping, are rejected. */
  function Encode(v: Native): (r: Option<Wire>)
  {
    match v
    case NNone => Some(NULL)
    case NBool(b) => Some(BOOL(b))
    case NInt(i) => Some(N(Decimal(i, 0)))
    case NDec(d) => Some(N(d))
    case NStr(s) => Some(S(s))
    case NBytes(b) => Some(B(b))
    case NSet(e) =>
      if forall x :: x in e ==> IsNumber(x) then Some(NS(set x | x in e && IsNumber(x) :: NumberOf(x)))
      else if forall x :: x in e ==> x.NStr? then Some(SS(set x | x in e && x.NStr? :: x.s))
      else if forall x :: x in e ==> x.NBytes? then Some(BS(set x | x in e && x.NBytes? :: x.bytes))
      else None
    case NList(l) =>
      if forall i :: 0 <= i < |l| ==> Encode(l[i]).Some?
      then Some(L(seq(|l|, i requires 0 <= i < |l| && Encode(l[i]).Some? => Encode(l[i]).value)))
      else None
    case NDict(m) =>
      if forall k :: k in m ==> Encode(m[k]).Some?
      then Some(M(map k | k in m && Encode(m[k]).Some? :: Encode(m[k]).value))
      else None
    case _ => None
  }

  /** `TypeDeserializer.deserialize`: numbers come back as Decimals, the
      three set types as sets. */
  function Decode(w: Wire): (v: Native)
  {
    match w
    case S(s) => NStr(s)
    case N(n) => NDec(n)
    case B(b) => NBytes(b)
    case BOOL(b) => NBool(b)
    case NULL => NNone
    case SS(ss) => NSet(set s | s in ss :: NStr(s))
    case NS(ns) => NSet(set n | n in ns :: NDec(n))
    case BS(bs) => NSet(set b | b in bs :: NBytes(b))
    case L(l) => NList(seq(|l|, i requires 0 <= i < |l| => Decode(l[i])))
    case M(m) => NDict(map k | k in m :: Decode(m[k]))
  }

  /** An attribute value DynamoDB accepts: no empty string or binary set at
      any depth (an empty set can only be written as a number set). */
  predicate NoEmptyTextSets(w: Wire)
  {
    match w
    case SS(ss) => ss != {}
    case BS(bs) => bs != {}
    case L(l) => forall i :: 0 <= i < |l| ==> NoEmptyTextSets(l[i])
    case M(m) => forall k :: k in m ==> NoEmptyTextSets(m[k])
    case _ => true
  }

  /** Decoding then encoding gives back the attribute value. */
  lemma {:induction false} EncodeDecode(w: Wire)
    requires NoEmptyTextSets(w)
    ensures Encode(Decode(w)) == Some(w)
  {
    match w
    case SS(ss) =>
      var e := set s | s in ss :: NStr(s);
      var x0 :| x0 in ss;
      assert NStr(x0) in e;
      assert !IsNumber(NStr(x0));
      assert (set x | x in e && x.NStr? :: x.s) == ss by {
        forall s | s in ss ensures s in (set x | x in e && x.NStr? :: x.s) { assert NStr(s) in e; }
      }
    case NS(ns) =>
      var e := set n | n in ns :: NDec(n);
      assert (set x | x in e && IsNumber(x) :: NumberOf(x)) == ns by {
        forall n | n in ns ensures n in (set x | x in e && IsNumber(x) :: NumberOf(x)) { assert NDec(n) in e; }
      }
    case BS(bs) =>
      var e := set b | b in bs :: NBytes(b);
      var x0 :| x0 in bs;
      assert NBytes(x0) in e;
      assert !IsNumber(NBytes(x0)) && !NBytes(x0).NStr?;
      assert (set x | x in e && x.NBytes? :: x.bytes) == bs by {
        forall b | b in bs ensures b in (set x | x in e && x.NBytes? :: x.bytes) { assert NBytes(b) in e; }
      }
    case L(l) =>
      var d := Decode(w).items;
      forall i | 0 <= i < |l| ensures Encode(d[i]) == Some(l[i]) { EncodeDecode(l[i]); }
      assert Encode(Decode(w)).value.list == l;
    case M(m) =>
      var d := Decode(w).entries;
      forall k | k in m ensures Encode(d[k]) == Some(m[k]) { EncodeDecode(m[k]); }
      assert Encode(Decode(w)).value.attrs == m;
    case _ =>
  }

  /** An empty string set reads back as an empty Python set, which is
      written again as an empty number set. */
  lemma EmptyStringSetBecomesNumberSet()
    ensures Encode(Decode(SS({}))) == Some(NS({}))
  {
    var none: set<Native> := {};
    assert Decode(SS({})) == NSet(none);
    assert (set x | x in none && IsNumber(x) :: NumberOf(x)) == {};
  }

  // ---------------------------------------------------------------------
  // Restoration: `_restore_to_python`
  // ---------------------------------------------------------------------

  /** `_restore_to_python`: a whole Decimal becomes an int; a Decimal with a
      fractional part stays a non-int (a float in the source); lists and dicts
      are restored element-wise; everything else, sets included, is left
      unchanged. */
  function Restore(v: Native): (r: Native)
    ensures v.NDec? ==> (r.NInt? <==> v.d.IsWhole())
    ensures v.NDec? && v.d.IsWhole() ==> r == NInt(v.d.ToInt())
    ensures v.NDec? && !v.d.IsWhole() ==> r == v
    ensures v.NList? ==> r.NList? && |r.items| == |v.items|
    ensures v.NDict? ==> r.NDict? && r.entries.Keys == v.entries.Keys
    ensures !v.NDec? && !v.NList? && !v.NDict? ==> r == v
  {
    match v
    case NDec(d) => if d.IsWhole() then NInt(d.ToInt()) else v
    case NList(l) => NList(seq(|l|, i requires 0 <= i < |l| => Restore(l[i])))
    case NDict(m) => NDict(map k | k in m :: Restore(m[k]))
    case _ => v
  }

  /** Lists and dicts are restored element by element. */
  lemma RestoreRules(v: Native)
    ensures v.NList? ==> Restore(v).NList? && |Restore(v).items| == |v.items|
                         && forall i :: 0 <= i < |v.items| ==> Restore(v).items[i] == Restore(v.items[i])
    ensures v.NDict? ==> Restore(v).NDict? && Restore(v).entries.Keys == v.entries.Keys
                         && forall k :: k in v.entries ==> Restore(v).entries[k] == Restore(v.entries[k])
  {
  }

  /** No whole Decimal outside a set: the shape `Restore` produces. */
  predicate Restored(v: Native)
  {
    match v
    case NDec(d) => !d.IsWhole()
    case NList(l) => forall i :: 0 <= i < |l| ==> Restored(l[i])
    case NDict(m) => forall k :: k in m ==> Restored(m[k])
    case _ => true
  }

  /** Restoration leaves no whole Decimal outside a set. */
  lemma {:induction false} RestoreGivesRestored(v: Native)
    ensures Restored(Restore(v))
  {
    match v
    case NList(l) =>
      var r := Restore(v).items;
      forall i | 0 <= i < |l| ensures Restored(r[i]) { RestoreGivesRestored(l[i]); }
    case NDict(m) =>
      var r := Restore(v).entries;
      forall k | k in m ensures Restored(r[k]) { RestoreGivesRestored(m[k]); }
    case _ =>
  }

  /** Restoring twice is restoring once. */
  lemma {:induction false} RestoreIdempotent(v: Native)
    ensures Restore(Restore(v)) == Restore(v)
  {
    match v
    case NList(l) =>
      var r := Restore(v).items;
      forall i | 0 <= i < |l| ensures Restore(r[i]) == r[i] { RestoreIdempotent(l[i]); }
      assert Restore(Restore(v)).items == r;
    case NDict(m) =>
      var r := Restore(v).entries;
      forall k | k in m ensures Restore(r[k]) == r[k] { RestoreIdempotent(m[k]); }
      assert Restore(Restore(v)).entries == r;
    case _ =>
  }

  // ---------------------------------------------------------------------
  // Items
  // ---------------------------------------------------------------------

  /** Every field of `data` can be encoded once prepared. */
  predicate Encodable(data: map<string, Native>)
  {
    forall k :: k in data ==> Encode(Prepare(data[k])).Some?
  }

  /** The item `to_dynamo` produces: every field whose prepared value is not
      an empty set, encoded. */
  function EncodeItem(data: map<string, Native>): map<string, Wire>
    requires Encodable(data)
  {
    map k | k in data && Prepare(data[k]) != NSet({}) :: Encode(Prepare(data[k])).value
  }

  /** The error `to_dynamo` raises for a field the encoder rejects; it wraps
      the encoder's `TypeError`. */
  function FieldError(k: string): (e: DynanticError)
    ensures e.kind.Serialization? && e.originalError == Some(FromTypeError)
    ensures Contains(e.message, "Failed to serialize field '" + k + "'")
  {
    var msg := "Failed to serialize field '" + k + "'";
    assert msg[0..|msg|] == msg;
    SerializationError(msg, Some(FromTypeError))
  }

  /** `to_dynamo`: succeeds exactly when every field encodes, producing
      `EncodeItem(data)`; otherwise fails naming a field whose value the
      encoder rejects. */
  method ToDynamo(data: map<string, Native>) returns (r: Result<map<string, Wire>, DynanticError>)
    ensures r.Ok? <==> Encodable(data)
    ensures r.Ok? ==> r.value == EncodeItem(data)
    ensures r.Err? ==> exists k :: k in data && Encode(Prepare(data[k])).None? && r.error == FieldError(k)
  {
    var result: map<string, Wire> := map[];
    var todo := data.Keys;
    while todo != {}
      invariant todo <= data.Keys
      invariant forall k :: k in data && k !in todo ==> Encode(Prepare(data[k])).Some?
      invariant result == EncodedExcept(data, todo)
      decreases todo
    {
      var k :| k in todo;
      var v := Prepare(data[k]);
      var serialized := Encode(v);
      if serialized.None? {
        return Err(FieldError(k));
      }
      EncodedStep(data, todo, k);
      if v != NSet({}) {
        result := result[k := serialized.value];
      }
      todo := todo - {k};
    }
    assert result == EncodeItem(data);
    return Ok(result);
  }

  /** The fields of `data` outside `todo` whose prepared value is not an
      empty set, encoded: what the loop of `to_dynamo` has built. */
  function EncodedExcept(data: map<string, Native>, todo: set<string>): map<string, Wire>
  {
    map k | k in data && k !in todo && Prepare(data[k]) != NSet({}) && Encode(Prepare(data[k])).Some?
      :: Encode(Prepare(data[k])).value
  }

  /** Taking one more field out of `todo` adds its encoding, unless its
      prepared value is an empty set. */
  lemma EncodedStep(data: map<string, Native>, todo: set<string>, k: string)
    requires k in todo && todo <= data.Keys && Encode(Prepare(data[k])).Some?
    ensures EncodedExcept(data, todo - {k})
            == if Prepare(data[k]) != NSet({}) then EncodedExcept(data, todo)[k := Encode(Prepare(data[k])).value]
               else EncodedExcept(data, todo)
  {
  }

  /** `to_dynamo` drops exactly the fields holding an empty set and keeps
      every other key. */
  lemma DropsExactlyEmptySets(data: map<string, Native>)
    requires Encodable(data)
    requires forall k :: k in data ==> !data[k].NEnum?
    ensures EncodeItem(data).Keys == set k | k in data && data[k] != NSet({})
  {
    forall k | k in data ensures Prepare(data[k]) == NSet({}) <==> data[k] == NSet({}) {
      var v := data[k];
      if v.NSet? {
        assert Prepare(v).NSet?;
      } else if v.NList? || v.NDict? {
      } else {
      }
    }
  }

  /** `to_dynamo_value`: one prepared, encoded value, or a serialization
      error wrapping the encoder's `TypeError`. */
  function ToDynamoValue(v: Native): (r: Result<Wire, DynanticError>)
    ensures r.Err? ==> r.error.kind.Serialization? && r.error.originalError == Some(FromTypeError)
  {
    var w := Encode(Prepare(v));
    if w.Some? then Ok(w.value)
    else Err(SerializationError("Failed to serialize value", Some(FromTypeError)))
  }

  /** A value serializes on its own exactly as it does as the single field
      of an item (unless it is an empty set, which an item drops). */
  lemma ToDynamoValueAgreesWithItems(name: string, v: Native)
    requires Prepare(v) != NSet({})
    ensures ToDynamoValue(v).Ok? <==> Encodable(map[name := v])
    ensures ToDynamoValue(v).Ok? ==> EncodeItem(map[name := v]) == map[name := ToDynamoValue(v).value]
  {
    var item := map[name := v];
    assert item.Keys == {name} && item[name] == v;
  }

  /** `from_dynamo`: decode every attribute and restore numbers; the key set
      is the input's. */
  function FromDynamo(item: map<string, Wire>): (r: map<string, Native>)
    ensures r.Keys == item.Keys
  {
    map k | k in item :: Restore(Decode(item[k]))
  }

  /** Every attribute read back is in restored shape. */
  lemma FromDynamoRestored(item: map<string, Wire>)
    ensures forall k :: k in FromDynamo(item) ==> Restored(FromDynamo(item)[k])
  {
    forall k | k in item ensures Restored(FromDynamo(item)[k]) {
      RestoreGivesRestored(Decode(item[k]));
    }
  }

  // ---------------------------------------------------------------------
  // Round trips
  // ---------------------------------------------------------------------

  /** Python values that come back from a write and a read as they were:
      no whole Decimal (it would come back as an int), no number set (its
      elements would come back as Decimals), nothing preparation rewrites. */
  predicate Plain(v: Native)
  {
    match v
    case NNone => true
    case NBool(_) => true
    case NInt(_) => true
    case NDec(d) => !d.IsWhole()
    case NStr(_) => true
    case NBytes(_) => true
    case NSet(e) => (forall x :: x in e ==> x.NStr?) || (forall x :: x in e ==> x.NBytes?)
    case NList(l) => forall i :: 0 <= i < |l| ==> Plain(l[i])
    case NDict(m) => forall k :: k in m ==> Plain(m[k])
    case _ => false
  }

  lemma {:induction false} PlainIsPrepared(v: Native)
    requires Plain(v)
    ensures Prepared(v)
  {
    match v
    case NList(l) =>
      forall i | 0 <= i < |l| ensures Prepared(l[i]) { PlainIsPrepared(l[i]); }
    case NDict(m) =>
      forall k | k in m ensures Prepared(m[k]) { PlainIsPrepared(m[k]); }
    case _ =>
  }

  /** A plain set written and read back is the set itself. */
  lemma PlainSetRoundTrip(e: set<Native>)
    requires Plain(NSet(e))
    ensures Encode(NSet(e)).Some?
    ensures Restore(Decode(Encode(NSet(e)).value)) == NSet(e)
  {
    if e == {} {
      assert Decode(NS({})) == NSet({});
    } else if forall x :: x in e ==> x.NStr? {
      var x0 :| x0 in e;
      assert !IsNumber(x0);
      var ss := set x | x in e && x.NStr? :: x.s;
      assert Encode(NSet(e)) == Some(SS(ss));
      assert (set s | s in ss :: NStr(s)) == e by {
        forall x | x in e ensures x in (set s | s in ss :: NStr(s)) { assert x.s in ss; }
      }
    } else {
      var x0 :| x0 in e;
      assert !IsNumber(x0) && !x0.NStr?;
      var bs := set x | x in e && x.NBytes? :: x.bytes;
      assert Encode(NSet(e)) == Some(BS(bs));
      assert (set b | b in bs :: NBytes(b)) == e by {
        forall x | x in e ensures x in (set b | b in bs :: NBytes(b)) { assert x.bytes in bs; }
      }
    }
  }

  /** A plain value written and read back is the value itself. */
  lemma {:induction false} PlainValueRoundTrip(v: Native)
    requires Plain(v)
    ensures Encode(v).Some?
    ensures Restore(Decode(Encode(v).value)) == v
  {
    match v
    case NSet(e) => PlainSetRoundTrip(e);
    case NList(l) =>
      forall i | 0 <= i < |l| ensures Encode(l[i]).Some? && Restore(Decode(Encode(l[i]).value)) == l[i] {
        PlainValueRoundTrip(l[i]);
      }
      PlainListRoundTrip(l);
    case NDict(m) =>
      forall k | k in m ensures Encode(m[k]).Some? && Restore(Decode(Encode(m[k]).value)) == m[k] {
        PlainValueRoundTrip(m[k]);
      }
      PlainDictRoundTrip(m);
    case _ =>
  }

  lemma PlainListRoundTrip(l: seq<Native>)
    requires forall i :: 0 <= i < |l| ==> Encode(l[i]).Some? && Restore(Decode(Encode(l[i]).value)) == l[i]
    ensures Encode(NList(l)).Some?
    ensures Restore(Decode(Encode(NList(l)).value)) == NList(l)
  {
    assert Restore(Decode(Encode(NList(l)).value)).items == l;
  }

  lemma PlainDictRoundTrip(m: map<string, Native>)
    requires forall k :: k in m ==> Encode(m[k]).Some? && Restore(Decode(Encode(m[k]).value)) == m[k]
    ensures Encode(NDict(m)).Some?
    ensures Restore(Decode(Encode(NDict(m)).value)) == NDict(m)
  {
    assert Restore(Decode(Encode(NDict(m)).value)).entries == m;
  }

  lemma PlainFieldRoundTrip(v: Native)
    requires Plain(v)
    ensures Prepare(v) == v && Encode(v).Some? && Restore(Decode(Encode(v).value)) == v
  {
    PlainIsPrepared(v);
    PrepareFixesPrepared(v);
    PlainValueRoundTrip(v);
  }

  /** `from_dynamo(to_dynamo(data))` gives back every field of plain data
      except those holding an empty set. */
  lemma ItemRoundTrip(data: map<string, Native>)
    requires forall k :: k in data ==> Plain(data[k])
    ensures Encodable(data)
    ensures FromDynamo(EncodeItem(data)) == map k | k in data && data[k] != NSet({}) :: data[k]
  {
    forall k | k in data ensures Prepare(data[k]) == data[k] && Encode(data[k]).Some?
      && Restore(Decode(Encode(data[k]).value)) == data[k] {
      PlainFieldRoundTrip(data[k]);
    }
    var item := EncodeItem(data);
    var back := FromDynamo(item);
    var kept := map k | k in data && data[k] != NSet({}) :: data[k];
    assert back.Keys == kept.Keys;
    forall k | k in back ensures back[k] == kept[k] {
      assert item[k] == Encode(data[k]).value;
    }
    assert back == kept;
  }

  // ---------------------------------------------------------------------
  // Pagination cursors
  // ---------------------------------------------------------------------

  /** `serialize_cursor`: a `LastEvaluatedKey` as a plain dict. */
  function SerializeCursor(lastEvaluatedKey: map<string, Wire>): (r: map<string, Native>)
    ensures r.Keys == lastEvaluatedKey.Keys
  {
    FromDynamo(lastEvaluatedKey)
  }

  /** `deserialize_cursor`: a plain dict back in key format. */
  method DeserializeCursor(cursor: map<string, Native>) returns (r: Result<map<string, Wire>, DynanticError>)
    ensures r.Ok? <==> Encodable(cursor)
    ensures r.Ok? ==> r.value == EncodeItem(cursor)
  {
    r := ToDynamo(cursor);
  }

  /** A key attribute as DynamoDB returns it: a string, a binary, or an
      integer number written without a fractional part. */
  predicate KeyAttribute(w: Wire)
  {
    w.S? || w.B? || (w.N? && w.n.scale == 0)
  }

  /** A cursor handed out and taken back reproduces the key it came from. */
  lemma CursorRoundTrip(key: map<string, Wire>)
    requires forall k :: k in key ==> KeyAttribute(key[k])
    ensures Encodable(SerializeCursor(key))
    ensures EncodeItem(SerializeCursor(key)) == key
  {
    var c := SerializeCursor(key);
    forall k | k in c ensures Prepare(c[k]) != NSet({}) && Encode(Prepare(c[k])) == Some(key[k]) {
      assert c[k] == Restore(Decode(key[k]));
      KeyAttributeRoundTrip(key[k]);
    }
    EncodeItemInverts(c, key);
  }

  /** An item whose every field encodes to the matching attribute, and none
      is an empty set, encodes to exactly those attributes. */
  lemma EncodeItemInverts(c: map<string, Native>, key: map<string, Wire>)
    requires c.Keys == key.Keys
    requires forall k :: k in c ==> Prepare(c[k]) != NSet({}) && Encode(Prepare(c[k])) == Some(key[k])
    ensures Encodable(c) && EncodeItem(c) == key
  {
  }

  lemma KeyAttributeRoundTrip(w: Wire)
    requires KeyAttribute(w)
    ensures Prepare(Restore(Decode(w))) == Restore(Decode(w)) != NSet({})
    ensures Encode(Prepare(Restore(Decode(w)))) == Some(w)
  {
    if w.N? {
      assert Pow10(0) == 1;
      assert Restore(Decode(w)) == NInt(w.n.digits);
    }
  }

  /** The round trip is exact only for such keys: a number written with a
      fractional zero comes back without it. */
  lemma CursorNormalisesScale()
    ensures EncodeItem(SerializeCursor(map["sk" := N(Decimal(250, 1))])) == map["sk" := N(Decimal(25, 0))]
  {
    var c := SerializeCursor(map["sk" := N(Decimal(250, 1))]);
    assert Pow10(1) == 10;
    assert c["sk"] == NInt(25);
  }
}
