/** Schema resolution for model classes (the `DynamoMeta` metaclass of
    dynantic/base.py): scanning the declared fields for key, sort-key,
    discriminator and index markers, building the index definitions, and
    inheriting configuration from base classes. */
module Schema {
  import opened Common
  import opened Values
  import opened Errors
  import opened Fields
  import opened Config

  /** One entry of the class's `model_fields` (inherited fields included,
      in pydantic's order): its name and its `json_schema_extra` map (empty
      when it has none). */
  datatype FieldDecl = FieldDecl(name: string, extra: map<string, Native>)

  /** A partition-key field: a truthy `_dynamo_pk` entry. */
  predicate IsPk(f: FieldDecl)
  {
    Truthy(Get(f.extra, PkMarker))
  }

  /** A sort-key field: a truthy `_dynamo_sk` entry on a field that is not
      the partition key (the check is an `elif`). */
  predicate IsSk(f: FieldDecl)
  {
    !IsPk(f) && Truthy(Get(f.extra, SkMarker))
  }

  /** A discriminator field: a truthy `_dynamo_discriminator` entry. */
  predicate IsDisc(f: FieldDecl)
  {
    Truthy(Get(f.extra, DiscriminatorMarker))
  }

  /** The field carries `GSIKey(index_name=idx)` (presence, not truthiness). */
  predicate IsGsiPk(f: FieldDecl, idx: string)
  {
    GsiPkMarker in f.extra && f.extra[GsiPkMarker] == NStr(idx)
  }

  /** The field carries `GSISortKey(index_name=idx)`. */
  predicate IsGsiSk(f: FieldDecl, idx: string)
  {
    GsiSkMarker in f.extra && f.extra[GsiSkMarker] == NStr(idx)
  }

  /** Index markers hold index names, as `GSIKey` and `GSISortKey` type them. */
  predicate FieldWellTyped(f: FieldDecl)
  {
    (GsiPkMarker in f.extra ==> f.extra[GsiPkMarker].NStr?)
    && (GsiSkMarker in f.extra ==> f.extra[GsiSkMarker].NStr?)
  }

  predicate WellTyped(fields: seq<FieldDecl>)
  {
    forall i :: 0 <= i < |fields| ==> FieldWellTyped(fields[i])
  }

  // ---------------------------------------------------------------------
  // Declarative description of a field list
  // ---------------------------------------------------------------------

  /** How many fields satisfy `p`. */
  function Count(fields: seq<FieldDecl>, p: FieldDecl -> bool): nat
  {
    if fields == [] then 0
    else Count(fields[..|fields| - 1], p) + (if p(fields[|fields| - 1]) then 1 else 0)
  }

  /** The name of the last field satisfying `p`, if any. */
  function NameWhere(fields: seq<FieldDecl>, p: FieldDecl -> bool): (n: Option<string>)
    ensures n.Some? <==> Count(fields, p) > 0
  {
    if fields == [] then None
    else if p(fields[|fields| - 1]) then Some(fields[|fields| - 1].name)
    else NameWhere(fields[..|fields| - 1], p)
  }

  /** How many fields are partition keys of index `idx`. */
  function GsiPkCount(fields: seq<FieldDecl>, idx: string): nat
  {
    if fields == [] then 0
    else GsiPkCount(fields[..|fields| - 1], idx) + (if IsGsiPk(fields[|fields| - 1], idx) then 1 else 0)
  }

  /** How many fields are sort keys of index `idx`. */
  function GsiSkCount(fields: seq<FieldDecl>, idx: string): nat
  {
    if fields == [] then 0
    else GsiSkCount(fields[..|fields| - 1], idx) + (if IsGsiSk(fields[|fields| - 1], idx) then 1 else 0)
  }

  /** The last field declared as partition key of index `idx`. */
  function GsiPkName(fields: seq<FieldDecl>, idx: string): (n: Option<string>)
    ensures n.Some? <==> GsiPkCount(fields, idx) > 0
  {
    if fields == [] then None
    else if IsGsiPk(fields[|fields| - 1], idx) then Some(fields[|fields| - 1].name)
    else GsiPkName(fields[..|fields| - 1], idx)
  }

  /** The last field declared as sort key of index `idx`. */
  function GsiSkName(fields: seq<FieldDecl>, idx: string): (n: Option<string>)
    ensures n.Some? <==> GsiSkCount(fields, idx) > 0
  {
    if fields == [] then None
    else if IsGsiSk(fields[|fields| - 1], idx) then Some(fields[|fields| - 1].name)
    else GsiSkName(fields[..|fields| - 1], idx)
  }

  /** At most one partition key, one sort key and one discriminator, and for
      every index at most one partition key and one sort key. */
  ghost predicate Admissible(fields: seq<FieldDecl>)
  {
    Count(fields, IsPk) <= 1 && Count(fields, IsSk) <= 1 && Count(fields, IsDisc) <= 1
    && (forall idx :: GsiPkCount(fields, idx) <= 1)
    && (forall idx :: GsiSkCount(fields, idx) <= 1)
  }

  // ---------------------------------------------------------------------
  // The field scan
  // ---------------------------------------------------------------------

  /** The keys found so far for one index. */
  datatype GsiKeys = GsiKeys(pk: Option<string>, sk: Option<string>)

  /** The scan's state: the key fields found so far, and the index keys
      with the order in which the indexes were first seen. */
  datatype KeyScan = KeyScan(
    pk: Option<string>,
    sk: Option<string>,
    discriminator: Option<string>,
    gsiKeys: map<string, GsiKeys>,
    gsiOrder: seq<string>)

  const EmptyScan: KeyScan := KeyScan(None, None, None, map[], [])

  /** The order lists each index of the key map exactly once. */
  ghost predicate OrderListsKeys(st: KeyScan)
  {
    (forall idx :: idx in st.gsiOrder <==> idx in st.gsiKeys)
    && (forall i, j :: 0 <= i < j < |st.gsiOrder| ==> st.gsiOrder[i] != st.gsiOrder[j])
  }

  function DuplicatePk(model: string): Error
  {
    ValueError("Model " + model + " can have only one field defined with Key()")
  }

  function DuplicateSk(model: string): Error
  {
    ValueError("Model " + model + " can have only one field defined with SortKey()")
  }

  function DuplicateDisc(model: string): Error
  {
    ValueError("Model " + model + " can have only one Discriminator() field")
  }

  function DuplicateGsiPk(model: string, idx: string): Error
  {
    ValueError("GSI '" + idx + "' in model " + model + " can have only one partition key")
  }

  function DuplicateGsiSk(model: string, idx: string): Error
  {
    ValueError("GSI '" + idx + "' in model " + model + " can have only one sort key")
  }

  /** `gsi_keys.setdefault(idx, {})`: a new index starts with no keys and
      is appended to the order. */
  function Touch(st: KeyScan, idx: string): (r: KeyScan)
    ensures idx in r.gsiKeys
    ensures OrderListsKeys(st) ==> OrderListsKeys(r)
  {
    if idx in st.gsiKeys then st
    else st.(gsiKeys := st.gsiKeys[idx := GsiKeys(None, None)], gsiOrder := st.gsiOrder + [idx])
  }

  /** The index partition-key part of one field's scan. */
  function GsiPkStep(model: string, st: KeyScan, f: FieldDecl): (r: Result<KeyScan, Error>)
    requires FieldWellTyped(f)
    ensures r.Ok? && OrderListsKeys(st) ==> OrderListsKeys(r.value)
  {
    if GsiPkMarker !in f.extra then Ok(st)
    else
      var idx := f.extra[GsiPkMarker].s;
      var s1 := Touch(st, idx);
      if s1.gsiKeys[idx].pk.Some? then Err(DuplicateGsiPk(model, idx))
      else Ok(s1.(gsiKeys := s1.gsiKeys[idx := s1.gsiKeys[idx].(pk := Some(f.name))]))
  }

  /** The index sort-key part of one field's scan. */
  function GsiSkStep(model: string, st: KeyScan, f: FieldDecl): (r: Result<KeyScan, Error>)
    requires FieldWellTyped(f)
    ensures r.Ok? && OrderListsKeys(st) ==> OrderListsKeys(r.value)
  {
    if GsiSkMarker !in f.extra then Ok(st)
    else
      var idx := f.extra[GsiSkMarker].s;
      var s1 := Touch(st, idx);
      if s1.gsiKeys[idx].sk.Some? then Err(DuplicateGsiSk(model, idx))
      else Ok(s1.(gsiKeys := s1.gsiKeys[idx := s1.gsiKeys[idx].(sk := Some(f.name))]))
  }

  /** The table-key part of one field's scan. */
  function KeyStep(model: string, st: KeyScan, f: FieldDecl): (r: Result<KeyScan, Error>)
    ensures r.Ok? ==> r.value.gsiKeys == st.gsiKeys && r.value.gsiOrder == st.gsiOrder
  {
    if IsPk(f) && st.pk.Some? then Err(DuplicatePk(model))
    else if IsSk(f) && st.sk.Some? then Err(DuplicateSk(model))
    else
      var s1 := if IsPk(f) then st.(pk := Some(f.name))
                else if IsSk(f) then st.(sk := Some(f.name))
                else st;
      if IsDisc(f) && s1.discriminator.Some? then Err(DuplicateDisc(model))
      else Ok(if IsDisc(f) then s1.(discriminator := Some(f.name)) else s1)
  }

  /** What one field does to the scan state: table keys, discriminator,
      index partition key, index sort key, in that order. */
  function ScanStep(model: string, st: KeyScan, f: FieldDecl): (r: Result<KeyScan, Error>)
    requires FieldWellTyped(f)
    ensures r.Ok? && OrderListsKeys(st) ==> OrderListsKeys(r.value)
  {
    var s1 :- KeyStep(model, st, f);
    assert OrderListsKeys(st) ==> OrderListsKeys(s1);
    var s2 :- GsiPkStep(model, s1, f);
    GsiSkStep(model, s2, f)
  }

  /** The scan over a field list, one field at a time in order. */
  function ScanFrom(model: string, fields: seq<FieldDecl>): (r: Result<KeyScan, Error>)
    requires WellTyped(fields)
    ensures r.Ok? ==> OrderListsKeys(r.value)
  {
    if fields == [] then Ok(EmptyScan)
    else
      var st :- ScanFrom(model, fields[..|fields| - 1]);
      ScanStep(model, st, fields[|fields| - 1])
  }

  /** The field loop of `DynamoMeta.__new__`. */
  method ScanFields(model: string, fields: seq<FieldDecl>) returns (r: Result<KeyScan, Error>)
    requires WellTyped(fields)
    ensures r == ScanFrom(model, fields)
  {
    var st := EmptyScan;
    var i := 0;
    while i < |fields|
      invariant 0 <= i <= |fields|
      invariant ScanFrom(model, fields[..i]) == Ok(st)
    {
      assert fields[..i + 1][..i] == fields[..i];
      var step := ScanStep(model, st, fields[i]);
      if step.Err? {
        assert ScanFrom(model, fields[..i + 1]) == step;
        ScanPrefixFails(model, fields, i + 1);
        return step;
      }
      st := step.value;
      i := i + 1;
    }
    assert fields[..i] == fields;
    return Ok(st);
  }

  /** Once a prefix fails, so does the whole scan, with the same error. */
  lemma {:induction false} ScanPrefixFails(model: string, fields: seq<FieldDecl>, n: nat)
    requires WellTyped(fields) && n <= |fields|
    requires ScanFrom(model, fields[..n]).Err?
    ensures ScanFrom(model, fields) == ScanFrom(model, fields[..n])
    decreases |fields| - n
  {
    if n == |fields| {
      assert fields[..n] == fields;
    } else {
      assert fields[..n + 1][..n] == fields[..n];
      ScanPrefixFails(model, fields, n + 1);
    }
  }

  // ---------------------------------------------------------------------
  // What the scan computes
  // ---------------------------------------------------------------------

  /** The table keys and discriminator of the state are those of the fields. */
  ghost predicate KeysDescribe(fields: seq<FieldDecl>, st: KeyScan)
  {
    st.pk == NameWhere(fields, IsPk) && st.sk == NameWhere(fields, IsSk)
    && st.discriminator == NameWhere(fields, IsDisc)
  }

  /** The index map of the state holds the partition keys declared in `pf`
      and the sort keys declared in `sf`, for exactly the indexes they name. */
  ghost predicate GsiDescribe(pf: seq<FieldDecl>, sf: seq<FieldDecl>, st: KeyScan)
  {
    OrderListsKeys(st)
    && (forall idx :: idx in st.gsiKeys <==> GsiPkName(pf, idx).Some? || GsiSkName(sf, idx).Some?)
    && (forall idx :: idx in st.gsiKeys ==> st.gsiKeys[idx] == GsiKeys(GsiPkName(pf, idx), GsiSkName(sf, idx)))
  }

  /** Unfolding the descriptions of `fields + [f]` one step. */
  lemma SnocFacts(fields: seq<FieldDecl>, f: FieldDecl)
    ensures forall p :: Count(fields + [f], p) == Count(fields, p) + (if p(f) then 1 else 0)
    ensures forall p :: NameWhere(fields + [f], p) == if p(f) then Some(f.name) else NameWhere(fields, p)
    ensures forall idx :: GsiPkCount(fields + [f], idx) == GsiPkCount(fields, idx) + (if IsGsiPk(f, idx) then 1 else 0)
    ensures forall idx :: GsiSkCount(fields + [f], idx) == GsiSkCount(fields, idx) + (if IsGsiSk(f, idx) then 1 else 0)
    ensures forall idx :: GsiPkName(fields + [f], idx) == if IsGsiPk(f, idx) then Some(f.name) else GsiPkName(fields, idx)
    ensures forall idx :: GsiSkName(fields + [f], idx) == if IsGsiSk(f, idx) then Some(f.name) else GsiSkName(fields, idx)
  {
    assert (fields + [f])[..|fields|] == fields;
  }

  /** The table-key step against the description of the fields. */
  lemma KeyStepDescribed(model: string, prefix: seq<FieldDecl>, st: KeyScan, f: FieldDecl)
    requires KeysDescribe(prefix, st)
    requires Count(prefix, IsPk) <= 1 && Count(prefix, IsSk) <= 1 && Count(prefix, IsDisc) <= 1
    ensures var fields := prefix + [f];
      (KeyStep(model, st, f).Ok? <==>
        Count(fields, IsPk) <= 1 && Count(fields, IsSk) <= 1 && Count(fields, IsDisc) <= 1)
      && (KeyStep(model, st, f).Ok? ==>
        KeysDescribe(fields, KeyStep(model, st, f).value)
        && KeyStep(model, st, f).value.gsiKeys == st.gsiKeys
        && KeyStep(model, st, f).value.gsiOrder == st.gsiOrder)
  {
    SnocFacts(prefix, f);
  }

  /** The index partition-key step against the description of the fields. */
  lemma GsiPkStepDescribed(model: string, prefix: seq<FieldDecl>, sf: seq<FieldDecl>, st: KeyScan, f: FieldDecl)
    requires FieldWellTyped(f) && GsiDescribe(prefix, sf, st)
    ensures GsiPkStep(model, st, f).Ok? <==> forall idx :: IsGsiPk(f, idx) ==> GsiPkCount(prefix, idx) == 0
    ensures GsiPkStep(model, st, f).Ok? ==> GsiDescribe(prefix + [f], sf, GsiPkStep(model, st, f).value)
    ensures GsiPkStep(model, st, f).Ok? ==>
      var r := GsiPkStep(model, st, f).value;
      r.pk == st.pk && r.sk == st.sk && r.discriminator == st.discriminator
  {
    SnocFacts(prefix, f);
    if GsiPkMarker in f.extra {
      var idx := f.extra[GsiPkMarker].s;
      assert IsGsiPk(f, idx);
      forall other | IsGsiPk(f, other) ensures other == idx { }
    }
  }

  /** The index sort-key step against the description of the fields. */
  lemma GsiSkStepDescribed(model: string, pf: seq<FieldDecl>, prefix: seq<FieldDecl>, st: KeyScan, f: FieldDecl)
    requires FieldWellTyped(f) && GsiDescribe(pf, prefix, st)
    ensures GsiSkStep(model, st, f).Ok? <==> forall idx :: IsGsiSk(f, idx) ==> GsiSkCount(prefix, idx) == 0
    ensures GsiSkStep(model, st, f).Ok? ==> GsiDescribe(pf, prefix + [f], GsiSkStep(model, st, f).value)
    ensures GsiSkStep(model, st, f).Ok? ==>
      var r := GsiSkStep(model, st, f).value;
      r.pk == st.pk && r.sk == st.sk && r.discriminator == st.discriminator
  {
    SnocFacts(prefix, f);
    if GsiSkMarker in f.extra {
      var idx := f.extra[GsiSkMarker].s;
      assert IsGsiSk(f, idx);
      forall other | IsGsiSk(f, other) ensures other == idx { }
    }
  }

  /** One field's step keeps the description and fails exactly when the
      field breaks admissibility. */
  lemma ScanStepDescribed(model: string, prefix: seq<FieldDecl>, st: KeyScan, f: FieldDecl)
    requires FieldWellTyped(f) && Admissible(prefix)
    requires KeysDescribe(prefix, st) && GsiDescribe(prefix, prefix, st)
    ensures ScanStep(model, st, f).Ok? <==> Admissible(prefix + [f])
    ensures ScanStep(model, st, f).Ok? ==>
      KeysDescribe(prefix + [f], ScanStep(model, st, f).value)
      && GsiDescribe(prefix + [f], prefix + [f], ScanStep(model, st, f).value)
  {
    var fields := prefix + [f];
    SnocFacts(prefix, f);
    KeyStepDescribed(model, prefix, st, f);
    var k := KeyStep(model, st, f);
    if k.Err? {
      return;
    }
    var s1 := k.value;
    assert GsiDescribe(prefix, prefix, s1);
    GsiPkStepDescribed(model, prefix, prefix, s1, f);
    var g := GsiPkStep(model, s1, f);
    if g.Err? {
      var idx := f.extra[GsiPkMarker].s;
      assert IsGsiPk(f, idx) && GsiPkCount(fields, idx) > 1;
      return;
    }
    var s2 := g.value;
    GsiSkStepDescribed(model, fields, prefix, s2, f);
    var h := GsiSkStep(model, s2, f);
    if h.Err? {
      var idx := f.extra[GsiSkMarker].s;
      assert IsGsiSk(f, idx) && GsiSkCount(fields, idx) > 1;
      return;
    }
    assert KeysDescribe(fields, h.value);
  }

  /** The scan succeeds exactly on admissible field lists, and then finds
      the (single) partition key, sort key and discriminator fields, and for
      exactly the indexes some field names, their partition and sort keys;
      the order lists each index once. */
  lemma {:induction false} ScanCharacterised(model: string, fields: seq<FieldDecl>)
    requires WellTyped(fields)
    ensures ScanFrom(model, fields).Ok? <==> Admissible(fields)
    ensures ScanFrom(model, fields).Ok? ==>
      KeysDescribe(fields, ScanFrom(model, fields).value)
      && GsiDescribe(fields, fields, ScanFrom(model, fields).value)
  {
    if fields == [] {
      return;
    }
    var prefix := fields[..|fields| - 1];
    var f := fields[|fields| - 1];
    assert fields == prefix + [f];
    assert WellTyped(prefix) by {
      forall i | 0 <= i < |prefix| ensures FieldWellTyped(prefix[i]) {
        assert prefix[i] == fields[i];
      }
    }
    ScanCharacterised(model, prefix);
    SnocFacts(prefix, f);
    var p := ScanFrom(model, prefix);
    if p.Err? {
      assert !Admissible(prefix);
      assert !Admissible(fields) by {
        if Admissible(fields) {
          forall idx ensures GsiPkCount(prefix, idx) <= 1 && GsiSkCount(prefix, idx) <= 1 {
            assert GsiPkCount(fields, idx) <= 1 && GsiSkCount(fields, idx) <= 1;
          }
        }
      }
    } else {
      ScanStepDescribed(model, prefix, p.value, f);
    }
  }

  /** A second `Key()` field after an admissible prefix that already has one
      is rejected with the duplicate-key message, whatever else it marks. */
  lemma SecondKeyRejected(model: string, prefix: seq<FieldDecl>, f: FieldDecl)
    requires WellTyped(prefix) && FieldWellTyped(f) && Admissible(prefix)
    requires Count(prefix, IsPk) == 1 && IsPk(f)
    ensures WellTyped(prefix + [f])
    ensures ScanFrom(model, prefix + [f]) == Err(DuplicatePk(model))
  {
    var fields := prefix + [f];
    assert fields[..|prefix|] == prefix;
    ScanCharacterised(model, prefix);
  }

  /** A field marked with both `Key()` and `SortKey()` counts only as the
      partition key. */
  lemma KeyWinsOverSortKey(model: string, f: FieldDecl)
    requires FieldWellTyped(f) && IsPk(f) && Truthy(Get(f.extra, SkMarker))
    ensures WellTyped([f])
    ensures ScanFrom(model, [f]).Ok?
    ensures ScanFrom(model, [f]).value.pk == Some(f.name)
    ensures ScanFrom(model, [f]).value.sk == None
  {
    assert [f][..0] == [];
  }

  // ---------------------------------------------------------------------
  // Index definitions
  // ---------------------------------------------------------------------

  function MissingGsiPk(model: string, idx: string): Error
  {
    ValueError("GSI '" + idx + "' in model " + model + " must have a partition key defined with GSIKey(index_name='"
               + idx + "')")
  }

  /** The index definitions built from the scan's index keys in first-seen
      order: the first index without a partition key is an error; otherwise
      every index gets its partition key and its sort key, if any. */
  function GsiFrom(model: string, order: seq<string>, keys: map<string, GsiKeys>): Result<map<string, GSIDefinition>, Error>
    requires forall idx :: idx in order ==> idx in keys
  {
    if order == [] then Ok(map[])
    else
      var prefix := order[..|order| - 1];
      var idx := order[|order| - 1];
      match GsiFrom(model, prefix, keys)
      case Err(e) => Err(e)
      case Ok(defs) =>
        if keys[idx].pk.None? then Err(MissingGsiPk(model, idx))
        else Ok(defs[idx := NewGSIDefinition(idx, keys[idx].pk.value, keys[idx].sk)])
  }

  /** The build succeeds exactly when every index has a partition key, and
      then defines exactly the indexes of the order, each with its keys. */
  lemma {:induction false} GsiFromCharacterised(model: string, order: seq<string>, keys: map<string, GsiKeys>)
    requires forall idx :: idx in order ==> idx in keys
    ensures var r := GsiFrom(model, order, keys);
      (r.Ok? <==> forall i :: 0 <= i < |order| ==> keys[order[i]].pk.Some?)
      && (r.Ok? ==> forall idx :: idx in r.value <==> idx in order)
      && (r.Ok? ==> forall idx :: idx in r.value ==>
            keys[idx].pk.Some? && r.value[idx] == NewGSIDefinition(idx, keys[idx].pk.value, keys[idx].sk))
    decreases |order|
  {
    if order != [] {
      var prefix, last := order[..|order| - 1], order[|order| - 1];
      assert forall i :: 0 <= i < |prefix| ==> prefix[i] == order[i];
      assert forall idx :: idx in order <==> idx in prefix || idx == last;
      GsiFromCharacterised(model, prefix, keys);
    }
  }

  /** Position `i` holds the first index, in first-seen order, without a
      partition key, and the error names it. */
  ghost predicate FirstMissingAt(model: string, order: seq<string>, keys: map<string, GsiKeys>, e: Error, i: int)
    requires forall idx :: idx in order ==> idx in keys
  {
    0 <= i < |order| && keys[order[i]].pk.None?
    && (forall j :: 0 <= j < i ==> keys[order[j]].pk.Some?)
    && e == MissingGsiPk(model, order[i])
  }

  /** A failed build names the first index, in first-seen order, that has
      no partition key. */
  lemma {:induction false} GsiFromNamesFirstMissing(model: string, order: seq<string>, keys: map<string, GsiKeys>)
    requires forall idx :: idx in order ==> idx in keys
    requires GsiFrom(model, order, keys).Err?
    ensures exists i :: FirstMissingAt(model, order, keys, GsiFrom(model, order, keys).error, i)
  {
    var prefix := order[..|order| - 1];
    var last := |order| - 1;
    var p := GsiFrom(model, prefix, keys);
    var e := GsiFrom(model, order, keys).error;
    if p.Err? {
      GsiFromNamesFirstMissing(model, prefix, keys);
      var i :| FirstMissingAt(model, prefix, keys, p.error, i);
      assert e == p.error;
      assert FirstMissingAt(model, order, keys, e, i) by {
        assert forall j :: 0 <= j <= i ==> order[j] == prefix[j];
      }
    } else {
      GsiFromCharacterised(model, prefix, keys);
      assert FirstMissingAt(model, order, keys, e, last) by {
        assert forall j :: 0 <= j < last ==> order[j] == prefix[j];
      }
    }
  }

  /** The index-definition loop of `DynamoMeta.__new__`. */
  method BuildGsiDefinitions(model: string, order: seq<string>, keys: map<string, GsiKeys>)
    returns (r: Result<map<string, GSIDefinition>, Error>)
    requires forall idx :: idx in order ==> idx in keys
    ensures r == GsiFrom(model, order, keys)
  {
    var defs: map<string, GSIDefinition> := map[];
    var i := 0;
    while i < |order|
      invariant 0 <= i <= |order|
      invariant GsiFrom(model, order[..i], keys) == Ok(defs)
    {
      assert order[..i + 1][..i] == order[..i];
      var idx := order[i];
      var k := keys[idx];
      if k.pk.None? {
        GsiPrefixFails(model, order, keys, i + 1);
        return Err(MissingGsiPk(model, idx));
      }
      defs := defs[idx := NewGSIDefinition(idx, k.pk.value, k.sk)];
      i := i + 1;
    }
    assert order[..i] == order;
    return Ok(defs);
  }

  /** Once a prefix of the order fails, the whole build fails the same way. */
  lemma {:induction false} GsiPrefixFails(model: string, order: seq<string>, keys: map<string, GsiKeys>, n: nat)
    requires forall idx :: idx in order ==> idx in keys
    requires n <= |order|
    requires forall idx :: idx in order[..n] ==> idx in keys
    requires GsiFrom(model, order[..n], keys).Err?
    ensures GsiFrom(model, order, keys) == GsiFrom(model, order[..n], keys)
    decreases |order| - n
  {
    if n == |order| {
      assert order[..n] == order;
    } else {
      assert order[..n + 1][..n] == order[..n];
      GsiPrefixFails(model, order, keys, n + 1);
    }
  }

  // ---------------------------------------------------------------------
  // Resolution of a class's options
  // ---------------------------------------------------------------------

  /** A base class as the metaclass sees it: its name and its options, if it
      has any. */
  datatype BaseInfo = BaseInfo(name: string, meta: Option<ModelOptions>)

  /** The class body's `Meta`: its `table_name` and `region` attributes, each
      absent or set. */
  datatype MetaBlock = MetaBlock(tableName: Option<string>, region: Option<string>)

  /** The registration markers `register` leaves on a class: the parent's
      name and options, and the discriminator value. */
  datatype PendingMarker = PendingMarker(parentName: string, parentMeta: ModelOptions, value: string)

  /** The options of a class that declares its own configuration, before
      its new (empty) registry exists. */
  datatype DeclaredSchema = DeclaredSchema(
    tableName: string,
    pkName: string,
    skName: Option<string>,
    region: string,
    gsiDefinitions: map<string, GSIDefinition>,
    discriminatorField: Option<string>)
  {
    /** The options with the registry attached: a base entity exactly when
        a discriminator field was found, with no parent and no value. */
    function WithRegistry(registry: EntityRegistry): (o: ModelOptions)
      ensures o.isBaseEntity <==> o.IsPolymorphic()
      ensures o.registry == registry
    {
      ModelOptions(tableName, pkName, skName, region, gsiDefinitions, discriminatorField, registry,
                   discriminatorField.Some?, None, None)
    }
  }

  /** What the metaclass does with a class: nothing (the library's own base
      class), copy options from elsewhere, or declare new ones. */
  datatype Resolution =
    | NotAModel
    | Inherits(options: ModelOptions)
    | Declares(schema: DeclaredSchema)

  predicate Configured(b: BaseInfo)
  {
    b.meta.Some?
  }

  predicate PolymorphicBase(b: BaseInfo)
  {
    b.meta.Some? && b.meta.value.isBaseEntity
  }

  /** The position of the first base satisfying `p`. */
  function FirstBase(bases: seq<BaseInfo>, p: BaseInfo -> bool): (r: Option<nat>)
    ensures r.None? <==> forall j :: 0 <= j < |bases| ==> !p(bases[j])
    ensures r.Some? ==> r.value < |bases| && p(bases[r.value])
                        && forall j :: 0 <= j < r.value ==> !p(bases[j])
  {
    if bases == [] then None
    else if p(bases[0]) then Some(0)
    else
      var rest := FirstBase(bases[1..], p);
      if rest.None? then None else Some(rest.value + 1)
  }

  /** A registered subclass: the parent's options with the shared registry,
      not a base entity, tracking its parent and its value. */
  function ResolvePending(p: PendingMarker): (o: ModelOptions)
    ensures o.registry == p.parentMeta.registry
    ensures o.tableName == p.parentMeta.tableName && o.pkName == p.parentMeta.pkName
    ensures o.skName == p.parentMeta.skName && o.region == p.parentMeta.region
    ensures o.gsiDefinitions == p.parentMeta.gsiDefinitions
    ensures o.discriminatorField == p.parentMeta.discriminatorField
    ensures !o.isBaseEntity && o.parentModel == Some(p.parentName) && o.discriminatorValue == Some(p.value)
  {
    p.parentMeta.(isBaseEntity := false, parentModel := Some(p.parentName), discriminatorValue := Some(p.value))
  }

  /** The registered-subclass branch as written: after copying the options it
      removes the markers with `delattr` on the new class itself, which
      fails unless the class's own body defined them. */
  function ResolvePendingAsWritten(name: string, p: PendingMarker, ownMarkers: bool): (r: Result<ModelOptions, Error>)
    ensures r.Ok? <==> ownMarkers
    ensures r.Ok? ==> r.value == ResolvePending(p)
  {
    if ownMarkers then Ok(ResolvePending(p))
    else Err(AttributeError("type object '" + name + "' has no attribute '_pending_parent_model'"))
  }

  /** A subclass of a polymorphic base without its own `Meta`: the base's
      options, sharing its registry, not a base entity, with the base as
      parent and no value yet. */
  function PolymorphicChild(b: BaseInfo): (o: ModelOptions)
    requires b.meta.Some?
  {
    b.meta.value.(isBaseEntity := false, parentModel := Some(b.name), discriminatorValue := None)
  }

  /** A subclass of an ordinary model without its own `Meta`: the base's
      options, registry and base-entity flag, with no parent and no value. */
  function PlainChild(m: ModelOptions): (o: ModelOptions)
  {
    m.(parentModel := None, discriminatorValue := None)
  }

  /** With no partition key of its own, a class takes the first configured
      base's partition key, and its sort key unless it found one. */
  function InheritKeys(pk: Option<string>, sk: Option<string>, bases: seq<BaseInfo>): (Option<string>, Option<string>)
  {
    if Given(pk) then (pk, sk)
    else
      match FirstBase(bases, Configured)
      case None => (pk, sk)
      case Some(i) =>
        var m := bases[i].meta.value;
        (Some(m.pkName), if sk.None? then m.skName else sk)
  }

  function MissingMeta(model: string): Error
  {
    ValueError("Model " + model + " is missing a 'class Meta' with 'table_name'.")
  }

  function MissingTableName(model: string): Error
  {
    ValueError("Model " + model + " is missing a 'table_name' in class Meta.")
  }

  function MissingKey(model: string): Error
  {
    ValueError("Model " + model + " must have exactly one field defined with Key()")
  }

  function RegionOf(meta: MetaBlock): string
  {
    if meta.region.Some? then meta.region.value else DefaultRegion
  }

  /** `DynamoMeta.__new__` for a class named `name` with the given bases,
      `Meta` block, fields and inherited registration markers. */
  function ResolveSpec(name: string, bases: seq<BaseInfo>, meta: Option<MetaBlock>, fields: seq<FieldDecl>,
                       pending: Option<PendingMarker>): Result<Resolution, Error>
    requires WellTyped(fields)
  {
    if name == "DynamoModel" then Ok(NotAModel)
    else if pending.Some? then Ok(Inherits(ResolvePending(pending.value)))
    else if meta.None? then
      match FirstBase(bases, PolymorphicBase)
      case Some(i) => Ok(Inherits(PolymorphicChild(bases[i])))
      case None =>
        match FirstBase(bases, Configured)
        case Some(i) => Ok(Inherits(PlainChild(bases[i].meta.value)))
        case None => Err(MissingMeta(name))
    else if meta.value.tableName.None? then Err(MissingTableName(name))
    else
      var st :- ScanFrom(name, fields);
      var keys := InheritKeys(st.pk, st.sk, bases);
      if !Given(keys.0) then Err(MissingKey(name))
      else
        var defs :- GsiFrom(name, st.gsiOrder, st.gsiKeys);
        Ok(Declares(DeclaredSchema(meta.value.tableName.value, keys.0.value, keys.1, RegionOf(meta.value), defs,
                                   st.discriminator)))
  }

  /** `DynamoMeta.__new__`: the options the class ends up with (`None` for
      the library's own base class); a class declaring its own
      configuration gets a new, empty registry. */
  method ResolveSchema(name: string, bases: seq<BaseInfo>, meta: Option<MetaBlock>, fields: seq<FieldDecl>,
                       pending: Option<PendingMarker>) returns (r: Result<Option<ModelOptions>, Error>)
    requires WellTyped(fields)
    ensures var spec := ResolveSpec(name, bases, meta, fields, pending);
      (spec.Err? ==> r == Err(spec.error))
      && (spec == Ok(NotAModel) ==> r == Ok(None))
      && (spec.Ok? && spec.value.Inherits? ==> r == Ok(Some(spec.value.options)))
      && (spec.Ok? && spec.value.Declares? ==>
            r.Ok? && r.value.Some? && fresh(r.value.value.registry) && r.value.value.registry.entries == map[]
            && r.value.value == spec.value.schema.WithRegistry(r.value.value.registry))
  {
    if name == "DynamoModel" {
      return Ok(None);
    }
    if pending.Some? {
      return Ok(Some(ResolvePending(pending.value)));
    }
    if meta.None? {
      var poly := FirstBase(bases, PolymorphicBase);
      if poly.Some? {
        return Ok(Some(PolymorphicChild(bases[poly.value])));
      }
      var plain := FirstBase(bases, Configured);
      if plain.Some? {
        return Ok(Some(PlainChild(bases[plain.value].meta.value)));
      }
      return Err(MissingMeta(name));
    }
    if meta.value.tableName.None? {
      return Err(MissingTableName(name));
    }
    var scan := ScanFields(name, fields);
    if scan.Err? {
      return Err(scan.error);
    }
    var st := scan.value;
    var keys := InheritKeys(st.pk, st.sk, bases);
    if !Given(keys.0) {
      return Err(MissingKey(name));
    }
    var built := BuildGsiDefinitions(name, st.gsiOrder, st.gsiKeys);
    if built.Err? {
      return Err(built.error);
    }
    var registry := new EntityRegistry();
    var schema := DeclaredSchema(meta.value.tableName.value, keys.0.value, keys.1, RegionOf(meta.value),
                                 built.value, st.discriminator);
    return Ok(Some(schema.WithRegistry(registry)));
  }

  // ---------------------------------------------------------------------
  // Properties of resolution
  // ---------------------------------------------------------------------

  /** Every index some field names as a sort-key index also has a field
      naming it as a partition-key index. */
  ghost predicate IndexesKeyed(fields: seq<FieldDecl>)
  {
    forall idx :: GsiSkCount(fields, idx) > 0 ==> GsiPkCount(fields, idx) > 0
  }

  /** A class with its own `Meta` and table name resolves exactly when its
      fields are admissible, it has (or inherits) a partition key, and every
      index a field names has a partition key. Its keys are those its
      fields declare, falling back on the first configured base; its
      discriminator is its own discriminator field; its indexes are exactly
      those with a partition key, each with the declared keys. */
  lemma DeclaredSchemaCharacterised(name: string, bases: seq<BaseInfo>, m: MetaBlock, fields: seq<FieldDecl>)
    requires WellTyped(fields) && name != "DynamoModel" && m.tableName.Some?
    ensures var r := ResolveSpec(name, bases, Some(m), fields, None);
      var keys := InheritKeys(NameWhere(fields, IsPk), NameWhere(fields, IsSk), bases);
      (r.Ok? <==> Admissible(fields) && Given(keys.0) && IndexesKeyed(fields))
      && (r.Ok? ==>
            r.value.Declares?
            && r.value.schema.tableName == m.tableName.value
            && r.value.schema.region == RegionOf(m)
            && Some(r.value.schema.pkName) == keys.0
            && r.value.schema.skName == keys.1
            && r.value.schema.discriminatorField == NameWhere(fields, IsDisc)
            && (forall idx :: idx in r.value.schema.gsiDefinitions <==> GsiPkCount(fields, idx) > 0)
            && (forall idx :: idx in r.value.schema.gsiDefinitions ==>
                  r.value.schema.gsiDefinitions[idx]
                  == NewGSIDefinition(idx, GsiPkName(fields, idx).value, GsiSkName(fields, idx))))
  {
    ScanCharacterised(name, fields);
    var r := ResolveSpec(name, bases, Some(m), fields, None);
    var s := ScanFrom(name, fields);
    if s.Err? {
      assert r == Err(s.error);
    } else {
      var st := s.value;
      var keys := InheritKeys(st.pk, st.sk, bases);
      assert keys == InheritKeys(NameWhere(fields, IsPk), NameWhere(fields, IsSk), bases);
      if !Given(keys.0) {
        assert r == Err(MissingKey(name));
      } else {
        var g := GsiFrom(name, st.gsiOrder, st.gsiKeys);
        GsiFromCharacterised(name, st.gsiOrder, st.gsiKeys);
        if g.Err? {
          var i :| 0 <= i < |st.gsiOrder| && st.gsiKeys[st.gsiOrder[i]].pk.None?;
          var idx := st.gsiOrder[i];
          assert GsiSkCount(fields, idx) > 0 && GsiPkCount(fields, idx) == 0;
          assert !IndexesKeyed(fields);
          assert r == Err(g.error);
        } else {
          forall idx | GsiSkCount(fields, idx) > 0 ensures GsiPkCount(fields, idx) > 0 {
            assert idx in st.gsiKeys;
            assert idx in st.gsiOrder;
            var i :| 0 <= i < |st.gsiOrder| && st.gsiOrder[i] == idx;
          }
          assert IndexesKeyed(fields);
          assert r == Ok(Declares(DeclaredSchema(m.tableName.value, keys.0.value, keys.1, RegionOf(m), g.value,
                                                 st.discriminator)));
        }
      }
    }
  }

  /** The two `Meta` errors: no `Meta` and nothing to inherit from, or a
      `Meta` without a table name. */
  lemma MetaErrors(name: string, bases: seq<BaseInfo>, fields: seq<FieldDecl>, region: Option<string>)
    requires WellTyped(fields) && name != "DynamoModel"
    ensures (forall j :: 0 <= j < |bases| ==> bases[j].meta.None?) ==>
              ResolveSpec(name, bases, None, fields, None) == Err(MissingMeta(name))
    ensures ResolveSpec(name, bases, Some(MetaBlock(None, region)), fields, None) == Err(MissingTableName(name))
  {
    if forall j :: 0 <= j < |bases| ==> bases[j].meta.None? {
      assert FirstBase(bases, PolymorphicBase).None?;
      assert FirstBase(bases, Configured).None?;
    }
  }

  /** With no partition key of its own and no configured base, a class is
      rejected for its missing key; a key declared nowhere cannot be found. */
  lemma MissingKeyRejected(name: string, bases: seq<BaseInfo>, m: MetaBlock, fields: seq<FieldDecl>)
    requires WellTyped(fields) && name != "DynamoModel" && m.tableName.Some?
    requires Admissible(fields) && Count(fields, IsPk) == 0
    requires forall j :: 0 <= j < |bases| ==> bases[j].meta.None?
    ensures ResolveSpec(name, bases, Some(m), fields, None) == Err(MissingKey(name))
  {
    ScanCharacterised(name, fields);
    assert FirstBase(bases, Configured).None?;
  }

  /** A class without `Meta` below a polymorphic base shares the first such
      base's registry and options, is not itself a base entity, and records
      that base as its parent. */
  lemma PolymorphicSubclassSharesRegistry(name: string, bases: seq<BaseInfo>, fields: seq<FieldDecl>, i: nat)
    requires WellTyped(fields) && name != "DynamoModel"
    requires i < |bases| && PolymorphicBase(bases[i])
    requires forall j :: 0 <= j < i ==> !PolymorphicBase(bases[j])
    ensures var r := ResolveSpec(name, bases, None, fields, None);
      var b := bases[i].meta.value;
      r.Ok? && r.value.Inherits?
      && r.value.options.registry == b.registry
      && r.value.options.tableName == b.tableName && r.value.options.pkName == b.pkName
      && r.value.options.skName == b.skName && r.value.options.gsiDefinitions == b.gsiDefinitions
      && r.value.options.discriminatorField == b.discriminatorField
      && !r.value.options.isBaseEntity
      && r.value.options.parentModel == Some(bases[i].name)
  {
    assert FirstBase(bases, PolymorphicBase) == Some(i);
  }

  /** A class without `Meta` whose bases include no polymorphic base copies
      the first configured base's options, registry and base-entity flag,
      with no parent and no value. */
  lemma PlainSubclassCopiesBase(name: string, bases: seq<BaseInfo>, fields: seq<FieldDecl>, i: nat)
    requires WellTyped(fields) && name != "DynamoModel"
    requires forall j :: 0 <= j < |bases| ==> !PolymorphicBase(bases[j])
    requires i < |bases| && Configured(bases[i]) && forall j :: 0 <= j < i ==> !Configured(bases[j])
    ensures ResolveSpec(name, bases, None, fields, None)
            == Ok(Inherits(bases[i].meta.value.(parentModel := None, discriminatorValue := None)))
  {
    assert FirstBase(bases, Configured) == Some(i);
  }

  /** A class carrying registration markers becomes a registered subclass
      of the marked parent, whatever its `Meta` and fields say. */
  lemma MarkedClassBecomesRegisteredSubclass(name: string, bases: seq<BaseInfo>, meta: Option<MetaBlock>,
                                              fields: seq<FieldDecl>, p: PendingMarker)
    requires WellTyped(fields) && name != "DynamoModel"
    ensures ResolveSpec(name, bases, meta, fields, Some(p)) == Ok(Inherits(ResolvePending(p)))
    ensures ResolvePendingAsWritten(name, p, true) == Ok(ResolvePending(p))
  {
  }

  /** The registered-subclass branch as written fails for a class whose
      markers are inherited, where the corrected branch resolves it. */
  lemma InheritedMarkersFailAsWritten(name: string, p: PendingMarker)
    requires name != "DynamoModel"
    ensures ResolvePendingAsWritten(name, p, false)
            == Err(AttributeError("type object '" + name + "' has no attribute '_pending_parent_model'"))
    ensures ResolveSpec(name, [], None, [], Some(p)).Ok?
  {
  }
}
