/** The field markers (dynantic/fields.py).  Each marker returns a pydantic
    field whose `json_schema_extra` map carries one hidden entry that the
    schema resolver later looks for. */
module Fields {
  import opened Common
  import opened Values

  const PkMarker: string := "_dynamo_pk"
  const SkMarker: string := "_dynamo_sk"
  const GsiPkMarker: string := "_dynamo_gsi_pk"
  const GsiSkMarker: string := "_dynamo_gsi_sk"
  const DiscriminatorMarker: string := "_dynamo_discriminator"

  /** A field's default: required (pydantic's `...`) or a value. */
  datatype Default = Required | DefaultValue(value: Native)

  /** The pydantic `Field(...)` a marker returns: its default, its extras
      map and the other keyword arguments passed through. */
  datatype FieldInfo = FieldInfo(default: Default, extra: map<string, Native>, kwargs: map<string, Native>)

  /** The shared shape of every marker: take the caller's extras (or an
      empty map), set `key` to `value` and build the field. */
  function Mark(key: string, value: Native, default: Default, extra: Option<map<string, Native>>,
                kwargs: map<string, Native>): (f: FieldInfo)
    ensures f.default == default && f.kwargs == kwargs
    ensures key in f.extra && f.extra[key] == value
    ensures extra.None? ==> f.extra.Keys == {key}
    ensures extra.Some? ==> f.extra.Keys == extra.value.Keys + {key}
    ensures extra.Some? ==> forall k :: k in extra.value && k != key ==> f.extra[k] == extra.value[k]
  {
    var base := if extra.Some? then extra.value else map[];
    FieldInfo(default, base[key := value], kwargs)
  }

  /** `Key()`: the partition-key marker. */
  function Key(default: Default, extra: Option<map<string, Native>>, kwargs: map<string, Native>): FieldInfo
  {
    Mark(PkMarker, NBool(true), default, extra, kwargs)
  }

  /** `SortKey()`: the sort-key marker. */
  function SortKey(default: Default, extra: Option<map<string, Native>>, kwargs: map<string, Native>): FieldInfo
  {
    Mark(SkMarker, NBool(true), default, extra, kwargs)
  }

  /** `GSIKey(index_name)`: the index partition-key marker, holding the index name. */
  function GSIKey(indexName: string, default: Default, extra: Option<map<string, Native>>,
                  kwargs: map<string, Native>): FieldInfo
  {
    Mark(GsiPkMarker, NStr(indexName), default, extra, kwargs)
  }

  /** `GSISortKey(index_name)`: the index sort-key marker, holding the index name. */
  function GSISortKey(indexName: string, default: Default, extra: Option<map<string, Native>>,
                      kwargs: map<string, Native>): FieldInfo
  {
    Mark(GsiSkMarker, NStr(indexName), default, extra, kwargs)
  }

  /** `Discriminator()`: the polymorphism marker. */
  function Discriminator(default: Default, extra: Option<map<string, Native>>, kwargs: map<string, Native>): FieldInfo
  {
    Mark(DiscriminatorMarker, NBool(true), default, extra, kwargs)
  }

  /** With no extras supplied, each marker's map holds its own entry and
      nothing else: `Key` never sets the sort-key entry, `SortKey` never the
      partition-key entry, and the two index markers never set each other's. */
  lemma MarkersSetOnlyTheirOwnEntry(n: string, d: Default, kw: map<string, Native>)
    ensures Key(d, None, kw).extra == map[PkMarker := NBool(true)]
    ensures SortKey(d, None, kw).extra == map[SkMarker := NBool(true)]
    ensures GSIKey(n, d, None, kw).extra == map[GsiPkMarker := NStr(n)]
    ensures GSISortKey(n, d, None, kw).extra == map[GsiSkMarker := NStr(n)]
    ensures Discriminator(d, None, kw).extra == map[DiscriminatorMarker := NBool(true)]
  {
  }

  /** Every marker keeps the caller's other extras and the default. */
  lemma MarkersKeepCallerExtras(n: string, d: Default, extra: map<string, Native>, kw: map<string, Native>, k: string)
    requires k in extra
    ensures k != PkMarker ==> Key(d, Some(extra), kw).extra[k] == extra[k]
    ensures k != SkMarker ==> SortKey(d, Some(extra), kw).extra[k] == extra[k]
    ensures k != GsiPkMarker ==> GSIKey(n, d, Some(extra), kw).extra[k] == extra[k]
    ensures k != GsiSkMarker ==> GSISortKey(n, d, Some(extra), kw).extra[k] == extra[k]
    ensures k != DiscriminatorMarker ==> Discriminator(d, Some(extra), kw).extra[k] == extra[k]
    ensures Key(d, Some(extra), kw).default == d && SortKey(d, Some(extra), kw).default == d
  {
  }
}
