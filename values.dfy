/** The two value universes the mapper moves between.

    `Native` is the Python side: the values a model's fields hold (None,
    bool, int, Decimal, str, bytes, set, list, dict, datetime, date,
    UUID, Enum members, and any other object).  `Wire` is DynamoDB's typed
    attribute-value format (`{"S": ...}`, `{"N": ...}`, ...). */
module Values {
  import opened Common

  newtype byte = x: int | 0 <= x < 256

  type Bytes = seq<byte>

  /** A decimal number `digits * 10^-scale`, keeping its written scale the
      way Python's `Decimal` keeps trailing zeros (`Decimal("2.50")`). */
  datatype Decimal = Decimal(digits: int, scale: nat)
  {
    /** `value % 1 == 0`. */
    predicate IsWhole()
    {
      digits % Pow10(scale) == 0
    }

    /** `int(value)` for a whole value. */
    function ToInt(): (i: int)
      requires IsWhole()
      ensures i * Pow10(scale) == digits
    {
      digits / Pow10(scale)
    }

    /** Python truthiness of a number: non-zero. */
    predicate NonZero()
    {
      digits != 0
    }
  }

  function Pow10(n: nat): (p: nat)
    ensures p >= 1
  {
    if n == 0 then 1 else 10 * Pow10(n - 1)
  }

  /** A UTC offset in seconds, strictly within one day as Python requires. */
  type Offset = x: int | -86400 < x < 86400

  /** A `datetime`: its naive ISO text (`YYYY-MM-DDTHH:MM:SS[.ffffff]`) and
      its UTC offset when it is timezone-aware. */
  datatype DateTime = DateTime(naiveIso: string, utcOffset: Option<Offset>)

  function Pad2(n: nat): (s: string)
    requires n < 100
    ensures |s| == 2
  {
    [Digit(n / 10), Digit(n % 10)]
  }

  /** The `+HH:MM` / `-HH:MM[:SS]` suffix `isoformat()` writes for an offset. */
  function OffsetText(off: Offset): (s: string)
    ensures |s| == 6 || |s| == 9
    ensures s[0] == (if off < 0 then '-' else '+')
  {
    var mag := if off < 0 then -off else off;
    var hh := mag / 3600;
    var mm := (mag % 3600) / 60;
    var ss := mag % 60;
    [if off < 0 then '-' else '+'] + Pad2(hh) + ":" + Pad2(mm)
      + (if ss != 0 then ":" + Pad2(ss) else "")
  }

  /** `datetime.isoformat()`: the naive text, then the offset if aware. */
  function IsoFormat(dt: DateTime): (s: string)
    ensures dt.utcOffset.None? ==> s == dt.naiveIso
    ensures dt.utcOffset.Some? ==> |s| > |dt.naiveIso| && s[..|dt.naiveIso|] == dt.naiveIso
  {
    match dt.utcOffset
    case None => dt.naiveIso
    case Some(off) => dt.naiveIso + OffsetText(off)
  }

  /** A Python value as the mapper sees it; `NOther` is any object of a class
      the serializer does not support.  Floats are not part of this model. */
  datatype Native =
    | NNone
    | NBool(b: bool)
    | NInt(i: int)
    | NDec(d: Decimal)
    | NStr(s: string)
    | NBytes(bytes: Bytes)
    | NSet(elems: set<Native>)
    | NList(items: seq<Native>)
    | NDict(entries: map<string, Native>)
    | NDateTime(dt: DateTime)
    | NDate(iso: string)
    | NUuid(text: string)
    | NEnum(enumType: string, enumValue: Native)
    | NOther(typeName: string)

  /** DynamoDB's attribute-value format. */
  datatype Wire =
    | S(s: string)
    | N(n: Decimal)
    | B(b: Bytes)
    | BOOL(flag: bool)
    | NULL
    | SS(strs: set<string>)
    | NS(nums: set<Decimal>)
    | BS(blobs: set<Bytes>)
    | L(list: seq<Wire>)
    | M(attrs: map<string, Wire>)

  /** Python's `bool(v)`: empty containers, zero, False and None are false;
      objects without a length or number protocol are true. */
  predicate Truthy(v: Native)
  {
    match v
    case NNone => false
    case NBool(b) => b
    case NInt(i) => i != 0
    case NDec(d) => d.NonZero()
    case NStr(s) => s != ""
    case NBytes(b) => b != []
    case NSet(e) => e != {}
    case NList(l) => l != []
    case NDict(m) => m != map[]
    case NDateTime(_) => true
    case NDate(_) => true
    case NUuid(_) => true
    case NEnum(_, _) => true
    case NOther(_) => true
  }

  /** `type(v).__name__`. */
  function TypeName(v: Native): (name: string)
    ensures v.NNone? ==> name == "NoneType"
    ensures v.NBool? ==> name == "bool"
    ensures v.NInt? ==> name == "int"
    ensures v.NDec? ==> name == "Decimal"
    ensures v.NStr? ==> name == "str"
    ensures v.NBytes? ==> name == "bytes"
    ensures v.NSet? ==> name == "set"
    ensures v.NList? ==> name == "list"
    ensures v.NDict? ==> name == "dict"
    ensures v.NDateTime? ==> name == "datetime"
    ensures v.NDate? ==> name == "date"
    ensures v.NUuid? ==> name == "UUID"
    ensures v.NEnum? ==> name == v.enumType
    ensures v.NOther? ==> name == v.typeName
  {
    match v
    case NNone => "NoneType"
    case NBool(_) => "bool"
    case NInt(_) => "int"
    case NDec(_) => "Decimal"
    case NStr(_) => "str"
    case NBytes(_) => "bytes"
    case NSet(_) => "set"
    case NList(_) => "list"
    case NDict(_) => "dict"
    case NDateTime(_) => "datetime"
    case NDate(_) => "date"
    case NUuid(_) => "UUID"
    case NEnum(t, _) => t
    case NOther(t) => t
  }

  /** `d.get(key)`: the entry, or `None` when absent. */
  function Get(d: map<string, Native>, key: string): (v: Native)
    ensures key in d ==> v == d[key]
    ensures key !in d ==> v == NNone
  {
    if key in d then d[key] else NNone
  }

  /** `isinstance(v, (int, Decimal))`; a bool is an int in Python. */
  predicate IsNumber(v: Native)
  {
    v.NBool? || v.NInt? || v.NDec?
  }
}
