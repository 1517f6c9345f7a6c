/** Model metadata (dynantic/config.py): index definitions, the options a
    model class carries, and the discriminator registry a polymorphic base
    shares with its subclasses.  Classes are identified by name. */
module Config {
  import opened Common
  import opened Errors

  /** A global secondary index as the model declares it. */
  datatype GSIDefinition = GSIDefinition(
    indexName: string,
    pkName: string,
    pkType: string,
    skName: Option<string>,
    skType: string,
    projectionType: string)

  /** `GSIDefinition(index_name, pk_name, sk_name=...)` with the other
      fields at their defaults. */
  function NewGSIDefinition(indexName: string, pkName: string, skName: Option<string>): (g: GSIDefinition)
    ensures g.indexName == indexName && g.pkName == pkName && g.skName == skName
    ensures g.pkType == "S" && g.skType == "S" && g.projectionType == "ALL"
  {
    GSIDefinition(indexName, pkName, "S", skName, "S", "ALL")
  }

  /** The refusal of a discriminator value that `owner` already holds. */
  function AlreadyRegistered(value: string, owner: string, className: string): Error
  {
    ValueError("Discriminator value '" + value + "' is already registered to "
               + owner + ", cannot register " + className)
  }

  /** The discriminator registry: discriminator value to class name.  One
      registry object is shared by a polymorphic base and every subclass
      registered on it. */
  class EntityRegistry {
    var entries: map<string, string>

    constructor ()
      ensures entries == map[]
    {
      entries := map[];
    }

    /** `register_entity`: refuses a value that is already taken, naming its
        owner, and leaves the registry as it was; otherwise adds exactly that
        one mapping. */
    method Register(value: string, className: string) returns (r: Result<(), Error>)
      modifies this
      ensures value in old(entries) ==>
        r == Err(AlreadyRegistered(value, old(entries)[value], className)) && entries == old(entries)
      ensures value !in old(entries) ==> r == Ok(()) && entries == old(entries)[value := className]
    {
      if value in entries {
        var existing := entries[value];
        return Err(AlreadyRegistered(value, existing, className));
      }
      entries := entries[value := className];
      return Ok(());
    }
  }

  const DefaultRegion: string := "us-east-1"

  /** `ModelOptions`: the metadata of one model class. */
  datatype ModelOptions = ModelOptions(
    tableName: string,
    pkName: string,
    skName: Option<string>,
    region: string,
    gsiDefinitions: map<string, GSIDefinition>,
    discriminatorField: Option<string>,
    registry: EntityRegistry,
    isBaseEntity: bool,
    parentModel: Option<string>,
    discriminatorValue: Option<string>)
  {
    /** `get_gsi`. */
    function GetGsi(indexName: string): (g: Option<GSIDefinition>)
      ensures g.Some? <==> HasGsi(indexName)
      ensures g.Some? ==> g.value == gsiDefinitions[indexName]
    {
      if indexName in gsiDefinitions then Some(gsiDefinitions[indexName]) else None
    }

    /** `has_gsi`. */
    predicate HasGsi(indexName: string)
    {
      indexName in gsiDefinitions
    }

    /** `is_polymorphic`: the model has a discriminator field. */
    predicate IsPolymorphic()
    {
      discriminatorField.Some?
    }

    /** `get_entity_class`: the class registered for a value, if any. */
    function GetEntityClass(value: string): (c: Option<string>)
      reads registry
      ensures c.Some? <==> value in registry.entries
      ensures c.Some? ==> c.value == registry.entries[value]
    {
      if value in registry.entries then Some(registry.entries[value]) else None
    }

    /** `register_entity`, on the registry these options share. */
    method RegisterEntity(value: string, className: string) returns (r: Result<(), Error>)
      modifies registry
      ensures value in old(registry.entries) ==>
        r == Err(AlreadyRegistered(value, old(registry.entries)[value], className))
        && registry.entries == old(registry.entries)
      ensures value !in old(registry.entries) ==>
        r.Ok? && registry.entries == old(registry.entries)[value := className]
      ensures GetEntityClass(value).Some?
      ensures r.Ok? ==> GetEntityClass(value) == Some(className)
    {
      r := registry.Register(value, className);
    }
  }

  /** `ModelOptions(table_name, pk_name)`: every other option at its
      default, with a new empty registry. */
  method NewModelOptions(tableName: string, pkName: string) returns (m: ModelOptions)
    ensures fresh(m.registry) && m.registry.entries == map[]
    ensures m.tableName == tableName && m.pkName == pkName
    ensures m.skName == None && m.region == DefaultRegion && m.gsiDefinitions == map[]
    ensures m.discriminatorField == None && !m.isBaseEntity
    ensures m.parentModel == None && m.discriminatorValue == None
  {
    var registry := new EntityRegistry();
    m := ModelOptions(tableName, pkName, None, DefaultRegion, map[], None, registry, false, None, None);
  }
}
