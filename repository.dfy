/**
 * The repository: it asks the storage backend for rows and turns each row
 * into a fresh entity of the prototype's class by copying the row onto it
 * field by field.
 */
module Repository {
  import opened Values
  import opened Hydration
  import opened Storage

  /** The class the prototype is an instance of, with its declared property defaults. */
  datatype Prototype = Prototype(className: string, defaults: map<string, Value>)

  /** An instance of the prototype's class; its properties are assigned by name. */
  class Entity {
    const className: string
    var fields: map<string, Value>

    /** `new $class`: a fresh instance holding the class defaults. */
    constructor (prototype: Prototype)
      ensures className == prototype.className
      ensures fields == prototype.defaults
    {
      className := prototype.className;
      fields := prototype.defaults;
    }

    /** `$entity->$member = $value`, creating the property if the class lacks it. */
    method Assign(member: string, value: Value)
      modifies this
      ensures fields == old(fields)[member := value]
    {
      fields := fields[member := value];
    }
  }

  /** The field maps of a sequence of entities, in order. */
  ghost function FieldsOf(entities: seq<Entity>): (all: seq<map<string, Value>>)
    reads entities
    ensures |all| == |entities|
    ensures forall k :: 0 <= k < |entities| ==> all[k] == entities[k].fields
  {
    if entities == [] then []
    else FieldsOf(entities[..|entities| - 1]) + [entities[|entities| - 1].fields]
  }

  lemma FieldsOfSnoc(entities: seq<Entity>, entity: Entity)
    ensures FieldsOf(entities + [entity]) == FieldsOf(entities) + [entity.fields]
  {
    assert (entities + [entity])[..|entities|] == entities;
  }

  /**
   * Entities whose field maps are the hydrated rowset are one per row, the
   * entity at position k built from row k with that row's values copied.
   */
  lemma EntitiesMatchRowset(entities: seq<Entity>, defaults: map<string, Value>, rowset: seq<Row>)
    requires FieldsOf(entities) == HydrateAll(defaults, rowset)
    ensures |entities| == |rowset|
    ensures forall k :: 0 <= k < |rowset| ==> entities[k].fields == Hydrate(defaults, rowset[k])
    ensures forall k :: 0 <= k < |rowset| ==> CopiedFrom(entities[k].fields, defaults, rowset[k])
  {
    forall k | 0 <= k < |rowset|
      ensures entities[k].fields == Hydrate(defaults, rowset[k])
      ensures CopiedFrom(entities[k].fields, defaults, rowset[k])
    {
      assert FieldsOf(entities)[k] == entities[k].fields;
      RowValuesCopied(defaults, rowset[k]);
    }
  }

  /** Every entity is newly allocated, of the prototype's class, and no two are the same object. */
  twostate predicate FreshInstances(new entities: seq<Entity>, className: string)
  {
    && (forall k :: 0 <= k < |entities| ==> fresh(entities[k]) && entities[k].className == className)
    && (forall k, l :: 0 <= k < l < |entities| ==> entities[k] != entities[l])
  }

  twostate lemma FreshInstancesSnoc(new entities: seq<Entity>, new entity: Entity, className: string)
    requires FreshInstances(entities, className)
    requires fresh(entity) && entity.className == className && entity !in entities
    ensures FreshInstances(entities + [entity], className)
  {
  }

  class RepositoryAbstract {
    const storage: Storage
    const prototype: Prototype
    /** Name of the storage table; a subclass declares it. */
    const table: string
    /** Column `find` searches on; a subclass declares it. */
    const identifierColumn: string

    constructor (storage: Storage, prototype: Prototype, table: string, identifierColumn: string)
      ensures this.storage == storage && this.prototype == prototype
      ensures this.table == table && this.identifierColumn == identifierColumn
    {
      this.storage := storage;
      this.prototype := prototype;
      this.table := table;
      this.identifierColumn := identifierColumn;
    }

    /** A fresh instance of the prototype's class with every pair of `row` assigned to it. */
    method BuildEntity(row: Row) returns (entity: Entity)
      ensures fresh(entity) && entity.className == prototype.className
      ensures entity.fields == Hydrate(prototype.defaults, row)
    {
      entity := new Entity(prototype);
      for i := 0 to |row|
        invariant entity.fields == Hydrate(prototype.defaults, row[..i])
      {
        var (member, value) := row[i];
        entity.Assign(member, value);
        assert row[..i + 1][..i] == row[..i];
      }
      assert row[..|row|] == row;
    }

    /** One fresh entity per row, appended in row order. */
    method BuildEntities(rowset: seq<Row>) returns (entities: seq<Entity>)
      ensures FreshInstances(entities, prototype.className)
      ensures FieldsOf(entities) == HydrateAll(prototype.defaults, rowset)
      ensures |entities| == |rowset|
      ensures forall k :: 0 <= k < |rowset| ==> entities[k].fields == Hydrate(prototype.defaults, rowset[k])
      ensures forall k :: 0 <= k < |rowset| ==> CopiedFrom(entities[k].fields, prototype.defaults, rowset[k])
    {
      entities := [];
      for i := 0 to |rowset|
        invariant |entities| == i
        invariant FreshInstances(entities, prototype.className)
        invariant FieldsOf(entities) == HydrateAll(prototype.defaults, rowset[..i])
      {
        var entity := BuildEntity(rowset[i]);
        FieldsOfSnoc(entities, entity);
        FreshInstancesSnoc(entities, entity, prototype.className);
        assert HydrateAll(prototype.defaults, rowset[..i + 1])
            == HydrateAll(prototype.defaults, rowset[..i]) + [Hydrate(prototype.defaults, rowset[i])] by {
          assert rowset[..i + 1][..i] == rowset[..i];
        }
        entities := entities + [entity];
      }
      assert rowset[..|rowset|] == rowset;
      EntitiesMatchRowset(entities, prototype.defaults, rowset);
    }

    /** The entity for a row `find` returned, or null when that row is empty. */
    method BuildFound(found: Option<Row>) returns (entity: Entity?)
      ensures entity == null <==> IsEmptyRow(found)
      ensures entity != null ==> fresh(entity) && entity.className == prototype.className
      ensures entity != null ==> entity.fields == Hydrate(prototype.defaults, found.value)
      ensures entity != null ==> CopiedFrom(entity.fields, prototype.defaults, found.value)
    {
      if !IsEmptyRow(found) {
        entity := BuildEntity(found.value);
        RowValuesCopied(prototype.defaults, found.value);
      } else {
        entity := null;
      }
    }

    /** All entities of the table, one per stored row, in the storage's order. */
    method FetchAll() returns (entities: seq<Entity>, ghost rowset: seq<Row>)
      modifies storage
      ensures storage.calls == old(storage.calls) + [FetchAllCall(table, rowset)]
      ensures FreshInstances(entities, prototype.className)
      ensures FieldsOf(entities) == HydrateAll(prototype.defaults, rowset)
      ensures |entities| == |rowset|
      ensures forall k :: 0 <= k < |rowset| ==> entities[k].fields == Hydrate(prototype.defaults, rowset[k])
      ensures forall k :: 0 <= k < |rowset| ==> CopiedFrom(entities[k].fields, prototype.defaults, rowset[k])
    {
      var rows := storage.FetchAll(table);
      rowset := rows;
      entities := BuildEntities(rows);
    }

    /** The entities of the rows the storage matches against `criteria`, in its order. */
    method FetchAllBy(criteria: Criteria) returns (entities: seq<Entity>, ghost rowset: seq<Row>)
      modifies storage
      ensures storage.calls == old(storage.calls) + [FetchAllByCall(criteria, table, rowset)]
      ensures FreshInstances(entities, prototype.className)
      ensures FieldsOf(entities) == HydrateAll(prototype.defaults, rowset)
      ensures |entities| == |rowset|
      ensures forall k :: 0 <= k < |rowset| ==> entities[k].fields == Hydrate(prototype.defaults, rowset[k])
      ensures forall k :: 0 <= k < |rowset| ==> CopiedFrom(entities[k].fields, prototype.defaults, rowset[k])
    {
      var rows := storage.FetchAllBy(criteria, table);
      rowset := rows;
      entities := BuildEntities(rows);
    }

    /** The entity whose identifier column holds `identifier`, or null. */
    method Find(identifier: Value) returns (entity: Entity?, ghost found: Option<Row>)
      modifies storage
      ensures storage.calls == old(storage.calls) + [FindCall([(identifierColumn, identifier)], table, found)]
      ensures entity == null <==> IsEmptyRow(found)
      ensures entity != null ==> fresh(entity) && entity.className == prototype.className
      ensures entity != null ==> entity.fields == Hydrate(prototype.defaults, found.value)
      ensures entity != null ==> CopiedFrom(entity.fields, prototype.defaults, found.value)
    {
      var row := storage.Find([(identifierColumn, identifier)], table);
      found := row;
      entity := BuildFound(row);
    }

    /** The entity of the row the storage matches against `criteria`, or null. */
    method FindBy(criteria: Criteria) returns (entity: Entity?, ghost found: Option<Row>)
      modifies storage
      ensures storage.calls == old(storage.calls) + [FindCall(criteria, table, found)]
      ensures entity == null <==> IsEmptyRow(found)
      ensures entity != null ==> fresh(entity) && entity.className == prototype.className
      ensures entity != null ==> entity.fields == Hydrate(prototype.defaults, found.value)
      ensures entity != null ==> CopiedFrom(entity.fields, prototype.defaults, found.value)
    {
      var row := storage.Find(criteria, table);
      found := row;
      entity := BuildFound(row);
    }

    /** Hands `data` to the storage and answers the identifier the storage generated. */
    method Save(data: Row) returns (id: Value)
      modifies storage
      ensures storage.calls == old(storage.calls) + [SaveCall(data, table, id)]
    {
      id := storage.Save(data, table);
    }
  }
}
