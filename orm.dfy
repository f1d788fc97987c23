/**
 * The ORM metadata the repository reflects on, made explicit: a registry from
 * model name to the model's mapped properties in declaration order, and
 * entity instances as values (a model name and the instance's attribute
 * dictionary).
 */
module Orm {
  import opened Results

  type ModelName = string

  /** A mapped property: a column (recording whether its Python type is `str`) or a relationship. */
  datatype PropKind =
    | Column(isString: bool)
    | Relationship(target: ModelName, uselist: bool)

  datatype Property = Property(key: string, kind: PropKind)

  predicate DistinctKeys(props: seq<Property>)
  {
    forall i, j :: 0 <= i < j < |props| ==> props[i].key != props[j].key
  }

  /**
   * A mapper's properties, in declaration order. A mapper keys them by name,
   * so their names are unique (`DistinctKeys`); the results that depend on
   * this require it of the mapper they are about.
   */
  type Mapper = seq<Property>

  type Registry = map<ModelName, Mapper>

  /** The properties of a model; a name the registry does not know has none. */
  function PropsOf(reg: Registry, model: ModelName): Mapper
  {
    if model in reg then reg[model] else []
  }

  /** The kind of the property named `key`, if the properties declare one. */
  function FindProp(props: seq<Property>, key: string): (r: Option<PropKind>)
    ensures r.Some? ==> Property(key, r.value) in props
    ensures r.None? ==> forall i :: 0 <= i < |props| ==> props[i].key != key
  {
    if props == [] then None
    else if props[0].key == key then Some(props[0].kind)
    else FindProp(props[1..], key)
  }

  /** `hasattr(model_class, key)` for a mapped attribute. */
  predicate HasProp(reg: Registry, model: ModelName, key: string)
  {
    FindProp(PropsOf(reg, model), key).Some?
  }

  /** `mapper.relationships`, in declaration order. */
  function Relationships(props: seq<Property>): (rels: seq<Property>)
    ensures forall i :: 0 <= i < |rels| ==> rels[i].kind.Relationship? && rels[i] in props
    ensures forall p :: p in props && p.kind.Relationship? ==> p in rels
  {
    if props == [] then []
    else (if props[0].kind.Relationship? then [props[0]] else []) + Relationships(props[1..])
  }

  /**
   * A Python value as the repository sees it: scalars, plain dicts and lists
   * (input payloads, serialized entities), entity instances, and the
   * instrumented list an ORM keeps for a to-many relationship.
   */
  datatype Value =
    | Null
    | Int(i: int)
    | Bool(b: bool)
    | Str(s: string)
    | Dict(entries: map<string, Value>)
    | List(items: seq<Value>)
    | Ent(entity: Entity)
    | Coll(members: seq<Value>)

  /** An entity instance: its model and its attribute dictionary (`__dict__`). */
  datatype Entity = Entity(model: ModelName, fields: map<string, Value>)

  /** A freshly instantiated model: no attribute has been loaded or set. */
  function Blank(model: ModelName): Entity
  {
    Entity(model, map[])
  }

  /** Reading an attribute: an unset column or to-one relationship reads as `None`. */
  function FieldValue(e: Entity, key: string): Value
  {
    if key in e.fields then e.fields[key] else Null
  }
}
