/**
 * The two object mappers of `SqlAlchemyRepository`
 * (`src/common/repositories/sqlalchemy/repository.py`):
 *
 *  - `_pydantic_to_model`, a recursive partial-update merge of an input
 *    mapping into an entity graph, with to-many lists aligned by position;
 *  - `_model_to_dict`, which turns an entity into its attribute dictionary
 *    with nested entities and instrumented lists rewritten as plain data.
 *
 * Each is given as a recursive specification function and as a method with
 * the source's loops, proved equal to it.
 */
module ObjectMapper {
  import opened Results
  import opened Orm

  // ---------------------------------------------------------------------------
  // _pydantic_to_model: specification

  /** The exceptions the merge can raise on ill-shaped data. */
  datatype MergeError =
    | NotAMapping   // `obj_in.pop(name)` on an input that is not a dict
    | NotAnEntity   // `inspect(...)` on a merge target that is not a model instance
    | NotAList      // `len(attr)` on a to-many attribute that is not a list

  /** What is merged into: a model class (instantiated first) or an existing instance. */
  datatype Target = ModelClass(model: ModelName) | Instance(entity: Entity)

  function Instantiate(t: Target): Entity
  {
    match t
    case ModelClass(m) => Blank(m)
    case Instance(e) => e
  }

  /** The input items of a to-many relationship: a list's items, or a single object wrapped in a list. */
  function Items(rv: Value): (items: seq<Value>)
    ensures forall i :: 0 <= i < |items| ==> items[i] < rv || items[i] == rv
    ensures !rv.List? ==> items == [rv]
  {
    if rv.List? then rv.items else [rv]
  }

  /** The relationships of the model an entity belongs to, in mapper order. */
  function RelsOf(reg: Registry, e: Entity): seq<Property>
  {
    Relationships(PropsOf(reg, e.model))
  }

  /**
   * `_pydantic_to_model(obj_in, model)`: a non-mapping input is accepted only
   * by a model without relationships (and then changes nothing); a mapping
   * has its relationship entries merged first, then every key the mapper
   * knows is assigned.
   */
  function Merge(reg: Registry, input: Value, target: Target): (r: Result<Entity, MergeError>)
    ensures r.Ok? ==> r.value.model == Instantiate(target).model
    decreases input, 1, 0
  {
    var e := Instantiate(target);
    if !input.Dict? then
      if RelsOf(reg, e) == [] then Ok(e) else Err(NotAMapping)
    else
      var d :- MergeRelations(reg, input, e, |RelsOf(reg, e)|);
      Ok(Assign(reg, e, d))
  }

  /**
   * The relationship loop over the first `k` relationships: each one named in
   * the input has its input entry replaced by the merged value; the first
   * failure aborts the loop.
   */
  function MergeRelations(reg: Registry, input: Value, e: Entity, k: nat): (r: Result<map<string, Value>, MergeError>)
    requires input.Dict? && k <= |RelsOf(reg, e)|
    ensures r.Ok? ==> r.value.Keys == input.entries.Keys
    decreases input, 0, k
  {
    if k == 0 then Ok(input.entries)
    else
      var d :- MergeRelations(reg, input, e, k - 1);
      var rel := RelsOf(reg, e)[k - 1];
      if rel.key !in input.entries then Ok(d)
      else
        var v :- MergeRelation(reg, input.entries[rel.key], FieldValue(e, rel.key), rel.kind);
        Ok(d[rel.key := v])
  }

  /** The value a to-many attribute starts from: `None` reads as an empty list. */
  function ExistingList(v: Value): Result<seq<Value>, MergeError>
  {
    match v
    case Null => Ok([])
    case Coll(ms) => Ok(ms)
    case _ => Err(NotAList)
  }

  /** The instance a to-one attribute is merged into: `None` becomes a fresh instance of the target. */
  function ExistingEntity(v: Value, target: ModelName): Result<Entity, MergeError>
  {
    match v
    case Null => Ok(Blank(target))
    case Ent(x) => Ok(x)
    case _ => Err(NotAnEntity)
  }

  /** One relationship entry `rv` merged into the attribute's current value. */
  function MergeRelation(reg: Registry, rv: Value, existing: Value, kind: PropKind): (r: Result<Value, MergeError>)
    requires kind.Relationship?
    ensures r.Ok? ==> if kind.uselist then r.value.Coll? else r.value.Ent?
    decreases rv, 3, 0
  {
    if kind.uselist then
      var attr :- ExistingList(existing);
      var merged :- MergeMany(reg, rv, attr, kind.target, |Items(rv)|);
      Ok(Coll(merged))
    else
      var attr :- ExistingEntity(existing, kind.target);
      var m :- Merge(reg, rv, Instance(attr));
      Ok(Ent(m))
  }

  /**
   * The to-many loop after its first `k` input items: an item at a position
   * the existing list covers is merged into the element there, any other is
   * merged into a new instance of the target and appended.
   */
  function MergeMany(reg: Registry, rv: Value, existing: seq<Value>, target: ModelName, k: nat): (r: Result<seq<Value>, MergeError>)
    requires k <= |Items(rv)|
    ensures r.Ok? ==> |r.value| == if k <= |existing| then |existing| else k
    decreases rv, 2, k
  {
    if k == 0 then Ok(existing)
    else
      var acc :- MergeMany(reg, rv, existing, target, k - 1);
      var i := k - 1;
      var item := Items(rv)[i];
      if i < |existing| then
        match acc[i]
        case Ent(x) =>
          var m :- Merge(reg, item, Instance(x));
          Ok(acc[i := Ent(m)])
        case _ => Err(NotAnEntity)
      else
        var m :- Merge(reg, item, ModelClass(target));
        Ok(acc + [Ent(m)])
  }

  /** The entries of `d` among `keys` that name a property of model `m`. */
  function Known(reg: Registry, m: ModelName, d: map<string, Value>, keys: set<string>): map<string, Value>
  {
    map k | k in keys && k in d && HasProp(reg, m, k) :: d[k]
  }

  /** The `setattr` pass: each key the mapper knows takes its input value; other keys are ignored. */
  function Assign(reg: Registry, e: Entity, d: map<string, Value>): (r: Entity)
    ensures r.model == e.model
  {
    Entity(e.model, e.fields + Known(reg, e.model, d, d.Keys))
  }

  /**
   * The `setattr` pass sets exactly the input keys the mapper knows, to their
   * input values, and leaves every other attribute as it was.
   */
  lemma {:induction false} AssignSetsKnownKeys(reg: Registry, e: Entity, d: map<string, Value>)
    ensures var r := Assign(reg, e, d);
            && (forall k :: k in r.fields <==> k in e.fields || (k in d && HasProp(reg, e.model, k)))
            && (forall k :: k in d && HasProp(reg, e.model, k) ==> r.fields[k] == d[k])
            && (forall k :: k in e.fields && !(k in d && HasProp(reg, e.model, k)) ==> r.fields[k] == e.fields[k])
  {
  }

  // ---------------------------------------------------------------------------
  // _pydantic_to_model: the loops

  /** `_pydantic_to_model`, walking the relationships and then the input keys as the source does. */
  method PydanticToModel(reg: Registry, input: Value, target: Target) returns (r: Result<Entity, MergeError>)
    ensures r == Merge(reg, input, target)
    decreases input, 1, 0
  {
    var e := Instantiate(target);
    if !input.Dict? {
      NonMappingInput(reg, input, target);
      if RelsOf(reg, e) != [] {
        return Err(NotAMapping);
      }
      return Ok(e);
    }
    var entries := MergeRelationsM(reg, input, e);
    if entries.Err? {
      return Err(entries.error);
    }
    var out := SetAttributes(reg, e, entries.value);
    MergeOfMapping(reg, input, target, entries.value);
    r := Ok(out);
    assert r == Ok(Assign(reg, e, entries.value));
  }

  /** The relationship loop of `_pydantic_to_model`: each relationship the input names has its entry replaced by the merged value. */
  method MergeRelationsM(reg: Registry, input: Value, e: Entity) returns (r: Result<map<string, Value>, MergeError>)
    requires input.Dict?
    ensures r == MergeRelations(reg, input, e, |RelsOf(reg, e)|)
    decreases input, 0, 0
  {
    var rels := RelsOf(reg, e);
    // Relationship names are distinct, so the entry popped for a relationship
    // is still the input's own entry.
    var entries := input.entries;
    for i := 0 to |rels|
      invariant MergeRelations(reg, input, e, i) == Ok(entries)
    {
      var rel := rels[i];
      if rel.key !in input.entries {
        MergeRelationsSkip(reg, input, e, i, entries);
        continue;
      }
      var v := MergeRelationM(reg, input.entries[rel.key], FieldValue(e, rel.key), rel.kind);
      MergeRelationsTake(reg, input, e, i, entries, v);
      if v.Err? {
        return Err(v.error);
      }
      entries := entries[rel.key := v.value];
    }
    return Ok(entries);
  }

  /** The relationship branch of the loop, with the countdown `length` of the to-many case. */
  method MergeRelationM(reg: Registry, rv: Value, existing: Value, kind: PropKind) returns (r: Result<Value, MergeError>)
    requires kind.Relationship?
    ensures r == MergeRelation(reg, rv, existing, kind)
    decreases rv, 3, 0
  {
    if !kind.uselist {
      var attr := ExistingEntity(existing, kind.target);
      if attr.Err? {
        return Err(attr.error);
      }
      var m := PydanticToModel(reg, rv, Instance(attr.value));
      MergeToOne(reg, rv, existing, kind, m);
      if m.Err? {
        return Err(m.error);
      }
      return Ok(Ent(m.value));
    }
    var attr := ExistingList(existing);
    if attr.Err? {
      return Err(attr.error);
    }
    var merged := MergeManyM(reg, rv, attr.value, kind.target);
    MergeToMany(reg, rv, existing, kind, merged);
    if merged.Err? {
      return Err(merged.error);
    }
    return Ok(Coll(merged.value));
  }

  /** The to-one branch of `MergeRelation`, once the existing instance is known and merged into. */
  lemma {:induction false} MergeToOne(reg: Registry, rv: Value, existing: Value, kind: PropKind, m: Result<Entity, MergeError>)
    requires kind.Relationship? && !kind.uselist
    requires ExistingEntity(existing, kind.target).Ok?
    requires m == Merge(reg, rv, Instance(ExistingEntity(existing, kind.target).value))
    ensures MergeRelation(reg, rv, existing, kind) == if m.Ok? then Ok(Ent(m.value)) else Err(m.error)
  {
  }

  /** The to-many branch of `MergeRelation`, once the existing list is known and the loop has run. */
  lemma {:induction false} MergeToMany(reg: Registry, rv: Value, existing: Value, kind: PropKind, merged: Result<seq<Value>, MergeError>)
    requires kind.Relationship? && kind.uselist
    requires ExistingList(existing).Ok?
    requires merged == MergeMany(reg, rv, ExistingList(existing).value, kind.target, |Items(rv)|)
    ensures MergeRelation(reg, rv, existing, kind) == if merged.Ok? then Ok(Coll(merged.value)) else Err(merged.error)
  {
  }

  /** The to-many loop: `length` counts down the existing elements not yet merged into. */
  method MergeManyM(reg: Registry, rv: Value, original: seq<Value>, target: ModelName) returns (r: Result<seq<Value>, MergeError>)
    ensures r == MergeMany(reg, rv, original, target, |Items(rv)|)
    decreases rv, 2, 0
  {
    var attr := original;
    var items := Items(rv);
    var length := |attr|;
    for idx := 0 to |items|
      invariant length == |original| - idx
      invariant MergeMany(reg, rv, original, target, idx) == Ok(attr)
    {
      assert items[idx] < rv || items[idx] == rv;
      if length > 0 {
        if !attr[idx].Ent? {
          MergeManyNotEntity(reg, rv, original, target, idx, attr);
          return Err(NotAnEntity);
        }
        var m := PydanticToModel(reg, items[idx], Instance(attr[idx].entity));
        MergeManyInto(reg, rv, original, target, idx, attr, m);
        if m.Err? {
          return Err(m.error);
        }
        attr := attr[idx := Ent(m.value)];
      } else {
        var m := PydanticToModel(reg, items[idx], ModelClass(target));
        MergeManyAppend(reg, rv, original, target, idx, attr, m);
        if m.Err? {
          return Err(m.error);
        }
        attr := attr + [Ent(m.value)];
      }
      length := length - 1;
    }
    return Ok(attr);
  }

  /** The final `for field, value in obj_in.items()` loop with its `setattr` calls. */
  method SetAttributes(reg: Registry, e: Entity, d: map<string, Value>) returns (r: Entity)
    ensures r == Assign(reg, e, d)
  {
    var fields := e.fields;
    var pending := d.Keys;
    ghost var done: set<string> := {};
    while pending != {}
      invariant pending <= d.Keys && done == d.Keys - pending
      invariant fields == e.fields + Known(reg, e.model, d, done)
      decreases pending
    {
      var k :| k in pending;
      KnownGrows(reg, e.model, d, done, k);
      if HasProp(reg, e.model, k) {
        UnionUpdate(e.fields, Known(reg, e.model, d, done), k, d[k]);
        fields := fields[k := d[k]];
      }
      pending := pending - {k};
      done := done + {k};
    }
    assert done == d.Keys;
    r := Entity(e.model, fields);
  }

  lemma {:induction false} UnionUpdate(a: map<string, Value>, b: map<string, Value>, k: string, v: Value)
    ensures (a + b)[k := v] == a + b[k := v]
  {
  }

  lemma {:induction false} KnownGrows(reg: Registry, m: ModelName, d: map<string, Value>, done: set<string>, k: string)
    requires k in d
    ensures Known(reg, m, d, done + {k}) ==
            if HasProp(reg, m, k) then Known(reg, m, d, done)[k := d[k]] else Known(reg, m, d, done)
  {
  }

  /** One pass of the relationship loop, unfolded. */
  lemma {:induction false} MergeRelationsStep(reg: Registry, input: Value, e: Entity, i: nat, d: map<string, Value>)
    requires input.Dict? && i < |RelsOf(reg, e)|
    requires MergeRelations(reg, input, e, i) == Ok(d)
    ensures var rel := RelsOf(reg, e)[i];
            MergeRelations(reg, input, e, i + 1) ==
              if rel.key !in input.entries then Ok(d)
              else match MergeRelation(reg, input.entries[rel.key], FieldValue(e, rel.key), rel.kind)
                case Err(err) => Err(err)
                case Ok(v) => Ok(d[rel.key := v])
  {
  }

  /** A pass of the relationship loop over a relationship the input does not mention. */
  lemma {:induction false} MergeRelationsSkip(reg: Registry, input: Value, e: Entity, i: nat, d: map<string, Value>)
    requires input.Dict? && i < |RelsOf(reg, e)|
    requires MergeRelations(reg, input, e, i) == Ok(d)
    requires RelsOf(reg, e)[i].key !in input.entries
    ensures MergeRelations(reg, input, e, i + 1) == Ok(d)
  {
  }

  /**
   * A pass of the relationship loop over a relationship the input gives, whose
   * merge yields `v`: a failed merge is the loop's result.
   */
  lemma {:induction false} MergeRelationsTake(reg: Registry, input: Value, e: Entity, i: nat, d: map<string, Value>,
                                              v: Result<Value, MergeError>)
    requires input.Dict? && i < |RelsOf(reg, e)|
    requires MergeRelations(reg, input, e, i) == Ok(d)
    requires var rel := RelsOf(reg, e)[i];
             rel.key in input.entries && v == MergeRelation(reg, input.entries[rel.key], FieldValue(e, rel.key), rel.kind)
    ensures v.Ok? ==> MergeRelations(reg, input, e, i + 1) == Ok(d[RelsOf(reg, e)[i].key := v.value])
    ensures v.Err? ==> MergeRelations(reg, input, e, |RelsOf(reg, e)|) == Err(v.error)
  {
    if v.Err? {
      assert MergeRelations(reg, input, e, i + 1) == Err(v.error);
      MergeRelationsErrSticks(reg, input, e, i + 1, |RelsOf(reg, e)|);
    }
  }

  /** A mapping input whose relationship loop succeeds is merged by assigning the loop's result. */
  lemma {:induction false} MergeOfMapping(reg: Registry, input: Value, target: Target, d: map<string, Value>)
    requires input.Dict?
    requires MergeRelations(reg, input, Instantiate(target), |RelsOf(reg, Instantiate(target))|) == Ok(d)
    ensures Merge(reg, input, target) == Ok(Assign(reg, Instantiate(target), d))
  {
  }

  /** One pass of the to-many loop, unfolded. */
  lemma {:induction false} MergeManyStep(reg: Registry, rv: Value, existing: seq<Value>, target: ModelName, i: nat, acc: seq<Value>)
    requires i < |Items(rv)|
    requires MergeMany(reg, rv, existing, target, i) == Ok(acc)
    ensures MergeMany(reg, rv, existing, target, i + 1) ==
              if i < |existing| then
                if acc[i].Ent? then
                  match Merge(reg, Items(rv)[i], Instance(acc[i].entity))
                  case Err(err) => Err(err)
                  case Ok(m) => Ok(acc[i := Ent(m)])
                else Err(NotAnEntity)
              else
                match Merge(reg, Items(rv)[i], ModelClass(target))
                case Err(err) => Err(err)
                case Ok(m) => Ok(acc + [Ent(m)])
  {
  }

  /** A pass of the to-many loop over an existing element that is not an instance fails the loop. */
  lemma {:induction false} MergeManyNotEntity(reg: Registry, rv: Value, existing: seq<Value>, target: ModelName, i: nat, acc: seq<Value>)
    requires i < |Items(rv)| && i < |existing|
    requires MergeMany(reg, rv, existing, target, i) == Ok(acc)
    requires !acc[i].Ent?
    ensures MergeMany(reg, rv, existing, target, |Items(rv)|) == Err(NotAnEntity)
  {
    MergeManyStep(reg, rv, existing, target, i, acc);
    MergeManyErrSticks(reg, rv, existing, target, i + 1, |Items(rv)|);
  }

  /** A pass of the to-many loop that merges item `i` into the existing instance, yielding `m`. */
  lemma {:induction false} MergeManyInto(reg: Registry, rv: Value, existing: seq<Value>, target: ModelName, i: nat, acc: seq<Value>,
                                         m: Result<Entity, MergeError>)
    requires i < |Items(rv)| && i < |existing|
    requires MergeMany(reg, rv, existing, target, i) == Ok(acc)
    requires acc[i].Ent? && m == Merge(reg, Items(rv)[i], Instance(acc[i].entity))
    ensures m.Ok? ==> MergeMany(reg, rv, existing, target, i + 1) == Ok(acc[i := Ent(m.value)])
    ensures m.Err? ==> MergeMany(reg, rv, existing, target, |Items(rv)|) == Err(m.error)
  {
    MergeManyStep(reg, rv, existing, target, i, acc);
    if m.Err? {
      MergeManyErrSticks(reg, rv, existing, target, i + 1, |Items(rv)|);
    }
  }

  /** A pass of the to-many loop past the existing elements, appending the new instance `m`. */
  lemma {:induction false} MergeManyAppend(reg: Registry, rv: Value, existing: seq<Value>, target: ModelName, i: nat, acc: seq<Value>,
                                           m: Result<Entity, MergeError>)
    requires |existing| <= i < |Items(rv)|
    requires MergeMany(reg, rv, existing, target, i) == Ok(acc)
    requires m == Merge(reg, Items(rv)[i], ModelClass(target))
    ensures m.Ok? ==> MergeMany(reg, rv, existing, target, i + 1) == Ok(acc + [Ent(m.value)])
    ensures m.Err? ==> MergeMany(reg, rv, existing, target, |Items(rv)|) == Err(m.error)
  {
    MergeManyStep(reg, rv, existing, target, i, acc);
    if m.Err? {
      MergeManyErrSticks(reg, rv, existing, target, i + 1, |Items(rv)|);
    }
  }

  /** `MergeManyStep` for the step that ends at `k`. */
  lemma {:induction false} MergeManyLast(reg: Registry, rv: Value, existing: seq<Value>, target: ModelName, k: nat, acc: seq<Value>)
    requires 0 < k <= |Items(rv)|
    requires MergeMany(reg, rv, existing, target, k - 1) == Ok(acc)
    ensures MergeMany(reg, rv, existing, target, k) ==
              if k - 1 < |existing| then
                if acc[k - 1].Ent? then
                  match Merge(reg, Items(rv)[k - 1], Instance(acc[k - 1].entity))
                  case Err(err) => Err(err)
                  case Ok(m) => Ok(acc[k - 1 := Ent(m)])
                else Err(NotAnEntity)
              else
                match Merge(reg, Items(rv)[k - 1], ModelClass(target))
                case Err(err) => Err(err)
                case Ok(m) => Ok(acc + [Ent(m)])
  {
    MergeManyStep(reg, rv, existing, target, k - 1, acc);
  }

  /** Once the relationship loop has failed, later relationships do not change the error. */
  lemma {:induction false} MergeRelationsErrSticks(reg: Registry, input: Value, e: Entity, j: nat, k: nat)
    requires input.Dict? && j <= k <= |RelsOf(reg, e)|
    requires MergeRelations(reg, input, e, j).Err?
    ensures MergeRelations(reg, input, e, k) == MergeRelations(reg, input, e, j)
    decreases k - j
  {
    if j < k {
      assert MergeRelations(reg, input, e, j + 1) == MergeRelations(reg, input, e, j);
      MergeRelationsErrSticks(reg, input, e, j + 1, k);
    }
  }

  /** Once the to-many loop has failed, later items do not change the error. */
  lemma {:induction false} MergeManyErrSticks(reg: Registry, rv: Value, existing: seq<Value>, target: ModelName, j: nat, k: nat)
    requires j <= k <= |Items(rv)|
    requires MergeMany(reg, rv, existing, target, j).Err?
    ensures MergeMany(reg, rv, existing, target, k) == MergeMany(reg, rv, existing, target, j)
    decreases k - j
  {
    if j < k {
      assert MergeMany(reg, rv, existing, target, j + 1) == MergeMany(reg, rv, existing, target, j);
      MergeManyErrSticks(reg, rv, existing, target, j + 1, k);
    }
  }

  // ---------------------------------------------------------------------------
  // _pydantic_to_model: properties

  /**
   * How the input item at position `i` of a to-many list is merged when the
   * attribute held `existing`: into the element at `i` when there is one,
   * otherwise into a new instance of the target.
   */
  function ItemMerge(reg: Registry, rv: Value, existing: seq<Value>, target: ModelName, i: nat): Result<Entity, MergeError>
    requires i < |Items(rv)|
  {
    if i < |existing| then
      if existing[i].Ent? then Merge(reg, Items(rv)[i], Instance(existing[i].entity)) else Err(NotAnEntity)
    else Merge(reg, Items(rv)[i], ModelClass(target))
  }

  /**
   * The to-many alignment rule. After the first `k` input items, the list
   * succeeds exactly when every item merge succeeds, and then it has length
   * max(n, k): each of the first k positions holds its item's merge (onto the
   * existing element below n, onto a new instance from n on) and every
   * existing element from position k on is unchanged. On failure the error is
   * that of the first failing item.
   */
  lemma {:induction false} ToManyAlignment(reg: Registry, rv: Value, existing: seq<Value>, target: ModelName, k: nat)
    requires k <= |Items(rv)|
    ensures var r := MergeMany(reg, rv, existing, target, k);
            && (r.Ok? <==> forall i :: 0 <= i < k ==> ItemMerge(reg, rv, existing, target, i).Ok?)
            && (r.Ok? ==>
                  && |r.value| == (if k <= |existing| then |existing| else k)
                  && (forall i :: 0 <= i < k ==> r.value[i] == Ent(ItemMerge(reg, rv, existing, target, i).value))
                  && (forall i :: k <= i < |existing| ==> r.value[i] == existing[i]))
            && (r.Err? ==> exists j :: 0 <= j < k && ItemMerge(reg, rv, existing, target, j) == Err(r.error)
                              && forall i :: 0 <= i < j ==> ItemMerge(reg, rv, existing, target, i).Ok?)
  {
    ToManyLayout(reg, rv, existing, target, k);
    ToManyFirstError(reg, rv, existing, target, k);
  }

  lemma {:induction false} ToManyLayout(reg: Registry, rv: Value, existing: seq<Value>, target: ModelName, k: nat)
    requires k <= |Items(rv)|
    ensures var r := MergeMany(reg, rv, existing, target, k);
            && (r.Ok? <==> forall i :: 0 <= i < k ==> ItemMerge(reg, rv, existing, target, i).Ok?)
            && (r.Ok? ==>
                  && (forall i :: 0 <= i < k ==> r.value[i] == Ent(ItemMerge(reg, rv, existing, target, i).value))
                  && (forall i :: k <= i < |existing| ==> r.value[i] == existing[i]))
    decreases k
  {
    if k > 0 {
      var i := k - 1;
      ToManyLayout(reg, rv, existing, target, i);
      var prev := MergeMany(reg, rv, existing, target, i);
      var r := MergeMany(reg, rv, existing, target, k);
      if prev.Ok? {
        var acc := prev.value;
        MergeManyLast(reg, rv, existing, target, k, acc);
        assert i < |existing| ==> acc[i] == existing[i];
        var im := ItemMerge(reg, rv, existing, target, i);
        if im.Ok? {
          assert r == Ok(if i < |existing| then acc[i := Ent(im.value)] else acc + [Ent(im.value)]);
        } else {
          assert r == Err(im.error);
        }
      } else {
        assert r == prev;
      }
    }
  }

  lemma {:induction false} ToManyFirstError(reg: Registry, rv: Value, existing: seq<Value>, target: ModelName, k: nat)
    requires k <= |Items(rv)|
    ensures var r := MergeMany(reg, rv, existing, target, k);
            r.Err? ==> exists j :: 0 <= j < k && ItemMerge(reg, rv, existing, target, j) == Err(r.error)
                          && forall i :: 0 <= i < j ==> ItemMerge(reg, rv, existing, target, i).Ok?
    decreases k
  {
    if k > 0 {
      var i := k - 1;
      var prev := MergeMany(reg, rv, existing, target, i);
      var r := MergeMany(reg, rv, existing, target, k);
      if prev.Ok? {
        ToManyLayout(reg, rv, existing, target, i);
        MergeManyLast(reg, rv, existing, target, k, prev.value);
        if r.Err? {
          assert ItemMerge(reg, rv, existing, target, i) == Err(r.error);
        }
      } else {
        ToManyFirstError(reg, rv, existing, target, i);
        assert r == prev;
      }
    }
  }

  /** With no existing list, every input item becomes a new instance of the target, in input order. */
  lemma {:induction false} EmptyListAppendsAll(reg: Registry, rv: Value, target: ModelName)
    requires MergeMany(reg, rv, [], target, |Items(rv)|).Ok?
    ensures var out := MergeMany(reg, rv, [], target, |Items(rv)|).value;
            && |out| == |Items(rv)|
            && forall i :: 0 <= i < |out| ==> out[i].Ent? && Merge(reg, Items(rv)[i], ModelClass(target)) == Ok(out[i].entity)
  {
    ToManyAlignment(reg, rv, [], target, |Items(rv)|);
  }

  /** The to-many loop sees its input only through the item list. */
  lemma {:induction false} MergeManyUsesItems(reg: Registry, rv1: Value, rv2: Value, existing: seq<Value>, target: ModelName, k: nat)
    requires Items(rv1) == Items(rv2) && k <= |Items(rv1)|
    ensures MergeMany(reg, rv1, existing, target, k) == MergeMany(reg, rv2, existing, target, k)
    decreases k
  {
    if k > 0 {
      MergeManyUsesItems(reg, rv1, rv2, existing, target, k - 1);
    }
  }

  /** A single object given for a to-many relationship is merged as a one-element list. */
  lemma {:induction false} SingleObjectIsWrapped(reg: Registry, rv: Value, existing: Value, kind: PropKind)
    requires kind.Relationship? && kind.uselist && !rv.List?
    ensures MergeRelation(reg, rv, existing, kind) == MergeRelation(reg, List([rv]), existing, kind)
  {
    if ExistingList(existing).Ok? {
      MergeManyUsesItems(reg, rv, List([rv]), ExistingList(existing).value, kind.target, 1);
    }
  }

  /** A to-one relationship that is unset is merged into a fresh instance of its target. */
  lemma {:induction false} MissingToOneStartsBlank(reg: Registry, rv: Value, target: ModelName)
    ensures var r := MergeRelation(reg, rv, Null, Relationship(target, false));
            var m := Merge(reg, rv, ModelClass(target));
            && (r.Ok? <==> m.Ok?)
            && (r.Ok? ==> r.value == Ent(m.value))
  {
  }

  /**
   * `None` given for a to-one relationship never clears it: the related
   * instance is kept as it was, or the merge fails when the target model has
   * relationships of its own.
   */
  lemma {:induction false} NullNeverClearsToOne(reg: Registry, x: Entity, target: ModelName)
    ensures var r := MergeRelation(reg, Null, Ent(x), Relationship(target, false));
            (r.Ok? ==> r.value == Ent(x)) && (r.Err? <==> RelsOf(reg, x) != [])
  {
  }

  /** Relationships of a mapper have distinct names. */
  lemma {:induction false} RelationshipsDistinct(props: seq<Property>)
    requires DistinctKeys(props)
    ensures DistinctKeys(Relationships(props))
    decreases |props|
  {
    if props != [] {
      var rest := props[1..];
      assert DistinctKeys(rest) by {
        forall i, j | 0 <= i < j < |rest| ensures rest[i].key != rest[j].key {
          assert rest[i] == props[i + 1] && rest[j] == props[j + 1];
        }
      }
      RelationshipsDistinct(rest);
      var tail := Relationships(rest);
      forall q | q in tail ensures q.key != props[0].key {
        var j :| 0 <= j < |rest| && rest[j] == q;
        assert props[j + 1] == q;
      }
    }
  }

  /**
   * What the relationship loop leaves in the input mapping: the same keys,
   * the merged value under each relationship already processed that the
   * input names, and the input's own value under every other key.
   */
  lemma {:induction false} MergeRelationsEntries(reg: Registry, input: Value, e: Entity, k: nat)
    requires DistinctKeys(PropsOf(reg, e.model))
    requires input.Dict? && k <= |RelsOf(reg, e)|
    requires MergeRelations(reg, input, e, k).Ok?
    ensures var rels := RelsOf(reg, e);
            var d := MergeRelations(reg, input, e, k).value;
            && (forall key :: key in input.entries && (forall j :: 0 <= j < k ==> rels[j].key != key) ==>
                  d[key] == input.entries[key])
            && (forall j :: 0 <= j < k && rels[j].key in input.entries ==>
                  MergeRelation(reg, input.entries[rels[j].key], FieldValue(e, rels[j].key), rels[j].kind) == Ok(d[rels[j].key]))
  {
    MergeRelationsKeepsOthers(reg, input, e, k);
    RelationshipsDistinct(PropsOf(reg, e.model));
    MergeRelationsMergesEach(reg, input, e, k);
  }

  /** Step `i` of the relationship loop, when the loop succeeds past it. */
  lemma {:induction false} MergeRelationsAt(reg: Registry, input: Value, e: Entity, i: nat)
    requires input.Dict? && i < |RelsOf(reg, e)|
    requires MergeRelations(reg, input, e, i + 1).Ok?
    ensures var rel := RelsOf(reg, e)[i];
            var prev := MergeRelations(reg, input, e, i);
            var d := MergeRelations(reg, input, e, i + 1).value;
            && prev.Ok?
            && (rel.key !in input.entries ==> d == prev.value)
            && (rel.key in input.entries ==>
                  var m := MergeRelation(reg, input.entries[rel.key], FieldValue(e, rel.key), rel.kind);
                  m.Ok? && d == prev.value[rel.key := m.value])
  {
  }

  lemma {:induction false} MergeRelationsKeepsOthers(reg: Registry, input: Value, e: Entity, k: nat)
    requires input.Dict? && k <= |RelsOf(reg, e)|
    requires MergeRelations(reg, input, e, k).Ok?
    ensures var rels := RelsOf(reg, e);
            var d := MergeRelations(reg, input, e, k).value;
            forall key :: key in input.entries && (forall j :: 0 <= j < k ==> rels[j].key != key) ==>
              d[key] == input.entries[key]
  {
    var rels := RelsOf(reg, e);
    forall key | key in input.entries && (forall j :: 0 <= j < k ==> rels[j].key != key)
      ensures MergeRelations(reg, input, e, k).value[key] == input.entries[key]
    {
      MergeRelationsUntouched(reg, input, e, 0, k, key);
    }
  }

  lemma {:induction false} MergeRelationsMergesEach(reg: Registry, input: Value, e: Entity, k: nat)
    requires DistinctKeys(RelsOf(reg, e))
    requires input.Dict? && k <= |RelsOf(reg, e)|
    requires MergeRelations(reg, input, e, k).Ok?
    ensures var rels := RelsOf(reg, e);
            var d := MergeRelations(reg, input, e, k).value;
            forall j :: 0 <= j < k && rels[j].key in input.entries ==>
              MergeRelation(reg, input.entries[rels[j].key], FieldValue(e, rels[j].key), rels[j].kind) == Ok(d[rels[j].key])
  {
    var rels := RelsOf(reg, e);
    var d := MergeRelations(reg, input, e, k).value;
    forall j | 0 <= j < k && rels[j].key in input.entries
      ensures MergeRelation(reg, input.entries[rels[j].key], FieldValue(e, rels[j].key), rels[j].kind) == Ok(d[rels[j].key])
    {
      MergeRelationsMergedAt(reg, input, e, j, k);
    }
  }

  /** The entry of the `j`-th relationship after `k` steps is its merge. */
  lemma {:induction false} MergeRelationsMergedAt(reg: Registry, input: Value, e: Entity, j: nat, k: nat)
    requires input.Dict? && j < k <= |RelsOf(reg, e)|
    requires forall i :: j < i < k ==> RelsOf(reg, e)[i].key != RelsOf(reg, e)[j].key
    requires MergeRelations(reg, input, e, k).Ok?
    requires RelsOf(reg, e)[j].key in input.entries
    ensures var rel := RelsOf(reg, e)[j];
            MergeRelation(reg, input.entries[rel.key], FieldValue(e, rel.key), rel.kind) ==
              Ok(MergeRelations(reg, input, e, k).value[rel.key])
  {
    var rels := RelsOf(reg, e);
    MergeRelationsUntouched(reg, input, e, j + 1, k, rels[j].key);
    MergeRelationsAt(reg, input, e, j);
  }

  /**
   * Steps `j` to `k` of the relationship loop leave alone every key that none
   * of those relationships names.
   */
  lemma {:induction false} MergeRelationsUntouched(reg: Registry, input: Value, e: Entity, j: nat, k: nat, key: string)
    requires input.Dict? && j <= k <= |RelsOf(reg, e)|
    requires MergeRelations(reg, input, e, k).Ok?
    requires key in input.entries
    requires forall i :: j <= i < k ==> RelsOf(reg, e)[i].key != key
    ensures MergeRelations(reg, input, e, j).Ok?
    ensures MergeRelations(reg, input, e, k).value[key] == MergeRelations(reg, input, e, j).value[key]
    decreases k - j
  {
    if j < k {
      MergeRelationsUntouched(reg, input, e, j + 1, k, key);
      assert RelsOf(reg, e)[j].key != key;
      MergeRelationsOtherKey(reg, input, e, j, key);
    }
  }

  /** Step `i` of the relationship loop leaves alone every key but its relationship's. */
  lemma {:induction false} MergeRelationsOtherKey(reg: Registry, input: Value, e: Entity, i: nat, key: string)
    requires input.Dict? && i < |RelsOf(reg, e)|
    requires MergeRelations(reg, input, e, i + 1).Ok?
    requires key in input.entries && RelsOf(reg, e)[i].key != key
    ensures MergeRelations(reg, input, e, i).Ok?
    ensures MergeRelations(reg, input, e, i + 1).value[key] == MergeRelations(reg, input, e, i).value[key]
  {
    MergeRelationsAt(reg, input, e, i);
  }

  /**
   * `_pydantic_to_model` on a mapping is a partial update of the target. The
   * model is kept; a key absent from the input, or unknown to the mapper,
   * keeps the entity's value (or stays unset); a column key takes the input
   * value; a relationship key takes the merge of its input entry into the
   * current attribute.
   */
  lemma {:induction false} MergeIsPartialUpdate(reg: Registry, d: map<string, Value>, target: Target)
    requires DistinctKeys(PropsOf(reg, Instantiate(target).model))
    requires Merge(reg, Dict(d), target).Ok?
    ensures var e := Instantiate(target);
            var out := Merge(reg, Dict(d), target).value;
            var props := PropsOf(reg, e.model);
            && out.model == e.model
            && (forall k :: k in out.fields <==> k in e.fields || (k in d && HasProp(reg, e.model, k)))
            && (forall k :: k in e.fields && !(k in d && HasProp(reg, e.model, k)) ==> out.fields[k] == e.fields[k])
            && (forall k :: k in d && FindProp(props, k).Some? && FindProp(props, k).value.Column? ==>
                  out.fields[k] == d[k])
            && (forall k :: k in d && FindProp(props, k).Some? && FindProp(props, k).value.Relationship? ==>
                  MergeRelation(reg, d[k], FieldValue(e, k), FindProp(props, k).value) == Ok(out.fields[k]))
  {
    var e := Instantiate(target);
    var merged := MergeRelations(reg, Dict(d), e, |RelsOf(reg, e)|).value;
    MergeOfMapping(reg, Dict(d), target, merged);
    AssignSetsKnownKeys(reg, e, merged);
    MergedEntriesByKind(reg, d, e);
  }

  /** The relationship loop's result keyed by property kind: columns keep their input value, relationships take their merge. */
  lemma {:induction false} MergedEntriesByKind(reg: Registry, d: map<string, Value>, e: Entity)
    requires DistinctKeys(PropsOf(reg, e.model))
    requires MergeRelations(reg, Dict(d), e, |RelsOf(reg, e)|).Ok?
    ensures var merged := MergeRelations(reg, Dict(d), e, |RelsOf(reg, e)|).value;
            var props := PropsOf(reg, e.model);
            && merged.Keys == d.Keys
            && (forall k :: k in d && FindProp(props, k).Some? && FindProp(props, k).value.Column? ==>
                  merged[k] == d[k])
            && (forall k :: k in d && FindProp(props, k).Some? && FindProp(props, k).value.Relationship? ==>
                  MergeRelation(reg, d[k], FieldValue(e, k), FindProp(props, k).value) == Ok(merged[k]))
  {
    var input := Dict(d);
    var props := PropsOf(reg, e.model);
    var rels := RelsOf(reg, e);
    MergeRelationsEntries(reg, input, e, |rels|);
    forall k | k in d && FindProp(props, k).Some? && FindProp(props, k).value.Column?
      ensures forall j :: 0 <= j < |rels| ==> rels[j].key != k
    {
      ColumnIsNoRelationship(props, k);
    }
    forall k | k in d && FindProp(props, k).Some? && FindProp(props, k).value.Relationship?
      ensures exists j :: 0 <= j < |rels| && rels[j] == Property(k, FindProp(props, k).value)
    {
      assert Property(k, FindProp(props, k).value) in rels;
    }
  }

  /** No relationship of a mapper shares its name with a column of that mapper. */
  lemma {:induction false} ColumnIsNoRelationship(props: Mapper, k: string)
    requires DistinctKeys(props)
    requires FindProp(props, k).Some? && FindProp(props, k).value.Column?
    ensures forall j :: 0 <= j < |Relationships(props)| ==> Relationships(props)[j].key != k
  {
    var rels := Relationships(props);
    var p := Property(k, FindProp(props, k).value);
    forall j | 0 <= j < |rels| ensures rels[j].key != k {
      var a :| 0 <= a < |props| && props[a] == p;
      var b :| 0 <= b < |props| && props[b] == rels[j];
    }
  }

  /**
   * A non-mapping input is accepted only by a model without relationships,
   * and then leaves the instance as it was.
   */
  lemma {:induction false} NonMappingInput(reg: Registry, input: Value, target: Target)
    requires !input.Dict?
    ensures var r := Merge(reg, input, target);
            && (r.Ok? <==> RelsOf(reg, Instantiate(target)) == [])
            && (r.Ok? ==> r.value == Instantiate(target))
  {
  }

  // ---------------------------------------------------------------------------
  // _model_to_dict

  /** A value with no entity and no instrumented list anywhere inside it. */
  predicate PlainData(v: Value)
    decreases v
  {
    match v
    case Dict(entries) => forall k :: k in entries ==> PlainData(entries[k])
    case List(items) => forall i :: 0 <= i < |items| ==> PlainData(items[i])
    case Ent(_) => false
    case Coll(_) => false
    case _ => true
  }

  /**
   * An entity as the ORM hands it out: every attribute holds plain data, a
   * related entity of the same shape, or an instrumented list of such
   * entities and plain values.
   */
  predicate OrmShaped(e: Entity)
    decreases e, 1
  {
    forall k :: k in e.fields ==> OrmValue(e.fields[k])
  }

  predicate OrmValue(v: Value)
    decreases v, 2
  {
    match v
    case Ent(x) => OrmShaped(x)
    case Coll(ms) => forall i :: 0 <= i < |ms| ==> if ms[i].Ent? then OrmShaped(ms[i].entity) else PlainData(ms[i])
    case _ => PlainData(v)
  }

  /** An element of an instrumented list: an entity becomes its dict, anything else is kept. */
  function SerializeItem(v: Value): Value
    decreases v, 2
  {
    if v.Ent? then Dict(ToDict(v.entity)) else v
  }

  /** One attribute: an entity becomes its dict, an instrumented list a plain list, anything else is kept. */
  function SerializeField(v: Value): Value
    decreases v, 1
  {
    match v
    case Ent(x) => Dict(ToDict(x))
    case Coll(ms) => List(seq(|ms|, i requires 0 <= i < |ms| => SerializeItem(ms[i])))
    case _ => v
  }

  /** `_model_to_dict`: the attribute dictionary with each value serialized; the key set is kept. */
  function ToDict(e: Entity): (d: map<string, Value>)
    ensures d.Keys == e.fields.Keys
    decreases e, 0
  {
    map k | k in e.fields :: SerializeField(e.fields[k])
  }

  /** `_model_to_dict`, rewriting the dictionary entry by entry as the source does. */
  method ModelToDict(e: Entity) returns (d: map<string, Value>)
    ensures d == ToDict(e)
    decreases e
  {
    d := e.fields;
    var pending := e.fields.Keys;
    while pending != {}
      invariant pending <= e.fields.Keys && d.Keys == e.fields.Keys
      invariant forall k :: k in d ==> d[k] == if k in pending then e.fields[k] else SerializeField(e.fields[k])
      decreases pending
    {
      var name :| name in pending;
      var field := e.fields[name];
      if field.Ent? {
        var sub := ModelToDict(field.entity);
        d := d[name := Dict(sub)];
      } else if field.Coll? {
        var items := SerializeList(field);
        d := d[name := List(items)];
      }
      assert d[name] == SerializeField(field);
      pending := pending - {name};
    }
  }

  /** The inner loop of `_model_to_dict` over an instrumented list `v`. */
  method SerializeList(v: Value) returns (items: seq<Value>)
    requires v.Coll?
    ensures items == seq(|v.members|, i requires 0 <= i < |v.members| => SerializeItem(v.members[i]))
    decreases v
  {
    var ms := v.members;
    items := [];
    for i := 0 to |ms|
      invariant |items| == i
      invariant forall j :: 0 <= j < i ==> items[j] == SerializeItem(ms[j])
    {
      if ms[i].Ent? {
        var sub := ModelToDict(ms[i].entity);
        items := items + [Dict(sub)];
      } else {
        items := items + [ms[i]];
      }
    }
  }

  /** Serializing an ORM-shaped entity yields plain data under every key. */
  lemma {:induction false} ToDictIsPlain(e: Entity)
    requires OrmShaped(e)
    ensures forall k :: k in ToDict(e) ==> PlainData(ToDict(e)[k])
    decreases e, 0
  {
    forall k | k in ToDict(e) ensures PlainData(ToDict(e)[k]) {
      SerializedFieldIsPlain(e.fields[k]);
    }
  }

  lemma {:induction false} SerializedFieldIsPlain(v: Value)
    requires OrmValue(v)
    ensures PlainData(SerializeField(v))
    decreases v, 1
  {
    match v
    case Ent(x) =>
      ToDictIsPlain(x);
    case Coll(ms) =>
      var out := SerializeField(v).items;
      forall i | 0 <= i < |ms| ensures PlainData(out[i]) {
        assert out[i] == SerializeItem(ms[i]);
        if ms[i].Ent? {
          ToDictIsPlain(ms[i].entity);
        }
      }
    case _ =>
  }

  /** An entity whose attributes are already plain data serializes to its own attribute dictionary. */
  lemma {:induction false} PlainEntityUnchanged(e: Entity)
    requires forall k :: k in e.fields ==> PlainData(e.fields[k])
    ensures ToDict(e) == e.fields
  {
  }
}
