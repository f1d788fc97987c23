/**
 * `FilterBuilder` of `src/common/repositories/sqlalchemy/filter_builder.py`:
 * turns a list filter into a statement (search predicate, then LIMIT and
 * OFFSET, then an optional ORDER BY), resolving `"__"`-separated sort paths
 * through relationship hops and failing open to "no ordering".
 */
module FilterBuilding {
  import opened Results
  import opened PyText
  import opened Orm
  import opened Statements
  import opened ListFilters

  // ---------------------------------------------------------------------------
  // get_model_field_to_filter

  /** The attribute `key` of model `m`, if `m` maps one. */
  function AttrOf(reg: Registry, m: ModelName, key: string): (r: Option<FieldRef>)
    ensures r.Some? <==> HasProp(reg, m, key)
    ensures r.Some? ==> r.value.AttrRef? && r.value.owner == m && r.value.key == key
                        && Property(key, r.value.kind) in PropsOf(reg, m)
  {
    match FindProp(PropsOf(reg, m), key)
    case None => None
    case Some(kind) => Some(AttrRef(m, key, kind))
  }

  /**
   * One pass of the loop: a model class moves to its attribute, a relationship
   * attribute moves to its target model's attribute, and a column attribute
   * matches neither branch and stays where it is.
   */
  function Step(reg: Registry, field: FieldRef, p: string): Option<FieldRef>
  {
    match field
    case ModelRef(m) => AttrOf(reg, m, p)
    case AttrRef(_, _, kind) =>
      if kind.Relationship? then AttrOf(reg, kind.target, p) else Some(field)
  }

  /** The field a path leads to from `field`, or `None` at the first unresolvable segment. */
  function Resolve(reg: Registry, field: FieldRef, path: seq<string>): Option<FieldRef>
    decreases |path|
  {
    if path == [] then Some(field)
    else match Step(reg, field, path[0])
      case None => None
      case Some(next) => Resolve(reg, next, path[1..])
  }

  /** `get_model_field_to_filter(path, model)`: the walk starts at `model`, or at the builder's model. */
  method GetModelFieldToFilter(reg: Registry, root: ModelName, path: seq<string>, model: Option<ModelName>)
    returns (r: Option<FieldRef>)
    ensures r == Resolve(reg, ModelRef(if model.Some? then model.value else root), path)
  {
    var start := ModelRef(if model.Some? then model.value else root);
    var field := start;
    for i := 0 to |path|
      invariant Resolve(reg, start, path) == Resolve(reg, field, path[i..])
    {
      assert path[i..][1..] == path[i + 1..];
      var p := path[i];
      match field {
        case ModelRef(m) =>
          if HasProp(reg, m, p) {
            field := AttrOf(reg, m, p).value;
          } else {
            return None;
          }
        case AttrRef(_, _, kind) =>
          if kind.Relationship? {
            if HasProp(reg, kind.target, p) {
              field := AttrOf(reg, kind.target, p).value;
            } else {
              return None;
            }
          }
      }
    }
    return Some(field);
  }

  /** Resolving a concatenated path resolves the first part, then the second from there. */
  lemma {:induction false} ResolveAppend(reg: Registry, field: FieldRef, a: seq<string>, b: seq<string>)
    ensures Resolve(reg, field, a + b) ==
            match Resolve(reg, field, a)
            case None => None
            case Some(mid) => Resolve(reg, mid, b)
    decreases |a|
  {
    if a == [] {
      assert a + b == b;
    } else {
      assert (a + b)[0] == a[0] && (a + b)[1..] == a[1..] + b;
      match Step(reg, field, a[0])
      case None =>
      case Some(next) => ResolveAppend(reg, next, a[1..], b);
    }
  }

  /** Once a plain column is reached, every further segment is skipped and the column is the result. */
  lemma {:induction false} ColumnAbsorbsRest(reg: Registry, field: FieldRef, path: seq<string>)
    requires field.AttrRef? && field.kind.Column?
    ensures Resolve(reg, field, path) == Some(field)
    decreases |path|
  {
    if path != [] {
      ColumnAbsorbsRest(reg, field, path[1..]);
    }
  }

  /**
   * Resolution fails as soon as a segment is not an attribute of the current
   * model (or of the current relationship's target), whatever follows it.
   */
  lemma {:induction false} ResolveStopsAtMissing(reg: Registry, field: FieldRef, path: seq<string>, i: nat, at: FieldRef)
    requires i < |path|
    requires Resolve(reg, field, path[..i]) == Some(at)
    requires at.ModelRef? ==> !HasProp(reg, at.model, path[i])
    requires at.AttrRef? ==> at.kind.Relationship? && !HasProp(reg, at.kind.target, path[i])
    ensures Resolve(reg, field, path) == None
  {
    assert path == path[..i] + path[i..];
    ResolveAppend(reg, field, path[..i], path[i..]);
  }

  /** A model that is a relationship hop's target is known to the walk only through that hop. */
  predicate NamesAttribute(reg: Registry, r: FieldRef)
  {
    r.AttrRef? && Property(r.key, r.kind) in PropsOf(reg, r.owner)
  }

  /** A non-empty path that resolves from a model class names a mapped attribute of some model. */
  lemma {:induction false} ResolvedIsAttribute(reg: Registry, field: FieldRef, path: seq<string>)
    requires field.ModelRef? || NamesAttribute(reg, field)
    requires path != [] && Resolve(reg, field, path).Some?
    ensures NamesAttribute(reg, Resolve(reg, field, path).value)
    decreases |path|
  {
    var next := Step(reg, field, path[0]).value;
    if path[1..] != [] {
      ResolvedIsAttribute(reg, next, path[1..]);
    }
  }

  // ---------------------------------------------------------------------------
  // _sort

  const PathSeparator: string := "__"

  /** The ORDER BY terms `_sort` adds for a parsed sort: none, or the resolved attribute with its direction. */
  function SortOrdering(reg: Registry, root: ModelName, spec: SortSpec): (o: seq<Ordering>)
    ensures |o| <= 1
    ensures spec.field.None? || spec.field.value == "" ==> o == []
    ensures spec.field.Some? && spec.field.value != "" ==>
              (o != [] <==> Resolve(reg, ModelRef(root), Split(spec.field.value, PathSeparator)).Some?)
    ensures o != [] ==> Some(o[0].field) == Resolve(reg, ModelRef(root), Split(spec.field.value, PathSeparator))
    ensures o != [] ==> (o[0].direction == Asc <==> spec.direction != 0)
  {
    if spec.field.None? || spec.field.value == "" then []
    else match Resolve(reg, ModelRef(root), Split(spec.field.value, PathSeparator))
      case None => []
      case Some(attr) => [Ordering(attr, if spec.direction != 0 then Asc else Desc)]
  }

  lemma {:induction false} SortOrderingOfPath(reg: Registry, root: ModelName, spec: SortSpec, path: seq<string>, attr: Option<FieldRef>, terms: seq<Ordering>)
    requires spec.field.Some? && spec.field.value != ""
    requires path == Split(spec.field.value, PathSeparator)
    requires attr == Resolve(reg, ModelRef(root), path)
    requires terms == if attr.Some? then [Ordering(attr.value, if spec.direction != 0 then Asc else Desc)] else []
    ensures SortOrdering(reg, root, spec) == terms
  {
  }

  /** `_sort`: appends the sort's ordering, if any, and changes nothing else. */
  method Sort(reg: Registry, root: ModelName, st: Statement, f: ListFilter) returns (r: Statement)
    ensures r == st.(orderBy := st.orderBy + SortOrdering(reg, root, f.GetSort()))
  {
    var spec := f.GetSort();
    if spec.field.None? || spec.field.value == "" {
      assert SortOrdering(reg, root, spec) == [];
      return st;
    }
    var path := Split(spec.field.value, PathSeparator);
    var attr := GetModelFieldToFilter(reg, root, path, None);
    var terms := if attr.Some? then [Ordering(attr.value, if spec.direction != 0 then Asc else Desc)] else [];
    SortOrderingOfPath(reg, root, spec, path, attr, terms);
    r := st.(orderBy := st.orderBy + terms);
  }

  // ---------------------------------------------------------------------------
  // _search

  /** The keys of the string-typed columns among the properties, in property order. */
  function StringColumns(props: seq<Property>): (keys: seq<string>)
    ensures |keys| <= |props|
    ensures forall k :: k in keys <==> Property(k, Column(true)) in props
  {
    if props == [] then []
    else
      var last := props[|props| - 1];
      assert props == props[..|props| - 1] + [last];
      StringColumns(props[..|props| - 1]) + (if last.kind == Column(true) then [last.key] else [])
  }

  /** The WHERE conjuncts `_search` adds: one OR of "contains" tests over the string columns, or none. */
  function SearchClause(reg: Registry, root: ModelName, search: Option<string>): (ps: seq<Predicate>)
    ensures search.None? || search.value == "" ==> ps == []
    ensures StringColumns(PropsOf(reg, root)) == [] ==> ps == []
    ensures search.Some? && search.value != "" && StringColumns(PropsOf(reg, root)) != [] ==>
              ps == [AnyContains(StringColumns(PropsOf(reg, root)), search.value)]
  {
    if search.None? || search.value == "" then []
    else
      var keys := StringColumns(PropsOf(reg, root));
      if keys == [] then [] else [AnyContains(keys, search.value)]
  }

  /** `_search`: collects the string columns in a loop and adds their OR, if there is any. */
  method Search(reg: Registry, root: ModelName, st: Statement, f: ListFilter) returns (r: Statement)
    ensures r == st.(where := st.where + SearchClause(reg, root, f.search))
  {
    if f.search.None? || f.search.value == "" {
      return st;
    }
    var props := PropsOf(reg, root);
    var q: seq<string> := [];
    for i := 0 to |props|
      invariant q == StringColumns(props[..i])
    {
      assert props[..i + 1][..i] == props[..i];
      var prop := props[i];
      if prop.kind.Relationship? {
        continue;
      }
      if prop.kind.isString {
        q := q + [prop.key];
      }
    }
    assert props[..|props|] == props;
    r := if q != [] then st.(where := st.where + [AnyContains(q, f.search.value)]) else st;
  }

  /**
   * A row passes the search exactly when one of the root model's string
   * columns holds text containing the search text, ignoring case.
   */
  lemma {:induction false} SearchMatchesStringColumn(reg: Registry, root: ModelName, search: string, row: Entity)
    requires search != "" && StringColumns(PropsOf(reg, root)) != []
    ensures SatisfiesAll(row, SearchClause(reg, root, Some(search))) <==>
            exists k :: Property(k, Column(true)) in PropsOf(reg, root) && ContainsText(FieldValue(row, k), search)
  {
    var props := PropsOf(reg, root);
    var keys := StringColumns(props);
    var p := AnyContains(keys, search);
    assert SearchClause(reg, root, Some(search)) == [p];
    assert SatisfiesAll(row, [p]) <==> Satisfies(row, p) by {
      assert [p][0] == p;
      if Satisfies(row, p) {
        forall j | 0 <= j < |[p]| ensures Satisfies(row, [p][j]) { assert j == 0; }
      }
    }
    if Satisfies(row, p) {
      var i :| 0 <= i < |keys| && ContainsText(FieldValue(row, keys[i]), search);
      assert keys[i] in keys;
      assert Property(keys[i], Column(true)) in props;
    }
    if exists k :: Property(k, Column(true)) in props && ContainsText(FieldValue(row, k), search) {
      var k :| Property(k, Column(true)) in props && ContainsText(FieldValue(row, k), search);
      assert k in keys;
      var i :| 0 <= i < |keys| && keys[i] == k;
      assert Satisfies(row, p);
    }
  }

  /** An empty or absent search selects every row. */
  lemma {:induction false} NoSearchSelectsAll(reg: Registry, root: ModelName, search: Option<string>, rows: seq<Entity>)
    requires search.None? || search.value == ""
    ensures Matching(rows, SearchClause(reg, root, search)) == rows
  {
    if rows != [] {
      NoSearchSelectsAll(reg, root, search, rows[1..]);
      assert rows == [rows[0]] + rows[1..];
    }
  }

  // ---------------------------------------------------------------------------
  // build

  /**
   * `build`: the search conjunct is added to the given statement (or to
   * `select(model)`), LIMIT and OFFSET are always the filter's, and the sort's
   * ordering, if any, is appended.
   */
  method Build(reg: Registry, root: ModelName, f: ListFilter, stmt: Option<Statement>) returns (r: Statement)
    ensures var s0 := if stmt.Some? then stmt.value else Select(root);
            && r.model == s0.model
            && r.where == s0.where + SearchClause(reg, root, f.search)
            && r.limit == Some(f.limit) && r.offset == Some(f.offset)
            && r.orderBy == s0.orderBy + SortOrdering(reg, root, f.GetSort())
  {
    var s := if stmt.Some? then stmt.value else Select(root);
    s := Search(reg, root, s, f);
    s := s.(limit := Some(f.limit)).(offset := Some(f.offset));
    r := Sort(reg, root, s, f);
  }
}
