/**
 * `SqlAlchemyRepository` of `src/common/repositories/sqlalchemy/repository.py`:
 * the statements it builds for point and list filters, and the observable
 * rules of its operations over an in-memory table standing in for the
 * database the session reaches.
 */
module Repository {
  import opened Results
  import opened Orm
  import opened Statements
  import opened ListFilters
  import opened FilterBuilding
  import opened ObjectMapper

  // ---------------------------------------------------------------------------
  // _get_statement

  /**
   * A filter field `_get_statement` turns into a conjunct: it survives
   * `dict(exclude_unset=True, exclude_none=True)` and names an attribute of
   * the model.
   */
  predicate Selected(reg: Registry, root: ModelName, f: FilterField)
  {
    f.setting.SetTo? && f.setting.value != Null && HasProp(reg, root, f.name)
  }

  /** The equality conjuncts for the selected fields, in field order. */
  function EqualityPredicates(reg: Registry, root: ModelName, fields: seq<FilterField>): (ps: seq<Predicate>)
    ensures |ps| <= |fields|
    decreases |fields|
  {
    if fields == [] then []
    else
      var last := fields[|fields| - 1];
      EqualityPredicates(reg, root, fields[..|fields| - 1])
        + (if Selected(reg, root, last) then [Equals(last.name, last.setting.value)] else [])
  }

  /** `_get_statement(filter_, stmt)`: one `where` per selected field, added to `stmt` or to `select(model)`. */
  method GetStatement(reg: Registry, root: ModelName, filter: PointFilter, stmt: Option<Statement>) returns (r: Statement)
    ensures var s0 := if stmt.Some? then stmt.value else Select(root);
            r == s0.(where := s0.where + EqualityPredicates(reg, root, Fields(filter)))
  {
    var s0 := if stmt.Some? then stmt.value else Select(root);
    var fields := Fields(filter);
    var ps: seq<Predicate> := [];
    for i := 0 to |fields|
      invariant ps == EqualityPredicates(reg, root, fields[..i])
    {
      var field := fields[i];
      EqualityPredicatesSnoc(reg, root, fields, i);
      if field.setting.Unset? || field.setting.value == Null {
        continue;
      }
      if HasProp(reg, root, field.name) {
        ps := ps + [Equals(field.name, field.setting.value)];
      }
    }
    assert fields[..|fields|] == fields;
    r := s0.(where := s0.where + ps);
  }

  lemma {:induction false} EqualityPredicatesSnoc(reg: Registry, root: ModelName, fields: seq<FilterField>, i: nat)
    requires i < |fields|
    ensures var f := fields[i];
            EqualityPredicates(reg, root, fields[..i + 1]) ==
              EqualityPredicates(reg, root, fields[..i]) + (if Selected(reg, root, f) then [Equals(f.name, f.setting.value)] else [])
  {
    assert fields[..i + 1][..i] == fields[..i];
  }

  /**
   * A row passes the conjuncts of `_get_statement` exactly when it holds the
   * given value in every selected field; every other field is ignored.
   */
  lemma {:induction false} EqualityPredicatesMeaning(reg: Registry, root: ModelName, fields: seq<FilterField>, row: Entity)
    ensures SatisfiesAll(row, EqualityPredicates(reg, root, fields)) <==>
            forall j :: 0 <= j < |fields| && Selected(reg, root, fields[j]) ==>
              FieldValue(row, fields[j].name) == fields[j].setting.value
    decreases |fields|
  {
    if fields != [] {
      var init := fields[..|fields| - 1];
      var last := fields[|fields| - 1];
      EqualityPredicatesMeaning(reg, root, init, row);
      var tail := if Selected(reg, root, last) then [Equals(last.name, last.setting.value)] else [];
      SatisfiesAllAppend(row, EqualityPredicates(reg, root, init), tail);
      assert SatisfiesAll(row, tail) <==> (Selected(reg, root, last) ==> FieldValue(row, last.name) == last.setting.value) by {
        if Selected(reg, root, last) {
          assert tail[0] == Equals(last.name, last.setting.value);
        }
      }
      forall j | 0 <= j < |init| ensures init[j] == fields[j] { }
    }
  }

  /** A filter whose given `id` is not `None` selects only rows with that `id`, when the model has one. */
  lemma {:induction false} PointFilterPinsId(reg: Registry, root: ModelName, f: PointFilter, row: Entity)
    requires f.id.SetTo? && f.id.value != Null && HasProp(reg, root, "id")
    requires SatisfiesAll(row, EqualityPredicates(reg, root, Fields(f)))
    ensures FieldValue(row, "id") == IdOf(f)
  {
    EqualityPredicatesMeaning(reg, root, Fields(f), row);
    assert Selected(reg, root, Fields(f)[0]);
  }

  // ---------------------------------------------------------------------------
  // _get_list_statement

  /** `_get_list_statement`: `_apply_options` leaves the statement alone, then the filter builder runs. */
  method ListStatement(reg: Registry, root: ModelName, f: ListFilter, stmt: Option<Statement>) returns (r: Statement)
    ensures var s0 := if stmt.Some? then stmt.value else Select(root);
            && r.model == s0.model
            && r.where == s0.where + SearchClause(reg, root, f.search)
            && r.limit == Some(f.limit) && r.offset == Some(f.offset)
            && r.orderBy == s0.orderBy + SortOrdering(reg, root, f.GetSort())
  {
    var s := if stmt.Some? then stmt.value else Select(root);
    r := Build(reg, root, f, Some(s));
  }

  // ---------------------------------------------------------------------------
  // Views

  /** `_model_to_pydantic` on each entity, with the view schema's parsing left opaque. */
  function Views(es: seq<Entity>): (vs: seq<map<string, Value>>)
    ensures |vs| == |es|
  {
    seq(|es|, i requires 0 <= i < |es| => ToDict(es[i]))
  }

  /** `[self._model_to_pydantic(model, ...) for model in result]`. */
  method ToViews(es: seq<Entity>) returns (vs: seq<map<string, Value>>)
    ensures vs == Views(es)
  {
    vs := [];
    for i := 0 to |es|
      invariant vs == Views(es[..i])
    {
      var v := ModelToDict(es[i]);
      vs := vs + [v];
    }
    assert es[..|es|] == es;
  }

  /**
   * A page of a list query: at most `limit` rows, starting at row `offset` of
   * the matching rows, and never past the unpaginated total. A full page is
   * returned whenever the total reaches `offset + limit`, the last partial
   * page holds every row from `offset` on, and the page is empty once
   * `offset` reaches the total.
   */
  lemma {:induction false} PageWithinTotal(rows: seq<Entity>, ps: seq<Predicate>, limit: int, offset: int)
    requires limit > 0 && offset >= 0
    ensures var all := Matching(rows, ps);
            var page := Window(all, Some(offset), Some(limit));
            && |page| <= limit
            && (page != [] ==> offset + |page| <= |all| && page == all[offset..offset + |page|])
            && (offset + limit <= |all| ==> page == all[offset..offset + limit])
            && (offset < |all| < offset + limit ==> page == all[offset..])
            && (offset >= |all| ==> page == [])
  {
    WindowAt(Matching(rows, ps), limit, offset);
  }

  /** `PageWithinTotal` for any sequence of rows. */
  lemma {:induction false} WindowAt(all: seq<Entity>, limit: int, offset: int)
    requires limit > 0 && offset >= 0
    ensures var page := Window(all, Some(offset), Some(limit));
            && |page| <= limit
            && (page != [] ==> offset + |page| <= |all| && page == all[offset..offset + |page|])
            && (offset + limit <= |all| ==> page == all[offset..offset + limit])
            && (offset < |all| < offset + limit ==> page == all[offset..])
            && (offset >= |all| ==> page == [])
  {
  }

  // ---------------------------------------------------------------------------
  // The repository over an in-memory table

  /**
   * A repository for model `root`. `rows` is the table the session reaches,
   * in the order the database returns it.
   */
  class SqlAlchemyRepository {
    const reg: Registry
    const root: ModelName
    var rows: seq<Entity>

    /** Every row is an instance of the repository's model. */
    ghost predicate Valid()
      reads this
    {
      forall i :: 0 <= i < |rows| ==> rows[i].model == root
    }

    constructor (reg: Registry, root: ModelName, rows: seq<Entity>)
      requires forall i :: 0 <= i < |rows| ==> rows[i].model == root
      ensures Valid()
      ensures this.reg == reg && this.root == root && this.rows == rows
    {
      this.reg := reg;
      this.root := root;
      this.rows := rows;
    }

    /** `get`: the first row the point filter selects, as a view; `None` when no row matches. */
    method Get(f: PointFilter) returns (r: Option<map<string, Value>>)
      ensures var ps := EqualityPredicates(reg, root, Fields(f));
              && (r.None? <==> Matching(rows, ps) == [])
              && (r.Some? ==> FirstMatch(rows, ps).Some? && r.value == ToDict(rows[FirstMatch(rows, ps).value]))
    {
      var stmt := GetStatement(reg, root, f, None);
      assert stmt.where == EqualityPredicates(reg, root, Fields(f));
      var found := FirstMatch(rows, stmt.where);
      if found.None? {
        return None;
      }
      var view := ModelToDict(rows[found.value]);
      return Some(view);
    }

    /**
     * `get_list`: the page the list statement selects, as views; the filter's
     * total is set to the count of the same statement without offset, limit
     * and ordering, and nothing else of the filter changes.
     */
    method GetList(f: ListFilter) returns (views: seq<map<string, Value>>)
      requires f.Valid()
      modifies f
      ensures f.Valid()
      ensures |views| <= f.limit
      ensures var all := Matching(rows, SearchClause(reg, root, old(f.search)));
              && f.total == |all|
              && views == Views(Window(all, Some(old(f.offset)), Some(old(f.limit))))
      ensures f.limit == old(f.limit) && f.offset == old(f.offset)
      ensures f.sort == old(f.sort) && f.search == old(f.search)
    {
      var stmt := ListStatement(reg, root, f, None);
      assert stmt.where == SearchClause(reg, root, f.search);
      var result := Execute(rows, stmt);
      f.SetTotal(Count(rows, Unpaged(stmt)));
      views := ToViews(result);
    }

    /** The statement `get_all` runs: the list statement with limit and offset removed. */
    method GetAllStatement(f: ListFilter) returns (st: Statement)
      ensures st.model == root
      ensures st.where == SearchClause(reg, root, f.search)
      ensures st.limit.None? && st.offset.None?
      ensures st.orderBy == SortOrdering(reg, root, f.GetSort())
    {
      var stmt := ListStatement(reg, root, f, None);
      st := stmt.(limit := None, offset := None);
    }

    /** `get_all`: every row the search selects, as views, whatever the pagination says. */
    method GetAll(f: ListFilter) returns (views: seq<map<string, Value>>)
      ensures views == Views(Matching(rows, SearchClause(reg, root, f.search)))
    {
      var st := GetAllStatement(f);
      views := ToViews(Execute(rows, st));
    }

    /** `create`: the input merged into a new instance, added to the table and returned as a view. */
    method Create(input: map<string, Value>) returns (r: Result<map<string, Value>, MergeError>)
      requires Valid()
      modifies this
      ensures Valid()
      ensures var m := Merge(reg, Dict(input), ModelClass(root));
              && (r.Ok? <==> m.Ok?)
              && (m.Ok? ==> rows == old(rows) + [m.value] && r.value == ToDict(m.value))
              && (m.Err? ==> rows == old(rows) && r.error == m.error)
    {
      var m := PydanticToModel(reg, Dict(input), ModelClass(root));
      if m.Err? {
        return Err(m.error);
      }
      rows := rows + [m.value];
      var view := ModelToDict(m.value);
      return Ok(view);
    }

    /**
     * `update`: `None` when the point filter selects no row; otherwise the
     * input is merged into the first selected row, which is replaced and
     * returned as a view. A failed merge leaves the table as it was.
     */
    method Update(input: map<string, Value>, f: PointFilter) returns (r: Result<Option<map<string, Value>>, MergeError>)
      requires Valid()
      modifies this
      ensures Valid()
      ensures var found := FirstMatch(old(rows), EqualityPredicates(reg, root, Fields(f)));
              && (found.None? ==> r == Ok(None) && rows == old(rows))
              && (found.Some? ==>
                    var m := Merge(reg, Dict(input), Instance(old(rows)[found.value]));
                    && (m.Ok? ==> r == Ok(Some(ToDict(m.value))) && rows == old(rows)[found.value := m.value])
                    && (m.Err? ==> r == Err(m.error) && rows == old(rows)))
    {
      var stmt := GetStatement(reg, root, f, None);
      assert stmt.where == EqualityPredicates(reg, root, Fields(f));
      var found := FirstMatch(rows, stmt.where);
      if found.None? {
        return Ok(None);
      }
      var m := PydanticToModel(reg, Dict(input), Instance(rows[found.value]));
      if m.Err? {
        return Err(m.error);
      }
      rows := rows[found.value := m.value];
      var view := ModelToDict(m.value);
      return Ok(Some(view));
    }

    /**
     * `delete`: removes every row whose `id` equals the filter's `id` and
     * reports whether any row was removed. An `id` that was not given, or is
     * `None`, makes the condition `id IS NULL`, which no stored row meets
     * because `id` is the primary key: nothing is removed.
     */
    method Delete(f: PointFilter) returns (deleted: bool)
      modifies this
      ensures IdOf(f) == Null ==> rows == old(rows) && !deleted
      ensures IdOf(f) != Null ==> rows == Without(old(rows), Equals("id", IdOf(f)))
      ensures IdOf(f) != Null ==>
                (deleted <==> exists i :: 0 <= i < |old(rows)| && FieldValue(old(rows)[i], "id") == IdOf(f))
      ensures old(Valid()) ==> Valid()
    {
      if IdOf(f) == Null {
        return false;
      }
      var before := |rows|;
      rows := Without(rows, Equals("id", IdOf(f)));
      deleted := before - |rows| > 0;
      assert old(Valid()) ==> Valid() by {
        if old(Valid()) {
          forall i | 0 <= i < |rows| ensures rows[i].model == root {
            assert rows[i] in old(rows);
          }
        }
      }
    }
  }

  /**
   * After `delete` with a given `id`, `get` with a filter that gives the same
   * `id` finds nothing.
   */
  lemma {:induction false} DeleteThenGetFindsNothing(reg: Registry, root: ModelName, rows: seq<Entity>, f: PointFilter, g: PointFilter)
    requires f.id.SetTo? && f.id.value != Null && HasProp(reg, root, "id")
    requires g.id == f.id
    ensures Matching(Without(rows, Equals("id", IdOf(f))), EqualityPredicates(reg, root, Fields(g))) == []
  {
    var left := Without(rows, Equals("id", IdOf(f)));
    var ps := EqualityPredicates(reg, root, Fields(g));
    forall x | x in left ensures !SatisfiesAll(x, ps) {
      if SatisfiesAll(x, ps) {
        PointFilterPinsId(reg, root, g, x);
      }
    }
    if Matching(left, ps) != [] {
      assert Matching(left, ps)[0] in Matching(left, ps);
    }
  }
}
