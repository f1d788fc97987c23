/**
 * A SELECT statement as the repository builds it (target model, WHERE
 * conjuncts, LIMIT, OFFSET, ORDER BY), and what a statement yields when it is
 * run against an in-memory table standing in for the database.
 */
module Statements {
  import opened Results
  import opened Orm
  import opened PyText

  /** What attribute resolution yields: a model class, or an attribute of one. */
  datatype FieldRef =
    | ModelRef(model: ModelName)
    | AttrRef(owner: ModelName, key: string, kind: PropKind)

  datatype Direction = Asc | Desc

  datatype Ordering = Ordering(field: FieldRef, direction: Direction)

  /**
   * A WHERE conjunct: `attr == value`, or an OR of case-insensitive
   * "contains" tests of one text over several columns.
   */
  datatype Predicate =
    | Equals(key: string, value: Value)
    | AnyContains(keys: seq<string>, text: string)

  datatype Statement = Statement(
    model: ModelName,
    where: seq<Predicate>,
    limit: Option<int>,
    offset: Option<int>,
    orderBy: seq<Ordering>)

  /** `select(model)`. */
  function Select(model: ModelName): Statement
  {
    Statement(model, [], None, None, [])
  }

  /** The statement the count query wraps: `stmt.offset(None).limit(None).order_by(None)`. */
  function Unpaged(st: Statement): Statement
  {
    st.(limit := None, offset := None, orderBy := [])
  }

  /** A row satisfies a conjunct; comparing with `None` is `IS NULL`, as SQLAlchemy renders it. */
  predicate Satisfies(row: Entity, p: Predicate)
  {
    match p
    case Equals(key, value) => FieldValue(row, key) == value
    case AnyContains(keys, text) =>
      exists i :: 0 <= i < |keys| && ContainsText(FieldValue(row, keys[i]), text)
  }

  /** `lower(column) LIKE '%' || lower(text) || '%'`, which is false on NULL and non-text values. */
  predicate ContainsText(v: Value, text: string)
  {
    v.Str? && ContainsIgnoringCase(v.s, text)
  }

  predicate SatisfiesAll(row: Entity, ps: seq<Predicate>)
  {
    forall i :: 0 <= i < |ps| ==> Satisfies(row, ps[i])
  }

  /** A row satisfies two lists of conjuncts together exactly when it satisfies each. */
  lemma {:induction false} SatisfiesAllAppend(row: Entity, a: seq<Predicate>, b: seq<Predicate>)
    ensures SatisfiesAll(row, a + b) <==> SatisfiesAll(row, a) && SatisfiesAll(row, b)
  {
    if SatisfiesAll(row, a) && SatisfiesAll(row, b) {
      forall i | 0 <= i < |a + b| ensures Satisfies(row, (a + b)[i]) {
        if i >= |a| {
          assert (a + b)[i] == b[i - |a|];
        }
      }
    }
    if SatisfiesAll(row, a + b) {
      forall i | 0 <= i < |a| ensures Satisfies(row, a[i]) {
        assert (a + b)[i] == a[i];
      }
      forall i | 0 <= i < |b| ensures Satisfies(row, b[i]) {
        assert (a + b)[|a| + i] == b[i];
      }
    }
  }

  /** The rows of the table that satisfy every conjunct, in table order. */
  function Matching(rows: seq<Entity>, ps: seq<Predicate>): (r: seq<Entity>)
    ensures |r| <= |rows|
    ensures forall x :: x in r <==> x in rows && SatisfiesAll(x, ps)
  {
    if rows == [] then []
    else (if SatisfiesAll(rows[0], ps) then [rows[0]] else []) + Matching(rows[1..], ps)
  }

  /** The rows of the table that do not satisfy the conjunct, in table order. */
  function Without(rows: seq<Entity>, p: Predicate): (r: seq<Entity>)
    ensures |r| <= |rows|
    ensures forall x :: x in r <==> x in rows && !Satisfies(x, p)
    ensures |r| == |rows| <==> forall i :: 0 <= i < |rows| ==> !Satisfies(rows[i], p)
  {
    if rows == [] then []
    else if Satisfies(rows[0], p) then Without(rows[1..], p)
    else [rows[0]] + Without(rows[1..], p)
  }

  /**
   * OFFSET then LIMIT: the rows from position `offset` on, at most `limit` of
   * them. When the window is not empty it ends inside the rows; it holds
   * `limit` rows when that many remain after `offset`, and otherwise every
   * remaining row.
   */
  function Window(rows: seq<Entity>, offset: Option<int>, limit: Option<int>): (r: seq<Entity>)
    ensures limit.Some? && limit.value >= 0 ==> |r| <= limit.value
    ensures limit.None? && (offset.None? || offset.value <= 0) ==> r == rows
    ensures offset.Some? && offset.value >= 0 && r != [] ==> offset.value + |r| <= |rows|
    ensures var start := if offset.Some? && offset.value > 0 then offset.value else 0;
            r != [] ==> start + |r| <= |rows| && r == rows[start..start + |r|]
    ensures var start := if offset.Some? && offset.value > 0 then offset.value else 0;
            start <= |rows| ==>
              if limit.Some? && limit.value >= 0 && start + limit.value <= |rows| then |r| == limit.value
              else |r| == |rows| - start
    ensures var start := if offset.Some? && offset.value > 0 then offset.value else 0;
            start >= |rows| ==> r == []
  {
    var start := if offset.Some? && offset.value > 0 then (if offset.value < |rows| then offset.value else |rows|) else 0;
    var rest := rows[start..];
    if limit.Some? && 0 <= limit.value < |rest| then rest[..limit.value] else rest
  }

  /** What the database returns for a statement; ORDER BY is not evaluated here. */
  function Execute(rows: seq<Entity>, st: Statement): seq<Entity>
  {
    Window(Matching(rows, st.where), st.offset, st.limit)
  }

  /** `select(func.count()).select_from(<unpaged statement>)`. */
  function Count(rows: seq<Entity>, st: Statement): (n: nat)
    ensures n == |Matching(rows, st.where)|
  {
    |Execute(rows, Unpaged(st))|
  }

  /** The index of the first row satisfying every conjunct, as `session.scalar` picks it. */
  function FirstMatch(rows: seq<Entity>, ps: seq<Predicate>): (r: Option<nat>)
    ensures r.Some? ==> r.value < |rows| && SatisfiesAll(rows[r.value], ps)
    ensures r.Some? ==> forall j :: 0 <= j < r.value ==> !SatisfiesAll(rows[j], ps)
    ensures r.None? <==> Matching(rows, ps) == []
  {
    if rows == [] then None
    else if SatisfiesAll(rows[0], ps) then Some(0)
    else match FirstMatch(rows[1..], ps)
      case None => None
      case Some(i) => Some(i + 1)
  }
}
