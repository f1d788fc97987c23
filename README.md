# fastapi_template repository core in Dafny

This project models the query-building and object-mapping core of a
FastAPI/SQLAlchemy CRUD scaffold and proves properties of it. The core has
three parts:

- **List filters** (`src/common/schemas/filters/base.py`).
  - `BaseListFilter` validates `limit`/`offset` and applies their defaults.
  - `get_sort` parses the sort string against the filter class's sort allow-list.
  - `set_total` and `meta` hold the mutable `_total` side channel.
- **Filter builder** (`src/common/repositories/sqlalchemy/filter_builder.py`).
  - `build` adds the search conjunct, then LIMIT and OFFSET, then an optional ORDER BY.
  - `get_model_field_to_filter` walks a `"__"`-separated path through model classes and relationship hops.
  - `_sort` and `_search` build the ordering and the search conjunct.
- **Generic repository** (`src/common/repositories/sqlalchemy/repository.py`).
  - `_get_statement` and `_get_list_statement` build the statements.
  - `_pydantic_to_model` is a recursive partial-update merge. To-many lists are aligned by position.
  - `_model_to_dict` is the serializer.
  - The rules of `get`, `get_list`, `get_all`, `create`, `update` and `delete` are stated over an in-memory table.

The SQLAlchemy metadata is replaced by an explicit registry
(`Orm.Registry`). It maps each model name to the model's mapped properties
in declaration order. A property is a column, which records whether its
Python type is `str`, or a relationship with its target and `uselist` flag.

- Entity instances are values: a model name plus the attribute dictionary.
- A statement is a record (`Statements.Statement`) of WHERE conjuncts, LIMIT, OFFSET and ORDER BY.
- Running a statement against a table (`Statements.Execute`) applies WHERE, then OFFSET, then LIMIT.

Modules, one per file:

| file | module | contents |
|---|---|---|
| `results.dfy` | `Results` | `Option`, `Result` |
| `text.dfy` | `PyText` | the parts of Python's `str` that are used: `strip`, `startswith`, `in`, `split`, lower-casing |
| `orm.dfy` | `Orm` | registry, property lookup, values and entities |
| `statements.dfy` | `Statements` | statements and their evaluation over a table |
| `list_filters.dfy` | `ListFilters` | point and list filters, pagination validation, `get_sort`, the `ListFilter` class |
| `filter_builder.dfy` | `FilterBuilding` | `FilterBuilder` |
| `object_mapper.dfy` | `ObjectMapper` | `_pydantic_to_model` and `_model_to_dict` |
| `repository.dfy` | `Repository` | statement builders and the `SqlAlchemyRepository` class |

Code that loops or changes state is modelled as a method. Each such method
is proved equal to a recursive function that defines its result:

- `GetModelFieldToFilter`, `Search`, `PydanticToModel`, `MergeRelationsM`, `MergeRelationM`, `MergeManyM`, `SetAttributes`, `ModelToDict`, `SerializeList`, `GetStatement`;
- `ListFilter.SetTotal` and the repository methods, which update fields.

The properties are lemmas about those functions.

Points about the code that the model makes explicit:

- Sort paths are split only on `"__"`; dots are not separators.
- A path need not end at a scalar column. A segment after a plain column is skipped and the column is the result. A path may also end at a relationship attribute, which is then used for ordering.
- A list page never reaches past the unpaginated total only when it is non-empty: with `offset` 5 and no matching rows the page is empty, so `|page| + offset <= total` fails. `Repository.PageWithinTotal` proves the non-empty form and pins every page: full when the total reaches `offset + limit`, the remaining rows on the last partial page, and empty once `offset` reaches the total.
- `_model_to_dict` leaves plain dict and list values as they are, even when they hold entities; it expands only entity attributes and instrumented lists. `ObjectMapper.ToDictIsPlain` therefore assumes an ORM-shaped entity.
- `delete` with an `id` that is not given or `None` runs `id IS NULL`. `id` is the primary key, so no stored row is `NULL` there and nothing is deleted.

## Model

| member | source | states |
|---|---|---|
| PyText.Strip | src/common/schemas/filters/base.py:31 | `strip` returns the slice of the string that starts where the leading run of stripped characters ends; its first and last characters are not in the stripped class; the result is empty exactly when every character is stripped |
| PyText.StripCutsOnlyClass | src/common/schemas/filters/base.py:31 | everything `strip` cuts off, before and after the result, is in the stripped class |
| PyText.Split | src/common/repositories/sqlalchemy/filter_builder.py:54 | `split("__")` yields at least one piece and no piece contains the separator |
| PyText.SplitCutsAtFirst | src/common/repositories/sqlalchemy/filter_builder.py:54 | the string is cut iff it contains the separator, and the first piece ends at the leftmost occurrence |
| PyText.SplitAt | src/common/repositories/sqlalchemy/filter_builder.py:54 | after the first piece, the pieces are the split of what follows the leftmost separator |
| PyText.SplitOverlappingSeparator | src/common/repositories/sqlalchemy/filter_builder.py:54 | `"a___b"` splits on `"__"` into `"a"` and `"_b"`, as Python does |
| PyText.SplitJoin | src/common/repositories/sqlalchemy/filter_builder.py:54 | joining the pieces of a split with the separator gives back the string |
| Orm.FindProp | src/common/repositories/sqlalchemy/filter_builder.py:37-42 | a found property is a mapped property with that key; when nothing is found, no property has that key |
| Orm.Relationships | src/common/repositories/sqlalchemy/repository.py:92 | `mapper.relationships` lists exactly the relationship properties of the mapper |
| Statements.Matching | src/common/repositories/sqlalchemy/repository.py:182 | the rows returned are exactly the table rows that satisfy every conjunct |
| Statements.Without | src/common/repositories/sqlalchemy/repository.py:228-231 | DELETE leaves exactly the rows that fail the conjunct; the table keeps its size iff no row satisfies it |
| Statements.Window | src/common/repositories/sqlalchemy/filter_builder.py:22 | OFFSET/LIMIT return a contiguous slice starting at `offset`: `limit` rows when that many remain, otherwise every remaining row, none once `offset` reaches the end, and every row without a limit or offset |
| Statements.Count | src/common/repositories/sqlalchemy/repository.py:184-188 | the count of the statement without offset, limit and ordering is the number of rows that satisfy its WHERE clause |
| Statements.FirstMatch | src/common/repositories/sqlalchemy/repository.py:171 | `session.scalar` picks the first row that satisfies every conjunct, and finds none exactly when no row matches |
| ListFilters.Fields | src/common/schemas/filters/base.py:4-5 | a point filter lists its `id` field first, then exactly its own fields |
| ListFilters.ValidatePagination | src/common/schemas/filters/base.py:9-10 | a filter is valid iff a given `limit` is > 0 and a given `offset` is >= 0; omitted values default to 100 and 0; every violated bound is reported and nothing else |
| ListFilters.ParseSort | src/common/schemas/filters/base.py:27-39 | a field is returned iff the sort is a string whose `+- `-stripped field is non-empty and allowed; that field is the stripped string; the direction is 0 iff the whitespace-stripped sort starts with `-`; with no field, the direction is 0 |
| ListFilters.SortFieldIsTrimmed | src/common/schemas/filters/base.py:31-33 | a returned field is non-empty, starts and ends with none of `+`, `-`, space, and occurs in the sort string |
| ListFilters.MarksOnlyMeansNoSort | src/common/schemas/filters/base.py:31-33 | a sort string made only of `+`, `-` and spaces gives `(None, 0)` |
| ListFilters.ListFilter.constructor | src/common/schemas/filters/base.py:8-14 | a validated filter has `limit > 0`, `offset >= 0` and `total` 0, so `meta` reports total 0 |
| ListFilters.ListFilter.Meta | src/common/schemas/filters/base.py:19-25 | `meta` reports the recorded total with the current limit and offset; for a valid filter the limit is positive and the offset non-negative |
| ListFilters.ListFilter.SetTotal | src/common/schemas/filters/base.py:16-25 | `set_total` sets `total` and changes no other field; `meta` then reports the new total with the unchanged limit and offset |
| FilterBuilding.AttrOf | src/common/repositories/sqlalchemy/filter_builder.py:37-43 | an attribute is found iff the model maps a property with that name, and it is that property of that model |
| FilterBuilding.GetModelFieldToFilter | src/common/repositories/sqlalchemy/filter_builder.py:29-47 | the loop returns what the recursive resolution of the path from the start model gives |
| FilterBuilding.ResolveAppend | src/common/repositories/sqlalchemy/filter_builder.py:35-46 | resolving `a + b` resolves `a`, then resolves `b` from where `a` ended; an unresolved `a` gives `None` |
| FilterBuilding.ColumnAbsorbsRest | src/common/repositories/sqlalchemy/filter_builder.py:41-46 | once a plain column is reached, all later segments are skipped and the column is the result |
| FilterBuilding.ResolveStopsAtMissing | src/common/repositories/sqlalchemy/filter_builder.py:36-45 | a segment that is not an attribute of the current model, or of the current relationship's target, makes the whole path resolve to `None` |
| FilterBuilding.ResolvedIsAttribute | src/common/repositories/sqlalchemy/filter_builder.py:35-47 | a non-empty path that resolves gives a mapped property of the model it belongs to |
| FilterBuilding.SortOrdering | src/common/repositories/sqlalchemy/filter_builder.py:49-58 | at most one ordering; none without a sort field; one iff the split path resolves, on the resolved attribute, ascending iff the direction is non-zero |
| FilterBuilding.Sort | src/common/repositories/sqlalchemy/filter_builder.py:49-58 | `_sort` appends the sort's ordering and changes nothing else in the statement |
| FilterBuilding.StringColumns | src/common/repositories/sqlalchemy/filter_builder.py:64-69 | a key is collected iff it names a `str` column of the model (relationships are skipped) |
| FilterBuilding.SearchClause | src/common/repositories/sqlalchemy/filter_builder.py:60-70 | no conjunct for an absent or empty search or a model without `str` columns; otherwise one OR over all `str` columns |
| FilterBuilding.Search | src/common/repositories/sqlalchemy/filter_builder.py:60-70 | `_search` adds exactly that conjunct and changes nothing else |
| FilterBuilding.SearchMatchesStringColumn | src/common/repositories/sqlalchemy/filter_builder.py:64-70 | a row passes the search iff some `str` column of the model contains the search text, ignoring case |
| FilterBuilding.NoSearchSelectsAll | src/common/repositories/sqlalchemy/filter_builder.py:61-62 | an absent or empty search selects every row |
| FilterBuilding.Build | src/common/repositories/sqlalchemy/filter_builder.py:18-27 | `build` starts from the given statement or `select(model)`, adds the search conjunct, always sets LIMIT/OFFSET to the filter's values, and appends the sort's ordering |
| ObjectMapper.Items | src/common/repositories/sqlalchemy/repository.py:104-105 | a single object given for a to-many relationship is wrapped as a one-element list |
| ObjectMapper.Merge | src/common/repositories/sqlalchemy/repository.py:76-124 | a successful merge keeps the target's model |
| ObjectMapper.MergeRelations | src/common/repositories/sqlalchemy/repository.py:92-118 | the relationship loop keeps the input's key set |
| ObjectMapper.MergeRelation | src/common/repositories/sqlalchemy/repository.py:99-118 | a to-many merge yields a collection and a to-one merge yields an entity |
| ObjectMapper.MergeMany | src/common/repositories/sqlalchemy/repository.py:107-114 | after k input items, the list has length max(n, k) |
| ObjectMapper.AssignSetsKnownKeys | src/common/repositories/sqlalchemy/repository.py:119-122 | the `setattr` pass sets exactly the input keys the mapper knows, to their input values, and leaves every other attribute as it was |
| ObjectMapper.PydanticToModel | src/common/repositories/sqlalchemy/repository.py:76-124 | the loops of `_pydantic_to_model` compute the recursive merge, including its first error |
| ObjectMapper.MergeRelationsM | src/common/repositories/sqlalchemy/repository.py:92-118 | the `for relationship in mapper.relationships` loop computes the relationship pass of the merge, stopping at the first error |
| ObjectMapper.MergeRelationM | src/common/repositories/sqlalchemy/repository.py:99-118 | the relationship branch computes the merge of one relationship entry |
| ObjectMapper.MergeManyM | src/common/repositories/sqlalchemy/repository.py:107-114 | the to-many loop with its `length` countdown computes the aligned list merge |
| ObjectMapper.SetAttributes | src/common/repositories/sqlalchemy/repository.py:119-122 | the `setattr` loop computes `Assign` |
| ObjectMapper.ToManyAlignment | src/common/repositories/sqlalchemy/repository.py:107-114 | the to-many merge succeeds iff every item merge does; then the length is max(n, m), positions below n hold merges onto the existing elements, positions from n on hold new instances, and existing elements past the input are unchanged; on failure the error is the first failing item's |
| ObjectMapper.ToManyLayout | src/common/repositories/sqlalchemy/repository.py:107-114 | the to-many merge succeeds iff every item merge does, and then holds each item's merge at its position and the existing elements past the input unchanged |
| ObjectMapper.ToManyFirstError | src/common/repositories/sqlalchemy/repository.py:107-114 | a failed to-many merge reports the error of the first item whose merge fails |
| ObjectMapper.EmptyListAppendsAll | src/common/repositories/sqlalchemy/repository.py:101-114 | with no existing list, every input item becomes a new instance of the target, in input order |
| ObjectMapper.SingleObjectIsWrapped | src/common/repositories/sqlalchemy/repository.py:104-105 | a single object for a to-many relationship merges exactly like a one-element list |
| ObjectMapper.MissingToOneStartsBlank | src/common/repositories/sqlalchemy/repository.py:101-102 | an unset to-one relationship is merged into a fresh instance of its target |
| ObjectMapper.NullNeverClearsToOne | src/common/repositories/sqlalchemy/repository.py:94-124 | `None` given for a set to-one relationship keeps the related instance, or fails when the target model has relationships |
| ObjectMapper.MergeRelationsEntries | src/common/repositories/sqlalchemy/repository.py:92-118 | for a mapper whose property names are unique, after the loop each relationship named in the input holds its merged value and every other input key its own value |
| ObjectMapper.MergedEntriesByKind | src/common/repositories/sqlalchemy/repository.py:92-118 | after the relationship loop, the input's key set is kept, column keys keep their input value and relationship keys hold the merge of their entry |
| ObjectMapper.MergeIsPartialUpdate | src/common/repositories/sqlalchemy/repository.py:81-122 | for a mapper whose property names are unique: the model is kept; keys absent from the input or unknown to the mapper keep their values; column keys take the input value; relationship keys take the merge of their entry |
| ObjectMapper.NonMappingInput | src/common/repositories/sqlalchemy/repository.py:92-124 | a non-mapping input is accepted iff the model has no relationships, and then changes nothing |
| ObjectMapper.ToDict | src/common/repositories/sqlalchemy/repository.py:126-140 | `_model_to_dict` keeps the entity's key set |
| ObjectMapper.ModelToDict | src/common/repositories/sqlalchemy/repository.py:126-140 | the entry-by-entry rewriting loop computes `ToDict` |
| ObjectMapper.SerializeList | src/common/repositories/sqlalchemy/repository.py:132-139 | the loop over an instrumented list serializes each element in place order: entities become their dicts, other values are kept |
| ObjectMapper.ToDictIsPlain | src/common/repositories/sqlalchemy/repository.py:126-140 | an ORM-shaped entity serializes to plain data with no entity and no instrumented list anywhere |
| ObjectMapper.SerializedFieldIsPlain | src/common/repositories/sqlalchemy/repository.py:129-139 | each serialized attribute of an ORM-shaped entity is plain data |
| ObjectMapper.PlainEntityUnchanged | src/common/repositories/sqlalchemy/repository.py:126-140 | an entity whose attributes are already plain serializes to its own dictionary |
| Repository.EqualityPredicates | src/common/repositories/sqlalchemy/repository.py:48-50 | at most one conjunct per filter field |
| Repository.GetStatement | src/common/repositories/sqlalchemy/repository.py:44-52 | the loop adds the equality conjuncts of the selected fields to the given statement or to `select(model)` and changes nothing else |
| Repository.EqualityPredicatesMeaning | src/common/repositories/sqlalchemy/repository.py:48-50 | a row passes iff it holds the given value in every field that is set, not `None`, and an attribute of the model; other fields are ignored |
| Repository.PointFilterPinsId | src/common/repositories/sqlalchemy/repository.py:48-50 | a filter with a non-`None` `id` selects only rows with that `id` |
| Repository.ListStatement | src/common/repositories/sqlalchemy/repository.py:65-73 | `_get_list_statement` is `build` applied to the given statement or to `select(model)` |
| Repository.Views | src/common/repositories/sqlalchemy/repository.py:142-149 | one view per entity |
| Repository.ToViews | src/common/repositories/sqlalchemy/repository.py:190 | the list comprehension converts each entity with `_model_to_dict` |
| Repository.PageWithinTotal | src/common/repositories/sqlalchemy/repository.py:182-189 | a page has at most `limit` rows and is the slice of the matching rows at `offset`; it is full when the total reaches `offset + limit`, holds every row from `offset` on when fewer remain, and is empty once `offset` reaches the total |
| Repository.SqlAlchemyRepository.constructor | src/common/repositories/sqlalchemy/repository.py:151-165 | a repository is bound to one model, and every row is an instance of it |
| Repository.SqlAlchemyRepository.Get | src/common/repositories/sqlalchemy/repository.py:167-176 | `get` returns `None` iff no row matches the point filter; otherwise it returns the view of the first matching row |
| Repository.SqlAlchemyRepository.GetList | src/common/repositories/sqlalchemy/repository.py:178-190 | `total` becomes the number of rows the search selects, ignoring pagination; the views are the rows of the page at `offset`, at most `limit` of them; the filter stays valid and no other filter field changes |
| Repository.SqlAlchemyRepository.GetAllStatement | src/common/repositories/sqlalchemy/repository.py:196-199 | `get_all` drops LIMIT and OFFSET and keeps the search conjunct and the ordering |
| Repository.SqlAlchemyRepository.GetAll | src/common/repositories/sqlalchemy/repository.py:192-200 | `get_all` returns every row the search selects, whatever the pagination |
| Repository.SqlAlchemyRepository.Create | src/common/repositories/sqlalchemy/repository.py:202-208 | on success, the merge of the input into a new instance is appended to the table and returned as a view; on failure the table is unchanged |
| Repository.SqlAlchemyRepository.Update | src/common/repositories/sqlalchemy/repository.py:210-225 | `None` and no change when no row matches; otherwise the first match is replaced by its merge with the input and returned; a failed merge changes nothing |
| Repository.SqlAlchemyRepository.Delete | src/common/repositories/sqlalchemy/repository.py:227-233 | for a given non-`None` `id`, the rows with that `id` are removed and the result is true iff at least one row had it; an unset or `None` `id` (`id IS NULL` on the primary key) removes nothing and returns false |
| Repository.DeleteThenGetFindsNothing | src/common/repositories/sqlalchemy/repository.py:167-176 | after deleting a given non-`None` `id`, `get` with the same `id` finds no row |

## Left out

- SQLAlchemy reflection is replaced by the registry.
  - `hasattr` on a model class is taken to mean "is a mapped property".
  - Methods and other class attributes that `hasattr` would also find are not modelled.
  - `prop.python_type` raising for column types without a Python type is not modelled; a column is `str`-typed or not.
- Pydantic is not modelled.
  - Schema validation, `parse_obj` and `dict()` are left out. `_model_to_pydantic` is modelled as `_model_to_dict`, and a view is its dictionary.
  - The input of `create`/`update` is already the `exclude_unset` dictionary.
  - A non-string `sort` or `search` value cannot be represented: both are `Option<string>`.
- `__filter_config__` comes from a package that is not part of this model. Its sort allow-list is a parameter: the string `"*"`, another string tested with Python's substring `in`, or a set of names.
- Entities are values, so in-place mutation and aliasing are left out.
  - An update writes the merged entity back to its table position.
  - If `_pydantic_to_model` fails partway, the model does not capture the in-place changes made before the exception. The model only reports the error and leaves the table unchanged.
  - `_model_to_dict` rewriting `model.__dict__` in place, and its `_sa_instance_state` entry, are left out.
- A mapper's property names are unique, as SQLAlchemy guarantees. The results about the merged entries (`ObjectMapper.MergeRelationsEntries`, `MergedEntriesByKind`, `MergeIsPartialUpdate`) require this of the registry, because the registry could otherwise list one name twice.
- Input to `_pydantic_to_model` is read from the original dictionary instead of through `pop`. Relationship names are distinct, so the value read is the same.
- A to-many attribute is taken to hold an instrumented list or `None`. Any other value is the `NotAList` error. A plain Python list cannot be an ORM relationship attribute.
- ORDER BY is not evaluated against the table. `Execute` returns rows in table order. Ordering is proved only at the statement level (`FilterBuilding.Sort`, `Build`, `GetAllStatement`).
- The async session is not modelled: `session_factory`, `scalar`/`scalars`, `add`, `flush` and transactions.
  - The table is the `rows` field of the repository class.
  - The uncalled `session_factory` in `get_list`/`get_all`/`create`/`update`/`delete` is not modelled.
  - The constructor's optional custom `filter_builder` is left out. The default `FilterBuilder(model)` is always used.
  - Storage failures are not modelled.
- Values the database generates on flush (identifiers, timestamps) are not modelled. So "create then get by the generated id" is not stated.
- `icontains` is modelled as an ASCII-lowercased substring test. SQL `LIKE` wildcards in the search text and Unicode case folding are left out.
- Scalar values are limited to `None`, integers, booleans and strings. Floats, dates and other column types are left out.
- JWT, bcrypt, the web layer, the DI container and settings are outside this core and are not part of this model.
