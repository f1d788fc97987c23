/**
 * The filter objects of `src/common/schemas/filters/base.py`: the point-lookup
 * filter, the list filter with its pagination constraints and defaults, its
 * mutable `total` side channel, and the parsing of its sort string.
 */
module ListFilters {
  import opened Results
  import opened PyText
  import opened Orm

  // ---------------------------------------------------------------------------
  // BaseFilter

  /** Whether a schema field was given explicitly (`exclude_unset` keeps only those). */
  datatype Setting = Unset | SetTo(value: Value)

  datatype FilterField = FilterField(name: string, setting: Setting)

  /** A point-lookup filter: the `id` field every filter declares, then a subclass's own fields. */
  datatype PointFilter = PointFilter(id: Setting, others: seq<FilterField>)

  /** The filter's fields in declaration order, as `filter_.dict()` lists them. */
  function Fields(f: PointFilter): (fs: seq<FilterField>)
    ensures |fs| == 1 + |f.others| && fs[0] == FilterField("id", f.id)
    ensures fs[1..] == f.others
  {
    [FilterField("id", f.id)] + f.others
  }

  /** `filter_.id`: the given identifier, `None` when it was not given. */
  function IdOf(f: PointFilter): Value
  {
    if f.id.SetTo? then f.id.value else Null
  }

  // ---------------------------------------------------------------------------
  // BaseListFilter: pagination fields

  const DefaultLimit: int := 100
  const DefaultOffset: int := 0

  datatype FieldError = LimitNotPositive(limit: int) | OffsetNegative(offset: int)

  datatype Pagination = Pagination(limit: int, offset: int)

  /**
   * Validation of `limit: int = Field(100, gt=0)` and `offset: int = Field(0, ge=0)`:
   * an omitted field takes its default, a given one must meet its bound, and
   * every violated bound is reported.
   */
  function ValidatePagination(limit: Option<int>, offset: Option<int>): (r: Result<Pagination, seq<FieldError>>)
    ensures r.Ok? <==> (limit.None? || limit.value > 0) && (offset.None? || offset.value >= 0)
    ensures r.Ok? ==> r.value.limit > 0 && r.value.offset >= 0
    ensures r.Ok? ==> r.value.limit == (if limit.Some? then limit.value else DefaultLimit)
    ensures r.Ok? ==> r.value.offset == (if offset.Some? then offset.value else DefaultOffset)
    ensures limit.Some? && limit.value <= 0 ==> r.Err? && LimitNotPositive(limit.value) in r.error
    ensures offset.Some? && offset.value < 0 ==> r.Err? && OffsetNegative(offset.value) in r.error
    ensures r.Err? ==> forall e :: e in r.error ==>
              || (e.LimitNotPositive? && limit == Some(e.limit) && e.limit <= 0)
              || (e.OffsetNegative? && offset == Some(e.offset) && e.offset < 0)
  {
    var l := if limit.Some? then limit.value else DefaultLimit;
    var o := if offset.Some? then offset.value else DefaultOffset;
    var errors := (if l > 0 then [] else [LimitNotPositive(l)]) + (if o >= 0 then [] else [OffsetNegative(o)]);
    if errors == [] then Ok(Pagination(l, o)) else Err(errors)
  }

  // ---------------------------------------------------------------------------
  // BaseListFilter.get_sort

  /**
   * `__filter_config__.sort`, which the filters package supplies: a string
   * (`"*"` admits every field, any other string is tested with Python's
   * substring `in`) or a collection of field names.
   */
  datatype SortAllowList = AllowText(text: string) | AllowNames(names: set<string>)

  predicate Allows(allow: SortAllowList, field: string)
  {
    match allow
    case AllowText(text) => text == "*" || IsSubstring(field, text)
    case AllowNames(names) => field in names
  }

  /** What `get_sort` returns: a field or `None`, and 1 for ascending, 0 for descending. */
  datatype SortSpec = SortSpec(field: Option<string>, direction: int)

  /** The argument of `sort.strip("+- ")`. */
  const SortMarks: CharClass := AnyOf({'+', '-', ' '})

  /** The sort field a sort string names: the string with `+`, `-` and spaces cut from both ends. */
  function SortField(sort: string): string
  {
    Strip(sort, SortMarks)
  }

  /** The sort string asks for descending order: it starts with `-` once whitespace is stripped. */
  predicate Descending(sort: string)
  {
    StartsWith(Strip(sort, Whitespace), "-")
  }

  /**
   * `get_sort`. A field is returned exactly when the sort is a string whose
   * trimmed field is non-empty and admitted by the allow-list; the direction
   * is then 0 exactly for a descending sort string, and 0 whenever no field is
   * returned.
   */
  function ParseSort(sort: Option<string>, allow: SortAllowList): (r: SortSpec)
    ensures r.direction == 0 || r.direction == 1
    ensures r.field.None? ==> r.direction == 0
    ensures r.field.Some? <==> sort.Some? && SortField(sort.value) != "" && Allows(allow, SortField(sort.value))
    ensures r.field.Some? ==> r.field.value == SortField(sort.value)
    ensures r.field.Some? ==> (r.direction == 0 <==> Descending(sort.value))
  {
    if sort.None? then SortSpec(None, 0)
    else
      var field := SortField(sort.value);
      if field == "" then SortSpec(None, 0)
      else
        var direct := if Descending(sort.value) then 0 else 1;
        if Allows(allow, field) then SortSpec(Some(field), direct)
        else SortSpec(None, 0)
  }

  /**
   * A returned sort field is non-empty, neither starts nor ends with `+`, `-`
   * or a space, and is a piece of the sort string.
   */
  lemma {:induction false} SortFieldIsTrimmed(sort: Option<string>, allow: SortAllowList)
    requires ParseSort(sort, allow).field.Some?
    ensures var f := ParseSort(sort, allow).field.value;
            && f != []
            && f[0] !in {'+', '-', ' '} && f[|f| - 1] !in {'+', '-', ' '}
            && IsSubstring(f, sort.value)
  {
    var f := SortField(sort.value);
    StripIsSubstring(sort.value, SortMarks);
    assert !InClass(f[0], SortMarks) && !InClass(f[|f| - 1], SortMarks);
  }

  lemma {:induction false} StripIsSubstring(s: string, cls: CharClass)
    ensures var f := Strip(s, cls);
            IsSubstring(f, s) && (f != [] ==> !InClass(f[0], cls) && !InClass(f[|f| - 1], cls))
  {
    var f := Strip(s, cls);
    var i := StripStart(s, cls);
    SliceIsSubstring(s, i, |f|);
    assert f == s[i..i + |f|];
  }

  lemma {:induction false} SliceIsSubstring(s: string, i: nat, n: nat)
    requires i + n <= |s|
    ensures IsSubstring(s[i..i + n], s)
    decreases i
  {
    if i > 0 {
      SliceIsSubstring(s[1..], i - 1, n);
      assert s[1..][i - 1..i - 1 + n] == s[i..i + n];
    }
  }

  /** A sort string made only of `+`, `-` and spaces names no field, whatever the allow-list. */
  lemma {:induction false} MarksOnlyMeansNoSort(sort: string, allow: SortAllowList)
    requires AllIn(sort, SortMarks)
    ensures ParseSort(Some(sort), allow) == SortSpec(None, 0)
  {
  }

  // ---------------------------------------------------------------------------
  // BaseListFilter: the object

  /** `meta`: the pagination block reported next to a list result. */
  datatype PageMeta = PageMeta(total: int, limit: int, offset: int)

  class ListFilter {
    var limit: int
    var offset: int
    var sort: Option<string>
    var search: Option<string>
    /** `_total`, a private attribute that starts at 0 and is set after a list query. */
    var total: int
    /** `__filter_config__.sort` of the concrete filter class. */
    const allow: SortAllowList

    /** The field constraints every validated list filter meets. */
    ghost predicate Valid()
      reads this
    {
      limit > 0 && offset >= 0
    }

    constructor (p: Pagination, sort: Option<string>, search: Option<string>, allow: SortAllowList)
      requires p.limit > 0 && p.offset >= 0
      ensures Valid()
      ensures limit == p.limit && offset == p.offset && this.sort == sort && this.search == search
      ensures this.allow == allow
      ensures Meta() == PageMeta(0, p.limit, p.offset)
    {
      limit := p.limit;
      offset := p.offset;
      this.sort := sort;
      this.search := search;
      this.allow := allow;
      total := 0;
    }

    /** `set_total`: records the count and changes nothing else. */
    method SetTotal(value: int)
      modifies this
      ensures total == value
      ensures limit == old(limit) && offset == old(offset)
      ensures sort == old(sort) && search == old(search)
      ensures old(Valid()) ==> Valid()
      ensures Meta() == PageMeta(value, old(limit), old(offset))
    {
      total := value;
    }

    /**
     * `meta`: the recorded total with the current limit and offset; for a
     * valid filter the reported limit is positive and the offset non-negative.
     */
    function Meta(): (m: PageMeta)
      reads this
      ensures m.total == total && m.limit == limit && m.offset == offset
      ensures Valid() ==> m.limit > 0 && m.offset >= 0
    {
      PageMeta(total, limit, offset)
    }

    /** `get_sort` on this filter's sort string and its class's allow-list. */
    function GetSort(): SortSpec
      reads this
    {
      ParseSort(sort, allow)
    }
  }
}
