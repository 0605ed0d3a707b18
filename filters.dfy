/**
 * Pagination and sorting parameters of a list request: their validation,
 * the ORDER BY column and direction, LIMIT/OFFSET, and page metadata.
 */
module Filters {
  import opened Wrappers
  import opened Strconv
  import Strings
  import opened Validation

  const MaxPage := 10_000_000
  const MaxPageSize := 100

  datatype Filters = Filters(page: Int64, pageSize: Int64, sort: string, sortSafeList: seq<string>)

  /** The JSON `metadata` object; the zero value is all zeros. */
  datatype Metadata = Metadata(currentPage: int, pageSize: int, firstPage: int, lastPage: int, totalRecords: int)

  function PageRules(page: Int64): seq<Rule>
  {
    [ Rule(page > 0, "page", "must be greater than 0"),
      Rule(page <= MaxPage, "page", "must be a maximum of 10 million") ]
  }

  function PageSizeRules(pageSize: Int64): seq<Rule>
  {
    [ Rule(pageSize > 0, "page_size", "must be greater than zero"),
      Rule(pageSize <= MaxPageSize, "page_size", "must be a maximum of 100") ]
  }

  function SortRules(f: Filters): seq<Rule>
  {
    [ Rule(f.sort in f.sortSafeList, "sort", "invalid sort value") ]
  }

  /** The checks `ValidateFilters` makes, in order. */
  function FilterRules(f: Filters): seq<Rule>
  {
    PageRules(f.page) + PageSizeRules(f.pageSize) + SortRules(f)
  }

  /** Page and page size within the bounds `ValidateFilters` enforces. */
  predicate InRange(f: Filters)
  {
    1 <= f.page <= MaxPage && 1 <= f.pageSize <= MaxPageSize
  }

  /** Lines 26-27 of `ValidateFilters`: the page checks. */
  method CheckPage(v: Validator, page: Int64)
    modifies v
    ensures v.errors == Apply(old(v.errors), PageRules(page))
  {
    ghost var e0 := v.errors;
    ghost var rules := PageRules(page);
    v.Check(page > 0, "page", "must be greater than 0");
    assert v.errors == Apply(e0, rules[..1]);
    v.Check(page <= MaxPage, "page", "must be a maximum of 10 million");
    assert rules[..2] == rules && rules[..1] == rules[..|rules| - 1];
  }

  /** Lines 28-29 of `ValidateFilters`: the page size checks. */
  method CheckPageSize(v: Validator, pageSize: Int64)
    modifies v
    ensures v.errors == Apply(old(v.errors), PageSizeRules(pageSize))
  {
    ghost var e0 := v.errors;
    ghost var rules := PageSizeRules(pageSize);
    v.Check(pageSize > 0, "page_size", "must be greater than zero");
    assert v.errors == Apply(e0, rules[..1]);
    v.Check(pageSize <= MaxPageSize, "page_size", "must be a maximum of 100");
    assert rules[..2] == rules && rules[..1] == rules[..|rules| - 1];
  }

  method ValidateFilters(v: Validator, f: Filters)
    modifies v
    ensures v.errors == Apply(old(v.errors), FilterRules(f))
  {
    ghost var e0 := v.errors;
    ghost var a, b, c := PageRules(f.page), PageSizeRules(f.pageSize), SortRules(f);
    CheckPage(v, f.page);
    CheckPageSize(v, f.pageSize);
    ApplyConcat(e0, a, b);
    ghost var e2 := v.errors;
    var permitted := PermittedValue(f.sort, f.sortSafeList);
    v.Check(permitted, "sort", "invalid sort value");
    assert v.errors == Apply(e2, c) by { assert c[..0] == []; }
    ApplyConcat(e0, a + b, c);
  }

  /** The message a fresh validator holds for "page" after validation, if any. */
  function PageMessage(page: Int64): (m: Option<string>)
    ensures m.Some? <==> !(1 <= page <= MaxPage)
  {
    if page <= 0 then Some("must be greater than 0")
    else if page > MaxPage then Some("must be a maximum of 10 million")
    else None
  }

  function PageSizeMessage(pageSize: Int64): (m: Option<string>)
    ensures m.Some? <==> !(1 <= pageSize <= MaxPageSize)
  {
    if pageSize <= 0 then Some("must be greater than zero")
    else if pageSize > MaxPageSize then Some("must be a maximum of 100")
    else None
  }

  function SortMessage(f: Filters): (m: Option<string>)
    ensures m.Some? <==> f.sort !in f.sortSafeList
  {
    if f.sort !in f.sortSafeList then Some("invalid sort value") else None
  }

  /**
   * For the key of one parameter, the first failure among all checks is
   * the first failure among that parameter's checks; other keys have none.
   */
  lemma FilterFailure(f: Filters, key: string)
    ensures var r := FirstFailure(FilterRules(f), key);
      && (key == "page" ==> r == PageMessage(f.page))
      && (key == "page_size" ==> r == PageSizeMessage(f.pageSize))
      && (key == "sort" ==> r == SortMessage(f))
      && (key != "page" && key != "page_size" && key != "sort" ==> r.None?)
  {
    var a, b, c := PageRules(f.page), PageSizeRules(f.pageSize), SortRules(f);
    assert AllAbout(a, "page") && AllAbout(b, "page_size") && AllAbout(c, "sort");
    FirstFailureConcat(a, b, key);
    FirstFailureConcat(a + b, c, key);
    assert a[..1][..0] == [] && b[..1][..0] == [] && c[..0] == [];
  }

  /**
   * What `ValidateFilters` records. Messages already present stay. A key
   * without a message gets the first failing check's message: "page" when
   * the page is outside 1..10,000,000, "page_size" when the size is outside
   * 1..100, "sort" when the sort key is not in the safelist. No other key
   * changes.
   */
  lemma FilterErrors(errors: map<string, string>, f: Filters)
    ensures var r := Apply(errors, FilterRules(f));
      && (forall k :: k in errors ==> k in r && r[k] == errors[k])
      && ("page" !in errors ==> Lookup(r, "page") == PageMessage(f.page))
      && ("page_size" !in errors ==> Lookup(r, "page_size") == PageSizeMessage(f.pageSize))
      && ("sort" !in errors ==> Lookup(r, "sort") == SortMessage(f))
      && (forall k :: k != "page" && k != "page_size" && k != "sort" ==> (k in r <==> k in errors))
  {
    var rules := FilterRules(f);
    ApplyKeeps(errors, rules);
    forall k ensures k !in errors ==> Lookup(Apply(errors, rules), k) == FirstFailure(rules, k) {
      ApplyRules(errors, rules, k);
    }
    forall k ensures var r := FirstFailure(rules, k);
      && (k == "page" ==> r == PageMessage(f.page))
      && (k == "page_size" ==> r == PageSizeMessage(f.pageSize))
      && (k == "sort" ==> r == SortMessage(f))
      && (k != "page" && k != "page_size" && k != "sort" ==> r.None?)
    {
      FilterFailure(f, k);
    }
  }

  /** Filters that leave a fresh validator valid are in range and have a safe sort key. */
  lemma ValidFiltersInRange(f: Filters)
    requires Apply(map[], FilterRules(f)) == map[]
    ensures InRange(f) && f.sort in f.sortSafeList
  {
    FilterErrors(map[], f);
  }

  /**
   * `sortColumn()`: searches the safelist for the sort key and returns it
   * without its leading "-". A key missing from the safelist makes the
   * source panic, so callers must have validated it.
   */
  method SortColumn(f: Filters) returns (column: string)
    requires f.sort in f.sortSafeList
    ensures if Strings.HasPrefix(f.sort, '-') then "-" + column == f.sort else column == f.sort
  {
    var i := 0;
    while f.sortSafeList[i] != f.sort
      invariant 0 <= i < |f.sortSafeList|
      invariant f.sort !in f.sortSafeList[..i]
      decreases |f.sortSafeList| - i
    {
      assert f.sortSafeList[..i + 1] == f.sortSafeList[..i] + [f.sortSafeList[i]];
      i := i + 1;
    }
    column := Strings.TrimPrefix(f.sort, '-');
  }

  /** `sortDirection()`: "DESC" for a "-"-prefixed key, otherwise "ASC". */
  function SortDirection(f: Filters): (dir: string)
    ensures dir == "DESC" <==> Strings.HasPrefix(f.sort, '-')
    ensures dir == "ASC" <==> !Strings.HasPrefix(f.sort, '-')
  {
    if Strings.HasPrefix(f.sort, '-') then "DESC" else "ASC"
  }

  /** `limit()`: the page size, which validation keeps within 1..100. */
  function Limit(f: Filters): (n: Int64)
    ensures InRange(f) ==> 1 <= n <= MaxPageSize
  {
    f.pageSize
  }

  /**
   * `offset()`: `(page - 1) * pageSize` in 64-bit arithmetic. For validated
   * filters nothing wraps and the result is a non-negative value that fits
   * even in 32 bits.
   */
  function Offset(f: Filters): (n: Int64)
    ensures InRange(f) ==> n == (f.page - 1) * f.pageSize
    ensures InRange(f) ==> 0 <= n <= (MaxPage - 1) * MaxPageSize < Two31
  {
    var p := f.page - 1;
    assert InRange(f) ==> 0 <= p * f.pageSize <= p * MaxPageSize <= (MaxPage - 1) * MaxPageSize by {
      if InRange(f) {
        MulMono(p, f.pageSize, MaxPageSize);
        MulMono(MaxPageSize, p, MaxPage - 1);
      }
    }
    Wrap64(Wrap64(p) * f.pageSize)
  }

  lemma MulMono(a: nat, b: nat, c: nat)
    requires b <= c
    ensures 0 <= a * b <= a * c
  {
  }

  /**
   * `calculateMetadata`: the zero value when there are no records, else the
   * current page, its size, first page 1, and last page the least `n` with
   * `n * pageSize >= totalRecords`.
   */
  function CalculateMetadata(totalRecords: nat, page: int, pageSize: int): (m: Metadata)
    requires pageSize >= 1
    ensures totalRecords == 0 ==> m == Metadata(0, 0, 0, 0, 0)
    ensures totalRecords > 0 ==>
      && m.currentPage == page && m.pageSize == pageSize && m.firstPage == 1
      && m.totalRecords == totalRecords
      && m.lastPage >= 1
      && m.lastPage * pageSize >= totalRecords
      && (m.lastPage - 1) * pageSize < totalRecords
  {
    if totalRecords == 0 then Metadata(0, 0, 0, 0, 0)
    else
      var last := CeilDiv(totalRecords, pageSize);
      Metadata(page, pageSize, 1, last, totalRecords)
  }

  /** `ceil(a / b)` on non-negative integers. */
  function CeilDiv(a: nat, b: int): (q: nat)
    requires b >= 1
    ensures q * b >= a
    ensures (q - 1) * b < a || a == 0
  {
    var q := (a + b - 1) / b;
    var r := (a + b - 1) % b;
    assert q * b + r == a + b - 1;
    q
  }
}
