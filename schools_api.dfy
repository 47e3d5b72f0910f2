/** `GET /api/schools`: the query parameters with their defaults, the filters added
    only for non-empty parameters, the `sortBy` dispatch, the pagination arithmetic
    and the response built from the store's answer. The store evaluates the query;
    its answer is a parameter. */
module SchoolsApi {
  import opened Common
  import opened Http

  /** `searchParams.get(...)` for each parameter: `None` when absent. `page` and
      `limit` are given already parsed, `None` when the parameter is absent or empty. */
  datatype Params = Params(
    search: Option<string>, schoolType: Option<string>, zone: Option<string>,
    province: Option<string>, sortBy: Option<string>, page: Option<int>, limit: Option<int>)

  const NoParams: Params := Params(None, None, None, None, None, None, None)

  /** `searchParams.get(k) || d`. */
  function TextOr(v: Option<string>, d: string): (r: string)
    ensures v.Some? && v.value != "" ==> r == v.value
    ensures v.None? || v.value == "" ==> r == d
  {
    if v.Some? && v.value != "" then v.value else d
  }

  function NumberOr(v: Option<int>, d: int): int {
    if v.Some? then v.value else d
  }

  function Search(p: Params): string { TextOr(p.search, "") }
  function SchoolType(p: Params): string { TextOr(p.schoolType, "") }
  function Zone(p: Params): string { TextOr(p.zone, "") }
  function Province(p: Params): string { TextOr(p.province, "") }
  function SortBy(p: Params): string { TextOr(p.sortBy, "name") }
  function Page(p: Params): int { NumberOr(p.page, 1) }
  function Limit(p: Params): int { NumberOr(p.limit, 20) }

  // ================================================================ the query

  /** The row fields the filters look at; `provinceId` is the id's decimal text. */
  datatype SchoolRow = SchoolRow(name: string, address: string, schoolType: string, zone: string, provinceId: string)

  /** `query.or('name.ilike.%s%,address.ilike.%s%')` and `query.eq(column, value)`. */
  datatype Filter = NameOrAddressLike(pattern: string) | Equals(column: string, value: string)

  datatype Order = Order(column: string, ascending: bool)

  /** The filters, the order and the inclusive row range `[from, to]` sent to the store. */
  datatype Query = Query(filters: seq<Filter>, order: Order, from: int, to: int)

  /** `ilike '%pattern%'`: case-insensitive containment. */
  predicate Like(field: string, pattern: string) {
    Contains(Lower(field), Lower(pattern))
  }

  function ColumnValue(row: SchoolRow, column: string): Option<string> {
    if column == "type" then Some(row.schoolType)
    else if column == "zone" then Some(row.zone)
    else if column == "province_id" then Some(row.provinceId)
    else None
  }

  predicate Keeps(f: Filter, row: SchoolRow) {
    match f
    case NameOrAddressLike(pattern) => Like(row.name, pattern) || Like(row.address, pattern)
    case Equals(column, value) => ColumnValue(row, column) == Some(value)
  }

  /** The filters are combined with AND. */
  predicate KeepsAll(filters: seq<Filter>, row: SchoolRow) {
    forall i :: 0 <= i < |filters| ==> Keeps(filters[i], row)
  }

  /** The rows the parameters ask for, stated directly: every non-empty parameter
      constrains its field, an empty one constrains nothing. */
  predicate Wanted(p: Params, row: SchoolRow) {
    && (Search(p) == "" || Like(row.name, Search(p)) || Like(row.address, Search(p)))
    && (SchoolType(p) == "" || row.schoolType == SchoolType(p))
    && (Zone(p) == "" || row.zone == Zone(p))
    && (Province(p) == "" || row.provinceId == Province(p))
  }

  /** A filter for `value` when it is non-empty, nothing otherwise. */
  function When(value: string, f: Filter): seq<Filter> {
    if value != "" then [f] else []
  }

  function FiltersFor(p: Params): seq<Filter> {
    When(Search(p), NameOrAddressLike(Search(p)))
      + When(SchoolType(p), Equals("type", SchoolType(p)))
      + When(Zone(p), Equals("zone", Zone(p)))
      + When(Province(p), Equals("province_id", Province(p)))
  }

  /** The columns sorted in descending order; every other `sortBy` sorts by name. */
  const DescendingColumns: seq<string> := ["rating", "views", "prueba_nacional"]

  /** The `sortBy` dispatch. */
  function OrderFor(sortBy: string): (o: Order)
    ensures sortBy in DescendingColumns ==> o == Order(sortBy, false)
    ensures sortBy !in DescendingColumns ==> o == Order("name", true)
    ensures o.ascending <==> o.column == "name"
  {
    if sortBy == "rating" then Order("rating", false)
    else if sortBy == "views" then Order("views", false)
    else if sortBy == "prueba_nacional" then Order("prueba_nacional", false)
    else Order("name", true)
  }

  /** `offset = (page - 1) * limit`. */
  function Offset(page: int, limit: int): int {
    (page - 1) * limit
  }

  /** The query the handler sends for `p`. */
  function QueryFor(p: Params): Query {
    var offset := Offset(Page(p), Limit(p));
    Query(FiltersFor(p), OrderFor(SortBy(p)), offset, offset + Limit(p) - 1)
  }

  lemma KeepsAllConcat(a: seq<Filter>, b: seq<Filter>, row: SchoolRow)
    ensures KeepsAll(a + b, row) <==> KeepsAll(a, row) && KeepsAll(b, row)
  {
    if KeepsAll(a, row) && KeepsAll(b, row) {
      forall i | 0 <= i < |a + b| ensures Keeps((a + b)[i], row) {
        if i >= |a| { assert (a + b)[i] == b[i - |a|]; }
      }
    }
    if KeepsAll(a + b, row) {
      forall i | 0 <= i < |a| ensures Keeps(a[i], row) {
        assert (a + b)[i] == a[i];
      }
      forall i | 0 <= i < |b| ensures Keeps(b[i], row) {
        assert (a + b)[|a| + i] == b[i];
      }
    }
  }

  lemma KeepsAllWhen(value: string, f: Filter, row: SchoolRow)
    ensures KeepsAll(When(value, f), row) <==> value == "" || Keeps(f, row)
  {
    if value != "" {
      assert When(value, f)[0] == f;
    }
  }

  /** The filter list selects exactly the wanted rows. */
  lemma QuerySelectsWanted(p: Params, row: SchoolRow)
    ensures KeepsAll(QueryFor(p).filters, row) <==> Wanted(p, row)
  {
    var s := When(Search(p), NameOrAddressLike(Search(p)));
    var t := When(SchoolType(p), Equals("type", SchoolType(p)));
    var z := When(Zone(p), Equals("zone", Zone(p)));
    var v := When(Province(p), Equals("province_id", Province(p)));
    KeepsAllConcat(s, t, row);
    KeepsAllConcat(s + t, z, row);
    KeepsAllConcat(s + t + z, v, row);
    KeepsAllWhen(Search(p), NameOrAddressLike(Search(p)), row);
    KeepsAllWhen(SchoolType(p), Equals("type", SchoolType(p)), row);
    KeepsAllWhen(Zone(p), Equals("zone", Zone(p)), row);
    KeepsAllWhen(Province(p), Equals("province_id", Province(p)), row);
  }

  /** A filter is sent exactly when its parameter is non-empty. */
  lemma FilterSentIffGiven(p: Params)
    ensures NameOrAddressLike(Search(p)) in QueryFor(p).filters <==> Search(p) != ""
    ensures Equals("type", SchoolType(p)) in QueryFor(p).filters <==> SchoolType(p) != ""
    ensures Equals("zone", Zone(p)) in QueryFor(p).filters <==> Zone(p) != ""
    ensures Equals("province_id", Province(p)) in QueryFor(p).filters <==> Province(p) != ""
    ensures |QueryFor(p).filters| <= 4
  {
  }

  /** Without parameters: no filter, name order, rows 0 to 19. */
  lemma Defaults()
    ensures QueryFor(NoParams) == Query([], Order("name", true), 0, 19)
    ensures SortBy(NoParams) == "name" && Page(NoParams) == 1 && Limit(NoParams) == 20
  {
  }

  /** The inclusive range holds exactly `limit` rows, and consecutive pages are
      adjacent: page `k + 1` starts right after page `k` ends. */
  lemma RangeSpansLimit(p: Params)
    ensures QueryFor(p).to - QueryFor(p).from + 1 == Limit(p)
    ensures Page(p) == 1 ==> QueryFor(p).from == 0
    ensures QueryFor(p.(page := Some(Page(p) + 1))).from == QueryFor(p).to + 1
  {
  }

  /** `if (value) query = query.<filter>`: one conditional rebinding. */
  method Refine(filters: seq<Filter>, value: string, f: Filter) returns (r: seq<Filter>)
    ensures r == filters + When(value, f)
  {
    r := filters;
    if value != "" {
      r := r + [f];
    }
  }

  /** The `sortBy` if/else chain as the handler runs it. */
  method ChooseOrder(sortBy: string) returns (order: Order)
    ensures order == OrderFor(sortBy)
  {
    if sortBy == "rating" {
      order := Order("rating", false);
    } else if sortBy == "views" {
      order := Order("views", false);
    } else if sortBy == "prueba_nacional" {
      order := Order("prueba_nacional", false);
    } else {
      order := Order("name", true);
    }
  }

  /** `query` rebound step by step as the handler does. */
  method BuildQuery(p: Params) returns (q: Query)
    ensures q == QueryFor(p)
    ensures forall row :: KeepsAll(q.filters, row) <==> Wanted(p, row)
  {
    var search := TextOr(p.search, "");
    var schoolType := TextOr(p.schoolType, "");
    var zone := TextOr(p.zone, "");
    var province := TextOr(p.province, "");
    var sortBy := TextOr(p.sortBy, "name");
    var page := NumberOr(p.page, 1);
    var limit := NumberOr(p.limit, 20);
    var offset := (page - 1) * limit;
    var filters: seq<Filter> := [];
    filters := Refine(filters, search, NameOrAddressLike(search));
    filters := Refine(filters, schoolType, Equals("type", schoolType));
    filters := Refine(filters, zone, Equals("zone", zone));
    filters := Refine(filters, province, Equals("province_id", province));
    var order := ChooseOrder(sortBy);
    q := Query(filters, order, offset, offset + limit - 1);
    assert filters == FiltersFor(p);
    forall row ensures KeepsAll(q.filters, row) <==> Wanted(p, row) {
      QuerySelectsWanted(p, row);
    }
  }

  // ================================================================ pagination

  /** `Math.ceil` on exact reals. */
  function Ceil(x: real): (c: int)
    ensures x <= c as real < x + 1.0
  {
    if x.Floor as real == x then x.Floor else x.Floor + 1
  }

  /** `Math.ceil(total / limit)`; a zero limit gives an infinite or undefined value,
      which the JSON body carries as `null` (`None`). */
  function PageCount(total: int, limit: int): (pages: Option<int>)
    ensures pages.None? <==> limit == 0
    ensures limit != 0 ==> total as real / limit as real <= pages.value as real < total as real / limit as real + 1.0
  {
    if limit == 0 then None else Some(Ceil(total as real / limit as real))
  }

  lemma CastMul(a: int, b: int)
    ensures (a * b) as real == a as real * b as real
  {
  }

  /** Dividing by a positive number keeps the order of the dividends. */
  lemma DivideOrdered(a: int, b: int, limit: int)
    requires limit > 0
    ensures a <= b * limit ==> a as real / limit as real <= b as real
    ensures b * limit < a ==> b as real < a as real / limit as real
  {
    CastMul(b, limit);
    var x := a as real / limit as real;
    assert x * limit as real == a as real;
  }

  /** The integer ceiling `(total + limit - 1) / limit` brackets `total`. */
  lemma CeilDivBounds(total: int, limit: int)
    requires limit > 0
    ensures var q := (total + limit - 1) / limit;
      total <= q * limit && (q - 1) * limit < total
    ensures total >= 0 ==> (total + limit - 1) / limit >= 0
  {
    var q := (total + limit - 1) / limit;
    var r := (total + limit - 1) % limit;
    assert total + limit - 1 == q * limit + r && 0 <= r < limit;
    assert (q - 1) * limit == q * limit - limit;
  }

  /** `Ceil` answers the one integer in `[x, x + 1)`. */
  lemma CeilUnique(x: real, c: int)
    requires x <= c as real < x + 1.0
    ensures Ceil(x) == c
  {
  }

  /** With a positive limit the page count is the integer ceiling
      `(total + limit - 1) / limit`. */
  lemma PageCountDiv(total: int, limit: int)
    requires limit > 0
    ensures PageCount(total, limit) == Some((total + limit - 1) / limit)
  {
    var q := (total + limit - 1) / limit;
    CeilDivBounds(total, limit);
    DivideOrdered(total, q, limit);
    DivideOrdered(total, q - 1, limit);
    CeilUnique(total as real / limit as real, q);
  }

  /** With a positive limit the pages hold all rows, and the last page is not empty:
      no rows means no pages. */
  lemma PageCountCovers(total: nat, limit: int)
    requires limit > 0
    ensures PageCount(total, limit).Some?
    ensures var n := PageCount(total, limit).value;
      && n >= 0 && n * limit >= total
      && (n == 0 || (n - 1) * limit < total)
      && (total == 0 <==> n == 0)
  {
    PageCountDiv(total, limit);
    CeilDivBounds(total, limit);
  }

  /** The rows a range `[from, from + count - 1]` returns from the ordered, filtered
      rows, for a non-negative start. */
  function Window<T>(rows: seq<T>, from: nat, count: nat): (w: seq<T>)
    ensures |w| <= count
  {
    var lo := if from <= |rows| then from else |rows|;
    var hi := if from + count <= |rows| then from + count else |rows|;
    rows[lo..hi]
  }

  /** Pages `1..n` in order. */
  function FirstPages<T>(rows: seq<T>, limit: nat, n: nat): seq<T> {
    if n == 0 then [] else FirstPages(rows, limit, n - 1) + Window(rows, (n - 1) * limit, limit)
  }

  lemma {:induction false} FirstPagesPrefix<T>(rows: seq<T>, limit: nat, n: nat)
    ensures FirstPages(rows, limit, n) == rows[..if n * limit <= |rows| then n * limit else |rows|]
  {
    if n > 0 {
      FirstPagesPrefix(rows, limit, n - 1);
      var a := if (n - 1) * limit <= |rows| then (n - 1) * limit else |rows|;
      var b := if n * limit <= |rows| then n * limit else |rows|;
      assert (n - 1) * limit + limit == n * limit;
      assert Window(rows, (n - 1) * limit, limit) == rows[a..b];
      assert rows[..a] + rows[a..b] == rows[..b];
    }
  }

  /** Reading pages `1..pages` with a positive limit returns every matching row once,
      in order. */
  lemma PagesTileRows<T>(rows: seq<T>, limit: int)
    requires limit > 0
    ensures PageCount(|rows|, limit).Some?
    ensures FirstPages(rows, limit, PageCount(|rows|, limit).value) == rows
  {
    PageCountCovers(|rows|, limit);
    FirstPagesPrefix(rows, limit, PageCount(|rows|, limit).value);
  }

  // ================================================================ response

  /** What the awaited query yields: `{ data, count }`, an `error`, or a rejection. */
  datatype QueryAnswer = Rows(data: Option<seq<SchoolRow>>, count: Option<int>) | QueryError(message: string) | QueryThrew(message: string)

  datatype SchoolsPage = SchoolsPage(schools: seq<SchoolRow>, total: int, page: int, limit: int, pages: Option<int>)

  function Respond(page: int, limit: int, answer: QueryAnswer): (r: Response<SchoolsPage>)
    ensures answer.QueryError? ==> r == Error(500, "Failed to fetch schools")
    ensures answer.QueryThrew? ==> r == Error(500, InternalError)
    ensures answer.Rows? ==> r.status == 200 && r.body.Payload?
    ensures answer.Rows? ==>
      var total := if answer.count.Some? then answer.count.value else 0;
      && r.body.data.schools == (if answer.data.Some? then answer.data.value else [])
      && r.body.data.total == total
      && r.body.data.page == page && r.body.data.limit == limit
      && r.body.data.pages == PageCount(total, limit)
  {
    match answer
    case QueryError(_) => Error(500, "Failed to fetch schools")
    case QueryThrew(_) => Error(500, InternalError)
    case Rows(data, count) =>
      var total := if count.Some? && count.value != 0 then count.value else 0;
      Response(200, Payload(SchoolsPage(if data.Some? then data.value else [], total, page, limit, PageCount(total, limit))))
  }

  /** `GET`: build the query, let the store answer it, pick the response. */
  method Get(p: Params, store: Query -> QueryAnswer) returns (r: Response<SchoolsPage>)
    ensures r == Respond(Page(p), Limit(p), store(QueryFor(p)))
    ensures r.status == 500 <==> !store(QueryFor(p)).Rows?
  {
    var query := BuildQuery(p);
    var answer := store(query);
    r := Respond(Page(p), Limit(p), answer);
  }
}
