/** The ranking page: the filter state and its change handler, the query sent for
    the current filters, the zone and province selectors, the in-feed ad slots and
    the result count. The page's state hooks are the fields of a class; the store's
    answers to the two fetches are parameters. */
module RankingPage {
  import opened Common

  datatype Province = Province(id: nat, name: string, zone: string)

  datatype School = School(id: string, name: string)

  /** `SchoolFilters`; `schoolType` is the `type` key. */
  datatype Filters = Filters(search: string, schoolType: string, zone: string, province: string, sortBy: string)

  const InitialFilters := Filters("", "all", "", "", "rating")

  /** The keys the selectors pass to `handleFilterChange`. */
  datatype FilterKey = SearchKey | TypeKey | ZoneKey | ProvinceKey | SortByKey

  function Get(f: Filters, key: FilterKey): string {
    match key
    case SearchKey => f.search
    case TypeKey => f.schoolType
    case ZoneKey => f.zone
    case ProvinceKey => f.province
    case SortByKey => f.sortBy
  }

  /** The new filters after `handleFilterChange(key, value)`: only `key` changes,
      except that a new zone also clears the province. */
  function Changed(f: Filters, key: FilterKey, value: string): (g: Filters)
    ensures Get(g, key) == value
    ensures forall k: FilterKey :: k != key ==>
      Get(g, k) == (if key == ZoneKey && k == ProvinceKey then "" else Get(f, k))
  {
    match key
    case SearchKey => f.(search := value)
    case TypeKey => f.(schoolType := value)
    case ZoneKey => f.(zone := value, province := "")
    case ProvinceKey => f.(province := value)
    case SortByKey => f.(sortBy := value)
  }

  /** Repeating a change changes nothing more. */
  lemma ChangeIdempotent(f: Filters, key: FilterKey, value: string)
    ensures Changed(Changed(f, key, value), key, value) == Changed(f, key, value)
  {
    var g := Changed(f, key, value);
    var h := Changed(g, key, value);
    assert forall k: FilterKey :: Get(h, k) == Get(g, k);
    assert h.search == Get(h, SearchKey) && h.schoolType == Get(h, TypeKey) && h.zone == Get(h, ZoneKey);
    assert h.province == Get(h, ProvinceKey) && h.sortBy == Get(h, SortByKey);
  }

  datatype Condition = Eq(column: string, value: string) | EqNumber(column: string, n: int) | ILike(column: string, pattern: string)

  /** `order(column, { ascending, nullsFirst })`; `nullsFirst` is `None` when the call
      leaves it out. */
  datatype Order = Order(column: string, ascending: bool, nullsFirst: Option<bool>)

  datatype Query = Query(filters: seq<Condition>, order: Order, limit: nat)

  const RowLimit := 100

  /** The sort switch: three named orders and rating descending for anything else. */
  function SortOrder(sortBy: string): (o: Order)
    ensures o.ascending <==> sortBy == "name"
    ensures !o.ascending ==> o.nullsFirst == Some(false)
    ensures sortBy == "prueba" ==> o.column == "prueba_nacional"
    ensures sortBy == "students" ==> o.column == "enrollment"
    ensures sortBy == "name" ==> o == Order("name", true, None)
    ensures sortBy !in {"prueba", "students", "name"} ==> o == Order("rating", false, Some(false))
  {
    if sortBy == "prueba" then Order("prueba_nacional", false, Some(false))
    else if sortBy == "students" then Order("enrollment", false, Some(false))
    else if sortBy == "name" then Order("name", true, None)
    else Order("rating", false, Some(false))
  }

  predicate TypeApplies(f: Filters) { f.schoolType != "" && f.schoolType != "all" }

  /** The query for the current filters. The province text is read as an integer. */
  function QueryFor(f: Filters): Query {
    Query(
      (if TypeApplies(f) then [Eq("type", f.schoolType)] else [])
        + (if f.province != "" then [EqNumber("province_id", ParseIntBase(f.province, 10))] else [])
        + (if f.search != "" then [ILike("name", "%" + f.search + "%")] else []),
      SortOrder(f.sortBy),
      100)
  }

  /** Each filter is sent exactly when its value is set, the type filter only for a
      type other than `all`; at most 100 rows are asked for. */
  lemma QuerySendsChosenFilters(f: Filters)
    ensures (exists t :: Eq("type", t) in QueryFor(f).filters) <==> TypeApplies(f)
    ensures TypeApplies(f) ==> Eq("type", f.schoolType) in QueryFor(f).filters
    ensures (exists n :: EqNumber("province_id", n) in QueryFor(f).filters) <==> f.province != ""
    ensures (exists p :: ILike("name", p) in QueryFor(f).filters) <==> f.search != ""
    ensures f.search != "" ==> ILike("name", "%" + f.search + "%") in QueryFor(f).filters
    ensures |QueryFor(f).filters| <= 3
    ensures QueryFor(f).limit == RowLimit
  {
    var q := QueryFor(f);
    if TypeApplies(f) {
      assert q.filters[0] == Eq("type", f.schoolType);
    }
    if f.province != "" {
      var n := ParseIntBase(f.province, 10);
      assert EqNumber("province_id", n) in q.filters;
    }
    if f.search != "" {
      assert q.filters[|q.filters| - 1] == ILike("name", "%" + f.search + "%");
    }
  }

  /** Picking a province from the selector, whose option values are the ids, sends
      that id. */
  lemma ProvinceOptionSendsId(f: Filters, id: nat)
    requires f.province == NatToString(id)
    ensures EqNumber("province_id", id) in QueryFor(f).filters
  {
    ParseNatToBase(id, 10);
    assert NatToString(id)[0] != '-' by {
      assert IsDigit(NatToString(id)[0]);
    }
  }

  /** The initial filters ask for every school, best rated first. */
  lemma InitialQuery()
    ensures QueryFor(InitialFilters) == Query([], Order("rating", false, Some(false)), 100)
  {
  }

  /** `fetchSchools`' query, refined one call after another. */
  method BuildQuery(f: Filters) returns (q: Query)
    ensures q == QueryFor(f)
  {
    var filters: seq<Condition> := [];
    if f.schoolType != "" && f.schoolType != "all" {
      filters := filters + [Eq("type", f.schoolType)];
    }
    if f.province != "" {
      filters := filters + [EqNumber("province_id", ParseIntBase(f.province, 10))];
    }
    if f.search != "" {
      filters := filters + [ILike("name", "%" + f.search + "%")];
    }
    var order: Order;
    if f.sortBy == "prueba" {
      order := Order("prueba_nacional", false, Some(false));
    } else if f.sortBy == "students" {
      order := Order("enrollment", false, Some(false));
    } else if f.sortBy == "name" {
      order := Order("name", true, None);
    } else {
      order := Order("rating", false, Some(false));
    }
    q := Query(filters, order, RowLimit);
  }

  /** An in-feed ad follows card `idx` of `n`: after every sixth card, but not after
      the last one. */
  predicate AdAfter(idx: nat, n: nat) {
    (idx + 1) % 6 == 0 && idx != n - 1
  }

  /** A card of the grid and whether an ad banner follows it. */
  datatype Slot = Slot(school: School, adFollows: bool)

  function Feed(schools: seq<School>): (slots: seq<Slot>)
    ensures |slots| == |schools|
    ensures forall i :: 0 <= i < |schools| ==> slots[i] == Slot(schools[i], AdAfter(i, |schools|))
  {
    seq(|schools|, i requires 0 <= i < |schools| => Slot(schools[i], AdAfter(i, |schools|)))
  }

  function AdCount(slots: seq<Slot>): nat {
    if slots == [] then 0 else AdCount(slots[..|slots| - 1]) + (if slots[|slots| - 1].adFollows then 1 else 0)
  }

  lemma {:induction false} AdsBeforeLast(schools: seq<School>, k: nat)
    requires k < |schools|
    ensures AdCount(Feed(schools)[..k]) == k / 6
  {
    if k > 0 {
      var slots := Feed(schools)[..k];
      assert slots[..k - 1] == Feed(schools)[..k - 1];
      AdsBeforeLast(schools, k - 1);
      assert slots[k - 1].adFollows == (k % 6 == 0);
      var q := (k - 1) / 6;
      assert k - 1 == 6 * q + (k - 1) % 6;
      if k % 6 == 0 {
        assert k == 6 * (q + 1);
      } else {
        assert k == 6 * q + ((k - 1) % 6 + 1);
      }
    }
  }

  /** `n >= 1` cards carry `floor((n - 1) / 6)` ads, and the grid never ends with one. */
  lemma AdsInFeed(schools: seq<School>)
    requires schools != []
    ensures AdCount(Feed(schools)) == (|schools| - 1) / 6
    ensures !Feed(schools)[|schools| - 1].adFollows
  {
    var n := |schools|;
    AdsBeforeLast(schools, n - 1);
    assert Feed(schools)[..n][..n - 1] == Feed(schools)[..n - 1];
    assert Feed(schools)[..n] == Feed(schools);
  }

  /** Between two consecutive ads there are exactly six cards. */
  lemma AdsSixApart(schools: seq<School>, i: nat, j: nat)
    requires i < j < |schools|
    requires Feed(schools)[i].adFollows && Feed(schools)[j].adFollows
    requires forall k :: i < k < j ==> !Feed(schools)[k].adFollows
    ensures j - i == 6
  {
    var n := |schools|;
    assert (i + 1) % 6 == 0 && (j + 1) % 6 == 0;
    assert i + 6 <= j;
    assert i + 6 < j ==> AdAfter(i + 6, n);
  }

  /** `{n} colegio{s} encontrado{s}`. */
  function ResultLabel(count: nat): (r: string)
    ensures |r| > 0
    ensures StartsWith(r, NatToString(count))
  {
    var plural := if count != 1 then "s" else "";
    NatToString(count) + " colegio" + plural + " encontrado" + plural
  }

  /** The label is plural exactly when the count is not one. */
  lemma ResultLabelPlural(count: nat)
    ensures ResultLabel(count)[|ResultLabel(count)| - 1] == 's' <==> count != 1
    ensures count == 1 ==> ResultLabel(count) == "1 colegio encontrado"
  {
  }

  class Page {
    var schools: seq<School>
    var provinces: seq<Province>
    var loading: bool
    var filters: Filters

    constructor()
      ensures schools == [] && provinces == [] && loading && filters == InitialFilters
    {
      schools := [];
      provinces := [];
      loading := true;
      filters := InitialFilters;
    }

    /** The provinces fetch: kept only when the store answered with data. */
    method ProvincesLoaded(data: Option<seq<Province>>)
      modifies this
      ensures provinces == (if data.Some? then data.value else old(provinces))
      ensures schools == old(schools) && loading == old(loading) && filters == old(filters)
    {
      if data.Some? {
        provinces := data.value;
      }
    }

    /** The end of a schools fetch: the rows replace the list when the store answered
        with data, and loading stops either way. */
    method SchoolsLoaded(data: Option<seq<School>>)
      modifies this
      ensures schools == (if data.Some? then data.value else old(schools))
      ensures !loading && provinces == old(provinces) && filters == old(filters)
    {
      loading := true;
      if data.Some? {
        schools := data.value;
      }
      loading := false;
    }

    method HandleFilterChange(key: FilterKey, value: string)
      modifies this
      ensures filters == Changed(old(filters), key, value)
      ensures schools == old(schools) && provinces == old(provinces) && loading == old(loading)
    {
      match key
      case SearchKey => filters := filters.(search := value);
      case TypeKey => filters := filters.(schoolType := value);
      case ZoneKey => filters := filters.(zone := value, province := "");
      case ProvinceKey => filters := filters.(province := value);
      case SortByKey => filters := filters.(sortBy := value);
    }

    /** The provinces' zones, without repeats, sorted. */
    function UniqueZones(): (zones: seq<string>)
      reads this
      ensures StrictlySorted(zones)
      ensures forall z :: z in zones <==> exists i :: 0 <= i < |provinces| && provinces[i].zone == z
    {
      var all := seq(|provinces|, i requires 0 <= i < |provinces| reads this => provinces[i].zone);
      assert forall z :: z in all <==> exists i :: 0 <= i < |provinces| && provinces[i].zone == z by {
        forall z ensures z in all <==> exists i :: 0 <= i < |provinces| && provinces[i].zone == z {
          if z in all {
            var i :| 0 <= i < |all| && all[i] == z;
            assert provinces[i].zone == z;
          }
          if exists i :: 0 <= i < |provinces| && provinces[i].zone == z {
            var i :| 0 <= i < |provinces| && provinces[i].zone == z;
            assert all[i] == z;
          }
        }
      }
      SortedUnique(all)
    }

    /** The provinces offered for the selected zone; all of them when none is selected. */
    function FilteredProvinces(): (r: seq<Province>)
      reads this
      ensures filters.zone == "" ==> r == provinces
      ensures filters.zone != "" ==> forall p :: p in r <==> p in provinces && p.zone == filters.zone
      ensures IsSubsequence(r, provinces)
    {
      if filters.zone == "" then
        assert IsSubsequence(provinces, provinces) by {
          FilterAll(provinces, (p: Province) => true);
        }
        provinces
      else
        var zone := filters.zone;
        Filter(provinces, (p: Province) => p.zone == zone)
    }
  }

  /** Changing the zone after picking a province clears it, so the province shown is
      never one of another zone through this path. */
  method PickThenChangeZone(p: Page, province: string, zone: string)
    modifies p
    ensures p.filters.province == "" && p.filters.zone == zone
    ensures p.filters.search == old(p.filters.search) && p.filters.sortBy == old(p.filters.sortBy)
  {
    p.HandleFilterChange(ProvinceKey, province);
    p.HandleFilterChange(ZoneKey, zone);
  }
}
