/**
 * One page of the pokemon list, as the database repository computes it:
 * the sort and order enums become fixed ORDER BY fragments, the query asks
 * for one row more than a page at the page's offset, and the extra row
 * tells whether a next page exists.
 */
module PokemonListRepository {
  import opened Wrappers
  import opened Errors
  import opened Text

  datatype PokemonSorting = Id | Natural
  datatype Ordering = Ascending | Descending

  /** The result of `getPokemonList`. */
  datatype PokemonList<T> = PokemonList(hasNext: bool, pageSize: int, page: int, list: seq<T>)

  /** The `ORDER BY` clause the query is built with. */
  datatype OrderBy = OrderBy(column: string, direction: string)

  function SortColumn(s: PokemonSorting): string
  {
    match s
    case Id => "p.id"
    case Natural => "p.natural_order"
  }

  function OrderDirection(o: Ordering): string
  {
    match o
    case Ascending => "ASC"
    case Descending => "DESC"
  }

  /** Different requests never share an `ORDER BY` clause. */
  lemma OrderByInjective(s1: PokemonSorting, o1: Ordering, s2: PokemonSorting, o2: Ordering)
    requires OrderBy(SortColumn(s1), OrderDirection(o1)) == OrderBy(SortColumn(s2), OrderDirection(o2))
    ensures s1 == s2 && o1 == o2
  {
  }

  const PsqlException := "org.postgresql.util.PSQLException"

  /** The store: the full result of the query without LIMIT and OFFSET,
      in the order of `orderBy`; then the window LIMIT/OFFSET selects.
      PostgreSQL evaluates OFFSET before LIMIT and refuses negative values. */
  function Execute<T>(rows: seq<T>, limit: int, offset: int): (r: Result<seq<T>, Throwable>)
    ensures r.Ok? <==> limit >= 0 && offset >= 0
    ensures r.Ok? ==> |r.value| <= limit
    ensures r.Ok? ==> |r.value| == if offset >= |rows| then 0 else Min(limit, |rows| - offset)
    ensures r.Ok? ==> forall i :: 0 <= i < |r.value| ==> r.value[i] == rows[offset + i]
  {
    if offset < 0 then Err(Foreign(PsqlException, Some("ERROR: OFFSET must not be negative")))
    else if limit < 0 then Err(Foreign(PsqlException, Some("ERROR: LIMIT must not be negative")))
    else
      var rest := if offset >= |rows| then [] else rows[offset..];
      Ok(rest[..Min(limit, |rest|)])
  }

  function Min(a: int, b: int): int { if a <= b then a else b }

  const IllegalArgumentException := "java.lang.IllegalArgumentException"

  /** `List.take(n)`: the first n elements, all of them when there are
      fewer; a negative count is refused. */
  function Take<T>(xs: seq<T>, n: int): (r: Result<seq<T>, Throwable>)
    ensures r.Ok? <==> n >= 0
    ensures r.Ok? ==> r.value == xs[..Min(n, |xs|)]
  {
    if n < 0 then Err(Foreign(IllegalArgumentException, Some("Requested element count " + IntToString(n) + " is less than zero.")))
    else Ok(xs[..Min(n, |xs|)])
  }

  /** `getPokemonList`: `store` gives the full ordered result for an
      `ORDER BY` clause. LIMIT `pageSize + 1` and OFFSET `page * pageSize`
      are computed in 32-bit arithmetic. */
  function GetPokemonList<T>(pageSize: int, page: int, sorting: PokemonSorting, ordering: Ordering,
                             store: OrderBy -> seq<T>): (r: Result<PokemonList<T>, Throwable>)
    requires IsInt32(pageSize) && IsInt32(page)
    ensures r.Ok? ==> r.value.pageSize == pageSize && r.value.page == page
    ensures r.Ok? ==> 0 <= pageSize && |r.value.list| <= pageSize
  {
    var rows := store(OrderBy(SortColumn(sorting), OrderDirection(ordering)));
    var list :- Execute(rows, Wrap32(pageSize + 1), Wrap32(page * pageSize));
    var taken :- Take(list, pageSize);
    Ok(PokemonList(|list| > pageSize, pageSize, page, taken))
  }

  /** The at most n rows of `all` from index `offset` on. */
  function Window<T>(all: seq<T>, offset: nat, n: nat): (w: seq<T>)
    ensures |w| <= n
    ensures forall i :: 0 <= i < |w| ==> offset + i < |all| && w[i] == all[offset + i]
  {
    if offset >= |all| then [] else all[offset..][..Min(n, |all| - offset)]
  }

  /** The rows of page `page` of `all`, `pageSize` to a page. */
  function PageOf<T>(all: seq<T>, page: nat, pageSize: nat): (w: seq<T>)
    ensures |w| <= pageSize
  {
    Window(all, page * pageSize, pageSize)
  }

  /** When neither LIMIT nor OFFSET overflows, the result is exactly page
      `page` of the ordered rows, and `hasNext` holds iff rows exist beyond
      it. */
  lemma PageWindow<T>(pageSize: int, page: int, sorting: PokemonSorting, ordering: Ordering, store: OrderBy -> seq<T>)
    requires IsInt32(pageSize) && IsInt32(page)
    requires 0 <= pageSize && 0 <= page
    requires IsInt32(pageSize + 1) && IsInt32(page * pageSize)
    ensures var r := GetPokemonList(pageSize, page, sorting, ordering, store);
      var all := store(OrderBy(SortColumn(sorting), OrderDirection(ordering)));
      r.Ok? &&
      r.value.list == PageOf(all, page, pageSize) &&
      (r.value.hasNext <==> |all| > (page + 1) * pageSize)
  {
    var all := store(OrderBy(SortColumn(sorting), OrderDirection(ordering)));
    WrapInRange(pageSize + 1);
    WrapInRange(page * pageSize);
    var fetched := Execute(all, pageSize + 1, page * pageSize).value;
    var r := GetPokemonList(pageSize, page, sorting, ordering, store);
    assert r.value.list == fetched[..Min(pageSize, |fetched|)];
    if page * pageSize < |all| {
      assert fetched == all[page * pageSize..][..Min(pageSize + 1, |all| - page * pageSize)];
    }
    assert (page + 1) * pageSize == page * pageSize + pageSize;
  }

  lemma WrapInRange(x: int)
    requires IsInt32(x)
    ensures Wrap32(x) == x
  {
  }

  /** Which requests succeed: the page size must be non-negative and below
      `Int.MAX_VALUE` (else LIMIT or `take` fails), and the wrapped offset
      must be non-negative. */
  lemma {:induction false} WhenListingSucceeds<T>(pageSize: int, page: int, sorting: PokemonSorting, ordering: Ordering, store: OrderBy -> seq<T>)
    requires IsInt32(pageSize) && IsInt32(page)
    ensures GetPokemonList(pageSize, page, sorting, ordering, store).Ok? <==>
      0 <= pageSize < TwoTo31 - 1 && Wrap32(page * pageSize) >= 0
  {
    if 0 <= pageSize < TwoTo31 - 1 {
      WrapInRange(pageSize + 1);
    } else if pageSize == TwoTo31 - 1 {
      assert Wrap32(pageSize + 1) == -TwoTo31;
    } else if pageSize < -1 {
      WrapInRange(pageSize + 1);
    }
  }

  /** The repository's answer to the controller's default arguments (page
      size 40, page 0, by id, ascending). As written, the controller never
      makes this call: reading its optional `sort` delegate throws first. */
  lemma DefaultRequest<T>(store: OrderBy -> seq<T>)
    ensures var r := GetPokemonList(40, 0, Id, Ascending, store);
      var all := store(OrderBy("p.id", "ASC"));
      r.Ok? && r.value.list == all[..Min(40, |all|)] && (r.value.hasNext <==> |all| > 40)
  {
    PageWindow(40, 0, Id, Ascending, store);
  }

  /** As written, `page * pageSize` wraps: page 21474837 of 200 rows is
      fetched from offset 104, within the first page's neighbourhood,
      although it is reported as page 21474837. */
  lemma OffsetWrapsAround<T>(store: OrderBy -> seq<T>)
    ensures var r := GetPokemonList(200, 21474837, Id, Ascending, store);
      var all := store(OrderBy("p.id", "ASC"));
      r.Ok? && r.value.page == 21474837 && r.value.list == Window(all, 104, 200) &&
      PageOf(all, 21474837, 200) == Window(all, 4294967400, 200)
  {
    var all := store(OrderBy("p.id", "ASC"));
    assert Wrap32(21474837 * 200) == 104;
    WrapInRange(201);
    var fetched := Execute(all, 201, 104).value;
    if 104 < |all| {
      assert fetched == all[104..][..Min(201, |all| - 104)];
    }
  }

  /** The evidently intended computation: the offset in 64-bit arithmetic
      (`page.toLong() * pageSize`), which cannot overflow for two `Int`s. */
  function GetPokemonListIntended<T>(pageSize: int, page: int, sorting: PokemonSorting, ordering: Ordering,
                                     store: OrderBy -> seq<T>): (r: Result<PokemonList<T>, Throwable>)
    requires IsInt32(pageSize) && IsInt32(page)
    ensures r.Ok? ==> r.value.pageSize == pageSize && r.value.page == page
  {
    var rows := store(OrderBy(SortColumn(sorting), OrderDirection(ordering)));
    var list :- Execute(rows, Wrap32(pageSize + 1), page * pageSize);
    var taken :- Take(list, pageSize);
    Ok(PokemonList(|list| > pageSize, pageSize, page, taken))
  }

  /** With the offset computed without overflow, every non-negative page of
      every page size below `Int.MAX_VALUE` is its own window of the rows. */
  lemma IntendedPageWindow<T>(pageSize: int, page: int, sorting: PokemonSorting, ordering: Ordering, store: OrderBy -> seq<T>)
    requires IsInt32(pageSize) && IsInt32(page)
    requires 0 <= pageSize < TwoTo31 - 1 && 0 <= page
    ensures var r := GetPokemonListIntended(pageSize, page, sorting, ordering, store);
      var all := store(OrderBy(SortColumn(sorting), OrderDirection(ordering)));
      r.Ok? &&
      r.value.list == PageOf(all, page, pageSize) &&
      (r.value.hasNext <==> |all| > (page + 1) * pageSize)
  {
    var all := store(OrderBy(SortColumn(sorting), OrderDirection(ordering)));
    WrapInRange(pageSize + 1);
    var fetched := Execute(all, pageSize + 1, page * pageSize).value;
    var r := GetPokemonListIntended(pageSize, page, sorting, ordering, store);
    assert r.value.list == fetched[..Min(pageSize, |fetched|)];
    if page * pageSize < |all| {
      assert fetched == all[page * pageSize..][..Min(pageSize + 1, |all| - page * pageSize)];
    }
    assert (page + 1) * pageSize == page * pageSize + pageSize;
  }
}
