/** The listing page's `load`: a page number and the selected dotfile tags
    become two parameterised SQL statements, numbered placeholders `$k`
    bound to a parameter list; the answers become the page data. Any error
    gives the fixed fallback page. */
module Listing {
  import opened Text

  const ItemsPerPage: nat := 30

  /** A bound parameter: a tag name from the query string, or a number. */
  datatype Param = Str(s: string) | Num(n: int)

  /** A repository row as the listing query returns it. */
  datatype ListedRepo = ListedRepo(
    id: nat,
    owner: string,
    url: string,
    description: Option<string>,
    stars: Option<int>,
    lastUpdated: Option<string>)

  datatype PageData = PageData(
    totalRepositories: int,
    totalPages: int,
    currentPage: int,
    repositories: seq<ListedRepo>,
    dotfiles: seq<string>)

  /** What the page shows when anything goes wrong. */
  const Fallback: PageData := PageData(0, 0, 1, [], [])

  /** The database as `load` sees it: whether a pool connection is obtained,
      and the answer to each statement it sends (None: the statement
      throws). The count is the parsed COUNT column. */
  datatype Database = Database(
    connects: bool,
    count: (string, seq<Param>) -> Option<nat>,
    fetch: (string, seq<Param>) -> Option<seq<ListedRepo>>,
    names: Option<seq<string>>)

  // ---- SQL text ----------------------------------------------------------

  /** The fixed parts of the statements; whitespace is normalised. */
  const SelectCount: string := "SELECT COUNT(DISTINCT r.id) as count "
  const SelectIds: string := "SELECT r.id, r.owner, r.url, "
  const SelectDetails: string := "r.description, r.stars, r.last_updated "
  const FromRepositories: string := "FROM repositories r "
  const JoinLinks: string := "LEFT JOIN repository_configurations rc "
  const OnRepository: string := "ON r.id = rc.repository_id "
  const JoinConfigs: string := "LEFT JOIN configurations c "
  const OnConfiguration: string := "ON rc.configuration_id = c.id "
  const Joins: string := FromRepositories + JoinLinks + OnRepository + JoinConfigs + OnConfiguration
  const CountHead: string := SelectCount + Joins
  const FetchHead: string := SelectIds + SelectDetails + Joins
  const WhereOpen: string := "WHERE c.name IN ("
  const WhereClose: string := ")"
  const GroupText: string := "GROUP BY r.id "
  const OrderText: string := "ORDER BY r.stars DESC LIMIT "
  const LimitText: string := GroupText + OrderText
  const OffsetText: string := " OFFSET "
  const Separator: string := ", "

  /** `$${k}`. */
  function Placeholder(k: nat): (r: string) {
    "$" + Dec(k)
  }

  /** `dotfilesParam.map((_, index) => `$${index + 1}`).join(', ')`. */
  function Placeholders(n: nat): (r: string) {
    Join(seq(n, i requires 0 <= i < n => Placeholder(i + 1)), Separator)
  }

  /** `WHERE c.name IN (${placeholders})`. */
  function WhereIn(placeholders: string): (r: string) {
    WhereOpen + placeholders + WhereClose
  }

  /** The WHERE clause, present only when there are filter values. */
  function Where(n: nat): (r: string) {
    if n > 0 then WhereIn(Placeholders(n)) else ""
  }

  /** `GROUP BY ... LIMIT $${k + 1} OFFSET $${k + 2}`. */
  function Paging(k: nat): (r: string) {
    LimitText + Placeholder(k + 1) + OffsetText + Placeholder(k + 2)
  }

  function CountQuery(n: nat): (r: string) {
    CountHead + Where(n)
  }

  function FetchQuery(n: nat): (r: string) {
    FetchHead + Where(n) + Paging(n)
  }

  /** The filter values as parameters, in their order. */
  function StrParams(filters: seq<string>): (r: seq<Param>) {
    seq(|filters|, i requires 0 <= i < |filters| => Str(filters[i]))
  }

  /** 1, 2, ..., n. */
  function UpTo(n: nat): (ks: seq<nat>)
    ensures |ks| == n && forall i :: 0 <= i < n ==> ks[i] == i + 1
  {
    seq(n, i requires 0 <= i < n => i + 1)
  }

  // ---- arithmetic --------------------------------------------------------

  /** `Math.ceil(total / ITEMS_PER_PAGE)`: the fewest pages that hold
      `total` items. */
  function TotalPages(total: nat): (pages: nat)
    ensures pages * ItemsPerPage >= total
    ensures total > 0 ==> (pages - 1) * ItemsPerPage < total
    ensures total == 0 ==> pages == 0
  {
    (total + ItemsPerPage - 1) / ItemsPerPage
  }

  /** `(page - 1) * ITEMS_PER_PAGE`. */
  function Offset(page: int): (r: int) {
    (page - 1) * ItemsPerPage
  }

  /** Pages 1 to TotalPages(total) start inside the result set; every page
      after them starts past its end; page 1 starts at the first row. */
  lemma OffsetWithinPages(total: nat, page: int)
    ensures Offset(1) == 0
    ensures 1 <= page <= TotalPages(total) ==> 0 <= Offset(page) < total
    ensures page > TotalPages(total) ==> Offset(page) >= total
    ensures page >= 1 ==> Offset(page + 1) == Offset(page) + ItemsPerPage
  {
    var tp := TotalPages(total);
    if 1 <= page <= tp {
      assert (page - 1) * ItemsPerPage <= (tp - 1) * ItemsPerPage;
    }
    if page > tp {
      assert (page - 1) * ItemsPerPage >= tp * ItemsPerPage;
    }
  }

  // ---- placeholders ------------------------------------------------------

  lemma {:induction false} RefsPrepend(a: string, b: string)
    requires '$' !in a
    ensures Refs(a + b) == Refs(b)
  {
    if a == [] {
      assert a + b == b;
    } else {
      assert a == [a[0]] + a[1..];
      assert (a + b)[0] == a[0];
      assert (a + b)[1..] == a[1..] + b;
      RefsPrepend(a[1..], b);
    }
  }

  lemma RefsAfterSeparator(x: string)
    ensures Refs(Separator + x) == Refs(x)
  {
    var s := Separator + x;
    assert s[0] == ',' && s[1..] == " " + x;
    assert s[1..][0] == ' ' && s[1..][1..] == x;
  }

  /** The placeholders of a joined list are the list's numbers, in order. */
  lemma {:induction false} RefsJoin(parts: seq<string>, ks: seq<nat>)
    requires |parts| == |ks|
    requires forall i :: 0 <= i < |parts| ==> parts[i] == Placeholder(ks[i])
    ensures Refs(Join(parts, Separator)) == ks
    decreases |parts|
  {
    if |parts| == 0 {
    } else if |parts| == 1 {
      RefsPlaceholder(ks[0]);
      assert ks == [ks[0]];
    } else {
      var rest := Join(parts[1..], Separator);
      RefsJoin(parts[1..], ks[1..]);
      assert parts[0] + Separator + rest == parts[0] + (Separator + rest);
      RefsAppend(parts[0], Separator + rest);
      RefsAfterSeparator(rest);
      RefsPlaceholder(ks[0]);
      assert ks == [ks[0]] + ks[1..];
    }
  }

  /** The WHERE clause's placeholders are $1, $2, ..., $n in order, and there
      is no clause at all without filter values. */
  lemma RefsWhere(n: nat)
    ensures Refs(Where(n)) == UpTo(n)
    ensures n == 0 <==> Where(n) == ""
  {
    if n > 0 {
      var p := Placeholders(n);
      RefsJoin(seq(n, i requires 0 <= i < n => Placeholder(i + 1)), UpTo(n));
      assert Refs(p) == UpTo(n);
      LiteralsPlain();
      assert WhereOpen + p + WhereClose == WhereOpen + (p + WhereClose);
      RefsPrepend(WhereOpen, p + WhereClose);
      RefsAppend(p, WhereClose);
      RefsNone(WhereClose);
      assert p + WhereClose != "";
    } else {
      assert UpTo(0) == [];
    }
  }

  lemma JoinLinksPlain()
    ensures '$' !in JoinLinks && '$' !in OnRepository
  {
  }

  lemma JoinConfigsPlain()
    ensures '$' !in JoinConfigs && '$' !in OnConfiguration
  {
  }

  lemma JoinsPlain()
    ensures '$' !in Joins
  {
    JoinLinksPlain();
    JoinConfigsPlain();
    assert '$' !in FromRepositories;
  }

  lemma HeadsPlain()
    ensures '$' !in CountHead && '$' !in FetchHead
  {
    JoinsPlain();
    assert '$' !in SelectCount && '$' !in SelectIds && '$' !in SelectDetails;
  }

  lemma LiteralsPlain()
    ensures '$' !in LimitText && '$' !in OffsetText && '$' !in WhereOpen && '$' !in WhereClose
  {
    assert '$' !in GroupText && '$' !in OrderText;
    assert '$' !in OffsetText && '$' !in WhereOpen && '$' !in WhereClose;
  }

  /** The statement's tail reads back as LIMIT $(n+1) OFFSET $(n+2). */
  lemma RefsTail(n: nat)
    ensures Refs(Paging(n)) == [n + 1, n + 2]
  {
    var x := Placeholder(n + 1);
    var y := Placeholder(n + 2);
    RefsPlaceholder(n + 1);
    RefsPlaceholder(n + 2);
    LiteralsPlain();
    assert (OffsetText + y)[0] == ' ';
    assert LimitText + x + OffsetText + y == LimitText + (x + (OffsetText + y));
    RefsPrepend(OffsetText, y);
    RefsAppend(x, OffsetText + y);
    RefsPrepend(LimitText, x + (OffsetText + y));
  }

  /** The count statement uses exactly $1..$n, bound to the filter values. */
  lemma CountBinding(filters: seq<string>)
    ensures var n := |filters|;
      Refs(CountQuery(n)) == UpTo(n) &&
      |StrParams(filters)| == n &&
      forall i :: 0 <= i < n ==> StrParams(filters)[i] == Str(filters[i])
  {
    HeadsPlain();
    RefsWhere(|filters|);
    RefsPrepend(CountHead, Where(|filters|));
  }

  /** The fetch statement uses $1..$n for the filters, $(n+1) for LIMIT and
      $(n+2) for OFFSET, and the parameter list binds each in that order:
      placeholder $k is parameter k - 1. */
  lemma FetchBinding(filters: seq<string>, page: int)
    ensures var n := |filters|;
      var ps := StrParams(filters) + [Num(ItemsPerPage), Num(Offset(page))];
      Refs(FetchQuery(n)) == UpTo(n + 2) &&
      |ps| == n + 2 &&
      (forall i :: 0 <= i < n ==> ps[i] == Str(filters[i])) &&
      ps[n] == Num(ItemsPerPage) && ps[n + 1] == Num(Offset(page))
  {
    var n := |filters|;
    var w := Where(n);
    var tail := Paging(n);
    HeadsPlain();
    RefsWhere(n);
    RefsTail(n);
    assert FetchQuery(n) == FetchHead + (w + tail);
    RefsPrepend(FetchHead, w + tail);
    RefsAppend(w, tail);
    assert UpTo(n) + [n + 1, n + 2] == UpTo(n + 2);
  }

  // ---- load --------------------------------------------------------------

  /** `load`: `page` is the parsed `page` parameter, `filters` the `dotfiles`
      values in query-string order. */
  method Load(page: int, filters: seq<string>, db: Database) returns (data: PageData)
    ensures var n := |filters|;
      var countParams := StrParams(filters);
      var fetchParams := countParams + [Num(ItemsPerPage), Num(Offset(page))];
      if db.connects && db.count(CountQuery(n), countParams).Some?
         && db.fetch(FetchQuery(n), fetchParams).Some? && db.names.Some?
      then
        var total := db.count(CountQuery(n), countParams).value;
        data == PageData(total, TotalPages(total), page,
                         db.fetch(FetchQuery(n), fetchParams).value, db.names.value)
      else data == Fallback
  {
    if !db.connects {
      return Fallback;
    }
    var countQuery := CountHead;
    var queryParams: seq<Param> := [];
    if |filters| > 0 {
      var placeholders := Placeholders(|filters|);
      countQuery := countQuery + WhereIn(placeholders);
      queryParams := StrParams(filters);
    }
    assert countQuery == CountQuery(|filters|);
    assert queryParams == StrParams(filters);

    var countResult := db.count(countQuery, queryParams);
    if countResult.None? {
      return Fallback;
    }
    var totalRepositories := countResult.value;
    var totalPages := TotalPages(totalRepositories);
    var offset := Offset(page);

    var fetchQuery := FetchHead;
    if |filters| > 0 {
      var placeholders := Placeholders(|filters|);
      fetchQuery := fetchQuery + WhereIn(placeholders);
    }
    fetchQuery := fetchQuery + Paging(|queryParams|);
    queryParams := queryParams + [Num(ItemsPerPage), Num(offset)];
    assert fetchQuery == FetchQuery(|filters|);

    var fetchResults := db.fetch(fetchQuery, queryParams);
    if fetchResults.None? {
      return Fallback;
    }
    var dotfilesResult := db.names;
    if dotfilesResult.None? {
      return Fallback;
    }
    return PageData(totalRepositories, totalPages, page, fetchResults.value, dotfilesResult.value);
  }
}
