/** The catalog the ingestion job writes: the tables `repositories`,
    `configurations` and `repository_configurations`, and the two writers
    `insertRepositories` and `updateConfigurations`.

    Each table is a map keyed by its unique column, with the `id SERIAL`
    sequence as a counter. Postgres draws the next sequence value before it
    looks for a conflict, so every executed INSERT ... ON CONFLICT statement
    advances the counter, including one that ends up updating or doing
    nothing. */
module Catalog {
  import opened Text
  import opened Adapters

  /** The range of the INTEGER column `stars`. */
  const IntegerMin: int := -0x8000_0000
  const IntegerMax: int := 0x7fff_ffff

  /** A row of `repositories`; its `url` is the key of the map that holds it. */
  datatype Row = Row(
    id: nat,
    owner: string,
    description: Option<string>,
    stars: Option<int>,
    lastUpdated: Option<Timestamp>)

  /** `repositories`, keyed by the UNIQUE column `url`, with its id sequence. */
  datatype RepoTable = RepoTable(rows: map<string, Row>, serial: nat)

  /** `configurations`: the id of each UNIQUE `name`, with its id sequence. */
  datatype ConfigTable = ConfigTable(ids: map<string, nat>, serial: nat)

  /** A row of `repository_configurations`: (repository_id, configuration_id). */
  type Link = (nat, nat)

  // ---- repositories -------------------------------------------------------

  /** The table accepts the row: `owner` is NOT NULL and `stars` fits INTEGER. */
  predicate Storable(r: RepoRecord) {
    r.owner.Some? && (r.stars.Some? ==> IntegerMin <= r.stars.value <= IntegerMax)
  }

  predicate AllStorable(rs: seq<RepoRecord>) {
    forall i :: 0 <= i < |rs| ==> Storable(rs[i])
  }

  /** The columns the upsert writes hold the record's values. */
  predicate Holds(row: Row, r: RepoRecord) {
    r.owner == Some(row.owner) && row.description == r.description &&
    row.stars == r.stars && row.lastUpdated == r.lastUpdated
  }

  /** The URLs of a batch. */
  function Urls(rs: seq<RepoRecord>): (r: set<string>) {
    set i | 0 <= i < |rs| :: rs[i].htmlUrl
  }

  /** No later record of the batch has the same URL as record `i`. */
  predicate LastFor(rs: seq<RepoRecord>, i: int)
    requires 0 <= i < |rs|
  {
    forall j :: i < j < |rs| ==> rs[j].htmlUrl != rs[i].htmlUrl
  }

  /** Ids are below the sequence's next value and no two rows share one. */
  ghost predicate RepoTableOk(t: RepoTable) {
    && (forall u | u in t.rows :: t.rows[u].id < t.serial)
    && (forall u, v | u in t.rows && v in t.rows && u != v :: t.rows[u].id != t.rows[v].id)
  }

  function RepoIds(t: RepoTable): (r: set<nat>) {
    set u | u in t.rows :: t.rows[u].id
  }

  /** One `INSERT INTO repositories ... ON CONFLICT (url) DO UPDATE` statement. */
  function Upsert(t: RepoTable, r: RepoRecord): (updated: RepoTable)
    requires Storable(r)
  {
    var id := if r.htmlUrl in t.rows then t.rows[r.htmlUrl].id else t.serial;
    RepoTable(t.rows[r.htmlUrl := Row(id, r.owner.value, r.description, r.stars, r.lastUpdated)], t.serial + 1)
  }

  datatype Inserted = Inserted(table: RepoTable, ok: bool)

  /** `insertRepositories(repos)`: the statements run one by one outside any
      transaction, and the first refused record throws, leaving the rows
      written before it in place. */
  function InsertAll(t: RepoTable, rs: seq<RepoRecord>): (r: Inserted)
    decreases |rs|
  {
    if rs == [] then Inserted(t, true)
    else if !Storable(rs[0]) then Inserted(t, false)
    else InsertAll(Upsert(t, rs[0]), rs[1..])
  }

  lemma UpsertKeepsOk(t: RepoTable, r: RepoRecord)
    requires Storable(r) && RepoTableOk(t)
    ensures RepoTableOk(Upsert(t, r))
    ensures RepoIds(t) <= RepoIds(Upsert(t, r))
  {
    var t' := Upsert(t, r);
    forall x | x in RepoIds(t) ensures x in RepoIds(t') {
      var u :| u in t.rows && t.rows[u].id == x;
      assert t'.rows[u].id == x;
    }
  }

  lemma UrlsCons(rs: seq<RepoRecord>)
    requires rs != []
    ensures Urls(rs) == {rs[0].htmlUrl} + Urls(rs[1..])
  {
    forall u | u in Urls(rs) ensures u in {rs[0].htmlUrl} + Urls(rs[1..]) {
      var i :| 0 <= i < |rs| && rs[i].htmlUrl == u;
      if i > 0 {
        assert rs[1..][i - 1].htmlUrl == u;
      }
    }
    forall u | u in Urls(rs[1..]) ensures u in Urls(rs) {
      var i :| 0 <= i < |rs[1..]| && rs[1..][i].htmlUrl == u;
      assert rs[i + 1].htmlUrl == u;
    }
  }

  /** The batch is written in full exactly when every record is storable. */
  lemma {:induction false} InsertAllSucceeds(t: RepoTable, rs: seq<RepoRecord>)
    ensures InsertAll(t, rs).ok <==> AllStorable(rs)
    decreases |rs|
  {
    if rs != [] && Storable(rs[0]) {
      InsertAllSucceeds(Upsert(t, rs[0]), rs[1..]);
      assert AllStorable(rs) <==> AllStorable(rs[1..]) by {
        if AllStorable(rs[1..]) {
          forall i | 0 <= i < |rs| ensures Storable(rs[i]) {
            if i > 0 {
              assert rs[i] == rs[1..][i - 1];
            }
          }
        }
      }
    }
  }

  /** No transaction: the records before the first refused one are written,
      the refused one and everything after it are not. */
  lemma {:induction false} InsertAllStopsAt(t: RepoTable, rs: seq<RepoRecord>, k: nat)
    requires k < |rs| && !Storable(rs[k]) && AllStorable(rs[..k])
    ensures InsertAll(t, rs) == Inserted(InsertAll(t, rs[..k]).table, false)
    ensures InsertAll(t, rs[..k]).ok
    decreases k
  {
    InsertAllSucceeds(t, rs[..k]);
    if k > 0 {
      assert rs[..k][0] == rs[0] && Storable(rs[0]);
      assert rs[..k][1..] == rs[1..][..k - 1];
      InsertAllStopsAt(Upsert(t, rs[0]), rs[1..], k - 1);
    }
  }

  lemma AllStorableTail(rs: seq<RepoRecord>)
    requires rs != [] && AllStorable(rs)
    ensures AllStorable(rs[1..])
  {
    forall i | 0 <= i < |rs[1..]| ensures Storable(rs[1..][i]) {
      assert rs[1..][i] == rs[i + 1];
    }
  }

  /** The last record for a URL in the tail is the last one in the batch. */
  lemma LastForTail(rs: seq<RepoRecord>, i: int)
    requires 0 < i < |rs| && LastFor(rs, i)
    ensures LastFor(rs[1..], i - 1)
  {
    var rest := rs[1..];
    forall j | i - 1 < j < |rest| ensures rest[j].htmlUrl != rest[i - 1].htmlUrl {
      assert rest[j] == rs[j + 1];
    }
  }

  /** Which rows a fully written batch creates and keeps: every URL of the
      batch has a row, rows that existed keep their ids, rows whose URL is
      not in the batch are untouched, new rows get fresh ids, and the
      sequence advances once per record. */
  lemma {:induction false} InsertAllShape(t: RepoTable, rs: seq<RepoRecord>)
    requires AllStorable(rs)
    ensures var t' := InsertAll(t, rs).table;
      && t'.rows.Keys == t.rows.Keys + Urls(rs)
      && t'.serial == t.serial + |rs|
      && (forall u | u in t.rows :: t'.rows[u].id == t.rows[u].id)
      && (forall u | u in t.rows && u !in Urls(rs) :: t'.rows[u] == t.rows[u])
      && (forall u | u in t'.rows && u !in t.rows :: t.serial <= t'.rows[u].id)
    decreases |rs|
  {
    if rs == [] {
      assert Urls(rs) == {};
    } else {
      var t1 := Upsert(t, rs[0]);
      AllStorableTail(rs);
      InsertAllShape(t1, rs[1..]);
      UrlsCons(rs);
      assert InsertAll(t, rs).table == InsertAll(t1, rs[1..]).table;
    }
  }

  /** Each row of a fully written batch holds the values of the last record
      with its URL. */
  lemma {:induction false} InsertAllLast(t: RepoTable, rs: seq<RepoRecord>)
    requires AllStorable(rs)
    ensures InsertAll(t, rs).table.rows.Keys == t.rows.Keys + Urls(rs)
    ensures var t' := InsertAll(t, rs).table;
      forall i | 0 <= i < |rs| && LastFor(rs, i) :: Holds(t'.rows[rs[i].htmlUrl], rs[i])
    decreases |rs|
  {
    InsertAllShape(t, rs);
    if rs != [] {
      UrlsCons(rs);
      var r := rs[0];
      var rest := rs[1..];
      var t1 := Upsert(t, r);
      AllStorableTail(rs);
      InsertAllLast(t1, rest);
      InsertAllShape(t1, rest);
      var t' := InsertAll(t, rs).table;
      assert t' == InsertAll(t1, rest).table;
      forall i | 0 <= i < |rs| && LastFor(rs, i) ensures Holds(t'.rows[rs[i].htmlUrl], rs[i]) {
        if i == 0 {
          forall j | 0 <= j < |rest| ensures rest[j].htmlUrl != r.htmlUrl {
            assert rest[j] == rs[j + 1];
          }
          assert r.htmlUrl !in Urls(rest);
        } else {
          assert rest[i - 1] == rs[i];
          LastForTail(rs, i);
        }
      }
    }
  }

  /** What a fully written batch does to `repositories`: the rows it creates
      and keeps, and the values they hold. */
  lemma InsertAllEffect(t: RepoTable, rs: seq<RepoRecord>)
    requires AllStorable(rs)
    ensures var t' := InsertAll(t, rs).table;
      && t'.rows.Keys == t.rows.Keys + Urls(rs)
      && t'.serial == t.serial + |rs|
      && (forall u | u in t.rows :: t'.rows[u].id == t.rows[u].id)
      && (forall u | u in t.rows && u !in Urls(rs) :: t'.rows[u] == t.rows[u])
      && (forall u | u in t'.rows && u !in t.rows :: t.serial <= t'.rows[u].id)
      && (forall i | 0 <= i < |rs| && LastFor(rs, i) :: Holds(t'.rows[rs[i].htmlUrl], rs[i]))
  {
    InsertAllShape(t, rs);
    InsertAllLast(t, rs);
  }

  /** Every URL of a batch has a last occurrence in it. */
  lemma {:induction false} LastOccurrence(rs: seq<RepoRecord>, u: string)
    requires u in Urls(rs)
    ensures exists i :: 0 <= i < |rs| && rs[i].htmlUrl == u && LastFor(rs, i)
    decreases |rs|
  {
    UrlsCons(rs);
    var rest := rs[1..];
    if u in Urls(rest) {
      LastOccurrence(rest, u);
      var i :| 0 <= i < |rest| && rest[i].htmlUrl == u && LastFor(rest, i);
      assert rs[i + 1] == rest[i];
      assert LastFor(rs, i + 1) by {
        forall j | i + 1 < j < |rs| ensures rs[j].htmlUrl != rs[i + 1].htmlUrl {
          assert rs[j] == rest[j - 1];
        }
      }
    } else {
      assert rs[0].htmlUrl == u;
      assert LastFor(rs, 0) by {
        forall j | 0 < j < |rs| ensures rs[j].htmlUrl != u {
          assert rs[j] == rest[j - 1];
        }
      }
    }
  }

  /** Writing the same batch a second time leaves the rows as they are (only
      the sequence moves on). */
  lemma InsertAllIdempotent(t: RepoTable, rs: seq<RepoRecord>)
    requires AllStorable(rs)
    ensures InsertAll(InsertAll(t, rs).table, rs).table.rows == InsertAll(t, rs).table.rows
  {
    var t1 := InsertAll(t, rs).table;
    var t2 := InsertAll(t1, rs).table;
    InsertAllEffect(t, rs);
    InsertAllEffect(t1, rs);
    forall u | u in t2.rows ensures u in t1.rows && t2.rows[u] == t1.rows[u] {
      if u in Urls(rs) {
        LastOccurrence(rs, u);
        var i :| 0 <= i < |rs| && rs[i].htmlUrl == u && LastFor(rs, i);
        assert Holds(t1.rows[u], rs[i]) && Holds(t2.rows[u], rs[i]);
      }
    }
  }

  /** Two records with one URL leave a single row with the later values, and
      the row keeps the id the first one gave it. */
  lemma LastWriteWins(t: RepoTable, first: RepoRecord, second: RepoRecord)
    requires Storable(first) && Storable(second) && first.htmlUrl == second.htmlUrl
    ensures var t' := InsertAll(t, [first, second]).table;
      && t'.rows.Keys == t.rows.Keys + {first.htmlUrl}
      && Holds(t'.rows[first.htmlUrl], second)
      && t'.rows[first.htmlUrl].id == Upsert(t, first).rows[first.htmlUrl].id
  {
    var rs := [first, second];
    var t1 := Upsert(t, first);
    assert rs[1..] == [second] && [second][1..] == [];
    assert InsertAll(t, rs) == InsertAll(t1, [second]);
    assert InsertAll(t1, [second]) == InsertAll(Upsert(t1, second), []);
  }

  // ---- configurations and repository_configurations -----------------------

  ghost predicate ConfigTableOk(c: ConfigTable) {
    && (forall n | n in c.ids :: c.ids[n] < c.serial)
    && (forall n, m | n in c.ids && m in c.ids && n != m :: c.ids[n] != c.ids[m])
  }

  function ConfigIds(c: ConfigTable): (r: set<nat>) {
    set n | n in c.ids :: c.ids[n]
  }

  /** Referential integrity of `repository_configurations`. */
  ghost predicate LinksOk(t: RepoTable, c: ConfigTable, links: set<Link>) {
    forall l | l in links :: l.0 in RepoIds(t) && l.1 in ConfigIds(c)
  }

  /** `INSERT INTO configurations (name) ... ON CONFLICT (name) DO NOTHING`. */
  function AddConfig(c: ConfigTable, name: string): (r: ConfigTable) {
    ConfigTable(if name in c.ids then c.ids else c.ids[name := c.serial], c.serial + 1)
  }

  datatype Tagged = Tagged(configs: ConfigTable, links: set<Link>, ok: bool)

  /** `updateConfigurations(url, tags)`: for each tag in turn, one call
      sends both statements: insert the tag if it is new, then insert the
      pair (id of url, id of tag) unless it is there. The two statements
      run as one implicit transaction. With no row for `url` the pair's
      repository_id is NULL, which the primary key refuses: the whole call
      is rolled back, so no configuration row is added, but the sequence
      value the first statement drew stays used, and the loop throws. */
  function LinkTags(rows: map<string, Row>, c: ConfigTable, links: set<Link>, url: string, tags: seq<string>)
    : (r: Tagged)
    decreases |tags|
  {
    if tags == [] then Tagged(c, links, true)
    else
      if url !in rows then Tagged(c.(serial := c.serial + 1), links, false)
      else
        var c1 := AddConfig(c, tags[0]);
        LinkTags(rows, c1, links + {(rows[url].id, c1.ids[tags[0]])}, url, tags[1..])
  }

  /** The pairs linking repository id `rid` to each tag of `tags` known to `ids`. */
  function Pairs(rid: nat, ids: map<string, nat>, tags: seq<string>): (r: set<Link>) {
    set t | t in tags && t in ids :: (rid, ids[t])
  }

  lemma {:induction false} LinkTagsSucceeds(rows: map<string, Row>, c: ConfigTable, links: set<Link>, url: string, tags: seq<string>)
    ensures LinkTags(rows, c, links, url, tags).ok <==> tags == [] || url in rows
    ensures var o := LinkTags(rows, c, links, url, tags);
      !o.ok ==> o.configs.ids == c.ids && o.links == links
    decreases |tags|
  {
    if tags != [] && url in rows {
      var c1 := AddConfig(c, tags[0]);
      LinkTagsSucceeds(rows, c1, links + {(rows[url].id, c1.ids[tags[0]])}, url, tags[1..]);
    }
  }

  /** The configuration side of `updateConfigurations` for a URL that has a
      row: every tag gets a row, existing ones keep their ids, new ids come
      from the sequence. */
  lemma {:induction false} LinkTagsConfigs(rows: map<string, Row>, c: ConfigTable, links: set<Link>, url: string, tags: seq<string>)
    requires url in rows
    ensures var o := LinkTags(rows, c, links, url, tags);
      && o.configs.ids.Keys == c.ids.Keys + (set t | t in tags)
      && (forall n | n in c.ids :: o.configs.ids[n] == c.ids[n])
      && (forall n | n in o.configs.ids && n !in c.ids :: c.serial <= o.configs.ids[n] < o.configs.serial)
      && o.configs.serial == c.serial + |tags|
    decreases |tags|
  {
    if tags == [] {
      assert (set t | t in tags) == {};
    } else {
      var c1 := AddConfig(c, tags[0]);
      var links1 := links + {(rows[url].id, c1.ids[tags[0]])};
      var rest := tags[1..];
      LinkTagsConfigs(rows, c1, links1, url, rest);
      assert LinkTags(rows, c, links, url, tags) == LinkTags(rows, c1, links1, url, rest);
      assert tags == [tags[0]] + rest;
      assert (set t | t in tags) == {tags[0]} + (set t | t in rest);
    }
  }

  /** The association side: exactly the pairs (id of url, id of tag) are
      added. */
  lemma {:induction false} LinkTagsLinks(rows: map<string, Row>, c: ConfigTable, links: set<Link>, url: string, tags: seq<string>)
    requires url in rows
    ensures var o := LinkTags(rows, c, links, url, tags);
      o.links == links + Pairs(rows[url].id, o.configs.ids, tags)
    decreases |tags|
  {
    var rid := rows[url].id;
    if tags != [] {
      var c1 := AddConfig(c, tags[0]);
      var links1 := links + {(rid, c1.ids[tags[0]])};
      var rest := tags[1..];
      LinkTagsLinks(rows, c1, links1, url, rest);
      LinkTagsConfigs(rows, c1, links1, url, rest);
      var o := LinkTags(rows, c, links, url, tags);
      assert o == LinkTags(rows, c1, links1, url, rest);
      assert tags == [tags[0]] + rest;
      assert o.configs.ids[tags[0]] == c1.ids[tags[0]];
      assert Pairs(rid, o.configs.ids, tags) == {(rid, c1.ids[tags[0]])} + Pairs(rid, o.configs.ids, rest);
    }
  }

  /** What `updateConfigurations` does for a URL that has a row: every tag
      gets a configuration row (existing ones keep their ids), and exactly
      the pairs (id of url, id of tag) are added to the associations. */
  lemma LinkTagsEffect(rows: map<string, Row>, c: ConfigTable, links: set<Link>, url: string, tags: seq<string>)
    requires url in rows
    ensures var o := LinkTags(rows, c, links, url, tags);
      && o.configs.ids.Keys == c.ids.Keys + (set t | t in tags)
      && (forall n | n in c.ids :: o.configs.ids[n] == c.ids[n])
      && (forall n | n in o.configs.ids && n !in c.ids :: c.serial <= o.configs.ids[n] < o.configs.serial)
      && o.configs.serial == c.serial + |tags|
      && o.links == links + Pairs(rows[url].id, o.configs.ids, tags)
  {
    LinkTagsConfigs(rows, c, links, url, tags);
    LinkTagsLinks(rows, c, links, url, tags);
  }

  /** Associations of other repositories are never touched. */
  lemma OtherLinksUntouched(rows: map<string, Row>, c: ConfigTable, links: set<Link>, url: string, tags: seq<string>)
    ensures var o := LinkTags(rows, c, links, url, tags);
      links <= o.links &&
      forall l | l in o.links && (url !in rows || l.0 != rows[url].id) :: l in links
  {
    if url in rows {
      LinkTagsEffect(rows, c, links, url, tags);
    } else if tags != [] {
      assert LinkTags(rows, c, links, url, tags).links == links;
    }
  }

  /** Repeating the call changes no configuration row and no association. */
  lemma LinkTagsIdempotent(rows: map<string, Row>, c: ConfigTable, links: set<Link>, url: string, tags: seq<string>)
    requires url in rows
    ensures var o1 := LinkTags(rows, c, links, url, tags);
      var o2 := LinkTags(rows, o1.configs, o1.links, url, tags);
      o2.configs.ids == o1.configs.ids && o2.links == o1.links
  {
    var o1 := LinkTags(rows, c, links, url, tags);
    LinkTagsEffect(rows, c, links, url, tags);
    LinkTagsEffect(rows, o1.configs, o1.links, url, tags);
  }

  /** When every tag is already present and linked, the call changes nothing
      but the sequence. */
  lemma LinkTagsNoop(rows: map<string, Row>, c: ConfigTable, links: set<Link>, url: string, tags: seq<string>)
    requires url in rows
    requires forall t | t in tags :: t in c.ids && (rows[url].id, c.ids[t]) in links
    ensures var o := LinkTags(rows, c, links, url, tags);
      o.ok && o.configs.ids == c.ids && o.links == links
  {
    LinkTagsEffect(rows, c, links, url, tags);
    LinkTagsSucceeds(rows, c, links, url, tags);
  }

  /** A refused call leaves the tables consistent: only the sequence moves. */
  lemma LinkTagsRefused(t: RepoTable, c: ConfigTable, links: set<Link>, url: string, tags: seq<string>)
    requires RepoTableOk(t) && ConfigTableOk(c) && LinksOk(t, c, links)
    requires url !in t.rows && tags != []
    ensures var o := LinkTags(t.rows, c, links, url, tags);
      && o == Tagged(c.(serial := c.serial + 1), links, false)
      && ConfigTableOk(o.configs) && LinksOk(t, o.configs, o.links)
  {
    assert ConfigIds(c.(serial := c.serial + 1)) == ConfigIds(c);
  }

  /** The first tag of an accepted call: the statements' effect keeps the
      tables consistent, and the rest of the call continues from there. */
  lemma LinkTagsAccepted(t: RepoTable, c: ConfigTable, links: set<Link>, url: string, tags: seq<string>)
    requires RepoTableOk(t) && ConfigTableOk(c) && LinksOk(t, c, links)
    requires url in t.rows && tags != []
    ensures var c1 := AddConfig(c, tags[0]);
      var links1 := links + {(t.rows[url].id, c1.ids[tags[0]])};
      && tags[0] in c1.ids
      && LinkTags(t.rows, c, links, url, tags) == LinkTags(t.rows, c1, links1, url, tags[1..])
      && ConfigTableOk(c1) && LinksOk(t, c1, links1)
  {
    var c1 := AddConfig(c, tags[0]);
    AddConfigKeepsOk(c, tags[0]);
    assert t.rows[url].id in RepoIds(t);
    assert c1.ids[tags[0]] in ConfigIds(c1);
  }

  lemma AddConfigKeepsOk(c: ConfigTable, name: string)
    requires ConfigTableOk(c)
    ensures ConfigTableOk(AddConfig(c, name))
    ensures ConfigIds(c) <= ConfigIds(AddConfig(c, name))
    ensures name in AddConfig(c, name).ids
  {
    var c' := AddConfig(c, name);
    forall x | x in ConfigIds(c) ensures x in ConfigIds(c') {
      var n :| n in c.ids && c.ids[n] == x;
      assert c'.ids[n] == x;
    }
  }

  /** `updateConfigurations` keeps both tables consistent: ids stay unique
      and every association refers to existing rows. */
  lemma {:induction false} LinkTagsKeepsOk(t: RepoTable, c: ConfigTable, links: set<Link>, url: string, tags: seq<string>)
    requires RepoTableOk(t) && ConfigTableOk(c) && LinksOk(t, c, links)
    ensures var o := LinkTags(t.rows, c, links, url, tags);
      ConfigTableOk(o.configs) && LinksOk(t, o.configs, o.links)
    decreases |tags|
  {
    if tags != [] {
      var c1 := AddConfig(c, tags[0]);
      AddConfigKeepsOk(c, tags[0]);
      assert LinksOk(t, c1, links);
      if url in t.rows {
        var l := (t.rows[url].id, c1.ids[tags[0]]);
        assert l.0 in RepoIds(t);
        assert l.1 in ConfigIds(c1);
        LinkTagsKeepsOk(t, c1, links + {l}, url, tags[1..]);
      }
    }
  }

  /** The whole catalog, as a value. */
  datatype CatalogState = CatalogState(
    schema: bool,
    repositories: RepoTable,
    configurations: ConfigTable,
    links: set<Link>)

  /** The three tables, changed in place by the job's statements. `schema`
      records whether `createTables` has succeeded. */
  class Catalog {
    var schema: bool
    var repositories: RepoTable
    var configurations: ConfigTable
    var repositoryConfigurations: set<Link>

    ghost predicate Valid()
      reads this
    {
      RepoTableOk(repositories) && ConfigTableOk(configurations) &&
      LinksOk(repositories, configurations, repositoryConfigurations)
    }

    function State(): (r: CatalogState)
      reads this
    {
      CatalogState(schema, repositories, configurations, repositoryConfigurations)
    }

    /** An empty database: no tables yet, sequences starting at 1. */
    constructor ()
      ensures Valid() && !schema
      ensures repositories == RepoTable(map[], 1)
      ensures configurations == ConfigTable(map[], 1)
      ensures repositoryConfigurations == {}
    {
      schema := false;
      repositories := RepoTable(map[], 1);
      configurations := ConfigTable(map[], 1);
      repositoryConfigurations := {};
    }

    /** `createTables`: CREATE TABLE IF NOT EXISTS for the three tables, as
        one statement; `ddlOk` says whether the database accepted it. */
    method CreateTables(ddlOk: bool) returns (ok: bool)
      modifies this`schema
      ensures ok == ddlOk
      ensures schema == (old(schema) || ddlOk)
    {
      ok := ddlOk;
      if ok {
        schema := true;
      }
    }

    /** `insertRepositories(repos)`. */
    method InsertRepositories(repos: seq<RepoRecord>) returns (ok: bool)
      requires Valid() && schema
      modifies this`repositories
      ensures Valid()
      ensures Inserted(repositories, ok) == InsertAll(old(repositories), repos)
    {
      var i := 0;
      while i < |repos|
        invariant 0 <= i <= |repos|
        invariant Valid()
        invariant InsertAll(repositories, repos[i..]) == InsertAll(old(repositories), repos)
      {
        var repo := repos[i];
        assert repos[i..][0] == repo && repos[i..][1..] == repos[i + 1..];
        if !Storable(repo) {
          return false;
        }
        UpsertKeepsOk(repositories, repo);
        var id := if repo.htmlUrl in repositories.rows then repositories.rows[repo.htmlUrl].id
                  else repositories.serial;
        repositories := RepoTable(
          repositories.rows[repo.htmlUrl := Row(id, repo.owner.value, repo.description, repo.stars, repo.lastUpdated)],
          repositories.serial + 1);
        i := i + 1;
      }
      return true;
    }

    /** `updateConfigurations(repoUrl, techStack)`. */
    method UpdateConfigurations(repoUrl: string, techStack: seq<string>) returns (ok: bool)
      requires Valid() && schema
      modifies this`configurations, this`repositoryConfigurations
      ensures Valid()
      ensures Tagged(configurations, repositoryConfigurations, ok) ==
        LinkTags(repositories.rows, old(configurations), old(repositoryConfigurations), repoUrl, techStack)
    {
      for i := 0 to |techStack|
        invariant Valid()
        invariant LinkTags(repositories.rows, configurations, repositoryConfigurations, repoUrl, techStack[i..]) ==
          LinkTags(repositories.rows, old(configurations), old(repositoryConfigurations), repoUrl, techStack)
      {
        var tech := techStack[i];
        assert techStack[i..][0] == tech && techStack[i..][1..] == techStack[i + 1..];
        if repoUrl !in repositories.rows {
          LinkTagsRefused(repositories, configurations, repositoryConfigurations, repoUrl, techStack[i..]);
          configurations := configurations.(serial := configurations.serial + 1);
          return false;
        }
        LinkTagsAccepted(repositories, configurations, repositoryConfigurations, repoUrl, techStack[i..]);
        configurations := AddConfig(configurations, tech);
        repositoryConfigurations := repositoryConfigurations + {(repositories.rows[repoUrl].id, configurations.ids[tech])};
      }
      assert techStack[|techStack|..] == [];
      return true;
    }
  }
}
