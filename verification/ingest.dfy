/** The cron handler: ensure the tables, gather ten pages from six searches
    per page, upsert every record, then detect and store the tags of every
    record in turn. A fetch error is absorbed by its adapter; any other
    error (the schema statement, a refused record, a failed content listing,
    a failed tag statement) ends the run with status 500 at that point,
    with whatever was written before it left in place. */
module Ingest {
  import opened Text
  import opened Adapters
  import opened TechStack
  import opened Catalog

  /** The four GitHub search queries, in the order they are issued. */
  const GitHubQueries: seq<string> := [
    "dotfiles",
    "dotfiles in:description",
    "kitty in:name dotfiles in:name neovim in:name tmux in:name",
    "dotfiles kitty neovim tmux in:name,description"
  ]

  /** Pages 1 to PageCount are fetched. */
  const PageCount: nat := 10

  const StatusOk: int := 200
  const StatusError: int := 500

  /** The providers' answers, for every request the run can make. */
  datatype Upstream = Upstream(
    searchGitHub: (string, int) -> Response<GitHubRepo>,
    searchGitLab: int -> Response<GitLabProject>,
    searchCodeberg: int -> Response<CodebergRepo>,
    listContents: Target -> Response<string>)

  /** The six fetches of one page, in the order their records are appended. */
  function PageFetches(up: Upstream, page: int): (fetches: seq<seq<RepoRecord>>)
    ensures |fetches| == 6
  {
    [ FetchGitHubRepos(up.searchGitHub, GitHubQueries[0], page),
      FetchGitHubRepos(up.searchGitHub, GitHubQueries[1], page),
      FetchGitHubRepos(up.searchGitHub, GitHubQueries[2], page),
      FetchGitHubRepos(up.searchGitHub, GitHubQueries[3], page),
      FetchGitLabRepos(up.searchGitLab, page),
      FetchCodebergRepos(up.searchCodeberg, page) ]
  }

  /** The fetches of pages 1 to `pages`, page by page. */
  function Fetches(up: Upstream, pages: nat): (r: seq<seq<RepoRecord>>) {
    if pages == 0 then [] else Fetches(up, pages - 1) + PageFetches(up, pages)
  }

  function Flatten(batches: seq<seq<RepoRecord>>): (r: seq<RepoRecord>) {
    if batches == [] then [] else batches[0] + Flatten(batches[1..])
  }

  /** `allRepos` once the page loop is done. */
  function Gathered(up: Upstream): (r: seq<RepoRecord>) {
    Flatten(Fetches(up, PageCount))
  }

  lemma {:induction false} FlattenAppend(a: seq<seq<RepoRecord>>, b: seq<seq<RepoRecord>>)
    ensures Flatten(a + b) == Flatten(a) + Flatten(b)
    decreases |a|
  {
    if a == [] {
      assert a + b == b;
    } else {
      assert (a + b)[0] == a[0] && (a + b)[1..] == a[1..] + b;
      FlattenAppend(a[1..], b);
    }
  }

  lemma FlattenSix(f: seq<seq<RepoRecord>>)
    requires |f| == 6
    ensures Flatten(f) == f[0] + f[1] + f[2] + f[3] + f[4] + f[5]
  {
    assert Flatten(f[5..]) == f[5] by {
      assert f[5..][0] == f[5] && f[5..][1..] == [];
    }
    assert Flatten(f[4..]) == f[4] + f[5] by {
      assert f[4..][0] == f[4] && f[4..][1..] == f[5..];
    }
    assert Flatten(f[3..]) == f[3] + (f[4] + f[5]) by {
      assert f[3..][0] == f[3] && f[3..][1..] == f[4..];
    }
    assert Flatten(f[2..]) == f[2] + (f[3] + (f[4] + f[5])) by {
      assert f[2..][0] == f[2] && f[2..][1..] == f[3..];
    }
    assert Flatten(f[1..]) == f[1] + (f[2] + (f[3] + (f[4] + f[5]))) by {
      assert f[1..][0] == f[1] && f[1..][1..] == f[2..];
    }
  }

  /** Six pushes append the six batches in order. */
  lemma PushSix(before: seq<RepoRecord>, b0: seq<RepoRecord>, b1: seq<RepoRecord>, b2: seq<RepoRecord>,
                b3: seq<RepoRecord>, b4: seq<RepoRecord>, b5: seq<RepoRecord>)
    ensures before + b0 + b1 + b2 + b3 + b4 + b5 == before + Flatten([b0, b1, b2, b3, b4, b5])
  {
    FlattenSix([b0, b1, b2, b3, b4, b5]);
  }

  /** Fetch `k` of page `page` is batch number 6 * (page - 1) + k of the run. */
  lemma {:induction false} FetchSlot(up: Upstream, pages: nat, page: nat, k: nat)
    requires 1 <= page <= pages && k < 6
    ensures |Fetches(up, pages)| == 6 * pages
    ensures Fetches(up, pages)[6 * (page - 1) + k] == PageFetches(up, page)[k]
    decreases pages
  {
    FetchCount(up, pages - 1);
    if page < pages {
      FetchSlot(up, pages - 1, page, k);
    }
  }

  lemma {:induction false} FetchCount(up: Upstream, pages: nat)
    ensures |Fetches(up, pages)| == 6 * pages
  {
    if pages > 0 {
      FetchCount(up, pages - 1);
    }
  }

  /** Batch `j` appears intact in the flattened sequence, after the batches
      before it. */
  lemma FlattenSlot(batches: seq<seq<RepoRecord>>, j: nat)
    requires j < |batches|
    ensures var o := |Flatten(batches[..j])|;
      o + |batches[j]| <= |Flatten(batches)| && Flatten(batches)[o..o + |batches[j]|] == batches[j]
  {
    assert batches == batches[..j] + ([batches[j]] + batches[j + 1..]);
    FlattenAppend(batches[..j], [batches[j]] + batches[j + 1..]);
    FlattenAppend([batches[j]], batches[j + 1..]);
    assert Flatten([batches[j]]) == batches[j] by {
      assert [batches[j]][1..] == [];
    }
  }

  /** Isolation of fetch failures: whatever the other fetches return, the
      records of fetch `k` of page `page` reach the batch, contiguous and in
      their own order, after those of every earlier fetch. */
  lemma FetchIsolation(up: Upstream, page: nat, k: nat)
    requires 1 <= page <= PageCount && k < 6
    ensures |Fetches(up, PageCount)| == 6 * PageCount
    ensures var j := 6 * (page - 1) + k;
      var o := |Flatten(Fetches(up, PageCount)[..j])|;
      var records := PageFetches(up, page)[k];
      o + |records| <= |Gathered(up)| && Gathered(up)[o..o + |records|] == records
  {
    FetchSlot(up, PageCount, page, k);
    FlattenSlot(Fetches(up, PageCount), 6 * (page - 1) + k);
  }

  // ---- the detection loop ------------------------------------------------

  /** The loop `for (const repo of allRepos)`: detect, then store the tags. */
  function DetectAndLink(rows: map<string, Row>, c: ConfigTable, links: set<Link>,
                         recs: seq<RepoRecord>, listContents: Target -> Response<string>): (r: Tagged)
    decreases |recs|
  {
    if recs == [] then Tagged(c, links, true)
    else
      match Detect(recs[0].htmlUrl, listContents)
      case ListingFailed => Tagged(c, links, false)
      case Detected(tags) =>
        var o := LinkTags(rows, c, links, recs[0].htmlUrl, tags);
        if !o.ok then o else DetectAndLink(rows, o.configs, o.links, recs[1..], listContents)
  }

  /** Every URL of the batch has a row. */
  ghost predicate AllHaveRows(rows: map<string, Row>, recs: seq<RepoRecord>) {
    forall i | 0 <= i < |recs| :: recs[i].htmlUrl in rows
  }

  /** Every content listing of the batch succeeds. */
  ghost predicate AllListed(recs: seq<RepoRecord>, listContents: Target -> Response<string>) {
    forall i | 0 <= i < |recs| :: Detect(recs[i].htmlUrl, listContents).Detected?
  }

  /** Every tag detected for record `i` is a configuration linked to the
      record's repository. */
  ghost predicate AllLinked(rows: map<string, Row>, c: ConfigTable, links: set<Link>,
                            recs: seq<RepoRecord>, listContents: Target -> Response<string>)
    requires AllHaveRows(rows, recs) && AllListed(recs, listContents)
  {
    forall i, t | 0 <= i < |recs| && t in Detect(recs[i].htmlUrl, listContents).tags ::
      t in c.ids && (rows[recs[i].htmlUrl].id, c.ids[t]) in links
  }

  lemma AllHaveRowsTail(rows: map<string, Row>, recs: seq<RepoRecord>)
    requires recs != [] && AllHaveRows(rows, recs)
    ensures AllHaveRows(rows, recs[1..])
  {
    forall i | 0 <= i < |recs[1..]| ensures recs[1..][i].htmlUrl in rows {
      assert recs[1..][i] == recs[i + 1];
    }
  }

  lemma AllListedTail(recs: seq<RepoRecord>, listContents: Target -> Response<string>)
    requires recs != [] && AllListed(recs, listContents)
    ensures AllListed(recs[1..], listContents)
  {
    forall i | 0 <= i < |recs[1..]| ensures Detect(recs[1..][i].htmlUrl, listContents).Detected? {
      assert recs[1..][i] == recs[i + 1];
    }
  }

  /** With every URL present, the loop completes exactly when every listing
      succeeds: a tag statement never fails. */
  lemma {:induction false} DetectAndLinkSucceeds(rows: map<string, Row>, c: ConfigTable, links: set<Link>,
                                                 recs: seq<RepoRecord>, listContents: Target -> Response<string>)
    requires AllHaveRows(rows, recs)
    ensures DetectAndLink(rows, c, links, recs, listContents).ok <==> AllListed(recs, listContents)
    decreases |recs|
  {
    if recs != [] {
      AllHaveRowsTail(rows, recs);
      var url := recs[0].htmlUrl;
      assert url in rows;
      match Detect(url, listContents)
      case ListingFailed =>
      case Detected(tags) =>
        var o := LinkTags(rows, c, links, url, tags);
        LinkTagsSucceeds(rows, c, links, url, tags);
        DetectAndLinkSucceeds(rows, o.configs, o.links, recs[1..], listContents);
        if AllListed(recs[1..], listContents) {
          forall i | 0 <= i < |recs| ensures Detect(recs[i].htmlUrl, listContents).Detected? {
            if i > 0 {
              assert recs[i] == recs[1..][i - 1];
            }
          }
        }
    }
  }

  /** One call of `updateConfigurations` for a URL that has a row, in the
      terms the loop needs. */
  lemma LinkStep(rows: map<string, Row>, c: ConfigTable, links: set<Link>, url: string, tags: seq<string>)
    requires url in rows
    ensures var o := LinkTags(rows, c, links, url, tags);
      && o.ok
      && c.ids.Keys <= o.configs.ids.Keys
      && (forall n | n in c.ids :: o.configs.ids[n] == c.ids[n])
      && links <= o.links
      && (forall t | t in tags :: t in o.configs.ids && (rows[url].id, o.configs.ids[t]) in o.links)
  {
    var o := LinkTags(rows, c, links, url, tags);
    LinkTagsSucceeds(rows, c, links, url, tags);
    LinkTagsEffect(rows, c, links, url, tags);
    forall t | t in tags ensures t in o.configs.ids && (rows[url].id, o.configs.ids[t]) in o.links {
      assert t in (set x | x in tags);
      assert (rows[url].id, o.configs.ids[t]) in Pairs(rows[url].id, o.configs.ids, tags);
    }
  }

  /** What a completed detection loop leaves: configuration ids that existed
      are kept, no association is lost, and every detected tag of every
      record is a configuration linked to that record's repository. */
  lemma {:induction false} DetectAndLinkAdds(rows: map<string, Row>, c: ConfigTable, links: set<Link>,
                                             recs: seq<RepoRecord>, listContents: Target -> Response<string>)
    requires AllHaveRows(rows, recs) && AllListed(recs, listContents)
    ensures var o := DetectAndLink(rows, c, links, recs, listContents);
      && c.ids.Keys <= o.configs.ids.Keys
      && (forall n | n in c.ids :: o.configs.ids[n] == c.ids[n])
      && links <= o.links
      && AllLinked(rows, o.configs, o.links, recs, listContents)
    decreases |recs|
  {
    if recs != [] {
      AllHaveRowsTail(rows, recs);
      var rest := recs[1..];
      AllListedTail(recs, listContents);
      var url := recs[0].htmlUrl;
      assert url in rows && Detect(url, listContents).Detected?;
      var tags := Detect(url, listContents).tags;
      var o1 := LinkTags(rows, c, links, url, tags);
      LinkStep(rows, c, links, url, tags);
      DetectAndLinkAdds(rows, o1.configs, o1.links, rest, listContents);
      var o := DetectAndLink(rows, c, links, recs, listContents);
      assert o == DetectAndLink(rows, o1.configs, o1.links, rest, listContents);
      forall t | t in tags
        ensures t in o.configs.ids && (rows[url].id, o.configs.ids[t]) in o.links
      {
        assert t in o1.configs.ids;
      }
      AllLinkedCons(rows, o.configs, o.links, recs, listContents);
    }
  }

  /** The head's tags linked, and the rest's: all linked. */
  lemma AllLinkedCons(rows: map<string, Row>, c: ConfigTable, links: set<Link>,
                      recs: seq<RepoRecord>, listContents: Target -> Response<string>)
    requires recs != [] && AllHaveRows(rows, recs) && AllListed(recs, listContents)
    requires forall t | t in Detect(recs[0].htmlUrl, listContents).tags ::
      t in c.ids && (rows[recs[0].htmlUrl].id, c.ids[t]) in links
    requires AllHaveRows(rows, recs[1..]) && AllListed(recs[1..], listContents)
    requires AllLinked(rows, c, links, recs[1..], listContents)
    ensures AllLinked(rows, c, links, recs, listContents)
  {
    forall i, t | 0 <= i < |recs| && t in Detect(recs[i].htmlUrl, listContents).tags
      ensures t in c.ids && (rows[recs[i].htmlUrl].id, c.ids[t]) in links
    {
      if i > 0 {
        var rest := recs[1..];
        assert recs[i] == rest[i - 1];
        assert t in Detect(rest[i - 1].htmlUrl, listContents).tags;
      }
    }
  }

  /** Every configuration name in `c` but not in `c0` is a tag detected for
      some record of the batch. */
  ghost predicate NamesFrom(c0: ConfigTable, c: ConfigTable,
                            recs: seq<RepoRecord>, listContents: Target -> Response<string>)
    requires AllListed(recs, listContents)
  {
    forall n | n in c.ids && n !in c0.ids ::
      exists i :: 0 <= i < |recs| && n in Detect(recs[i].htmlUrl, listContents).tags
  }

  /** Every association in `links` but not in `links0` pairs the repository
      of some record of the batch with a tag detected for that record. */
  ghost predicate LinksFrom(rows: map<string, Row>, c: ConfigTable, links0: set<Link>, links: set<Link>,
                            recs: seq<RepoRecord>, listContents: Target -> Response<string>)
    requires AllHaveRows(rows, recs) && AllListed(recs, listContents)
  {
    forall l | l in links && l !in links0 ::
      exists i, t :: 0 <= i < |recs| && t in Detect(recs[i].htmlUrl, listContents).tags &&
        t in c.ids && l == (rows[recs[i].htmlUrl].id, c.ids[t])
  }

  /** A completed detection loop adds no configuration name that was not
      detected for a record of the batch. */
  lemma {:induction false} DetectAndLinkNewNames(rows: map<string, Row>, c: ConfigTable, links: set<Link>,
                                                 recs: seq<RepoRecord>, listContents: Target -> Response<string>)
    requires AllHaveRows(rows, recs) && AllListed(recs, listContents)
    ensures NamesFrom(c, DetectAndLink(rows, c, links, recs, listContents).configs, recs, listContents)
    decreases |recs|
  {
    if recs != [] {
      AllHaveRowsTail(rows, recs);
      AllListedTail(recs, listContents);
      var rest := recs[1..];
      var url := recs[0].htmlUrl;
      assert url in rows && Detect(url, listContents).Detected?;
      var tags := Detect(url, listContents).tags;
      var o1 := LinkTags(rows, c, links, url, tags);
      LinkStep(rows, c, links, url, tags);
      LinkTagsEffect(rows, c, links, url, tags);
      DetectAndLinkNewNames(rows, o1.configs, o1.links, rest, listContents);
      var o := DetectAndLink(rows, c, links, recs, listContents);
      assert o == DetectAndLink(rows, o1.configs, o1.links, rest, listContents);
      forall n | n in o.configs.ids && n !in c.ids
        ensures exists i :: 0 <= i < |recs| && n in Detect(recs[i].htmlUrl, listContents).tags
      {
        if n in o1.configs.ids {
          assert n in (set t | t in tags);
          assert n in Detect(recs[0].htmlUrl, listContents).tags;
        } else {
          var j :| 0 <= j < |rest| && n in Detect(rest[j].htmlUrl, listContents).tags;
          assert rest[j] == recs[j + 1];
        }
      }
    }
  }

  /** A completed detection loop adds no association other than the pairs
      (repository of a record, tag detected for it). */
  lemma {:induction false} DetectAndLinkNewLinks(rows: map<string, Row>, c: ConfigTable, links: set<Link>,
                                                 recs: seq<RepoRecord>, listContents: Target -> Response<string>)
    requires AllHaveRows(rows, recs) && AllListed(recs, listContents)
    ensures var o := DetectAndLink(rows, c, links, recs, listContents);
      LinksFrom(rows, o.configs, links, o.links, recs, listContents)
    decreases |recs|
  {
    if recs != [] {
      AllHaveRowsTail(rows, recs);
      AllListedTail(recs, listContents);
      var rest := recs[1..];
      var url := recs[0].htmlUrl;
      assert url in rows && Detect(url, listContents).Detected?;
      var tags := Detect(url, listContents).tags;
      var o1 := LinkTags(rows, c, links, url, tags);
      LinkStep(rows, c, links, url, tags);
      LinkTagsEffect(rows, c, links, url, tags);
      DetectAndLinkNewLinks(rows, o1.configs, o1.links, rest, listContents);
      DetectAndLinkAdds(rows, o1.configs, o1.links, rest, listContents);
      var o := DetectAndLink(rows, c, links, recs, listContents);
      assert o == DetectAndLink(rows, o1.configs, o1.links, rest, listContents);
      forall l | l in o.links && l !in links
        ensures exists i, t ::
          0 <= i < |recs| && t in Detect(recs[i].htmlUrl, listContents).tags &&
          t in o.configs.ids && l == (rows[recs[i].htmlUrl].id, o.configs.ids[t])
      {
        if l in o1.links {
          assert l in Pairs(rows[url].id, o1.configs.ids, tags);
          var t :| t in tags && t in o1.configs.ids && l == (rows[url].id, o1.configs.ids[t]);
          assert o.configs.ids[t] == o1.configs.ids[t];
          assert t in Detect(recs[0].htmlUrl, listContents).tags;
        } else {
          var j, t :| 0 <= j < |rest| && t in Detect(rest[j].htmlUrl, listContents).tags &&
            t in o.configs.ids && l == (rows[rest[j].htmlUrl].id, o.configs.ids[t]);
          assert rest[j] == recs[j + 1];
        }
      }
    }
  }

  /** The whole effect of a completed detection loop on the tag tables:
      existing configuration ids and associations are kept, every detected
      tag of every record is linked to that record's repository, and nothing
      else is added. */
  lemma DetectAndLinkEffect(rows: map<string, Row>, c: ConfigTable, links: set<Link>,
                            recs: seq<RepoRecord>, listContents: Target -> Response<string>)
    requires AllHaveRows(rows, recs) && AllListed(recs, listContents)
    ensures var o := DetectAndLink(rows, c, links, recs, listContents);
      && c.ids.Keys <= o.configs.ids.Keys
      && (forall n | n in c.ids :: o.configs.ids[n] == c.ids[n])
      && links <= o.links
      && AllLinked(rows, o.configs, o.links, recs, listContents)
      && NamesFrom(c, o.configs, recs, listContents)
      && LinksFrom(rows, o.configs, links, o.links, recs, listContents)
  {
    DetectAndLinkAdds(rows, c, links, recs, listContents);
    DetectAndLinkNewNames(rows, c, links, recs, listContents);
    DetectAndLinkNewLinks(rows, c, links, recs, listContents);
  }

  /** When every detected tag is already stored and linked, the loop changes
      no configuration and no association. */
  lemma {:induction false} DetectAndLinkNoop(rows: map<string, Row>, c: ConfigTable, links: set<Link>,
                                             recs: seq<RepoRecord>, listContents: Target -> Response<string>)
    requires AllHaveRows(rows, recs) && AllListed(recs, listContents)
    requires AllLinked(rows, c, links, recs, listContents)
    ensures var o := DetectAndLink(rows, c, links, recs, listContents);
      o.ok && o.configs.ids == c.ids && o.links == links
    decreases |recs|
  {
    if recs != [] {
      AllHaveRowsTail(rows, recs);
      var rest := recs[1..];
      AllListedTail(recs, listContents);
      var url := recs[0].htmlUrl;
      assert url in rows && Detect(url, listContents).Detected?;
      var tags := Detect(url, listContents).tags;
      LinkTagsNoop(rows, c, links, url, tags);
      var o1 := LinkTags(rows, c, links, url, tags);
      assert AllLinked(rows, o1.configs, o1.links, rest, listContents) by {
        forall i, t | 0 <= i < |rest| && t in Detect(rest[i].htmlUrl, listContents).tags
          ensures t in c.ids && (rows[rest[i].htmlUrl].id, c.ids[t]) in links
        {
          assert rest[i] == recs[i + 1];
        }
      }
      DetectAndLinkNoop(rows, o1.configs, o1.links, rest, listContents);
    }
  }

  /** The first failed listing ends the loop: records before it have their
      tags stored, no record from it on is processed. */
  lemma {:induction false} DetectAndLinkStopsAt(rows: map<string, Row>, c: ConfigTable, links: set<Link>,
                                                recs: seq<RepoRecord>, listContents: Target -> Response<string>, k: nat)
    requires k < |recs| && AllHaveRows(rows, recs)
    requires AllListed(recs[..k], listContents) && Detect(recs[k].htmlUrl, listContents).ListingFailed?
    ensures var p := DetectAndLink(rows, c, links, recs[..k], listContents);
      p.ok && DetectAndLink(rows, c, links, recs, listContents) == Tagged(p.configs, p.links, false)
    decreases k
  {
    if k == 0 {
      assert recs[..0] == [];
    } else {
      var url := recs[0].htmlUrl;
      assert recs[..k][0] == recs[0];
      assert url in rows && Detect(url, listContents).Detected?;
      var tags := Detect(url, listContents).tags;
      var o1 := LinkTags(rows, c, links, url, tags);
      LinkTagsSucceeds(rows, c, links, url, tags);
      AllHaveRowsTail(rows, recs);
      var rest := recs[1..];
      assert recs[..k][1..] == rest[..k - 1];
      assert AllListed(rest[..k - 1], listContents) by {
        forall i | 0 <= i < k - 1 ensures Detect(rest[i].htmlUrl, listContents).Detected? {
          assert rest[i] == recs[..k][i + 1];
        }
      }
      assert rest[k - 1] == recs[k];
      DetectAndLinkStopsAt(rows, o1.configs, o1.links, rest, listContents, k - 1);
    }
  }

  // ---- the run -----------------------------------------------------------

  datatype RunResult = RunResult(status: int, state: CatalogState)

  /** Specification of `handler`. */
  function Run(up: Upstream, ddlOk: bool, s: CatalogState): (r: RunResult) {
    if !ddlOk then RunResult(StatusError, s)
    else
      var all := Gathered(up);
      var ins := InsertAll(s.repositories, all);
      if !ins.ok then RunResult(StatusError, s.(schema := true, repositories := ins.table))
      else
        var tg := DetectAndLink(ins.table.rows, s.configurations, s.links, all, up.listContents);
        RunResult(if tg.ok then StatusOk else StatusError,
                  CatalogState(true, ins.table, tg.configs, tg.links))
  }

  /** The page loop of `handler`: pages 1 to 10, six fetches each, every
      batch appended to `allRepos`. */
  method GatherRepos(up: Upstream) returns (allRepos: seq<RepoRecord>)
    ensures allRepos == Gathered(up)
  {
    allRepos := [];
    for i := 1 to PageCount + 1
      invariant allRepos == Flatten(Fetches(up, i - 1))
    {
      ghost var before := allRepos;
      allRepos := allRepos + FetchGitHubRepos(up.searchGitHub, GitHubQueries[0], i);
      allRepos := allRepos + FetchGitHubRepos(up.searchGitHub, GitHubQueries[1], i);
      allRepos := allRepos + FetchGitHubRepos(up.searchGitHub, GitHubQueries[2], i);
      allRepos := allRepos + FetchGitHubRepos(up.searchGitHub, GitHubQueries[3], i);
      allRepos := allRepos + FetchGitLabRepos(up.searchGitLab, i);
      allRepos := allRepos + FetchCodebergRepos(up.searchCodeberg, i);
      PushSix(before, FetchGitHubRepos(up.searchGitHub, GitHubQueries[0], i),
              FetchGitHubRepos(up.searchGitHub, GitHubQueries[1], i),
              FetchGitHubRepos(up.searchGitHub, GitHubQueries[2], i),
              FetchGitHubRepos(up.searchGitHub, GitHubQueries[3], i),
              FetchGitLabRepos(up.searchGitLab, i), FetchCodebergRepos(up.searchCodeberg, i));
      FlattenAppend(Fetches(up, i - 1), PageFetches(up, i));
    }
  }

  /** The detection loop of `handler`: for each record in turn, detect its
      tags and store them; the first failure ends the loop. */
  method StoreTechStacks(catalog: Catalog, allRepos: seq<RepoRecord>, listContents: Target -> Response<string>)
    returns (ok: bool)
    requires catalog.Valid() && catalog.schema
    modifies catalog`configurations, catalog`repositoryConfigurations
    ensures catalog.Valid()
    ensures Tagged(catalog.configurations, catalog.repositoryConfigurations, ok) ==
      DetectAndLink(catalog.repositories.rows, old(catalog.configurations), old(catalog.repositoryConfigurations),
                    allRepos, listContents)
  {
    for j := 0 to |allRepos|
      invariant catalog.Valid()
      invariant DetectAndLink(catalog.repositories.rows, catalog.configurations, catalog.repositoryConfigurations,
                              allRepos[j..], listContents) ==
        DetectAndLink(catalog.repositories.rows, old(catalog.configurations), old(catalog.repositoryConfigurations),
                      allRepos, listContents)
    {
      var repo := allRepos[j];
      assert allRepos[j..][0] == repo && allRepos[j..][1..] == allRepos[j + 1..];
      var techStack := DetectTechStack(repo.htmlUrl, listContents);
      if techStack.ListingFailed? {
        return false;
      }
      var linked := catalog.UpdateConfigurations(repo.htmlUrl, techStack.tags);
      if !linked {
        return false;
      }
    }
    assert allRepos[|allRepos|..] == [];
    return true;
  }

  /** `handler`: the HTTP status of the run, and the catalog it leaves. */
  method Handler(catalog: Catalog, up: Upstream, ddlOk: bool) returns (status: int)
    requires catalog.Valid()
    modifies catalog
    ensures catalog.Valid()
    ensures RunResult(status, catalog.State()) == Run(up, ddlOk, old(catalog.State()))
  {
    var created := catalog.CreateTables(ddlOk);
    if !created {
      return StatusError;
    }
    var allRepos := GatherRepos(up);
    var inserted := catalog.InsertRepositories(allRepos);
    if !inserted {
      return StatusError;
    }
    var linked := StoreTechStacks(catalog, allRepos, up.listContents);
    status := if linked then StatusOk else StatusError;
  }

  // ---- properties of a run -----------------------------------------------

  /** The outcome of a run: 500 exactly when the schema statement fails, a
      gathered record is refused by the table, or a content listing fails.
      Fetch failures are not among the causes. */
  lemma RunStatus(up: Upstream, ddlOk: bool, s: CatalogState)
    ensures var r := Run(up, ddlOk, s);
      (r.status == StatusOk || r.status == StatusError) &&
      (r.status == StatusOk <==>
        ddlOk && AllStorable(Gathered(up)) && AllListed(Gathered(up), up.listContents))
  {
    var all := Gathered(up);
    InsertAllSucceeds(s.repositories, all);
    if ddlOk && AllStorable(all) {
      var ins := InsertAll(s.repositories, all);
      InsertAllEffect(s.repositories, all);
      assert AllHaveRows(ins.table.rows, all) by {
        forall i | 0 <= i < |all| ensures all[i].htmlUrl in ins.table.rows {
          assert all[i].htmlUrl in Urls(all);
        }
      }
      DetectAndLinkSucceeds(ins.table.rows, s.configurations, s.links, all, up.listContents);
    }
  }

  /** A failed schema statement changes nothing. A refused record stops the
      run before any detection: the records before it are written, and the
      configurations and associations are as they were. */
  lemma RunAbortsEarly(up: Upstream, ddlOk: bool, s: CatalogState, k: nat)
    requires k < |Gathered(up)| && !Storable(Gathered(up)[k]) && AllStorable(Gathered(up)[..k])
    ensures Run(up, false, s) == RunResult(StatusError, s)
    ensures ddlOk ==>
      Run(up, ddlOk, s) ==
        RunResult(StatusError, s.(schema := true, repositories := InsertAll(s.repositories, Gathered(up)[..k]).table))
  {
    InsertAllStopsAt(s.repositories, Gathered(up), k);
  }

  /** A failed content listing ends the run with 500 at that record: all
      records are written, the tags of the records before it are stored, and
      no record from it on is tagged. */
  lemma RunStopsAtListing(up: Upstream, s: CatalogState, k: nat)
    requires AllStorable(Gathered(up)) && k < |Gathered(up)|
    requires AllListed(Gathered(up)[..k], up.listContents)
    requires Detect(Gathered(up)[k].htmlUrl, up.listContents).ListingFailed?
    ensures var all := Gathered(up);
      var ins := InsertAll(s.repositories, all).table;
      var p := DetectAndLink(ins.rows, s.configurations, s.links, all[..k], up.listContents);
      Run(up, true, s) == RunResult(StatusError, CatalogState(true, ins, p.configs, p.links))
  {
    var all := Gathered(up);
    InsertAllSucceeds(s.repositories, all);
    InsertAllEffect(s.repositories, all);
    var ins := InsertAll(s.repositories, all).table;
    assert AllHaveRows(ins.rows, all) by {
      forall i | 0 <= i < |all| ensures all[i].htmlUrl in ins.rows {
        assert all[i].htmlUrl in Urls(all);
      }
    }
    DetectAndLinkStopsAt(ins.rows, s.configurations, s.links, all, up.listContents, k);
  }

  /** What a successful run leaves in the catalog: every gathered URL has a
      row holding its last record's values, existing rows keep their ids,
      rows not gathered are untouched, existing configurations keep their
      ids, no association is lost, and every detected tag of every record
      is linked to its repository. */
  lemma RunSuccessState(up: Upstream, s: CatalogState)
    requires Run(up, true, s).status == StatusOk
    ensures var s' := Run(up, true, s).state;
      var all := Gathered(up);
      && s'.schema
      && s'.repositories.rows.Keys == s.repositories.rows.Keys + Urls(all)
      && (forall i | 0 <= i < |all| && LastFor(all, i) :: Holds(s'.repositories.rows[all[i].htmlUrl], all[i]))
      && (forall u | u in s.repositories.rows :: s'.repositories.rows[u].id == s.repositories.rows[u].id)
      && (forall u | u in s.repositories.rows && u !in Urls(all) :: s'.repositories.rows[u] == s.repositories.rows[u])
      && (forall n | n in s.configurations.ids :: n in s'.configurations.ids && s'.configurations.ids[n] == s.configurations.ids[n])
      && s.links <= s'.links
      && AllHaveRows(s'.repositories.rows, all) && AllListed(all, up.listContents)
      && AllLinked(s'.repositories.rows, s'.configurations, s'.links, all, up.listContents)
      && NamesFrom(s.configurations, s'.configurations, all, up.listContents)
      && LinksFrom(s'.repositories.rows, s'.configurations, s.links, s'.links, all, up.listContents)
      && (forall l | l in s'.links && (forall i | 0 <= i < |all| :: l.0 != s'.repositories.rows[all[i].htmlUrl].id) ::
            l in s.links)
  {
    var all := Gathered(up);
    RunStatus(up, true, s);
    InsertAllEffect(s.repositories, all);
    var ins := InsertAll(s.repositories, all);
    assert AllHaveRows(ins.table.rows, all) by {
      forall i | 0 <= i < |all| ensures all[i].htmlUrl in ins.table.rows {
        assert all[i].htmlUrl in Urls(all);
      }
    }
    DetectAndLinkEffect(ins.table.rows, s.configurations, s.links, all, up.listContents);
  }

  /** Running the job twice against the same upstream answers gives the same
      catalog as running it once: same rows, same configuration ids, same
      associations (only the id sequences move on). */
  lemma RunIdempotent(up: Upstream, s: CatalogState)
    requires Run(up, true, s).status == StatusOk
    ensures var s1 := Run(up, true, s).state;
      var r2 := Run(up, true, s1);
      && r2.status == StatusOk
      && r2.state.repositories.rows == s1.repositories.rows
      && r2.state.configurations.ids == s1.configurations.ids
      && r2.state.links == s1.links
  {
    var all := Gathered(up);
    var s1 := Run(up, true, s).state;
    RunStatus(up, true, s);
    RunSuccessState(up, s);
    InsertAllIdempotent(s.repositories, all);
    InsertAllSucceeds(s1.repositories, all);
    var ins2 := InsertAll(s1.repositories, all);
    assert ins2.table.rows == s1.repositories.rows;
    DetectAndLinkNoop(s1.repositories.rows, s1.configurations, s1.links, all, up.listContents);
  }
}
