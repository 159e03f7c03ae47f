/** The three source adapters of the ingestion job: each asks one provider for
    one page of search results and turns every item into the common record
    {description, html_url, stars, last_updated, owner, project_id}.
    The request itself is outside the model: the provider's answer is an
    input, either a page of items or a failure (transport error, HTTP error
    status, rate limit). */
module Adapters {
  import opened Text

  /** Timestamps are passed through untouched and never inspected. */
  type Timestamp = string

  /** The normalised record every adapter produces. Fields a provider may
      leave null or absent are options. */
  datatype RepoRecord = RepoRecord(
    description: Option<string>,
    htmlUrl: string,
    stars: Option<int>,
    lastUpdated: Option<Timestamp>,
    owner: Option<string>,
    projectId: int)

  /** A provider's answer to one request: the items of the page, or a failure. */
  datatype Response<T> = Page(items: seq<T>) | Failed

  /** A nested JSON object that may itself be null (`repo.owner`,
      `repo.namespace`); reading a field of a null object throws. */
  datatype Account = Account(name: Option<string>)

  /** An item of GitHub's repository search. */
  datatype GitHubRepo = GitHubRepo(
    description: Option<string>,
    htmlUrl: string,
    stargazersCount: Option<int>,
    updatedAt: Option<Timestamp>,
    owner: Option<Account>,       // `owner.login`
    id: int)

  /** An item of GitLab's project search. */
  datatype GitLabProject = GitLabProject(
    description: Option<string>,
    webUrl: string,
    starCount: Option<int>,
    lastActivityAt: Option<Timestamp>,
    namespace: Option<Account>,   // `namespace.name`
    id: int)

  /** An item of Codeberg's repository search. */
  datatype CodebergRepo = CodebergRepo(
    description: Option<string>,
    htmlUrl: string,
    starsCount: Option<int>,
    updatedAt: Option<Timestamp>,
    owner: Option<Account>,       // `owner.username`
    id: int)

  /** The mapping callback throws on an item whose owner object is null. */
  predicate GitHubMappable(items: seq<GitHubRepo>) {
    forall i :: 0 <= i < |items| ==> items[i].owner.Some?
  }

  predicate GitLabMappable(items: seq<GitLabProject>) {
    forall i :: 0 <= i < |items| ==> items[i].namespace.Some?
  }

  predicate CodebergMappable(items: seq<CodebergRepo>) {
    forall i :: 0 <= i < |items| ==> items[i].owner.Some?
  }

  function MapGitHub(items: seq<GitHubRepo>): (records: seq<RepoRecord>)
    requires GitHubMappable(items)
    ensures |records| == |items|
    ensures forall i :: 0 <= i < |items| ==>
      records[i] == RepoRecord(items[i].description, items[i].htmlUrl, items[i].stargazersCount,
                               items[i].updatedAt, items[i].owner.value.name, items[i].id)
  {
    if items == [] then []
    else
      var r := items[0];
      [RepoRecord(r.description, r.htmlUrl, r.stargazersCount, r.updatedAt, r.owner.value.name, r.id)]
        + MapGitHub(items[1..])
  }

  function MapGitLab(items: seq<GitLabProject>): (records: seq<RepoRecord>)
    requires GitLabMappable(items)
    ensures |records| == |items|
    ensures forall i :: 0 <= i < |items| ==>
      records[i] == RepoRecord(items[i].description, items[i].webUrl, items[i].starCount,
                               items[i].lastActivityAt, items[i].namespace.value.name, items[i].id)
  {
    if items == [] then []
    else
      var p := items[0];
      [RepoRecord(p.description, p.webUrl, p.starCount, p.lastActivityAt, p.namespace.value.name, p.id)]
        + MapGitLab(items[1..])
  }

  function MapCodeberg(items: seq<CodebergRepo>): (records: seq<RepoRecord>)
    requires CodebergMappable(items)
    ensures |records| == |items|
    ensures forall i :: 0 <= i < |items| ==>
      records[i] == RepoRecord(items[i].description, items[i].htmlUrl, items[i].starsCount,
                               items[i].updatedAt, items[i].owner.value.name, items[i].id)
  {
    if items == [] then []
    else
      var r := items[0];
      [RepoRecord(r.description, r.htmlUrl, r.starsCount, r.updatedAt, r.owner.value.name, r.id)]
        + MapCodeberg(items[1..])
  }

  /** `fetchGitHubRepos(query, page)`: `search(query, page)` stands for the
      search request with 100 items per page. Every error, including one
      thrown while mapping an item, is caught and yields no records. */
  function FetchGitHubRepos(search: (string, int) -> Response<GitHubRepo>, query: string, page: int)
    : (records: seq<RepoRecord>)
    ensures search(query, page).Failed? ==> records == []
    ensures search(query, page).Page? && !GitHubMappable(search(query, page).items) ==> records == []
    ensures search(query, page).Page? && GitHubMappable(search(query, page).items) ==>
      var items := search(query, page).items;
      |records| == |items| &&
      forall i :: 0 <= i < |items| ==>
        && records[i].htmlUrl == items[i].htmlUrl
        && records[i].description == items[i].description
        && records[i].stars == items[i].stargazersCount
        && records[i].lastUpdated == items[i].updatedAt
        && records[i].owner == items[i].owner.value.name
        && records[i].projectId == items[i].id
  {
    match search(query, page)
    case Failed => []
    case Page(items) => if GitHubMappable(items) then MapGitHub(items) else []
  }

  /** `fetchGitLabRepos(page)`: the project search for "dotfiles"; the owner
      is the name of the project's namespace. */
  function FetchGitLabRepos(projects: int -> Response<GitLabProject>, page: int)
    : (records: seq<RepoRecord>)
    ensures projects(page).Failed? ==> records == []
    ensures projects(page).Page? && !GitLabMappable(projects(page).items) ==> records == []
    ensures projects(page).Page? && GitLabMappable(projects(page).items) ==>
      var items := projects(page).items;
      |records| == |items| &&
      forall i :: 0 <= i < |items| ==>
        && records[i].htmlUrl == items[i].webUrl
        && records[i].description == items[i].description
        && records[i].stars == items[i].starCount
        && records[i].lastUpdated == items[i].lastActivityAt
        && records[i].owner == items[i].namespace.value.name
        && records[i].projectId == items[i].id
  {
    match projects(page)
    case Failed => []
    case Page(items) => if GitLabMappable(items) then MapGitLab(items) else []
  }

  /** `fetchCodebergRepos(page)`: the repository search for "dotfiles"; the
      owner is the owner's user name. */
  function FetchCodebergRepos(search: int -> Response<CodebergRepo>, page: int)
    : (records: seq<RepoRecord>)
    ensures search(page).Failed? ==> records == []
    ensures search(page).Page? && !CodebergMappable(search(page).items) ==> records == []
    ensures search(page).Page? && CodebergMappable(search(page).items) ==>
      var items := search(page).items;
      |records| == |items| &&
      forall i :: 0 <= i < |items| ==>
        && records[i].htmlUrl == items[i].htmlUrl
        && records[i].description == items[i].description
        && records[i].stars == items[i].starsCount
        && records[i].lastUpdated == items[i].updatedAt
        && records[i].owner == items[i].owner.value.name
        && records[i].projectId == items[i].id
  {
    match search(page)
    case Failed => []
    case Page(items) => if CodebergMappable(items) then MapCodeberg(items) else []
  }
}
