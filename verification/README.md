# DotHub catalogue core in Dafny

DotHub collects dotfiles repositories from GitHub, GitLab and Codeberg into a
PostgreSQL catalogue and lists them by tag. This project models two parts of it
and proves properties of each.

The first part is the ingestion job, `src/routes/api/cron/+server.js`. It has:

- three source adapters that normalise a provider page into common records;
- tech-stack detection, which matches repository file names against a fixed
  pattern table;
- two upserts into the repositories, configurations and association tables;
- the handler, which sequences these steps and maps errors to HTTP 500.

The second part is the listing page's `load`, `src/routes/+page.server.ts`. It
builds numbered `$k` placeholders and the LIMIT/OFFSET parameters, computes the
page count, and falls back to a fixed page on any error.

## Modules

- `text.dfy`, module `Text`, holds the JavaScript built-ins the code relies on:
  - `includes`, `split` with one separator, and `join`;
  - decimal rendering inside template literals;
  - `Refs`, a scanner that reads the `$k` placeholders back out of a SQL text.
- `adapters.dfy`, module `Adapters`, holds `fetchGitHubRepos`,
  `fetchGitLabRepos` and `fetchCodebergRepos`. The provider's answer is an
  input: a page of items, or `Failed`.
- `techstack.dfy`, module `TechStack`, holds `detectTechStack`:
  - the 40-entry pattern table, in source order;
  - provider dispatch and the split of the URL into owner and repository;
  - the nested matching loop (`DetectTechStack`), proved against the fold
    `Collect`.
- `catalog.dfy`, module `Catalog`, holds the three tables as the fields of a
  class `Catalog`:
  - `InsertRepositories` and `UpdateConfigurations` are loops proved against
    the functions `InsertAll` and `LinkTags`;
  - lemmas give last-write-wins, id stability, idempotence and "nothing else
    changes";
  - `SERIAL` columns are counters. Every executed `INSERT … ON CONFLICT`
    advances them, because PostgreSQL draws the sequence value before it checks
    the conflict.
- `ingest.dfy`, module `Ingest`, holds `handler`:
  - `Handler` is proved against the function `Run`;
  - lemmas fix the order of the fetches, the status code, the state left by a
    failure, the state left by a success, and the idempotence of a whole run.
- `listing.dfy`, module `Listing`, holds `load`. SQL text is modelled with
  whitespace normalised.

### Error handling and statement semantics

The model follows the code:

- **Upserts.** `insertRepositories` has no per-record `try`/`catch`. A record
  the table refuses throws out of the loop. Rows written before it stay, since
  each statement commits on its own. The handler then answers 500. Per-record
  isolation is not in the code.
- **Tag updates as written.** `updateConfigurations` sends its two statements
  in one `client.query` call together with a values array. node-postgres sends
  every query with values as a prepared statement, and PostgreSQL refuses a
  prepared statement holding several commands before running any of them. As
  written, then, every call with a non-empty tag list throws, and the first
  repository with a detected tag ends the run with 500.
- **Tag updates as modelled.** The model gives the two statements their
  intended upsert semantics, run together as one unit: insert the tag if it
  is new, then link it to the repository. The call has no `try`/`catch`. For
  a URL with no repository row the association insert fails, because its
  `repository_id` is NULL and that column is part of the primary key; the
  unit is rolled back, only the sequence value it drew stays used, and the
  call throws rather than skipping the URL. In the handler this cannot
  happen, because every detected URL was upserted first
  (`Ingest.RunSuccessState`).
- **Content listing.** A failed content listing in `detectTechStack` is not
  caught. It aborts the run with 500 (`Ingest.RunStopsAtListing`).
- **GitLab project id.** For GitLab, the "project id" sent to the tree endpoint
  is the last `/`-separated piece of the URL, i.e. the project's path name, not
  the numeric id (`TechStack.GitLabUrl`).

## Model

| member | source | states |
|---|---|---|
| Text.Includes | src/routes/api/cron/+server.js:183 | `s.includes(p)` is true exactly when `p` occurs at some offset of `s` |
| Text.Split | src/routes/api/cron/+server.js:164 | `split('/')` returns at least one piece and no piece contains the separator |
| Text.JoinSplit | src/routes/api/cron/+server.js:164 | joining the pieces of `split` with the separator gives back the URL |
| Text.SplitAround | src/routes/api/cron/+server.js:164 | splitting around one separator splits each side independently |
| Text.DecRoundTrip | src/routes/+page.server.ts:29 | the decimal text of `${k}` reads back as `k` |
| Text.RefsPlaceholder | src/routes/+page.server.ts:29 | the text `$${k}` holds exactly the one placeholder number `k` |
| Text.RefsAppend | src/routes/+page.server.ts:52 | the placeholders of a concatenation are those of each part, in order, unless the second part starts with a digit |
| Adapters.MapGitHub | src/routes/api/cron/+server.js:33-40 | one record per item, in order, with owner taken from `owner.login` |
| Adapters.MapGitLab | src/routes/api/cron/+server.js:59-66 | one record per project, in order: `web_url` becomes the URL, `star_count` the stars, `namespace.name` the owner |
| Adapters.MapCodeberg | src/routes/api/cron/+server.js:85-92 | one record per item, in order: `stars_count` becomes the stars, `owner.username` the owner |
| Adapters.FetchGitHubRepos | src/routes/api/cron/+server.js:26-45 | a failed request, or an item with a null owner, gives no records; otherwise the records are exactly the items in order with the stated field mapping |
| Adapters.FetchGitLabRepos | src/routes/api/cron/+server.js:47-71 | a failed request, or a project with a null namespace, gives no records; otherwise one record per project in order, owner from `namespace.name` |
| Adapters.FetchCodebergRepos | src/routes/api/cron/+server.js:73-97 | a failed request, or an item with a null owner, gives no records; otherwise one record per item in order, owner from `owner.username` |
| TechStack.ResolveTarget | src/routes/api/cron/+server.js:162-179 | the provider is GitHub iff the URL contains "github.com"; GitLab iff it contains "gitlab.com" and not "github.com"; Codeberg iff it contains only "codeberg.org" of the three |
| TechStack.OwnerAndRepo | src/routes/api/cron/+server.js:164 | `split('/').slice(-2)` of ".../owner/repo" is exactly (owner, repo) |
| TechStack.GitHubUrl | src/routes/api/cron/+server.js:163-165 | a GitHub URL ".../owner/repo" lists the contents of exactly that owner and repository |
| TechStack.CodebergUrl | src/routes/api/cron/+server.js:173-175 | a Codeberg URL ".../owner/repo" lists the contents of exactly that owner and repository |
| TechStack.GitLabUrl | src/routes/api/cron/+server.js:167-169 | for GitLab, the piece after the last '/' is the project id sent |
| TechStack.AddMatchesElements | src/routes/api/cron/+server.js:182-186 | the inner loop adds exactly the tags of the patterns contained in the name, keeps what was there and adds no duplicate |
| TechStack.CollectIsMatched | src/routes/api/cron/+server.js:181-190 | the folded result has no duplicates and holds exactly the tags `techMapping[p]` of every pattern `p` contained in some name |
| TechStack.CollectIgnoresOrder | src/routes/api/cron/+server.js:181-190 | two listings with the same names, in any order and with any repetition, give the same detected tags |
| TechStack.MatchedIgnoresOrder | src/routes/api/cron/+server.js:181-188 | the detected set depends only on which names occur, not on their order or repetition |
| TechStack.DetectBounds | src/routes/api/cron/+server.js:148-190 | every tag `detectTechStack` returns is a value of `techMapping`; a listing with no names gives no tags |
| TechStack.DetectTechStack | src/routes/api/cron/+server.js:147-191 | the nested loops return exactly the specification `Detect`: no provider gives no tags, a failed listing is an error, otherwise the fold over the names |
| TechStack.DetectMeaning | src/routes/api/cron/+server.js:162-190 | detection fails exactly when a provider matched and its listing failed; an unknown host gives no tags; otherwise the tags are duplicate-free and are exactly the matched set |
| TechStack.NvimMatchesTwice | src/routes/api/cron/+server.js:149-150 | matching does not stop at the first hit: the name "nvim" yields both "neovim" and "vim" |
| Catalog.UpsertKeepsOk | src/routes/api/cron/+server.js:132-140 | one upsert keeps repository ids unique and below the sequence, and loses no id |
| Catalog.InsertAllSucceeds | src/routes/api/cron/+server.js:131-141 | the batch completes exactly when every record has an owner and stars that fit INTEGER |
| Catalog.InsertAllStopsAt | src/routes/api/cron/+server.js:131-141 | the first refused record ends the batch: the records before it are written and none after it |
| Catalog.InsertAllEffect | src/routes/api/cron/+server.js:128-145 | after a complete batch, the URLs are the old ones plus the batch's; each row holds the last record for its URL; existing rows keep their ids; other rows are unchanged; new ids come from the sequence |
| Catalog.InsertAllShape | src/routes/api/cron/+server.js:131-141 | after a complete batch, the URLs are the old ones plus the batch's, existing rows keep their ids, rows not in the batch are unchanged, and new ids come from the sequence |
| Catalog.InsertAllLast | src/routes/api/cron/+server.js:135-139 | after a complete batch, each row holds owner, description, stars and last_updated of the last record with its URL |
| Catalog.InsertAllIdempotent | src/routes/api/cron/+server.js:131-140 | applying the same batch twice leaves the same rows as applying it once |
| Catalog.LastWriteWins | src/routes/api/cron/+server.js:135-139 | of two records with the same URL, the row holds the second and keeps the id the first got |
| Catalog.LinkTagsSucceeds | src/routes/api/cron/+server.js:196-207 | `updateConfigurations` completes exactly when there are no tags or the URL has a row; a refused call adds no configuration and no association |
| Catalog.LinkTagsConfigs | src/routes/api/cron/+server.js:198-199 | for a URL with a row, every tag gets a configuration row; existing ones keep their ids; new ids come from the sequence, which advances once per tag |
| Catalog.LinkTagsLinks | src/routes/api/cron/+server.js:201-206 | for a URL with a row, exactly the pairs (id of URL, id of tag) are added to the associations |
| Catalog.LinkTagsEffect | src/routes/api/cron/+server.js:193-212 | for a URL with a row: the configuration names become the old ones plus the tags; existing ids are kept; new ids come from the sequence; exactly the pairs (id of URL, id of tag) are added |
| Catalog.OtherLinksUntouched | src/routes/api/cron/+server.js:201-206 | no association is removed, and no association of another repository is added |
| Catalog.LinkTagsIdempotent | src/routes/api/cron/+server.js:196-207 | repeating the call changes no configuration id and no association |
| Catalog.LinkTagsNoop | src/routes/api/cron/+server.js:198-206 | when every tag is already stored and linked, the call succeeds and changes nothing but the sequence |
| Catalog.AddConfigKeepsOk | src/routes/api/cron/+server.js:198-199 | inserting a name keeps configuration ids unique and loses none, and the name is then present |
| Catalog.LinkTagsKeepsOk | src/routes/api/cron/+server.js:193-212 | configuration ids stay unique and every association refers to an existing repository and configuration |
| Catalog.Catalog.constructor | src/routes/api/cron/+server.js:103-121 | an empty database with no tables and every sequence at 1 |
| Catalog.Catalog.CreateTables | src/routes/api/cron/+server.js:99-126 | the schema exists afterwards exactly when it existed or the statement succeeded, and nothing else changes |
| Catalog.Catalog.InsertRepositories | src/routes/api/cron/+server.js:128-145 | the loop leaves the repositories table, and the success flag, that `InsertAll` specifies, and keeps the tables consistent |
| Catalog.Catalog.UpdateConfigurations | src/routes/api/cron/+server.js:193-212 | the loop leaves the configuration and association tables, and the success flag, that `LinkTags` specifies, and keeps the tables consistent |
| Ingest.FetchSlot | src/routes/api/cron/+server.js:221-228 | the run makes 6 fetches per page; fetch k of page p is batch 6(p-1)+k: pages ascend, and within a page the order is the four GitHub queries, then GitLab, then Codeberg |
| Ingest.FetchIsolation | src/routes/api/cron/+server.js:221-228 | whatever the other fetches return, the records of each fetch reach the batch intact, in their order, after those of every earlier fetch |
| Ingest.GatherRepos | src/routes/api/cron/+server.js:220-228 | the page loop builds exactly the concatenation of all fetches in that order |
| Ingest.DetectAndLinkSucceeds | src/routes/api/cron/+server.js:232-235 | with every URL upserted, the detection loop completes exactly when every content listing succeeds |
| Ingest.LinkStep | src/routes/api/cron/+server.js:234 | one tag update for an upserted URL succeeds, keeps every id and association, and links every tag |
| Ingest.DetectAndLinkEffect | src/routes/api/cron/+server.js:232-235 | a completed loop keeps existing configuration ids and associations, links every detected tag of every record to that record's repository, adds no configuration name that was not detected, and adds no association other than (repository of a record, tag detected for it) |
| Ingest.DetectAndLinkNoop | src/routes/api/cron/+server.js:232-235 | when every detected tag is already linked, the loop changes no configuration id and no association |
| Ingest.DetectAndLinkStopsAt | src/routes/api/cron/+server.js:232-235 | the first failed listing ends the loop: records before it are tagged and none from it on |
| Ingest.StoreTechStacks | src/routes/api/cron/+server.js:232-235 | the detection loop leaves the tag tables, and the flag, that `DetectAndLink` specifies |
| Ingest.Handler | src/routes/api/cron/+server.js:214-243 | the status and the catalog after the handler are exactly those of `Run` applied to the catalog before it |
| Ingest.RunStatus | src/routes/api/cron/+server.js:214-243 | the status is 200 or 500; it is 200 exactly when the schema statement succeeds, every gathered record is storable and every listing succeeds; fetch failures never cause 500 |
| Ingest.RunAbortsEarly | src/routes/api/cron/+server.js:218-230 | a failed schema statement changes nothing; a refused record gives 500 with the records before it written and the tag tables untouched |
| Ingest.RunStopsAtListing | src/routes/api/cron/+server.js:230-242 | a failed listing gives 500 with every record written and only the records before it tagged |
| Ingest.RunSuccessState | src/routes/api/cron/+server.js:230-238 | after a 200 run every gathered URL has a row with its last record's values, old ids and untouched rows are kept, every detected tag is linked to its repository, the only new configuration names are detected tags, the only new associations pair a gathered repository with a tag detected for it, and associations of repositories not gathered are untouched |
| Ingest.RunIdempotent | src/routes/api/cron/+server.js:230-235 | a second run with the same upstream answers succeeds and leaves the same rows, configuration ids and associations |
| Listing.TotalPages | src/routes/+page.server.ts:37 | `Math.ceil(total / 30)`: the pages hold all items, one page fewer would not, and no items give 0 pages |
| Listing.OffsetWithinPages | src/routes/+page.server.ts:38 | page 1 starts at row 0, consecutive pages are 30 rows apart, pages 1..totalPages start inside the result and later pages start past its end |
| Listing.RefsJoin | src/routes/+page.server.ts:29 | joining `$k` texts with ", " gives placeholders exactly the list of numbers, in order |
| Listing.RefsWhere | src/routes/+page.server.ts:28-32 | with n filter values the WHERE clause's placeholders are exactly $1..$n in order; with none there is no clause |
| Listing.RefsTail | src/routes/+page.server.ts:52 | the GROUP BY tail uses exactly placeholders n+1 (LIMIT) and n+2 (OFFSET) |
| Listing.CountBinding | src/routes/+page.server.ts:28-34 | the count statement uses exactly $1..$n and its parameters are the filter values in order |
| Listing.FetchBinding | src/routes/+page.server.ts:47-56 | the fetch statement uses exactly $1..$(n+2); the parameters are the filters, then 30, then the offset, so `$k` binds parameter k-1 |
| Listing.Load | src/routes/+page.server.ts:14-77 | when the connection and all three statements succeed, the page holds the count, its page count, the requested page, the fetched rows and the names; any failure gives {0, 0, 1, [], []} |

## Left out

- Network requests are not modelled. The Octokit search and content calls and the GitLab and Codeberg HTTP requests become input functions that return a page of items or `Failed`. The page size of 100, the tokens and the request parameters are not modelled.
- The database driver is not modelled: the pool, connection acquire and release, and the SQL of the cron statements. The statements are modelled by their upsert semantics.
- Ingest.RunStatus: a failed `pool.connect` in `insertRepositories` or `updateConfigurations`, and any statement error other than a NULL owner, stars outside INTEGER or a NULL repository id, are not modelled. "200 exactly when …" holds under that assumption; only `createTables` gets a failure input (`ddlOk`).
- `createTables` is not modelled as DDL. It is only the flag saying whether the schema exists; `ddlOk` says whether the database accepted the statement.
- `updateConfigurations` as written throws on every call with a non-empty tag list, because PostgreSQL refuses the two-statement prepared statement the driver sends. The model does not reproduce that refusal: it gives the two statements their intended upsert semantics, run together as one unit.
- `html_url` (GitHub, Codeberg) and `web_url` (GitLab) are taken as always present: `RepoRecord.htmlUrl` is a plain string, so a null URL, which the NOT NULL `url` column would refuse, is not modelled.
- Logging and its wall-clock timestamps are not modelled. Neither are the JSON response bodies; only the status code is.
- `last_updated` is kept as an opaque string. Timestamp parsing by PostgreSQL, and rejection of a malformed timestamp, are not modelled.
- A refused record may draw a sequence value before it fails. The model leaves the repository sequence unchanged on a failed insert (a refused tag update does advance the configuration sequence), and idempotence is stated on rows, ids and associations, not on the sequences.
- Content listings are modelled as a function of the target, so a run sees the same listing for the same repository each time it asks.
- `parseInt` of the `page` query parameter and of the COUNT column, and `URLSearchParams` parsing, are not modelled. `page` is an integer input and the count is a natural number returned by the database function.
- `load` does not release its pool client. That leak is not modelled.
- A `page` of 0 or less gives a negative OFFSET, which PostgreSQL rejects. The model passes the offset through; the database function decides.
- Listing.Load: the database functions stand for PostgreSQL's evaluation of the statements, so the model says which text and parameters are sent, not which rows they select.
- The fixed SQL text of `load` is written with its whitespace normalised to single spaces.
