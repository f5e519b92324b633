# Social mention feed: query building and per-coin aggregation

A Dafny model of the core of a small batch job that searches a social network
for posts about a list of crypto-asset tickers ("coins") and writes one
snapshot of per-coin figures. The core is the pure logic in `index.js`:

- **Query** (`query.dfy`): `term` and `buildQuery`. Every alias becomes a
  search term. A `$` or `#` token is kept as it is, and anything else is
  quoted. The terms are joined with `" OR "` in one parenthesised group, and the
  fixed filter text follows verbatim.
- **Rows** (`rows.dfy`): the posts and author records, and the author index.
  The index is filled once from the author batch that is available before the
  pull loop starts, and the last record with a given id wins. Each post becomes
  one row: missing metrics read as 0, and a post whose author is unknown gets no
  username, is not verified and has 0 followers. The pull loop stops after 300
  posts.
- **Aggregate** (`aggregate.dfy`): the number of distinct verified author
  ids, the number of distinct author ids with at least 100000 followers, and
  the summed engagement. Engagement is likes + retweets + replies + quotes.
- **Ranking** (`ranking.dfy`): a stable sort by descending engagement, then
  the first 15 rows. Each kept row is projected to a view with the same
  engagement formula and a permalink. When the username is unknown or empty,
  the permalink uses the `i/web` path instead.
- **Feed** (`feed.dfy`): `fetchForCoin` as one function of the search
  collaborator, and the main loop over the configured coins. Each coin gets
  exactly one entry, in configuration order: either its report or
  `{symbol, error}`.
- `wrappers.dfy` holds `Option`, `Result` and `Min`.

The search collaborator is a parameter `search: string -> Result<Paginator, string>`.
A `Paginator` holds the first author batch, the posts in arrival order, and an
optional fault. The stream raises that fault when it is asked for a post after
the last one. The loop asks for another post only while it has pulled fewer than
300, so a fault behind the 300th post is never seen (`FaultReached`). The clock
readings (`window_start`, `generated_at`) are plain string parameters.

Field names follow Dafny conventions: `unique_100kplus_accounts` is
`uniqueWideReachAccounts`, `author_followers` is `authorFollowers`, and so on.

The model keeps the query text exactly as index.js:30-31 writes it, even where
the text does not do what its comment says:

- The comment at index.js:27 calls these anti-spam filters, yet the keyword
  group `("presale" OR … OR "stealth launch")` has no leading `-`. A matching
  post must therefore contain one of the five words; they are not excluded
  (`Query.Filters`).
- `-has:cashtags` leaves out every post that carries any cashtag, including
  posts that the `$` aliases of the coin table (index.js:14-21) name.

Authors are read once, at index.js:53, before the pull loop. The authors that
later pages bring are never added to the index, so a post on a later page whose
author was not on the first page gets the unknown-author defaults. The model
does the same (`Rows.BuildIndex`).

An empty alias list is not an error in the code. It gives the group `()`
(`Query.NoAliasesGiveEmptyGroup`).

Because the code's stable sort is `Array.prototype.sort`, the model proves
that a descending, tie-preserving order is unique (`Ranking.StableSortIsUnique`).
So the insertion sort used here gives the same result as any stable sort.

## Model

| member | source | states |
|---|---|---|
| Query.TermShape | index.js:28 | the term is quoted exactly when the alias is not a non-empty `$`/`#` token; stripping the quotes gives the alias back, and a tag token is returned unchanged |
| Query.TermInjective | index.js:28 | two aliases with the same term are the same alias |
| Query.JoinPartAt | index.js:30 | in `parts.join(sep)` every part sits at its offset (the earlier parts plus one separator each), and the last part ends the string |
| Query.JoinSepAfter | index.js:30 | in `parts.join(sep)` exactly one separator sits between neighbouring parts |
| Query.BuildQuery | index.js:29-31 | the query is the alias group followed by the fixed filter text, verbatim and at the end |
| Query.QueryHoldsEveryTerm | index.js:29-31 | the query opens with `(`; alias i appears as its term at its slot; the group's closing `)` is followed by the filter text, verbatim, to the end of the query |
| Query.GroupHoldsEveryTerm | index.js:29-30 | the group opens with `(`; alias i appears as its term at its slot, followed by `" OR "`, or by the closing `)` for the last alias |
| Query.ChainlinkQuery | index.js:29-30 | the aliases `Chainlink`, `$LINK`, `#LINK` give the group `("Chainlink" OR $LINK OR #LINK)` |
| Query.NoAliasesGiveEmptyGroup | index.js:29-30 | an empty alias list gives the group `()` |
| Query.AliasesNotRecoverable | index.js:28-30 | the alias list cannot be read back from the query, because an alias containing `" OR "` gives the same group as two aliases |
| Rows.Ingest | index.js:47-49 | after ingestion the index keys are the old keys plus the batch ids; each id maps to the last record with that id in the batch; ids outside the batch keep their old record |
| Rows.BuildIndex | index.js:49-53 | the index keys are exactly the ids of the initial author batch (none when the batch is absent), and each id maps to the last record with that id in the batch |
| Rows.MakeRow | index.js:55-69 | a row copies the post's id, time, text and author id; each missing metric reads as 0; a known author gives its username, verified only when `verified` is true, and its followers or 0; an unknown author gives no username, not verified, 0 followers |
| Rows.PullRows | index.js:52-71 | the loop yields exactly the rows of the first min(300, n) posts, in arrival order, so there are at most 300 rows |
| Aggregate.QualifyingAuthors | index.js:74-75 | an id is in the set exactly when some qualifying row has that author id; the set is no larger than the number of rows |
| Aggregate.RepeatAuthorCountsOnce | index.js:74-75 | another qualifying row by an author already counted does not change the set: authors are counted, not rows |
| Aggregate.TotalCoversEachRow | index.js:76 | the total is at least the engagement of every row |
| Aggregate.TotalAppend | index.js:76 | the total of a concatenation is the sum of the totals |
| Ranking.Insert | index.js:79-81 | inserting into a sorted list keeps it sorted by descending engagement and adds one row |
| Ranking.InsertPermutes | index.js:79-81 | insertion adds the new row and removes none |
| Ranking.InsertKeepsTies | index.js:79-81 | insertion places the new row ahead of the rows it ties with and keeps every tie group in order |
| Ranking.SortByEngagement | index.js:79-81 | the sorted rows are ordered by non-increasing engagement and have the input's length |
| Ranking.SortPermutes | index.js:79-81 | the sorted rows are a permutation of the input |
| Ranking.SortIsStable | index.js:79-81 | for every engagement value, the rows with that value appear in arrival order |
| Ranking.StableSortIsUnique | index.js:79-81 | two sequences that are both sorted by descending engagement and have the same tie groups are equal |
| Ranking.AnyStableSortAgrees | index.js:79-81 | any sorted, tie-preserving rearrangement of the rows is the model's sort |
| Ranking.TiedRowsKeepArrivalOrder | index.js:79-81 | rows with engagement 10, 50, 50 sort as second, third, first |
| Ranking.SortKeepsTotal | index.js:76-81 | sorting does not change the total engagement |
| Ranking.TopRows | index.js:79-82 | min(15, n) rows are kept, in non-increasing engagement order |
| Ranking.TopRowsAreHighest | index.js:79-82 | the kept rows are a sub-multiset of the rows, and no row left out ranks above the lowest kept row |
| Ranking.TopRowsKeepArrivalOrder | index.js:79-82 | among tied rows, the kept ones are the earliest to arrive, in arrival order |
| Ranking.TopTotalBounded | index.js:76-82 | the kept rows total at most the whole total, and exactly it when at most 15 rows exist |
| Ranking.PermalinkParts | index.js:85 | the URL reads as `https://twitter.com/`, then the username (or `i/web` when it is absent or empty), then `/status/`, then the post id |
| Ranking.TopTweets | index.js:79-91 | min(15, n) views of the kept rows, in order, with non-increasing engagement |
| Ranking.ShownWithinTotal | index.js:76-89 | the engagement shown on the top tweets, computed by the same formula, adds up to at most `total_engagements`, and exactly to it when at most 15 rows exist |
| Feed.Summarize | index.js:73-102 | the report carries the symbol, query and window start; `mentions` is the row count; the two distinct-author figures are the sizes of the verified and the 100000-follower author-id sets, so at most `mentions`; the total is the summed engagement, so at least every row's; the top tweets are the projected top rows: min(15, mentions) of them, sorted by engagement |
| Feed.FetchForCoin | index.js:37-103 | a coin fails exactly when the search fails or the stream faults before 300 posts, and carries that error; otherwise the report summarises the rows of the first min(300, n) posts, joined with the index of the first author batch, so `mentions` is min(300, n), the distinct figures are at most `mentions`, and there are min(15, mentions) top tweets |
| Feed.Settle | index.js:108-113 | a success passes through unchanged, and a failure becomes `{symbol, error}` with the coin's symbol |
| Feed.MainLoop | index.js:107-114 | the loop yields one entry per coin, in configuration order, and entry i depends on coin i alone |
| Feed.Run | index.js:107-114 | entry i is coin i fetched and settled, with a failure turned into `{symbol, error}` |
| Feed.EveryCoinReported | index.js:107-114 | every configured coin has exactly one entry, carrying its symbol, at its position |
| Feed.CoinsAreIsolated | index.js:107-114 | for a search that depends on the query alone (see "Left out"), removing any coin from the configuration, failed or not, leaves every other entry unchanged |
| Feed.FaultBeforeAnyRow | index.js:108-113 | a stream that faults before delivering any post yields only `{symbol, error}` for that coin |
| Feed.SearchFailureReported | index.js:108-113 | a search request that fails for a coin's query yields only `{symbol, error}` with the search's error for that coin |
| Feed.BuildSnapshot | index.js:106-114 | the snapshot carries the generation time, a 7-day window and the main loop's entries: entry i is coin i's report when its fetch succeeds and `{symbol, error}` otherwise, carrying that coin's symbol |

## Left out

- The Twitter client, the bearer-token check and `process.exit` (index.js:1-10, 39-45) are external network and process plumbing. The search is the parameter `search`.
- The search is modelled as a pure function of the query. In the program every coin shares one client, and its rate limit can make one coin's search depend on the searches before it. The request options (start time, page size, field lists) and rate limiting are not modelled.
- Pages are not modelled. The posts are one sequence in arrival order. A fault part-way through the stream is modelled as the posts delivered before it, followed by the fault.
- `async`/`await` and the `for await` iteration are modelled as sequential traversal.
- `dayjs()` and `new Date()` are clock reads. `window_start` and `generated_at` are string parameters.
- `fs.writeFileSync`, `JSON.stringify` and `console.log` (index.js:115-116) are output only.
- The `COINS` table and the field-name lists (index.js:13-22, 33-35) are configuration data. Coins are a parameter.
- Fields that are requested but never read (`lang`, `possibly_sensitive`, the author's `name`) are not carried.
- `String(e)` is modelled as the error string the collaborator supplies.
- Rows.MakeRow: a metric or follower count is either a natural number or absent. Other JavaScript values that `|| 0` maps to 0 (`null`, `NaN`) are not modelled.
- Aggregate.TotalEngagement: sums are unbounded integers. JavaScript numbers stop being exact above 2^53, and that is not modelled.
- Ranking.SortByEngagement: the code sorts `rows` in place. The model returns a new sequence. The aggregate figures are computed before the sort, so nothing observes the difference.
