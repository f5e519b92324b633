/** One coin's result and the whole feed (index.js: the end of `fetchForCoin`
    and the main loop over the configured coins with its try/catch). */
module Feed {
  import opened Wrappers
  import opened Query
  import opened Rows
  import opened Aggregate
  import opened Ranking

  /** A configured coin: its symbol and the aliases searched for. */
  datatype Coin = Coin(symbol: string, aliases: seq<string>)

  /** What the search for one query delivers: the author batch of the first
      page (absent when the response has none), the posts in arrival order,
      and the fault the stream raises when asked for a post after the last
      one, if it ends with one rather than running dry. */
  datatype Paginator = Paginator(
    includedUsers: Option<seq<Author>>,
    posts: seq<Post>,
    fault: Option<string>)

  /** The search collaborator: a paginator for a query, or the error the
      search request itself failed with. */
  type Search = string -> Result<Paginator, string>

  /** The record of a coin whose search and aggregation completed. */
  datatype CoinReport = CoinReport(
    symbol: string,
    query: string,
    windowStart: string,
    mentions: nat,
    uniqueVerifiedAccounts: nat,
    uniqueWideReachAccounts: nat,
    totalEngagements: nat,
    topTweets: seq<View>)

  /** The record of a coin whose search failed: `{symbol, error}`. */
  datatype CoinError = CoinError(symbol: string, error: string)

  type CoinEntry = Result<CoinReport, CoinError>

  /** The whole feed. */
  datatype Snapshot = Snapshot(
    generatedAt: string,
    windowDays: nat,
    coins: seq<CoinEntry>)

  /** Length of the trailing window, in days. */
  const WindowDays: nat := 7

  /** The pull loop asks the stream for a post after the last delivered one,
      and so meets the fault, only when it has not reached `MaxPosts` yet. */
  predicate FaultReached(p: Paginator) {
    p.fault.Some? && |p.posts| < MaxPosts
  }

  /** The figures of one coin from its collected rows. */
  function Summarize(symbol: string, query: string, windowStart: string, rows: seq<Row>): (c: CoinReport)
    ensures c.symbol == symbol && c.query == query && c.windowStart == windowStart
    ensures c.mentions == |rows|
    ensures c.uniqueVerifiedAccounts == |QualifyingAuthors(rows, IsVerifiedRow)|
    ensures c.uniqueWideReachAccounts == |QualifyingAuthors(rows, IsWideReachRow)|
    ensures c.uniqueVerifiedAccounts <= c.mentions && c.uniqueWideReachAccounts <= c.mentions
    ensures c.totalEngagements == TotalEngagement(rows)
    ensures forall i :: 0 <= i < |rows| ==> Engagement(rows[i]) <= c.totalEngagements
    ensures c.topTweets == TopTweets(rows)
    ensures |c.topTweets| == Min(TopCount, c.mentions)
    ensures forall i, j :: 0 <= i < j < |c.topTweets| ==>
              c.topTweets[i].engagement >= c.topTweets[j].engagement
  {
    TotalCoversEachRow(rows);
    CoinReport(
      symbol,
      query,
      windowStart,
      |rows|,
      UniqueVerified(rows),
      UniqueWideReach(rows),
      TotalEngagement(rows),
      TopTweets(rows))
  }

  /** `fetchForCoin`: search with the coin's query, index the first page's
      authors, collect up to `MaxPosts` rows and summarise them; a failing
      search request, or a stream fault met before the cap, ends the coin
      with that error instead. */
  function FetchForCoin(coin: Coin, windowStart: string, search: Search): (r: Result<CoinReport, string>)
    ensures var q := BuildQuery(coin.aliases);
            r.Failure? <==> search(q).Failure? || FaultReached(search(q).value)
    ensures var q := BuildQuery(coin.aliases);
            search(q).Failure? ==> r == Failure(search(q).error)
    ensures var q := BuildQuery(coin.aliases);
            search(q).Success? && FaultReached(search(q).value) ==>
              r == Failure(search(q).value.fault.value)
    ensures r.Success? ==>
              var q := BuildQuery(coin.aliases);
              var p := search(q).value;
              && r.value.symbol == coin.symbol
              && r.value.query == q
              && r.value.windowStart == windowStart
              && r.value == Summarize(coin.symbol, q, windowStart, Consume(BuildIndex(p.includedUsers), p.posts))
              && r.value.mentions == Min(MaxPosts, |p.posts|)
              && r.value.uniqueVerifiedAccounts <= r.value.mentions
              && r.value.uniqueWideReachAccounts <= r.value.mentions
              && |r.value.topTweets| == Min(TopCount, r.value.mentions)
  {
    var q := BuildQuery(coin.aliases);
    match search(q)
    case Failure(e) => Failure(e)
    case Success(p) =>
      if FaultReached(p) then Failure(p.fault.value)
      else
        var index := BuildIndex(p.includedUsers);
        Success(Summarize(coin.symbol, q, windowStart, Consume(index, p.posts)))
  }

  /** The catch clause: a failed coin becomes `{symbol, error}`. */
  function Settle(coin: Coin, r: Result<CoinReport, string>): (entry: CoinEntry)
    ensures entry.Success? <==> r.Success?
    ensures r.Success? ==> entry.value == r.value
    ensures r.Failure? ==> entry.error == CoinError(coin.symbol, r.error)
  {
    match r
    case Success(c) => Success(c)
    case Failure(e) => Failure(CoinError(coin.symbol, e))
  }

  /** The entry of one coin: its fetch, settled. */
  function Entry(coin: Coin, windowStart: string, search: Search): CoinEntry {
    Settle(coin, FetchForCoin(coin, windowStart, search))
  }

  /** The symbol an entry reports. */
  function SymbolOf(entry: CoinEntry): string {
    match entry
    case Success(c) => c.symbol
    case Failure(e) => e.symbol
  }

  /** The main loop: every coin in configuration order, each handled on its
      own by `entry`, appended to the list. */
  function MainLoop(coins: seq<Coin>, entry: Coin -> CoinEntry): (out: seq<CoinEntry>)
    ensures |out| == |coins|
    ensures forall i :: 0 <= i < |coins| ==> out[i] == entry(coins[i])
    decreases |coins|
  {
    if |coins| == 0 then []
    else MainLoop(coins[..|coins| - 1], entry) + [entry(coins[|coins| - 1])]
  }

  /** The main loop with each coin fetched and settled. */
  function Run(coins: seq<Coin>, windowStart: string, search: Search): (out: seq<CoinEntry>)
    ensures |out| == |coins|
    ensures forall i :: 0 <= i < |coins| ==> out[i] == Entry(coins[i], windowStart, search)
  {
    MainLoop(coins, c => Entry(c, windowStart, search))
  }

  /** Every configured coin yields exactly one entry, carrying its symbol, in
      configuration order. */
  lemma EveryCoinReported(coins: seq<Coin>, windowStart: string, search: Search)
    ensures var out := Run(coins, windowStart, search);
            |out| == |coins| && forall i :: 0 <= i < |coins| ==> SymbolOf(out[i]) == coins[i].symbol
  {
    var out := Run(coins, windowStart, search);
    forall i | 0 <= i < |coins| ensures SymbolOf(out[i]) == coins[i].symbol {
      var r := FetchForCoin(coins[i], windowStart, search);
      assert out[i] == Entry(coins[i], windowStart, search) == Settle(coins[i], r);
    }
  }

  /** A coin's entry does not depend on its neighbours: removing coin `k`
      from the configuration (whether it failed or not) leaves every other
      entry as it was, whatever each coin's handling does. */
  lemma {:induction false} CoinsAreIsolated(coins: seq<Coin>, entry: Coin -> CoinEntry, k: nat)
    requires k < |coins|
    ensures var out := MainLoop(coins, entry);
            MainLoop(coins[..k] + coins[k + 1..], entry) == out[..k] + out[k + 1..]
  {
    var out := MainLoop(coins, entry);
    var others := coins[..k] + coins[k + 1..];
    var out' := MainLoop(others, entry);
    assert |out'| == |out[..k] + out[k + 1..]|;
    forall i | 0 <= i < |out'| ensures out'[i] == (out[..k] + out[k + 1..])[i] {
      if i < k {
        assert others[i] == coins[i];
      } else {
        assert others[i] == coins[i + 1];
      }
    }
  }

  /** A stream that faults before delivering a single post leaves the coin
      with only its symbol and the error: no figures are computed for it. */
  lemma FaultBeforeAnyRow(coin: Coin, windowStart: string, search: Search, users: Option<seq<Author>>, message: string)
    requires search(BuildQuery(coin.aliases)) == Success(Paginator(users, [], Some(message)))
    ensures Run([coin], windowStart, search) == [Failure(CoinError(coin.symbol, message))]
  {
    assert [coin][..0] == [];
  }

  /** A search request that fails outright leaves the coin with only its
      symbol and the search's error. */
  lemma SearchFailureReported(coin: Coin, windowStart: string, search: Search, message: string)
    requires search(BuildQuery(coin.aliases)) == Failure(message)
    ensures Run([coin], windowStart, search) == [Failure(CoinError(coin.symbol, message))]
  {
    assert [coin][..0] == [];
  }

  /** The feed: a timestamp, the window length and one entry per coin. The
      clock reads (generation time and window start) are parameters. */
  function BuildSnapshot(generatedAt: string, windowStart: string, coins: seq<Coin>, search: Search): (s: Snapshot)
    ensures s.generatedAt == generatedAt && s.windowDays == WindowDays
    ensures |s.coins| == |coins|
    ensures forall i :: 0 <= i < |coins| ==> SymbolOf(s.coins[i]) == coins[i].symbol
    ensures forall i :: 0 <= i < |coins| ==> s.coins[i] == Entry(coins[i], windowStart, search)
    ensures s.coins == Run(coins, windowStart, search)
  {
    EveryCoinReported(coins, windowStart, search);
    Snapshot(generatedAt, WindowDays, Run(coins, windowStart, search))
  }
}
