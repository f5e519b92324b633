/** Posts as the search delivers them, the author index filled from the first
    page, and the rows the feed builder makes of them (index.js, the body of
    `fetchForCoin` up to the end of its pull loop). */
module Rows {
  import opened Wrappers

  /** The public metrics of a post; any of them may be missing. */
  datatype Metrics = Metrics(
    likeCount: Option<nat>,
    retweetCount: Option<nat>,
    replyCount: Option<nat>,
    quoteCount: Option<nat>)

  /** One matching post. */
  datatype Post = Post(
    id: string,
    createdAt: string,
    text: string,
    publicMetrics: Option<Metrics>,
    authorId: string)

  /** One author record from the `includes.users` batch. */
  datatype Author = Author(
    id: string,
    username: Option<string>,
    verified: Option<bool>,
    followersCount: Option<nat>)

  /** A post joined with what is known about its author. */
  datatype Row = Row(
    id: string,
    createdAt: string,
    text: string,
    likeCount: nat,
    retweetCount: nat,
    replyCount: nat,
    quoteCount: nat,
    authorId: string,
    authorUsername: Option<string>,
    authorVerified: bool,
    authorFollowers: nat)

  /** Author records by author id. */
  type AuthorIndex = map<string, Author>

  /** At most this many posts are consumed per coin. */
  const MaxPosts: nat := 300

  /** The engagement of a row; the aggregate and the ranking both use it. */
  function Engagement(r: Row): nat {
    r.likeCount + r.retweetCount + r.replyCount + r.quoteCount
  }

  /** The ids of a batch of authors. */
  function IdsOf(authors: seq<Author>): set<string> {
    set i | 0 <= i < |authors| :: authors[i].id
  }

  /** No later author in the batch has the same id as author `i`. */
  predicate IsLastWithId(authors: seq<Author>, i: nat)
    requires i < |authors|
  {
    forall j :: i < j < |authors| ==> authors[j].id != authors[i].id
  }

  /** Store every author of the batch under its id, one after the other, so
      that the last record with a given id wins and ids outside the batch
      keep their earlier record. */
  function Ingest(index: AuthorIndex, authors: seq<Author>): (r: AuthorIndex)
    ensures r.Keys == index.Keys + IdsOf(authors)
    ensures forall i :: 0 <= i < |authors| && IsLastWithId(authors, i) ==> r[authors[i].id] == authors[i]
    ensures forall k :: k in index && k !in IdsOf(authors) ==> r[k] == index[k]
    decreases |authors|
  {
    if |authors| == 0 then index
    else
      var first := authors[0];
      var rest := authors[1..];
      var r := Ingest(index[first.id := first], rest);
      assert IdsOf(authors) == {first.id} + IdsOf(rest) by {
        forall k | k in IdsOf(authors) ensures k in {first.id} + IdsOf(rest) {
          var i :| 0 <= i < |authors| && authors[i].id == k;
          if i > 0 { assert rest[i - 1].id == k; }
        }
        forall k | k in IdsOf(rest) ensures k in IdsOf(authors) {
          var i :| 0 <= i < |rest| && rest[i].id == k;
          assert authors[i + 1].id == k;
        }
      }
      assert forall i :: 1 <= i < |authors| && IsLastWithId(authors, i) ==> IsLastWithId(rest, i - 1) by {
        forall i | 1 <= i < |authors| && IsLastWithId(authors, i) ensures IsLastWithId(rest, i - 1) {
          forall j | i - 1 < j < |rest| ensures rest[j].id != rest[i - 1].id {
            assert rest[j] == authors[j + 1];
          }
        }
      }
      assert IsLastWithId(authors, 0) ==> first.id !in IdsOf(rest);
      r
  }

  /** The author index of one coin: the initial `includes.users` batch (none
      when the response has no such field) ingested into an empty index. */
  function BuildIndex(includedUsers: Option<seq<Author>>): (index: AuthorIndex)
    ensures index.Keys == IdsOf(includedUsers.GetOr([]))
    ensures var b := includedUsers.GetOr([]);
            forall i :: 0 <= i < |b| && IsLastWithId(b, i) ==> index[b[i].id] == b[i]
  {
    Ingest(map[], includedUsers.GetOr([]))
  }

  /** The row of one post: every missing metric reads as 0, and an author
      absent from the index gives no username, not verified, 0 followers. */
  function MakeRow(index: AuthorIndex, p: Post): (r: Row)
    ensures r.id == p.id && r.createdAt == p.createdAt && r.text == p.text
    ensures r.authorId == p.authorId
    ensures p.publicMetrics == None ==> Engagement(r) == 0
    ensures p.publicMetrics.Some? ==>
              var m := p.publicMetrics.value;
              && (m.likeCount.Some? ==> r.likeCount == m.likeCount.value)
              && (m.likeCount.None? ==> r.likeCount == 0)
              && (m.retweetCount.Some? ==> r.retweetCount == m.retweetCount.value)
              && (m.retweetCount.None? ==> r.retweetCount == 0)
              && (m.replyCount.Some? ==> r.replyCount == m.replyCount.value)
              && (m.replyCount.None? ==> r.replyCount == 0)
              && (m.quoteCount.Some? ==> r.quoteCount == m.quoteCount.value)
              && (m.quoteCount.None? ==> r.quoteCount == 0)
    ensures p.authorId !in index ==>
              r.authorUsername == None && !r.authorVerified && r.authorFollowers == 0
    ensures p.authorId in index ==>
              var a := index[p.authorId];
              && r.authorUsername == a.username
              && (r.authorVerified <==> a.verified == Some(true))
              && (a.followersCount.Some? ==> r.authorFollowers == a.followersCount.value)
              && (a.followersCount.None? ==> r.authorFollowers == 0)
  {
    var m := p.publicMetrics.GetOr(Metrics(None, None, None, None));
    var u := if p.authorId in index then Some(index[p.authorId]) else None;
    Row(
      p.id,
      p.createdAt,
      p.text,
      m.likeCount.GetOr(0),
      m.retweetCount.GetOr(0),
      m.replyCount.GetOr(0),
      m.quoteCount.GetOr(0),
      p.authorId,
      if u.Some? then u.value.username else None,
      u.Some? && u.value.verified == Some(true),
      if u.Some? then u.value.followersCount.GetOr(0) else 0)
  }

  /** The rows of the first `MaxPosts` posts (or of all of them, when fewer
      arrive), in arrival order. */
  function Consume(index: AuthorIndex, posts: seq<Post>): seq<Row> {
    var n := Min(MaxPosts, |posts|);
    seq(n, i requires 0 <= i < n => MakeRow(index, posts[i]))
  }

  /** The pull loop: a row per post in arrival order, counting pulled posts
      and leaving the loop as soon as the count reaches `MaxPosts`. */
  method PullRows(index: AuthorIndex, posts: seq<Post>) returns (rows: seq<Row>)
    ensures |rows| == Min(MaxPosts, |posts|) && |rows| <= MaxPosts
    ensures forall i :: 0 <= i < |rows| ==> rows[i] == MakeRow(index, posts[i])
    ensures rows == Consume(index, posts)
  {
    rows := [];
    var pulled := 0;
    var i := 0;
    while i < |posts|
      invariant i <= |posts| && i < MaxPosts
      invariant pulled == i == |rows|
      invariant forall j :: 0 <= j < i ==> rows[j] == MakeRow(index, posts[j])
    {
      rows := rows + [MakeRow(index, posts[i])];
      pulled := pulled + 1;
      if pulled >= MaxPosts {
        break;
      }
      i := i + 1;
    }
  }
}
