/** The top tweets of one coin (index.js, `fetchForCoin` after the pull loop):
    the rows stably sorted by descending engagement, the first fifteen kept,
    each projected to its display view with a permalink. */
module Ranking {
  import opened Wrappers
  import opened Rows
  import opened Aggregate

  /** At most this many rows are shown. */
  const TopCount: nat := 15

  /** Engagement never increases along `s`. */
  predicate SortedByEngagement(s: seq<Row>) {
    forall i, j :: 0 <= i < j < |s| ==> Engagement(s[i]) >= Engagement(s[j])
  }

  /** The rows of `s` with engagement `e`, in their order in `s`. */
  function WithEngagement(s: seq<Row>, e: nat): seq<Row>
    decreases |s|
  {
    if |s| == 0 then []
    else (if Engagement(s[0]) == e then [s[0]] else []) + WithEngagement(s[1..], e)
  }

  /** For every engagement value, `a` and `b` hold the same rows with that
      value in the same order; for sequences sorted by engagement this is
      what a stable sort guarantees. */
  ghost predicate SameTies(a: seq<Row>, b: seq<Row>) {
    forall e: nat :: WithEngagement(a, e) == WithEngagement(b, e)
  }

  predicate IsPrefix(p: seq<Row>, s: seq<Row>) {
    |p| <= |s| && s[..|p|] == p
  }

  lemma WithEngagementCons(x: Row, s: seq<Row>, e: nat)
    ensures WithEngagement([x] + s, e)
         == (if Engagement(x) == e then [x] else []) + WithEngagement(s, e)
  {
    assert ([x] + s)[1..] == s;
  }

  /** Every row picked out by `WithEngagement` comes from `s` and has engagement `e`. */
  lemma {:induction false} WithEngagementMember(s: seq<Row>, e: nat, x: Row)
    requires x in WithEngagement(s, e)
    ensures x in s && Engagement(x) == e
    decreases |s|
  {
    if x != s[0] || Engagement(s[0]) != e {
      WithEngagementMember(s[1..], e, x);
    }
  }

  /** Every row of `s` is picked out for its own engagement, at the front
      when it is the first row of `s`. */
  lemma WithEngagementHead(s: seq<Row>)
    requires |s| > 0
    ensures var w := WithEngagement(s, Engagement(s[0])); |w| > 0 && w[0] == s[0]
  {
  }

  /** Cutting `s` short cuts each of its tie groups short. */
  lemma {:induction false} WithEngagementOfPrefix(s: seq<Row>, n: nat, e: nat)
    requires n <= |s|
    ensures IsPrefix(WithEngagement(s[..n], e), WithEngagement(s, e))
    decreases n
  {
    if n > 0 {
      var s' := s[1..];
      assert s[..n][1..] == s'[..n - 1];
      WithEngagementOfPrefix(s', n - 1, e);
    }
  }

  /** The first row of a sorted sequence has the highest engagement. */
  lemma SortedHeadIsMax(s: seq<Row>, x: Row)
    requires SortedByEngagement(s) && x in s
    ensures Engagement(x) <= Engagement(s[0])
  {
    var i :| 0 <= i < |s| && s[i] == x;
  }

  /** `x` placed into the sorted `s` ahead of every row with engagement at
      most its own, hence ahead of the rows it ties with. */
  function Insert(x: Row, s: seq<Row>): (r: seq<Row>)
    requires SortedByEngagement(s)
    ensures SortedByEngagement(r)
    ensures |r| == |s| + 1
    ensures r[0] == x || (|s| > 0 && r[0] == s[0])
    decreases |s|
  {
    if |s| == 0 || Engagement(x) >= Engagement(s[0]) then [x] + s
    else
      var t := Insert(x, s[1..]);
      var r := [s[0]] + t;
      assert SortedByEngagement(r) by {
        forall j | 0 < j < |r| ensures Engagement(r[0]) >= Engagement(r[j]) {
          assert Engagement(t[0]) <= Engagement(s[0]);
          assert r[j] == t[j - 1];
        }
      }
      r
  }

  /** Insertion adds `x` and moves nothing else. */
  lemma {:induction false} InsertPermutes(x: Row, s: seq<Row>)
    requires SortedByEngagement(s)
    ensures multiset(Insert(x, s)) == multiset(s) + multiset{x}
    decreases |s|
  {
    if |s| > 0 && Engagement(x) < Engagement(s[0]) {
      InsertPermutes(x, s[1..]);
      assert s == [s[0]] + s[1..];
    }
  }

  /** Insertion keeps every tie group in order, with `x` ahead of the rows
      it ties with. */
  lemma {:induction false} InsertKeepsTies(x: Row, s: seq<Row>, e: nat)
    requires SortedByEngagement(s)
    ensures WithEngagement(Insert(x, s), e) == WithEngagement([x] + s, e)
    decreases |s|
  {
    if |s| > 0 && Engagement(x) < Engagement(s[0]) {
      var t := Insert(x, s[1..]);
      InsertKeepsTies(x, s[1..], e);
      assert s == [s[0]] + s[1..];
      WithEngagementCons(s[0], t, e);
      WithEngagementCons(x, s[1..], e);
      WithEngagementCons(x, s, e);
      WithEngagementCons(s[0], s[1..], e);
    }
  }

  /** The rows of `s` ordered by descending engagement, rows of equal
      engagement in arrival order (insertion sort). */
  function SortByEngagement(s: seq<Row>): (r: seq<Row>)
    ensures SortedByEngagement(r)
    ensures |r| == |s|
    decreases |s|
  {
    if |s| == 0 then [] else Insert(s[0], SortByEngagement(s[1..]))
  }

  /** The sort is a permutation. */
  lemma {:induction false} SortPermutes(s: seq<Row>)
    ensures multiset(SortByEngagement(s)) == multiset(s)
    decreases |s|
  {
    if |s| > 0 {
      SortPermutes(s[1..]);
      InsertPermutes(s[0], SortByEngagement(s[1..]));
      assert s == [s[0]] + s[1..];
    }
  }

  /** The sort is stable: rows of equal engagement keep their arrival order. */
  lemma {:induction false} SortIsStable(s: seq<Row>)
    ensures SameTies(SortByEngagement(s), s)
    decreases |s|
  {
    if |s| > 0 {
      var t := SortByEngagement(s[1..]);
      SortIsStable(s[1..]);
      forall e: nat ensures WithEngagement(SortByEngagement(s), e) == WithEngagement(s, e) {
        InsertKeepsTies(s[0], t, e);
        WithEngagementCons(s[0], t, e);
        WithEngagementCons(s[0], s[1..], e);
        assert s == [s[0]] + s[1..];
      }
    }
  }

  /** Sorting by engagement and keeping the order of ties leaves exactly one
      possible result; so the model's sort agrees with any stable descending
      sort, `Array.prototype.sort` included. */
  lemma {:induction false} StableSortIsUnique(a: seq<Row>, b: seq<Row>)
    requires SortedByEngagement(a) && SortedByEngagement(b)
    requires SameTies(a, b)
    ensures a == b
    decreases |a| + |b|
  {
    if |a| == 0 && |b| == 0 {
      return;
    }
    if |a| == 0 || |b| == 0 {
      var s := if |a| == 0 then b else a;
      WithEngagementHead(s);
      assert false;
    }
    var ea := Engagement(a[0]);
    var eb := Engagement(b[0]);
    WithEngagementHead(a);
    WithEngagementHead(b);
    assert a[0] in WithEngagement(b, ea);
    WithEngagementMember(b, ea, a[0]);
    SortedHeadIsMax(b, a[0]);
    assert b[0] in WithEngagement(a, eb);
    WithEngagementMember(a, eb, b[0]);
    SortedHeadIsMax(a, b[0]);
    assert ea == eb;
    assert a[0] == WithEngagement(a, ea)[0] == WithEngagement(b, ea)[0] == b[0];
    assert SameTies(a[1..], b[1..]) by {
      forall e: nat ensures WithEngagement(a[1..], e) == WithEngagement(b[1..], e) {
        var p := if ea == e then [a[0]] else [];
        WithEngagementCons(a[0], a[1..], e);
        WithEngagementCons(b[0], b[1..], e);
        assert a == [a[0]] + a[1..];
        assert b == [b[0]] + b[1..];
        assert WithEngagement(a, e) == p + WithEngagement(a[1..], e);
        assert WithEngagement(b, e) == p + WithEngagement(b[1..], e);
        assert WithEngagement(a, e)[|p|..] == WithEngagement(a[1..], e);
        assert WithEngagement(b, e)[|p|..] == WithEngagement(b[1..], e);
      }
    }
    StableSortIsUnique(a[1..], b[1..]);
    assert a == [a[0]] + a[1..];
    assert b == [b[0]] + b[1..];
  }

  /** Whatever stable descending sort the engine uses, its output is the
      model's. */
  lemma AnyStableSortAgrees(rows: seq<Row>, sorted: seq<Row>)
    requires SortedByEngagement(sorted) && SameTies(sorted, rows)
    ensures sorted == SortByEngagement(rows)
  {
    var r := SortByEngagement(rows);
    SortIsStable(rows);
    assert SameTies(sorted, r) by {
      forall e: nat ensures WithEngagement(sorted, e) == WithEngagement(r, e) {
        assert WithEngagement(sorted, e) == WithEngagement(rows, e);
      }
    }
    StableSortIsUnique(sorted, r);
  }

  /** Three rows with engagement 10, 50 and 50: the two tied rows lead, in
      arrival order, and the 10 follows. */
  lemma TiedRowsKeepArrivalOrder(r1: Row, r2: Row, r3: Row)
    requires Engagement(r1) == 10 && Engagement(r2) == 50 && Engagement(r3) == 50
    ensures SortByEngagement([r1, r2, r3]) == [r2, r3, r1]
  {
    var s := [r1, r2, r3];
    assert s[1..] == [r2, r3] && s[1..][1..] == [r3] && s[1..][1..][1..] == [];
    assert SortByEngagement([r3]) == [r3];
    assert Insert(r2, [r3]) == [r2, r3];
    assert Insert(r1, [r3]) == [r3] + Insert(r1, []);
    assert Insert(r1, [r2, r3]) == [r2] + Insert(r1, [r3]);
  }

  /** Sorting moves rows, so it keeps the total engagement. */
  lemma {:induction false} InsertKeepsTotal(x: Row, s: seq<Row>)
    requires SortedByEngagement(s)
    ensures TotalEngagement(Insert(x, s)) == Engagement(x) + TotalEngagement(s)
    decreases |s|
  {
    if |s| == 0 || Engagement(x) >= Engagement(s[0]) {
      TotalCons(x, s);
    } else {
      InsertKeepsTotal(x, s[1..]);
      TotalCons(s[0], Insert(x, s[1..]));
      TotalCons(s[0], s[1..]);
      assert s == [s[0]] + s[1..];
    }
  }

  lemma {:induction false} SortKeepsTotal(s: seq<Row>)
    ensures TotalEngagement(SortByEngagement(s)) == TotalEngagement(s)
    decreases |s|
  {
    if |s| > 0 {
      SortKeepsTotal(s[1..]);
      InsertKeepsTotal(s[0], SortByEngagement(s[1..]));
      TotalCons(s[0], s[1..]);
      assert s == [s[0]] + s[1..];
    }
  }

  /** The rows shown: the first `TopCount` rows of the stable sort. */
  function TopRows(rows: seq<Row>): (top: seq<Row>)
    ensures |top| == Min(TopCount, |rows|)
    ensures SortedByEngagement(top)
  {
    SortByEngagement(rows)[..Min(TopCount, |rows|)]
  }

  /** The rows shown are rows of the input, and every row left out has
      engagement no higher than the lowest row shown. */
  lemma TopRowsAreHighest(rows: seq<Row>)
    ensures multiset(TopRows(rows)) <= multiset(rows)
    ensures forall x :: x in multiset(rows) - multiset(TopRows(rows)) ==>
              Engagement(x) <= Engagement(TopRows(rows)[|TopRows(rows)| - 1])
  {
    var sorted := SortByEngagement(rows);
    var n := Min(TopCount, |rows|);
    var top := TopRows(rows);
    var rest := sorted[n..];
    SortPermutes(rows);
    SplitMultiset(sorted, n);
    assert multiset(rows) - multiset(top) == multiset(rest);
    forall x | x in multiset(rest)
      ensures Engagement(x) <= Engagement(top[|top| - 1])
    {
      LaterRowsRankLower(sorted, n, x);
    }
  }

  lemma SplitMultiset(s: seq<Row>, n: nat)
    requires n <= |s|
    ensures multiset(s) == multiset(s[..n]) + multiset(s[n..])
  {
    assert s == s[..n] + s[n..];
  }

  /** In a sorted sequence, a row past position `n` ranks no higher than the
      row just before `n`. */
  lemma LaterRowsRankLower(s: seq<Row>, n: nat, x: Row)
    requires SortedByEngagement(s) && 0 < n <= |s| && x in multiset(s[n..])
    ensures Engagement(x) <= Engagement(s[n - 1])
  {
    var j :| 0 <= j < |s[n..]| && s[n..][j] == x;
    assert s[n + j] == x;
  }

  /** Among rows of equal engagement, the ones shown are the earliest to
      arrive, in arrival order. */
  lemma TopRowsKeepArrivalOrder(rows: seq<Row>, e: nat)
    ensures IsPrefix(WithEngagement(TopRows(rows), e), WithEngagement(rows, e))
  {
    SortIsStable(rows);
    WithEngagementOfPrefix(SortByEngagement(rows), Min(TopCount, |rows|), e);
  }

  /** The rows shown never add up to more than all rows, and add up to
      exactly that when no more than `TopCount` rows were collected. */
  lemma {:induction false} TopTotalBounded(rows: seq<Row>)
    ensures TotalEngagement(TopRows(rows)) <= TotalEngagement(rows)
    ensures |rows| <= TopCount ==> TotalEngagement(TopRows(rows)) == TotalEngagement(rows)
  {
    var sorted := SortByEngagement(rows);
    var n := Min(TopCount, |rows|);
    assert TopRows(rows) == sorted[..n];
    SortKeepsTotal(rows);
    TotalPrefix(sorted, n);
    if |rows| <= TopCount {
      assert sorted[..n] == sorted;
    }
  }

  /** One top tweet as displayed. */
  datatype View = View(
    id: string,
    url: string,
    authorUsername: Option<string>,
    verified: bool,
    followers: nat,
    engagement: nat,
    createdAt: string)

  const Site: string := "https://twitter.com/"
  const StatusPath: string := "/status/"
  /** The path that stands in for the username when it is not known. */
  const AnonymousPath: string := "i/web"

  /** Whether a username is usable in a link: present and, as JavaScript
      truthiness has it, not empty. */
  predicate HasUsername(username: Option<string>) {
    username.Some? && username.value != ""
  }

  /** The path segment between the site and the status path. */
  function Owner(username: Option<string>): string {
    if HasUsername(username) then username.value else AnonymousPath
  }

  function Permalink(username: Option<string>, id: string): string {
    Site + Owner(username) + StatusPath + id
  }

  /** A permalink reads back as the site, the owner segment, the status path
      and the post id. */
  lemma PermalinkParts(username: Option<string>, id: string)
    ensures var url := Permalink(username, id);
            var o := Owner(username);
            && |url| == |Site| + |o| + |StatusPath| + |id|
            && url[..|Site|] == Site
            && url[|Site|..|Site| + |o|] == o
            && url[|Site| + |o|..|url| - |id|] == StatusPath
            && url[|url| - |id|..] == id
  {
    var o := Owner(username);
    var url := Permalink(username, id);
    assert url == Site + (o + (StatusPath + id));
    assert url[..|Site|] == Site;
    assert url[|Site|..] == o + (StatusPath + id);
    assert url[|Site|..][..|o|] == o;
    assert url[|Site| + |o|..] == StatusPath + id;
    assert url[|Site| + |o|..][..|StatusPath|] == StatusPath;
  }

  /** The view of one row; its engagement is the row's, by the same formula
      the total uses. */
  function Project(r: Row): View {
    View(r.id, Permalink(r.authorUsername, r.id), r.authorUsername,
         r.authorVerified, r.authorFollowers, Engagement(r), r.createdAt)
  }

  /** `top_tweets`. */
  function TopTweets(rows: seq<Row>): (views: seq<View>)
    ensures |views| == Min(TopCount, |rows|)
    ensures forall i :: 0 <= i < |views| ==> views[i] == Project(TopRows(rows)[i])
    ensures forall i, j :: 0 <= i < j < |views| ==> views[i].engagement >= views[j].engagement
  {
    var top := TopRows(rows);
    seq(|top|, i requires 0 <= i < |top| => Project(top[i]))
  }

  /** The engagement shown across a list of views, added up in order. */
  function ShownEngagement(views: seq<View>): nat
    decreases |views|
  {
    if |views| == 0 then 0
    else ShownEngagement(views[..|views| - 1]) + views[|views| - 1].engagement
  }

  /** Views show the engagement of the rows they project. */
  lemma {:induction false} ProjectKeepsEngagement(top: seq<Row>, views: seq<View>)
    requires |views| == |top|
    requires forall i :: 0 <= i < |top| ==> views[i] == Project(top[i])
    ensures ShownEngagement(views) == TotalEngagement(top)
    decreases |top|
  {
    if |top| > 0 {
      var n := |top| - 1;
      ProjectKeepsEngagement(top[..n], views[..n]);
    }
  }

  /** The top tweets show no more engagement than the total of all rows, and
      all of it when at most `TopCount` rows were collected. */
  lemma {:induction false} ShownWithinTotal(rows: seq<Row>)
    ensures ShownEngagement(TopTweets(rows)) <= TotalEngagement(rows)
    ensures |rows| <= TopCount ==> ShownEngagement(TopTweets(rows)) == TotalEngagement(rows)
  {
    ProjectKeepsEngagement(TopRows(rows), TopTweets(rows));
    TopTotalBounded(rows);
  }
}
