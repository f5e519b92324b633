/** The per-coin totals of `fetchForCoin` (index.js): distinct verified
    authors, distinct authors with a large following, and summed engagement. */
module Aggregate {
  import opened Rows

  /** Followers needed for an author to count towards the reach figure. */
  const ReachThreshold: nat := 100000

  predicate IsVerifiedRow(r: Row) {
    r.authorVerified
  }

  predicate IsWideReachRow(r: Row) {
    r.authorFollowers >= ReachThreshold
  }

  /** The distinct author ids of the rows that satisfy `qualifies`: an
      author with many qualifying rows is one id. */
  function QualifyingAuthors(rows: seq<Row>, qualifies: Row -> bool): (ids: set<string>)
    ensures forall i :: 0 <= i < |rows| && qualifies(rows[i]) ==> rows[i].authorId in ids
    ensures forall id :: id in ids ==>
              exists i :: 0 <= i < |rows| && qualifies(rows[i]) && rows[i].authorId == id
    ensures |ids| <= |rows|
    decreases |rows|
  {
    if |rows| == 0 then {}
    else
      var last := rows[|rows| - 1];
      var front := QualifyingAuthors(rows[..|rows| - 1], qualifies);
      assert forall i :: 0 <= i < |rows| - 1 ==> rows[..|rows| - 1][i] == rows[i];
      if qualifies(last) then front + {last.authorId} else front
  }

  /** A further qualifying row by an author already counted adds nothing:
      the figures count authors, not rows. */
  lemma RepeatAuthorCountsOnce(rows: seq<Row>, qualifies: Row -> bool, r: Row, i: nat)
    requires i < |rows| && qualifies(rows[i]) && rows[i].authorId == r.authorId
    ensures QualifyingAuthors(rows + [r], qualifies) == QualifyingAuthors(rows, qualifies)
  {
    assert (rows + [r])[..|rows|] == rows;
  }

  /** `unique_verified_accounts`. */
  function UniqueVerified(rows: seq<Row>): nat {
    |QualifyingAuthors(rows, IsVerifiedRow)|
  }

  /** `unique_100kplus_accounts`. */
  function UniqueWideReach(rows: seq<Row>): nat {
    |QualifyingAuthors(rows, IsWideReachRow)|
  }

  /** The sum of the rows' engagement, added up in arrival order. */
  function TotalEngagement(rows: seq<Row>): nat
    decreases |rows|
  {
    if |rows| == 0 then 0
    else TotalEngagement(rows[..|rows| - 1]) + Engagement(rows[|rows| - 1])
  }

  /** No row has more engagement than the total. */
  lemma {:induction false} TotalCoversEachRow(rows: seq<Row>)
    ensures forall i :: 0 <= i < |rows| ==> Engagement(rows[i]) <= TotalEngagement(rows)
    decreases |rows|
  {
    if |rows| > 0 {
      var front := rows[..|rows| - 1];
      TotalCoversEachRow(front);
      assert forall i :: 0 <= i < |rows| - 1 ==> front[i] == rows[i];
    }
  }

  /** The total of a concatenation is the sum of the totals. */
  lemma {:induction false} TotalAppend(a: seq<Row>, b: seq<Row>)
    ensures TotalEngagement(a + b) == TotalEngagement(a) + TotalEngagement(b)
    decreases |b|
  {
    if |b| > 0 {
      var b' := b[..|b| - 1];
      assert (a + b)[..|a + b| - 1] == a + b';
      TotalAppend(a, b');
    } else {
      assert a + b == a;
    }
  }

  /** The total of a sequence headed by `x`. */
  lemma TotalCons(x: Row, s: seq<Row>)
    ensures TotalEngagement([x] + s) == Engagement(x) + TotalEngagement(s)
  {
    TotalAppend([x], s);
    assert [x][..0] == [];
  }

  /** A prefix never totals more than the whole. */
  lemma TotalPrefix(s: seq<Row>, n: nat)
    requires n <= |s|
    ensures TotalEngagement(s[..n]) <= TotalEngagement(s)
  {
    TotalAppend(s[..n], s[n..]);
    assert s[..n] + s[n..] == s;
  }
}
