/** The search query of one coin: its aliases as an OR-group followed by the
    fixed anti-spam filter (index.js, `term` and `buildQuery`). */
module Query {

  /** An alias that is already a cashtag or hashtag token. */
  predicate IsTagToken(t: string) {
    |t| > 0 && (t[0] == '$' || t[0] == '#')
  }

  /** A term wrapped in double quotes, i.e. a phrase match. */
  predicate IsQuoted(s: string) {
    |s| >= 2 && s[0] == '"' && s[|s| - 1] == '"'
  }

  /** The search term for one alias: tag tokens stay as they are, every other
      alias (the empty one included) becomes a quoted phrase. */
  function Term(t: string): string {
    if IsTagToken(t) then t else "\"" + t + "\""
  }

  /** A term is quoted exactly when its alias is not a tag token, and
      removing the quotes gives the alias back. */
  lemma TermShape(t: string)
    ensures IsQuoted(Term(t)) <==> !IsTagToken(t)
    ensures IsQuoted(Term(t)) ==> Term(t)[1..|Term(t)| - 1] == t
    ensures !IsQuoted(Term(t)) ==> Term(t) == t
  {
  }

  /** Distinct aliases give distinct terms. */
  lemma TermInjective(a: string, b: string)
    requires Term(a) == Term(b)
    ensures a == b
  {
    TermShape(a);
    TermShape(b);
  }

  /** `parts.join(sep)` of JavaScript: the parts with `sep` between neighbours. */
  function Join(parts: seq<string>, sep: string): string
    decreases |parts|
  {
    if |parts| == 0 then ""
    else if |parts| == 1 then parts[0]
    else parts[0] + sep + Join(parts[1..], sep)
  }

  /** Where part `i` starts inside `Join(parts, sep)`. */
  function Offset(parts: seq<string>, sep: string, i: nat): nat
    requires i <= |parts|
  {
    if i == 0 then 0 else Offset(parts, sep, i - 1) + |parts[i - 1]| + |sep|
  }

  /** Every part sits at its offset, and the last part ends the joined string. */
  lemma {:induction false} JoinPartAt(parts: seq<string>, sep: string, i: nat)
    requires i < |parts|
    ensures Offset(parts, sep, i) + |parts[i]| <= |Join(parts, sep)|
    ensures Join(parts, sep)[Offset(parts, sep, i)..Offset(parts, sep, i) + |parts[i]|] == parts[i]
    ensures i + 1 == |parts| ==> Offset(parts, sep, i) + |parts[i]| == |Join(parts, sep)|
    decreases i
  {
    if |parts| == 1 {
      assert Offset(parts, sep, 0) == 0;
    } else if i == 0 {
      JoinHead(parts, sep);
    } else {
      var rest := parts[1..];
      var head := parts[0] + sep;
      var jr := Join(rest, sep);
      assert Join(parts, sep) == head + jr;
      OffsetShift(parts, sep, i);
      JoinPartAt(rest, sep, i - 1);
      assert rest[i - 1] == parts[i];
      var o := Offset(rest, sep, i - 1);
      ShiftedSlice(head, jr, o, o + |parts[i]|);
    }
  }

  /** The separator fills the gap between part `i` and part `i + 1`. */
  lemma {:induction false} JoinSepAfter(parts: seq<string>, sep: string, i: nat)
    requires i + 1 < |parts|
    ensures Offset(parts, sep, i + 1) <= |Join(parts, sep)|
    ensures Offset(parts, sep, i + 1) == Offset(parts, sep, i) + |parts[i]| + |sep|
    ensures Join(parts, sep)[Offset(parts, sep, i) + |parts[i]|..Offset(parts, sep, i + 1)] == sep
    decreases i
  {
    if i == 0 {
      JoinHead(parts, sep);
    } else {
      var rest := parts[1..];
      var head := parts[0] + sep;
      var jr := Join(rest, sep);
      assert Join(parts, sep) == head + jr;
      OffsetShift(parts, sep, i);
      OffsetShift(parts, sep, i + 1);
      JoinSepAfter(rest, sep, i - 1);
      assert rest[i - 1] == parts[i];
      var o := Offset(rest, sep, i - 1);
      ShiftedSlice(head, jr, o + |parts[i]|, Offset(rest, sep, i));
    }
  }

  /** The first part and the first separator open a join of two or more parts. */
  lemma {:induction false} JoinHead(parts: seq<string>, sep: string)
    requires |parts| >= 2
    ensures Offset(parts, sep, 1) == |parts[0]| + |sep| <= |Join(parts, sep)|
    ensures Join(parts, sep)[0..|parts[0]|] == parts[0]
    ensures Join(parts, sep)[|parts[0]|..|parts[0]| + |sep|] == sep
  {
    var j := Join(parts, sep);
    var jr := Join(parts[1..], sep);
    assert j == parts[0] + (sep + jr);
    assert Offset(parts, sep, 0) == 0;
    assert j[0..|parts[0]|] == parts[0];
    ShiftedSlice(parts[0], sep + jr, 0, |sep|);
  }

  /** A slice of the right operand of a concatenation, seen from the whole. */
  lemma {:induction false} ShiftedSlice(a: string, b: string, x: nat, y: nat)
    requires x <= y <= |b|
    ensures (a + b)[|a| + x..|a| + y] == b[x..y]
  {
    assert forall n :: 0 <= n < y - x ==> (a + b)[|a| + x..|a| + y][n] == b[x..y][n];
  }

  /** A slice of a slice is a slice of the original. */
  lemma {:induction false} SliceOfSlice(s: string, a: nat, b: nat, x: nat, y: nat)
    requires a <= b <= |s| && x <= y <= b - a
    ensures s[a..b][x..y] == s[a + x..a + y]
  {
    assert forall n :: 0 <= n < y - x ==> s[a..b][x..y][n] == s[a + x..a + y][n];
  }

  /** Dropping the first part moves every later offset back by one part and one separator. */
  lemma {:induction false} OffsetShift(parts: seq<string>, sep: string, i: nat)
    requires 1 <= i <= |parts|
    ensures Offset(parts, sep, i) == |parts[0]| + |sep| + Offset(parts[1..], sep, i - 1)
    decreases i
  {
    if i > 1 {
      OffsetShift(parts, sep, i - 1);
      assert parts[1..][i - 2] == parts[i - 1];
    }
  }

  /** The terms of all aliases, in configuration order. */
  function Terms(aliases: seq<string>): seq<string> {
    seq(|aliases|, i requires 0 <= i < |aliases| => Term(aliases[i]))
  }

  /** Everything after the closing parenthesis of the alias group, verbatim:
      English only, no retweets, no replies, no post carrying any cashtag, one
      of the five promotional keywords REQUIRED (the group has no leading '-'),
      and at least five likes, a mention or a link. */
  const Filters: string :=
    " lang:en -is:retweet -is:reply -has:cashtags " +
    "(\"presale\" OR \"airdrop\" OR \"giveaway\" OR \"bonding curve\" OR \"stealth launch\") " +
    "(min_faves:5 OR has:mentions OR has:links)"

  const Or: string := " OR "

  /** The alias group: the terms of all aliases joined by " OR " inside one
      pair of parentheses. */
  function AliasGroup(aliases: seq<string>): string {
    "(" + Join(Terms(aliases), Or) + ")"
  }

  /** The query of one coin: the alias group, then the filters verbatim. */
  function BuildQuery(aliases: seq<string>): (q: string)
    ensures |q| == |AliasGroup(aliases)| + |Filters|
    ensures q[..|AliasGroup(aliases)|] == AliasGroup(aliases)
    ensures q[|AliasGroup(aliases)|..] == Filters
  {
    AliasGroup(aliases) + Filters
  }

  /** Alias `i` appears inside the alias group as its term, at its own slot:
      after the opening parenthesis and the earlier terms with their " OR "
      separators, and followed by " OR " or, for the last alias, by the
      closing parenthesis that ends the group. */
  lemma {:induction false} GroupHoldsEveryTerm(aliases: seq<string>, i: nat)
    requires i < |aliases|
    ensures var g := AliasGroup(aliases);
            var p := 1 + Offset(Terms(aliases), Or, i);
            var t := Term(aliases[i]);
            && g[0] == '('
            && p + |t| < |g|
            && g[p..p + |t|] == t
            && (i + 1 < |aliases| ==> p + |t| + |Or| < |g| && g[p + |t|..p + |t| + |Or|] == Or)
            && (i + 1 == |aliases| ==> p + |t| + 1 == |g| && g[p + |t|] == ')')
  {
    var ts := Terms(aliases);
    var j := Join(ts, Or);
    var g := AliasGroup(aliases);
    var o := Offset(ts, Or, i);
    var t := ts[i];
    assert g == "(" + j + ")";
    assert g[1..|g| - 1] == j;
    JoinPartAt(ts, Or, i);
    SliceOfSlice(g, 1, |g| - 1, o, o + |t|);
    if i + 1 < |aliases| {
      JoinSepAfter(ts, Or, i);
      SliceOfSlice(g, 1, |g| - 1, o + |t|, o + |t| + |Or|);
    }
  }

  /** The same slots read off the whole query: it opens with the group's
      `(`, holds alias `i` as its term at the slot the group gives it, and
      after the group's closing `)` carries the filters verbatim to its end. */
  lemma {:induction false} QueryHoldsEveryTerm(aliases: seq<string>, i: nat)
    requires i < |aliases|
    ensures var q := BuildQuery(aliases);
            var p := 1 + Offset(Terms(aliases), Or, i);
            var t := Term(aliases[i]);
            var n := |AliasGroup(aliases)|;
            && q[0] == '('
            && p + |t| < n
            && q[p..p + |t|] == t
            && q[n - 1] == ')'
            && q[n..] == Filters
  {
    var g := AliasGroup(aliases);
    var p := 1 + Offset(Terms(aliases), Or, i);
    GroupHoldsEveryTerm(aliases, i);
    ReadThroughPrefix(BuildQuery(aliases), g, p, p + |Term(aliases[i])|);
  }

  /** Whatever a prefix holds, the whole string holds at the same place. */
  lemma {:induction false} ReadThroughPrefix(s: string, g: string, x: nat, y: nat)
    requires |g| <= |s| && s[..|g|] == g
    requires 0 < x <= y < |g|
    ensures s[0] == g[0] && s[|g| - 1] == g[|g| - 1] && s[x..y] == g[x..y]
  {
    assert s[0] == s[..|g|][0];
    assert s[|g| - 1] == s[..|g|][|g| - 1];
    SliceOfSlice(s, 0, |g|, x, y);
  }

  /** The LINK configuration (index.js:15) gives the group
      `("Chainlink" OR $LINK OR #LINK)`. */
  lemma ChainlinkQuery()
    ensures AliasGroup(["Chainlink", "$LINK", "#LINK"]) == "(\"Chainlink\" OR $LINK OR #LINK)"
  {
    var ts := Terms(["Chainlink", "$LINK", "#LINK"]);
    assert ts[0] == "\"Chainlink\"";
    assert ts[1] == "$LINK" && ts[2] == "#LINK";
    assert ts[1..][1..] == ["#LINK"];
    assert Join(ts[1..][1..], Or) == "#LINK";
    assert |ts[1..]| == 2 && ts[1..][0] == "$LINK";
    var tail := Join(ts[1..], Or);
    assert tail == "$LINK" + Or + "#LINK";
    assert Join(ts, Or) == "\"Chainlink\"" + Or + tail;
  }

  /** An empty alias list gives an empty group, "()". */
  lemma NoAliasesGiveEmptyGroup()
    ensures AliasGroup([]) == "()"
  {
  }

  /** The query does not determine the aliases: an alias that itself contains
      `" OR "` yields the same query as the two aliases around it. */
  lemma AliasesNotRecoverable()
    ensures AliasGroup(["a\" OR \"b"]) == AliasGroup(["a", "b"])
  {
    assert Term("a\" OR \"b") == "\"a\" OR \"b\"";
    assert Term("a") == "\"a\"" && Term("b") == "\"b\"";
    assert Terms(["a\" OR \"b"]) == ["\"a\" OR \"b\""];
    assert Terms(["a", "b"]) == ["\"a\"", "\"b\""];
    assert Join(["\"a\"", "\"b\""], Or) == "\"a\"" + Or + "\"b\"";
  }
}
