/**
 * The ranking used by the tally report and the winner command: a stable
 * sort by votes, highest first, as the comparator `(a, b) => b.votes - a.votes`
 * gives under JavaScript's stable `Array.prototype.sort`.
 */
module Ranking {
  import opened Submissions

  /** Non-increasing in votes. */
  predicate ByVotesDesc(s: Repo) {
    forall i, j :: 0 <= i < j < |s| ==> s[i].votes >= s[j].votes
  }

  /** The entries with exactly `v` votes, in their order in `s`. */
  function WithVotes(s: Repo, v: int): (r: Repo)
    ensures |r| <= |s|
  {
    if |s| == 0 then []
    else (if s[0].votes == v then [s[0]] else []) + WithVotes(s[1..], v)
  }

  /** Ties keep their relative order: every group of equal votes is unchanged. */
  ghost predicate TiesInOrder(r: Repo, s: Repo) {
    forall v :: WithVotes(r, v) == WithVotes(s, v)
  }

  lemma {:induction false} InWithVotes(s: Repo, v: int, x: Submission)
    ensures x in WithVotes(s, v) <==> x in s && x.votes == v
  {
    if |s| > 0 {
      InWithVotes(s[1..], v, x);
      assert s == [s[0]] + s[1..];
    }
  }

  /** Putting an entry that beats everything in front keeps the order. */
  lemma ConsByVotesDesc(h: Submission, t: Repo)
    ensures ByVotesDesc(t) && (forall y :: y in t ==> y.votes <= h.votes) ==> ByVotesDesc([h] + t)
  {
  }

  /** Places `x` in front of the first entry that does not beat it. */
  function Insert(x: Submission, s: Repo): (r: Repo)
    ensures |r| == |s| + 1
    ensures multiset(r) == multiset(s) + multiset{x}
    ensures forall y :: y in r <==> y == x || y in s
    ensures ByVotesDesc(s) ==> ByVotesDesc(r)
  {
    if |s| == 0 then [x]
    else if x.votes >= s[0].votes then
      ConsByVotesDesc(x, s);
      [x] + s
    else
      var t := Insert(x, s[1..]);
      assert s == [s[0]] + s[1..];
      assert multiset(s) == multiset{s[0]} + multiset(s[1..]);
      ConsByVotesDesc(s[0], t);
      [s[0]] + t
  }

  /** The ranking: a stable sort by votes, highest first. */
  function SortByVotes(s: Repo): (r: Repo)
    ensures |r| == |s|
    ensures multiset(r) == multiset(s)
    ensures ByVotesDesc(r)
  {
    if |s| == 0 then []
    else
      assert s == [s[0]] + s[1..];
      Insert(s[0], SortByVotes(s[1..]))
  }

  lemma {:induction false} InsertWithVotes(x: Submission, s: Repo, v: int)
    ensures WithVotes(Insert(x, s), v) == (if x.votes == v then [x] else []) + WithVotes(s, v)
  {
    if |s| == 0 {
      assert WithVotes([x], v) == (if x.votes == v then [x] else []) + WithVotes([], v);
    } else if x.votes >= s[0].votes {
      assert ([x] + s)[1..] == s;
    } else {
      var t := Insert(x, s[1..]);
      InsertWithVotes(x, s[1..], v);
      assert ([s[0]] + t)[1..] == t;
    }
  }

  /** The ranking is stable: entries with equal votes keep their prior order. */
  lemma {:induction false} SortByVotesStable(s: Repo, v: int)
    ensures WithVotes(SortByVotes(s), v) == WithVotes(s, v)
  {
    if |s| > 0 {
      SortByVotesStable(s[1..], v);
      InsertWithVotes(s[0], SortByVotes(s[1..]), v);
    }
  }

  lemma HeadIsMax(s: Repo, x: Submission)
    ensures ByVotesDesc(s) && x in s ==> x.votes <= s[0].votes
  {
  }

  lemma {:induction false} NonEmptyHasGroup(s: Repo)
    ensures |s| > 0 ==> WithVotes(s, s[0].votes) == [s[0]] + WithVotes(s[1..], s[0].votes)
  {
  }

  /**
   * A sequence sorted by votes is determined by its groups of equal votes:
   * two such sequences whose groups agree are equal.
   */
  lemma {:induction false} SortedGroupsDetermine(a: Repo, b: Repo)
    requires ByVotesDesc(a) && ByVotesDesc(b)
    requires TiesInOrder(a, b)
    ensures a == b
    decreases |a|
  {
    NonEmptyHasGroup(a);
    NonEmptyHasGroup(b);
    if |a| == 0 || |b| == 0 {
      return;
    }
    var v := a[0].votes;
    var w := b[0].votes;
    InWithVotes(a, v, a[0]);
    InWithVotes(b, v, a[0]);
    InWithVotes(b, w, b[0]);
    InWithVotes(a, w, b[0]);
    HeadIsMax(b, a[0]);
    HeadIsMax(a, b[0]);
    assert v == w;
    var ga, gb := WithVotes(a[1..], v), WithVotes(b[1..], v);
    assert [a[0]] + ga == [b[0]] + gb;
    assert a[0] == b[0] by { assert ([a[0]] + ga)[0] == ([b[0]] + gb)[0]; }
    assert ga == gb by { assert ([a[0]] + ga)[1..] == ([b[0]] + gb)[1..]; }
    forall u
      ensures WithVotes(a[1..], u) == WithVotes(b[1..], u)
    {
      if u != v {
        assert WithVotes(a, u) == WithVotes(a[1..], u);
        assert WithVotes(b, u) == WithVotes(b[1..], u);
      }
    }
    SortedGroupsDetermine(a[1..], b[1..]);
    assert a == [a[0]] + a[1..];
    assert b == [b[0]] + b[1..];
  }

  /**
   * `SortByVotes` is THE stable sort by votes: any sequence that is sorted by
   * votes and keeps every tie group of `s` in order equals it.
   */
  lemma SortByVotesIsUnique(s: Repo, r: Repo)
    requires ByVotesDesc(r) && TiesInOrder(r, s)
    ensures r == SortByVotes(s)
  {
    forall v
      ensures WithVotes(r, v) == WithVotes(SortByVotes(s), v)
    {
      SortByVotesStable(s, v);
    }
    SortedGroupsDetermine(r, SortByVotes(s));
  }

  // ------------------------------------------------ ties by ascending id

  predicate IdsIncreasing(s: Repo) {
    forall i, j :: 0 <= i < j < |s| ==> s[i].id < s[j].id
  }

  /** Among entries with equal votes, lower ids come first. */
  predicate TiesByAscendingId(s: Repo) {
    forall i, j :: 0 <= i < j < |s| && s[i].votes == s[j].votes ==> s[i].id < s[j].id
  }

  lemma {:induction false} InsertKeepsTieOrder(x: Submission, s: Repo)
    requires TiesByAscendingId(s)
    requires forall y :: y in s ==> x.id < y.id
    ensures TiesByAscendingId(Insert(x, s))
  {
    if |s| > 0 && x.votes < s[0].votes {
      var t := Insert(x, s[1..]);
      InsertKeepsTieOrder(x, s[1..]);
      var r := [s[0]] + t;
      forall i, j | 0 <= i < j < |r| && r[i].votes == r[j].votes
        ensures r[i].id < r[j].id
      {
        if i == 0 {
          assert r[j] in t;
          if r[j] != x {
            var k :| 0 <= k < |s[1..]| && s[1..][k] == r[j];
            assert s[k + 1] == r[j];
          }
        } else {
          assert r[i] == t[i - 1] && r[j] == t[j - 1];
        }
      }
    }
  }

  /**
   * When list order agrees with id order, the stable ranking breaks ties by
   * ascending id.
   */
  lemma {:induction false} SortByVotesTiesById(s: Repo)
    requires IdsIncreasing(s)
    ensures TiesByAscendingId(SortByVotes(s))
  {
    if |s| > 0 {
      SortByVotesTiesById(s[1..]);
      var t := SortByVotes(s[1..]);
      forall y | y in t
        ensures s[0].id < y.id
      {
        assert y in multiset(t);
        assert y in s[1..];
      }
      InsertKeepsTieOrder(s[0], t);
    }
  }
}
