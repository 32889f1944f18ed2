/**
 * Vote bookkeeping of the file-backed bot: the tally recompute, the winner
 * selection and the per-entry vote lookup.
 */
module Voting {
  import opened Wrappers
  import opened Submissions
  import opened Ranking

  /**
   * The board as the tally sees it: a message id maps to the raw count of the
   * vote reaction on that card (None when the card has no vote reaction). A
   * message id that is absent is a card whose fetch fails.
   */
  type Cards = map<string, Option<int>>

  /** The bot's own seeding reaction is subtracted; no vote reaction means 0. */
  function CorrectedVotes(reaction: Option<int>): (v: int)
    ensures reaction.None? ==> v == 0
    ensures reaction.Some? ==> v + 1 == reaction.value
  {
    match reaction
    case None => 0
    case Some(raw) => raw - 1
  }

  /** `s` with the vote count read from its card. */
  function Refresh(s: Submission, cards: Cards): (r: Submission)
    requires s.messageId in cards
    ensures r.votes == CorrectedVotes(cards[s.messageId])
    ensures r.(votes := s.votes) == s
  {
    s.(votes := CorrectedVotes(cards[s.messageId]))
  }

  /**
   * The saved list after `!tally`: every entry whose card was fetched, with its
   * refreshed count, in list order. Entries whose fetch fails are dropped.
   */
  function Tally(subs: Repo, cards: Cards): (r: Repo)
    ensures |r| <= |subs|
    ensures |r| == |subs| <==> forall i :: 0 <= i < |subs| ==> subs[i].messageId in cards
    ensures forall x :: x in r ==> x.messageId in cards && x.votes == CorrectedVotes(cards[x.messageId])
    ensures forall x :: x in r ==> exists i :: 0 <= i < |subs| && subs[i].messageId in cards && x == Refresh(subs[i], cards)
    ensures forall i :: 0 <= i < |subs| && subs[i].messageId in cards ==> Refresh(subs[i], cards) in r
  {
    if |subs| == 0 then []
    else
      var rest := Tally(subs[1..], cards);
      assert forall i :: 1 <= i < |subs| ==> subs[i] == subs[1..][i - 1];
      if subs[0].messageId in cards then [Refresh(subs[0], cards)] + rest else rest
  }

  /** The tally only removes entries, so it never gives a user a second entry. */
  lemma {:induction false} TallyPreservesUniqueUsers(subs: Repo, cards: Cards)
    requires UniqueUsers(subs)
    ensures UniqueUsers(Tally(subs, cards))
  {
    if |subs| > 0 {
      var tail := subs[1..];
      TallyPreservesUniqueUsers(tail, cards);
      var rest := Tally(tail, cards);
      if subs[0].messageId in cards {
        var r := [Refresh(subs[0], cards)] + rest;
        forall j | 0 < j < |r|
          ensures r[0].userId != r[j].userId
        {
          assert r[j] in rest;
          var k :| 0 <= k < |tail| && tail[k].messageId in cards && r[j] == Refresh(tail[k], cards);
          assert tail[k] == subs[k + 1];
        }
        forall i, j | 0 < i < j < |r|
          ensures r[i].userId != r[j].userId
        {
          assert r[i] == rest[i - 1] && r[j] == rest[j - 1];
        }
      }
    }
  }

  /** The tally only removes entries, so a list in ascending id order stays in ascending id order. */
  lemma {:induction false} TallyKeepsIdOrder(subs: Repo, cards: Cards)
    requires IdsIncreasing(subs)
    ensures IdsIncreasing(Tally(subs, cards))
  {
    if |subs| > 0 {
      var tail := subs[1..];
      TallyKeepsIdOrder(tail, cards);
      var rest := Tally(tail, cards);
      if subs[0].messageId in cards {
        var r := [Refresh(subs[0], cards)] + rest;
        forall j | 0 < j < |r|
          ensures r[0].id < r[j].id
        {
          assert r[j] in rest;
          var k :| 0 <= k < |tail| && tail[k].messageId in cards && r[j] == Refresh(tail[k], cards);
          assert tail[k] == subs[k + 1];
        }
        forall i, j | 0 < i < j < |r|
          ensures r[i].id < r[j].id
        {
          assert r[i] == rest[i - 1] && r[j] == rest[j - 1];
        }
      }
    }
  }

  /** When every vote reaction that is present carries at least the seeding vote, no count is negative. */
  lemma TallyVotesNonNegative(subs: Repo, cards: Cards)
    requires forall m :: m in cards && cards[m].Some? ==> cards[m].value >= 1
    ensures forall x :: x in Tally(subs, cards) ==> x.votes >= 0
  {
  }

  /**
   * The refresh that keeps every entry: found cards update the count, entries
   * whose card fails keep their previous count. It is the reference against
   * which the dropping tally is measured.
   */
  function RefreshAll(subs: Repo, cards: Cards): (r: Repo)
    ensures |r| == |subs|
    ensures forall i :: 0 <= i < |subs| ==>
      r[i] == (if subs[i].messageId in cards then Refresh(subs[i], cards) else subs[i])
  {
    seq(|subs|, i requires 0 <= i < |subs| =>
      if subs[i].messageId in cards then Refresh(subs[i], cards) else subs[i])
  }

  /** `a` is `b` with some elements deleted, order kept. */
  predicate Embeds<T(==)>(a: seq<T>, b: seq<T>)
    decreases |b|
  {
    if |a| == 0 then true
    else if |b| == 0 then false
    else (a[0] == b[0] && Embeds(a[1..], b[1..])) || Embeds(a, b[1..])
  }

  /** The saved list is an order-preserving subsequence of the keep-everything refresh. */
  lemma {:induction false} TallyEmbedsInRefreshAll(subs: Repo, cards: Cards)
    ensures Embeds(Tally(subs, cards), RefreshAll(subs, cards))
  {
    if |subs| > 0 {
      TallyEmbedsInRefreshAll(subs[1..], cards);
      var all := RefreshAll(subs, cards);
      assert all[1..] == RefreshAll(subs[1..], cards);
      var t := Tally(subs, cards);
      if subs[0].messageId in cards {
        assert t[1..] == Tally(subs[1..], cards);
      }
    }
  }

  /** With no failed lookup, the tally equals the keep-everything refresh. */
  lemma {:induction false} TallyWithoutFailures(subs: Repo, cards: Cards)
    requires forall i :: 0 <= i < |subs| ==> subs[i].messageId in cards
    ensures Tally(subs, cards) == RefreshAll(subs, cards)
  {
    if |subs| > 0 {
      TallyWithoutFailures(subs[1..], cards);
      assert RefreshAll(subs, cards) == [Refresh(subs[0], cards)] + RefreshAll(subs[1..], cards);
    }
  }

  /** Raw counts 5 and 1 become 4 and 0 votes. */
  lemma TallyCorrectionExample()
    ensures Tally([Submission(1, "a", "x.png", "m1", 0), Submission(2, "b", "y.png", "m2", 0)],
                  map["m1" := Some(5), "m2" := Some(1)])
         == [Submission(1, "a", "x.png", "m1", 4), Submission(2, "b", "y.png", "m2", 0)]
  {
  }

  /** A failed lookup for entry 3 removes it from the saved list. */
  lemma TallyDropsFailedExample()
    ensures Tally([Submission(1, "a", "x.png", "m1", 0), Submission(2, "b", "y.png", "m2", 0),
                   Submission(3, "c", "z.png", "m3", 7)],
                  map["m1" := Some(2), "m2" := None])
         == [Submission(1, "a", "x.png", "m1", 1), Submission(2, "b", "y.png", "m2", 0)]
  {
  }

  // ------------------------------------------------------------- winners

  /** `parseInt(arg) || 1`: a missing number (NaN) or 0 becomes 1. */
  function WinnerCount(parsed: Option<int>): (n: int)
    ensures n != 0
    ensures parsed.Some? && parsed.value != 0 ==> n == parsed.value
    ensures parsed.None? || parsed.value == 0 ==> n == 1
  {
    match parsed
    case Some(k) => if k == 0 then 1 else k
    case None => 1
  }

  /** The end index `slice(0, end)` uses on a list of length `len`. */
  function SliceEnd(len: nat, end: int): (k: nat)
    ensures k <= len
    ensures end >= 0 ==> k == if end < len then end else len
    ensures end < 0 ==> k == if len + end > 0 then len + end else 0
  {
    if end < 0 then (if len + end > 0 then len + end else 0)
    else if end < len then end else len
  }

  datatype WinnerReply = NoSubmissions | Winners(list: Repo)

  /** `!winner [n]` once the admin check has passed. */
  function SelectWinners(repo: Repo, parsed: Option<int>): (r: WinnerReply)
    ensures r.NoSubmissions? <==> |repo| == 0
    ensures r.Winners? ==> |r.list| <= |repo| && r.list == SortByVotes(repo)[..|r.list|]
    ensures r.Winners? && WinnerCount(parsed) > 0 ==>
      |r.list| == if WinnerCount(parsed) < |repo| then WinnerCount(parsed) else |repo|
    ensures r.Winners? && WinnerCount(parsed) < 0 ==>
      |r.list| == if |repo| + WinnerCount(parsed) > 0 then |repo| + WinnerCount(parsed) else 0
    ensures r.Winners? && parsed.None? ==> |r.list| == 1
  {
    if |repo| == 0 then NoSubmissions
    else
      var sorted := SortByVotes(repo);
      Winners(sorted[..SliceEnd(|sorted|, WinnerCount(parsed))])
  }

  /** Every winner has at least as many votes as every entry ranked below the winners. */
  lemma WinnersLeadTheRest(repo: Repo, parsed: Option<int>)
    requires SelectWinners(repo, parsed).Winners?
    ensures var w := SelectWinners(repo, parsed).list;
      forall i, j :: 0 <= i < |w| <= j < |repo| ==> w[i].votes >= SortByVotes(repo)[j].votes
  {
  }

  /** The first winner has the most votes of all entries. */
  lemma FirstWinnerLeads(repo: Repo, parsed: Option<int>)
    requires SelectWinners(repo, parsed).Winners?
    ensures var w := SelectWinners(repo, parsed).list;
      |w| > 0 ==> forall y :: y in repo ==> w[0].votes >= y.votes
  {
    var sorted := SortByVotes(repo);
    var w := SelectWinners(repo, parsed).list;
    if |w| > 0 {
      forall y | y in repo
        ensures w[0].votes >= y.votes
      {
        assert y in multiset(sorted);
        HeadIsMax(sorted, y);
      }
    }
  }

  /** Ties among the winners go to the lower id when the list is in id order. */
  lemma WinnersTiesById(repo: Repo, parsed: Option<int>)
    requires IdsIncreasing(repo)
    requires SelectWinners(repo, parsed).Winners?
    ensures TiesByAscendingId(SelectWinners(repo, parsed).list)
  {
    SortByVotesTiesById(repo);
  }

  // --------------------------------------------------------- vote lookup

  /** Index of the first entry with id `id` (`submissions.find`). */
  function IndexOfId(repo: Repo, id: int): (r: Option<nat>)
    ensures r.Some? ==> r.value < |repo| && repo[r.value].id == id
    ensures r.Some? ==> forall j :: 0 <= j < r.value ==> repo[j].id != id
    ensures r.None? <==> forall j :: 0 <= j < |repo| ==> repo[j].id != id
  {
    if |repo| == 0 then None
    else if repo[0].id == id then Some(0)
    else
      match IndexOfId(repo[1..], id)
      case None => None
      case Some(i) => Some(i + 1)
  }

  datatype VotesReply = Usage | NoSuchId(id: int) | VoteCount(id: int, votes: int)

  /** `!votes <id>`: the stored count of the first entry with that id. */
  function VotesOf(repo: Repo, parsed: Option<int>): (r: VotesReply)
    ensures parsed.None? <==> r == Usage
    ensures r.NoSuchId? <==> parsed.Some? && forall j :: 0 <= j < |repo| ==> repo[j].id != parsed.value
    ensures r.VoteCount? ==>
      && parsed.Some? && r.id == parsed.value
      && exists i :: 0 <= i < |repo| && repo[i].id == parsed.value && repo[i].votes == r.votes
                     && forall j :: 0 <= j < i ==> repo[j].id != parsed.value
  {
    match parsed
    case None => Usage
    case Some(id) =>
      match IndexOfId(repo, id)
      case None => NoSuchId(id)
      case Some(i) => VoteCount(id, repo[i].votes)
  }

  /** In a list with ids 1..n, `!votes k` answers with the k-th entry's votes, and is not found outside 1..n. */
  lemma VotesOfWellFormed(repo: Repo, id: int)
    requires SequentialIds(repo)
    ensures 1 <= id <= |repo| ==> VotesOf(repo, Some(id)) == VoteCount(id, repo[id - 1].votes)
    ensures !(1 <= id <= |repo|) ==> VotesOf(repo, Some(id)) == NoSuchId(id)
  {
  }
}
