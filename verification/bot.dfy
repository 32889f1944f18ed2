/**
 * The file-backed bot as a state machine: its stored submissions list and
 * manual status, driven one event at a time by direct messages and the
 * prefix commands `!tally`, `!reset`, `!close` and `!open`.
 */
module Bot {
  import opened Wrappers
  import opened Submissions
  import opened Voting

  const AdminId: string := "103524746192248832"
  const VoteEmojiId: string := "1256552383631331449"

  /** Only the vote emoji may stay on a card. */
  predicate IsAllowedReaction(emojiId: string) {
    emojiId == VoteEmojiId
  }

  /** A user's reaction on a card in the submission channel is removed unless it is the vote emoji. */
  function ShouldStripReaction(userIsBot: bool, inSubmissionChannel: bool, emojiId: string): (strip: bool)
    ensures strip <==> !userIsBot && inSubmissionChannel && !IsAllowedReaction(emojiId)
    ensures IsAllowedReaction(emojiId) ==> !strip
  {
    if userIsBot || !inSubmissionChannel then false
    else emojiId != VoteEmojiId
  }

  // ------------------------------------------------------------ dispatch

  datatype Command = TallyCommand | WinnerCommand | VotesCommand | ResetCommand | CloseCommand | OpenCommand

  function Prefix(c: Command): string {
    match c
    case TallyCommand => "!tally"
    case WinnerCommand => "!winner"
    case VotesCommand => "!votes"
    case ResetCommand => "!reset"
    case CloseCommand => "!close"
    case OpenCommand => "!open"
  }

  /** Each listener acts on messages that start with its prefix; no message starts with two prefixes. */
  lemma PrefixesExclusive(content: string, c1: Command, c2: Command)
    requires StartsWith(content, Prefix(c1)) && StartsWith(content, Prefix(c2))
    ensures c1 == c2
  {
    assert content[1] == Prefix(c1)[1];
    assert content[1] == Prefix(c2)[1];
  }

  /** The command whose listener acts on a message with this text, if any. */
  function CommandOf(content: string): (r: Option<Command>)
    ensures r.Some? ==> StartsWith(content, Prefix(r.value))
    ensures r.Some? ==> forall c :: StartsWith(content, Prefix(c)) ==> c == r.value
    ensures r.None? <==> forall c :: !StartsWith(content, Prefix(c))
  {
    var r :=
      if StartsWith(content, "!tally") then Some(TallyCommand)
      else if StartsWith(content, "!winner") then Some(WinnerCommand)
      else if StartsWith(content, "!votes") then Some(VotesCommand)
      else if StartsWith(content, "!reset") then Some(ResetCommand)
      else if StartsWith(content, "!close") then Some(CloseCommand)
      else if StartsWith(content, "!open") then Some(OpenCommand)
      else None;
    assert r.Some? ==> forall c :: StartsWith(content, Prefix(c)) ==> c == r.value by {
      if r.Some? {
        forall c | StartsWith(content, Prefix(c))
          ensures c == r.value
        {
          PrefixesExclusive(content, c, r.value);
        }
      }
    }
    r
  }

  /** The admin-gated commands act only for the configured admin and never for bots. */
  predicate Authorized(authorId: string, authorIsBot: bool) {
    !authorIsBot && authorId == AdminId
  }

  // --------------------------------------------------------------- state

  datatype State = State(repo: Repo, status: Status)

  /** Startup: the stored list and the loaded status (open when no status file exists). */
  function Init(repo: Repo, storedStatus: Option<Status>): (s: State)
    ensures s.repo == repo
    ensures s.status == LoadStatus(storedStatus)
    ensures storedStatus.None? ==> s.status.open
    ensures storedStatus.Some? ==> s.status == storedStatus.value
  {
    State(repo, LoadStatus(storedStatus))
  }

  datatype Event =
    | DirectMessage(m: Dm, board: Board)
    | TallyEvent(authorIsBot: bool, cards: Cards)
    | ResetEvent(authorId: string, authorIsBot: bool)
    | CloseEvent(authorId: string, authorIsBot: bool)
    | OpenEvent(authorId: string, authorIsBot: bool)

  /** One event, handled to completion before the next. */
  function Step(s: State, e: Event): (t: State)
    ensures e.DirectMessage? ==> t.status == s.status
    ensures e.DirectMessage? && !s.status.open ==> t == s
    ensures e.DirectMessage? ==> t.repo == HandleDm(s.repo, s.status, e.m, e.board).repo
    ensures e.TallyEvent? ==> t.status == s.status && |t.repo| <= |s.repo|
    ensures e.TallyEvent? && e.authorIsBot ==> t == s
    ensures e.TallyEvent? && !e.authorIsBot ==> t.repo == Tally(s.repo, e.cards)
    ensures e.ResetEvent? ==> t.status == s.status
    ensures e.ResetEvent? ==> (if Authorized(e.authorId, e.authorIsBot) then t.repo == [] else t == s)
    ensures e.CloseEvent? ==> t.repo == s.repo
    ensures e.CloseEvent? ==> (if Authorized(e.authorId, e.authorIsBot) then !t.status.open else t == s)
    ensures e.OpenEvent? ==> t.repo == s.repo
    ensures e.OpenEvent? ==> (if Authorized(e.authorId, e.authorIsBot) then t.status.open else t == s)
  {
    match e
    case DirectMessage(m, board) => s.(repo := HandleDm(s.repo, s.status, m, board).repo)
    case TallyEvent(bot, cards) => if bot then s else s.(repo := Tally(s.repo, cards))
    case ResetEvent(a, bot) => if Authorized(a, bot) then s.(repo := []) else s
    case CloseEvent(a, bot) => if Authorized(a, bot) then s.(status := Status(false)) else s
    case OpenEvent(a, bot) => if Authorized(a, bot) then s.(status := Status(true)) else s
  }

  function Run(s: State, es: seq<Event>): State
    decreases |es|
  {
    if |es| == 0 then s else Run(Step(s, es[0]), es[1..])
  }

  /**
   * The state-changing event a command message produces: `!tally` for any
   * author, `!reset`, `!close` and `!open` subject to the admin gate inside
   * `Step`. `!winner`, `!votes` and other text change no state.
   */
  function CommandEvent(content: string, authorId: string, authorIsBot: bool, cards: Cards): (e: Option<Event>)
    ensures e.Some? ==> CommandOf(content).Some?
    ensures CommandOf(content) == Some(TallyCommand) ==> e == Some(TallyEvent(authorIsBot, cards))
    ensures CommandOf(content) == Some(ResetCommand) ==> e == Some(ResetEvent(authorId, authorIsBot))
    ensures CommandOf(content) == Some(CloseCommand) ==> e == Some(CloseEvent(authorId, authorIsBot))
    ensures CommandOf(content) == Some(OpenCommand) ==> e == Some(OpenEvent(authorId, authorIsBot))
    ensures CommandOf(content) == Some(WinnerCommand) || CommandOf(content) == Some(VotesCommand) ==> e.None?
  {
    match CommandOf(content)
    case None => None
    case Some(c) =>
      match c
      case TallyCommand => Some(TallyEvent(authorIsBot, cards))
      case ResetCommand => Some(ResetEvent(authorId, authorIsBot))
      case CloseCommand => Some(CloseEvent(authorId, authorIsBot))
      case OpenCommand => Some(OpenEvent(authorId, authorIsBot))
      case WinnerCommand => None
      case VotesCommand => None
  }

  /** `!winner [n]`: admin only; the reply when it is allowed. */
  function WinnerCommandReply(s: State, authorId: string, authorIsBot: bool, parsed: Option<int>): (r: Option<WinnerReply>)
    ensures r.None? <==> !Authorized(authorId, authorIsBot)
    ensures r.Some? ==> r.value == SelectWinners(s.repo, parsed)
  {
    if Authorized(authorId, authorIsBot) then Some(SelectWinners(s.repo, parsed)) else None
  }

  // -------------------------------------------------------------- traces

  /** Events that never run the tally recompute. */
  predicate NoTally(es: seq<Event>) {
    forall k :: 0 <= k < |es| ==> !es[k].TallyEvent?
  }

  /**
   * Without a tally in between, submissions, resets and status changes keep
   * one entry per user and ids 1..n, so ids are never duplicated.
   */
  lemma {:induction false} NoTallyKeepsWellFormed(s: State, es: seq<Event>)
    requires WellFormed(s.repo)
    requires NoTally(es)
    ensures WellFormed(Run(s, es).repo)
    ensures UniqueIds(Run(s, es).repo)
    decreases |es|
  {
    if |es| > 0 {
      if es[0].DirectMessage? {
        HandleDmPreservesWellFormed(s.repo, s.status, es[0].m, es[0].board);
      }
      assert NoTally(es[1..]) by {
        forall k | 0 <= k < |es[1..]|
          ensures !es[1..][k].TallyEvent?
        {
          assert es[1..][k] == es[k + 1];
        }
      }
      NoTallyKeepsWellFormed(Step(s, es[0]), es[1..]);
    } else {
      WellFormedHasUniqueIds(s.repo);
    }
  }

  /**
   * Over every run, tallies included, no user ever holds two entries: DMs
   * only add an entry for a user without one, and the tally and reset only
   * remove entries.
   */
  lemma {:induction false} RunKeepsUniqueUsers(s: State, es: seq<Event>)
    requires UniqueUsers(s.repo)
    ensures UniqueUsers(Run(s, es).repo)
    decreases |es|
  {
    if |es| > 0 {
      match es[0] {
        case DirectMessage(m, board) => HandleDmPreservesUniqueUsers(s.repo, s.status, m, board);
        case TallyEvent(_, cards) => TallyPreservesUniqueUsers(s.repo, cards);
        case ResetEvent(_, _) =>
        case CloseEvent(_, _) =>
        case OpenEvent(_, _) =>
      }
      RunKeepsUniqueUsers(Step(s, es[0]), es[1..]);
    }
  }

  /** After an admin reset, the next created entry gets id 1. */
  lemma ResetThenSubmitStartsAtOne(s: State, admin: string, m: Dm, board: Board)
    requires Authorized(admin, false)
    ensures var t := Step(Step(s, ResetEvent(admin, false)), DirectMessage(m, board));
      && |t.repo| <= 1
      && (|t.repo| == 1 ==> t.repo[0].id == 1 && t.repo[0].votes == 0 && t.repo[0].userId == m.authorId)
  {
  }

  /**
   * The tally can break id uniqueness: it drops an entry whose card fetch
   * fails, and the next new entry takes id `length + 1`, an id still in use.
   */
  lemma TallyThenSubmitDuplicatesId()
    ensures
      var s := State([Submission(1, "u1", "a.png", "m1", 0), Submission(2, "u2", "b.png", "m2", 0)], Status(true));
      var t := Run(s, [TallyEvent(false, map["m2" := Some(1)]),
                       DirectMessage(Dm(true, "u3", false, None, [Attachment("c.png", Some("image/png"))]),
                                     Board(true, Some("m3")))]);
      && WellFormed(s.repo)
      && |t.repo| == 2
      && t.repo[0].id == 2 && t.repo[1].id == 2
      && !UniqueIds(t.repo)
  {
  }
}
