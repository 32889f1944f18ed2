# Outfit contest bot — a Dafny model of its bookkeeping

The bot runs a timed outfit contest on a chat server. Participants send one
image each by direct message; the bot posts every entry as a card in a
submission channel and seeds it with the vote emoji; community members vote by
adding that emoji; any human user may ask for a tally, and the administrator picks
winners, resets the list and opens or closes submissions. There are two variants: `index.js` keeps its list
in a JSON file and has the full command set; `index.pg.js` stores one record per
user in PostgreSQL and closes submissions at a fixed deadline seven days after
launch.

This project models that bookkeeping as pure functions over immutable values,
with the chat platform, the files, the database and the clock turned into plain
inputs:

- `wrappers.dfy` — `Option`.
- `submissions.dfy` (module `Submissions`) — the entry record, the manual status,
  image resolution (imgur link first, with the `.jpeg` suffix rule; otherwise the
  first image attachment) and the direct-message upsert: update the sender's entry
  in place, or append a new one with id `length + 1` and 0 votes.
- `ranking.dfy` (module `Ranking`) — the stable sort by votes, highest first,
  proved to be a sorted permutation that keeps ties in list order, and proved to
  be the only such order.
- `voting.dfy` (module `Voting`) — the `!tally` recompute, `!winner` selection
  with `parseInt(arg) || 1` and `slice(0, n)` semantics, and the `!votes` lookup.
- `bot.dfy` (module `Bot`) — the admin gate, the reaction filter, the command
  prefixes, the event-by-event state machine and the trace lemmas.
- `pgbot.dfy` (module `PgBot`) — the deadlines, the `now > submissionDeadline`
  gate, the stored record and the per-user upsert.

External effects are inputs. The outcome of editing an existing card is a
`bool`; posting a new card yields `Option<string>`, the new card's message id,
or None when posting or seeding the reaction fails. The board seen by the tally
is a map from message id to `Option<int>`: None means the card has no vote
reaction; an absent message id means the fetch failed. The imgur pattern match
is an `Option<string>`; `parseInt` results are `Option<int>` with None for NaN;
clock readings are integer milliseconds.

Two hazards of the file-backed bot are modelled as written, not fixed. The
tally saves only entries whose card fetch succeeded. New ids are
`length + 1`. `Bot.NoTallyKeepsWellFormed` proves ids stay unique (in fact
1..n) over any run of submissions, resets and status commands.
`Bot.RunKeepsUniqueUsers` proves that no user ever holds two entries, over
every run, tallies included.
`Bot.TallyThenSubmitDuplicatesId` exhibits a tally followed by a submission
that leaves two entries with id 2.

Behaviours of the code that the model keeps as written:
- A failed lookup drops the entry from the saved list. It does not keep its
  previous count. `Voting.RefreshAll` is the keep-everything refresh, and
  `Voting.TallyEmbedsInRefreshAll` relates the two.
- The corrected vote is `raw - 1`, not floored at 0. A present reaction with
  raw count 0 would give -1. `Voting.TallyVotesNonNegative` shows counts stay
  non-negative when every present reaction has a raw count of at least 1.
- Ties keep their prior list order (stable sort) rather than being broken by
  id. `Ranking.SortByVotesTiesById` shows the two agree whenever list order is
  id order. Submissions keep the list in id order, and so does the tally, since
  it only drops entries (`Voting.TallyKeepsIdOrder`). Only a new submission
  after a tally has dropped entries can break it, by reusing an id.
- The winner count is not clamped to `[1, len]`. NaN or 0 gives 1, a count
  above the length gives everything, and a negative count drops that many
  entries from the end.
- The PostgreSQL variant rejects only when `now > submissionDeadline`, so a
  message at exactly the deadline is accepted. It checks neither the manual
  status nor the presence of an image.
- No countdown scheduler, phase evaluation or duration formatter exists in the
  code. `votingDeadline` is declared but unused.
- `init-db.js` creates the `submissions` table without a unique constraint on
  `user_id`, which the upsert's `ON CONFLICT (user_id)` needs. The model gives
  the intended one-record-per-user semantics as a map.

## Model

| member | source | states |
|---|---|---|
| Submissions.LoadStatus | index.js:43-48 | a missing status file yields an open status; otherwise the stored status is used |
| Submissions.WithImageSuffix | index.js:72-77 | the result always ends in .jpeg/.jpg/.png/.gif; a link that already has an image extension is kept as is, any other link gets exactly ".jpeg" appended |
| Submissions.WithImageSuffixIdempotent | index.js:74-76 | applying the suffix rule twice gives the same link as applying it once |
| Submissions.FirstImage | index.js:79-82 | finds the first attachment whose content type starts with "image"; None exactly when no attachment is an image |
| Submissions.ResolveImage | index.js:68-84 | an imgur match takes precedence; otherwise the URL of the first image attachment is used exactly when that attachment exists and its URL is non-empty; no image resolves when there is neither |
| Submissions.IndexOfUser | index.js:89 | finds the first entry owned by the sender; None exactly when the sender has no entry |
| Submissions.UpdateImage | index.js:97 | an update changes only the image URL of the sender's entry: id, message id, votes, other entries and length unchanged |
| Submissions.AppendNew | index.js:110-126 | a new entry is appended with id old length + 1 and 0 votes, earlier entries untouched |
| Submissions.HandleDm | index.js:62-128 | non-DMs and bot messages are ignored; a closed status or an unresolvable image rejects the DM with the list unchanged; an existing sender's entry is updated only if the card edit succeeds; a new sender gets an appended entry only if the card was posted |
| Submissions.HandleDmPreservesWellFormed | index.js:89-128 | handling a DM keeps at most one entry per user and ids equal to positions 1..n |
| Submissions.HandleDmPreservesUniqueUsers | index.js:89-128 | handling a DM never gives a user a second entry, for any list with distinct owners |
| Submissions.ResubmissionKeepsIdentity | index.js:89-106 | a second accepted image from the same user keeps the entry's id, message id and votes and the list length, changing only its image URL |
| Ranking.SortByVotes | index.js:181 | the ranking is a permutation of its input, of the same length, non-increasing in votes |
| Ranking.SortByVotesStable | index.js:181 | for every vote count, the entries with that count appear in the ranking in their prior list order |
| Ranking.SortByVotesIsUnique | index.js:196 | any order that is non-increasing in votes and keeps ties in list order equals the ranking |
| Ranking.SortByVotesTiesById | index.js:196 | when list order is ascending id order, ties in the ranking are broken by ascending id |
| Voting.CorrectedVotes | index.js:169-170 | the corrected vote is the raw vote-emoji count minus the bot's own seed, or 0 when the reaction is absent |
| Voting.Tally | index.js:164-179 | the saved list keeps exactly the entries whose card fetch succeeded, each with its corrected count, and is never longer than the input; same length exactly when no fetch failed |
| Voting.TallyPreservesUniqueUsers | index.js:164-179 | the tally only removes entries, so owners stay distinct |
| Voting.TallyKeepsIdOrder | index.js:164-179 | the tally only removes entries, so a list in ascending id order stays in ascending id order |
| Voting.TallyVotesNonNegative | index.js:170 | if every present vote reaction has raw count at least 1, every saved count is non-negative |
| Voting.TallyEmbedsInRefreshAll | index.js:164-179 | the saved list is an order-preserving subsequence of refreshing every entry while keeping failures |
| Voting.TallyWithoutFailures | index.js:164-179 | with no failed fetch, the tally refreshes every entry and drops none |
| Voting.TallyCorrectionExample | index.js:169-172 | raw counts 5 and 1 are saved as 4 and 0 votes |
| Voting.TallyDropsFailedExample | index.js:164-179 | an entry whose card fetch fails is missing from the saved list |
| Voting.WinnerCount | index.js:198 | the count `parseInt(arg)` or 1: NaN or 0 becomes 1, any other number is kept |
| Voting.SliceEnd | index.js:200 | the end index of `slice(0, n)`: n clipped to the length, or length + n floored at 0 for negative n |
| Voting.SelectWinners | index.js:193-200 | an empty list is rejected; otherwise the winners are a prefix of the ranking of length min(n, len) for n >= 1, max(len + n, 0) for negative n, and 1 without a number |
| Voting.WinnersLeadTheRest | index.js:196-200 | every winner has at least as many votes as every entry ranked below the winners |
| Voting.FirstWinnerLeads | index.js:196-200 | the first winner has at least as many votes as every entry in the list |
| Voting.WinnersTiesById | index.js:196-200 | whenever ids increase along the list (ids 1..n, or after a tally), tied winners are listed by ascending id |
| Voting.VotesOf | index.js:220-228 | a missing number gives the usage reply; an unknown id gives the not-found reply; otherwise the reply carries the votes of the first entry with that id |
| Voting.VotesOfWellFormed | index.js:221-228 | in a list with ids 1..n, `!votes k` reports the k-th entry's votes for 1 <= k <= n and not-found for any other k |
| Bot.ShouldStripReaction | index.js:141-153 | a human's reaction in the submission channel is removed exactly when it is not the vote emoji |
| Bot.PrefixesExclusive | index.js:159-254 | no message starts with two command prefixes, so at most one command listener acts on it |
| Bot.CommandOf | index.js:159-254 | the command a message triggers is the one whose prefix starts the text; it is unique, and None exactly when no prefix matches |
| Bot.CommandEvent | index.js:159-259 | `!tally` yields a tally event for any author, `!reset`/`!close`/`!open` yield their gated events, and `!winner`/`!votes` change no state |
| Bot.Init | index.js:43-48 | the bot starts from the stored list, with the status read from the status file, or open when no status file exists |
| Bot.Step | index.js:62-259 | a DM applies the submission handler to the list and a human's tally saves the tally result; a DM under a closed status and a bot's tally change nothing; reset, close and open act only for the administrator, and otherwise change nothing |
| Bot.WinnerCommandReply | index.js:189-200 | `!winner` is refused for everyone but the administrator; for the administrator it replies with the winner selection |
| Bot.NoTallyKeepsWellFormed | index.js:110-128 | over any run of DMs, resets and status commands, entries keep distinct owners and ids 1..n, so ids are unique |
| Bot.RunKeepsUniqueUsers | index.js:62-259 | over every run of DMs, tallies, resets and status commands, no user holds two entries |
| Bot.ResetThenSubmitStartsAtOne | index.js:233-239 | after an administrator reset, a following DM leaves at most one entry, and a created entry has id 1 and 0 votes |
| Bot.TallyThenSubmitDuplicatesId | index.js:110-179 | a tally whose fetch fails for entry 1, followed by a new submission, leaves two entries with id 2 |
| PgBot.SubmissionDeadline | index.pg.js:22-23 | the submission deadline is launch + 7·24·60·60·1000 ms |
| PgBot.VotingDeadline | index.pg.js:22-24 | the voting deadline is launch + 10 days in ms, three days after the submission deadline |
| PgBot.ClosedIsMonotone | index.pg.js:59 | once submissions are closed at some time, they are closed at every later time |
| PgBot.AttachmentUrls | index.pg.js:66 | the stored attachment list is the message's attachment URLs, in order and of the same length |
| PgBot.SaveSubmission | index.pg.js:43-47 | after saving, the user has exactly the new record, the key set only gains that user, and other users' records are unchanged |
| PgBot.HandlePgDm | index.pg.js:55-71 | non-DMs and bot messages write nothing; a DM is rejected iff now > submission deadline; any other DM is received and the sender's record holds their id, text, attachment URLs and timestamp, and nothing else changes |
| PgBot.DeadlineBoundary | index.pg.js:58-61 | a DM at exactly the deadline is accepted, one millisecond later it is rejected |
| PgBot.RejectionIsMonotone | index.pg.js:58-61 | a DM rejected at time t is rejected at every later time |
| PgBot.ResubmissionReplaces | index.pg.js:43-47 | saving twice for one user leaves only the second record |

## Left out

- Chat-platform plumbing: the client, listeners, embeds, channel and message fetches, replies, confirmation messages, the winner notifications and the report texts. These are network I/O. Their outcomes that matter enter as inputs: edit success, the posted card's id, and the tally's board map.
- Failure of the submission-channel fetch at index.js:87: it aborts the handler before anything is written, the same as a failed edit or post, so it is covered by those inputs.
- Persistence: the JSON files and the PostgreSQL pool. They become the list and map values held in the state. No SQL is modelled. `loadSubmissions` in index.pg.js is never called.
- The imgur regular expression and `parseInt` string parsing: the match and the parsed number are inputs. Only the precedence rule, the suffix rule and `|| 1` are modelled.
- The ISO formatting of the PostgreSQL record's timestamp: it is kept as the millisecond reading of a second clock call.
- One message reaching several listeners: every listener sees every message, so a DM such as "!tally" also enters the DM handler. The model handles each listener's effect as a separate, consecutive event.
- Concurrency: the async listeners' load-then-save races are not modelled. Events are handled one at a time.
- `init-db.js` (schema creation only) and `deploy-commands.js` (slash-command registration only): no contest logic.
- Countdown scheduling, phase evaluation and duration formatting: the code has none.
- Replies of the read-only commands: the `!tally` report's ranking and the `!votes` and `!winner` replies do not appear in the state. They are modelled by `Ranking.SortByVotes`, `Voting.VotesOf` and `Bot.WinnerCommandReply`.
