/**
 * The PostgreSQL-backed bot variant: a fixed submission deadline seven days
 * after launch gates direct messages, and each accepted message replaces the
 * sender's stored outfit record.
 */
module PgBot {
  import Submissions

  const DayMs: int := 24 * 60 * 60 * 1000

  /** Launch plus seven days, in milliseconds. */
  function SubmissionDeadline(launch: int): (d: int)
    ensures d == launch + 604_800_000
  {
    launch + 7 * DayMs
  }

  /** Launch plus ten days, in milliseconds; declared but never consulted by the bot. */
  function VotingDeadline(launch: int): (d: int)
    ensures d == launch + 864_000_000
    ensures d > SubmissionDeadline(launch)
    ensures d - SubmissionDeadline(launch) == 3 * 86_400_000
  {
    launch + 10 * DayMs
  }

  /** `now > submissionDeadline`: submissions close strictly after the deadline. */
  predicate SubmissionsClosed(launch: int, now: int) {
    now > SubmissionDeadline(launch)
  }

  /** Once closed, submissions stay closed for every later time. */
  lemma ClosedIsMonotone(launch: int, t: int, t': int)
    requires t <= t'
    ensures SubmissionsClosed(launch, t) ==> SubmissionsClosed(launch, t')
  {
  }

  /** The stored record: author, raw text, attachment URLs and a timestamp. */
  datatype OutfitData = OutfitData(userId: string, content: string, attachments: seq<string>, timestamp: int)

  /** One row per user: later saves for the same user replace earlier ones. */
  type Store = map<string, OutfitData>

  /** `message.attachments.map(a => a.url)`. */
  function AttachmentUrls(atts: seq<Submissions.Attachment>): (r: seq<string>)
    ensures |r| == |atts|
    ensures forall i :: 0 <= i < |atts| ==> r[i] == atts[i].url
  {
    if |atts| == 0 then []
    else [atts[0].url] + AttachmentUrls(atts[1..])
  }

  /** The upsert keyed by user id. */
  function SaveSubmission(store: Store, userId: string, data: OutfitData): (r: Store)
    ensures userId in r && r[userId] == data
    ensures r.Keys == store.Keys + {userId}
    ensures forall u :: u in store && u != userId ==> r[u] == store[u]
  {
    store[userId := data]
  }

  datatype PgDm = PgDm(isDirect: bool, authorId: string, authorIsBot: bool, content: string, attachments: seq<Submissions.Attachment>)

  datatype PgOutcome = Ignored | Closed | Received

  /**
   * The direct-message listener. `now` is the clock at the deadline check and
   * `stamp` the clock read again for the record's timestamp.
   */
  function HandlePgDm(store: Store, launch: int, now: int, stamp: int, m: PgDm): (h: (PgOutcome, Store))
    ensures !m.isDirect || m.authorIsBot ==> h == (Ignored, store)
    ensures m.isDirect && !m.authorIsBot ==> (h.0 == Closed <==> SubmissionsClosed(launch, now))
    ensures m.isDirect && !m.authorIsBot && !SubmissionsClosed(launch, now) ==> h.0 == Received
    ensures h.0 != Received ==> h.1 == store
    ensures h.0 == Received ==>
      && m.isDirect && !m.authorIsBot && now <= SubmissionDeadline(launch)
      && m.authorId in h.1
      && h.1[m.authorId].userId == m.authorId
      && h.1[m.authorId].content == m.content
      && h.1[m.authorId].timestamp == stamp
      && |h.1[m.authorId].attachments| == |m.attachments|
      && (forall i :: 0 <= i < |m.attachments| ==> h.1[m.authorId].attachments[i] == m.attachments[i].url)
      && h.1.Keys == store.Keys + {m.authorId}
      && (forall u :: u in store && u != m.authorId ==> h.1[u] == store[u])
  {
    if !m.isDirect || m.authorIsBot then (Ignored, store)
    else if now > SubmissionDeadline(launch) then (Closed, store)
    else
      var data := OutfitData(m.authorId, m.content, AttachmentUrls(m.attachments), stamp);
      (Received, SaveSubmission(store, m.authorId, data))
  }

  /** At exactly the deadline a message is still accepted; one millisecond later it is not. */
  lemma DeadlineBoundary(store: Store, launch: int, stamp: int, m: PgDm)
    requires m.isDirect && !m.authorIsBot
    ensures HandlePgDm(store, launch, SubmissionDeadline(launch), stamp, m).0 == Received
    ensures HandlePgDm(store, launch, SubmissionDeadline(launch) + 1, stamp, m).0 == Closed
  {
  }

  /** A message rejected at time t is rejected at every later time. */
  lemma RejectionIsMonotone(store: Store, launch: int, t: int, t': int, stamp: int, m: PgDm)
    requires t <= t'
    requires HandlePgDm(store, launch, t, stamp, m).0 == Closed
    ensures HandlePgDm(store, launch, t', stamp, m).0 == Closed
  {
    ClosedIsMonotone(launch, t, t');
  }

  /** However many messages a user sends, the store holds one record for them: the last accepted one. */
  lemma ResubmissionReplaces(store: Store, u: string, d1: OutfitData, d2: OutfitData)
    ensures SaveSubmission(SaveSubmission(store, u, d1), u, d2) == SaveSubmission(store, u, d2)
  {
  }
}
