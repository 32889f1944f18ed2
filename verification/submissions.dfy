/**
 * The contest entries of the file-backed bot and its direct-message
 * submission handler: image resolution, then either an in-place update of
 * the sender's existing entry or the append of a new one.
 */
module Submissions {
  import opened Wrappers

  /** One stored entry, as pushed onto the submissions list. */
  datatype Submission = Submission(id: int, userId: string, imageUrl: string, messageId: string, votes: int)

  /** The submissions list in its stored order. */
  type Repo = seq<Submission>

  /** A message attachment; `contentType` is None when the platform reports none. */
  datatype Attachment = Attachment(url: string, contentType: Option<string>)

  /** The manual open/closed override kept beside the submissions. */
  datatype Status = Status(open: bool)

  predicate StartsWith(s: string, prefix: string) {
    |prefix| <= |s| && s[..|prefix|] == prefix
  }

  predicate EndsWith(s: string, suffix: string) {
    |suffix| <= |s| && s[|s| - |suffix|..] == suffix
  }

  /** A missing status file is created as open; otherwise the stored value is used. */
  function LoadStatus(stored: Option<Status>): (s: Status)
    ensures stored.None? ==> s.open
    ensures stored.Some? ==> s == stored.value
  {
    stored.GetOr(Status(true))
  }

  // ---------------------------------------------------------------- images

  /** The test `/\.(jpeg|jpg|png|gif)$/` applied to a matched imgur link. */
  predicate HasImageExtension(url: string) {
    EndsWith(url, ".jpeg") || EndsWith(url, ".jpg") || EndsWith(url, ".png") || EndsWith(url, ".gif")
  }

  lemma JpegSuffixIsImageExtension(url: string)
    ensures HasImageExtension(url + ".jpeg")
  {
  }

  /** An imgur link lacking a recognised image extension gets ".jpeg" appended. */
  function WithImageSuffix(url: string): (r: string)
    ensures HasImageExtension(r)
    ensures |url| <= |r| <= |url| + 5 && r[..|url|] == url
    ensures r == url <==> HasImageExtension(url)
    ensures !HasImageExtension(url) ==> r == url + ".jpeg"
    ensures r != ""
  {
    if HasImageExtension(url) then url
    else
      JpegSuffixIsImageExtension(url);
      url + ".jpeg"
  }

  /** Applying the suffix rule a second time changes nothing. */
  lemma WithImageSuffixIdempotent(url: string)
    ensures WithImageSuffix(WithImageSuffix(url)) == WithImageSuffix(url)
  {
  }

  /** `a.contentType?.startsWith('image')`: an absent content type is not an image. */
  predicate IsImageAttachment(a: Attachment) {
    a.contentType.Some? && StartsWith(a.contentType.value, "image")
  }

  /** Index of the first image attachment at or after `k`. */
  function FirstImageFrom(atts: seq<Attachment>, k: nat): (r: Option<nat>)
    requires k <= |atts|
    ensures r.Some? ==> k <= r.value < |atts| && IsImageAttachment(atts[r.value])
    ensures r.Some? ==> forall j :: k <= j < r.value ==> !IsImageAttachment(atts[j])
    ensures r.None? <==> forall j :: k <= j < |atts| ==> !IsImageAttachment(atts[j])
    decreases |atts| - k
  {
    if k == |atts| then None
    else if IsImageAttachment(atts[k]) then Some(k)
    else FirstImageFrom(atts, k + 1)
  }

  /** `attachments.find(...)`: the first attachment whose content type starts with "image". */
  function FirstImage(atts: seq<Attachment>): (r: Option<nat>)
    ensures r.Some? ==> r.value < |atts| && IsImageAttachment(atts[r.value])
    ensures r.Some? ==> forall j :: 0 <= j < r.value ==> !IsImageAttachment(atts[j])
    ensures r.None? <==> forall j :: 0 <= j < |atts| ==> !IsImageAttachment(atts[j])
  {
    FirstImageFrom(atts, 0)
  }

  /**
   * The image URL a direct message resolves to. `imgur` is the first match of
   * the imgur pattern in the message text, if any. An empty attachment URL is
   * falsy in the source and so counts as no image.
   */
  function ResolveImage(imgur: Option<string>, atts: seq<Attachment>): (r: Option<string>)
    ensures imgur.Some? ==> r == Some(WithImageSuffix(imgur.value))
    ensures imgur.None? && r.Some? ==>
      exists i :: 0 <= i < |atts| && IsImageAttachment(atts[i]) && atts[i].url == r.value
                  && forall j :: 0 <= j < i ==> !IsImageAttachment(atts[j])
    ensures imgur.None? && (forall j :: 0 <= j < |atts| ==> !IsImageAttachment(atts[j])) ==> r.None?
    ensures imgur.None? ==> (r.Some? <==> FirstImage(atts).Some? && atts[FirstImage(atts).value].url != "")
    ensures imgur.None? && r.Some? ==> r.value == atts[FirstImage(atts).value].url
    ensures r.Some? ==> r.value != ""
  {
    match imgur
    case Some(m) => Some(WithImageSuffix(m))
    case None =>
      match FirstImage(atts)
      case None => None
      case Some(i) => if atts[i].url == "" then None else Some(atts[i].url)
  }

  // ---------------------------------------------------------- the upsert

  /** Index of the first entry owned by `user` (`submissions.find`). */
  function IndexOfUser(repo: Repo, user: string): (r: Option<nat>)
    ensures r.Some? ==> r.value < |repo| && repo[r.value].userId == user
    ensures r.Some? ==> forall j :: 0 <= j < r.value ==> repo[j].userId != user
    ensures r.None? <==> forall j :: 0 <= j < |repo| ==> repo[j].userId != user
  {
    if |repo| == 0 then None
    else if repo[0].userId == user then Some(0)
    else
      match IndexOfUser(repo[1..], user)
      case None => None
      case Some(i) => Some(i + 1)
  }

  /** A direct message as the handler sees it; the text is reduced to its imgur match. */
  datatype Dm = Dm(isDirect: bool, authorId: string, authorIsBot: bool,
                   imgurMatch: Option<string>, attachments: seq<Attachment>)

  /**
   * What the board did: whether editing the existing card succeeded, and the
   * id of a newly posted and seeded card (None when posting or seeding failed).
   */
  datatype Board = Board(editOk: bool, posted: Option<string>)

  datatype DmOutcome =
    | Ignored        // not a direct message, or sent by a bot
    | StatusClosed   // manual status is closed
    | NoImage        // no imgur link and no image attachment
    | UpdateFailed   // the existing card could not be edited
    | PostFailed     // the new card could not be posted or seeded
    | Updated(id: int)
    | Created(id: int)

  datatype Handled = Handled(outcome: DmOutcome, repo: Repo)

  /** Every entry is owned by a different user. */
  predicate UniqueUsers(repo: Repo) {
    forall i, j :: 0 <= i < j < |repo| ==> repo[i].userId != repo[j].userId
  }

  /** The i-th entry carries id i + 1, as creation by `length + 1` produces. */
  predicate SequentialIds(repo: Repo) {
    forall i :: 0 <= i < |repo| ==> repo[i].id == i + 1
  }

  predicate UniqueIds(repo: Repo) {
    forall i, j :: 0 <= i < j < |repo| ==> repo[i].id != repo[j].id
  }

  predicate WellFormed(repo: Repo) {
    UniqueUsers(repo) && SequentialIds(repo)
  }

  lemma WellFormedHasUniqueIds(repo: Repo)
    requires WellFormed(repo)
    ensures UniqueIds(repo)
  {
  }

  /** The entry at `i` with only its image URL replaced. */
  function UpdateImage(repo: Repo, i: nat, url: string): (r: Repo)
    requires i < |repo|
    ensures |r| == |repo|
    ensures r[i].imageUrl == url
    ensures r[i].id == repo[i].id && r[i].userId == repo[i].userId
    ensures r[i].messageId == repo[i].messageId && r[i].votes == repo[i].votes
    ensures forall j :: 0 <= j < |repo| && j != i ==> r[j] == repo[j]
  {
    repo[i := repo[i].(imageUrl := url)]
  }

  /** A fresh entry appended with id `length + 1` and no votes. */
  function AppendNew(repo: Repo, user: string, url: string, messageId: string): (r: Repo)
    ensures |r| == |repo| + 1 && r[..|repo|] == repo
    ensures r[|repo|].id == |repo| + 1 && r[|repo|].votes == 0
    ensures r[|repo|].userId == user && r[|repo|].imageUrl == url && r[|repo|].messageId == messageId
  {
    repo + [Submission(|repo| + 1, user, url, messageId, 0)]
  }

  /** The direct-message listener of the file-backed bot. */
  function HandleDm(repo: Repo, status: Status, m: Dm, board: Board): (h: Handled)
    // Ignored and rejected messages write nothing.
    ensures !m.isDirect || m.authorIsBot ==> h == Handled(Ignored, repo)
    ensures m.isDirect && !m.authorIsBot && !status.open ==> h == Handled(StatusClosed, repo)
    ensures !(h.outcome.Updated? || h.outcome.Created?) ==> h.repo == repo
    ensures h.outcome == NoImage <==>
      m.isDirect && !m.authorIsBot && status.open && ResolveImage(m.imgurMatch, m.attachments).None?
    // A resubmission changes only the sender's image URL, and only if the card edit succeeded.
    ensures h.outcome.Updated? ==>
      var i := IndexOfUser(repo, m.authorId);
      && board.editOk && status.open && i.Some?
      && h.outcome.id == repo[i.value].id
      && h.repo == UpdateImage(repo, i.value, ResolveImage(m.imgurMatch, m.attachments).value)
    // A first submission appends exactly one fresh entry.
    ensures h.outcome.Created? ==>
      && status.open && IndexOfUser(repo, m.authorId).None? && board.posted.Some?
      && h.outcome.id == |repo| + 1
      && h.repo == AppendNew(repo, m.authorId, ResolveImage(m.imgurMatch, m.attachments).value, board.posted.value)
    // Every accepted message with a resolvable image is stored unless the board failed.
    ensures m.isDirect && !m.authorIsBot && status.open && ResolveImage(m.imgurMatch, m.attachments).Some? ==>
      (IndexOfUser(repo, m.authorId).Some? ==> (h.outcome.Updated? <==> board.editOk)) &&
      (IndexOfUser(repo, m.authorId).None? ==> (h.outcome.Created? <==> board.posted.Some?))
  {
    if !m.isDirect || m.authorIsBot then Handled(Ignored, repo)
    else if !status.open then Handled(StatusClosed, repo)
    else
      match ResolveImage(m.imgurMatch, m.attachments)
      case None => Handled(NoImage, repo)
      case Some(url) =>
        match IndexOfUser(repo, m.authorId)
        case Some(i) =>
          if board.editOk then Handled(Updated(repo[i].id), UpdateImage(repo, i, url))
          else Handled(UpdateFailed, repo)
        case None =>
          match board.posted
          case None => Handled(PostFailed, repo)
          case Some(msgId) => Handled(Created(|repo| + 1), AppendNew(repo, m.authorId, url, msgId))
  }

  /** The direct-message handler keeps one entry per user and ids 1..n. */
  lemma HandleDmPreservesWellFormed(repo: Repo, status: Status, m: Dm, board: Board)
    requires WellFormed(repo)
    ensures WellFormed(HandleDm(repo, status, m, board).repo)
  {
  }

  /** The direct-message handler never gives a user a second entry, whatever the ids. */
  lemma HandleDmPreservesUniqueUsers(repo: Repo, status: Status, m: Dm, board: Board)
    requires UniqueUsers(repo)
    ensures UniqueUsers(HandleDm(repo, status, m, board).repo)
  {
  }

  /** A second accepted message from the same user keeps the entry's id and the list length. */
  lemma ResubmissionKeepsIdentity(repo: Repo, status: Status, m: Dm, board: Board, i: nat)
    requires i < |repo| && repo[i].userId == m.authorId && UniqueUsers(repo)
    requires m.isDirect && !m.authorIsBot && status.open && board.editOk
    requires ResolveImage(m.imgurMatch, m.attachments).Some?
    ensures var h := HandleDm(repo, status, m, board);
      && h.outcome == Updated(repo[i].id)
      && |h.repo| == |repo|
      && h.repo[i] == repo[i].(imageUrl := ResolveImage(m.imgurMatch, m.attachments).value)
      && forall j :: 0 <= j < |repo| && j != i ==> h.repo[j] == repo[j]
  {
  }
}
