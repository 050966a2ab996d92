/** Values of the review document service: the blocks a client submits, the
    blocks a review stores, the errors the service raises, and the discussion
    and post rows it writes. */
module ReviewTypes {

  datatype Option<+T> = None | Some(value: T)

  datatype Result<+R, +E> = Success(value: R) | Failure(error: E)

  /** Longest paragraph text, in Unicode code points (what `mb_strlen` counts). */
  const BlockTextLengthLimit: nat := 750

  /** The discussion type of an embed that can disqualify the beatmapset or reset its nominations. */
  const ProblemType: string := "problem"

  /** The message type of a review's own discussion. */
  const ReviewType: string := "review"

  /** One block of a submitted document. `Other` is a block whose `type` is set
      but is neither `embed` nor `paragraph`; `NoType` is a block without a
      `type`. A `text` of `None` is a text that is absent or not a string. */
  datatype Block =
    | Paragraph(text: Option<string>)
    | Embed(discussionType: string, text: Option<string>, beatmapId: Option<int>,
            timestamp: Option<int>, discussionId: Option<int>)
    | Other(tag: string, text: Option<string>)
    | NoType

  /** One block of a stored review: a paragraph keeps its text, an embed keeps
      only the id of its discussion. */
  datatype OutBlock = OutParagraph(text: string) | OutEmbed(discussionId: int)

  datatype Error =
    | InvalidDocument
    | InvalidBlockType
    | MissingText
    | BlockTooLarge(limit: nat)
    | MinimumIssues(minimum: int)
    | TooManyBlocks(maximum: int)
    | ExternalReferences
    | ArtifactNotFound

  /** A post's message: the text of an embed, or the review document that is
      stored JSON-encoded. */
  datatype Message = Text(body: string) | Document(blocks: seq<OutBlock>)

  /** A `beatmap_discussions` row. `parentId` is the review an embed belongs to. */
  datatype Discussion = Discussion(
    beatmapsetId: int,
    userId: int,
    resolved: bool,
    messageType: string,
    timestamp: Option<int>,
    beatmapId: Option<int>,
    parentId: Option<int>)

  /** A `beatmap_discussion_posts` row. */
  datatype Post = Post(discussionId: int, userId: int, message: Message, lastEditorId: Option<int>)

  /** The rows the service reads and writes, with the next auto-increment id of each table. */
  datatype Store = Store(
    discussions: map<int, Discussion>,
    posts: map<int, Post>,
    nextDiscussionId: int,
    nextPostId: int)

  /** Every stored id lies below its table's next id, so a new row never overwrites one. */
  ghost predicate ValidStore(s: Store)
  {
    && (forall k | k in s.discussions :: k < s.nextDiscussionId)
    && (forall p | p in s.posts :: p < s.nextPostId)
  }

  /** What the beatmapset and the permission checks answer for the acting user. */
  datatype Gate = Gate(
    isPending: bool,
    hasNominations: bool,
    canResetNominations: bool,
    canDisqualify: bool)

  /** The single beatmapset transition a new review triggers, with the problem discussion that caused it. */
  datatype SideEffect = NoEffect | NominationReset(problemId: int) | Disqualify(problemId: int)

  /** A created review: its discussion, that discussion's starting post, and the side effect. */
  datatype Created = Created(reviewId: int, reviewPostId: int, effect: SideEffect)
}
