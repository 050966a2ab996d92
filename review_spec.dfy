/** The review document service as functions on a `Store` value: the walk
    over the blocks that both operations share, and what `create` and `update`
    compute when they commit or the error they raise. */
module ReviewSpec {
  import opened ReviewTypes

  /** `createPost`: a new discussion (unresolved, without a parent) and its
      first post, under the next free id of each table. */
  function AddDiscussion(s: Store, setId: int, discussionType: string, message: Message,
                         userId: int, beatmapId: Option<int>, timestamp: Option<int>): (r: Added)
    ensures r.store.discussions
         == s.discussions[r.discussionId := Discussion(setId, userId, false, discussionType, timestamp, beatmapId, None)]
    ensures r.store.posts == s.posts[r.postId := Post(r.discussionId, userId, message, None)]
    ensures ValidStore(s) ==> ValidStore(r.store) && r.discussionId !in s.discussions && r.postId !in s.posts
  {
    var id := s.nextDiscussionId;
    var postId := s.nextPostId;
    Added(Store(s.discussions[id := Discussion(setId, userId, false, discussionType, timestamp, beatmapId, None)],
                s.posts[postId := Post(id, userId, message, None)],
                id + 1, postId + 1),
          id, postId)
  }

  datatype Added = Added(store: Store, discussionId: int, postId: int)

  /** `whereIn('id', ids)->update(['parent_id' => review])`. */
  function Relinked(m: map<int, Discussion>, ids: seq<int>, review: int): (r: map<int, Discussion>)
  {
    map k | k in m :: if k in ids then m[k].(parentId := Some(review)) else m[k]
  }

  /** `where('parent_id', review)->whereNotIn('id', ids)->update(['parent_id' => null])`. */
  function Unlinked(m: map<int, Discussion>, ids: seq<int>, review: int): (r: map<int, Discussion>)
  {
    map k | k in m :: if m[k].parentId == Some(review) && k !in ids then m[k].(parentId := None) else m[k]
  }

  /** The validator's verdict on one block, checked in the source's order: the
      type is set, then the text is present (an update's embed that names an
      existing discussion needs none), then the type is known, then a paragraph
      fits the limit. `reuse` is false for create and true for update. */
  function BlockError(b: Block, reuse: bool): (r: Option<Error>)
  {
    if b.NoType? then Some(InvalidBlockType)
    else if b.text.None? && !(reuse && b.Embed? && b.discussionId.Some?) then Some(MissingText)
    else if b.Other? then Some(InvalidBlockType)
    else if b.Paragraph? && |b.text.value| > BlockTextLengthLimit then Some(BlockTooLarge(BlockTextLengthLimit))
    else None
  }

  /** The first validation error of a document, if any. */
  function FirstError(doc: seq<Block>, reuse: bool): (r: Option<Error>)
  {
    if |doc| == 0 then None
    else if BlockError(doc[0], reuse).Some? then BlockError(doc[0], reuse)
    else FirstError(doc[1..], reuse)
  }

  /** How many embed blocks a document has. */
  function EmbedCount(doc: seq<Block>): (r: nat)
  {
    if |doc| == 0 then 0 else (if doc[0].Embed? then 1 else 0) + EmbedCount(doc[1..])
  }

  /** The discussion ids of the embeds of an output, in order. */
  function EmbedIds(out: seq<OutBlock>): (r: seq<int>)
  {
    if |out| == 0 then []
    else
      var last := out[|out| - 1];
      EmbedIds(out[..|out| - 1]) + (if last.OutEmbed? then [last.discussionId] else [])
  }

  /** The loop state of both operations: the store, `$output`, `$childIds` and `$problemPost`. */
  datatype Acc = Acc(store: Store, output: seq<OutBlock>, childIds: seq<int>, problem: Option<int>)

  function Start(s: Store): (r: Acc)
  {
    Acc(s, [], [], None)
  }

  /** One iteration of the `foreach` over the document. */
  function Step(a: Acc, b: Block, reuse: bool, setId: int, userId: int): (r: Result<Acc, Error>)
    ensures r.Failure? <==> BlockError(b, reuse).Some?
    ensures r.Failure? ==> r.error == BlockError(b, reuse).value
    ensures r.Success? ==> |r.value.output| == |a.output| + 1
    ensures r.Success? ==> |r.value.childIds| == |a.childIds| + (if b.Embed? then 1 else 0)
  {
    match b
    case NoType => Failure(InvalidBlockType)
    case Other(_, text) => if text.None? then Failure(MissingText) else Failure(InvalidBlockType)
    case Paragraph(text) =>
      if text.None? then Failure(MissingText)
      else if |text.value| > BlockTextLengthLimit then Failure(BlockTooLarge(BlockTextLengthLimit))
      else Success(a.(output := a.output + [OutParagraph(text.value)]))
    case Embed(discussionType, text, beatmapId, timestamp, discussionId) =>
      if reuse && discussionId.Some? then
        Success(a.(output := a.output + [OutEmbed(discussionId.value)],
                   childIds := a.childIds + [discussionId.value]))
      else if text.None? then Failure(MissingText)
      else
        var n := AddDiscussion(a.store, setId, discussionType, Text(text.value), userId, beatmapId, timestamp);
        Success(Acc(n.store, a.output + [OutEmbed(n.discussionId)], a.childIds + [n.discussionId],
                    if !reuse && discussionType == ProblemType && a.problem.None? then Some(n.discussionId)
                    else a.problem))
  }

  /** The blocks `doc[i..]` processed in order from `a`; it stops at the first invalid block. */
  function Walk(a: Acc, doc: seq<Block>, i: nat, reuse: bool, setId: int, userId: int): (r: Result<Acc, Error>)
    requires i <= |doc|
    decreases |doc| - i
    ensures r.Failure? <==> FirstError(doc[i..], reuse).Some?
    ensures r.Failure? ==> r.error == FirstError(doc[i..], reuse).value
    ensures r.Success? ==> |r.value.output| == |a.output| + (|doc| - i)
    ensures r.Success? ==> |r.value.childIds| == |a.childIds| + EmbedCount(doc[i..])
  {
    if i == |doc| then Success(a)
    else
      assert doc[i..][0] == doc[i] && doc[i..][1..] == doc[i + 1..];
      match Step(a, doc[i], reuse, setId, userId)
      case Failure(e) => Failure(e)
      case Success(next) => Walk(next, doc, i + 1, reuse, setId, userId)
  }

  /** A referenced discussion counts as another review's when it exists and its
      parent is set and different: under SQL's `<>` a null parent does not count. */
  predicate IsForeign(s: Store, id: int, review: int)
  {
    id in s.discussions && s.discussions[id].parentId.Some? && s.discussions[id].parentId.value != review
  }

  predicate ForeignReference(s: Store, ids: seq<int>, review: int)
  {
    exists id | id in ids :: IsForeign(s, id, review)
  }

  /** The transition the first problem embed triggers. */
  function SideEffectFor(problem: Option<int>, gate: Gate): (r: SideEffect)
  {
    match problem
    case None => NoEffect
    case Some(p) =>
      if gate.isPending && gate.hasNominations && gate.canResetNominations then NominationReset(p)
      else if gate.canDisqualify then Disqualify(p)
      else NoEffect
  }

  /** `create` on store `s`: the committed store and the new review, or the error raised. */
  function CreateSpec(s: Store, setId: int, doc: seq<Block>, userId: int,
                      minIssues: int, maxBlocks: int, gate: Gate): (r: Result<(Store, Created), Error>)
  {
    if |doc| == 0 then Failure(InvalidDocument)
    else
      match Walk(Start(s), doc, 0, false, setId, userId)
      case Failure(e) => Failure(e)
      case Success(a) =>
        if |a.childIds| == 0 || |a.childIds| < minIssues then Failure(MinimumIssues(minIssues))
        else if |doc| > maxBlocks then Failure(TooManyBlocks(maxBlocks))
        else
          var n := AddDiscussion(a.store, setId, ReviewType, Document(a.output), userId, None, None);
          var committed := n.store.(discussions := Relinked(n.store.discussions, a.childIds, n.discussionId));
          Success((committed, Created(n.discussionId, n.postId, SideEffectFor(a.problem, gate))))
  }

  /** `update` of review `review`, whose starting post is `postId`, on store
      `s`: the committed store, or the error raised. `setExists` is whether the
      review's beatmapset can still be found. */
  function UpdateSpec(s: Store, review: int, postId: int, doc: seq<Block>, setExists: bool, userId: int,
                      minIssues: int, maxBlocks: int): (r: Result<Store, Error>)
    requires review in s.discussions && postId in s.posts
  {
    if |doc| == 0 then Failure(InvalidDocument)
    else if !setExists then Failure(ArtifactNotFound)
    else
      match Walk(Start(s), doc, 0, true, s.discussions[review].beatmapsetId, userId)
      case Failure(e) => Failure(e)
      case Success(a) =>
        if |a.childIds| == 0 || |a.childIds| < minIssues then Failure(MinimumIssues(minIssues))
        else if |doc| > maxBlocks then Failure(TooManyBlocks(maxBlocks))
        else if ForeignReference(a.store, a.childIds, review) then Failure(ExternalReferences)
        else
          var post := s.posts[postId].(message := Document(a.output), lastEditorId := Some(userId));
          var saved := a.store.(posts := a.store.posts[postId := post]);
          var unlinked := saved.(discussions := Unlinked(saved.discussions, a.childIds, review));
          Success(unlinked.(discussions := Relinked(unlinked.discussions, a.childIds, review)))
  }
}
