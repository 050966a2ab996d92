/** The review document service over a mutable store of discussions and posts.
    `Create` and `Update` run their work in a transaction body that writes rows
    block by block and may stop halfway; the public method takes a snapshot
    before it (`DB::beginTransaction`) and restores it when the body fails
    (`DB::rollBack`). */
module BeatmapsetDiscussionReview {
  import opened ReviewTypes
  import opened ReviewSpec

  class ReviewStore {
    var discussions: map<int, Discussion>
    var posts: map<int, Post>
    var nextDiscussionId: int
    var nextPostId: int

    function State(): Store
      reads this
    {
      Store(discussions, posts, nextDiscussionId, nextPostId)
    }

    ghost predicate Valid()
      reads this
    {
      ValidStore(State())
    }

    constructor ()
      ensures Valid() && State() == Store(map[], map[], 1, 1)
    {
      discussions := map[];
      posts := map[];
      nextDiscussionId := 1;
      nextPostId := 1;
    }

    /** Puts back the rows and id counters of a snapshot. */
    method Rollback(saved: Store)
      modifies this
      ensures State() == saved
    {
      discussions, posts := saved.discussions, saved.posts;
      nextDiscussionId, nextPostId := saved.nextDiscussionId, saved.nextPostId;
    }

    /** `createPost`: saves a new discussion, then its first post holding `message`. */
    method CreatePost(setId: int, discussionType: string, message: Message, userId: int,
                      beatmapId: Option<int>, timestamp: Option<int>) returns (discussionId: int, postId: int)
      modifies this
      ensures var n := AddDiscussion(old(State()), setId, discussionType, message, userId, beatmapId, timestamp);
        State() == n.store && discussionId == n.discussionId && postId == n.postId
    {
      discussionId := nextDiscussionId;
      discussions := discussions[discussionId := Discussion(setId, userId, false, discussionType, timestamp, beatmapId, None)];
      nextDiscussionId := nextDiscussionId + 1;
      postId := nextPostId;
      posts := posts[postId := Post(discussionId, userId, message, None)];
      nextPostId := nextPostId + 1;
    }

    /** `create`: on success the store is the one `CreateSpec` commits and the
        result is the new review; on failure the store is exactly as before,
        including any embeds the call had already saved. */
    method Create(setId: int, doc: seq<Block>, userId: int, minIssues: int, maxBlocks: int, gate: Gate)
      returns (r: Result<Created, Error>)
      requires Valid()
      modifies this
      ensures Valid()
      ensures r.Failure? ==> State() == old(State())
      ensures CreateSpec(old(State()), setId, doc, userId, minIssues, maxBlocks, gate)
           == match r
              case Success(c) => Success((State(), c))
              case Failure(e) => Failure(e)
    {
      if |doc| == 0 {
        return Failure(InvalidDocument);
      }
      var saved := State();
      r := CreateInTransaction(setId, doc, userId, minIssues, maxBlocks, gate);
      if r.Failure? {
        Rollback(saved);
      }
    }

    /** The body of `create`'s transaction. On failure it may leave rows it
        wrote; `Create` rolls them back. */
    method CreateInTransaction(setId: int, doc: seq<Block>, userId: int, minIssues: int, maxBlocks: int, gate: Gate)
      returns (r: Result<Created, Error>)
      requires Valid() && |doc| > 0
      modifies this
      ensures r.Failure? ==> CreateSpec(old(State()), setId, doc, userId, minIssues, maxBlocks, gate) == Failure(r.error)
      ensures r.Success? ==> Valid()
      ensures r.Success? ==>
        CreateSpec(old(State()), setId, doc, userId, minIssues, maxBlocks, gate) == Success((State(), r.value))
    {
      var output: seq<OutBlock> := [];
      var childIds: seq<int> := [];
      var problemPost: Option<int> := None;
      var blockCount := 0;
      for i := 0 to |doc|
        invariant blockCount == i
        invariant Valid()
        invariant Walk(Acc(State(), output, childIds, problemPost), doc, i, false, setId, userId)
               == Walk(Start(old(State())), doc, 0, false, setId, userId)
      {
        var block := doc[i];
        if block.NoType? {
          return Failure(InvalidBlockType);
        }
        if block.text.None? {
          return Failure(MissingText);
        }
        var message := block.text.value;
        if block.Embed? {
          var embedId, _ := CreatePost(setId, block.discussionType, Text(message), userId, block.beatmapId, block.timestamp);
          output := output + [OutEmbed(embedId)];
          childIds := childIds + [embedId];
          if block.discussionType == ProblemType && problemPost.None? {
            problemPost := Some(embedId);
          }
        } else if block.Paragraph? {
          if |message| > BlockTextLengthLimit {
            return Failure(BlockTooLarge(BlockTextLengthLimit));
          }
          output := output + [OutParagraph(message)];
        } else {
          return Failure(InvalidBlockType);
        }
        blockCount := blockCount + 1;
      }

      if |childIds| == 0 || |childIds| < minIssues {
        return Failure(MinimumIssues(minIssues));
      }
      if blockCount > maxBlocks {
        return Failure(TooManyBlocks(maxBlocks));
      }

      var reviewId, reviewPostId := CreatePost(setId, ReviewType, Document(output), userId, None, None);
      discussions := Relinked(discussions, childIds, reviewId);

      var effect := NoEffect;
      if problemPost.Some? {
        var resetNominations := gate.isPending && gate.hasNominations && gate.canResetNominations;
        if resetNominations {
          effect := NominationReset(problemPost.value);
        } else if gate.canDisqualify {
          effect := Disqualify(problemPost.value);
        }
      }
      r := Success(Created(reviewId, reviewPostId, effect));
    }

    /** `update` of review `review` whose starting post is `postId`: on success
        the store is the one `UpdateSpec` commits and the result is `true`; on
        failure the store is exactly as before. */
    method Update(review: int, postId: int, doc: seq<Block>, setExists: bool, userId: int,
                  minIssues: int, maxBlocks: int) returns (r: Result<bool, Error>)
      requires Valid()
      requires review in discussions && postId in posts && posts[postId].discussionId == review
      modifies this
      ensures Valid()
      ensures r.Failure? ==> State() == old(State())
      ensures r.Success? ==> r.value
      ensures UpdateSpec(old(State()), review, postId, doc, setExists, userId, minIssues, maxBlocks)
           == match r
              case Success(_) => Success(State())
              case Failure(e) => Failure(e)
    {
      if |doc| == 0 {
        return Failure(InvalidDocument);
      }
      if !setExists {
        return Failure(ArtifactNotFound);
      }
      var setId := discussions[review].beatmapsetId;
      var post := posts[postId];
      var saved := State();
      r := UpdateInTransaction(review, postId, post, setId, doc, userId, minIssues, maxBlocks);
      if r.Failure? {
        Rollback(saved);
      }
    }

    /** The body of `update`'s transaction; `post` is the review's starting
        post as loaded before the transaction began. */
    method UpdateInTransaction(review: int, postId: int, post: Post, setId: int, doc: seq<Block>, userId: int,
                               minIssues: int, maxBlocks: int) returns (r: Result<bool, Error>)
      requires Valid() && |doc| > 0
      requires review in discussions && setId == discussions[review].beatmapsetId
      requires postId in posts && post == posts[postId]
      modifies this
      ensures r.Failure? ==>
        UpdateSpec(old(State()), review, postId, doc, true, userId, minIssues, maxBlocks) == Failure(r.error)
      ensures r.Success? ==> Valid() && r.value
      ensures r.Success? ==>
        UpdateSpec(old(State()), review, postId, doc, true, userId, minIssues, maxBlocks) == Success(State())
    {
      var output: seq<OutBlock> := [];
      var childIds: seq<int> := [];
      var blockCount := 0;
      for i := 0 to |doc|
        invariant blockCount == i
        invariant Valid()
        invariant old(nextPostId) <= nextPostId
        invariant Walk(Acc(State(), output, childIds, None), doc, i, true, setId, userId)
               == Walk(Start(old(State())), doc, 0, true, setId, userId)
      {
        var block := doc[i];
        if block.NoType? {
          return Failure(InvalidBlockType);
        }
        if block.text.None? && !(block.Embed? && block.discussionId.Some?) {
          return Failure(MissingText);
        }
        if block.Embed? {
          var childId;
          if block.discussionId.Some? {
            childId := block.discussionId.value;
          } else {
            var newPostId;
            childId, newPostId := CreatePost(setId, block.discussionType, Text(block.text.value), userId,
                                     block.beatmapId, block.timestamp);
          }
          output := output + [OutEmbed(childId)];
          childIds := childIds + [childId];
        } else if block.Paragraph? {
          if |block.text.value| > BlockTextLengthLimit {
            return Failure(BlockTooLarge(BlockTextLengthLimit));
          }
          output := output + [OutParagraph(block.text.value)];
        } else {
          return Failure(InvalidBlockType);
        }
        blockCount := blockCount + 1;
      }

      if |childIds| == 0 || |childIds| < minIssues {
        return Failure(MinimumIssues(minIssues));
      }
      if blockCount > maxBlocks {
        return Failure(TooManyBlocks(maxBlocks));
      }
      if ForeignReference(State(), childIds, review) {
        return Failure(ExternalReferences);
      }

      posts := posts[postId := post.(message := Document(output), lastEditorId := Some(userId))];
      discussions := Unlinked(discussions, childIds, review);
      discussions := Relinked(discussions, childIds, review);
      r := Success(true);
    }
  }
}
