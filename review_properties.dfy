/** What `create` and `update` promise, proved about `CreateSpec` and
    `UpdateSpec`: which error a document raises, that the stored document
    mirrors the submitted one block by block, which rows are written and
    re-parented, the side effect of a new review, and that repeating an update
    that only references existing embeds changes nothing. */
module ReviewProperties {
  import opened ReviewTypes
  import opened ReviewSpec

  // ---------------------------------------------------------------------------
  // Vocabulary

  /** A discussion with its parent link forgotten: the part re-parenting never changes. */
  function Unparented(d: Discussion): Discussion
  {
    d.(parentId := None)
  }

  ghost predicate IsProblemEmbed(b: Block)
  {
    b.Embed? && b.discussionType == ProblemType
  }

  /** Block `k` is the first embed of type `problem`. */
  ghost predicate FirstProblemAt(doc: seq<Block>, k: int)
  {
    && 0 <= k < |doc|
    && IsProblemEmbed(doc[k])
    && forall j | 0 <= j < k :: !IsProblemEmbed(doc[j])
  }

  /** Some embed of the document names discussion `id` explicitly. */
  ghost predicate Referenced(doc: seq<Block>, id: int)
  {
    exists j | 0 <= j < |doc| :: doc[j].Embed? && doc[j].discussionId == Some(id)
  }

  /** Every embed of the document names an existing discussion. */
  ghost predicate AllReuse(doc: seq<Block>)
  {
    forall k | 0 <= k < |doc| && doc[k].Embed? :: doc[k].discussionId.Some?
  }

  /** Some embed of the document names a discussion of another review in `s`. */
  ghost predicate ForeignIn(s: Store, doc: seq<Block>, review: int)
  {
    exists j | 0 <= j < |doc| ::
      doc[j].Embed? && doc[j].discussionId.Some? && IsForeign(s, doc[j].discussionId.value, review)
  }

  /** The document a post stores, or nothing when it stores text. */
  function StoredDocument(s: Store, postId: int): seq<OutBlock>
  {
    if postId in s.posts && s.posts[postId].message.Document? then s.posts[postId].message.blocks else []
  }

  /** Discussion `id` was created during the call (it is not in `s0`) from an
      embed with these fields, and has a new post holding the embed's text. */
  ghost predicate NewEmbed(id: int, discussionType: string, text: string, beatmapId: Option<int>,
                           timestamp: Option<int>, s0: Store, s1: Store, setId: int, userId: int)
  {
    && id !in s0.discussions
    && id in s1.discussions
    && Unparented(s1.discussions[id]) == Discussion(setId, userId, false, discussionType, timestamp, beatmapId, None)
    && exists p :: p in s1.posts && p !in s0.posts && s1.posts[p] == Post(id, userId, Text(text), None)
  }

  /** Output block `o` is what block `b` becomes: a paragraph keeps its text,
      an embed that names a discussion (update only) keeps that id, any other
      embed points at a discussion created for it. */
  ghost predicate Reflected(b: Block, o: OutBlock, s0: Store, s1: Store, reuse: bool, setId: int, userId: int)
  {
    match b
    case Paragraph(text) => text.Some? && |text.value| <= BlockTextLengthLimit && o == OutParagraph(text.value)
    case Embed(discussionType, text, beatmapId, timestamp, discussionId) =>
      if reuse && discussionId.Some? then o == OutEmbed(discussionId.value)
      else text.Some? && o.OutEmbed? &&
           NewEmbed(o.discussionId, discussionType, text.value, beatmapId, timestamp, s0, s1, setId, userId)
    case Other(_, _) => false
    case NoType => false
  }

  /** One output block per input block, in input order, each reflecting its block. */
  ghost predicate Mirrors(doc: seq<Block>, out: seq<OutBlock>, s0: Store, s1: Store,
                          reuse: bool, setId: int, userId: int)
  {
    && |out| == |doc|
    && forall k | 0 <= k < |doc| :: Reflected(doc[k], out[k], s0, s1, reuse, setId, userId)
  }

  /** `s2` keeps every discussion of `s1` up to its parent, and every post of `s1` not already in `s0`. */
  ghost predicate Keeps(s0: Store, s1: Store, s2: Store)
  {
    && (forall k | k in s1.discussions ::
          k in s2.discussions && Unparented(s2.discussions[k]) == Unparented(s1.discussions[k]))
    && (forall p | p in s1.posts && p !in s0.posts :: p in s2.posts && s2.posts[p] == s1.posts[p])
  }

  /** `s1` keeps every row of `s0` unchanged and every discussion it adds has no parent. */
  ghost predicate Preserves(s0: Store, s1: Store)
  {
    && (forall k | k in s0.discussions :: k in s1.discussions && s1.discussions[k] == s0.discussions[k])
    && (forall p | p in s0.posts :: p in s1.posts && s1.posts[p] == s0.posts[p])
    && (forall k | k in s1.discussions && k !in s0.discussions :: s1.discussions[k].parentId.None?)
  }

  /** `problem` is the discussion of the first problem embed among the first
      `i` blocks (create only; update tracks none). */
  ghost predicate ProblemTracked(doc: seq<Block>, i: int, out: seq<OutBlock>, problem: Option<int>, reuse: bool)
    requires 0 <= i <= |doc| && |out| == i
  {
    if reuse then problem.None?
    else
      && (problem.None? <==> forall k | 0 <= k < i :: !IsProblemEmbed(doc[k]))
      && forall k | 0 <= k < i && FirstProblemAt(doc, k) :: problem.Some? && out[k] == OutEmbed(problem.value)
  }

  /** Block `b` gets a discussion of its own: an embed of create, or an embed
      of update that names no discussion. */
  ghost predicate OwnsDiscussion(b: Block, reuse: bool)
  {
    b.Embed? && !(reuse && b.discussionId.Some?)
  }

  /** Some block among the first `i` that owns its discussion is stored as embed `id`. */
  ghost predicate CreatedBy(doc: seq<Block>, out: seq<OutBlock>, i: int, reuse: bool, id: int)
    requires 0 <= i <= |doc| && |out| == i
  {
    exists j | 0 <= j < i && OwnsDiscussion(doc[j], reuse) :: out[j] == OutEmbed(id)
  }

  /** Among the first `i` blocks, each block that owns its discussion is stored
      as an embed of a discussion in `store`, no two of them share one, and
      every discussion and post `store` adds to `s0` was created for one of them. */
  ghost predicate Owned(s0: Store, doc: seq<Block>, i: int, out: seq<OutBlock>, store: Store, reuse: bool)
    requires 0 <= i <= |doc| && |out| == i
  {
    && (forall j | 0 <= j < i && OwnsDiscussion(doc[j], reuse) ::
          out[j].OutEmbed? && out[j].discussionId in store.discussions)
    && (forall j, k | 0 <= j < k < i && OwnsDiscussion(doc[j], reuse) && OwnsDiscussion(doc[k], reuse) ::
          out[j] != out[k])
    && (forall k | k in store.discussions && k !in s0.discussions :: CreatedBy(doc, out, i, reuse, k))
    && (forall p | p in store.posts && p !in s0.posts :: CreatedBy(doc, out, i, reuse, store.posts[p].discussionId))
  }

  /** The walk state after the first `i` blocks of `doc`, started from store `s0`. */
  ghost predicate Progress(s0: Store, doc: seq<Block>, i: int, a: Acc, reuse: bool, setId: int, userId: int)
  {
    && 0 <= i <= |doc|
    && ValidStore(a.store)
    && Preserves(s0, a.store)
    && |a.output| == i
    && (forall k | 0 <= k < i :: Reflected(doc[k], a.output[k], s0, a.store, reuse, setId, userId))
    && a.childIds == EmbedIds(a.output)
    && (forall k | k in a.store.discussions && k !in s0.discussions :: k in a.childIds)
    && (!reuse ==> forall id | id in a.childIds :: id in a.store.discussions && id !in s0.discussions)
    && Owned(s0, doc, i, a.output, a.store, reuse)
    && ProblemTracked(doc, i, a.output, a.problem, reuse)
  }

  // ---------------------------------------------------------------------------
  // Embed ids

  lemma EmbedIdsAppend(out: seq<OutBlock>, o: OutBlock)
    ensures EmbedIds(out + [o]) == EmbedIds(out) + (if o.OutEmbed? then [o.discussionId] else [])
  {
    assert (out + [o])[..|out|] == out;
  }

  /** The embed ids of an output are exactly the discussion ids of its embed entries. */
  lemma {:induction false} EmbedIdsMembers(out: seq<OutBlock>, id: int)
    ensures id in EmbedIds(out) <==> exists k | 0 <= k < |out| :: out[k] == OutEmbed(id)
  {
    if |out| > 0 {
      var init := out[..|out| - 1];
      var last := out[|out| - 1];
      EmbedIdsMembers(init, id);
      assert EmbedIds(out) == EmbedIds(init) + (if last.OutEmbed? then [last.discussionId] else []);
      if id in EmbedIds(out) {
        if id in EmbedIds(init) {
          var k :| 0 <= k < |init| && init[k] == OutEmbed(id);
          assert out[k] == init[k];
        } else {
          assert out[|out| - 1] == OutEmbed(id);
        }
      }
      if exists k | 0 <= k < |out| :: out[k] == OutEmbed(id) {
        var k :| 0 <= k < |out| && out[k] == OutEmbed(id);
        if k < |init| {
          assert init[k] == out[k];
        }
      }
    }
  }

  // ---------------------------------------------------------------------------
  // The walk

  lemma ReflectedKept(b: Block, o: OutBlock, s0: Store, s1: Store, s2: Store, reuse: bool, setId: int, userId: int)
    requires Reflected(b, o, s0, s1, reuse, setId, userId)
    requires Keeps(s0, s1, s2)
    ensures Reflected(b, o, s0, s2, reuse, setId, userId)
  {
    if b.Embed? && !(reuse && b.discussionId.Some?) {
      var p :| p in s1.posts && p !in s0.posts && s1.posts[p] == Post(o.discussionId, userId, Text(b.text.value), None);
      assert s2.posts[p] == s1.posts[p];
    }
  }

  lemma MirrorsKept(doc: seq<Block>, out: seq<OutBlock>, s0: Store, s1: Store, s2: Store,
                    reuse: bool, setId: int, userId: int)
    requires Mirrors(doc, out, s0, s1, reuse, setId, userId)
    requires Keeps(s0, s1, s2)
    ensures Mirrors(doc, out, s0, s2, reuse, setId, userId)
  {
    forall k | 0 <= k < |doc| ensures Reflected(doc[k], out[k], s0, s2, reuse, setId, userId) {
      ReflectedKept(doc[k], out[k], s0, s1, s2, reuse, setId, userId);
    }
  }

  lemma CreatedByExtended(doc: seq<Block>, out: seq<OutBlock>, o: OutBlock, i: int, reuse: bool, id: int)
    requires 0 <= i < |doc| && |out| == i
    requires CreatedBy(doc, out, i, reuse, id)
    ensures CreatedBy(doc, out + [o], i + 1, reuse, id)
  {
    var j :| 0 <= j < i && OwnsDiscussion(doc[j], reuse) && out[j] == OutEmbed(id);
    assert (out + [o])[j] == out[j];
  }

  /** A block that writes no row keeps `Owned`. */
  lemma OwnedKept(s0: Store, doc: seq<Block>, i: int, out: seq<OutBlock>, o: OutBlock, store: Store, reuse: bool)
    requires 0 <= i < |doc| && |out| == i && !OwnsDiscussion(doc[i], reuse)
    requires Owned(s0, doc, i, out, store, reuse)
    ensures Owned(s0, doc, i + 1, out + [o], store, reuse)
  {
    var out' := out + [o];
    forall j | 0 <= j < i + 1 ensures out'[j] == if j < i then out[j] else o {}
    forall k | k in store.discussions && k !in s0.discussions ensures CreatedBy(doc, out', i + 1, reuse, k) {
      CreatedByExtended(doc, out, o, i, reuse, k);
    }
    forall p | p in store.posts && p !in s0.posts ensures CreatedBy(doc, out', i + 1, reuse, store.posts[p].discussionId) {
      CreatedByExtended(doc, out, o, i, reuse, store.posts[p].discussionId);
    }
  }

  /** A block that owns its discussion, stored as `createPost`'s new discussion, keeps `Owned`. */
  lemma OwnedNew(s0: Store, doc: seq<Block>, i: int, out: seq<OutBlock>, store: Store, n: Added,
                 d: Discussion, post: Post, reuse: bool)
    requires 0 <= i < |doc| && |out| == i && OwnsDiscussion(doc[i], reuse)
    requires Owned(s0, doc, i, out, store, reuse)
    requires n.discussionId !in store.discussions && n.postId !in store.posts && post.discussionId == n.discussionId
    requires n.store.discussions == store.discussions[n.discussionId := d]
    requires n.store.posts == store.posts[n.postId := post]
    ensures Owned(s0, doc, i + 1, out + [OutEmbed(n.discussionId)], n.store, reuse)
  {
    var o := OutEmbed(n.discussionId);
    var out' := out + [o];
    forall j | 0 <= j < i + 1 ensures out'[j] == if j < i then out[j] else o {}
    forall k | k in n.store.discussions && k !in s0.discussions ensures CreatedBy(doc, out', i + 1, reuse, k) {
      if k != n.discussionId {
        CreatedByExtended(doc, out, o, i, reuse, k);
      }
    }
    forall p | p in n.store.posts && p !in s0.posts
      ensures CreatedBy(doc, out', i + 1, reuse, n.store.posts[p].discussionId)
    {
      if p != n.postId {
        CreatedByExtended(doc, out, o, i, reuse, store.posts[p].discussionId);
      }
    }
  }

  lemma StepParagraph(s0: Store, doc: seq<Block>, i: int, a: Acc, reuse: bool, setId: int, userId: int)
    requires 0 <= i < |doc| && doc[i].Paragraph?
    requires Progress(s0, doc, i, a, reuse, setId, userId)
    requires Step(a, doc[i], reuse, setId, userId).Success?
    ensures Progress(s0, doc, i + 1, Step(a, doc[i], reuse, setId, userId).value, reuse, setId, userId)
  {
    var o := OutParagraph(doc[i].text.value);
    var next := Step(a, doc[i], reuse, setId, userId).value;
    assert next == a.(output := a.output + [o]);
    EmbedIdsAppend(a.output, o);
    OwnedKept(s0, doc, i, a.output, o, a.store, reuse);
    forall k | 0 <= k < i + 1 ensures Reflected(doc[k], next.output[k], s0, next.store, reuse, setId, userId) {
      if k < i {
        assert next.output[k] == a.output[k];
      }
    }
  }

  lemma StepReuse(s0: Store, doc: seq<Block>, i: int, a: Acc, reuse: bool, setId: int, userId: int)
    requires 0 <= i < |doc| && doc[i].Embed? && reuse && doc[i].discussionId.Some?
    requires Progress(s0, doc, i, a, reuse, setId, userId)
    ensures Step(a, doc[i], reuse, setId, userId).Success?
    ensures Progress(s0, doc, i + 1, Step(a, doc[i], reuse, setId, userId).value, reuse, setId, userId)
  {
    var o := OutEmbed(doc[i].discussionId.value);
    var next := Step(a, doc[i], reuse, setId, userId).value;
    assert next == a.(output := a.output + [o], childIds := a.childIds + [o.discussionId]);
    EmbedIdsAppend(a.output, o);
    OwnedKept(s0, doc, i, a.output, o, a.store, reuse);
    forall k | 0 <= k < i + 1 ensures Reflected(doc[k], next.output[k], s0, next.store, reuse, setId, userId) {
      if k < i {
        assert next.output[k] == a.output[k];
      }
    }
  }

  lemma StepNewEmbed(s0: Store, doc: seq<Block>, i: int, a: Acc, reuse: bool, setId: int, userId: int)
    requires 0 <= i < |doc| && doc[i].Embed? && !(reuse && doc[i].discussionId.Some?)
    requires Progress(s0, doc, i, a, reuse, setId, userId)
    requires Step(a, doc[i], reuse, setId, userId).Success?
    ensures Progress(s0, doc, i + 1, Step(a, doc[i], reuse, setId, userId).value, reuse, setId, userId)
  {
    var b := doc[i];
    var n := AddDiscussion(a.store, setId, b.discussionType, Text(b.text.value), userId, b.beatmapId, b.timestamp);
    var o := OutEmbed(n.discussionId);
    var next := Step(a, b, reuse, setId, userId).value;
    assert next.store == n.store && next.output == a.output + [o] && next.childIds == a.childIds + [n.discussionId];
    EmbedIdsAppend(a.output, o);
    assert forall k | 0 <= k < i + 1 :: Reflected(doc[k], next.output[k], s0, next.store, reuse, setId, userId) by {
      assert Keeps(s0, a.store, n.store);
      assert n.store.posts[n.postId] == Post(n.discussionId, userId, Text(b.text.value), None);
      assert NewEmbed(n.discussionId, b.discussionType, b.text.value, b.beatmapId, b.timestamp, s0, n.store, setId, userId);
      ReflectedExtended(doc, i, a.output, o, s0, a.store, n.store, reuse, setId, userId);
    }
    assert Owned(s0, doc, i + 1, next.output, next.store, reuse) by {
      OwnedNew(s0, doc, i, a.output, a.store, n, Discussion(setId, userId, false, b.discussionType, b.timestamp, b.beatmapId, None),
               Post(n.discussionId, userId, Text(b.text.value), None), reuse);
    }
    assert ProblemTracked(doc, i + 1, next.output, next.problem, reuse) by {
      ProblemTrackedNew(doc, i, a.output, a.problem, reuse, n.discussionId);
    }
  }

  /** Appending the output block of a new embed keeps every earlier block reflected. */
  lemma ReflectedExtended(doc: seq<Block>, i: int, out: seq<OutBlock>, o: OutBlock, s0: Store, s1: Store, s2: Store,
                          reuse: bool, setId: int, userId: int)
    requires 0 <= i < |doc| && |out| == i
    requires forall k | 0 <= k < i :: Reflected(doc[k], out[k], s0, s1, reuse, setId, userId)
    requires Keeps(s0, s1, s2)
    requires Reflected(doc[i], o, s0, s2, reuse, setId, userId)
    ensures forall k | 0 <= k < i + 1 :: Reflected(doc[k], (out + [o])[k], s0, s2, reuse, setId, userId)
  {
    forall k | 0 <= k < i + 1 ensures Reflected(doc[k], (out + [o])[k], s0, s2, reuse, setId, userId) {
      if k < i {
        assert (out + [o])[k] == out[k];
        ReflectedKept(doc[k], out[k], s0, s1, s2, reuse, setId, userId);
      }
    }
  }

  /** Appending the output block of a new embed keeps the first problem embed tracked. */
  lemma ProblemTrackedNew(doc: seq<Block>, i: int, out: seq<OutBlock>, problem: Option<int>, reuse: bool, id: int)
    requires 0 <= i < |doc| && |out| == i && doc[i].Embed?
    requires ProblemTracked(doc, i, out, problem, reuse)
    ensures ProblemTracked(doc, i + 1, out + [OutEmbed(id)],
                           if !reuse && doc[i].discussionType == ProblemType && problem.None? then Some(id) else problem,
                           reuse)
  {
    var out' := out + [OutEmbed(id)];
    forall k | 0 <= k < i + 1 ensures out'[k] == if k < i then out[k] else OutEmbed(id) {}
  }

  lemma StepKeepsProgress(s0: Store, doc: seq<Block>, i: int, a: Acc, reuse: bool, setId: int, userId: int)
    requires 0 <= i < |doc|
    requires Progress(s0, doc, i, a, reuse, setId, userId)
    requires Step(a, doc[i], reuse, setId, userId).Success?
    ensures Progress(s0, doc, i + 1, Step(a, doc[i], reuse, setId, userId).value, reuse, setId, userId)
  {
    if doc[i].Paragraph? {
      StepParagraph(s0, doc, i, a, reuse, setId, userId);
    } else if reuse && doc[i].discussionId.Some? {
      StepReuse(s0, doc, i, a, reuse, setId, userId);
    } else {
      StepNewEmbed(s0, doc, i, a, reuse, setId, userId);
    }
  }

  lemma {:induction false} WalkKeepsProgress(s0: Store, doc: seq<Block>, i: int, a: Acc,
                                            reuse: bool, setId: int, userId: int)
    requires Progress(s0, doc, i, a, reuse, setId, userId)
    requires Walk(a, doc, i, reuse, setId, userId).Success?
    ensures Progress(s0, doc, |doc|, Walk(a, doc, i, reuse, setId, userId).value, reuse, setId, userId)
    decreases |doc| - i
  {
    if i < |doc| {
      StepKeepsProgress(s0, doc, i, a, reuse, setId, userId);
      WalkKeepsProgress(s0, doc, i + 1, Step(a, doc[i], reuse, setId, userId).value, reuse, setId, userId);
    }
  }

  /** A successful walk over the whole document, from a valid store, ends in
      the state `Progress` describes. */
  lemma WalkFromStart(s: Store, doc: seq<Block>, reuse: bool, setId: int, userId: int)
    requires ValidStore(s)
    requires Walk(Start(s), doc, 0, reuse, setId, userId).Success?
    ensures Progress(s, doc, |doc|, Walk(Start(s), doc, 0, reuse, setId, userId).value, reuse, setId, userId)
  {
    assert Progress(s, doc, 0, Start(s), reuse, setId, userId);
    WalkKeepsProgress(s, doc, 0, Start(s), reuse, setId, userId);
  }

  // ---------------------------------------------------------------------------
  // Create

  /** `create` raises `invalid_document` for an empty document, then the first
      block's validation error, then `minimum_issues` when there is no embed or
      fewer than `minIssues`, then `too_many_blocks` above `maxBlocks`; and it
      succeeds otherwise. */
  lemma CreateOutcome(s: Store, setId: int, doc: seq<Block>, userId: int, minIssues: int, maxBlocks: int, gate: Gate)
    ensures |doc| == 0 ==> CreateSpec(s, setId, doc, userId, minIssues, maxBlocks, gate) == Failure(InvalidDocument)
    ensures |doc| > 0 && FirstError(doc, false).Some? ==>
              CreateSpec(s, setId, doc, userId, minIssues, maxBlocks, gate) == Failure(FirstError(doc, false).value)
    ensures |doc| > 0 && FirstError(doc, false).None? && (EmbedCount(doc) == 0 || EmbedCount(doc) < minIssues) ==>
              CreateSpec(s, setId, doc, userId, minIssues, maxBlocks, gate) == Failure(MinimumIssues(minIssues))
    ensures |doc| > 0 && FirstError(doc, false).None? && EmbedCount(doc) > 0 && EmbedCount(doc) >= minIssues
              && |doc| > maxBlocks ==>
              CreateSpec(s, setId, doc, userId, minIssues, maxBlocks, gate) == Failure(TooManyBlocks(maxBlocks))
    ensures |doc| > 0 && FirstError(doc, false).None? && EmbedCount(doc) > 0 && EmbedCount(doc) >= minIssues
              && |doc| <= maxBlocks ==>
              CreateSpec(s, setId, doc, userId, minIssues, maxBlocks, gate).Success?
  {
    assert doc[0..] == doc;
  }

  /** A committed create writes the review discussion and its post (holding
      the stored document), mirrors the document block by block, parents every
      embed to the review, leaves every earlier row unchanged, gives each embed
      a discussion of its own, and adds no rows but the review's and its embeds'. */
  lemma CreateRecords(s: Store, setId: int, doc: seq<Block>, userId: int, minIssues: int, maxBlocks: int, gate: Gate)
    requires ValidStore(s)
    requires CreateSpec(s, setId, doc, userId, minIssues, maxBlocks, gate).Success?
    ensures var (s', c) := CreateSpec(s, setId, doc, userId, minIssues, maxBlocks, gate).value;
      && ValidStore(s')
      && c.reviewId !in s.discussions && c.reviewId in s'.discussions
      && s'.discussions[c.reviewId] == Discussion(setId, userId, false, ReviewType, None, None, None)
      && c.reviewPostId !in s.posts && c.reviewPostId in s'.posts
      && s'.posts[c.reviewPostId] == Post(c.reviewId, userId, Document(StoredDocument(s', c.reviewPostId)), None)
    ensures var (s', c) := CreateSpec(s, setId, doc, userId, minIssues, maxBlocks, gate).value;
      Mirrors(doc, StoredDocument(s', c.reviewPostId), s, s', false, setId, userId)
    ensures var (s', c) := CreateSpec(s, setId, doc, userId, minIssues, maxBlocks, gate).value;
      var out := StoredDocument(s', c.reviewPostId);
      forall k | 0 <= k < |out| && out[k].OutEmbed? ::
        out[k].discussionId in s'.discussions && s'.discussions[out[k].discussionId].parentId == Some(c.reviewId)
    ensures var (s', c) := CreateSpec(s, setId, doc, userId, minIssues, maxBlocks, gate).value;
      && (forall k | k in s.discussions :: k in s'.discussions && s'.discussions[k] == s.discussions[k])
      && (forall p | p in s.posts :: p in s'.posts && s'.posts[p] == s.posts[p])
    ensures var (s', c) := CreateSpec(s, setId, doc, userId, minIssues, maxBlocks, gate).value;
      var out := StoredDocument(s', c.reviewPostId);
      forall k | k in s'.discussions && k !in s.discussions ::
        k == c.reviewId || exists j | 0 <= j < |out| :: out[j] == OutEmbed(k)
    ensures var (s', c) := CreateSpec(s, setId, doc, userId, minIssues, maxBlocks, gate).value;
      var out := StoredDocument(s', c.reviewPostId);
      forall j, k | 0 <= j < k < |out| && out[j].OutEmbed? && out[k].OutEmbed? :: out[j] != out[k]
    ensures var (s', c) := CreateSpec(s, setId, doc, userId, minIssues, maxBlocks, gate).value;
      var out := StoredDocument(s', c.reviewPostId);
      forall p | p in s'.posts && p !in s.posts ::
        p == c.reviewPostId || exists j | 0 <= j < |out| :: out[j] == OutEmbed(s'.posts[p].discussionId)
  {
    var a := Walk(Start(s), doc, 0, false, setId, userId).value;
    WalkFromStart(s, doc, false, setId, userId);
    var n := AddDiscussion(a.store, setId, ReviewType, Document(a.output), userId, None, None);
    var s' := n.store.(discussions := Relinked(n.store.discussions, a.childIds, n.discussionId));
    assert CreateSpec(s, setId, doc, userId, minIssues, maxBlocks, gate).value.0 == s';
    assert n.discussionId !in a.childIds;
    assert StoredDocument(s', n.postId) == a.output;
    assert Keeps(s, a.store, s');
    MirrorsKept(doc, a.output, s, a.store, s', false, setId, userId);
    forall k | 0 <= k < |a.output| && a.output[k].OutEmbed?
      ensures a.output[k].discussionId in s'.discussions && s'.discussions[a.output[k].discussionId].parentId == Some(n.discussionId)
    {
      EmbedIdsMembers(a.output, a.output[k].discussionId);
    }
    forall k | k in s'.discussions && k !in s.discussions
      ensures k == n.discussionId || exists j | 0 <= j < |a.output| :: a.output[j] == OutEmbed(k)
    {
      if k != n.discussionId {
        EmbedIdsMembers(a.output, k);
      }
    }
    assert forall j, k | 0 <= j < k < |a.output| && a.output[j].OutEmbed? && a.output[k].OutEmbed? ::
             a.output[j] != a.output[k] by {
      CreateEmbedsDistinct(s, doc, a, setId, userId);
    }
    assert forall p | p in s'.posts && p !in s.posts ::
             p == n.postId || exists j | 0 <= j < |a.output| :: a.output[j] == OutEmbed(s'.posts[p].discussionId) by {
      forall p | p in s'.posts && p !in s.posts && p != n.postId
        ensures exists j | 0 <= j < |a.output| :: a.output[j] == OutEmbed(s'.posts[p].discussionId)
      {
        assert s'.posts[p] == a.store.posts[p];
        WalkPostOwned(s, doc, a, false, setId, userId, p);
      }
    }
  }

  /** After create's walk, no two embeds share a discussion. */
  lemma CreateEmbedsDistinct(s: Store, doc: seq<Block>, a: Acc, setId: int, userId: int)
    requires Progress(s, doc, |doc|, a, false, setId, userId)
    ensures forall j, k | 0 <= j < k < |a.output| && a.output[j].OutEmbed? && a.output[k].OutEmbed? ::
              a.output[j] != a.output[k]
  {
    forall j, k | 0 <= j < k < |a.output| && a.output[j].OutEmbed? && a.output[k].OutEmbed?
      ensures a.output[j] != a.output[k]
    {
      assert Reflected(doc[j], a.output[j], s, a.store, false, setId, userId);
      assert Reflected(doc[k], a.output[k], s, a.store, false, setId, userId);
    }
  }

  /** After a walk, a post it added belongs to the discussion of a block that owns one. */
  lemma WalkPostOwned(s: Store, doc: seq<Block>, a: Acc, reuse: bool, setId: int, userId: int, p: int)
    requires Progress(s, doc, |doc|, a, reuse, setId, userId)
    requires p in a.store.posts && p !in s.posts
    ensures exists j | 0 <= j < |doc| && OwnsDiscussion(doc[j], reuse) :: a.output[j] == OutEmbed(a.store.posts[p].discussionId)
  {
    assert CreatedBy(doc, a.output, |doc|, reuse, a.store.posts[p].discussionId);
  }

  /** After a walk, a discussion it added is the one of a block that owns one. */
  lemma WalkDiscussionOwned(s: Store, doc: seq<Block>, a: Acc, reuse: bool, setId: int, userId: int, k: int)
    requires Progress(s, doc, |doc|, a, reuse, setId, userId)
    requires k in a.store.discussions && k !in s.discussions
    ensures exists j | 0 <= j < |doc| && OwnsDiscussion(doc[j], reuse) :: a.output[j] == OutEmbed(k)
  {
    assert CreatedBy(doc, a.output, |doc|, reuse, k);
  }

  /** The side effect of a committed create: none without a problem embed;
      otherwise, for the first problem embed, a nomination reset when the
      beatmapset is pending, has nominations and the user may reset them, else
      a disqualification when the user may disqualify, else none. */
  lemma CreateSideEffect(s: Store, setId: int, doc: seq<Block>, userId: int, minIssues: int, maxBlocks: int, gate: Gate)
    requires ValidStore(s)
    requires CreateSpec(s, setId, doc, userId, minIssues, maxBlocks, gate).Success?
    ensures var (_, c) := CreateSpec(s, setId, doc, userId, minIssues, maxBlocks, gate).value;
      (forall k | 0 <= k < |doc| :: !IsProblemEmbed(doc[k])) ==> c.effect == NoEffect
    ensures var (s', c) := CreateSpec(s, setId, doc, userId, minIssues, maxBlocks, gate).value;
      var out := StoredDocument(s', c.reviewPostId);
      forall k | FirstProblemAt(doc, k) ::
        && k < |out| && out[k].OutEmbed?
        && (gate.isPending && gate.hasNominations && gate.canResetNominations ==>
              c.effect == NominationReset(out[k].discussionId))
        && (!(gate.isPending && gate.hasNominations && gate.canResetNominations) && gate.canDisqualify ==>
              c.effect == Disqualify(out[k].discussionId))
        && (!(gate.isPending && gate.hasNominations && gate.canResetNominations) && !gate.canDisqualify ==>
              c.effect == NoEffect)
  {
    var a := Walk(Start(s), doc, 0, false, setId, userId).value;
    WalkFromStart(s, doc, false, setId, userId);
    var n := AddDiscussion(a.store, setId, ReviewType, Document(a.output), userId, None, None);
    var s' := n.store.(discussions := Relinked(n.store.discussions, a.childIds, n.discussionId));
    assert CreateSpec(s, setId, doc, userId, minIssues, maxBlocks, gate).value.0 == s';
    assert StoredDocument(s', n.postId) == a.output;
  }

  // ---------------------------------------------------------------------------
  // Update

  /** After an update's walk, a discussion that existed before the call is a
      child id exactly when some embed names it. */
  lemma UpdateChildIds(s: Store, doc: seq<Block>, a: Acc, setId: int, userId: int, id: int)
    requires Progress(s, doc, |doc|, a, true, setId, userId)
    requires id in s.discussions
    ensures id in a.childIds <==> Referenced(doc, id)
  {
    EmbedIdsMembers(a.output, id);
    if id in a.childIds {
      var j :| 0 <= j < |a.output| && a.output[j] == OutEmbed(id);
      assert Reflected(doc[j], a.output[j], s, a.store, true, setId, userId);
      assert doc[j].Embed? && doc[j].discussionId == Some(id);
    }
    if Referenced(doc, id) {
      var j :| 0 <= j < |doc| && doc[j].Embed? && doc[j].discussionId == Some(id);
      assert Reflected(doc[j], a.output[j], s, a.store, true, setId, userId);
    }
  }

  /** After an update's walk the reference check sees exactly the embeds that
      name a discussion of another review before the call: discussions created
      by the walk have no parent, so they never count. */
  lemma ForeignAfterWalk(s: Store, doc: seq<Block>, a: Acc, review: int, setId: int, userId: int)
    requires Progress(s, doc, |doc|, a, true, setId, userId)
    ensures ForeignReference(a.store, a.childIds, review) <==> ForeignIn(s, doc, review)
  {
    if ForeignReference(a.store, a.childIds, review) {
      var id :| id in a.childIds && IsForeign(a.store, id, review);
      assert id in s.discussions;
      UpdateChildIds(s, doc, a, setId, userId, id);
      var j :| 0 <= j < |doc| && doc[j].Embed? && doc[j].discussionId == Some(id);
      assert IsForeign(s, doc[j].discussionId.value, review);
    }
    if ForeignIn(s, doc, review) {
      var j :| 0 <= j < |doc| && doc[j].Embed? && doc[j].discussionId.Some?
               && IsForeign(s, doc[j].discussionId.value, review);
      var id := doc[j].discussionId.value;
      assert Reflected(doc[j], a.output[j], s, a.store, true, setId, userId);
      EmbedIdsMembers(a.output, id);
      assert IsForeign(a.store, id, review);
    }
  }

  /** `update` raises `invalid_document` for an empty document, then fails
      when the beatmapset is gone, then raises the first block's validation
      error, `minimum_issues`, `too_many_blocks`, and `external_references`
      when an embed names another review's discussion; it succeeds otherwise. */
  lemma UpdateOutcome(s: Store, review: int, postId: int, doc: seq<Block>, setExists: bool, userId: int,
                      minIssues: int, maxBlocks: int)
    requires ValidStore(s) && review in s.discussions && postId in s.posts
    ensures |doc| == 0 ==>
              UpdateSpec(s, review, postId, doc, setExists, userId, minIssues, maxBlocks) == Failure(InvalidDocument)
    ensures |doc| > 0 && !setExists ==>
              UpdateSpec(s, review, postId, doc, setExists, userId, minIssues, maxBlocks) == Failure(ArtifactNotFound)
    ensures |doc| > 0 && setExists && FirstError(doc, true).Some? ==>
              UpdateSpec(s, review, postId, doc, setExists, userId, minIssues, maxBlocks)
                == Failure(FirstError(doc, true).value)
    ensures |doc| > 0 && setExists && FirstError(doc, true).None? && (EmbedCount(doc) == 0 || EmbedCount(doc) < minIssues) ==>
              UpdateSpec(s, review, postId, doc, setExists, userId, minIssues, maxBlocks)
                == Failure(MinimumIssues(minIssues))
    ensures |doc| > 0 && setExists && FirstError(doc, true).None? && EmbedCount(doc) > 0 && EmbedCount(doc) >= minIssues
              && |doc| > maxBlocks ==>
              UpdateSpec(s, review, postId, doc, setExists, userId, minIssues, maxBlocks)
                == Failure(TooManyBlocks(maxBlocks))
    ensures |doc| > 0 && setExists && FirstError(doc, true).None? && EmbedCount(doc) > 0 && EmbedCount(doc) >= minIssues
              && |doc| <= maxBlocks && ForeignIn(s, doc, review) ==>
              UpdateSpec(s, review, postId, doc, setExists, userId, minIssues, maxBlocks)
                == Failure(ExternalReferences)
    ensures |doc| > 0 && setExists && FirstError(doc, true).None? && EmbedCount(doc) > 0 && EmbedCount(doc) >= minIssues
              && |doc| <= maxBlocks && !ForeignIn(s, doc, review) ==>
              UpdateSpec(s, review, postId, doc, setExists, userId, minIssues, maxBlocks).Success?
  {
    assert doc[0..] == doc;
    var setId := s.discussions[review].beatmapsetId;
    if |doc| > 0 && setExists && FirstError(doc, true).None? {
      WalkFromStart(s, doc, true, setId, userId);
      ForeignAfterWalk(s, doc, Walk(Start(s), doc, 0, true, setId, userId).value, review, setId, userId);
    }
  }

  /** A committed update overwrites the review's post with the new document
      and the editor, mirrors the document block by block (reused embeds keep
      their ids, new ones point at discussions created for them), leaves
      every other post unchanged, gives each new embed a discussion of its own,
      and adds no rows but the new embeds'. */
  lemma UpdateRecords(s: Store, review: int, postId: int, doc: seq<Block>, setExists: bool, userId: int,
                      minIssues: int, maxBlocks: int)
    requires ValidStore(s) && review in s.discussions && postId in s.posts
    requires UpdateSpec(s, review, postId, doc, setExists, userId, minIssues, maxBlocks).Success?
    ensures var s' := UpdateSpec(s, review, postId, doc, setExists, userId, minIssues, maxBlocks).value;
      && ValidStore(s')
      && postId in s'.posts
      && s'.posts[postId] == s.posts[postId].(message := Document(StoredDocument(s', postId)), lastEditorId := Some(userId))
      && (forall p | p in s.posts && p != postId :: p in s'.posts && s'.posts[p] == s.posts[p])
    ensures var s' := UpdateSpec(s, review, postId, doc, setExists, userId, minIssues, maxBlocks).value;
      Mirrors(doc, StoredDocument(s', postId), s, s', true, s.discussions[review].beatmapsetId, userId)
    ensures var s' := UpdateSpec(s, review, postId, doc, setExists, userId, minIssues, maxBlocks).value;
      var out := StoredDocument(s', postId);
      forall j, k | 0 <= j < k < |doc| && doc[j].Embed? && doc[j].discussionId.None?
                                       && doc[k].Embed? && doc[k].discussionId.None? ::
        out[j] != out[k]
    ensures var s' := UpdateSpec(s, review, postId, doc, setExists, userId, minIssues, maxBlocks).value;
      var out := StoredDocument(s', postId);
      forall k | k in s'.discussions && k !in s.discussions ::
        exists j | 0 <= j < |doc| && doc[j].Embed? && doc[j].discussionId.None? :: out[j] == OutEmbed(k)
    ensures var s' := UpdateSpec(s, review, postId, doc, setExists, userId, minIssues, maxBlocks).value;
      var out := StoredDocument(s', postId);
      forall p | p in s'.posts && p !in s.posts ::
        exists j | 0 <= j < |doc| && doc[j].Embed? && doc[j].discussionId.None? :: out[j] == OutEmbed(s'.posts[p].discussionId)
  {
    var setId := s.discussions[review].beatmapsetId;
    var a := Walk(Start(s), doc, 0, true, setId, userId).value;
    WalkFromStart(s, doc, true, setId, userId);
    var post := s.posts[postId].(message := Document(a.output), lastEditorId := Some(userId));
    var saved := a.store.(posts := a.store.posts[postId := post]);
    var unlinked := saved.(discussions := Unlinked(saved.discussions, a.childIds, review));
    var s' := unlinked.(discussions := Relinked(unlinked.discussions, a.childIds, review));
    assert UpdateSpec(s, review, postId, doc, setExists, userId, minIssues, maxBlocks).value == s';
    assert StoredDocument(s', postId) == a.output;
    assert Keeps(s, a.store, s');
    MirrorsKept(doc, a.output, s, a.store, s', true, setId, userId);
    UpdateWalkRows(s, doc, a, s', setId, userId);
  }

  /** After update's walk, in a store `s'` that adds no rows of its own, new
      embeds have distinct discussions and every added row is a new embed's. */
  lemma UpdateWalkRows(s: Store, doc: seq<Block>, a: Acc, s': Store, setId: int, userId: int)
    requires Progress(s, doc, |doc|, a, true, setId, userId)
    requires forall k | k in s'.discussions :: k in a.store.discussions
    requires forall p | p in s'.posts && p !in s.posts :: p in a.store.posts && s'.posts[p] == a.store.posts[p]
    ensures forall j, k | 0 <= j < k < |doc| && doc[j].Embed? && doc[j].discussionId.None?
                                             && doc[k].Embed? && doc[k].discussionId.None? ::
              a.output[j] != a.output[k]
    ensures forall k | k in s'.discussions && k !in s.discussions ::
              exists j | 0 <= j < |doc| && doc[j].Embed? && doc[j].discussionId.None? :: a.output[j] == OutEmbed(k)
    ensures forall p | p in s'.posts && p !in s.posts ::
              exists j | 0 <= j < |doc| && doc[j].Embed? && doc[j].discussionId.None? ::
                a.output[j] == OutEmbed(s'.posts[p].discussionId)
  {
    forall k | k in s'.discussions && k !in s.discussions
      ensures exists j | 0 <= j < |doc| && doc[j].Embed? && doc[j].discussionId.None? :: a.output[j] == OutEmbed(k)
    {
      WalkDiscussionOwned(s, doc, a, true, setId, userId, k);
    }
    forall p | p in s'.posts && p !in s.posts
      ensures exists j | 0 <= j < |doc| && doc[j].Embed? && doc[j].discussionId.None? ::
                a.output[j] == OutEmbed(s'.posts[p].discussionId)
    {
      WalkPostOwned(s, doc, a, true, setId, userId, p);
    }
  }

  /** A committed update re-parents exactly: a discussion an embed names gets
      the review as parent, one the review had that no embed names loses its
      parent, every other earlier discussion is unchanged, and every
      discussion the update creates is a child of the review. */
  lemma UpdateRelinks(s: Store, review: int, postId: int, doc: seq<Block>, setExists: bool, userId: int,
                      minIssues: int, maxBlocks: int)
    requires ValidStore(s) && review in s.discussions && postId in s.posts
    requires UpdateSpec(s, review, postId, doc, setExists, userId, minIssues, maxBlocks).Success?
    ensures var s' := UpdateSpec(s, review, postId, doc, setExists, userId, minIssues, maxBlocks).value;
      forall k | k in s.discussions ::
        k in s'.discussions &&
        s'.discussions[k] == (if Referenced(doc, k) then s.discussions[k].(parentId := Some(review))
                              else if s.discussions[k].parentId == Some(review) then s.discussions[k].(parentId := None)
                              else s.discussions[k])
    ensures var s' := UpdateSpec(s, review, postId, doc, setExists, userId, minIssues, maxBlocks).value;
      forall k | k in s'.discussions && k !in s.discussions :: s'.discussions[k].parentId == Some(review)
    ensures var s' := UpdateSpec(s, review, postId, doc, setExists, userId, minIssues, maxBlocks).value;
      var out := StoredDocument(s', postId);
      forall k | 0 <= k < |out| && out[k].OutEmbed? && out[k].discussionId in s'.discussions ::
        s'.discussions[out[k].discussionId].parentId == Some(review)
  {
    var setId := s.discussions[review].beatmapsetId;
    var a := Walk(Start(s), doc, 0, true, setId, userId).value;
    WalkFromStart(s, doc, true, setId, userId);
    var post := s.posts[postId].(message := Document(a.output), lastEditorId := Some(userId));
    var saved := a.store.(posts := a.store.posts[postId := post]);
    var unlinked := saved.(discussions := Unlinked(saved.discussions, a.childIds, review));
    var s' := unlinked.(discussions := Relinked(unlinked.discussions, a.childIds, review));
    assert UpdateSpec(s, review, postId, doc, setExists, userId, minIssues, maxBlocks).value == s';
    assert StoredDocument(s', postId) == a.output;
    forall k | k in s.discussions
      ensures k in s'.discussions &&
        s'.discussions[k] == (if Referenced(doc, k) then s.discussions[k].(parentId := Some(review))
                              else if s.discussions[k].parentId == Some(review) then s.discussions[k].(parentId := None)
                              else s.discussions[k])
    {
      UpdateChildIds(s, doc, a, setId, userId, k);
    }
    forall k | 0 <= k < |a.output| && a.output[k].OutEmbed? && a.output[k].discussionId in s'.discussions
      ensures s'.discussions[a.output[k].discussionId].parentId == Some(review)
    {
      EmbedIdsMembers(a.output, a.output[k].discussionId);
    }
  }

  /** With every embed naming an existing discussion, the walk creates nothing:
      it leaves the store as it is and computes the same output whatever the store. */
  lemma {:induction false} ReuseWalkIgnoresStore(a: Acc, t: Store, doc: seq<Block>, i: nat,
                                                setId: int, setId': int, userId: int)
    requires i <= |doc|
    requires forall k | i <= k < |doc| && doc[k].Embed? :: doc[k].discussionId.Some?
    ensures Walk(a, doc, i, true, setId, userId).Success? ==> Walk(a, doc, i, true, setId, userId).value.store == a.store
    ensures Walk(a.(store := t), doc, i, true, setId', userId)
         == match Walk(a, doc, i, true, setId, userId)
            case Success(r) => Success(r.(store := t))
            case Failure(e) => Failure(e)
    decreases |doc| - i
  {
    if i < |doc| {
      var step := Step(a, doc[i], true, setId, userId);
      var step' := Step(a.(store := t), doc[i], true, setId', userId);
      assert step' == match step case Success(r) => Success(r.(store := t)) case Failure(e) => Failure(e);
      if step.Success? {
        assert step.value.store == a.store;
        assert step'.value == step.value.(store := t);
        ReuseWalkIgnoresStore(step.value, t, doc, i + 1, setId, setId', userId);
      }
    }
  }

  /** Repeating an update whose embeds all name existing discussions, on the
      store the first one committed, commits that same store again. */
  lemma UpdateIdempotent(s: Store, review: int, postId: int, doc: seq<Block>, setExists: bool, userId: int,
                         minIssues: int, maxBlocks: int)
    requires review in s.discussions && postId in s.posts
    requires AllReuse(doc)
    requires UpdateSpec(s, review, postId, doc, setExists, userId, minIssues, maxBlocks).Success?
    ensures var s1 := UpdateSpec(s, review, postId, doc, setExists, userId, minIssues, maxBlocks).value;
      && review in s1.discussions && postId in s1.posts
      && UpdateSpec(s1, review, postId, doc, setExists, userId, minIssues, maxBlocks) == Success(s1)
  {
    var setId := s.discussions[review].beatmapsetId;
    var a := Walk(Start(s), doc, 0, true, setId, userId).value;
    ReuseWalkIgnoresStore(Start(s), s, doc, 0, setId, setId, userId);
    assert a.store == s;
    var post := s.posts[postId].(message := Document(a.output), lastEditorId := Some(userId));
    var saved := s.(posts := s.posts[postId := post]);
    var unlinked := saved.(discussions := Unlinked(saved.discussions, a.childIds, review));
    var s1 := unlinked.(discussions := Relinked(unlinked.discussions, a.childIds, review));
    assert UpdateSpec(s, review, postId, doc, setExists, userId, minIssues, maxBlocks).value == s1;
    assert review in s1.discussions && postId in s1.posts;
    var setId1 := s1.discussions[review].beatmapsetId;
    ReuseWalkIgnoresStore(Start(s), s1, doc, 0, setId, setId1, userId);
    assert Start(s).(store := s1) == Start(s1);
    assert Walk(Start(s1), doc, 0, true, setId1, userId) == Success(a.(store := s1));
    assert !ForeignReference(s1, a.childIds, review);
    assert s1.posts[postId] == post;
    var post1 := s1.posts[postId].(message := Document(a.output), lastEditorId := Some(userId));
    assert post1 == post;
    assert s1.posts[postId := post1] == s1.posts;
    var saved1 := s1.(posts := s1.posts[postId := post1]);
    assert saved1 == s1;
    assert Unlinked(s1.discussions, a.childIds, review) == s1.discussions;
    assert Relinked(s1.discussions, a.childIds, review) == s1.discussions;
  }

  // ---------------------------------------------------------------------------
  // Worked examples

  /** An introduction and one problem embed, on an empty store with
      `minIssues` 1 and `maxBlocks` 5: the embed becomes discussion 1, the
      review discussion 2, the stored document is the paragraph and the embed's
      id, and the embed is the problem that decides the side effect. */
  lemma CreateIntroAndProblem(gate: Gate)
    ensures var doc := [Paragraph(Some("intro")), Embed(ProblemType, Some("issue here"), Some(10), None, None)];
      var r := CreateSpec(Store(map[], map[], 1, 1), 7, doc, 3, 1, 5, gate);
      && r.Success?
      && r.value.1.reviewId == 2
      && StoredDocument(r.value.0, r.value.1.reviewPostId) == [OutParagraph("intro"), OutEmbed(1)]
      && 1 in r.value.0.discussions && r.value.0.discussions[1].parentId == Some(2)
      && r.value.1.effect == SideEffectFor(Some(1), gate)
  {
    var s := Store(map[], map[], 1, 1);
    var doc := [Paragraph(Some("intro")), Embed(ProblemType, Some("issue here"), Some(10), None, None)];
    var a1 := Acc(s, [OutParagraph("intro")], [], None);
    assert |"intro"| == 5 && Start(s).output + [OutParagraph("intro")] == a1.output;
    assert Step(Start(s), doc[0], false, 7, 3) == Success(a1);
    var n := AddDiscussion(s, 7, ProblemType, Text("issue here"), 3, Some(10), None);
    var a2 := Acc(n.store, [OutParagraph("intro"), OutEmbed(1)], [1], Some(1));
    assert n.discussionId == 1 && a1.output + [OutEmbed(1)] == a2.output && a1.childIds + [1] == a2.childIds;
    assert Step(a1, doc[1], false, 7, 3) == Success(a2);
    assert Walk(a2, doc, 2, false, 7, 3) == Success(a2);
    assert Walk(Start(s), doc, 0, false, 7, 3) == Success(a2);
  }

  /** A document of paragraphs only fails with `minimum_issues`, even when
      `minIssues` is 0. */
  lemma CreateWithoutEmbeds(s: Store, setId: int, doc: seq<Block>, userId: int, minIssues: int, maxBlocks: int, gate: Gate)
    requires |doc| > 0
    requires forall k | 0 <= k < |doc| :: doc[k].Paragraph? && doc[k].text.Some?
                                          && |doc[k].text.value| <= BlockTextLengthLimit
    ensures CreateSpec(s, setId, doc, userId, minIssues, maxBlocks, gate) == Failure(MinimumIssues(minIssues))
  {
    ParagraphsOnly(doc);
    CreateOutcome(s, setId, doc, userId, minIssues, maxBlocks, gate);
  }

  lemma {:induction false} ParagraphsOnly(doc: seq<Block>)
    requires forall k | 0 <= k < |doc| :: doc[k].Paragraph? && doc[k].text.Some?
                                          && |doc[k].text.value| <= BlockTextLengthLimit
    ensures FirstError(doc, false).None? && EmbedCount(doc) == 0
  {
    if |doc| > 0 {
      ParagraphsOnly(doc[1..]);
    }
  }
}
