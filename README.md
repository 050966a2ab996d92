# Review documents for beatmapset discussions

A model of osu-web's review document service (`BeatmapsetDiscussionReview`).
A review is a beatmapset discussion of type `review`. Its starting post stores
an ordered document of blocks:

- `paragraph` blocks, which are stored verbatim;
- `embed` blocks, each backed by a child discussion of its own, which are
  stored only as `{type: embed, discussion_id}`.

`create` validates the submitted document block by block and saves a
discussion and a post for each embed. It checks the quotas (at least one
embed, at least `minIssues` embeds, at most `maxBlocks` blocks). It then saves
the review and its post, and makes every embed a child of the review. When an
embed of type `problem` is present, the first one can reset the beatmapset's
nominations or disqualify it.

`update` validates the same way, but it reuses an embed that names an existing
discussion. It rejects embeds that belong to another review. It then rewrites
the review post and re-parents the children: removed ones are unlinked and
current ones linked. Both operations run in one database transaction that is
rolled back on any error.

The project has four modules.

- `ReviewTypes` (`review_types.dfy`) holds the data:
  - blocks, output blocks and errors;
  - the discussion and post rows;
  - a `Store` of both tables with their next auto-increment ids.
- `ReviewSpec` (`review_spec.dfy`) states both operations as functions on a
  `Store`:
  - `Step` is one iteration of the `foreach` over the document;
  - `Walk` processes the whole document and stops at the first invalid block;
  - `CreateSpec` and `UpdateSpec` give the store a call commits, or the error
    it raises.
- `ReviewProperties` (`review_properties.dfy`) proves what the service
  promises about those functions (the model table below lists each lemma).
- `BeatmapsetDiscussionReview` (`review_service.dfy`) is the imperative
  service. Class `ReviewStore` holds the two tables as maps and the two id
  counters as fields.
  - `Create` and `Update` take a snapshot (`DB::beginTransaction`).
  - They then run a transaction body whose `for` loop saves rows block by
    block and may return an error halfway.
  - On an error they restore the snapshot (`DB::rollBack`).
  - Each body is proved against `CreateSpec` / `UpdateSpec` through a loop
    invariant. The invariant says that the rest of the walk from the current
    state gives the same result as the whole walk from the initial state.

Inputs that come from outside the class are parameters:

- the configuration values `minIssues` and `maxBlocks`;
- whether the beatmapset still exists (`findOrFail`);
- the answers of `isPending`, `hasNominations` and the two permission checks,
  as a `Gate` value.

The nomination reset or disqualification is returned as a `SideEffect` tag.

Some behaviour of `update` is easy to miss; the model follows the code:

- The reference check in `update` only rejects discussions whose parent is set
  and different from the review. A parentless discussion named by an embed is
  therefore adopted as a child. That includes a discussion from outside the
  review and the review itself. `UpdateRelinks` states this outcome.
- `update` does not check that a named discussion exists. The stored document
  can therefore name an id with no discussion behind it. Re-parenting such an
  id changes nothing.
- `minimum_issues` counts child ids. On update, two embeds that name the same
  discussion count twice.
- `update` does not re-evaluate the problem side effect.

## Model

| member | source | states |
|---|---|---|
| `ReviewSpec.AddDiscussion` | app/Libraries/BeatmapsetDiscussionReview.php:238-259 | `createPost` adds exactly one unresolved, unparented discussion with the given type, beatmap, timestamp and user, plus one post of it holding the message; on a valid store both ids are fresh and the store stays valid |
| `ReviewSpec.Step` | app/Libraries/BeatmapsetDiscussionReview.php:35-77 | one block fails exactly when the source-ordered validator (type set, text present unless an update embed names a discussion, type known, paragraph within 750 code points) reports an error, and with that error; on success it adds one output block, and one child id exactly for an embed |
| `ReviewSpec.Walk` | app/Libraries/BeatmapsetDiscussionReview.php:145-197 | processing the blocks fails exactly when some block is invalid, with the first block's error; on success the output has one entry per block and there is one child id per embed block |
| `ReviewProperties.EmbedIdsMembers` | app/Libraries/BeatmapsetDiscussionReview.php:54-58 | the embed ids of an output are exactly the discussion ids of its embed entries |
| `ReviewProperties.WalkFromStart` | app/Libraries/BeatmapsetDiscussionReview.php:34-79 | after a successful walk every earlier row is unchanged; each output entry reflects its block (paragraph text verbatim, a named discussion id kept, otherwise a freshly created discussion with the block's fields and a fresh post with its text); new discussions have no parent and are child ids; the problem post is the first `problem` embed |
| `ReviewProperties.CreateOutcome` | app/Libraries/BeatmapsetDiscussionReview.php:20-89 | create fails with `invalid_document` on an empty document, else with the first block error, else with `minimum_issues` when there is no embed or fewer than `minIssues`, else with `too_many_blocks` when the document is longer than `maxBlocks`; otherwise it succeeds |
| `ReviewProperties.CreateRecords` | app/Libraries/BeatmapsetDiscussionReview.php:44-100 | a committed create adds a fresh `review` discussion and its fresh post holding the stored document; the stored document mirrors the input in order; every embed's discussion has the review as parent; every earlier row is unchanged; distinct embeds have distinct discussions; and the only new discussions and posts are the review's and its embeds' |
| `ReviewProperties.CreateSideEffect` | app/Libraries/BeatmapsetDiscussionReview.php:59-115 | with no `problem` embed there is no side effect; otherwise, for the first problem embed's discussion, a nomination reset when pending, nominated and allowed to reset, else a disqualification when allowed to disqualify, else none |
| `ReviewProperties.CreateIntroAndProblem` | app/Libraries/BeatmapsetDiscussionReview.php:20-125 | an introduction plus one problem embed on an empty store commits: the embed becomes discussion 1 and is parented to review 2, the stored document is the paragraph and embed 1, and embed 1 decides the side effect |
| `ReviewProperties.CreateWithoutEmbeds` | app/Libraries/BeatmapsetDiscussionReview.php:81-84 | a document of valid paragraphs only fails with `minimum_issues`, whatever `minIssues` is, including 0 |
| `ReviewProperties.UpdateChildIds` | app/Libraries/BeatmapsetDiscussionReview.php:159-179 | after an update's walk, a discussion that existed before the call is a child id exactly when some embed names it |
| `ReviewProperties.ForeignAfterWalk` | app/Libraries/BeatmapsetDiscussionReview.php:209-213 | the reference check fires exactly when an embed names a discussion that, before the call, had a parent other than the review; discussions the walk created never count |
| `ReviewProperties.UpdateOutcome` | app/Libraries/BeatmapsetDiscussionReview.php:128-213 | update fails with `invalid_document` on an empty document, else when the beatmapset is gone, else with the first block error, else `minimum_issues`, else `too_many_blocks`, else `external_references` when an embed names another review's discussion; otherwise it succeeds |
| `ReviewProperties.UpdateRecords` | app/Libraries/BeatmapsetDiscussionReview.php:159-218 | a committed update sets the review post's message to the stored document and its last editor to the user; the stored document mirrors the input in order, reused embeds keeping their ids; every other post is unchanged; distinct embeds without a `discussion_id` have distinct discussions; every discussion and post it adds belongs to such an embed, so no new review is created |
| `ReviewProperties.UpdateRelinks` | app/Libraries/BeatmapsetDiscussionReview.php:220-227 | a committed update gives the review as parent to every earlier discussion an embed names, clears the parent of every former child no embed names, leaves every other earlier discussion unchanged, and makes every discussion it created a child of the review |
| `ReviewProperties.ReuseWalkIgnoresStore` | app/Libraries/BeatmapsetDiscussionReview.php:159-162 | when every embed names a discussion the walk writes nothing and computes the same output on any store |
| `ReviewProperties.UpdateIdempotent` | app/Libraries/BeatmapsetDiscussionReview.php:215-231 | repeating an update whose embeds all name discussions, on the store the first one committed, commits that same store again |
| `BeatmapsetDiscussionReview.ReviewStore.CreatePost` | app/Libraries/BeatmapsetDiscussionReview.php:238-259 | saves the discussion then the post, leaving the store `AddDiscussion` describes and returning both ids |
| `BeatmapsetDiscussionReview.ReviewStore.Rollback` | app/Libraries/BeatmapsetDiscussionReview.php:121-124 | restores the snapshot exactly |
| `BeatmapsetDiscussionReview.ReviewStore.CreateInTransaction` | app/Libraries/BeatmapsetDiscussionReview.php:28-120 | the loop over the blocks, the quota checks, saving the review and linking its children yield the store and the review `CreateSpec` commits, or `CreateSpec`'s error |
| `BeatmapsetDiscussionReview.ReviewStore.Create` | app/Libraries/BeatmapsetDiscussionReview.php:20-125 | returns `CreateSpec`'s result; on any error the store is exactly as before the call, embeds saved earlier in the call included; the store stays valid |
| `BeatmapsetDiscussionReview.ReviewStore.UpdateInTransaction` | app/Libraries/BeatmapsetDiscussionReview.php:138-231 | the loop over the blocks, the quota and reference checks, the post rewrite, unlinking and relinking yield the store `UpdateSpec` commits and `true`, or `UpdateSpec`'s error |
| `BeatmapsetDiscussionReview.ReviewStore.Update` | app/Libraries/BeatmapsetDiscussionReview.php:128-236 | returns `true` with `UpdateSpec`'s store, or `UpdateSpec`'s error; on any error the store is exactly as before the call; the store stays valid |

## Left out

- `app/Libraries/Search/UserSearch.php` is not part of this model. It only assembles a fixed search query.
- Translated error messages (`trans`, `trans_choice`) become error tags. The tags carry the limit where the message does.
- `json_encode` is not modelled byte for byte. A review post holds the stored document as a sequence of output blocks.
- Faults raised by `saveOrExplode` or the bulk updates are not modelled. Such a fault would abort and roll back like any other error.
- The transaction machinery is reduced to a snapshot and its restore. The id counters are restored too, although a database's auto-increment may not be.
- Concurrent calls and database isolation are not modelled.
- `priv_check_user`, `isPending` and `hasNominations` are external collaborators. Their answers are the `Gate` booleans.
- `disqualify`, `refreshCache` and `BeatmapsetEvent::log` are external collaborators. The transition they perform is returned as a `SideEffect` tag, and their own failures are not modelled.
- `Beatmapset::findOrFail` is the `setExists` flag. It fails with `ArtifactNotFound` before the transaction starts.
- `config(...)` values are the `minIssues` and `maxBlocks` parameters.
- PHP's dynamic typing is reduced to tags:
  - a block's `type` is one of four cases;
  - a text that is not a string counts as missing, as with `get_string`;
  - identifiers and timestamps are integers.
- Non-string `type` values, and loose `==` matches against them in the `switch`, are not modelled.
- An embed without `discussion_type` is not modelled, because the model's embed always carries one. In the source, reading the missing key raises a PHP error.
- The review's starting post is passed as `postId`. A caller must name a post of the review, so the case of a review without one is not modelled.
