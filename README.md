# ForumHub list and tree logic in Dafny

ForumHub is a client-side discussion forum. This project models the list and tree
logic under its pages, and the post store those pages call:

- **Post store** (`services/postService.ts`). The post collection lives in local
  storage under the key `forumhub_posts`. Each operation reads and writes that
  collection whole. The first read seeds the two demo posts. `createPost` puts a
  new post in front. `getPostById` finds the first post with an id. The store is
  a class whose one field is the local storage, a map from key to post list.
- **Thread page** (`pages/ThreadPage.tsx`). This covers the recursive
  reply insertion into the comment forest and the handlers that replace the
  page's `post` state after a comment, a reply or a vote.
- **Thread composer** (`pages/CreateThreadPage.tsx`). This covers the tag list
  and its handlers: the Enter key, the suggestion merge and tag removal. It also
  covers the blank-field guard in front of publishing.
- **Member directory** (`pages/MembersPage.tsx`). This covers the search and
  role filters and the in-place sort of the filtered copy in three orders. It
  also covers the count of top contributors.
- **Badge dashboard** (`pages/BadgesPage.tsx`). This covers the category
  filter, the earned/total/percentage summary and the style class of each
  rarity.

Modules follow the source files:

| file | module | models |
|---|---|---|
| `collections.dfy` | `Collections` | `filter`, `filter(...).length`, `Array.from(new Set(...))` |
| `text.dfy` | `Text` | `trim`, `toLowerCase`, `includes`, number to decimal string |
| `types.dfy` | `ForumTypes` | the records of `types.ts` |
| `post_service.dfy` | `PostService` | `services/postService.ts` |
| `thread_page.dfy` | `ThreadPage` | `pages/ThreadPage.tsx` |
| `create_thread_page.dfy` | `CreateThreadPage` | `pages/CreateThreadPage.tsx` |
| `members_page.dfy` | `MembersPage` | `pages/MembersPage.tsx` |
| `badges_page.dfy` | `BadgesPage` | `pages/BadgesPage.tsx` |

The post store, the thread page and the composer each hold state that their
handlers update; each is a class whose methods are the handlers. The member
directory and the badge dashboard only compute from their state, so their
lists and selections are parameters of functions and of one method. A React
`setX` call is an assignment to field `x`. The service calls a handler makes
whose code is not part of this model become parameters of the handler. These
are `addComment`, `addReply`, `upvotePost`, `gemini.suggestTags`, `getUsers` and
`getBadges`. `Date.now()` becomes a number parameter. `createPost` reads it
twice, once for the id and once for the thumbnail, so it takes two readings.
`localeCompare` is a parameter too. The sort needs only that it orders strings
totally and transitively.

Where the code and its own type declarations disagree, the model follows the code:

- The thread page reads `post.comments`, but `Post` in `types.ts` has no
  `comments` field. The page's post is therefore a `PagePost`: the stored record
  plus its comment forest.
- `handleNewReply` raises `commentsCount` by one even when no comment has the
  parent id. `ThreadPage.WithReplyDrift` states this.
- The cached `commentsCount` is not the size of the comment tree. The seed posts
  start with counts of 45 and 128 and no comments. The model states how the
  difference between the two (`ThreadPage.CountDrift`) changes for a new root
  comment without replies, and for a reply without replies whose parent id
  occurs at most once (`ThreadPage.WithCommentKeepsDrift`,
  `ThreadPage.WithReplyDrift`). It does not state that the difference is zero.
- `Badge` is imported by `pages/BadgesPage.tsx` (line 4) but declared nowhere
  in `types.ts`. Its fields are the ones the page reads: id, name, description,
  icon, category, rarity, isEarned, and progress with current and target
  (lines 19, 23 and 99-131). The four rarities are the cases of
  `getRarityColor` (lines 33-36).

## Model

| member | source | states |
|---|---|---|
| PostService.PostStore.Posts | services/postService.ts:67-72 | What a read yields: the stored list when the key is present, the seed list otherwise |
| PostService.PostStore.GetPosts | services/postService.ts:66-73 | With nothing stored, writes the seed list and returns exactly that list; with a stored list, returns it and writes nothing |
| PostService.NewPost | services/postService.ts:77-88 | The new post's id is the decimal id-clock reading; title, body and tags are the inputs; an empty category becomes 'General'; the author is the current user; one upvote, no comments, timestamp 'Just now'; the thumbnail is built from the second clock reading |
| PostService.ThumbnailFor | services/postService.ts:87 | The thumbnail address is the image-service prefix, then digits that read back as the clock reading, then the size suffix |
| PostService.PostStore.CreatePost | services/postService.ts:75-93 | The stored list becomes the new post followed by every earlier post in order; the post returned is the one stored at index 0 |
| PostService.FindById | services/postService.ts:96 | None exactly when no post has the id; otherwise the post at the first index with that id |
| PostService.PostStore.GetPostById | services/postService.ts:95-97 | Returns the first match in the list as read before the call, and seeds the store when nothing is stored |
| PostService.CreatedPostIsFound | services/postService.ts:90-96 | A lookup of a freshly created post's id finds that post, whatever the older posts are |
| PostService.CreateKeepsOtherLookups | services/postService.ts:90-96 | After a post is prepended, a lookup of any other id returns the same answer as before |
| PostService.DistinctClocksDistinctIds | services/postService.ts:78 | Different clock readings give different id strings (equal readings give equal ids) |
| Text.NatToString | services/postService.ts:78 | The decimal string of a number is non-empty, all digits, without a leading zero |
| Text.DecimalRoundTrip | services/postService.ts:78 | Reading the decimal string back gives the number |
| Text.NatToStringInjective | services/postService.ts:78 | Different numbers have different decimal strings |
| ThreadPage.UpdateComments | pages/ThreadPage.tsx:143-153 | Same length and ids in order; every node keeps all fields but its replies; a node with the parent id gets the new reply at the end of its existing replies (which are not searched); other nodes keep the number of their replies |
| ThreadPage.UpdateReachesEveryDepth | pages/ThreadPage.tsx:143-153 | Below every node other than the parent, the replies get the same update applied one level down, so a parent at any depth receives the reply |
| ThreadPage.UpdateWithoutParent | pages/ThreadPage.tsx:143-153 | When no node at any depth has the parent id, the forest comes back unchanged |
| ThreadPage.UpdateWithUniqueParent | pages/ThreadPage.tsx:143-155 | When exactly one node has the parent id, the forest's node count grows by the size of the new reply |
| ThreadPage.WithComment | pages/ThreadPage.tsx:129-133 | The comment is appended after all root comments, which stay as they were; the count goes up by one and nothing else in the post changes |
| ThreadPage.WithReply | pages/ThreadPage.tsx:155-160 | The root list keeps its length; the count goes up by one and nothing else in the post record changes |
| ThreadPage.WithCommentKeepsDrift | pages/ThreadPage.tsx:129-133 | A new root comment without replies keeps the difference between the count and the tree size |
| ThreadPage.WithReplyDrift | pages/ThreadPage.tsx:143-160 | A leaf reply under a parent that occurs once keeps the difference; under an absent parent the tree is unchanged and the count still rises by one |
| ThreadPage.ThreadPageState.constructor | pages/ThreadPage.tsx:109-113 | The page starts with its route id, the post as loaded (or none) and an empty comment box |
| ThreadPage.ThreadPageState.HandlePostComment | pages/ThreadPage.tsx:122-138 | Nothing changes for blank text, a missing id or post, or no returned comment; otherwise the post becomes WithComment of the returned comment and the text box is cleared |
| ThreadPage.ThreadPageState.HandleNewReply | pages/ThreadPage.tsx:140-161 | Without a post nothing changes; otherwise the post becomes WithReply, whether or not the parent exists |
| ThreadPage.ThreadPageState.HandleUpvote | pages/ThreadPage.tsx:163-167 | Without an id or post nothing changes; otherwise only the upvote count changes, to the returned count |
| ThreadPage.CommentItemState.constructor | pages/ThreadPage.tsx:14-16 | A comment starts with its reply box closed and empty |
| ThreadPage.CommentItemState.HandlePostReply | pages/ThreadPage.tsx:19-33 | Blank reply text or no returned reply changes nothing; otherwise the page puts the reply under this comment and the reply box is cleared and closed |
| Text.Trim | pages/CreateThreadPage.tsx:28 | The result is the input with the maximal whitespace prefix and suffix removed: it occurs in the input there, starts and ends with non-whitespace, and is empty exactly for blank input |
| Text.TrimIdempotent | pages/CreateThreadPage.tsx:30-31 | Trimming a trimmed string changes nothing |
| Text.ToLower | pages/CreateThreadPage.tsx:30-31 | Same length; each ASCII capital becomes its lower-case letter, so no ASCII capital remains; every other character is kept |
| CreateThreadPage.NormalizeTag | pages/CreateThreadPage.tsx:30-31 | The stored form of a typed tag: as long as the trimmed input, empty exactly for blank input, no whitespace at either end, no ASCII capital |
| CreateThreadPage.CreateThreadForm.constructor | pages/CreateThreadPage.tsx:9-13 | Empty title and content, category 'Engineering', tags javascript and react, empty tag input |
| Collections.KeepFirstAfter | pages/CreateThreadPage.tsx:22 | Deduplicating a duplicate-free list followed by more values gives that list followed by the new values at their first occurrences |
| Collections.ArrayFromSetIsKeepFirst | pages/CreateThreadPage.tsx:22 | Inserting values into an empty Set in order and reading it back gives each value once, at its first occurrence |
| Collections.SetInsertAll | pages/CreateThreadPage.tsx:22 | Adding values to a Set keeps the earlier insertion order as a prefix, adds no duplicate, and holds exactly the old and the added values |
| CreateThreadPage.MergeSuggested | pages/CreateThreadPage.tsx:22 | The merge holds every tag and every suggestion, each exactly once |
| CreateThreadPage.MergeSuggestedSpec | pages/CreateThreadPage.tsx:22 | The merge is the existing tags in order followed by each suggested tag not already present, once, at its first occurrence; no duplicates and no cap |
| CreateThreadPage.CreateThreadForm.HandleSuggestTags | pages/CreateThreadPage.tsx:17-25 | Skipped when title or content is empty and a no-op for no suggestions; otherwise the tags become the merge; no duplicates before or after |
| CreateThreadPage.CreateThreadForm.HandleAddTag | pages/CreateThreadPage.tsx:27-35 | Nothing changes unless the key is Enter, the input is not blank and there are fewer than five tags; then the trimmed lower-cased input is appended unless present and the input is cleared; at most five tags stay at most five |
| CreateThreadPage.WithoutTag | pages/CreateThreadPage.tsx:38 | The tag is gone, every other tag occurs as often as before and in the same relative order, no duplicates arise |
| CreateThreadPage.WithoutAbsentTag | pages/CreateThreadPage.tsx:38 | Removing a tag that is not in the list leaves the list unchanged |
| CreateThreadPage.CreateThreadForm.RemoveTag | pages/CreateThreadPage.tsx:37-39 | The tags become the list without the removed tag |
| CreateThreadPage.CreateThreadForm.HandlePublish | pages/CreateThreadPage.tsx:41-57 | Publishes exactly when the trimmed title and content are both non-empty; then only the posts key of local storage changes, to the new post in front of the earlier ones; otherwise the store is unchanged |
| Text.Includes | pages/MembersPage.tsx:28-29 | True exactly when the query occurs in the string at some position |
| Collections.Filter | pages/MembersPage.tsx:27-35 | `filter` keeps exactly the elements that pass, each as often as it occurs, in their original order |
| MembersPage.Filtered | pages/MembersPage.tsx:22-36 | Every member kept matches the search (lower-cased name or username contains the lower-cased query) and the role; every matching member is kept as often as it occurs; no other member is; the members kept stay in the order of the member list |
| MembersPage.FilteredKeepsAll | pages/MembersPage.tsx:25-36 | With no query and role 'All' the members are all kept |
| MembersPage.Compare | pages/MembersPage.tsx:39-44 | Under 'reputation' a member may precede another exactly when its reputation is at least as high, and they tie exactly when equal; 'name' compares names, 'newest' compares join dates the other way round |
| MembersPage.InsertAt | pages/MembersPage.tsx:39-44 | One insertion pass keeps the array's contents and the order within every tie class, leaves everything after position `i` untouched, and leaves the prefix up to `i` with neighbours in order |
| MembersPage.SwapDownKeepsTieOrder | pages/MembersPage.tsx:39-44 | Exchanging an out-of-order neighbouring pair keeps the order within every tie class |
| MembersPage.SortMembers | pages/MembersPage.tsx:39-44 | The sort permutes the array, leaves every pair of neighbours in comparator order, and is stable: members that tie keep their relative order |
| MembersPage.AdjacentSortedIsSorted | pages/MembersPage.tsx:39-44 | With a transitive string order, neighbours in order means every pair in order |
| MembersPage.SortedMeaning | pages/MembersPage.tsx:40-42 | In comparator order: reputation non-increasing; names non-decreasing under localeCompare; join dates non-increasing under it |
| MembersPage.PermutationOfFiltered | pages/MembersPage.tsx:22-39 | A permutation of the filtered list holds only listed members and every listed member as often as in the member list |
| MembersPage.FilteredAndSortedMembers | pages/MembersPage.tsx:21-47 | The result is a permutation of the filtered members, so it holds every matching member and nothing else; it is ordered by the chosen sort order for every pair; members that tie appear in the order of the filtered list, which keeps the order of the member list |
| Collections.Count | pages/MembersPage.tsx:49 | The count is at most the length, zero exactly when no element qualifies, the length exactly when all do |
| Collections.CountIsFilterLength | pages/MembersPage.tsx:49 | The count is the length of the filtered list |
| MembersPage.TopContributorsCount | pages/MembersPage.tsx:49 | At most the number of members, zero exactly when nobody has more than 5000 reputation |
| MembersPage.TopContributorsCountAppend | pages/MembersPage.tsx:49 | The count adds up over two parts of the member list |
| BadgesPage.FilteredBadges | pages/BadgesPage.tsx:17-20 | 'All' gives the list unchanged; another category gives only badges of that category, each one of them as often as it occurs, in the original order |
| BadgesPage.FilteredBadgesIdempotent | pages/BadgesPage.tsx:17-20 | Filtering by the same category again changes nothing |
| BadgesPage.Stats | pages/BadgesPage.tsx:22-29 | Earned counts the earned badges and is at most the total, the list length; the percentage is the nearest integer to 100 * earned / total (halves up), between 0 and 100, 0 for an empty list or nothing earned, 100 when all are earned |
| BadgesPage.RoundedPercentage | pages/BadgesPage.tsx:27 | The rounded quotient lies within half a unit of the exact percentage and between 0 and 100 |
| BadgesPage.StatsAppend | pages/BadgesPage.tsx:23-26 | Earned and total add up over two parts of the badge list |
| BadgesPage.RarityColor | pages/BadgesPage.tsx:31-39 | Each rarity's class list, assembled as `text-<colour> bg-<light> dark:bg-<dark>` from the colour names of the four cases, begins with a text colour and carries a dark-mode background |
| BadgesPage.RarityColorDistinct | pages/BadgesPage.tsx:31-39 | The four rarities have four different style strings |

## Left out

- `services/geminiService.ts`: an asynchronous call to an external AI service. Its answer is the `suggested` parameter of `HandleSuggestTags`.
- `addComment`, `addReply`, `upvotePost`, `getUsers`, `getBadges`, `getCurrentUser` and `updateCurrentUser` are not part of this model. The handlers take their results as parameters.
- `setTimeout` delays, `async`/`await` and the `isSubmitting`, `isSuggesting` and `isPublishing` flags: each handler is one atomic step, with the service result supplied up front.
- `alert`, `navigate('/')` and the `try`/`catch` around publishing: the model shows only the store update.
- The thread page's initial load (`useEffect` calling `getPostById`): the stored `Post` has no comment forest, so the page's `PagePost` is a constructor parameter.
- JSON serialisation: it is the identity. A corrupt stored value, which would make `JSON.parse` throw, cannot occur. An empty stored string, which `getPosts` treats like a missing one, cannot occur either, because the store only ever holds post lists.
- Text.ToLower: maps only the ASCII letters A–Z. JavaScript's full Unicode case mapping is not modelled.
- Text.Trim: strips the characters JavaScript's `trim` treats as whitespace and line terminators, as a fixed list of code points.
- `localeCompare` is an abstract parameter that must be total and transitive. The sort's result is stated only for such a comparison.
- MembersPage.SortMembers: an insertion sort. It stands for the engine's sort and shares its stability, but not its number or order of comparisons.
- Strings are sequences of Unicode code points. JavaScript's UTF-16 code units, lone surrogates and UTF-16 lengths are not modelled.
- BadgesPage.Stats: the percentage is computed exactly on rationals. Floating-point rounding of `earned / total * 100` before `Math.round` is not modelled. The progress-bar width and the `toFixed(1) + 'k'` vote display are not modelled either.
- ThreadPage.WithReplyDrift: covers only a parent id that occurs at most once and a reply without replies. When several nodes share the parent id, each gets the reply, so the tree grows by more than the one the count rises by. The model states nothing about that case.
- BadgesPage.RarityColor: rarity is a four-valued type, so the `default` branch of the switch cannot be reached and is not modelled.
- Routing (`App.tsx`, `components/Layout.tsx`) and the static pages (feed, profile, categories, settings) are not part of this model.
- Notifications, bookmarks and voting on the store do not appear in the service code and are not part of this model.
- `Category` and `Tag` are declared as records but no modelled operation uses them.
