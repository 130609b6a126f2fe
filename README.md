# yatube posts: a verified model of the request handlers and tables

Yatube is a small blogging site built on Django. Its `posts` app keeps five
tables:
- users;
- groups, each with a unique slug;
- posts, each with an author, an optional group and an optional image;
- comments on posts;
- follow rows, each naming a follower and an author.

Its handlers serve five pages. Four of them are feeds, ordered newest first and cut into pages:
- the home feed;
- a group's feed;
- an author's profile;
- the feed of the authors one follows.

The fifth is a post's page: the post, the first 30 characters of its text and its comments. That page is not paginated, and its comments have no declared order.

The handlers that write are:
- create a post;
- edit one's own post;
- comment on a post;
- follow an author;
- unfollow an author.

This project models that core in Dafny:
- The tables are sequences of records in an in-memory store (`Views.Store`). Integer keys stand in for primary keys.
- Read-only pages are functions of the store.
- Handlers that write are methods of the store, with `modifies` clauses.

Several things become inputs:
- the logged-in user;
- whether the submitted form is valid, with its cleaned fields;
- the HTTP method;
- the clock;
- the page size.

The store keeps an integrity invariant, `Integrity.Consistent`:
- primary keys increase and were issued by the table's counter;
- usernames and slugs are unique;
- every foreign key names an existing row.

Every write is proved to preserve it.

Two follow rules sit above the tables. Both are proved to be preserved by the follow and unfollow handlers and by deleting a user:
- nobody follows themselves;
- every author has at most one follower (`FollowGraph.FollowPolicy`).

The follow table itself has no such constraint. A direct insert (`Views.Store.InsertFollow`) is accepted for any two existing users.

Modules:
- `Collections`: a queryset filter, and key order of a table.
- `TextWrap`: Python's `textwrap.shorten` at word level.
- `Models`: the records, lookups, `Post.__str__`, and the set-null rule.
- `Ordering`: the default post order and a sort.
- `Paging`: the slice of a page.
- `FollowGraph`: follower counts and the follow rules.
- `Feeds`: the four feeds.
- `Integrity`: the database invariant, and how each write keeps it.
- `Views`: the handlers.

Responses are values, not HTTP responses:
- `Render(view)`: a rendered page with the data it shows.
- `Redirect(target)`.
- `NotFound`: the 404 of `get_object_or_404`.
- `ServerError`: an uncaught `DoesNotExist` or `MultipleObjectsReturned` from `.get()`.

## Model

| member | source | states |
|---|---|---|
| Views.LoginRequired | yatube/posts/views.py:11-18 | an anonymous request gets the redirect to the login page and the handler does not run; a logged-in one runs it |
| Views.Excerpt | yatube/posts/views.py:75 | the excerpt is the first min(30, length) characters of the text |
| Views.CommentsOf | yatube/posts/views.py:76 | exactly the comments whose post is the given one, each as often as it is stored |
| Views.Store.constructor | yatube/posts/models.py:9-83 | a new store has five empty tables, satisfies the integrity invariant and uses the given page size |
| Views.Store.Index | yatube/posts/views.py:21-33 | the home page is page `page` of every post in the default order |
| Views.Store.GroupPostsPage | yatube/posts/views.py:36-50 | not-found exactly when no group has the slug; otherwise the group with that slug and the page of its feed, every entry a post of that group |
| Views.Store.Profile | yatube/posts/views.py:53-69 | not-found exactly when no user has the name; otherwise the page of that author's feed, and the flag is true exactly when someone follows the author, whoever asks |
| Views.Store.PostDetail | yatube/posts/views.py:72-85 | not-found exactly when no post has the key; otherwise that post, its 30-character excerpt and exactly its comments, each as often as it is stored |
| Views.Store.FollowIndex | yatube/posts/views.py:156-171 | login required; the page of the feed of posts whose author the requester follows, every entry such a post |
| Views.Store.PostCreate | yatube/posts/views.py:88-107 | login required; a valid form appends exactly one post with the next key, written by the requester and stamped now, and redirects to the requester's profile; an invalid form renders the form and changes nothing; integrity kept |
| Views.Store.PostEdit | yatube/posts/views.py:110-141 | login required; unknown key is not-found; a non-author is redirected to the post with nothing changed; the author's GET or invalid POST renders the form with nothing changed; a valid POST replaces that one row in place with the same key, the new text, group and image, the requester as author and the new stamp; when every other post is older, the edited post heads the home feed |
| Views.Store.SameNameSameUser | yatube/posts/views.py:114-118 | under unique usernames the handler's username comparison is the same as comparing users |
| Views.Store.EditedLeadsWhenNewest | yatube/posts/views.py:126 | a post re-stamped later than every other post heads the home feed |
| Views.Store.AddComment | yatube/posts/views.py:144-153 | login required; unknown post is not-found; otherwise always the redirect to the post, and a valid form appends exactly one comment on that post by the requester |
| Views.Store.ProfileFollow | yatube/posts/views.py:174-181 | login required; an unknown username is a server error; the row (requester, target) is appended exactly when the target is someone else and has no follower, otherwise nothing changes; the follow rules are kept |
| Views.Store.ProfileUnfollow | yatube/posts/views.py:184-189 | login required; unless exactly one row (requester, target) exists it is a server error and nothing changes; otherwise exactly that row is deleted and the others keep their order; the follow rules are kept, and under them an error means the row was missing |
| Views.Store.RegisterUser | yatube/posts/models.py:6 | a taken username is refused with nothing changed; otherwise one user with the next key is appended |
| Views.Store.CreateGroup | yatube/posts/models.py:9-13 | a taken slug is refused with nothing changed; otherwise one group with the next key is appended |
| Views.Store.InsertFollow | yatube/posts/models.py:72-83 | any two existing users, the same one twice included, are accepted whatever rows exist; an unknown user is refused |
| Views.Store.DeleteGroup | yatube/posts/models.py:31-37 | the group goes; its posts stay, their group is set to none and nothing else about them changes, and they keep their keys |
| Views.Store.DeletePost | yatube/posts/models.py:54-58 | the post goes with exactly the comments on it; all other comments stay |
| Views.Store.DeleteUser | yatube/posts/models.py:26-83 | the user goes with their posts, their comments and the comments on their posts; the follow table becomes `DropUserEdges` of the old one, so every row naming them goes and every other row keeps all its copies; the follow rules are kept; nothing else goes |
| Models.UserByName | yatube/posts/views.py:55 | finds a user with the name, or reports that none has it |
| Models.UserById | yatube/posts/views.py:114 | finds the user with the key, or reports that none has it |
| Models.GroupBySlug | yatube/posts/views.py:38 | finds a group with the slug, or reports that none has it |
| Models.PostIndex | yatube/posts/views.py:74 | finds the position of the post with the key, or reports that none has it |
| Models.PostStr | yatube/posts/models.py:48-49 | at most 15 characters; the collapsed text itself when it fits; otherwise the longest proper prefix of the words that fits with " [...]", followed by it, or "[...]" alone when no prefix fits |
| Models.PostStrOfShortText | yatube/posts/tests/test_models.py:36 | a post whose text is 'Тестовый пост' prints as exactly that text |
| Models.DetachGroup | yatube/posts/models.py:31-37 | same posts in the same places; every post of the group has its group set to none; each differs from before at most in its group, and only if it was in that group |
| Models.DetachKeepsPostIds | yatube/posts/models.py:31-37 | detaching posts from a group keeps every post key |
| Models.ReplaceKeepsPostIds | yatube/posts/views.py:124-127 | saving an edited post under its own key keeps the set of keys |
| TextWrap.TakeWord | yatube/posts/models.py:49 | the first word is a prefix without whitespace, followed by whitespace or the end |
| TextWrap.FitCount | yatube/posts/models.py:49 | the largest number of leading words that fit with the placeholder, and no larger number fits |
| TextWrap.Shorten | yatube/posts/models.py:49 | at most `width` characters; the collapsed text when it fits; otherwise the longest proper prefix of the words that fits with " [...]", followed by it, or "[...]" alone when no prefix of one or more words fits |
| TextWrap.CollapsedIsFixed | yatube/posts/models.py:49 | text with single interior spaces only is its own collapsed form |
| TextWrap.ShortFitsUnchanged | yatube/posts/models.py:49 | collapsed text that fits is returned unchanged |
| Ordering.Insert | yatube/posts/models.py:44-46 | inserting into a sorted list keeps it sorted and adds exactly that post |
| Ordering.SortPosts | yatube/posts/models.py:44-46 | the result is sorted newest first, ties by ascending key, and is a permutation of the input |
| Ordering.SortedIsUnique | yatube/posts/models.py:44-46 | two sorted permutations of rows with distinct keys are equal: the order is total |
| Ordering.SortIsCanonical | yatube/posts/models.py:44-46 | any sorted permutation of the posts is the sorted list |
| Ordering.NewestLeads | yatube/posts/models.py:44-46 | a post newer than all others comes first |
| Paging.Page | yatube/posts/views.py:24-26 | page k holds entries (k-1)·P up to min(k·P, n) of the list, in order |
| Paging.PageOfPosition | yatube/posts/views.py:24-26 | entry i is entry i mod P of page i div P + 1 |
| Paging.PagesDisjoint | yatube/posts/views.py:24-26 | every entry of page k lies in the list and belongs to page k only |
| Paging.FourteenInPagesOfTen | yatube/posts/tests/test_views.py:142-150 | 14 entries with 10 per page give pages of 10 and 4; the slice for a third page is empty |
| FollowGraph.FollowerCount | yatube/posts/views.py:179 | the count is zero exactly when no row has that author |
| FollowGraph.HasFollowerIffCount | yatube/posts/views.py:57 | "has a follower" is "the follower count is positive" |
| FollowGraph.FindEdge | yatube/posts/views.py:188 | the first position holding the row, or reports that there is none |
| FollowGraph.FollowerCountConcat | yatube/posts/views.py:179 | follower counts add over concatenated tables |
| FollowGraph.FollowerCountFilter | yatube/posts/models.py:74-83 | deleting rows never raises a follower count |
| FollowGraph.EdgeCountBelowFollowers | yatube/posts/views.py:179 | copies of one row are never more than the author's followers |
| FollowGraph.PolicyNoDuplicateEdges | yatube/posts/views.py:179-180 | under the follow rules no row occurs twice and no self-row occurs |
| FollowGraph.FollowKeepsPolicy | yatube/posts/views.py:179-180 | adding (u, a) with u ≠ a and no follower of a keeps the follow rules |
| FollowGraph.RemoveKeepsPolicy | yatube/posts/views.py:188 | deleting one row keeps the follow rules |
| FollowGraph.FilterKeepsPolicy | yatube/posts/models.py:74-83 | deleting any rows keeps the follow rules |
| FollowGraph.DropUserEdges | yatube/posts/models.py:74-83 | the cascade of deleting a user on the follow table: exactly the rows naming the user on either side go, every other row keeps all its copies, and the follow rules are kept |
| FollowGraph.RemoveOnlyCopy | yatube/posts/views.py:188 | deleting the only copy of a row leaves none and keeps every other row's count |
| FollowGraph.DeleteEdge | yatube/posts/views.py:188 | deleting the one matching row: it is gone, one copy fewer, the rest keep their order, and the follow rules are kept |
| Feeds.GroupPosts | yatube/posts/views.py:39 | exactly the posts of the group, each as often as stored |
| Feeds.AuthorPosts | yatube/posts/views.py:56 | exactly the posts of the author, each as often as stored |
| Feeds.FollowedAuthors | yatube/posts/views.py:160 | exactly the authors in the requester's follow rows |
| Feeds.FollowedPosts | yatube/posts/views.py:161 | exactly the posts whose author the requester follows, each as often as stored |
| Feeds.GlobalFeed | yatube/posts/views.py:23 | every post, sorted in the default order |
| Feeds.GroupFeed | yatube/posts/views.py:39 | a sorted permutation of the group's posts |
| Feeds.AuthorFeed | yatube/posts/views.py:56 | a sorted permutation of the author's posts |
| Feeds.FollowFeed | yatube/posts/views.py:159-161 | a sorted permutation of the posts of the followed authors |
| Feeds.FollowingNobodyEmptyFeed | yatube/posts/views.py:159-161 | a user who follows nobody has an empty feed |
| Feeds.SubsetKeyedById | yatube/posts/models.py:44-46 | a filter of rows with distinct keys has distinct keys |
| Feeds.FeedsAreCanonical | yatube/posts/models.py:44-46 | each of the four feeds is the only sorted permutation of its filter |
| Feeds.EditedPostLeads | yatube/posts/views.py:126 | a post re-stamped later than every other heads the home feed, its author's feed, its group's feed and every follower's feed |
| Collections.Filter | yatube/posts/views.py:161 | a row is in the result exactly when it is in the table and satisfies the condition |
| Collections.FilterCounts | yatube/posts/views.py:161 | a filter keeps every copy of a matching row and no copy of any other |
| Collections.IncreasingPairs | yatube/posts/models.py:22-46 | in key order every earlier key is below every later one |
| Collections.FilterKeepsIncreasing | yatube/posts/models.py:26-30 | deleting rows keeps key order |
| Collections.AppendKeepsIncreasing | yatube/posts/views.py:99 | appending a row with a larger key keeps key order |
| Collections.UpdateKeepsIncreasing | yatube/posts/views.py:127 | saving a row under its own key keeps key order |
| Collections.SameKeysIncreasing | yatube/posts/models.py:31-37 | changing rows without changing their keys keeps key order |
| Collections.RemoveAt | yatube/posts/views.py:188 | deleting one position removes exactly one copy of that row |
| Integrity.EmptyIsConsistent | yatube/posts/models.py:9-83 | the empty database satisfies the invariant |
| Integrity.ConsistentPostsKeyedById | yatube/posts/models.py:44-46 | post keys are unique, so the default order is total |
| Integrity.AddUserKeepsConsistent | yatube/posts/models.py:6 | a new user under a free name keeps the invariant |
| Integrity.AddGroupKeepsConsistent | yatube/posts/models.py:12 | a new group under a free slug keeps the invariant |
| Integrity.AddPostKeepsConsistent | yatube/posts/views.py:96-99 | a new post under the next key, by an existing user and in no group or an existing one, keeps the invariant |
| Integrity.EditPostKeepsConsistent | yatube/posts/views.py:124-127 | saving an edited post under its own key keeps the invariant |
| Integrity.AddCommentKeepsConsistent | yatube/posts/views.py:149-152 | a new comment on an existing post by an existing user keeps the invariant |
| Integrity.AddFollowKeepsConsistent | yatube/posts/views.py:180 | a follow row between existing users keeps the invariant; nothing else is needed |
| Integrity.DropFollowsKeepsConsistent | yatube/posts/views.py:188 | deleting follow rows keeps the invariant |
| Integrity.DeleteGroupKeepsConsistent | yatube/posts/models.py:31-37 | deleting a group and detaching its posts keeps the invariant |
| Integrity.DeletePostKeepsConsistent | yatube/posts/models.py:54-58 | deleting a post with its comments keeps the invariant |
| Integrity.DeleteUserKeepsConsistent | yatube/posts/models.py:26-83 | deleting a user with their posts, the comments they wrote or that are on those posts, and any subset of the follow rows that keeps none naming them, keeps the invariant |
| Integrity.DeleteUserRows | yatube/posts/models.py:26-83 | the database after deleting a user: exactly the other users, the posts by others, the comments by others on surviving posts, and `DropUserEdges` of the follow table remain; groups and key counters are unchanged; the invariant is kept |

## Left out

- Templates, the context's display strings and the HTTP response objects are not modelled. A handler's outcome is the `Response` value carrying the data the page shows.
- Form validation lives in `forms.py`, which is not part of this model. `valid` and the cleaned fields are inputs. The precondition that a valid form names an existing group stands in for the form's choice validation.
- Image upload and storage are not modelled. An image is an opaque optional value.
- The clock (`timezone.now()`) is an input, `now`.
- `Paginator.get_page` parsing of a missing or invalid page number, and its fallback to the last page for out-of-range numbers, are library behaviour. The model takes a page number of at least 1 and slices; a number past the end gives an empty page. Page metadata (`has_next`, `num_pages`) is not modelled.
- `settings.PER_PAGE_PAGINATOR` is a store parameter (`perPage`), since the settings file is not part of this model.
- Authentication and sessions are not modelled. A user is a key plus a username, and a logged-in request names a user of the store.
- The `index` view has no cache, so no caching is modelled. The test named after caching only checks that a page already received is non-empty.
- `Group.__str__` returns the title and is not modelled. `Comment` defines no `__str__`, although a test expects one, so none is modelled.
- Comments have no declared ordering. `CommentsOf` keeps storage order, which is key order.
- `yatube/core/views.py` (error pages) and the `about` app are not part of this model.
- TextWrap.Shorten: splits only at whitespace. Python's wrapper also breaks after a hyphen inside a word, so for hyphenated text that does not fit, Python may keep a longer prefix.
- Models.PostStr: inherits the hyphen limitation of `TextWrap.Shorten`.
- Views.Store.PostEdit: states the home-feed head only. `Feeds.EditedPostLeads` proves the same for the author, group and follower feeds.
- Database transactions, concurrent requests and `IntegrityError` as an exception are not modelled. A refused insert returns `false`.
