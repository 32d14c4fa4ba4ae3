# Yatube posts views, modelled in Dafny

Yatube is a small blogging site. Authors publish posts, and a post may be
filed under a group. Readers browse paginated feeds, comment on posts and
follow authors. This project models the request handlers of the `posts`
app (`yatube/posts/views.py`) over an in-memory store rather than a
database:

- `models.dfy` (module `Models`): users, groups, posts, comments and follow
  pairs, plus the `get_object_or_404` lookups and the validity of the post
  and comment forms.
- `paging.dfy` (module `Paging`): `POSTS_PER_PAGE` and `page_obj`, meaning
  Django's paginator asked for the page named in the request.
- `feeds.dfy` (module `Feeds`): the group, author and follow feeds, and a
  post's comments. Each is an order-keeping filter over the newest-first store.
- `views.dfy` (module `Views`): the response type and the read-only views
  `index`, `group_posts`, `profile`, `post_detail` and `follow_index`.
- `site.dfy` (module `Site`): the class `Site`, which holds the store. Its
  methods are the views that change it: `post_create`, `post_edit`,
  `add_comment`, `profile_follow` and `profile_unfollow`.
- `cache.dfy` (module `IndexCache`): the 20-second page cache around
  `index`, as the class `PageCache`, with an integer clock.

Posts are kept newest first. Each new post gets an id larger than every
existing id and goes in front, so ids strictly decrease along the store. A
rendered page is represented by the context its template receives; a
redirect is represented by its target.

Pagination follows Django's `Paginator.get_page`, which is library code
that the model states as an assumption:
- There is always at least one page.
- A missing or non-integer page number gives page 1.
- A number below 1 or past the end gives the last page.

## Model

| member | source | states |
|---|---|---|
| `Models.FindGroup` | yatube/posts/views.py:28 | Returns a group carrying the slug, or nothing exactly when no group has that slug (the 404). |
| `Models.FindPost` | yatube/posts/views.py:65-66 | Returns a stored post with the id, or nothing exactly when no post has it (the 404). |
| `Models.FindGroupExact` | yatube/posts/views.py:28 | With unique slugs, the lookup by a group's slug returns that very group. |
| `Models.FindPostExact` | yatube/posts/views.py:95-96 | In a newest-first store, the lookup by a post's id returns that very post. |
| `Paging.NumPages` | yatube/posts/views.py:9-14 | The page count is the item count over 10, rounded up, and at least 1 (an empty list has one page). |
| `Paging.PageNumber` | yatube/posts/views.py:14 | The page the paginator settles on always lies between 1 and the page count. |
| `Paging.PageSlice` | yatube/posts/views.py:12-14 | Page k holds min(10, N - 10(k-1)) items: the items from position 10(k-1) on, in order. |
| `Paging.PageObj` | yatube/posts/views.py:12-14 | `page_obj`: an absent page gives page 1, an in-range page is kept, anything else gives the last page; the items are that page's slice. |
| `Paging.FirstPage` | yatube/posts/tests/test_views.py:103-109 | Page 1 holds the first min(N, 10) items, whether asked for explicitly or by default. |
| `Paging.LastPage` | yatube/posts/views.py:12-14 | The last page of a non-empty list holds N mod 10 items, or 10 when 10 divides N. |
| `Paging.ThirteenPosts` | yatube/posts/tests/test_views.py:103-117 | With 13 posts, page 1 has 10 items, and page 2 has 3 items, has no next page and has a previous one. |
| `Paging.HasNextIffMore` | yatube/posts/views.py:12-14 | A page has a next page exactly when items remain beyond it. |
| `Paging.PagesFromSuffix` | yatube/posts/views.py:12-14 | Pages k through the last, joined, are exactly the items from position 10(k-1) on. |
| `Paging.Partition` | yatube/posts/views.py:12-14 | All pages read in order give back the whole list, each item once. |
| `Feeds.Filter` | yatube/posts/views.py:30 | The kept elements are exactly those the filter accepts, never more than the input. |
| `Feeds.FilterCons` | yatube/posts/views.py:30 | Filtering x in front of xs keeps x first if accepted, then filters xs. |
| `Feeds.FilterNone` | yatube/posts/views.py:30 | A filter that accepts nothing in the list gives the empty list. |
| `Feeds.FilterNewestFirst` | yatube/posts/views.py:30 | Filtering a newest-first store gives a newest-first feed. |
| `Feeds.GroupFeed` | yatube/posts/views.py:30 | A post is in a group's feed exactly when it is stored and filed under that group. |
| `Feeds.AuthorFeed` | yatube/posts/views.py:47-53 | A post is in an author's feed exactly when it is stored and written by that author. |
| `Feeds.FollowFeed` | yatube/posts/views.py:133-138 | Post P is in the viewer's follow feed exactly when it is stored and (viewer, P.author) is a follow pair. |
| `Feeds.CommentsOn` | yatube/posts/views.py:71 | A comment is listed on a post exactly when it is stored and attached to that post, and as many times as it is stored. |
| `Feeds.FilterSnoc` | yatube/posts/views.py:71 | Filtering a list with x at the end gives the filtered list followed by x when x is kept: order of the store is kept. |
| `Feeds.FilterMultiplicity` | yatube/posts/views.py:71 | A filter keeps each accepted element as often as it occurs and a rejected one never. |
| `Feeds.CommentsOnAppend` | yatube/posts/views.py:115-128 | A comment written last on a post is listed last on it, after that post's earlier comments, which are unchanged. |
| `Feeds.NewGroupEmpty` | yatube/posts/tests/test_views.py:143-155 | A group with no posts has an empty feed. |
| `Feeds.GroupFeedSeparation` | yatube/posts/tests/test_views.py:326-357 | A post filed under group G is in G's feed (found by G's slug), and in the feed of no group found by another slug. |
| `Feeds.NonFollowerFeedEmpty` | yatube/posts/tests/test_views.py:424-441 | A viewer who follows nobody has an empty follow feed. |
| `Feeds.UnfollowHidesAuthor` | yatube/posts/views.py:159-164 | Once (viewer, author) is removed, none of that author's posts is in the viewer's follow feed. |
| `Feeds.PrependHeadsFeed` | yatube/posts/tests/test_views.py:294-303 | A new post in front of the store heads every feed that accepts it, and that feed grows by one. |
| `Feeds.PrependCounts` | yatube/posts/views.py:47 | A new post raises its author's post count by one and no one else's. |
| `Views.Index` | yatube/posts/views.py:17-24 | `index` renders the requested page of all posts; by default, the first min(N, 10) posts. |
| `Views.GroupPosts` | yatube/posts/views.py:27-36 | 404 exactly when no group has the slug; otherwise that group and a page of its feed, every item filed under it. |
| `Views.Profile` | yatube/posts/views.py:39-61 | 404 exactly when the user is unknown. Otherwise: a page of the user's posts; `post_count` is the whole unpaginated count; `following` is true iff the viewer is logged in and follows the user. |
| `Views.PostDetail` | yatube/posts/views.py:64-76 | 404 exactly when no post has the id. Otherwise: the post, its author's total post count, and exactly the comments on that post, each as many times as it is stored. |
| `Views.CommentAppearsOnDetail` | yatube/posts/tests/test_views.py:305-324 | A comment added to a stored post is listed last on the post's page after its earlier comments; the first comment on a post is listed alone. |
| `Views.FollowIndex` | yatube/posts/views.py:131-144 | An anonymous viewer is sent to log in with `next` set to the request path. Otherwise: a page of posts by followed authors only. |
| `Views.DetailCountMatchesProfile` | yatube/posts/views.py:47-68 | The post count on a post's page equals the one on its author's profile. |
| `Views.NonFollowerSeesNothing` | yatube/posts/tests/test_views.py:439-441 | Someone who follows nobody gets an empty follow page. |
| `Views.CreatedPostHeadsFeeds` | yatube/posts/tests/test_views.py:276-303 | A new post is first on page 1 of the index, of its group and of its author's profile, and the author's count grows by one. |
| `Site.EditAt` | yatube/posts/views.py:101-105 | Saving the edit form on the post being edited sets its text and group from the form. Its image is replaced only by a newly uploaded picture. Its id and author never change, and any other post is left as it is. |
| `Site.ReplacePost` | yatube/posts/views.py:101-105 | The store after an edit has the same length, and each position holds its old post as `EditAt` leaves it, so only the post with that id changes. |
| `Site.ReplaceKeepsPosts` | yatube/posts/views.py:101-105 | Editing keeps the set of post ids, so comments still refer to stored posts. |
| `Site.EditKeepsCounts` | yatube/posts/tests/test_forms.py:108-139 | Editing changes no author's post count. |
| `Site.CreateKeepsStore` | yatube/posts/views.py:83-86 | A valid form by a known user makes a post that is not yet stored, and putting it in front keeps every stored post's author and group known and ids strictly decreasing. |
| `Site.EditKeepsStore` | yatube/posts/views.py:104-105 | Saving a valid edit keeps the store consistent: authors and groups stay known, and comments still refer to stored posts. |
| `Site.Site.constructor` | yatube/posts/tests/test_views.py:22-34 | A new store has the given users and groups, and no posts, comments or follows. |
| `Site.Site.PostCreate` | yatube/posts/views.py:79-90 | Anonymous: login redirect with `next` = path, and nothing changes. Valid form: exactly one new post by the caller, first in the store, then a redirect to the caller's profile. Otherwise: the form again, nothing changes. |
| `Site.Site.PostEdit` | yatube/posts/views.py:93-112 | Anonymous: login redirect. Unknown id: 404. Not the author: redirect to the post, nothing changes. Author with a valid form: that post's text, group and image change, then a redirect to the post. Otherwise: the form again (`is_edit`). |
| `Site.Site.AddComment` | yatube/posts/views.py:115-128 | Anonymous: login redirect. Unknown post: 404. Otherwise always a redirect to the post; a valid form first appends exactly one comment by the caller on that post, and an invalid or empty one changes nothing. |
| `Site.Site.ProfileFollow` | yatube/posts/views.py:147-156 | Anonymous: login redirect. Unknown user: 404. Otherwise the pair (caller, user) is added unless the two are the same person, then a redirect to the profile. |
| `Site.Site.ProfileUnfollow` | yatube/posts/views.py:159-164 | Anonymous: login redirect. 404 when the caller does not follow the user. Otherwise exactly that pair is removed, then a redirect to the profile. |
| `Site.FollowTwiceUnfollowTwice` | yatube/posts/tests/test_views.py:403-422 | Following twice leaves one added pair. One unfollow restores the follow set, and a second unfollow is a 404. |
| `IndexCache.StoredWindow` | yatube/posts/views.py:17 | A page stored at t1 is served again at t2 exactly while t2 < t1 + 20. |
| `IndexCache.PageCache.constructor` | yatube/posts/views.py:17 | The cache starts empty. |
| `IndexCache.PageCache.Clear` | yatube/posts/tests/test_views.py:130 | `cache.clear()` empties the cache. |
| `IndexCache.PageCache.Get` | yatube/posts/views.py:17-24 | A live entry is returned unchanged. Otherwise the index is rendered from the current posts and stored until now + 20. |
| `IndexCache.CachedIndexScenario` | yatube/posts/tests/test_views.py:119-132 | Two index requests less than 20 apart return the same page even though a post was created between them. After `clear`, the page is rendered anew, differs, and starts with the new post. |

## Left out

- Django ORM mechanics are not modelled: `select_related`, the query builder and transactions. This includes the atomicity of `get_or_create` under concurrent requests; each handler runs as one sequential step.
- Follows are a set, so a pair can appear only once by construction. The database's unique constraint is not modelled separately.
- Newest-first order is modelled by ids that strictly decrease along the store. Post ordering by `pub_date` comes from the model's Meta, and `models.py` is not part of this model.
- Comments are listed in the order they were written, as `Feeds.CommentsOnAppend` states. An ordering declared on the Comment model is not part of this model.
- `Paging.PageObj` states Django's `get_page` clamping as an assumption about that library, not as code that is verified.
- Form validation uses an explicit schema: the text is non-empty, a chosen group exists, and an upload is a picture. `forms.py` is not part of this model, so whitespace stripping, length limits and image decoding are not modelled.
- An unbound form (a GET, or an empty POST) is passed as `None`. The HTTP method is not modelled otherwise.
- Clearing a post's image from the edit form (a clearable file input) is not modelled: an edit keeps the old image unless a new picture is uploaded.
- Image upload and media storage are I/O. An image is an opaque stored path, and the storage layout (`posts/<name>`) is not modelled.
- Templates and rendered HTML are not modelled. A rendered page is its context, and that context is what the cache stores.
- `IndexCache.PageCache.Get` keys entries by the parsed page parameter. Django keys them by the full URL and the `Vary` headers, so `?page=2` and `?page=02` share an entry here but not in Django. Cache HTTP headers are not modelled.
- Wall-clock time is an integer clock supplied by the caller.
- URL reversing is not modelled: redirects name their target by post id or username. `LoginRedirect` carries only the `next` path; the login URL prefix (`/auth/login/?next=`) belongs to the settings, which are not part of this model.
- Users and groups are created outside these views, so the store's constructor takes them as given. No view deletes a post or a group, so cascades are not modelled.
- The users app, the about pages, and the models' `__str__` and verbose names are not part of this model.
