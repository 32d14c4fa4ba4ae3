/**
 * The responses of the posts views, and the views that only read the store:
 * `index`, `group_posts`, `profile`, `post_detail` and `follow_index`.
 *
 * A rendered page is represented by the context handed to its template;
 * the template itself is not part of this model.
 */
module Views {
  import opened Models
  import opened Paging
  import opened Feeds

  datatype Response =
    /** `login_required`: go to the login page, then come back to `next`. */
    | LoginRedirect(next: Path)
    | RedirectToDetail(postId: PostId)
    | RedirectToProfile(username: UserName)
    /** `get_object_or_404` found nothing. */
    | NotFound
    /** `posts/create_post.html` with the (unbound or invalid) form. */
    | RenderForm(isEdit: bool)
    | RenderIndex(page: Page<Post>)
    | RenderGroup(group: Group, page: Page<Post>)
    | RenderProfile(author: UserName, postCount: nat, page: Page<Post>, following: bool)
    | RenderDetail(post: Post, postCount: nat, comments: seq<Comment>)
    | RenderFollow(page: Page<Post>)

  /** `index`: the requested page of all posts (before the page cache). */
  function Index(posts: seq<Post>, param: PageParam): (r: Response)
    ensures r.RenderIndex? && r.page == PageObj(posts, param)
    ensures forall p :: p in r.page.items ==> p in posts
    ensures param.None? ==> r.page.items == posts[..Min(|posts|, PostsPerPage)]
  {
    var page := PageObj(posts, param);
    FirstPage(posts);
    RenderIndex(page)
  }

  /** `group_posts`: 404 for an unknown slug, else the requested page of that group's posts. */
  function GroupPosts(groups: seq<Group>, posts: seq<Post>, slug: string, param: PageParam): (r: Response)
    ensures r.NotFound? || r.RenderGroup?
    ensures r.NotFound? <==> forall g :: g in groups ==> g.slug != slug
    ensures r.RenderGroup? ==> r.group in groups && r.group.slug == slug
    ensures r.RenderGroup? ==> r.page == PageObj(GroupFeed(posts, r.group.id), param)
    ensures r.RenderGroup? ==> forall p :: p in r.page.items ==> p in posts && p.group == Some(r.group.id)
  {
    match FindGroup(groups, slug)
    case None => NotFound
    case Some(g) => RenderGroup(g, PageObj(GroupFeed(posts, g.id), param))
  }

  /**
   * `profile`: 404 for an unknown user; otherwise the requested page of the
   * user's posts, their total count, and whether the viewer follows them.
   */
  function Profile(users: set<UserName>, posts: seq<Post>, follows: set<Follow>,
                   viewer: Viewer, username: UserName, param: PageParam): (r: Response)
    ensures r.NotFound? || r.RenderProfile?
    ensures r.NotFound? <==> username !in users
    ensures r.RenderProfile? ==> r.author == username && r.page == PageObj(AuthorFeed(posts, username), param)
    ensures r.RenderProfile? ==> r.postCount == |AuthorFeed(posts, username)| >= |r.page.items|
    ensures r.RenderProfile? ==>
              (r.following <==> viewer.Authenticated? && Follow(viewer.name, username) in follows)
    ensures r.RenderProfile? ==> forall p :: p in r.page.items ==> p in posts && p.author == username
  {
    if username !in users then NotFound
    else
      var following := if viewer.Authenticated? then Follow(viewer.name, username) in follows else false;
      var feed := AuthorFeed(posts, username);
      RenderProfile(username, |feed|, PageObj(feed, param), following)
  }

  /** `post_detail`: 404 for an unknown id; otherwise the post, its author's post count and its comments. */
  function PostDetail(posts: seq<Post>, comments: seq<Comment>, id: PostId): (r: Response)
    ensures r.NotFound? || r.RenderDetail?
    ensures r.NotFound? <==> !HasPost(posts, id)
    ensures r.RenderDetail? ==> r.post in posts && r.post.id == id
    ensures r.RenderDetail? ==> r.postCount == |AuthorFeed(posts, r.post.author)|
    ensures r.RenderDetail? ==> forall c :: c in r.comments <==> c in comments && c.post == id
    ensures r.RenderDetail? ==>
              forall c :: multiset(r.comments)[c] == if c.post == id then multiset(comments)[c] else 0
  {
    match FindPost(posts, id)
    case None => NotFound
    case Some(p) => RenderDetail(p, |AuthorFeed(posts, p.author)|, CommentsOn(comments, id))
  }

  /** `follow_index`: login first; then the requested page of the followed authors' posts. */
  function FollowIndex(posts: seq<Post>, follows: set<Follow>, viewer: Viewer,
                       path: Path, param: PageParam): (r: Response)
    ensures viewer.Anonymous? ==> r == LoginRedirect(path)
    ensures viewer.Authenticated? ==> r.RenderFollow?
    ensures viewer.Authenticated? ==>
              r.page == PageObj(FollowFeed(posts, follows, viewer.name), param)
    ensures viewer.Authenticated? ==>
              forall p :: p in r.page.items ==> p in posts && Follow(viewer.name, p.author) in follows
  {
    match viewer
    case Anonymous => LoginRedirect(path)
    case Authenticated(name) => RenderFollow(PageObj(FollowFeed(posts, follows, name), param))
  }

  /** The count on a post's page is the one on its author's profile. */
  lemma DetailCountMatchesProfile(users: set<UserName>, posts: seq<Post>, comments: seq<Comment>,
                                  follows: set<Follow>, viewer: Viewer, id: PostId, param: PageParam)
    requires PostDetail(posts, comments, id).RenderDetail?
    requires PostDetail(posts, comments, id).post.author in users
    ensures Profile(users, posts, follows, viewer, PostDetail(posts, comments, id).post.author, param).postCount
            == PostDetail(posts, comments, id).postCount
  {
  }

  /**
   * A comment added to a stored post is listed last on that post's page,
   * after the comments it already had; the first comment on a post is
   * listed alone.
   */
  lemma CommentAppearsOnDetail(posts: seq<Post>, comments: seq<Comment>, c: Comment)
    requires HasPost(posts, c.post)
    ensures PostDetail(posts, comments + [c], c.post).RenderDetail?
    ensures PostDetail(posts, comments + [c], c.post).comments
            == PostDetail(posts, comments, c.post).comments + [c]
    ensures (forall d :: d in comments ==> d.post != c.post) ==>
              PostDetail(posts, comments + [c], c.post).comments == [c]
  {
    CommentsOnAppend(comments, c, c.post);
    if forall d :: d in comments ==> d.post != c.post {
      FilterNone(comments, (d: Comment) => d.post == c.post);
    }
  }

  /** A viewer who follows nobody sees an empty follow page. */
  lemma NonFollowerSeesNothing(posts: seq<Post>, follows: set<Follow>, name: UserName, path: Path)
    requires forall f :: f in follows ==> f.user != name
    ensures FollowIndex(posts, follows, Authenticated(name), path, None).page.items == []
  {
    NonFollowerFeedEmpty(posts, follows, name);
  }

  /**
   * A post put in front of the store is the first item on page 1 of the
   * index, of its group's page and of its author's profile, and the
   * author's post count grows by one.
   */
  lemma CreatedPostHeadsFeeds(users: set<UserName>, groups: seq<Group>, posts: seq<Post>,
                              follows: set<Follow>, viewer: Viewer, p: Post, g: Group)
    requires UniqueGroups(groups) && g in groups && p.group == Some(g.id) && p.author in users
    ensures Index([p] + posts, None).page.items != []
    ensures Index([p] + posts, None).page.items[0] == p
    ensures GroupPosts(groups, [p] + posts, g.slug, None).RenderGroup?
    ensures GroupPosts(groups, [p] + posts, g.slug, None).page.items != []
    ensures GroupPosts(groups, [p] + posts, g.slug, None).page.items[0] == p
    ensures Profile(users, [p] + posts, follows, viewer, p.author, None).page.items != []
    ensures Profile(users, [p] + posts, follows, viewer, p.author, None).page.items[0] == p
    ensures Profile(users, [p] + posts, follows, viewer, p.author, None).postCount
            == |AuthorFeed(posts, p.author)| + 1
  {
    FindGroupExact(groups, g);
    PrependHeadsFeed(p, posts, (q: Post) => q.group == Some(g.id));
    PrependHeadsFeed(p, posts, (q: Post) => q.author == p.author);
  }
}
