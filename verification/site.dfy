/**
 * The store of the posts app and the views that change it: `post_create`,
 * `post_edit`, `add_comment`, `profile_follow` and `profile_unfollow`.
 *
 * Each view first applies `login_required` (an anonymous caller is sent to
 * the login page with the request path as `next`), then looks up what it
 * acts on (`get_object_or_404`), then checks who may act, and only then saves.
 */
module Site {
  import opened Models
  import opened Feeds
  import opened Views

  /** The post a valid create form makes; the author is the caller, never the form. */
  function NewPost(id: PostId, author: UserName, form: PostForm): Post {
    Post(id, author, form.group, form.text, StoredImage(form.image, None))
  }

  /**
   * `form.save()` applied to `p` when it is the post being edited: text and
   * group follow the form, the image changes only when a new picture comes
   * with it, and id and author never change.
   */
  function EditAt(p: Post, id: PostId, form: PostForm): (q: Post)
    ensures q.id == p.id && q.author == p.author
    ensures p.id != id ==> q == p
    ensures p.id == id ==>
              q.text == form.text && q.group == form.group && q.image == StoredImage(form.image, p.image)
  {
    if p.id == id then p.(group := form.group, text := form.text, image := StoredImage(form.image, p.image))
    else p
  }

  /** The store after post `id` is edited with `form`: every post in place, only that one edited. */
  function ReplacePost(posts: seq<Post>, id: PostId, form: PostForm): (r: seq<Post>)
    ensures |r| == |posts|
    ensures forall i :: 0 <= i < |posts| ==> r[i] == EditAt(posts[i], id, form)
  {
    if posts == [] then [] else [EditAt(posts[0], id, form)] + ReplacePost(posts[1..], id, form)
  }

  /** Editing keeps the set of post ids, so nothing that refers to a post loses it. */
  lemma ReplaceKeepsPosts(posts: seq<Post>, id: PostId, form: PostForm, pid: PostId)
    ensures HasPost(ReplacePost(posts, id, form), pid) <==> HasPost(posts, pid)
  {
    var r := ReplacePost(posts, id, form);
    if HasPost(posts, pid) {
      var p :| p in posts && p.id == pid;
      var i :| 0 <= i < |posts| && posts[i] == p;
      assert r[i] in r;
    }
    if HasPost(r, pid) {
      var p :| p in r && p.id == pid;
      var i :| 0 <= i < |r| && r[i] == p;
      assert posts[i] in posts;
    }
  }

  /** Editing changes nobody's post count: the author of a post never changes. */
  lemma {:induction false} EditKeepsCounts(posts: seq<Post>, id: PostId, form: PostForm, author: UserName)
    ensures |AuthorFeed(ReplacePost(posts, id, form), author)| == |AuthorFeed(posts, author)|
  {
    if posts != [] {
      var rest := ReplacePost(posts[1..], id, form);
      var r := ReplacePost(posts, id, form);
      EditKeepsCounts(posts[1..], id, form, author);
      assert r == [r[0]] + rest;
      assert posts == [posts[0]] + posts[1..];
      FilterCons(r[0], rest, (p: Post) => p.author == author);
      FilterCons(posts[0], posts[1..], (p: Post) => p.author == author);
    }
  }

  /** Referential integrity of the store, and newest-first order of its posts. */
  ghost predicate StoreValid(users: set<UserName>, groups: seq<Group>, posts: seq<Post>,
                             comments: seq<Comment>, follows: set<Follow>, nextPostId: PostId)
  {
    && UniqueGroups(groups)
    && NewestFirst(posts)
    && (forall p :: p in posts ==>
          && p.id < nextPostId
          && p.author in users
          && (p.group.Some? ==> HasGroup(groups, p.group.value)))
    && (forall c :: c in comments ==> HasPost(posts, c.post) && c.author in users)
    && (forall f :: f in follows ==> f.user in users && f.author in users)
  }

  /** Creating a post from a valid form by a known user keeps the store consistent. */
  lemma CreateKeepsStore(users: set<UserName>, groups: seq<Group>, posts: seq<Post>,
                         comments: seq<Comment>, follows: set<Follow>, nextPostId: PostId,
                         author: UserName, form: PostForm)
    requires StoreValid(users, groups, posts, comments, follows, nextPostId)
    requires author in users && PostFormValid(groups, form)
    ensures NewPost(nextPostId, author, form) !in posts
    ensures StoreValid(users, groups, [NewPost(nextPostId, author, form)] + posts, comments, follows, nextPostId + 1)
  {
    var post := NewPost(nextPostId, author, form);
    var after := [post] + posts;
    forall i, j | 0 <= i < j < |after| ensures after[i].id > after[j].id {
      assert after[j] == posts[j - 1];
      assert posts[j - 1] in posts;
      if i > 0 {
        assert after[i] == posts[i - 1];
      }
    }
    forall c | c in comments ensures HasPost(after, c.post) {
      var p :| p in posts && p.id == c.post;
      assert p in after;
    }
  }

  /** Editing a post with a valid form keeps the store consistent. */
  lemma EditKeepsStore(users: set<UserName>, groups: seq<Group>, posts: seq<Post>,
                       comments: seq<Comment>, follows: set<Follow>, nextPostId: PostId,
                       id: PostId, form: PostForm)
    requires StoreValid(users, groups, posts, comments, follows, nextPostId)
    requires PostFormValid(groups, form)
    ensures StoreValid(users, groups, ReplacePost(posts, id, form), comments, follows, nextPostId)
  {
    var after := ReplacePost(posts, id, form);
    forall c | c in comments ensures HasPost(after, c.post) {
      ReplaceKeepsPosts(posts, id, form, c.post);
    }
    forall p | p in after
      ensures p.id < nextPostId && p.author in users && (p.group.Some? ==> HasGroup(groups, p.group.value))
    {
      var i :| 0 <= i < |after| && after[i] == p;
      assert posts[i] in posts;
    }
  }

  class Site {
    var users: set<UserName>
    var groups: seq<Group>
    /** Newest first. */
    var posts: seq<Post>
    /** In the order they were written. */
    var comments: seq<Comment>
    var follows: set<Follow>
    /** The id the database gives the next post. */
    var nextPostId: PostId

    /** The store's invariant, over its current fields. */
    ghost predicate Valid()
      reads this
    {
      StoreValid(users, groups, posts, comments, follows, nextPostId)
    }

    /** A session only ever names a user the store knows. */
    ghost predicate Known(viewer: Viewer)
      reads this
    {
      viewer.Authenticated? ==> viewer.name in users
    }

    /** An empty store over the users and groups created outside these views. */
    constructor (users: set<UserName>, groups: seq<Group>)
      requires UniqueGroups(groups)
      ensures Valid()
      ensures this.users == users && this.groups == groups
      ensures posts == [] && comments == [] && follows == {}
    {
      this.users := users;
      this.groups := groups;
      posts := [];
      comments := [];
      follows := {};
      nextPostId := 1;
    }

    /**
     * `post_create`. A valid form by a logged-in user adds one post, written
     * by that user, in front of all others, and sends the user to their profile.
     */
    method PostCreate(viewer: Viewer, path: Path, form: Option<PostForm>) returns (r: Response)
      requires Valid() && Known(viewer)
      modifies this`posts, this`nextPostId
      ensures Valid()
      ensures viewer.Anonymous? ==> r == LoginRedirect(path) && unchanged(this)
      ensures viewer.Authenticated? && form.Some? && PostFormValid(groups, form.value) ==>
                && r == RedirectToProfile(viewer.name)
                && posts == [NewPost(old(nextPostId), viewer.name, form.value)] + old(posts)
                && NewPost(old(nextPostId), viewer.name, form.value) !in old(posts)
      ensures viewer.Authenticated? && !(form.Some? && PostFormValid(groups, form.value)) ==>
                r == RenderForm(false) && unchanged(this)
    {
      if viewer.Anonymous? {
        return LoginRedirect(path);
      }
      if form.Some? && PostFormValid(groups, form.value) {
        CreateKeepsStore(users, groups, posts, comments, follows, nextPostId, viewer.name, form.value);
        posts := [NewPost(nextPostId, viewer.name, form.value)] + posts;
        nextPostId := nextPostId + 1;
        return RedirectToProfile(viewer.name);
      }
      return RenderForm(false);
    }

    /**
     * `post_edit`. Only the author may edit: anyone else is sent back to the
     * post. A valid form from the author changes that post's text, group and
     * image and nothing else.
     */
    method PostEdit(viewer: Viewer, path: Path, id: PostId, form: Option<PostForm>) returns (r: Response)
      requires Valid() && Known(viewer)
      modifies this`posts
      ensures Valid()
      ensures viewer.Anonymous? ==> r == LoginRedirect(path) && unchanged(this)
      ensures viewer.Authenticated? && !HasPost(old(posts), id) ==> r == NotFound && unchanged(this)
      ensures viewer.Authenticated? && HasPost(old(posts), id)
              && FindPost(old(posts), id).value.author != viewer.name ==>
                r == RedirectToDetail(id) && unchanged(this)
      ensures viewer.Authenticated? && HasPost(old(posts), id)
              && FindPost(old(posts), id).value.author == viewer.name ==>
                if form.Some? && PostFormValid(groups, form.value) then
                  r == RedirectToDetail(id) && posts == ReplacePost(old(posts), id, form.value)
                else
                  r == RenderForm(true) && unchanged(this)
    {
      if viewer.Anonymous? {
        return LoginRedirect(path);
      }
      var found := FindPost(posts, id);
      if found.None? {
        return NotFound;
      }
      if viewer.name != found.value.author {
        return RedirectToDetail(id);
      }
      if form.Some? && PostFormValid(groups, form.value) {
        EditKeepsStore(users, groups, posts, comments, follows, nextPostId, id, form.value);
        posts := ReplacePost(posts, id, form.value);
        return RedirectToDetail(id);
      }
      return RenderForm(true);
    }

    /**
     * `add_comment`. A logged-in user is always sent back to the post; a
     * valid form first appends one comment by that user on that post.
     */
    method AddComment(viewer: Viewer, path: Path, id: PostId, form: Option<CommentForm>) returns (r: Response)
      requires Valid() && Known(viewer)
      modifies this`comments
      ensures Valid()
      ensures viewer.Anonymous? ==> r == LoginRedirect(path) && unchanged(this)
      ensures viewer.Authenticated? && !HasPost(posts, id) ==> r == NotFound && unchanged(this)
      ensures viewer.Authenticated? && HasPost(posts, id) ==> r == RedirectToDetail(id)
      ensures viewer.Authenticated? && HasPost(posts, id) && form.Some? && CommentFormValid(form.value) ==>
                comments == old(comments) + [Comment(id, viewer.name, form.value.text)]
      ensures viewer.Authenticated? && !(form.Some? && CommentFormValid(form.value)) ==> unchanged(this)
    {
      if viewer.Anonymous? {
        return LoginRedirect(path);
      }
      var found := FindPost(posts, id);
      if found.None? {
        return NotFound;
      }
      if form.Some? && CommentFormValid(form.value) {
        comments := comments + [Comment(id, viewer.name, form.value.text)];
      }
      return RedirectToDetail(id);
    }

    /**
     * `profile_follow`. Following someone else adds the pair once, however
     * often it is asked for; following oneself changes nothing. Either way
     * the caller lands on the profile.
     */
    method ProfileFollow(viewer: Viewer, path: Path, username: UserName) returns (r: Response)
      requires Valid() && Known(viewer)
      modifies this`follows
      ensures Valid()
      ensures viewer.Anonymous? ==> r == LoginRedirect(path) && unchanged(this)
      ensures viewer.Authenticated? && username !in users ==> r == NotFound && unchanged(this)
      ensures viewer.Authenticated? && username in users ==>
                && r == RedirectToProfile(username)
                && follows == if viewer.name != username then old(follows) + {Follow(viewer.name, username)}
                              else old(follows)
    {
      if viewer.Anonymous? {
        return LoginRedirect(path);
      }
      if username !in users {
        return NotFound;
      }
      if viewer.name != username {
        follows := follows + {Follow(viewer.name, username)};
      }
      return RedirectToProfile(username);
    }

    /** `profile_unfollow`. 404 unless the caller follows the user; otherwise that one pair goes. */
    method ProfileUnfollow(viewer: Viewer, path: Path, username: UserName) returns (r: Response)
      requires Valid() && Known(viewer)
      modifies this`follows
      ensures Valid()
      ensures viewer.Anonymous? ==> r == LoginRedirect(path) && unchanged(this)
      ensures viewer.Authenticated? && Follow(viewer.name, username) !in old(follows) ==>
                r == NotFound && unchanged(this)
      ensures viewer.Authenticated? && Follow(viewer.name, username) in old(follows) ==>
                && r == RedirectToProfile(username)
                && follows == old(follows) - {Follow(viewer.name, username)}
    {
      if viewer.Anonymous? {
        return LoginRedirect(path);
      }
      var pair := Follow(viewer.name, username);
      if pair !in follows {
        return NotFound;
      }
      follows := follows - {pair};
      return RedirectToProfile(username);
    }
  }

  /**
   * Following twice leaves one pair; unfollowing then removes it, and a
   * second unfollow finds nothing.
   */
  method FollowTwiceUnfollowTwice(site: Site, user: UserName, author: UserName)
    returns (r1: Response, r2: Response, r3: Response, r4: Response, ghost between: set<Follow>)
    requires site.Valid() && user in site.users && author in site.users && user != author
    requires Follow(user, author) !in site.follows
    modifies site`follows
    ensures r1 == r2 == r3 == RedirectToProfile(author) && r4 == NotFound
    ensures between == old(site.follows) + {Follow(user, author)}
    ensures site.follows == old(site.follows)
  {
    var viewer := Authenticated(user);
    r1 := site.ProfileFollow(viewer, "/profile/" + author + "/follow/", author);
    r2 := site.ProfileFollow(viewer, "/profile/" + author + "/follow/", author);
    between := site.follows;
    r3 := site.ProfileUnfollow(viewer, "/profile/" + author + "/unfollow/", author);
    r4 := site.ProfileUnfollow(viewer, "/profile/" + author + "/unfollow/", author);
  }
}
