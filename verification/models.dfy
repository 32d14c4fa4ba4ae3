/**
 * The entities of the posts app and the lookups the views perform on them.
 *
 * Users are identified by their (unique) username. Groups, posts, comments
 * and follow pairs are plain records; the store that holds them is the class
 * `Site.Site`. Posts are kept newest first, which the store guarantees by
 * giving every new post an id larger than all earlier ones.
 */
module Models {

  datatype Option<+T> = None | Some(value: T)

  type UserName = string
  type PostId = nat
  type GroupId = nat
  /** Where media storage keeps an uploaded picture. */
  type ImagePath = string
  /** The path of a request; a login redirect carries it as `next`. */
  type Path = string

  /** Who sends a request: the session either names a user or does not. */
  datatype Viewer = Anonymous | Authenticated(name: UserName)

  datatype Group = Group(id: GroupId, title: string, slug: string, description: string)

  datatype Post = Post(
    id: PostId,
    author: UserName,
    group: Option<GroupId>,
    text: string,
    image: Option<ImagePath>)

  datatype Comment = Comment(post: PostId, author: UserName, text: string)

  /** `user` follows `author`. */
  datatype Follow = Follow(user: UserName, author: UserName)

  /** The image field of a submitted post form. */
  datatype Upload = NoUpload | Picture(path: ImagePath) | NotAPicture

  /** Submitted post form data; an unbound form (a GET) is `None` at the call site. */
  datatype PostForm = PostForm(text: string, group: Option<GroupId>, image: Upload)

  datatype CommentForm = CommentForm(text: string)

  /** Newest first: post ids strictly decrease along the sequence. */
  ghost predicate NewestFirst(posts: seq<Post>) {
    forall i, j :: 0 <= i < j < |posts| ==> posts[i].id > posts[j].id
  }

  /** Slugs and ids identify groups: the database's unique constraints. */
  ghost predicate UniqueGroups(groups: seq<Group>) {
    forall g, h :: g in groups && h in groups && (g.slug == h.slug || g.id == h.id) ==> g == h
  }

  predicate HasGroup(groups: seq<Group>, id: GroupId) {
    exists g :: g in groups && g.id == id
  }

  predicate HasPost(posts: seq<Post>, id: PostId) {
    exists p :: p in posts && p.id == id
  }

  /** `get_object_or_404(Group, slug=slug)`: `None` stands for the 404. */
  function FindGroup(groups: seq<Group>, slug: string): (r: Option<Group>)
    ensures r.Some? ==> r.value in groups && r.value.slug == slug
    ensures r.None? <==> forall g :: g in groups ==> g.slug != slug
  {
    if groups == [] then None
    else if groups[0].slug == slug then Some(groups[0])
    else FindGroup(groups[1..], slug)
  }

  /** `get_object_or_404(Post, id=id)`: `None` stands for the 404. */
  function FindPost(posts: seq<Post>, id: PostId): (r: Option<Post>)
    ensures r.Some? ==> r.value in posts && r.value.id == id
    ensures r.None? <==> !HasPost(posts, id)
  {
    if posts == [] then None
    else if posts[0].id == id then Some(posts[0])
    else FindPost(posts[1..], id)
  }

  /** With unique slugs the lookup finds exactly the group that carries the slug. */
  lemma FindGroupExact(groups: seq<Group>, g: Group)
    requires UniqueGroups(groups) && g in groups
    ensures FindGroup(groups, g.slug) == Some(g)
  {
  }

  /** With ids strictly decreasing the lookup finds exactly the post that carries the id. */
  lemma FindPostExact(posts: seq<Post>, p: Post)
    requires NewestFirst(posts) && p in posts
    ensures FindPost(posts, p.id) == Some(p)
  {
    var q := FindPost(posts, p.id).value;
    var i :| 0 <= i < |posts| && posts[i] == p;
    var j :| 0 <= j < |posts| && posts[j] == q;
    assert i == j;
  }

  /**
   * Validation of a post form: text is required, a chosen group must exist,
   * and an uploaded file must be a picture.
   */
  predicate PostFormValid(groups: seq<Group>, form: PostForm) {
    && form.text != ""
    && (form.group.Some? ==> HasGroup(groups, form.group.value))
    && !form.image.NotAPicture?
  }

  /** Validation of a comment form: text is required. */
  predicate CommentFormValid(form: CommentForm) {
    form.text != ""
  }

  /** The image a post keeps after a form is saved: a new picture replaces the current one. */
  function StoredImage(upload: Upload, current: Option<ImagePath>): Option<ImagePath> {
    match upload
    case Picture(path) => Some(path)
    case _ => current
  }
}
