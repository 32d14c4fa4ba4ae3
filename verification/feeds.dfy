/**
 * The feeds the views list: all posts, a group's posts, an author's posts,
 * the posts of the authors a viewer follows, and a post's comments. Each is
 * a filter that keeps the order of the store, so every feed is newest first.
 */
module Feeds {
  import opened Models

  /** The elements of `xs` that `keep` accepts, in their original order. */
  function Filter<T(!new)>(xs: seq<T>, keep: T -> bool): (r: seq<T>)
    ensures |r| <= |xs|
    ensures forall x :: x in r <==> x in xs && keep(x)
  {
    if xs == [] then []
    else if keep(xs[0]) then [xs[0]] + Filter(xs[1..], keep)
    else Filter(xs[1..], keep)
  }

  /** Each accepted element is kept as often as it occurs; a rejected one never is. */
  lemma {:induction false} FilterMultiplicity<T(!new)>(xs: seq<T>, keep: T -> bool, x: T)
    ensures multiset(Filter(xs, keep))[x] == if keep(x) then multiset(xs)[x] else 0
  {
    if xs != [] {
      FilterMultiplicity(xs[1..], keep, x);
      assert xs == [xs[0]] + xs[1..];
    }
  }

  /** A filter applied to a list with one element in front. */
  lemma FilterCons<T(!new)>(x: T, xs: seq<T>, keep: T -> bool)
    ensures Filter([x] + xs, keep) == if keep(x) then [x] + Filter(xs, keep) else Filter(xs, keep)
  {
    assert ([x] + xs)[1..] == xs;
  }

  /** A filter applied to a list with one element at the end: that element comes last, if kept. */
  lemma {:induction false} FilterSnoc<T(!new)>(xs: seq<T>, x: T, keep: T -> bool)
    ensures Filter(xs + [x], keep) == Filter(xs, keep) + if keep(x) then [x] else []
  {
    if xs == [] {
      assert [] + [x] == [x];
      FilterCons(x, [], keep);
    } else {
      FilterSnoc(xs[1..], x, keep);
      assert xs + [x] == [xs[0]] + (xs[1..] + [x]);
      FilterCons(xs[0], xs[1..] + [x], keep);
      FilterCons(xs[0], xs[1..], keep);
      assert xs == [xs[0]] + xs[1..];
    }
  }

  /** A filter that rejects every element gives the empty list. */
  lemma {:induction false} FilterNone<T(!new)>(xs: seq<T>, keep: T -> bool)
    requires forall x :: x in xs ==> !keep(x)
    ensures Filter(xs, keep) == []
  {
    if xs != [] {
      FilterNone(xs[1..], keep);
    }
  }

  /** Filtering a newest-first list gives a newest-first list. */
  lemma {:induction false} FilterNewestFirst(posts: seq<Post>, keep: Post -> bool)
    requires NewestFirst(posts)
    ensures NewestFirst(Filter(posts, keep))
  {
    if posts != [] {
      var rest := posts[1..];
      assert NewestFirst(rest);
      FilterNewestFirst(rest, keep);
      var fr := Filter(rest, keep);
      if keep(posts[0]) {
        forall j | 0 <= j < |fr| ensures posts[0].id > fr[j].id {
          assert fr[j] in rest;
          var m :| 0 <= m < |rest| && rest[m] == fr[j];
          assert posts[m + 1] == fr[j];
        }
        var r := [posts[0]] + fr;
        forall i, j | 0 <= i < j < |r| ensures r[i].id > r[j].id {
          if i > 0 {
            assert r[i] == fr[i - 1] && r[j] == fr[j - 1];
          } else {
            assert r[j] == fr[j - 1];
          }
        }
      }
    }
  }

  /** The posts filed under group `id` (`group_posts`). */
  function GroupFeed(posts: seq<Post>, id: GroupId): (r: seq<Post>)
    ensures forall p :: p in r <==> p in posts && p.group == Some(id)
  {
    Filter(posts, (p: Post) => p.group == Some(id))
  }

  /** The posts written by `author` (`profile`; its length is `post_count`). */
  function AuthorFeed(posts: seq<Post>, author: UserName): (r: seq<Post>)
    ensures forall p :: p in r <==> p in posts && p.author == author
  {
    Filter(posts, (p: Post) => p.author == author)
  }

  /** The posts whose author `viewer` follows (`follow_index`). */
  function FollowFeed(posts: seq<Post>, follows: set<Follow>, viewer: UserName): (r: seq<Post>)
    ensures forall p :: p in r <==> p in posts && Follow(viewer, p.author) in follows
  {
    Filter(posts, (p: Post) => Follow(viewer, p.author) in follows)
  }

  /** The comments on post `id` (`post.comments.all()`), oldest first. */
  function CommentsOn(comments: seq<Comment>, id: PostId): (r: seq<Comment>)
    ensures forall c :: c in r <==> c in comments && c.post == id
    ensures forall c :: multiset(r)[c] == if c.post == id then multiset(comments)[c] else 0
  {
    var keep := (c: Comment) => c.post == id;
    forall c ensures multiset(Filter(comments, keep))[c] == if keep(c) then multiset(comments)[c] else 0 {
      FilterMultiplicity(comments, keep, c);
    }
    Filter(comments, keep)
  }

  /** A comment written last on post `id` is listed last on it; the earlier comments stay as they were. */
  lemma CommentsOnAppend(comments: seq<Comment>, c: Comment, id: PostId)
    ensures CommentsOn(comments + [c], id) == CommentsOn(comments, id) + if c.post == id then [c] else []
  {
    FilterSnoc(comments, c, (d: Comment) => d.post == id);
  }

  /** A group nobody has posted in has an empty feed. */
  lemma NewGroupEmpty(posts: seq<Post>, id: GroupId)
    requires forall p :: p in posts ==> p.group != Some(id)
    ensures GroupFeed(posts, id) == []
  {
    FilterNone(posts, (p: Post) => p.group == Some(id));
  }

  /**
   * A post filed under group `g` appears in the feed of the group found by
   * `g`'s slug and in the feed of no group found by another slug.
   */
  lemma GroupFeedSeparation(groups: seq<Group>, posts: seq<Post>, g: Group, p: Post, slug: string)
    requires UniqueGroups(groups) && g in groups
    requires p in posts && p.group == Some(g.id)
    ensures FindGroup(groups, g.slug) == Some(g) && p in GroupFeed(posts, g.id)
    ensures slug != g.slug && FindGroup(groups, slug).Some? ==>
              p !in GroupFeed(posts, FindGroup(groups, slug).value.id)
  {
    FindGroupExact(groups, g);
  }

  /** A viewer who follows nobody has an empty follow feed. */
  lemma NonFollowerFeedEmpty(posts: seq<Post>, follows: set<Follow>, viewer: UserName)
    requires forall f :: f in follows ==> f.user != viewer
    ensures FollowFeed(posts, follows, viewer) == []
  {
    FilterNone(posts, (p: Post) => Follow(viewer, p.author) in follows);
  }

  /** Once the pair is removed, none of the author's posts remain in the follower's feed. */
  lemma UnfollowHidesAuthor(posts: seq<Post>, follows: set<Follow>, viewer: UserName, author: UserName)
    ensures forall p :: p in FollowFeed(posts, follows - {Follow(viewer, author)}, viewer) ==> p.author != author
  {
  }

  /** A new post put in front of the store heads every feed whose filter accepts it. */
  lemma PrependHeadsFeed(p: Post, posts: seq<Post>, keep: Post -> bool)
    requires keep(p)
    ensures Filter([p] + posts, keep) == [p] + Filter(posts, keep)
    ensures |Filter([p] + posts, keep)| == |Filter(posts, keep)| + 1
  {
    FilterCons(p, posts, keep);
  }

  /** A new post changes only its own author's post count, by one. */
  lemma PrependCounts(p: Post, posts: seq<Post>, author: UserName)
    ensures |AuthorFeed([p] + posts, author)|
            == |AuthorFeed(posts, author)| + (if p.author == author then 1 else 0)
  {
    FilterCons(p, posts, (q: Post) => q.author == author);
  }
}
