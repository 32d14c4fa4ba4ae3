/**
 * `cache_page(20, key_prefix="index_page")` around `index`: a rendered index
 * page is kept for 20 seconds under its page parameter and served from the
 * cache until it expires or the cache is cleared. Creating a post does not
 * invalidate it. Time is an integer clock passed in by the caller.
 */
module IndexCache {
  import opened Models
  import opened Paging
  import opened Views
  import Site

  const CacheSeconds: int := 20

  datatype Entry = Entry(content: Response, expires: int)

  /** An entry is served while the clock is before its expiry time. */
  predicate Live(entries: map<PageParam, Entry>, param: PageParam, now: int) {
    param in entries && now < entries[param].expires
  }

  /** A page stored at time `t1` is served again at `t2` exactly while `t2` is less than 20 seconds later. */
  lemma StoredWindow(entries: map<PageParam, Entry>, param: PageParam, r: Response, t1: int, t2: int)
    ensures Live(entries[param := Entry(r, t1 + CacheSeconds)], param, t2) <==> t2 < t1 + CacheSeconds
  {
  }

  class PageCache {
    var entries: map<PageParam, Entry>

    constructor ()
      ensures entries == map[]
    {
      entries := map[];
    }

    /** `cache.clear()`. */
    method Clear()
      modifies this
      ensures entries == map[]
    {
      entries := map[];
    }

    /**
     * A request for the index at time `now`: a live entry is returned as it
     * was stored; otherwise the page is rendered from the current posts and
     * stored until `now + 20`.
     */
    method Get(posts: seq<Post>, param: PageParam, now: int) returns (r: Response)
      modifies this
      ensures Live(old(entries), param, now) ==> r == old(entries)[param].content && entries == old(entries)
      ensures !Live(old(entries), param, now) ==>
                && r == Index(posts, param)
                && entries == old(entries)[param := Entry(r, now + CacheSeconds)]
    {
      if Live(entries, param, now) {
        return entries[param].content;
      }
      r := Index(posts, param);
      entries := entries[param := Entry(r, now + CacheSeconds)];
    }
  }

  /**
   * The cache test of the index view: a post created between two requests
   * less than 20 seconds apart does not change the second page; after the
   * cache is cleared the page is rendered again, now with the new post first.
   */
  method CachedIndexScenario(site: Site.Site, cache: PageCache, author: UserName, form: PostForm,
                             t1: int, t2: int, t3: int)
    returns (first: Response, second: Response, third: Response)
    requires site.Valid() && author in site.users && PostFormValid(site.groups, form)
    requires cache.entries == map[]
    requires t1 <= t2 < t1 + CacheSeconds
    modifies site`posts, site`nextPostId, cache
    ensures first == second == Index(old(site.posts), None)
    ensures third == Index(site.posts, None) && third != first
    ensures third.page.items != [] && third.page.items[0] == Site.NewPost(old(site.nextPostId), author, form)
  {
    first := cache.Get(site.posts, None, t1);
    var _ := site.PostCreate(Authenticated(author), "/create/", Some(form));
    second := cache.Get(site.posts, None, t2);
    cache.Clear();
    third := cache.Get(site.posts, None, t3);
    var post := Site.NewPost(old(site.nextPostId), author, form);
    assert third.page.items[0] == site.posts[0] == post;
    if first.page.items != [] {
      assert first.page.items[0] == old(site.posts)[0];
      assert old(site.posts)[0] in old(site.posts);
    }
  }
}
