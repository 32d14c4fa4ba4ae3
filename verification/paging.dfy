/**
 * `page_obj`: every feed is cut into pages of `PostsPerPage` items by
 * Django's paginator, which is asked for the page named in the request.
 *
 * The paginator itself is library code. Its behaviour is stated here as an
 * assumption about that library: there is always at least one page (an
 * empty list has one empty page); a missing or non-integer page number
 * gives page 1; a number below 1 or above the last page gives the last page;
 * page k holds items [(k-1)*size, min(k*size, count)).
 */
module Paging {
  import opened Models

  const PostsPerPage: nat := 10

  /** The `page` query parameter: `None` when it is absent or not an integer. */
  type PageParam = Option<int>

  datatype Page<T> = Page(number: nat, numPages: nat, items: seq<T>) {
    predicate HasNext() { number < numPages }
    predicate HasPrevious() { number > 1 }
  }

  function Min(a: int, b: int): int {
    if a <= b then a else b
  }

  /** The number of pages: the count divided by the page size, rounded up, and never 0. */
  function NumPages(count: nat): (n: nat)
    ensures n >= 1
    ensures count == 0 ==> n == 1
    ensures count > 0 ==> (n - 1) * 10 < count <= n * 10
  {
    if count == 0 then 1 else (count + PostsPerPage - 1) / PostsPerPage
  }

  /** The page number the paginator settles on for a requested one. */
  function PageNumber(count: nat, param: PageParam): (k: nat)
    ensures 1 <= k <= NumPages(count)
  {
    match param
    case None => 1
    case Some(n) => if 1 <= n <= NumPages(count) then n else NumPages(count)
  }

  /** Page `k` of `items`. */
  function PageSlice<T>(items: seq<T>, k: nat): (s: seq<T>)
    requires 1 <= k <= NumPages(|items|)
    ensures |s| == Min(PostsPerPage, |items| - (k - 1) * PostsPerPage)
    ensures forall i :: 0 <= i < |s| ==> s[i] == items[(k - 1) * PostsPerPage + i]
  {
    items[(k - 1) * PostsPerPage .. Min(k * PostsPerPage, |items|)]
  }

  /** `page_obj(post_list, page_number)`. */
  function PageObj<T>(items: seq<T>, param: PageParam): (pg: Page<T>)
    ensures pg.numPages == NumPages(|items|)
    ensures 1 <= pg.number <= pg.numPages
    ensures param.None? ==> pg.number == 1
    ensures param.Some? && 1 <= param.value <= pg.numPages ==> pg.number == param.value
    ensures param.Some? && !(1 <= param.value <= pg.numPages) ==> pg.number == pg.numPages
    ensures |pg.items| == Min(PostsPerPage, |items| - (pg.number - 1) * PostsPerPage)
    ensures forall i :: 0 <= i < |pg.items| ==> pg.items[i] == items[(pg.number - 1) * PostsPerPage + i]
  {
    var k := PageNumber(|items|, param);
    Page(k, NumPages(|items|), PageSlice(items, k))
  }

  /** Page 1 holds min(N, 10) items, the first ones. */
  lemma FirstPage<T>(items: seq<T>)
    ensures PageObj(items, None).items == items[..Min(|items|, PostsPerPage)]
    ensures PageObj(items, Some(1)) == PageObj(items, None)
  {
  }

  /** The last page holds the remainder: N mod 10 items, or 10 when 10 divides N. */
  lemma LastPage<T>(items: seq<T>)
    requires |items| > 0
    ensures |PageSlice(items, NumPages(|items|))|
            == if |items| % PostsPerPage == 0 then PostsPerPage else |items| % PostsPerPage
  {
  }

  /** The fixture of the view tests: 13 posts give a full first page and 3 on the second. */
  lemma ThirteenPosts<T>(items: seq<T>)
    requires |items| == 13
    ensures |PageObj(items, None).items| == 10
    ensures |PageObj(items, Some(2)).items| == 3
    ensures !PageObj(items, Some(2)).HasNext() && PageObj(items, Some(2)).HasPrevious()
  {
  }

  /** There is a next page exactly when items remain beyond this one. */
  lemma HasNextIffMore<T>(items: seq<T>, param: PageParam)
    ensures PageObj(items, param).HasNext() <==> PageObj(items, param).number * PostsPerPage < |items|
  {
  }

  /** Pages `k`, `k+1`, ..., up to the last one, joined. */
  function PagesFrom<T>(items: seq<T>, k: nat): seq<T>
    requires 1 <= k <= NumPages(|items|) + 1
    decreases NumPages(|items|) + 1 - k
  {
    if k > NumPages(|items|) then [] else PageSlice(items, k) + PagesFrom(items, k + 1)
  }

  /** From page `k` on, the pages hold exactly the items from position (k-1)*10 on. */
  lemma {:induction false} PagesFromSuffix<T>(items: seq<T>, k: nat)
    requires 1 <= k <= NumPages(|items|)
    ensures PagesFrom(items, k) == items[(k - 1) * PostsPerPage..]
    decreases NumPages(|items|) - k
  {
    var n := NumPages(|items|);
    if k == n {
      assert PagesFrom(items, k + 1) == [];
      assert |items| <= k * PostsPerPage;
    } else {
      PagesFromSuffix(items, k + 1);
      assert k * PostsPerPage < |items|;
      assert PageSlice(items, k) == items[(k - 1) * PostsPerPage .. k * PostsPerPage];
      assert items[(k - 1) * PostsPerPage..]
          == items[(k - 1) * PostsPerPage .. k * PostsPerPage] + items[k * PostsPerPage..];
    }
  }

  /** The pages partition the list: read in order, they give back every item once. */
  lemma Partition<T>(items: seq<T>)
    ensures PagesFrom(items, 1) == items
  {
    PagesFromSuffix(items, 1);
  }
}
