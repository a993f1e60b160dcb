/** The blog index of `src/app/blog/page.tsx`: the posts of the active category, fetched from
    `/api/posts`, shown nine to a page with the page navigator below. The React state is a
    value and each handler a function from state to state. */
module BlogPage {
  import opened Wrappers
  import opened PostTypes
  import opened Posts
  import opened Seqs
  import PostsRoute
  import Pagination

  const PostsPerPage := 9

  /** `Math.ceil(n / POSTS_PER_PAGE)`: the fewest pages of nine that hold `n` posts. */
  function TotalPages(n: nat): (r: nat)
    ensures r * PostsPerPage >= n
    ensures r == 0 || (r - 1) * PostsPerPage < n
  {
    (n + PostsPerPage - 1) / PostsPerPage
  }

  /** The position `Array.prototype.slice` reads for an argument: a negative one counts from
      the end, and either way it is clamped to the list. */
  function SliceIndex(i: int, len: nat): (r: nat)
    ensures r <= len
    ensures 0 <= i ==> r == Min(i, len)
  {
    if i < 0 then (if len + i < 0 then 0 else len + i)
    else if i > len then len
    else i
  }

  /** `s.slice(start, end)`. */
  function JsSlice<T>(s: seq<T>, start: int, end: int): seq<T> {
    var from, to := SliceIndex(start, |s|), SliceIndex(end, |s|);
    if from < to then s[from..to] else []
  }

  /** The posts shown on page `page`. */
  function PageOf<T>(posts: seq<T>, page: int): (r: seq<T>)
    ensures |r| <= PostsPerPage
  {
    JsSlice(posts, (page - 1) * PostsPerPage, page * PostsPerPage)
  }

  /** Page `p` holds the posts from position `(p-1)·9` up to `p·9`, cut at the end of the list:
      at most nine, and some exactly when `p` is at most the page count. */
  lemma PageSlice<T>(posts: seq<T>, p: int)
    requires p >= 1
    ensures PageOf(posts, p) == posts[Min((p - 1) * PostsPerPage, |posts|)..Min(p * PostsPerPage, |posts|)]
    ensures |PageOf(posts, p)| <= PostsPerPage
    ensures PageOf(posts, p) != [] <==> p <= TotalPages(|posts|)
  {
    var n, r := |posts|, TotalPages(|posts|);
    if p <= r {
      assert (p - 1) * PostsPerPage <= (r - 1) * PostsPerPage < n;
    } else {
      assert (p - 1) * PostsPerPage >= r * PostsPerPage >= n;
    }
  }

  /** Pages 1 to `k`, one after the other. */
  function Pages<T>(posts: seq<T>, k: nat): seq<T> {
    if k == 0 then [] else Pages(posts, k - 1) + PageOf(posts, k)
  }

  /** The first `k` pages are the first `k·9` posts, in order. */
  lemma {:induction false} PagesArePrefix<T>(posts: seq<T>, k: nat)
    ensures Pages(posts, k) == posts[..Min(k * PostsPerPage, |posts|)]
  {
    if k > 0 {
      PagesArePrefix(posts, k - 1);
      PageSlice(posts, k);
      var a, b := Min((k - 1) * PostsPerPage, |posts|), Min(k * PostsPerPage, |posts|);
      assert posts[..a] + posts[a..b] == posts[..b];
    }
  }

  /** Every post is on exactly one page: pages 1 to `totalPages`, one after the other, are
      the whole list, and every later page is empty. */
  lemma PagesCoverList<T>(posts: seq<T>, p: int)
    ensures Pages(posts, TotalPages(|posts|)) == posts
    ensures p > TotalPages(|posts|) ==> PageOf(posts, p) == []
  {
    PagesArePrefix(posts, TotalPages(|posts|));
    assert posts[..|posts|] == posts;
    if p > TotalPages(|posts|) {
      PageSlice(posts, p);
    }
  }

  /** The state of the page. */
  datatype State = State(posts: seq<Post>, activeCategory: string, currentPage: int, loading: bool)

  const Initial := State([], LatestCategory, 1, true)

  /** `handleCategoryChange`: the chosen category, back to page 1, the posts and the loading
      flag left to the fetch. */
  function CategoryChange(s: State, slug: string): (r: State)
    ensures r.activeCategory == slug && r.currentPage == 1
    ensures r.posts == s.posts && r.loading == s.loading
  {
    s.(activeCategory := slug, currentPage := 1)
  }

  /** The `category` query parameter `fetchPosts` sends: none for `latest`. */
  function CategoryParam(category: string): (r: Option<string>)
    ensures r.None? <==> category == LatestCategory
    ensures r.Some? ==> r.value == category
  {
    if category != LatestCategory then Some(category) else None
  }

  /** The list `/api/posts` answers for the active category, given the stored posts. */
  function FetchedPosts(contents: seq<Post>, category: string): seq<Post> {
    PostsRoute.HandleList(contents, CategoryParam(category)).payload.posts
  }

  /** The page lists what `getPostsByCategory` gives for its category, `latest` included; an
      empty slug is sent as an empty parameter, which the endpoint reads as no category. */
  lemma FetchMatchesCategory(contents: seq<Post>, category: string)
    ensures category != "" ==> FetchedPosts(contents, category) == PostsByCategory(contents, category)
    ensures category == "" ==> FetchedPosts(contents, category) == PublishedPosts(contents)
  {
  }

  /** `fetchPosts` starting, and finishing with the parsed answer, or `None` when the request
      or the parsing threw, which keeps the posts shown before. */
  function FetchStart(s: State): State {
    s.(loading := true)
  }

  function FetchDone(s: State, answer: Option<seq<Post>>): (r: State)
    ensures !r.loading && r.activeCategory == s.activeCategory && r.currentPage == s.currentPage
    ensures r.posts == if answer.Some? then answer.value else s.posts
  {
    s.(posts := answer.GetOr(s.posts), loading := false)
  }

  /** What the main column shows. */
  datatype View = Loading | NoPosts | Cards(cards: seq<Post>, nav: Option<Pagination.View>)

  function Render(s: State): (v: View)
    ensures v.Loading? <==> s.loading
    ensures v.Cards? ==> v.cards == PageOf(s.posts, s.currentPage) && v.cards != []
    ensures !s.loading && PageOf(s.posts, s.currentPage) == [] ==> v.NoPosts?
  {
    if s.loading then Loading
    else
      var cards := PageOf(s.posts, s.currentPage);
      if cards == [] then NoPosts
      else Cards(cards, Pagination.Render(s.currentPage, TotalPages(|s.posts|)))
  }

  /** Choosing a category shows, once its posts arrive, the first nine of them newest first,
      with a navigator exactly when there are more than nine, or the empty notice when the
      category has no published post. */
  lemma CategoryChangeShowsFirstPage(s: State, contents: seq<Post>, slug: string)
    requires slug != ""
    ensures var listed := PostsByCategory(contents, slug);
      var v := Render(FetchDone(FetchStart(CategoryChange(s, slug)), Some(FetchedPosts(contents, slug))));
      && (v.NoPosts? <==> listed == [])
      && (v.Cards? ==> v.cards == listed[..Min(PostsPerPage, |listed|)])
      && (v.Cards? ==> (v.nav.None? <==> |listed| <= PostsPerPage))
  {
    var listed := PostsByCategory(contents, slug);
    FetchMatchesCategory(contents, slug);
    PageSlice(listed, 1);
    var t := TotalPages(|listed|);
    if |listed| > PostsPerPage {
      assert t > 1;
    } else if listed != [] {
      assert t == 1;
    }
  }

  /** From a shown page, a page chosen in the navigator is again a page with posts; so the
      current page, which starts at 1 and is reset to 1 on a category change, never leaves
      the filled pages while the list stays the same. */
  lemma NavigationStaysOnFilledPages(s: State, click: Pagination.Click)
    requires s.currentPage >= 1 && Render(s).Cards? && Render(s).nav.Some?
    ensures var r := Pagination.Requested(Render(s).nav.value, s.currentPage, click);
      r.Some? ==> r.value >= 1 && Render(s.(currentPage := r.value)).Cards?
  {
    var total := TotalPages(|s.posts|);
    PageSlice(s.posts, s.currentPage);
    Pagination.RequestsStayInRange(s.currentPage, total, click);
    var r := Pagination.Requested(Render(s).nav.value, s.currentPage, click);
    if r.Some? {
      PageSlice(s.posts, r.value);
    }
  }
}
