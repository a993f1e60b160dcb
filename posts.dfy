/** The post store of `src/lib/posts.ts`. The JSON file is the field `posts` of a
    `PostStore`, in file order. Every read sorts the file's contents (newest first); every
    write stores the sorted list as changed by the operation, so after a write the file is
    in sorted order apart from an appended post. */
module Posts {
  import opened Wrappers
  import opened Seqs
  import opened PostTypes

  /** Ordered by `createdAt`, newest first. */
  ghost predicate SortedDesc(s: seq<Post>) {
    forall i, j :: 0 <= i < j < |s| ==> s[j].createdAt <= s[i].createdAt
  }

  /** Places `p` before the first post that is not newer than it. */
  function Insert(p: Post, s: seq<Post>): (r: seq<Post>)
    ensures multiset(r) == multiset(s) + multiset{p}
  {
    if s == [] || s[0].createdAt <= p.createdAt then [p] + s
    else
      assert s == [s[0]] + s[1..];
      [s[0]] + Insert(p, s[1..])
  }

  /** Every post of a list no newer than `bound`. */
  ghost predicate NotNewerThan(s: seq<Post>, bound: int) {
    forall x :: x in s ==> x.createdAt <= bound
  }

  /** Inserting keeps a bound that both the list and the new post respect. */
  lemma InsertBounded(p: Post, s: seq<Post>, bound: int)
    requires NotNewerThan(s, bound) && p.createdAt <= bound
    ensures NotNewerThan(Insert(p, s), bound)
  {
    var r := Insert(p, s);
    forall x | x in r ensures x.createdAt <= bound {
      assert x in multiset(r);
      if x != p {
        assert x in multiset(s);
      }
    }
  }

  /** A post no older than every post of a sorted list can go in front of it. */
  lemma ConsSorted(x: Post, rest: seq<Post>)
    requires SortedDesc(rest) && NotNewerThan(rest, x.createdAt)
    ensures SortedDesc([x] + rest)
  {
    var r := [x] + rest;
    forall i, j | 0 <= i < j < |r| ensures r[j].createdAt <= r[i].createdAt {
      assert r[j] == rest[j - 1];
      if i > 0 {
        assert r[i] == rest[i - 1];
      } else {
        assert rest[j - 1] in rest;
      }
    }
  }

  lemma {:induction false} InsertSorted(p: Post, s: seq<Post>)
    requires SortedDesc(s)
    ensures SortedDesc(Insert(p, s))
  {
    if s != [] && s[0].createdAt > p.createdAt {
      InsertSorted(p, s[1..]);
      assert NotNewerThan(s[1..], s[0].createdAt) by {
        forall x | x in s[1..] ensures x.createdAt <= s[0].createdAt {
          var j :| 0 <= j < |s[1..]| && s[1..][j] == x;
          assert s[j + 1] == x;
        }
      }
      InsertBounded(p, s[1..], s[0].createdAt);
      ConsSorted(s[0], Insert(p, s[1..]));
    } else if s != [] {
      assert NotNewerThan(s, p.createdAt) by {
        forall x | x in s ensures x.createdAt <= p.createdAt {
          var j :| 0 <= j < |s| && s[j] == x;
        }
      }
      ConsSorted(p, s);
    }
  }

  /** `getAllPosts`: the engine's sort is stable, so this is insertion from the right:
      the first post goes ahead of every later post with the same or an older timestamp. */
  function AllPosts(contents: seq<Post>): (r: seq<Post>)
    ensures multiset(r) == multiset(contents)
    ensures SortedDesc(r)
  {
    if contents == [] then []
    else
      assert contents == [contents[0]] + contents[1..];
      var rest := AllPosts(contents[1..]);
      InsertSorted(contents[0], rest);
      Insert(contents[0], rest)
  }

  function CreatedAtIs(t: int): Post -> bool {
    (p: Post) => p.createdAt == t
  }

  lemma {:induction false} InsertStable(p: Post, s: seq<Post>, t: int)
    ensures Filter(Insert(p, s), CreatedAtIs(t))
         == (if p.createdAt == t then [p] else []) + Filter(s, CreatedAtIs(t))
  {
    var f := CreatedAtIs(t);
    var head := if p.createdAt == t then [p] else [];
    assert Filter([p], f) == head;
    if s == [] || s[0].createdAt <= p.createdAt {
      FilterConcat([p], s, f);
    } else {
      InsertStable(p, s[1..], t);
      PassOverStep(s[0], Insert(p, s[1..]), s[1..], head, f);
      assert Insert(p, s) == [s[0]] + Insert(p, s[1..]);
      assert s == [s[0]] + s[1..];
    }
  }

  /** Moving a post over a kept `head` that it cannot share a key with leaves the filtered
      result as it was. */
  lemma PassOverStep(x: Post, rest: seq<Post>, tail: seq<Post>, head: seq<Post>, f: Post -> bool)
    requires Filter(rest, f) == head + Filter(tail, f)
    requires f(x) ==> head == []
    ensures Filter([x] + rest, f) == head + Filter([x] + tail, f)
  {
    var fr, ft := Filter(rest, f), Filter(tail, f);
    var x0 := Filter([x], f);
    assert x0 == if f(x) then [x] else [] by {
      assert [x][1..] == [];
    }
    FilterConcat([x], rest, f);
    FilterConcat([x], tail, f);
    if f(x) {
      assert fr == ft by {
        assert head == [];
        assert [] + ft == ft;
      }
    } else {
      assert x0 == [];
      assert [] + fr == fr && [] + ft == ft;
    }
  }

  /** Sorting is stable: the posts that share a timestamp keep their file order. */
  lemma {:induction false} AllPostsStable(contents: seq<Post>, t: int)
    ensures Filter(AllPosts(contents), CreatedAtIs(t)) == Filter(contents, CreatedAtIs(t))
  {
    if contents != [] {
      AllPostsStable(contents[1..], t);
      InsertStable(contents[0], AllPosts(contents[1..]), t);
      FilterConcat([contents[0]], contents[1..], CreatedAtIs(t));
      assert contents == [contents[0]] + contents[1..];
    }
  }

  lemma {:induction false} FilterBounded(s: seq<Post>, keep: Post -> bool, bound: int)
    requires forall i :: 0 <= i < |s| ==> s[i].createdAt <= bound
    ensures forall i :: 0 <= i < |Filter(s, keep)| ==> Filter(s, keep)[i].createdAt <= bound
  {
    if s != [] {
      FilterBounded(s[1..], keep, bound);
    }
  }

  /** Removing posts from a sorted list leaves it sorted. */
  lemma {:induction false} FilterSorted(s: seq<Post>, keep: Post -> bool)
    requires SortedDesc(s)
    ensures SortedDesc(Filter(s, keep))
  {
    if s != [] {
      var tail := s[1..];
      assert SortedDesc(tail) by {
        forall i, j | 0 <= i < j < |tail| ensures tail[j].createdAt <= tail[i].createdAt {
          assert tail[i] == s[i + 1] && tail[j] == s[j + 1];
        }
      }
      FilterSorted(tail, keep);
      var rest := Filter(tail, keep);
      assert forall i :: 0 <= i < |tail| ==> tail[i].createdAt <= s[0].createdAt by {
        forall i | 0 <= i < |tail| ensures tail[i].createdAt <= s[0].createdAt {
          assert tail[i] == s[i + 1];
        }
      }
      FilterBounded(tail, keep, s[0].createdAt);
      if keep(s[0]) {
        var r := [s[0]] + rest;
        assert Filter(s, keep) == r;
        forall i, j | 0 <= i < j < |r| ensures r[j].createdAt <= r[i].createdAt {
          assert r[j] == rest[j - 1];
          if i > 0 {
            assert r[i] == rest[i - 1];
          }
        }
      } else {
        assert Filter(s, keep) == rest;
      }
    }
  }

  predicate IsPublished(p: Post) {
    p.published
  }

  function InCategory(category: string): Post -> bool {
    (p: Post) => p.category == category
  }

  function HasSlug(slug: string): Post -> bool {
    (p: Post) => p.slug == slug
  }

  function HasId(id: string): Post -> bool {
    (p: Post) => p.id == id
  }

  /** `getPublishedPosts`: every published post, as often as stored, newest first. */
  function PublishedPosts(contents: seq<Post>): (r: seq<Post>)
    ensures forall p :: multiset(r)[p] == if p.published then multiset(contents)[p] else 0
    ensures SortedDesc(r)
  {
    var all := AllPosts(contents);
    FilterCounts(all, IsPublished);
    FilterSorted(all, IsPublished);
    Filter(all, IsPublished)
  }

  /** A published post shown under `category`. */
  predicate ListedUnder(p: Post, category: string) {
    p.published && (category == LatestCategory || p.category == category)
  }

  /** `getPostsByCategory`: the sentinel `latest` is the whole published list; any other
      category keeps the published posts filed under exactly that category. */
  function PostsByCategory(contents: seq<Post>, category: string): (r: seq<Post>)
    ensures category == LatestCategory ==> r == PublishedPosts(contents)
    ensures forall p :: multiset(r)[p] == if ListedUnder(p, category) then multiset(contents)[p] else 0
    ensures SortedDesc(r)
  {
    var published := PublishedPosts(contents);
    if category == LatestCategory then published
    else
      FilterCounts(published, InCategory(category));
      FilterSorted(published, InCategory(category));
      Filter(published, InCategory(category))
  }

  /** Posts that share a timestamp are listed in the order the file holds them. */
  lemma PublishedStable(contents: seq<Post>, t: int)
    ensures Filter(PublishedPosts(contents), CreatedAtIs(t)) == Filter(Filter(contents, CreatedAtIs(t)), IsPublished)
  {
    FilterCommute(AllPosts(contents), IsPublished, CreatedAtIs(t));
    AllPostsStable(contents, t);
  }

  /** The same for a category listing: equal timestamps keep the file order. */
  lemma CategoryStable(contents: seq<Post>, category: string, t: int)
    ensures category == LatestCategory ==>
      Filter(PostsByCategory(contents, category), CreatedAtIs(t)) == Filter(Filter(contents, CreatedAtIs(t)), IsPublished)
    ensures category != LatestCategory ==>
      Filter(PostsByCategory(contents, category), CreatedAtIs(t))
        == Filter(Filter(Filter(contents, CreatedAtIs(t)), IsPublished), InCategory(category))
  {
    PublishedStable(contents, t);
    FilterCommute(PublishedPosts(contents), InCategory(category), CreatedAtIs(t));
  }

  /** Sorting keeps the posts: the same ones are stored and read. */
  lemma SameMembers(contents: seq<Post>)
    ensures forall p :: p in contents <==> p in AllPosts(contents)
  {
    var all := AllPosts(contents);
    forall p ensures p in contents <==> p in all {
      assert p in contents <==> p in multiset(all);
    }
  }

  /** In a list sorted newest first, the first match is the newest one. */
  lemma FirstIsNewest(all: seq<Post>, f: Post -> bool)
    requires SortedDesc(all) && FirstIndex(all, f) >= 0
    ensures var i := FirstIndex(all, f);
      forall p :: p in all && f(p) ==> p.createdAt <= all[i].createdAt
  {
    var i := FirstIndex(all, f);
    forall p | p in all && f(p) ensures p.createdAt <= all[i].createdAt {
      var j :| 0 <= j < |all| && all[j] == p;
      assert i <= j;
    }
  }

  /** `p` stands in `all` at a position before which nothing satisfies `f`. */
  predicate FoundFirst(all: seq<Post>, f: Post -> bool, p: Post) {
    exists i :: 0 <= i < |all| && all[i] == p && forall j :: 0 <= j < i ==> !f(all[j])
  }

  /** At most one post is found first: a lookup leaves no tie open. */
  lemma FoundFirstUnique(all: seq<Post>, f: Post -> bool, p: Post, q: Post)
    requires f(p) && FoundFirst(all, f, p)
    requires f(q) && FoundFirst(all, f, q)
    ensures p == q
  {
    var i :| 0 <= i < |all| && all[i] == p && forall j :: 0 <= j < i ==> !f(all[j]);
    var k :| 0 <= k < |all| && all[k] == q && forall j :: 0 <= j < k ==> !f(all[j]);
  }

  /** The first post of the sorted list that satisfies `f`: among the matches, the newest,
      and among equally new ones, the one the stable sort puts first. */
  function FirstMatch(contents: seq<Post>, f: Post -> bool): (r: Option<Post>)
    ensures r.None? <==> forall p :: p in contents ==> !f(p)
    ensures r.Some? ==> r.value in contents && f(r.value)
    ensures r.Some? ==> forall p :: p in contents && f(p) ==> p.createdAt <= r.value.createdAt
    ensures r.Some? ==> FoundFirst(AllPosts(contents), f, r.value)
  {
    var all := AllPosts(contents);
    SameMembers(contents);
    var i := FirstIndex(all, f);
    if i < 0 then None
    else
      FirstIsNewest(all, f);
      assert FoundFirst(all, f, all[i]);
      Some(all[i])
  }

  /** `getPostBySlug`: searches every post, published or not. */
  function PostBySlug(contents: seq<Post>, slug: string): (r: Option<Post>)
    ensures r.None? <==> forall p :: p in contents ==> p.slug != slug
    ensures r.Some? ==> r.value in contents && r.value.slug == slug
    ensures r.Some? ==> forall p :: p in contents && p.slug == slug ==> p.createdAt <= r.value.createdAt
    ensures r.Some? ==> FoundFirst(AllPosts(contents), HasSlug(slug), r.value)
  {
    FirstMatch(contents, HasSlug(slug))
  }

  /** `getPostById`: searches every post, published or not. */
  function PostById(contents: seq<Post>, id: string): (r: Option<Post>)
    ensures r.None? <==> forall p :: p in contents ==> p.id != id
    ensures r.Some? ==> r.value in contents && r.value.id == id
    ensures r.Some? ==> forall p :: p in contents && p.id == id ==> p.createdAt <= r.value.createdAt
    ensures r.Some? ==> FoundFirst(AllPosts(contents), HasId(id), r.value)
  {
    FirstMatch(contents, HasId(id))
  }

  /** One field after a spread: the supplied value when there is one, the old one otherwise. */
  predicate Overlaid<T(==)>(supplied: Option<T>, before: T, after: T) {
    (supplied.Some? ==> after == supplied.value) && (supplied.None? ==> after == before)
  }

  /** The shallow merge `{ ...post, ...updates, updatedAt: now }`: every field the body
      supplies replaces the post's, every other is kept, and the stamp is the store's. */
  function Merge(post: Post, updates: PostPatch, now: int): (r: Post)
    ensures && Overlaid(updates.id, post.id, r.id)
            && Overlaid(updates.title, post.title, r.title)
            && Overlaid(updates.slug, post.slug, r.slug)
            && Overlaid(updates.excerpt, post.excerpt, r.excerpt)
            && Overlaid(updates.content, post.content, r.content)
            && Overlaid(updates.coverImage, post.coverImage, r.coverImage)
            && Overlaid(updates.category, post.category, r.category)
            && Overlaid(updates.author, post.author, r.author)
            && Overlaid(updates.createdAt, post.createdAt, r.createdAt)
            && Overlaid(updates.published, post.published, r.published)
    ensures r.updatedAt == now
  {
    Post(
      updates.id.GetOr(post.id),
      updates.title.GetOr(post.title),
      updates.slug.GetOr(post.slug),
      updates.excerpt.GetOr(post.excerpt),
      updates.content.GetOr(post.content),
      updates.coverImage.GetOr(post.coverImage),
      updates.category.GetOr(post.category),
      updates.author.GetOr(post.author),
      updates.createdAt.GetOr(post.createdAt),
      now,
      updates.published.GetOr(post.published))
  }

  /** An empty update body only re-stamps the post. */
  lemma MergeEmpty(post: Post, now: int)
    ensures Merge(post, EmptyPatch, now) == post.(updatedAt := now)
  {
  }

  /** The store's stamp always wins over an `updatedAt` in the body, and applying the same
      body twice at the same time is the same as applying it once. */
  lemma MergeStampsAndIsIdempotent(post: Post, updates: PostPatch, now: int)
    ensures Merge(post, updates, now).updatedAt == now
    ensures Merge(Merge(post, updates, now), updates, now) == Merge(post, updates, now)
  {
  }

  /** Updating one field changes only that field and the stamp. */
  lemma MergeTitleOnly(post: Post, title: string, now: int)
    ensures Merge(post, EmptyPatch.(title := Some(title)), now) == post.(title := title, updatedAt := now)
  {
  }

  class PostStore {
    /** The content of `posts.json`, in file order. */
    var posts: seq<Post>

    /** `ensureDataFile` on a fresh deployment: an empty list. */
    constructor ()
      ensures posts == []
    {
      posts := [];
    }

    /** `createPost`: appends the argument unchanged to the sorted list, without checking
        for a duplicate id, and returns it. */
    method CreatePost(post: Post) returns (created: Post)
      modifies this
      ensures created == post
      ensures posts == AllPosts(old(posts)) + [post]
      ensures multiset(posts) == multiset(old(posts)) + multiset{post}
    {
      var all := AllPosts(posts);
      posts := all + [post];
      created := post;
    }

    /** `updatePost`: an unknown id returns null and writes nothing; otherwise the first
        post with that id in sorted order is replaced by the merge and the sorted list is
        written back. */
    method UpdatePost(id: string, updates: PostPatch, now: int) returns (r: Option<Post>)
      modifies this
      ensures r.None? <==> forall p :: p in old(posts) ==> p.id != id
      ensures r.None? ==> posts == old(posts)
      ensures r.Some? ==>
        var all := AllPosts(old(posts));
        var i := FirstIndex(all, HasId(id));
        0 <= i < |all| && all[i].id == id
        && r.value == Merge(all[i], updates, now)
        && posts == all[i := r.value]
      ensures r.Some? ==> PostById(old(posts), id).Some? && r.value == Merge(PostById(old(posts), id).value, updates, now)
    {
      var all := AllPosts(posts);
      SameMembers(posts);
      var index := FirstIndex(all, HasId(id));
      if index == -1 {
        return None;
      }
      var merged := Merge(all[index], updates, now);
      posts := all[index := merged];
      r := Some(merged);
    }

    /** `deletePost`: false and no write when no post has the id; otherwise every post with
        that id is dropped from the sorted list and the rest are written in order. */
    method DeletePost(id: string) returns (removed: bool)
      modifies this
      ensures removed <==> exists p :: p in old(posts) && p.id == id
      ensures !removed ==> posts == old(posts)
      ensures removed ==> posts == Filter(AllPosts(old(posts)), LacksId(id)) && SortedDesc(posts)
      ensures forall p :: multiset(posts)[p] == if p.id == id then 0 else multiset(old(posts))[p]
    {
      var all := AllPosts(posts);
      var filtered := Filter(all, LacksId(id));
      DeleteCounts(posts, id);
      DeleteLength(posts, id);
      if |filtered| == |all| {
        AbsentIdNotCounted(posts, id);
        return false;
      }
      posts := filtered;
      removed := true;
    }
  }

  function LacksId(id: string): Post -> bool {
    (p: Post) => p.id != id
  }

  /** The list `deletePost` writes: the sorted posts of every other id, as often as stored. */
  lemma DeleteCounts(contents: seq<Post>, id: string)
    ensures var kept := Filter(AllPosts(contents), LacksId(id));
      && SortedDesc(kept)
      && (forall p :: multiset(kept)[p] == if p.id == id then 0 else multiset(contents)[p])
  {
    FilterCounts(AllPosts(contents), LacksId(id));
    FilterSorted(AllPosts(contents), LacksId(id));
  }

  /** That list is as long as the sorted list exactly when no post has the id. */
  lemma DeleteLength(contents: seq<Post>, id: string)
    ensures var all := AllPosts(contents);
      |Filter(all, LacksId(id))| == |all| <==> forall p :: p in contents ==> p.id != id
  {
    var all := AllPosts(contents);
    var keep := LacksId(id);
    FilterKeepsLength(all, keep);
    SameMembers(contents);
    if forall p :: p in contents ==> p.id != id {
      forall i | 0 <= i < |all| ensures keep(all[i]) {
        assert all[i] in all;
      }
    } else {
      var p :| p in contents && p.id == id;
      var j :| 0 <= j < |all| && all[j] == p;
      assert !keep(all[j]);
    }
  }

  /** With no post of the id, no copy of any post with that id is stored. */
  lemma AbsentIdNotCounted(contents: seq<Post>, id: string)
    requires forall p :: p in contents ==> p.id != id
    ensures forall p: Post :: p.id == id ==> multiset(contents)[p] == 0
  {
  }

  /** A post created with an id that no stored post has is what a later lookup by that id
      returns. */
  lemma CreatedPostIsFound(contents: seq<Post>, post: Post)
    requires forall p :: p in contents ==> p.id != post.id
    ensures PostById(AllPosts(contents) + [post], post.id) == Some(post)
  {
    var all := AllPosts(contents);
    assert forall q :: q in all ==> q.id != post.id by {
      forall q | q in all ensures q.id != post.id {
        assert q in multiset(all);
      }
    }
    assert post in all + [post];
  }
}
