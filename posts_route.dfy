/** The `/api/posts` endpoint of `src/app/api/posts/route.ts`: GET lists published posts,
    optionally by category; POST validates the body, derives the slug, fills the defaults
    and hands the record to the store. The request body is already parsed (`None` when
    `request.json()` throws or yields `null`, whose destructuring throws); the uuid and the clock are parameters. */
module PostsRoute {
  import opened Wrappers
  import opened Text
  import opened Seqs
  import opened PostTypes
  import opened Posts

  // ---------------------------------------------------------------- slugs

  /** The characters `[a-zA-Z0-9一-龥]` that a slug keeps. */
  predicate IsSlugChar(c: char) {
    ('a' <= c <= 'z') || ('A' <= c <= 'Z') || ('0' <= c <= '9') || ('\U{4E00}' <= c <= '\U{9FA5}')
  }

  predicate NotHyphen(c: char) {
    c != '-'
  }

  /** Drops the leading run of characters a slug does not keep. */
  function SkipRun(s: string): (r: string)
    ensures |r| <= |s| && r == s[|s| - |r|..]
    ensures r != [] ==> IsSlugChar(r[0])
  {
    if s != [] && !IsSlugChar(s[0]) then
      var r := SkipRun(s[1..]);
      SuffixOfTail(s, r);
      r
    else s
  }

  /** A suffix of the tail is a suffix of the whole. */
  lemma SuffixOfTail(s: string, r: string)
    requires s != [] && |r| <= |s| - 1 && r == s[1..][|s| - 1 - |r|..]
    ensures r == s[|s| - |r|..]
  {
  }

  /** `.replace(/[^a-zA-Z0-9一-龥]+/g, '-')`: each maximal run of other
      characters becomes a single hyphen. */
  function Hyphenate(s: string): string
    decreases |s|
  {
    if s == [] then []
    else if IsSlugChar(s[0]) then [s[0]] + Hyphenate(s[1..])
    else "-" + Hyphenate(SkipRun(s[1..]))
  }

  /** `^-+`: the leading hyphens removed. */
  function DropLeadingHyphens(s: string): (r: string)
    ensures |r| <= |s| && r == s[|s| - |r|..]
    ensures r != [] ==> r[0] != '-'
  {
    if s != [] && s[0] == '-' then
      var r := DropLeadingHyphens(s[1..]);
      SuffixOfTail(s, r);
      r
    else s
  }

  /** `-+$`: the trailing hyphens removed. */
  function DropTrailingHyphens(s: string): (r: string)
    ensures |r| <= |s| && r == s[..|r|]
    ensures r != [] ==> r[|r| - 1] != '-'
  {
    if s != [] && s[|s| - 1] == '-' then DropTrailingHyphens(s[..|s| - 1]) else s
  }

  /** The slug before the fallback and the timestamp: lower-cased title, runs replaced,
      hyphens trimmed at both ends. */
  function SlugBase(title: string): string {
    DropTrailingHyphens(DropLeadingHyphens(Hyphenate(Lower(title))))
  }

  /** The stored slug: `${base || `post-${now}`}-${now}`. It starts with the base, or with
      `post-` when the base is empty, and always ends in a hyphen and the timestamp. */
  function Slug(title: string, now: nat): (r: string)
    ensures var suffix := "-" + DecimalString(now); |suffix| < |r| && r[|r| - |suffix|..] == suffix
    ensures var base := SlugBase(title); base != "" ==> |base| < |r| && r[..|base|] == base
    ensures SlugBase(title) == "" ==> |r| > 5 && r[..5] == "post-"
  {
    var base, stamp := SlugBase(title), "-" + DecimalString(now);
    var head := if base == "" then "post-" + DecimalString(now) else base;
    var start := if base == "" then "post-" else base;
    assert head[..|start|] == start;
    StartAndEnd(head, stamp, start);
    head + stamp
  }

  /** A string that starts with `start`, followed by `stamp`, starts with `start` and ends
      with `stamp`. */
  lemma StartAndEnd(head: string, stamp: string, start: string)
    requires head != [] && |start| <= |head| && head[..|start|] == start
    ensures var r := head + stamp;
      |stamp| < |r| && r[|r| - |stamp|..] == stamp && r[..|start|] == start
  {
    var r := head + stamp;
    assert r[|head|..] == stamp;
    assert r[..|start|] == head[..|start|];
  }

  /** No two hyphens in a row. */
  predicate NoDoubleHyphen(s: string) {
    forall i :: 0 <= i < |s| - 1 ==> !(s[i] == '-' && s[i + 1] == '-')
  }

  /** Lower-case letters, digits, CJK ideographs and single inner hyphens. */
  predicate WellFormedBase(b: string) {
    && (forall c :: c in b ==> c == '-' || (IsSlugChar(c) && !('A' <= c <= 'Z')))
    && NoDoubleHyphen(b)
    && (b != [] ==> b[0] != '-' && b[|b| - 1] != '-')
  }

  lemma NoDoubleConcat(a: string, b: string)
    requires NoDoubleHyphen(a) && NoDoubleHyphen(b)
    requires a != [] && b != [] ==> a[|a| - 1] != '-' || b[0] != '-'
    ensures NoDoubleHyphen(a + b)
  {
    var ab := a + b;
    forall i | 0 <= i < |ab| - 1 ensures !(ab[i] == '-' && ab[i + 1] == '-') {
      if i + 1 < |a| {
        assert ab[i] == a[i] && ab[i + 1] == a[i + 1];
      } else if i >= |a| {
        assert ab[i] == b[i - |a|] && ab[i + 1] == b[i - |a| + 1];
      }
    }
  }

  /** The characters of a suffix are characters of the whole. */
  lemma SuffixMembers(s: string, t: string)
    requires |t| <= |s| && t == s[|s| - |t|..]
    ensures forall c :: c in t ==> c in s
  {
    forall c | c in t ensures c in s {
      var k :| 0 <= k < |t| && t[k] == c;
      assert c == s[|s| - |t| + k];
    }
  }

  /** Every character of the hyphenated string is a hyphen or a kept character of the
      input. */
  lemma {:induction false} HyphenateChars(s: string)
    ensures forall c :: c in Hyphenate(s) ==> c == '-' || (c in s && IsSlugChar(c))
    decreases |s|
  {
    if s != [] {
      var t := if IsSlugChar(s[0]) then s[1..] else SkipRun(s[1..]);
      var head := if IsSlugChar(s[0]) then [s[0]] else "-";
      assert Hyphenate(s) == head + Hyphenate(t);
      HyphenateChars(t);
      SuffixMembers(s, t);
      forall c | c in Hyphenate(s) ensures c == '-' || (c in s && IsSlugChar(c)) {
        if c !in head {
          assert c in Hyphenate(t);
        }
      }
    }
  }

  /** The hyphenated string never holds two hyphens in a row. */
  lemma {:induction false} HyphenateNoDouble(s: string)
    ensures NoDoubleHyphen(Hyphenate(s))
    decreases |s|
  {
    if s != [] {
      if IsSlugChar(s[0]) {
        HyphenateNoDouble(s[1..]);
        NoDoubleConcat([s[0]], Hyphenate(s[1..]));
      } else {
        var t := SkipRun(s[1..]);
        HyphenateNoDouble(t);
        if t != [] {
          assert Hyphenate(t) == [t[0]] + Hyphenate(t[1..]);
        }
        NoDoubleConcat("-", Hyphenate(t));
      }
    }
  }

  /** A contiguous piece of a string holds only characters of the string and keeps the
      absence of doubled hyphens. */
  lemma SliceKeepsShape(h: string, lo: int, hi: int)
    requires 0 <= lo <= hi <= |h|
    ensures forall c :: c in h[lo..hi] ==> c in h
    ensures NoDoubleHyphen(h) ==> NoDoubleHyphen(h[lo..hi])
  {
    var b := h[lo..hi];
    if NoDoubleHyphen(h) {
      forall i | 0 <= i < |b| - 1 ensures !(b[i] == '-' && b[i + 1] == '-') {
        assert b[i] == h[lo + i] && b[i + 1] == h[lo + i + 1];
      }
    }
  }

  /** Lower-casing leaves no upper-case ASCII letter behind. */
  lemma LowerHasNoUpper(s: string)
    ensures forall c :: c in Lower(s) ==> !('A' <= c <= 'Z')
  {
    var l := Lower(s);
    forall c | c in l ensures !('A' <= c <= 'Z') {
      var k :| 0 <= k < |l| && l[k] == c;
      assert c == LowerChar(s[k]);
    }
  }

  /** The slug base never starts or ends with a hyphen, never holds two in a row, and holds
      nothing but lower-case letters, digits, CJK ideographs and hyphens. */
  lemma SlugBaseWellFormed(title: string)
    ensures WellFormedBase(SlugBase(title))
  {
    var l := Lower(title);
    LowerHasNoUpper(title);
    var h := Hyphenate(l);
    HyphenateChars(l);
    HyphenateNoDouble(l);
    var a := DropLeadingHyphens(h);
    var b := DropTrailingHyphens(a);
    var off := |h| - |a|;
    assert b == h[off..off + |b|];
    TrimmedPieceWellFormed(l, h, b, off);
  }

  /** A piece of the hyphenated lower-cased title that neither starts nor ends with a hyphen
      is a well-formed base. */
  lemma TrimmedPieceWellFormed(l: string, h: string, b: string, off: int)
    requires forall c :: c in l ==> !('A' <= c <= 'Z')
    requires forall c :: c in h ==> c == '-' || (c in l && IsSlugChar(c))
    requires NoDoubleHyphen(h)
    requires 0 <= off <= off + |b| <= |h| && b == h[off..off + |b|]
    requires b != [] ==> b[0] != '-' && b[|b| - 1] != '-'
    ensures WellFormedBase(b)
  {
    SliceKeepsShape(h, off, off + |b|);
  }

  /** Hyphen removal is blind to everything the slug keeps. */
  lemma {:induction false} HyphenateKeepsLetters(s: string)
    ensures Filter(Hyphenate(s), NotHyphen) == Filter(s, IsSlugChar)
    decreases |s|
  {
    if s != [] {
      assert s == [s[0]] + s[1..];
      FilterConcat([s[0]], s[1..], IsSlugChar);
      if IsSlugChar(s[0]) {
        HyphenateKeepsLetters(s[1..]);
        FilterConcat([s[0]], Hyphenate(s[1..]), NotHyphen);
      } else {
        var t := SkipRun(s[1..]);
        HyphenateKeepsLetters(t);
        SkipRunKeepsLetters(s[1..]);
        FilterConcat("-", Hyphenate(t), NotHyphen);
      }
    }
  }

  lemma {:induction false} SkipRunKeepsLetters(s: string)
    ensures Filter(SkipRun(s), IsSlugChar) == Filter(s, IsSlugChar)
  {
    if s != [] && !IsSlugChar(s[0]) {
      SkipRunKeepsLetters(s[1..]);
      assert s == [s[0]] + s[1..];
      FilterConcat([s[0]], s[1..], IsSlugChar);
    }
  }

  lemma {:induction false} DropLeadingKeepsLetters(s: string)
    ensures Filter(DropLeadingHyphens(s), NotHyphen) == Filter(s, NotHyphen)
  {
    if s != [] && s[0] == '-' {
      DropLeadingKeepsLetters(s[1..]);
      assert s == [s[0]] + s[1..];
      FilterConcat([s[0]], s[1..], NotHyphen);
    }
  }

  lemma {:induction false} DropTrailingKeepsLetters(s: string)
    ensures Filter(DropTrailingHyphens(s), NotHyphen) == Filter(s, NotHyphen)
  {
    if s != [] && s[|s| - 1] == '-' {
      DropTrailingKeepsLetters(s[..|s| - 1]);
      assert s == s[..|s| - 1] + [s[|s| - 1]];
      FilterConcat(s[..|s| - 1], [s[|s| - 1]], NotHyphen);
    }
  }

  /** The slug base keeps every letter, digit and CJK ideograph of the lower-cased title, in
      order, and nothing else apart from hyphens. */
  lemma SlugBaseKeepsLetters(title: string)
    ensures Filter(SlugBase(title), NotHyphen) == Filter(Lower(title), IsSlugChar)
  {
    var h := Hyphenate(Lower(title));
    HyphenateKeepsLetters(Lower(title));
    DropLeadingKeepsLetters(h);
    DropTrailingKeepsLetters(DropLeadingHyphens(h));
  }

  /** Dropping the first character keeps a string free of double hyphens. */
  lemma NoDoubleTail(b: string)
    requires b != [] && NoDoubleHyphen(b)
    ensures NoDoubleHyphen(b[1..])
  {
    var t := b[1..];
    forall i | 0 <= i < |t| - 1 ensures !(t[i] == '-' && t[i + 1] == '-') {
      assert t[i] == b[i + 1] && t[i + 1] == b[i + 2];
    }
  }

  /** In a well-formed base, a character that is not kept is a lone hyphen: the run it
      starts ends right there. */
  lemma LoneHyphen(b: string)
    requires b != [] && !IsSlugChar(b[0])
    requires forall c :: c in b ==> IsSlugChar(c) || c == '-'
    requires NoDoubleHyphen(b)
    ensures b[0] == '-' && SkipRun(b[1..]) == b[1..]
  {
    assert b[0] in b;
    if |b| > 1 {
      assert b[1] in b;
      assert b[1..][0] == b[1];
    }
  }

  lemma {:induction false} HyphenateFixesBase(b: string)
    requires forall c :: c in b ==> IsSlugChar(c) || c == '-'
    requires NoDoubleHyphen(b)
    ensures Hyphenate(b) == b
    decreases |b|
  {
    if b != [] {
      var t := b[1..];
      SuffixMembers(b, t);
      NoDoubleTail(b);
      HyphenateFixesBase(t);
      if !IsSlugChar(b[0]) {
        LoneHyphen(b);
        assert Hyphenate(b) == "-" + Hyphenate(t);
      } else {
        assert Hyphenate(b) == [b[0]] + Hyphenate(t);
      }
      assert b == [b[0]] + t;
    }
  }

  lemma LowerFixesLower(s: string)
    requires forall c :: c in s ==> !('A' <= c <= 'Z')
    ensures Lower(s) == s
  {
    assert forall i :: 0 <= i < |s| ==> s[i] in s;
  }

  /** Deriving a slug base from a slug base changes nothing: the title-derived prefix is
      stable. */
  lemma SlugBaseIdempotent(title: string)
    ensures SlugBase(SlugBase(title)) == SlugBase(title)
  {
    var b := SlugBase(title);
    SlugBaseWellFormed(title);
    LowerFixesLower(b);
    HyphenateFixesBase(b);
    assert DropLeadingHyphens(b) == b;
    assert DropTrailingHyphens(b) == b;
  }

  /** Two different timestamp renderings give two different slugs for the same base. */
  lemma SlugShapeDistinct(base: string, da: string, db: string)
    requires da != db
    ensures (if base == "" then "post-" + da else base) + ("-" + da)
         != (if base == "" then "post-" + db else base) + ("-" + db)
  {
    var x := (if base == "" then "post-" + da else base) + ("-" + da);
    var y := (if base == "" then "post-" + db else base) + ("-" + db);
    if base == "" {
      if |da| == |db| {
        assert x[5..5 + |da|] == da;
        assert y[5..5 + |db|] == db;
      }
    } else {
      assert x[|base| + 1..] == da;
      assert y[|base| + 1..] == db;
    }
  }

  /** The same title at two different times gives two different slugs. */
  lemma SlugDistinctInTime(title: string, a: nat, b: nat)
    requires a != b
    ensures Slug(title, a) != Slug(title, b)
  {
    if DecimalString(a) == DecimalString(b) {
      DecimalStringInjective(a, b);
    }
    SlugShapeDistinct(SlugBase(title), DecimalString(a), DecimalString(b));
  }

  // ---------------------------------------------------------------- POST

  /** The JSON body of a create request; `None` stands for a missing or null field. */
  datatype CreateBody = CreateBody(
    title: Option<string>,
    content: Option<string>,
    excerpt: Option<string>,
    coverImage: Option<string>,
    category: Option<string>,
    author: Option<Author>)

  /** `v || fallback` for a string field that may be absent. */
  function TruthyOr(v: Option<string>, fallback: string): string {
    if Truthy(v) then v.value else fallback
  }

  const DefaultCoverImage := "/images/illust-lightbulb.svg"
  const DefaultCategory := "tech"
  const DefaultAuthor := Author("匿名", None, "")
  const ExcerptLength := 100
  const MissingFieldsMessage := "标题和内容不能为空"
  const CreateFailedMessage := "创建文章失败"

  /** The record that POST stores for a body with a title and a content. */
  function NewPost(body: CreateBody, id: string, now: nat): (p: Post)
    requires Truthy(body.title) && Truthy(body.content)
    ensures p.id == id && p.title == body.title.value && p.content == body.content.value
    ensures p.slug == Slug(p.title, now)
    ensures p.published && p.createdAt == p.updatedAt == now
    ensures p.excerpt != "" && p.coverImage != "" && p.category != ""
    ensures Truthy(body.excerpt) ==> p.excerpt == body.excerpt.value
    ensures !Truthy(body.excerpt) ==> |p.excerpt| == Min(ExcerptLength, |p.title|) && p.excerpt <= p.title
    ensures Truthy(body.coverImage) ==> p.coverImage == body.coverImage.value
    ensures !Truthy(body.coverImage) ==> p.coverImage == DefaultCoverImage
    ensures Truthy(body.category) ==> p.category == body.category.value
    ensures !Truthy(body.category) ==> p.category == DefaultCategory
    ensures body.author.Some? ==> p.author == body.author.value
    ensures body.author.None? ==> p.author == DefaultAuthor
  {
    var title := body.title.value;
    Post(
      id,
      title,
      Slug(title, now),
      TruthyOr(body.excerpt, title[..Min(ExcerptLength, |title|)]),
      body.content.value,
      TruthyOr(body.coverImage, DefaultCoverImage),
      TruthyOr(body.category, DefaultCategory),
      body.author.GetOr(DefaultAuthor),
      now,
      now,
      true)
  }

  datatype Payload = PostPayload(post: Post) | ListPayload(posts: seq<Post>) | ErrorPayload(message: string)

  datatype Response = Response(status: int, payload: Payload)

  /** What POST answers: 500 when the body cannot be parsed or is `null`, 400 when the title or the
      content is missing or empty, otherwise 201 with the new record. */
  function CreateOutcome(body: Option<CreateBody>, id: string, now: nat): (r: Response)
    ensures r.status == 500 <==> body.None?
    ensures r.status == 400 <==> body.Some? && !(Truthy(body.value.title) && Truthy(body.value.content))
    ensures r.status == 201 <==> body.Some? && Truthy(body.value.title) && Truthy(body.value.content)
    ensures r.status == 201 ==>
      (r.payload.PostPayload? && r.payload.post.published && r.payload.post.slug == Slug(body.value.title.value, now))
    ensures r.status == 201 ==>
      && body.Some? && Truthy(body.value.title) && Truthy(body.value.content)
      && r.payload == PostPayload(NewPost(body.value, id, now))
  {
    match body
    case None => Response(500, ErrorPayload(CreateFailedMessage))
    case Some(b) =>
      if !Truthy(b.title) || !Truthy(b.content) then Response(400, ErrorPayload(MissingFieldsMessage))
      else Response(201, PostPayload(NewPost(b, id, now)))
  }

  /** POST: the store is written exactly when the answer is 201. */
  method HandleCreate(store: PostStore, body: Option<CreateBody>, id: string, now: nat) returns (resp: Response)
    modifies store
    ensures resp == CreateOutcome(body, id, now)
    ensures resp.status == 201 ==> store.posts == AllPosts(old(store.posts)) + [resp.payload.post]
    ensures resp.status != 201 ==> store.posts == old(store.posts)
  {
    match body {
      case None =>
        return Response(500, ErrorPayload(CreateFailedMessage));
      case Some(b) =>
        if !Truthy(b.title) || !Truthy(b.content) {
          return Response(400, ErrorPayload(MissingFieldsMessage));
        }
        var post := NewPost(b, id, now);
        var created := store.CreatePost(post);
        resp := Response(201, PostPayload(created));
    }
  }

  /** A post created through POST is listed among the published posts right away. */
  lemma CreatedPostIsPublished(contents: seq<Post>, body: Option<CreateBody>, id: string, now: nat)
    requires CreateOutcome(body, id, now).status == 201
    ensures var post := CreateOutcome(body, id, now).payload.post;
      post in PublishedPosts(AllPosts(contents) + [post])
  {
    var post := CreateOutcome(body, id, now).payload.post;
    var after := AllPosts(contents) + [post];
    assert post in multiset(after);
    assert post in multiset(PublishedPosts(after));
  }

  // ---------------------------------------------------------------- GET

  /** `listing` holds a post as often as `contents` does when it belongs under `category`,
      and never otherwise. */
  predicate ListedIn(listing: seq<Post>, contents: seq<Post>, p: Post, category: string) {
    multiset(listing)[p] == if ListedUnder(p, category) then multiset(contents)[p] else 0
  }

  /** GET: a non-empty `category` parameter selects `getPostsByCategory`; without one the
      answer is every published post. */
  function HandleList(contents: seq<Post>, category: Option<string>): (r: Response)
    ensures r.status == 200 && r.payload.ListPayload?
    ensures Truthy(category) ==> r.payload.posts == PostsByCategory(contents, category.value)
    ensures !Truthy(category) ==> r.payload.posts == PublishedPosts(contents)
    ensures forall p :: ListedIn(r.payload.posts, contents, p, TruthyOr(category, LatestCategory))
  {
    if Truthy(category) then Response(200, ListPayload(PostsByCategory(contents, category.value)))
    else Response(200, ListPayload(PublishedPosts(contents)))
  }
}
