/** The records of `src/lib/types.ts`: a blog post, its author, and the category slugs.
    Timestamps are milliseconds since the epoch; the source stores them as ISO-8601
    strings and compares them through `new Date(..).getTime()`. */
module PostTypes {
  import opened Wrappers

  /** The author block. `title` is optional because the default author written by the
      create endpoint has only `name` and `avatar`. */
  datatype Author = Author(name: string, title: Option<string>, avatar: string)

  datatype Post = Post(
    id: string,
    title: string,
    slug: string,
    excerpt: string,
    content: string,
    coverImage: string,
    category: string,
    author: Author,
    createdAt: int,
    updatedAt: int,
    published: bool)

  /** A `Partial<Post>`: `Some` for each field the update body supplies. */
  datatype PostPatch = PostPatch(
    id: Option<string>,
    title: Option<string>,
    slug: Option<string>,
    excerpt: Option<string>,
    content: Option<string>,
    coverImage: Option<string>,
    category: Option<string>,
    author: Option<Author>,
    createdAt: Option<int>,
    updatedAt: Option<int>,
    published: Option<bool>)

  /** The empty update body `{}`. */
  const EmptyPatch := PostPatch(None, None, None, None, None, None, None, None, None, None, None)

  /** The sentinel category of the blog sidebar meaning "every published post". */
  const LatestCategory := "latest"

  /** The slugs of `CATEGORIES`, in sidebar order. */
  const CategorySlugs: seq<string> := ["latest", "tech", "product", "thinking"]
}
