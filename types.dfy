/**
 * The forum's records (types.ts), as immutable values: no operation changes
 * a record in place; every update builds a new object from the old one.
 */
module ForumTypes {
  import opened Collections

  /** A member of the forum. `reputation` and the counts are JavaScript numbers, here integers. */
  datatype User = User(
    id: string,
    name: string,
    username: string,
    avatar: string,
    role: string,
    reputation: int,
    joinedAt: string,
    postsCount: int,
    solutionsCount: int)

  /** A tag record; the pages keep tags as plain strings instead. */
  datatype Tag = Tag(id: string, name: string)

  /** A comment and, recursively, its replies in display order. */
  datatype Comment = Comment(
    id: string,
    author: User,
    body: string,
    timestamp: string,
    upvotes: int,
    replies: seq<Comment>)

  /**
   * A post as the post service stores it. `category` is declared as one of
   * 'Engineering', 'Design', 'Performance' or 'General', but the service stores
   * whatever string it is given, so it is a string here. The optional
   * `thumbnail` is an `Option`.
   */
  datatype Post = Post(
    id: string,
    title: string,
    body: string,
    author: User,
    category: string,
    tags: seq<string>,
    upvotes: int,
    commentsCount: int,
    timestamp: string,
    thumbnail: Option<string>)

  /** The latest post shown on a category card. */
  datatype LatestPost = LatestPost(title: string, author: string, time: string, avatar: string)

  /** A discussion category of the categories directory. */
  datatype Category = Category(
    id: string,
    name: string,
    description: string,
    icon: string,
    topicsCount: string,
    postsCount: string,
    status: string,
    color: string,
    latestPost: Option<LatestPost>)
}
