/**
 * The post service (services/postService.ts): a collection of posts kept in
 * the browser's local storage under one key, read and written whole.
 * Local storage is a map from key to the stored list; JSON encoding is the
 * identity. `Date.now()` is passed in as a number.
 */
module PostService {
  import opened Collections
  import opened ForumTypes
  import opened Text

  /** The storage key of the post collection. */
  const StorageKey: string := "forumhub_posts"

  /** The author of every post created in this browser. */
  const CurrentUser: User := User(
    "u-current", "Alex Rivers", "alex_rivers", "https://picsum.photos/seed/alex/100/100",
    "Pro Contributor", 1250, "Jan 2024", 12, 3)

  /** The two posts the store is seeded with on first read. */
  const InitialPosts: seq<Post> := [
    Post(
      "1",
      "How to scale React applications for enterprise use?",
      "Exploring architecture patterns like micro-frontends, state management performance, and code-splitting strategies for large teams.",
      User("s1", "Sarah Chen", "sarah_dev", "https://picsum.photos/seed/sarah/50/50",
           "Engineering", 1200, "2022-01-01", 45, 12),
      "Engineering",
      ["react", "enterprise", "architecture"],
      1200, 45, "2 hours ago",
      Some("https://picsum.photos/seed/tech1/320/180")),
    Post(
      "2",
      "Modern UI design patterns for 2024",
      "Diving deep into the return of skeuomorphism, the refinement of bento grids, and high-density information displays.",
      User("a1", "Alex Rivera", "arivera", "https://picsum.photos/seed/alex/50/50",
           "Design", 8500, "2021-10-01", 1248, 42),
      "Design",
      ["ui-ux", "trends", "design"],
      856, 128, "5 hours ago",
      Some("https://picsum.photos/seed/design1/320/180"))
  ]

  /** `i` is the index of the first post whose id is `id`. */
  predicate IsFirstMatch(posts: seq<Post>, id: string, i: int)
  {
    0 <= i < |posts| && posts[i].id == id && forall j | 0 <= j < i :: posts[j].id != id
  }

  /** `posts.find(p => p.id === id)`: the first post with that id, if any. */
  function FindById(posts: seq<Post>, id: string): (r: Option<Post>)
    ensures r.None? <==> forall i | 0 <= i < |posts| :: posts[i].id != id
    ensures r.Some? ==> exists i :: IsFirstMatch(posts, id, i) && posts[i] == r.value
    decreases |posts|
  {
    if posts == [] then None
    else if posts[0].id == id then
      assert IsFirstMatch(posts, id, 0);
      Some(posts[0])
    else
      var r := FindById(posts[1..], id);
      if r.Some? then
        var i :| IsFirstMatch(posts[1..], id, i) && posts[1..][i] == r.value;
        assert IsFirstMatch(posts, id, i + 1);
        r
      else
        r
  }

  /** The image-service prefix of a thumbnail address. */
  const ThumbnailPrefix: string := "https://picsum.photos/seed/"

  /** The size suffix of a thumbnail address. */
  const ThumbnailSuffix: string := "/320/180"

  /**
   * The thumbnail address a new post gets from the clock reading at its
   * creation: between the fixed prefix and suffix stand decimal digits that
   * read back as the clock reading.
   */
  function ThumbnailFor(clock: nat): (url: string)
    ensures |url| > |ThumbnailPrefix| + |ThumbnailSuffix|
    ensures url[..|ThumbnailPrefix|] == ThumbnailPrefix
    ensures url[|url| - |ThumbnailSuffix|..] == ThumbnailSuffix
    ensures var seed := url[|ThumbnailPrefix|..|url| - |ThumbnailSuffix|];
            && (forall i | 0 <= i < |seed| :: IsDigit(seed[i]))
            && DecimalValue(seed) == clock
  {
    var digits := NatToString(clock);
    var url := ThumbnailPrefix + digits + ThumbnailSuffix;
    assert url[|ThumbnailPrefix|..|url| - |ThumbnailSuffix|] == digits;
    DecimalRoundTrip(clock);
    url
  }

  /**
   * The post `createPost` builds: the inputs as title, body and tags, the
   * category or 'General' when it is empty, the current user as author.
   */
  function NewPost(title: string, body: string, category: string, tags: seq<string>,
                   idClock: nat, thumbnailClock: nat): (p: Post)
    ensures p.id == NatToString(idClock)
    ensures p.title == title && p.body == body && p.tags == tags
    ensures p.category == if category == "" then "General" else category
    ensures p.author == CurrentUser
    ensures p.upvotes == 1 && p.commentsCount == 0 && p.timestamp == "Just now"
    ensures p.thumbnail == Some(ThumbnailFor(thumbnailClock))
  {
    Post(
      NatToString(idClock),
      title,
      body,
      CurrentUser,
      if category == "" then "General" else category,
      tags,
      1,
      0,
      "Just now",
      Some(ThumbnailFor(thumbnailClock)))
  }

  class PostStore {
    /** Local storage: key to stored post list; a missing key is `getItem` returning null. */
    var storage: map<string, seq<Post>>

    constructor (initial: map<string, seq<Post>>)
      ensures storage == initial
    {
      storage := initial;
    }

    /** The list a read of the collection yields: the stored one, or the seed when none is stored. */
    function Posts(): (posts: seq<Post>)
      reads this
      ensures StorageKey in storage ==> posts == storage[StorageKey]
      ensures StorageKey !in storage ==> posts == InitialPosts
    {
      if StorageKey in storage then storage[StorageKey] else InitialPosts
    }

    /**
     * `getPosts`: on first read, write the seed list and return it; afterwards
     * return the stored list and write nothing.
     */
    method GetPosts() returns (posts: seq<Post>)
      modifies this
      ensures posts == old(Posts())
      ensures StorageKey !in old(storage) ==>
                posts == InitialPosts && storage == old(storage)[StorageKey := InitialPosts]
      ensures StorageKey in old(storage) ==>
                posts == old(storage)[StorageKey] && storage == old(storage)
    {
      if StorageKey !in storage {
        storage := storage[StorageKey := InitialPosts];
        return InitialPosts;
      }
      posts := storage[StorageKey];
    }

    /**
     * `createPost`: build a post authored by the current user with one upvote,
     * no comments and the timestamp "Just now", put it in front of all stored
     * posts, write the whole list back and return the post. `Date.now()` is
     * read twice: `idClock` for the id, `thumbnailClock` for the thumbnail.
     */
    method CreatePost(title: string, body: string, category: string, tags: seq<string>,
                      idClock: nat, thumbnailClock: nat)
      returns (p: Post)
      modifies this
      ensures storage == old(storage)[StorageKey := [p] + old(Posts())]
      ensures Posts() == [p] + old(Posts()) && Posts()[0] == p
      ensures p == NewPost(title, body, category, tags, idClock, thumbnailClock)
    {
      var posts := GetPosts();
      p := NewPost(title, body, category, tags, idClock, thumbnailClock);
      storage := storage[StorageKey := [p] + posts];
    }

    /** `getPostById`: the first post with the id; the read seeds the store when it is empty. */
    method GetPostById(id: string) returns (r: Option<Post>)
      modifies this
      ensures r == FindById(old(Posts()), id)
      ensures storage == old(storage)[StorageKey := old(Posts())]
      ensures Posts() == old(Posts())
    {
      var posts := GetPosts();
      r := FindById(posts, id);
    }
  }

  /** A freshly created post is what a lookup of its id finds, whatever the older posts are. */
  lemma CreatedPostIsFound(p: Post, older: seq<Post>)
    ensures FindById([p] + older, p.id) == Some(p)
  {
  }

  /**
   * Creating a post leaves every older post in place and in order, one position later;
   * a lookup of another id gives the same answer as before.
   */
  lemma {:induction false} CreateKeepsOtherLookups(p: Post, older: seq<Post>, id: string)
    requires id != p.id
    ensures FindById([p] + older, id) == FindById(older, id)
  {
    assert ([p] + older)[1..] == older;
  }

  /** Two posts created from different clock readings get different ids. */
  lemma DistinctClocksDistinctIds(a: nat, b: nat)
    requires a != b
    ensures NatToString(a) != NatToString(b)
  {
    if NatToString(a) == NatToString(b) {
      NatToStringInjective(a, b);
    }
  }
}
