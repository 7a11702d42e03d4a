/**
 * The thread page (pages/ThreadPage.tsx): the post being viewed with its
 * comment tree, and the handlers that replace that post state after a
 * comment, a reply or a vote. The service calls the handlers make
 * (`addComment`, `addReply`, `upvotePost`) are not part of this model:
 * their results are parameters.
 */
module ThreadPage {
  import opened Collections
  import opened ForumTypes
  import opened Text

  /**
   * The post as this page holds it: the stored record plus the comment
   * forest the page reads as `post.comments`.
   */
  datatype PagePost = PagePost(post: Post, comments: seq<Comment>)

  /** Number of nodes in a comment and all its replies at every depth. */
  function TreeSize(c: Comment): nat
  {
    1 + ForestSize(c.replies)
  }

  /** Number of nodes in a comment forest at every depth. */
  function ForestSize(cs: seq<Comment>): nat
    decreases cs
  {
    if cs == [] then 0 else TreeSize(cs[0]) + ForestSize(cs[1..])
  }

  /** Number of nodes at every depth whose id is `id`. */
  function IdCount(cs: seq<Comment>, id: string): nat
    decreases cs
  {
    if cs == [] then 0
    else (if cs[0].id == id then 1 else 0) + IdCount(cs[0].replies, id) + IdCount(cs[1..], id)
  }

  /** Two comments agree on everything but their replies. */
  predicate SameButReplies(a: Comment, b: Comment)
  {
    a.id == b.id && a.author == b.author && a.body == b.body
    && a.timestamp == b.timestamp && a.upvotes == b.upvotes
  }

  /**
   * `updateCommentsRecursively`: map over the forest; a node whose id is
   * `parentId` gets `newReply` appended to its replies (its own replies are
   * not searched further); any other node with replies has them updated
   * recursively; a leaf is kept as it is.
   */
  function UpdateComments(cs: seq<Comment>, parentId: string, newReply: Comment): (r: seq<Comment>)
    ensures |r| == |cs|
    ensures forall i | 0 <= i < |cs| :: SameButReplies(r[i], cs[i])
    ensures forall i | 0 <= i < |cs| && cs[i].id == parentId ::
              r[i].replies == cs[i].replies + [newReply]
    ensures forall i | 0 <= i < |cs| && cs[i].id != parentId ::
              |r[i].replies| == |cs[i].replies|
    decreases cs
  {
    if cs == [] then []
    else
      var c := cs[0];
      var c' :=
        if c.id == parentId then c.(replies := c.replies + [newReply])
        else if |c.replies| > 0 then c.(replies := UpdateComments(c.replies, parentId, newReply))
        else c;
      [c'] + UpdateComments(cs[1..], parentId, newReply)
  }

  /**
   * Below every node other than the parent, the replies get the same
   * update, so a parent at any depth receives the reply.
   */
  lemma {:induction false} UpdateReachesEveryDepth(cs: seq<Comment>, parentId: string, newReply: Comment)
    ensures var r := UpdateComments(cs, parentId, newReply);
            forall i | 0 <= i < |cs| && cs[i].id != parentId ::
              r[i].replies == UpdateComments(cs[i].replies, parentId, newReply)
    decreases |cs|
  {
    if cs != [] {
      UpdateReachesEveryDepth(cs[1..], parentId, newReply);
      var r := UpdateComments(cs, parentId, newReply);
      assert r[1..] == UpdateComments(cs[1..], parentId, newReply);
      assert forall i | 1 <= i < |cs| :: cs[i] == cs[1..][i - 1] && r[i] == r[1..][i - 1];
    }
  }

  /** Node counts add up over concatenated forests. */
  lemma {:induction false} ForestSizeAppend(a: seq<Comment>, b: seq<Comment>)
    ensures ForestSize(a + b) == ForestSize(a) + ForestSize(b)
    decreases a
  {
    if a == [] {
      assert a + b == b;
    } else {
      assert (a + b)[0] == a[0];
      assert (a + b)[1..] == a[1..] + b;
      ForestSizeAppend(a[1..], b);
    }
  }

  /** When no node carries the parent id, the update returns the forest unchanged. */
  lemma {:induction false} UpdateWithoutParent(cs: seq<Comment>, parentId: string, newReply: Comment)
    requires IdCount(cs, parentId) == 0
    ensures UpdateComments(cs, parentId, newReply) == cs
    decreases cs
  {
    if cs != [] {
      UpdateWithoutParent(cs[0].replies, parentId, newReply);
      UpdateWithoutParent(cs[1..], parentId, newReply);
      assert cs == [cs[0]] + cs[1..];
    }
  }

  /**
   * When exactly one node carries the parent id, the update adds the new
   * reply's subtree once: the forest grows by the size of `newReply`.
   */
  lemma {:induction false} UpdateWithUniqueParent(cs: seq<Comment>, parentId: string, newReply: Comment)
    requires IdCount(cs, parentId) == 1
    ensures ForestSize(UpdateComments(cs, parentId, newReply)) == ForestSize(cs) + TreeSize(newReply)
    decreases cs
  {
    var r := UpdateComments(cs, parentId, newReply);
    var c := cs[0];
    assert r[1..] == UpdateComments(cs[1..], parentId, newReply);
    if c.id == parentId {
      UpdateWithoutParent(cs[1..], parentId, newReply);
      ForestSizeAppend(c.replies, [newReply]);
      assert [newReply][1..] == [];
    } else if IdCount(c.replies, parentId) == 1 {
      UpdateWithUniqueParent(c.replies, parentId, newReply);
      UpdateWithoutParent(cs[1..], parentId, newReply);
    } else {
      UpdateWithoutParent(c.replies, parentId, newReply);
      UpdateWithUniqueParent(cs[1..], parentId, newReply);
    }
  }

  /**
   * The page's discrepancy between the cached comment count and the nodes
   * actually in its tree. The seed posts start with a positive one.
   */
  function CountDrift(p: PagePost): int
  {
    p.post.commentsCount - ForestSize(p.comments)
  }

  /** `handlePostComment`'s new post: the comment appended to the roots, the count raised by one. */
  function WithComment(p: PagePost, c: Comment): (q: PagePost)
    ensures |q.comments| == |p.comments| + 1
    ensures q.comments[..|p.comments|] == p.comments && q.comments[|p.comments|] == c
    ensures q.post == p.post.(commentsCount := p.post.commentsCount + 1)
  {
    p.(comments := p.comments + [c], post := p.post.(commentsCount := p.post.commentsCount + 1))
  }

  /** `handleNewReply`'s new post: the reply put under its parent, the count raised by one. */
  function WithReply(p: PagePost, parentId: string, reply: Comment): (q: PagePost)
    ensures |q.comments| == |p.comments|
    ensures q.post == p.post.(commentsCount := p.post.commentsCount + 1)
  {
    PagePost(p.post.(commentsCount := p.post.commentsCount + 1),
             UpdateComments(p.comments, parentId, reply))
  }

  /** A new root comment without replies keeps the count in step with the tree. */
  lemma WithCommentKeepsDrift(p: PagePost, c: Comment)
    requires c.replies == []
    ensures CountDrift(WithComment(p, c)) == CountDrift(p)
  {
    ForestSizeAppend(p.comments, [c]);
    assert [c][1..] == [];
  }

  /**
   * A leaf reply under a parent that occurs once keeps the count in step
   * with the tree; under a parent that does not occur, the count still goes
   * up while the tree stays the same.
   */
  lemma WithReplyDrift(p: PagePost, parentId: string, reply: Comment)
    requires reply.replies == []
    ensures IdCount(p.comments, parentId) == 1 ==> CountDrift(WithReply(p, parentId, reply)) == CountDrift(p)
    ensures IdCount(p.comments, parentId) == 0 ==>
              WithReply(p, parentId, reply).comments == p.comments &&
              CountDrift(WithReply(p, parentId, reply)) == CountDrift(p) + 1
  {
    if IdCount(p.comments, parentId) == 1 {
      UpdateWithUniqueParent(p.comments, parentId, reply);
    } else if IdCount(p.comments, parentId) == 0 {
      UpdateWithoutParent(p.comments, parentId, reply);
    }
  }

  /** The page component's state. */
  class ThreadPageState {
    /** The route parameter `id`; the empty string stands for a missing parameter (both are falsy). */
    const routeId: string
    /** `post`, or None before it is loaded. */
    var post: Option<PagePost>
    /** The new-comment text box. */
    var commentText: string

    constructor (routeId: string, loaded: Option<PagePost>)
      ensures this.routeId == routeId && post == loaded && commentText == ""
    {
      this.routeId := routeId;
      post := loaded;
      commentText := "";
    }

    /**
     * `handlePostComment`: nothing happens for blank text, a missing route id
     * or a missing post; otherwise `added` is what `addComment` returned, and
     * when it is a comment it is appended to the roots, the count goes up by
     * one and the text box is cleared.
     */
    method HandlePostComment(added: Option<Comment>)
      modifies this
      ensures IsBlank(old(commentText)) || routeId == "" || old(post).None? || added.None? ==>
                post == old(post) && commentText == old(commentText)
      ensures !IsBlank(old(commentText)) && routeId != "" && old(post).Some? && added.Some? ==>
                post == Some(WithComment(old(post).value, added.value)) && commentText == ""
    {
      if Trim(commentText) == "" || routeId == "" || post.None? {
        return;
      }
      if added.Some? {
        post := Some(WithComment(post.value, added.value));
        commentText := "";
      }
    }

    /**
     * `handleNewReply`: with a post loaded, put `newReply` under the node with
     * `parentCommentId` and raise the count by one, whether or not a node
     * with that id exists.
     */
    method HandleNewReply(parentCommentId: string, newReply: Comment)
      modifies this`post
      ensures old(post).None? ==> post == old(post)
      ensures old(post).Some? ==> post == Some(WithReply(old(post).value, parentCommentId, newReply))
    {
      if post.None? {
        return;
      }
      post := Some(WithReply(post.value, parentCommentId, newReply));
    }

    /**
     * `handleUpvote`: with a route id and a post, set the upvotes to the count
     * `upvotePost` returned; nothing else changes.
     */
    method HandleUpvote(newCount: int)
      modifies this`post
      ensures routeId == "" || old(post).None? ==> post == old(post)
      ensures routeId != "" && old(post).Some? ==>
                post == Some(old(post).value.(post := old(post).value.post.(upvotes := newCount)))
    {
      if routeId == "" || post.None? {
        return;
      }
      var p := post.value;
      post := Some(p.(post := p.post.(upvotes := newCount)));
    }
  }

  /** One rendered comment with its reply box (`CommentItem`). */
  class CommentItemState {
    const comment: Comment
    var replyText: string
    var isReplying: bool

    constructor (comment: Comment)
      ensures this.comment == comment && replyText == "" && !isReplying
    {
      this.comment := comment;
      replyText := "";
      isReplying := false;
    }

    /**
     * `handlePostReply`: nothing happens for blank reply text; otherwise
     * `added` is what `addReply` returned, and when it is a reply the page's
     * `onNewReply` puts it under this comment and the reply box is cleared
     * and closed.
     */
    method HandlePostReply(page: ThreadPageState, added: Option<Comment>)
      modifies this, page`post
      ensures IsBlank(old(replyText)) || added.None? ==>
                replyText == old(replyText) && isReplying == old(isReplying) && page.post == old(page.post)
      ensures !IsBlank(old(replyText)) && added.Some? ==>
                replyText == "" && !isReplying &&
                (old(page.post).None? ==> page.post == old(page.post)) &&
                (old(page.post).Some? ==>
                   page.post == Some(WithReply(old(page.post).value, comment.id, added.value)))
    {
      if Trim(replyText) == "" {
        return;
      }
      if added.Some? {
        page.HandleNewReply(comment.id, added.value);
        replyText := "";
        isReplying := false;
      }
    }
  }
}
