/** The field resolvers that expand nested relationships by id match:
    `Post.author`, `Post.comments`, `User.posts`, `User.comments`,
    `Comment.author`, `Comment.post`. None of them changes the store. */
module Resolvers {
  import opened Seqs
  import opened Schema

  /** `Post.author`: the first user whose id is the post's author. */
  function PostAuthor(users: seq<User>, post: Post): (r: Option<User>)
    ensures r.None? <==> !UserExists(users, post.author)
    ensures r.Some? ==> r.value in users && r.value.id == post.author
    ensures r.Some? ==> exists i ::
      0 <= i < |users| && users[i] == r.value && (forall j :: 0 <= j < i ==> users[j].id != post.author)
  {
    Find(users, (u: User) => u.id == post.author)
  }

  /** `Post.comments`: the comments on the post, in store order. */
  function PostComments(comments: seq<Comment>, post: Post): (r: seq<Comment>)
    ensures |r| <= |comments|
    ensures IsSubsequence(r, comments)
    ensures forall c :: c in r <==> c in comments && c.post == post.id
    ensures forall c :: multiset(r)[c] == if c.post == post.id then multiset(comments)[c] else 0
  {
    FilterCounts(comments, (c: Comment) => c.post == post.id);
    Filter(comments, (c: Comment) => c.post == post.id)
  }

  /** `User.posts`: the posts the user wrote, in store order. */
  function UserPosts(posts: seq<Post>, user: User): (r: seq<Post>)
    ensures |r| <= |posts|
    ensures IsSubsequence(r, posts)
    ensures forall p :: p in r <==> p in posts && p.author == user.id
    ensures forall p :: multiset(r)[p] == if p.author == user.id then multiset(posts)[p] else 0
  {
    FilterCounts(posts, (p: Post) => p.author == user.id);
    Filter(posts, (p: Post) => p.author == user.id)
  }

  /** `User.comments`: the comments the user wrote, in store order. */
  function UserComments(comments: seq<Comment>, user: User): (r: seq<Comment>)
    ensures |r| <= |comments|
    ensures IsSubsequence(r, comments)
    ensures forall c :: c in r <==> c in comments && c.author == user.id
    ensures forall c :: multiset(r)[c] == if c.author == user.id then multiset(comments)[c] else 0
  {
    FilterCounts(comments, (c: Comment) => c.author == user.id);
    Filter(comments, (c: Comment) => c.author == user.id)
  }

  /** `Comment.author`: the first user whose id is the comment's author. */
  function CommentAuthor(users: seq<User>, comment: Comment): (r: Option<User>)
    ensures r.None? <==> !UserExists(users, comment.author)
    ensures r.Some? ==> r.value in users && r.value.id == comment.author
    ensures r.Some? ==> exists i ::
      0 <= i < |users| && users[i] == r.value && (forall j :: 0 <= j < i ==> users[j].id != comment.author)
  {
    Find(users, (u: User) => u.id == comment.author)
  }

  /** `Comment.post`: the first post whose id is the comment's post. */
  function CommentPost(posts: seq<Post>, comment: Comment): (r: Option<Post>)
    ensures r.None? <==> !PostExists(posts, comment.post)
    ensures r.Some? ==> r.value in posts && r.value.id == comment.post
    ensures r.Some? ==> exists i ::
      0 <= i < |posts| && posts[i] == r.value && (forall j :: 0 <= j < i ==> posts[j].id != comment.post)
  {
    Find(posts, (p: Post) => p.id == comment.post)
  }

  /** In a consistent store no stored post, and no stored comment, has a
      dangling author or post. */
  lemma RelationsResolve(users: seq<User>, posts: seq<Post>, comments: seq<Comment>)
    requires Consistent(users, posts, comments)
    ensures forall p :: p in posts ==> PostAuthor(users, p).Some?
    ensures forall c :: c in comments ==> CommentAuthor(users, c).Some? && CommentPost(posts, c).Some?
  {
  }

  /** With unique user ids the author found is the only user with that id. */
  lemma PostAuthorUnique(users: seq<User>, posts: seq<Post>, comments: seq<Comment>, post: Post, u: User)
    requires Consistent(users, posts, comments)
    requires u in users && u.id == post.author
    ensures PostAuthor(users, post) == Some(u)
  {
    var r := PostAuthor(users, post);
    var i :| 0 <= i < |users| && users[i] == r.value;
    var k :| 0 <= k < |users| && users[k] == u;
    assert IdsUnique(users, posts, comments);
    assert i == k;
  }
}
