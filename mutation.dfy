/** The mutation resolvers: a store of three ordered collections, changed
    in place by create, update and delete operations that check references
    first and throw (here: return `Err`) before changing anything. */
module Mutation {
  import opened Seqs
  import opened Text
  import opened Schema
  import Seed

  /** The position of the first user with the id `id`. */
  function UserIndex(users: seq<User>, id: string): (r: Option<nat>)
    ensures r.None? <==> !UserExists(users, id)
    ensures r.Some? ==> r.value < |users| && users[r.value].id == id
    ensures r.Some? ==> forall j :: 0 <= j < r.value ==> users[j].id != id
  {
    FindIndex(users, (u: User) => u.id == id)
  }

  /** The position of the first post with the id `id`. */
  function PostIndex(posts: seq<Post>, id: string): (r: Option<nat>)
    ensures r.None? <==> !PostExists(posts, id)
    ensures r.Some? ==> r.value < |posts| && posts[r.value].id == id
    ensures r.Some? ==> forall j :: 0 <= j < r.value ==> posts[j].id != id
  {
    FindIndex(posts, (p: Post) => p.id == id)
  }

  /** The position of the first comment with the id `id`. */
  function CommentIndex(comments: seq<Comment>, id: string): (r: Option<nat>)
    ensures r.None? <==> !CommentExists(comments, id)
    ensures r.Some? ==> r.value < |comments| && comments[r.value].id == id
    ensures r.Some? ==> forall j :: 0 <= j < r.value ==> comments[j].id != id
  {
    FindIndex(comments, (c: Comment) => c.id == id)
  }

  /** Comment `c` sits on one of the posts in `posts` that `uid` wrote. */
  predicate OnPostOf(posts: seq<Post>, uid: string, c: Comment)
  {
    Any(posts, (p: Post) => p.author == uid && p.id == c.post)
  }

  lemma OnPostOfSnoc(posts: seq<Post>, p: Post, uid: string, c: Comment)
    ensures OnPostOf(posts + [p], uid, c) <==> OnPostOf(posts, uid, c) || (p.author == uid && p.id == c.post)
  {
    AnySnoc(posts, p, (q: Post) => q.author == uid && q.id == c.post);
  }

  /** One step of the `posts.filter` callback in `deleteUser`: a post by
      `uid` drops its comments, any other post leaves them. */
  lemma CascadeStep(c0: seq<Comment>, ps: seq<Post>, i: nat, uid: string)
    requires i < |ps|
    ensures ps[i].author == uid ==>
      Filter(Filter(c0, (c: Comment) => !OnPostOf(ps[..i], uid, c)), (cm: Comment) => cm.post != ps[i].id)
        == Filter(c0, (c: Comment) => !OnPostOf(ps[..i + 1], uid, c))
    ensures ps[i].author != uid ==>
      Filter(c0, (c: Comment) => !OnPostOf(ps[..i], uid, c)) == Filter(c0, (c: Comment) => !OnPostOf(ps[..i + 1], uid, c))
  {
    assert ps[..i + 1] == ps[..i] + [ps[i]];
    forall c | c in c0
      ensures OnPostOf(ps[..i + 1], uid, c) <==> OnPostOf(ps[..i], uid, c) || (ps[i].author == uid && ps[i].id == c.post)
    {
      OnPostOfSnoc(ps[..i], ps[i], uid, c);
    }
    if ps[i].author == uid {
      FilterFilter(c0, (c: Comment) => !OnPostOf(ps[..i], uid, c),
        (cm: Comment) => cm.post != ps[i].id, (c: Comment) => !OnPostOf(ps[..i + 1], uid, c));
    } else {
      FilterExtensional(c0, (c: Comment) => !OnPostOf(ps[..i], uid, c), (c: Comment) => !OnPostOf(ps[..i + 1], uid, c));
    }
  }

  /** The comments left once the `posts.filter` callback of `deleteUser`
      has visited `ps` in order, starting from `c0`. */
  function CascadeComments(c0: seq<Comment>, ps: seq<Post>, uid: string): seq<Comment>
    decreases |ps|
  {
    if ps == [] then c0
    else
      var rest := CascadeComments(c0, ps[..|ps| - 1], uid);
      var last := ps[|ps| - 1];
      if last.author == uid then Filter(rest, (cm: Comment) => cm.post != last.id) else rest
  }

  /** Visiting the posts one by one removes exactly the comments on some post by `uid`. */
  lemma {:induction false} CascadeCommentsFilter(c0: seq<Comment>, ps: seq<Post>, uid: string)
    ensures CascadeComments(c0, ps, uid) == Filter(c0, (c: Comment) => !OnPostOf(ps, uid, c))
    decreases |ps|
  {
    if ps == [] {
      FilterAll(c0, (c: Comment) => !OnPostOf(ps, uid, c));
    } else {
      var n := |ps| - 1;
      CascadeCommentsFilter(c0, ps[..n], uid);
      CascadeStep(c0, ps, n, uid);
      assert ps[..n + 1] == ps;
    }
  }

  /** What visiting `posts[i]` adds to the kept posts and to the cascade. */
  lemma DropStep(c0: seq<Comment>, posts: seq<Post>, i: nat, uid: string)
    requires i < |posts|
    ensures Filter(posts[..i + 1], (p: Post) => p.author != uid)
      == Filter(posts[..i], (p: Post) => p.author != uid) + if posts[i].author != uid then [posts[i]] else []
    ensures CascadeComments(c0, posts[..i + 1], uid)
      == if posts[i].author == uid
         then Filter(CascadeComments(c0, posts[..i], uid), (cm: Comment) => cm.post != posts[i].id)
         else CascadeComments(c0, posts[..i], uid)
  {
    assert posts[..i + 1] == posts[..i] + [posts[i]];
    assert posts[..i + 1][..i] == posts[..i];
    FilterAppend(posts[..i], [posts[i]], (p: Post) => p.author != uid);
  }

  /** The `posts.filter` of `deleteUser`: keep the posts `uid` did not
      write; each post it did write drops, as the callback rejects it,
      every comment on it from the comment list. */
  method DropPostsOf(posts: seq<Post>, comments: seq<Comment>, uid: string)
    returns (kept: seq<Post>, left: seq<Comment>)
    ensures kept == Filter(posts, (p: Post) => p.author != uid)
    ensures left == Filter(comments, (c: Comment) => !OnPostOf(posts, uid, c))
  {
    kept, left := [], comments;
    var i := 0;
    while i < |posts|
      invariant i <= |posts|
      invariant kept == Filter(posts[..i], (p: Post) => p.author != uid)
      invariant left == CascadeComments(comments, posts[..i], uid)
    {
      var post := posts[i];
      DropStep(comments, posts, i, uid);
      if post.author == uid {
        left := Filter(left, (cm: Comment) => cm.post != post.id);
      } else {
        kept := kept + [post];
      }
      i := i + 1;
    }
    assert posts[..i] == posts;
    CascadeCommentsFilter(comments, posts, uid);
  }

  // ---- Consistency is kept by every successful mutation ----

  lemma CreateUserKeeps(users: seq<User>, posts: seq<Post>, comments: seq<Comment>, u: User)
    requires Consistent(users, posts, comments)
    requires !UserExists(users, u.id) && !EmailInUse(users, u.email)
    ensures Consistent(users + [u], posts, comments)
  {
    DistinctAppend(users, u, (v: User) => v.id);
    DistinctAppend(users, u, (v: User) => Lower(v.email));
    forall id | UserExists(users, id)
      ensures UserExists(users + [u], id)
    {
      AnyAppend(users, u, (v: User) => v.id == id);
    }
  }

  lemma CreatePostKeeps(users: seq<User>, posts: seq<Post>, comments: seq<Comment>, p: Post)
    requires Consistent(users, posts, comments)
    requires !PostExists(posts, p.id) && UserExists(users, p.author)
    ensures Consistent(users, posts + [p], comments)
  {
    DistinctAppend(posts, p, (q: Post) => q.id);
    forall id | PostExists(posts, id)
      ensures PostExists(posts + [p], id)
    {
      AnyAppend(posts, p, (q: Post) => q.id == id);
    }
  }

  lemma CreateCommentKeeps(users: seq<User>, posts: seq<Post>, comments: seq<Comment>, c: Comment)
    requires Consistent(users, posts, comments)
    requires !CommentExists(comments, c.id) && UserExists(users, c.author) && PublishedPostExists(posts, c.post)
    ensures Consistent(users, posts, comments + [c])
  {
    DistinctAppend(comments, c, (d: Comment) => d.id);
    var j :| 0 <= j < |posts| && posts[j].id == c.post && posts[j].published;
    assert PostExists(posts, c.post);
  }

  lemma UpdateUserKeeps(users: seq<User>, posts: seq<Post>, comments: seq<Comment>, i: nat, u: User)
    requires Consistent(users, posts, comments) && i < |users|
    requires u.id == users[i].id
    requires u.email == users[i].email || !EmailInUse(users, u.email)
    ensures Consistent(users[i := u], posts, comments)
  {
    DistinctUpdate(users, i, u, (v: User) => v.id);
    DistinctUpdate(users, i, u, (v: User) => Lower(v.email));
    forall id | UserExists(users, id)
      ensures UserExists(users[i := u], id)
    {
      AnyUpdate(users, i, u, (v: User) => v.id == id);
    }
  }

  lemma UpdatePostKeeps(users: seq<User>, posts: seq<Post>, comments: seq<Comment>, i: nat, p: Post)
    requires Consistent(users, posts, comments) && i < |posts|
    requires p.id == posts[i].id && p.author == posts[i].author
    ensures Consistent(users, posts[i := p], comments)
  {
    DistinctUpdate(posts, i, p, (q: Post) => q.id);
    forall id | PostExists(posts, id)
      ensures PostExists(posts[i := p], id)
    {
      AnyUpdate(posts, i, p, (q: Post) => q.id == id);
    }
  }

  lemma UpdateCommentKeeps(users: seq<User>, posts: seq<Post>, comments: seq<Comment>, i: nat, c: Comment)
    requires Consistent(users, posts, comments) && i < |comments|
    requires c.id == comments[i].id && c.author == comments[i].author && c.post == comments[i].post
    ensures Consistent(users, posts, comments[i := c])
  {
    DistinctUpdate(comments, i, c, (d: Comment) => d.id);
  }

  /** The cascade of `deleteUser` leaves no dangling reference. */
  lemma DeleteUserKeeps(users: seq<User>, posts: seq<Post>, comments: seq<Comment>, i: nat)
    requires Consistent(users, posts, comments) && i < |users|
    ensures Consistent(RemoveAt(users, i),
                       Filter(posts, (p: Post) => p.author != users[i].id),
                       Filter(comments, (c: Comment) => c.author != users[i].id && !OnPostOf(posts, users[i].id, c)))
  {
    var uid := users[i].id;
    var users' := RemoveAt(users, i);
    var posts' := Filter(posts, (p: Post) => p.author != uid);
    var comments' := Filter(comments, (c: Comment) => c.author != uid && !OnPostOf(posts, uid, c));
    RemoveAtIsSubsequence(users, i);
    DistinctSubsequence(users', users, (u: User) => u.id);
    DistinctSubsequence(users', users, (u: User) => Lower(u.email));
    DistinctSubsequence(posts', posts, (p: Post) => p.id);
    DistinctSubsequence(comments', comments, (c: Comment) => c.id);
    forall p | p in posts'
      ensures UserExists(users', p.author)
    {
      var n :| 0 <= n < |posts'| && posts'[n] == p;
      AnyRemoveAt(users, i, (u: User) => u.id == p.author);
    }
    forall c | c in comments'
      ensures UserExists(users', c.author) && PostExists(posts', c.post)
    {
      var n :| 0 <= n < |comments'| && comments'[n] == c;
      AnyRemoveAt(users, i, (u: User) => u.id == c.author);
      var j :| 0 <= j < |posts| && posts[j].id == c.post;
      assert posts[j].author != uid;
      AnyFilter(posts, j, (q: Post) => q.id == c.post, (p: Post) => p.author != uid);
    }
  }

  /** The cascade of `deletePost` leaves no dangling reference. */
  lemma DeletePostKeeps(users: seq<User>, posts: seq<Post>, comments: seq<Comment>, i: nat)
    requires Consistent(users, posts, comments) && i < |posts|
    ensures Consistent(users, RemoveAt(posts, i), Filter(comments, (c: Comment) => c.post != posts[i].id))
  {
    var pid := posts[i].id;
    var posts' := RemoveAt(posts, i);
    var comments' := Filter(comments, (c: Comment) => c.post != pid);
    RemoveAtIsSubsequence(posts, i);
    DistinctSubsequence(posts', posts, (p: Post) => p.id);
    DistinctSubsequence(comments', comments, (c: Comment) => c.id);
    forall p | p in posts'
      ensures UserExists(users, p.author)
    {
      SubsequenceMembers(posts', posts);
    }
    forall c | c in comments'
      ensures UserExists(users, c.author) && PostExists(posts', c.post)
    {
      var n :| 0 <= n < |comments'| && comments'[n] == c;
      AnyRemoveAt(posts, i, (q: Post) => q.id == c.post);
    }
  }

  lemma DeleteCommentKeeps(users: seq<User>, posts: seq<Post>, comments: seq<Comment>, i: nat)
    requires Consistent(users, posts, comments) && i < |comments|
    ensures Consistent(users, posts, RemoveAt(comments, i))
  {
    var comments' := RemoveAt(comments, i);
    RemoveAtIsSubsequence(comments, i);
    DistinctSubsequence(comments', comments, (c: Comment) => c.id);
    SubsequenceMembers(comments', comments);
  }

  /** With unique ids, the post `deletePost` splices out is the only one with
      that id, so the survivors are exactly the posts with another id. */
  lemma RemoveOnlyPost(posts: seq<Post>, i: nat)
    requires Distinct(posts, (p: Post) => p.id) && i < |posts|
    ensures RemoveAt(posts, i) == Filter(posts, (p: Post) => p.id != posts[i].id)
  {
    RemoveAtAsFilter(posts, i, (p: Post) => p.id != posts[i].id);
  }

  lemma RemoveOnlyComment(comments: seq<Comment>, i: nat)
    requires Distinct(comments, (c: Comment) => c.id) && i < |comments|
    ensures RemoveAt(comments, i) == Filter(comments, (c: Comment) => c.id != comments[i].id)
  {
    RemoveAtAsFilter(comments, i, (c: Comment) => c.id != comments[i].id);
  }
  /** The store the server starts with: the seed, which is consistent. */
  method Start() returns (s: Store)
    ensures fresh(s)
    ensures s.users == Seed.Users && s.posts == Seed.Posts && s.comments == Seed.Comments
    ensures s.Valid()
  {
    Seed.SeedConsistent();
    s := new Store(Seed.Users, Seed.Posts, Seed.Comments);
  }

  /** The store the mutations change in place. */
  class Store {
    var users: seq<User>
    var posts: seq<Post>
    var comments: seq<Comment>

    predicate Valid()
      reads this
    {
      Consistent(users, posts, comments)
    }

    /** A store over the given collections (the seed, at server start). */
    constructor (users: seq<User>, posts: seq<Post>, comments: seq<Comment>)
      ensures this.users == users && this.posts == posts && this.comments == comments
      ensures Consistent(users, posts, comments) ==> Valid()
    {
      this.users := users;
      this.posts := posts;
      this.comments := comments;
    }

    /** `createUser`: refuse an email already in use, ignoring case;
        otherwise append the new user. `id` stands for the fresh uuid. */
    method CreateUser(id: string, data: UserInput) returns (r: Result<User>)
      requires !UserExists(users, id)
      modifies this
      ensures posts == old(posts) && comments == old(comments)
      ensures EmailInUse(old(users), data.email) ==> r == Err(EmailTaken) && users == old(users)
      ensures !EmailInUse(old(users), data.email) ==>
        r == Ok(User(id, data.name, data.email, data.age)) && users == old(users) + [r.value]
      ensures old(Valid()) ==> Valid()
    {
      if EmailInUse(users, data.email) {
        return Err(EmailTaken);
      }
      var user := User(id, data.name, data.email, data.age);
      if Valid() {
        CreateUserKeeps(users, posts, comments, user);
      }
      users := users + [user];
      r := Ok(user);
    }

    /** `deleteUser`: splice out the first user with the id, drop the posts
        that user wrote together with every comment on them, then drop every
        comment the user wrote. Returns the removed user. */
    method DeleteUser(id: string) returns (r: Result<User>)
      modifies this
      ensures UserIndex(old(users), id).None? ==>
        r == Err(UserNotFound) && users == old(users) && posts == old(posts) && comments == old(comments)
      ensures UserIndex(old(users), id).Some? ==>
        && r == Ok(old(users)[UserIndex(old(users), id).value])
        && users == RemoveAt(old(users), UserIndex(old(users), id).value)
        && posts == Filter(old(posts), (p: Post) => p.author != id)
        && comments == Filter(old(comments), (c: Comment) => c.author != id && !OnPostOf(old(posts), id, c))
      ensures r.Ok? ==> r.value.id == id
      ensures r.Ok? ==>
        IsSubsequence(users, old(users)) && IsSubsequence(posts, old(posts)) && IsSubsequence(comments, old(comments))
      ensures r.Ok? ==> forall p :: p in posts ==> p.author != id
      ensures r.Ok? ==> forall c :: c in comments ==> c.author != id && !OnPostOf(old(posts), id, c)
      ensures r.Ok? && old(Valid()) ==> !UserExists(users, id)
      ensures old(Valid()) ==> Valid()
    {
      var k := UserIndex(users, id);
      if k.None? {
        return Err(UserNotFound);
      }
      ghost var users0, posts0, comments0 := users, posts, comments;
      if Valid() {
        DeleteUserKeeps(users, posts, comments, k.value);
      }
      var deleted := users[k.value];
      users := RemoveAt(users, k.value);
      RemoveAtIsSubsequence(users0, k.value);
      posts, comments := DropPostsOf(posts, comments, id);
      FilterFilter(comments0, (c: Comment) => !OnPostOf(posts0, id, c),
        (cm: Comment) => cm.author != id, (c: Comment) => c.author != id && !OnPostOf(posts0, id, c));
      // keep the comments the user did not write
      comments := Filter(comments, (cm: Comment) => cm.author != id);
      r := Ok(deleted);
    }

    /** `updateUser`: find the user; a string email is checked against every
        user's email, the target's own included, before anything changes;
        then email and name change when given a string, age when not undefined. */
    method UpdateUser(id: string, patch: UserPatch) returns (r: Result<User>)
      modifies this
      ensures posts == old(posts) && comments == old(comments)
      ensures UserIndex(old(users), id).None? ==> r == Err(UserNotFound) && users == old(users)
      ensures UserIndex(old(users), id).Some? && patch.email.Given? && EmailInUse(old(users), patch.email.value) ==>
        r == Err(EmailTaken) && users == old(users)
      ensures UserIndex(old(users), id).Some? && patch.email == Given(old(users)[UserIndex(old(users), id).value].email) ==>
        r == Err(EmailTaken)
      ensures UserIndex(old(users), id).Some? && !(patch.email.Given? && EmailInUse(old(users), patch.email.value)) ==>
        var u := old(users)[UserIndex(old(users), id).value];
        && r.Ok?
        && users == old(users)[UserIndex(old(users), id).value := r.value]
        && r.value.id == u.id
        && r.value.email == (if patch.email.Given? then patch.email.value else u.email)
        && r.value.name == (if patch.name.Given? then patch.name.value else u.name)
        && r.value.age == (match patch.age
                           case Undefined => u.age
                           case Null => None
                           case Given(a) => Some(a))
      ensures old(Valid()) ==> Valid()
    {
      var k := UserIndex(users, id);
      if k.None? {
        return Err(UserNotFound);
      }
      var user := users[k.value];
      if patch.email.Given? {
        assert Lower(user.email) == Lower(users[k.value].email);
        if EmailInUse(users, patch.email.value) {
          return Err(EmailTaken);
        }
        user := user.(email := patch.email.value);
      }
      if patch.name.Given? {
        user := user.(name := patch.name.value);
      }
      match patch.age {
        case Undefined =>
        case Null => user := user.(age := None);
        case Given(a) => user := user.(age := Some(a));
      }
      if Valid() {
        UpdateUserKeeps(users, posts, comments, k.value, user);
      }
      users := users[k.value := user];
      r := Ok(user);
    }

    /** `createPost`: the author must exist; then append the post. */
    method CreatePost(id: string, data: PostInput) returns (r: Result<Post>)
      requires !PostExists(posts, id)
      modifies this
      ensures users == old(users) && comments == old(comments)
      ensures !UserExists(old(users), data.author) ==> r == Err(UserNotFound) && posts == old(posts)
      ensures UserExists(old(users), data.author) ==>
        r == Ok(Post(id, data.title, data.body, data.published, data.author)) && posts == old(posts) + [r.value]
      ensures old(Valid()) ==> Valid()
    {
      if !UserExists(users, data.author) {
        return Err(UserNotFound);
      }
      var post := Post(id, data.title, data.body, data.published, data.author);
      if Valid() {
        CreatePostKeeps(users, posts, comments, post);
      }
      posts := posts + [post];
      r := Ok(post);
    }

    /** `deletePost`: splice out the first post with the id and drop every
        comment on it. Returns the removed post. */
    method DeletePost(id: string) returns (r: Result<Post>)
      modifies this
      ensures users == old(users)
      ensures PostIndex(old(posts), id).None? ==>
        r == Err(PostNotFound) && posts == old(posts) && comments == old(comments)
      ensures PostIndex(old(posts), id).Some? ==>
        && r == Ok(old(posts)[PostIndex(old(posts), id).value])
        && posts == RemoveAt(old(posts), PostIndex(old(posts), id).value)
        && comments == Filter(old(comments), (c: Comment) => c.post != id)
      ensures r.Ok? ==> r.value.id == id && IsSubsequence(posts, old(posts)) && IsSubsequence(comments, old(comments))
      ensures r.Ok? && old(Valid()) ==> posts == Filter(old(posts), (p: Post) => p.id != id)
      ensures old(Valid()) ==> Valid()
    {
      var k := PostIndex(posts, id);
      if k.None? {
        return Err(PostNotFound);
      }
      if Valid() {
        DeletePostKeeps(users, posts, comments, k.value);
        RemoveOnlyPost(posts, k.value);
      }
      RemoveAtIsSubsequence(posts, k.value);
      var deleted := posts[k.value];
      posts := RemoveAt(posts, k.value);
      comments := Filter(comments, (cm: Comment) => cm.post != deleted.id);
      r := Ok(deleted);
    }

    /** `updatePost`: title and body change when given a string, published
        when given a boolean; id and author never change. */
    method UpdatePost(id: string, patch: PostPatch) returns (r: Result<Post>)
      modifies this
      ensures users == old(users) && comments == old(comments)
      ensures PostIndex(old(posts), id).None? ==> r == Err(PostNotFound) && posts == old(posts)
      ensures PostIndex(old(posts), id).Some? ==>
        var p := old(posts)[PostIndex(old(posts), id).value];
        && r.Ok?
        && posts == old(posts)[PostIndex(old(posts), id).value := r.value]
        && r.value.id == p.id && r.value.author == p.author
        && r.value.title == (if patch.title.Given? then patch.title.value else p.title)
        && r.value.body == (if patch.body.Given? then patch.body.value else p.body)
        && r.value.published == (if patch.published.Given? then patch.published.value else p.published)
      ensures old(Valid()) ==> Valid()
    {
      var k := PostIndex(posts, id);
      if k.None? {
        return Err(PostNotFound);
      }
      var post := posts[k.value];
      if patch.title.Given? {
        post := post.(title := patch.title.value);
      }
      if patch.body.Given? {
        post := post.(body := patch.body.value);
      }
      if patch.published.Given? {
        post := post.(published := patch.published.value);
      }
      if Valid() {
        UpdatePostKeeps(users, posts, comments, k.value, post);
      }
      posts := posts[k.value := post];
      r := Ok(post);
    }

    /** `createComment`: the author must exist, then a published post with
        the given id; then append the comment. */
    method CreateComment(id: string, data: CommentInput) returns (r: Result<Comment>)
      requires !CommentExists(comments, id)
      modifies this
      ensures users == old(users) && posts == old(posts)
      ensures !UserExists(old(users), data.author) ==> r == Err(UserNotFound) && comments == old(comments)
      ensures UserExists(old(users), data.author) && !PublishedPostExists(old(posts), data.post) ==>
        r == Err(PostNotFound) && comments == old(comments)
      ensures UserExists(old(users), data.author) && PublishedPostExists(old(posts), data.post) ==>
        r == Ok(Comment(id, data.text, data.author, data.post)) && comments == old(comments) + [r.value]
      ensures old(Valid()) ==> Valid()
    {
      if !UserExists(users, data.author) {
        return Err(UserNotFound);
      }
      if !PublishedPostExists(posts, data.post) {
        return Err(PostNotFound);
      }
      var comment := Comment(id, data.text, data.author, data.post);
      if Valid() {
        CreateCommentKeeps(users, posts, comments, comment);
      }
      comments := comments + [comment];
      r := Ok(comment);
    }

    /** `deleteComment`: splice out the first comment with the id and return
        it. (The copy in resolvers/Mutation.js names its context `ctx` and
        then reads an unbound `db`; this follows the working copy in index.js.) */
    method DeleteComment(id: string) returns (r: Result<Comment>)
      modifies this
      ensures users == old(users) && posts == old(posts)
      ensures CommentIndex(old(comments), id).None? ==> r == Err(CommentNotFound) && comments == old(comments)
      ensures CommentIndex(old(comments), id).Some? ==>
        && r == Ok(old(comments)[CommentIndex(old(comments), id).value])
        && comments == RemoveAt(old(comments), CommentIndex(old(comments), id).value)
      ensures r.Ok? ==> r.value.id == id && IsSubsequence(comments, old(comments))
      ensures r.Ok? && old(Valid()) ==> comments == Filter(old(comments), (c: Comment) => c.id != id)
      ensures old(Valid()) ==> Valid()
    {
      var k := CommentIndex(comments, id);
      if k.None? {
        return Err(CommentNotFound);
      }
      if Valid() {
        DeleteCommentKeeps(users, posts, comments, k.value);
        RemoveOnlyComment(comments, k.value);
      }
      RemoveAtIsSubsequence(comments, k.value);
      var deleted := comments[k.value];
      comments := RemoveAt(comments, k.value);
      r := Ok(deleted);
    }

    /** `updateComment`: the text changes when given a string; id, author
        and post never change. */
    method UpdateComment(id: string, patch: CommentPatch) returns (r: Result<Comment>)
      modifies this
      ensures users == old(users) && posts == old(posts)
      ensures CommentIndex(old(comments), id).None? ==> r == Err(CommentNotFound) && comments == old(comments)
      ensures CommentIndex(old(comments), id).Some? ==>
        var c := old(comments)[CommentIndex(old(comments), id).value];
        && r.Ok?
        && comments == old(comments)[CommentIndex(old(comments), id).value := r.value]
        && r.value.id == c.id && r.value.author == c.author && r.value.post == c.post
        && r.value.text == (if patch.text.Given? then patch.text.value else c.text)
      ensures old(Valid()) ==> Valid()
    {
      var k := CommentIndex(comments, id);
      if k.None? {
        return Err(CommentNotFound);
      }
      var comment := comments[k.value];
      if patch.text.Given? {
        comment := comment.(text := patch.text.value);
      }
      if Valid() {
        UpdateCommentKeeps(users, posts, comments, k.value, comment);
      }
      comments := comments[k.value := comment];
      r := Ok(comment);
    }
  }
}
