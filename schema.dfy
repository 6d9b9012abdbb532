/** The records of the content graph, the payloads the mutations take,
    the errors they raise, and the consistency of a store. */
module Schema {
  import opened Seqs
  import opened Text

  datatype User = User(id: string, name: string, email: string, age: Option<int>)
  datatype Post = Post(id: string, title: string, body: string, published: bool, author: string)
  datatype Comment = Comment(id: string, text: string, author: string, post: string)

  /** `args.data` of the create mutations: every field but the id. */
  datatype UserInput = UserInput(name: string, email: string, age: Option<int>)
  datatype PostInput = PostInput(title: string, body: string, published: bool, author: string)
  datatype CommentInput = CommentInput(text: string, author: string, post: string)

  /** One field of an update payload as the resolver sees it: left out
      (`undefined`), sent as `null`, or carrying a value of its declared kind. */
  datatype Field<T> = Undefined | Null | Given(value: T)

  datatype UserPatch = UserPatch(name: Field<string>, email: Field<string>, age: Field<int>)
  datatype PostPatch = PostPatch(title: Field<string>, body: Field<string>, published: Field<bool>)
  datatype CommentPatch = CommentPatch(text: Field<string>)

  /** The errors the mutations throw. */
  datatype Error = EmailTaken | UserNotFound | PostNotFound | CommentNotFound

  datatype Result<T> = Ok(value: T) | Err(error: Error)

  /** Some user's email equals `email` once both are lower-cased. */
  predicate EmailInUse(users: seq<User>, email: string)
    ensures EmailInUse(users, email) <==> exists u :: u in users && Lower(u.email) == Lower(email)
  {
    AnyMember(users, (u: User) => Lower(u.email) == Lower(email));
    Any(users, (u: User) => Lower(u.email) == Lower(email))
  }

  /** Some user has the id `id`. */
  predicate UserExists(users: seq<User>, id: string)
  {
    Any(users, (u: User) => u.id == id)
  }

  /** A user with the id exists exactly when some stored user carries it. */
  lemma UserExistsMember(users: seq<User>, id: string)
    ensures UserExists(users, id) <==> exists u :: u in users && u.id == id
  {
    AnyMember(users, (u: User) => u.id == id);
  }

  predicate PostExists(posts: seq<Post>, id: string)
  {
    Any(posts, (p: Post) => p.id == id)
  }

  /** Some post has the id `id` and is published. */
  predicate PublishedPostExists(posts: seq<Post>, id: string)
    ensures PublishedPostExists(posts, id) <==> exists p :: p in posts && p.id == id && p.published
    ensures PublishedPostExists(posts, id) ==> PostExists(posts, id)
  {
    AnyMember(posts, (p: Post) => p.id == id && p.published);
    Any(posts, (p: Post) => p.id == id && p.published)
  }

  predicate CommentExists(comments: seq<Comment>, id: string)
  {
    Any(comments, (c: Comment) => c.id == id)
  }

  /** Ids are unique within each collection. */
  predicate IdsUnique(users: seq<User>, posts: seq<Post>, comments: seq<Comment>)
  {
    && Distinct(users, (u: User) => u.id)
    && Distinct(posts, (p: Post) => p.id)
    && Distinct(comments, (c: Comment) => c.id)
  }

  /** No two users share an email, ignoring case. */
  predicate EmailsUnique(users: seq<User>)
  {
    Distinct(users, (u: User) => Lower(u.email))
  }

  /** Every post's author and every comment's author and post exist. */
  predicate ReferencesResolve(users: seq<User>, posts: seq<Post>, comments: seq<Comment>)
  {
    && (forall p :: p in posts ==> UserExists(users, p.author))
    && (forall c :: c in comments ==> UserExists(users, c.author) && PostExists(posts, c.post))
  }

  /** The consistency every mutation keeps. */
  predicate Consistent(users: seq<User>, posts: seq<Post>, comments: seq<Comment>)
  {
    IdsUnique(users, posts, comments) && EmailsUnique(users) && ReferencesResolve(users, posts, comments)
  }

  /** Every comment sits on a published post: what `createComment` demands
      of a new comment, but no standing rule (a post can be unpublished later). */
  predicate CommentsOnPublishedPosts(posts: seq<Post>, comments: seq<Comment>)
  {
    forall c :: c in comments ==> PublishedPostExists(posts, c.post)
  }
}
