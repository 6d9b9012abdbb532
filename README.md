# In-memory content graph: store, mutations, queries and resolvers

This project models the core of a small GraphQL server. The server keeps three
ordered collections in memory: users, posts and comments. The model covers:

- **Store** (`mutation.dfy`, class `Mutation.Store`): three fields `users`,
  `posts`, `comments` of type `seq`. Nine mutation methods change them in place,
  as the resolvers' `push`, `splice` and reassignment do.
  - Creates check references first: the email must be free (ignoring case), the
    author must exist, and a comment's post must exist and be published.
  - Updates set a field only when the payload carries a value of the right kind.
  - Deletes cascade: a user takes their posts, the comments on those posts, and
    their own comments with them. A post takes its comments with it.
  - Every failure returns `Err` and leaves all three collections unchanged.
  - Every method keeps the store's consistency (`Schema.Consistent`): unique ids
    per collection, unique emails ignoring case, and no dangling author or post.
- **Queries** (`query.dfy`): the `users`, `posts` and `comments` listings, each
  filtered by a case-insensitive substring, and the fixed `me` profile.
- **Resolvers** (`resolvers.dfy`): the relationship lookups by id match.
  - `Post.author`, `Post.comments`
  - `User.posts`, `User.comments`
  - `Comment.author`, `Comment.post`
- **Seed** (`seed.dfy`): the collections the server starts with, and what holds
  of them.
- **Primitives** (`seqs.dfy`, `text.dfy`): JavaScript's `filter`, `find`,
  `findIndex`, `some` and `splice(i, 1)` as functions on sequences, and
  `toLowerCase`/`includes` on strings.

How the source is mapped:

- A failed mutation throws `Error` in the source. Here it returns
  `Err(EmailTaken | UserNotFound | PostNotFound | CommentNotFound)`.
- An update payload field is `Undefined`, `Null` or `Given(v)`. The source
  checks that a name, email, title, body or text is a string, and that
  `published` is a boolean; only `Given` passes those checks. The age check only
  rejects a missing field, so it also passes for `Null`, and an explicit null
  clears the age.
- `graphql-basics/src/index.js` repeats the query resolvers, the `Post`
  resolvers and all mutations except the updates, with the same code as the
  files under `resolvers/`. One definition models both copies.
- The delete mutations in `index.js` are cited where they are the better source:
  the user cascade and `deleteComment`.
- `deleteComment` in `resolvers/Mutation.js:109-110` takes its context as
  `ctx` and then reads an unbound `db`. As written it can never reach the
  comment list. `Store.DeleteComment` models the working copy in
  `index.js:172-179`, as the comment on the method says.

## Model

| member | source | states |
|---|---|---|
| Seqs.Filter | graphql-basics/src/resolvers/Query.js:6 | `filter` keeps, in their original order, exactly the elements that meet the predicate: the result is a subsequence of the input and no longer than it; every kept element meets the predicate; every element that meets it is kept |
| Seqs.FilterCount | graphql-basics/src/resolvers/Query.js:6 | `filter` keeps every copy of an accepted element and no copy of a rejected one |
| Seqs.FindIndex | graphql-basics/src/resolvers/Mutation.js:17 | `findIndex` answers no index exactly when no element matches; otherwise it answers an in-range index that matches, with no match before it |
| Seqs.Find | graphql-basics/src/resolvers/Post.js:3 | `find` answers nothing exactly when no element matches; otherwise it answers a matching element of the sequence, with no match before it |
| Seqs.AnyMember | graphql-basics/src/resolvers/Mutation.js:5 | `some` (`Seqs.Any`) holds exactly when some member of the sequence satisfies the test |
| Seqs.RemoveAt | graphql-basics/src/resolvers/Mutation.js:21 | `splice(i, 1)` shortens the sequence by one; elements before `i` keep their place and elements after it move down one place |
| Text.Lower | graphql-basics/src/resolvers/Query.js:6 | `toLowerCase` keeps the length, leaves no capital A-Z, turns each capital into its lower-case letter and leaves every other character alone |
| Text.Includes | graphql-basics/src/resolvers/Query.js:6 | `includes` holds exactly when `part` equals some window of `s` of the same length, so the part is never longer than the string |
| Text.IncludesIgnoringCase | graphql-basics/src/resolvers/Query.js:6 | the lower-cased part occurs in the lower-cased string exactly when some window of the string equals the part up to case |
| Schema.EmailInUse | graphql-basics/src/resolvers/Mutation.js:5 | holds exactly when some stored user's email equals the given one once both are lower-cased |
| Schema.UserExistsMember | graphql-basics/src/resolvers/Mutation.js:56 | the author check `UserExists` holds exactly when some stored user carries the id |
| Schema.PublishedPostExists | graphql-basics/src/resolvers/Mutation.js:98 | holds exactly when some stored post has the id and is published; it implies that a post with the id exists |
| Mutation.UserIndex | graphql-basics/src/resolvers/Mutation.js:17 | the lookup of a user by id answers no position exactly when no user has the id; otherwise a position holding a user with the id, with none before it |
| Mutation.PostIndex | graphql-basics/src/resolvers/Mutation.js:68 | the lookup of a post by id answers no position exactly when no post has the id; otherwise a position holding a post with the id, with none before it |
| Mutation.CommentIndex | graphql-basics/src/index.js:173 | the lookup of a comment by id answers no position exactly when no comment has the id; otherwise a position holding a comment with the id, with none before it |
| Mutation.Store.constructor | graphql-basics/src/index.js:4-72 | the store holds exactly the given collections, and it is valid when they are consistent |
| Mutation.Start | graphql-basics/src/index.js:4-72 | the server's starting store holds exactly the seeded users, posts and comments, and it satisfies the invariant every mutation keeps |
| Mutation.Store.CreateUser | graphql-basics/src/resolvers/Mutation.js:4-15 | when some user's email equals the new one ignoring case, it fails with EmailTaken and nothing changes; otherwise exactly one user (the fresh id plus the given fields) is appended and posts and comments are untouched; consistency is kept |
| Mutation.CreateUserKeeps | graphql-basics/src/resolvers/Mutation.js:5-14 | appending a user whose id is new and whose email is free keeps ids and emails unique and every reference resolving |
| Mutation.Store.DeleteUser | graphql-basics/src/resolvers/Mutation.js:16-33 | an unknown id fails with UserNotFound and changes nothing; otherwise it returns the removed user and splices it out. The surviving posts are those by other authors. The surviving comments are those by other authors that are not on a post of the deleted user. All survivors keep their order. No post or comment then names the user, no comment sits on a removed post, and in a consistent store no user has the id any more; consistency is kept |
| Mutation.DropPostsOf | graphql-basics/src/resolvers/Mutation.js:23-29 | the `posts.filter` whose callback drops the comments of each rejected post leaves exactly the posts by other authors, and exactly the comments not on a post by the deleted user |
| Mutation.CascadeCommentsFilter | graphql-basics/src/resolvers/Mutation.js:23-29 | dropping, post by post in order, the comments of each post by the user removes exactly the comments on some post by that user |
| Mutation.DeleteUserKeeps | graphql-basics/src/index.js:117-134 | the user cascade (user spliced out, their posts filtered out, comments on those posts and comments by the user filtered out) leaves a consistent store: no surviving post or comment references a removed user or post |
| Mutation.Store.UpdateUser | graphql-basics/src/resolvers/Mutation.js:34-54 | an unknown id fails with UserNotFound and nothing changes. A given email that equals any user's email ignoring case fails with EmailTaken before any field changes; this includes the user's own current email. Otherwise only the target changes: email and name when given a string, age when not undefined (null clears it), id never. Posts, comments and the other users are untouched; consistency is kept |
| Mutation.UpdateUserKeeps | graphql-basics/src/resolvers/Mutation.js:40-52 | replacing a user by one with the same id and either the same email or an email no user holds keeps the store consistent |
| Mutation.Store.CreatePost | graphql-basics/src/resolvers/Mutation.js:55-66 | an author id that no user has fails with UserNotFound and nothing changes; otherwise exactly one post is appended, with the fresh id and the given fields; consistency is kept |
| Mutation.CreatePostKeeps | graphql-basics/src/resolvers/Mutation.js:56-64 | appending a post with a new id and an existing author keeps the store consistent |
| Mutation.Store.DeletePost | graphql-basics/src/resolvers/Mutation.js:67-75 | an unknown id fails with PostNotFound and changes nothing. Otherwise it returns the removed post and splices it out. Exactly the comments on that post go; the other posts and comments stay, in order. In a consistent store the surviving posts are exactly those with another id. Consistency is kept |
| Mutation.DeletePostKeeps | graphql-basics/src/resolvers/Mutation.js:72-73 | splicing out a post and filtering out its comments keeps the store consistent |
| Mutation.RemoveOnlyPost | graphql-basics/src/resolvers/Mutation.js:68-72 | with unique post ids, splicing out the found post equals filtering out every post with that id |
| Mutation.Store.UpdatePost | graphql-basics/src/resolvers/Mutation.js:76-92 | an unknown id fails with PostNotFound; otherwise only that post changes: title and body when given a string, published when given a boolean, id and author never; users and comments are untouched; consistency is kept |
| Mutation.UpdatePostKeeps | graphql-basics/src/resolvers/Mutation.js:82-90 | replacing a post by one with the same id and author keeps the store consistent |
| Mutation.Store.CreateComment | graphql-basics/src/resolvers/Mutation.js:93-108 | the author is checked first: no such user fails with UserNotFound. Then a missing or unpublished post fails with PostNotFound. Either failure changes nothing. Otherwise exactly one comment is appended, with the fresh id and the given fields. Consistency is kept |
| Mutation.CreateCommentKeeps | graphql-basics/src/resolvers/Mutation.js:94-106 | appending a comment with a new id, an existing author and a published post keeps the store consistent |
| Mutation.Store.DeleteComment | graphql-basics/src/index.js:172-179 | an unknown id fails with CommentNotFound and changes nothing. Otherwise it returns the first comment with the id and splices it out; the others stay, in order. In a consistent store the survivors are exactly the comments with another id. Consistency is kept |
| Mutation.DeleteCommentKeeps | graphql-basics/src/index.js:177 | splicing out a comment keeps the store consistent |
| Mutation.RemoveOnlyComment | graphql-basics/src/index.js:173-177 | with unique comment ids, splicing out the found comment equals filtering out every comment with that id |
| Mutation.Store.UpdateComment | graphql-basics/src/resolvers/Mutation.js:117-127 | an unknown id fails with CommentNotFound; otherwise only that comment changes: text when given a string, id, author and post never; consistency is kept |
| Mutation.UpdateCommentKeeps | graphql-basics/src/resolvers/Mutation.js:123-125 | replacing a comment by one with the same id, author and post keeps the store consistent |
| Query.Users | graphql-basics/src/resolvers/Query.js:2-7 | with no query or an empty one the listing is the whole collection in store order; in every case it is an order-preserving subsequence holding exactly the users whose name contains the query, ignoring case, each as often as it is stored |
| Query.Posts | graphql-basics/src/resolvers/Query.js:8-14 | with no or an empty query all posts in order; otherwise an order-preserving subsequence holding exactly the posts whose title or body contains the query, ignoring case, each as often as it is stored |
| Query.Comments | graphql-basics/src/resolvers/Query.js:15-20 | with no or an empty query all comments in order; otherwise an order-preserving subsequence holding exactly the comments whose text contains the query, ignoring case, each as often as it is stored |
| Query.NoFilter | graphql-basics/src/resolvers/Query.js:3 | an absent or empty query filters nothing: every string contains it, ignoring case; any other query is a non-empty string |
| Query.Me | graphql-basics/src/resolvers/Query.js:21-27 | `me` is the fixed profile with id 123098, name Roman and email roman@example.com, and has no age; it takes no store |
| Query.EmptyQueryMatchesAll | graphql-basics/src/resolvers/Query.js:3-6 | short-circuiting on an empty query agrees with filtering by it: every name contains the empty string |
| Query.UsersFindsByFullName | graphql-basics/src/resolvers/Query.js:6 | searching for a stored user's exact name always lists that user |
| Resolvers.PostAuthor | graphql-basics/src/resolvers/Post.js:2-4 | answers nothing exactly when no user has the post's author id; otherwise the first user with that id |
| Resolvers.PostComments | graphql-basics/src/resolvers/Post.js:5-7 | exactly the comments whose post is the parent's id, in store order, each as often as it is stored, never more than the store holds |
| Resolvers.PostAuthorUnique | graphql-basics/src/resolvers/Post.js:3 | in a consistent store, any stored user carrying the post's author id is the one `Post.author` answers |
| Resolvers.UserPosts | graphql-basics/src/index.js:190-192 | exactly the posts whose author is the user's id, in store order, each as often as it is stored |
| Resolvers.UserComments | graphql-basics/src/index.js:193-195 | exactly the comments whose author is the user's id, in store order, each as often as it is stored |
| Resolvers.CommentAuthor | graphql-basics/src/index.js:198-200 | answers nothing exactly when no user has the comment's author id; otherwise the first user with that id |
| Resolvers.CommentPost | graphql-basics/src/index.js:201-203 | answers nothing exactly when no post has the comment's post id; otherwise the first post with that id |
| Resolvers.RelationsResolve | graphql-basics/src/index.js:182-203 | in a consistent store every post's author and every comment's author and post resolve to a record |
| Seed.SeedIdsUnique | graphql-basics/src/index.js:4-72 | the seeded users, posts and comments each have unique ids |
| Seed.SeedEmailsUnique | graphql-basics/src/index.js:4-21 | the seeded users' emails differ, ignoring case |
| Seed.SeedReferencesResolve | graphql-basics/src/index.js:23-72 | every seeded post's author and every seeded comment's author and post exist |
| Seed.SeedConsistent | graphql-basics/src/index.js:4-72 | the seed is a consistent store |
| Seed.SeedBreaksPublishRule | graphql-basics/src/index.js:38-71 | comments 104 and 105 sit on post 12, which is unpublished, so the seed breaks the rule `createComment` enforces on new comments |

## Left out

- Server construction, startup and its console message (`index.js:1`,
  `index.js:207-214`): transport and I/O.
- `uuidv4`: a caller supplies each new id. `CreateUser`, `CreatePost` and
  `CreateComment` require that no record of that kind already has it, which is
  what a fresh uuid promises.
- Unicode `toLowerCase`: `Text.Lower` lower-cases ASCII `A`-`Z` only, and
  `includes` is plain substring search on the result.
- Event publication and subscriptions: no source file implements them.
- Object spread of `args.data`: the inputs are fixed records, so no extra
  fields and no `id` from the caller.
- Aliasing between returned records and stored ones: results are values, so a
  caller cannot change the store through a returned record.
- The loose `==` in `resolvers/Mutation.js:24` and `index.js:125`: both sides
  are strings here, so it behaves as `===`.
- The `db` object the resolvers take from their context: where it is built is
  not shown. The store constructor takes the three collections, and
  `Mutation.Start` builds the store from the seed.
- Error message strings, and the unused `parent`, `ctx` and `info` parameters.
- Patch fields of a wrong non-null kind (a number where a string is declared):
  the schema rejects them before a resolver runs, so only `undefined`, `null`
  and well-typed values are modelled.
- Mutation.Store.DeleteUser: "no user has the id any more" is stated only for a
  consistent store. With duplicate ids the source, like the model, splices out
  only the first match.
