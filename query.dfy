/** The read-only root queries: listings filtered by a case-insensitive
    substring, and the fixed `me` profile. */
module Query {
  import opened Seqs
  import opened Text
  import opened Schema

  /** No query was sent, or it is the empty string: the listing is not filtered. */
  predicate NoFilter(query: Option<string>)
    ensures NoFilter(query) && query.Some? ==> forall s :: IncludesIgnoringCase(s, query.value)
    ensures !NoFilter(query) ==> query.Some? && |query.value| > 0
  {
    IncludesEmptyAll();
    query.None? || query.value == ""
  }

  /** `users(query)`: the users whose name contains the query, ignoring case. */
  function Users(users: seq<User>, query: Option<string>): (r: seq<User>)
    ensures NoFilter(query) ==> r == users
    ensures IsSubsequence(r, users)
    ensures forall u :: u in r <==> u in users && (NoFilter(query) || IncludesIgnoringCase(u.name, query.value))
    ensures forall u :: multiset(r)[u] == (if NoFilter(query) || IncludesIgnoringCase(u.name, query.value) then multiset(users)[u] else 0)
  {
    if NoFilter(query) then (SubsequenceReflexive(users); users)
    else
      FilterCounts(users, (u: User) => IncludesIgnoringCase(u.name, query.value));
      Filter(users, (u: User) => IncludesIgnoringCase(u.name, query.value))
  }

  /** `posts(query)`: the posts whose title or body contains the query, ignoring case. */
  function Posts(posts: seq<Post>, query: Option<string>): (r: seq<Post>)
    ensures NoFilter(query) ==> r == posts
    ensures IsSubsequence(r, posts)
    ensures forall p :: p in r <==> (p in posts && (NoFilter(query)
      || IncludesIgnoringCase(p.title, query.value) || IncludesIgnoringCase(p.body, query.value)))
    ensures forall p :: multiset(r)[p] == (if NoFilter(query)
      || IncludesIgnoringCase(p.title, query.value) || IncludesIgnoringCase(p.body, query.value)
      then multiset(posts)[p] else 0)
  {
    if NoFilter(query) then (SubsequenceReflexive(posts); posts)
    else
      FilterCounts(posts, (p: Post) => IncludesIgnoringCase(p.title, query.value) || IncludesIgnoringCase(p.body, query.value));
      Filter(posts, (p: Post) => IncludesIgnoringCase(p.title, query.value) || IncludesIgnoringCase(p.body, query.value))
  }

  /** `comments(query)`: the comments whose text contains the query, ignoring case. */
  function Comments(comments: seq<Comment>, query: Option<string>): (r: seq<Comment>)
    ensures NoFilter(query) ==> r == comments
    ensures IsSubsequence(r, comments)
    ensures forall c :: c in r <==> c in comments && (NoFilter(query) || IncludesIgnoringCase(c.text, query.value))
    ensures forall c :: multiset(r)[c] == (if NoFilter(query) || IncludesIgnoringCase(c.text, query.value) then multiset(comments)[c] else 0)
  {
    if NoFilter(query) then (SubsequenceReflexive(comments); comments)
    else
      FilterCounts(comments, (c: Comment) => IncludesIgnoringCase(c.text, query.value));
      Filter(comments, (c: Comment) => IncludesIgnoringCase(c.text, query.value))
  }

  /** `me()`: a fixed profile with no age; it reads no store. */
  function Me(): (r: User)
    ensures r.id == "123098" && r.name == "Roman" && r.email == "roman@example.com"
    ensures r.age.None?
  {
    User("123098", "Roman", "roman@example.com", None)
  }

  /** Short-circuiting on the empty query returns what filtering by it
      would: every name includes the empty string. */
  lemma EmptyQueryMatchesAll(users: seq<User>)
    ensures Filter(users, (u: User) => IncludesIgnoringCase(u.name, "")) == users
    ensures Users(users, Some("")) == users
  {
    forall u | u in users
      ensures IncludesIgnoringCase(u.name, "")
    {
      IncludesEmpty(u.name);
    }
    FilterAll(users, (u: User) => IncludesIgnoringCase(u.name, ""));
  }

  /** Searching for a user's full name, in any case, lists that user. */
  lemma UsersFindsByFullName(users: seq<User>, u: User)
    requires u in users
    ensures u in Users(users, Some(u.name))
  {
    IncludesItself(u.name);
  }
}
