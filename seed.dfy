/** The store the server starts with. */
module Seed {
  import opened Seqs
  import opened Text
  import opened Schema

  const Users: seq<User> := [
    User("1", "Roman", "roman@example.com", Some(28)),
    User("2", "Sarah", "sarah@example.com", None),
    User("3", "Mike", "mike@example.com", None)
  ]

  const Posts: seq<Post> := [
    Post("10", "GraphQL 101", "This is how to use GraphQL...", true, "1"),
    Post("11", "GraphQL 201", "This is an advanced GraphQL post...", true, "1"),
    Post("12", "Programming Music", "", false, "2")
  ]

  const Comments: seq<Comment> := [
    Comment("102", "This worked well for me. Thanks!", "3", "10"),
    Comment("103", "Glad you enjoyed it.", "1", "10"),
    Comment("104", "This does not work.", "2", "12"),
    Comment("105", "Nevermind. I got it to work.", "1", "12")
  ]

  lemma SeedIdsUnique()
    ensures IdsUnique(Users, Posts, Comments)
  {
    assert Users[0].id[0] == '1' && Users[1].id[0] == '2' && Users[2].id[0] == '3';
    assert Posts[0].id[1] == '0' && Posts[1].id[1] == '1' && Posts[2].id[1] == '2';
    assert Comments[0].id[2] == '2' && Comments[1].id[2] == '3';
    assert Comments[2].id[2] == '4' && Comments[3].id[2] == '5';
  }

  lemma SeedEmailsUnique()
    ensures EmailsUnique(Users)
  {
    assert Lower(Users[0].email)[0] == 'r';
    assert Lower(Users[1].email)[0] == 's';
    assert Lower(Users[2].email)[0] == 'm';
  }

  lemma SeedReferencesResolve()
    ensures ReferencesResolve(Users, Posts, Comments)
  {
    forall p | p in Posts
      ensures UserExists(Users, p.author)
    {
      assert p.author == Users[0].id || p.author == Users[1].id;
    }
    forall c | c in Comments
      ensures UserExists(Users, c.author) && PostExists(Posts, c.post)
    {
      assert c.author == Users[0].id || c.author == Users[1].id || c.author == Users[2].id;
      assert c.post == Posts[0].id || c.post == Posts[2].id;
    }
  }

  /** The seed has unique ids and emails and no dangling reference. */
  lemma SeedConsistent()
    ensures Consistent(Users, Posts, Comments)
  {
    SeedIdsUnique();
    SeedEmailsUnique();
    SeedReferencesResolve();
  }

  /** Comments 104 and 105 sit on the unpublished post 12, so the seed
      could not have been built with `createComment`. */
  lemma SeedBreaksPublishRule()
    ensures Comments[2].id == "104" && Comments[3].id == "105"
    ensures Comments[2].post == "12" && Comments[3].post == "12"
    ensures !PublishedPostExists(Posts, "12")
    ensures !CommentsOnPublishedPosts(Posts, Comments)
  {
    assert Comments[2] in Comments;
  }
}
