/**
  Request sequences that the repository's own tests exercise, replayed on a
  fresh blog of two users. Each outcome follows from the handlers' contracts
  alone.
*/
module Scenarios {
  import opened Wrappers
  import opened Models
  import opened Forms
  import opened Pagination
  import opened Store

  /**
    The follower follows the author, follows again, then unfollows: the edge
    count goes 1, 1, 0, and every request ends on the author's profile.
  */
  method FollowTwiceThenUnfollow() returns (counts: seq<nat>, responses: seq<Response>)
    ensures counts == [1, 1, 0]
    ensures responses == [Redirect(ProfilePage("author")), Redirect(ProfilePage("author")), Redirect(ProfilePage("author"))]
  {
    var follower, author := User(1, "follower"), User(2, "author");
    var blog := new Blog([follower, author], 10, 15);
    var r1 := blog.ProfileFollow(follower, "author");
    var c1 := EdgeCount(blog.follows, 1, 2);
    var r2 := blog.ProfileFollow(follower, "author");
    var c2 := EdgeCount(blog.follows, 1, 2);
    var r3 := blog.ProfileUnfollow(follower, "author");
    assert 2 in set u | u in [follower, author] && u.username == "author" :: u.id by {
      assert author in [follower, author];
    }
    var c3 := EdgeCount(blog.follows, 1, 2);
    counts, responses := [c1, c2, c3], [r1, r2, r3];
  }

  /** On a fresh blog of two users, the author publishes one post with an acceptable text. */
  method AuthorPublishes(text: string, image: ImageInput) returns (blog: Blog)
    requires CleanTextField(text).Ok?
    ensures fresh(blog) && blog.Valid()
    ensures blog.users == [User(1, "follower"), User(2, "author")] && blog.numOfLetters == 5
    ensures blog.posts == [Post(0, Strip(text), 100, 2, None, CleanedImage(image, None))]
    ensures blog.comments == [] && blog.follows == []
  {
    blog := new Blog([User(1, "follower"), User(2, "author")], 10, 5);
    var _ := blog.PostCreate(User(2, "author"), PostInput(text, None, image), true, 100);
  }

  /** The author publishes one post, then the follower follows the author. */
  method PublishThenFollow() returns (blog: Blog)
    ensures fresh(blog) && blog.Valid()
    ensures blog.posts == [Post(0, "news", 100, 2, None, None)]
    ensures blog.follows == [Follow(1, 2)]
  {
    StripKeepsTrimmed("news");
    blog := AuthorPublishes("news", NoUpload);
    var _ := blog.ProfileFollow(User(1, "follower"), "author");
  }

  /**
    After the author publishes a post and the follower follows the author, the
    post is in the follower's feed and not in the author's own.
  */
  method FollowerSeesNewPost() returns (inFollowerFeed: bool, inAuthorFeed: bool)
    ensures inFollowerFeed && !inAuthorFeed
  {
    var blog := PublishThenFollow();
    var post := blog.posts[0];
    assert EdgeCount(blog.follows, 1, 2) == 1 && EdgeCount(blog.follows, 2, 2) == 0;
    var followerFeed := blog.FollowFeed(1);
    var authorFeed := blog.FollowFeed(2);
    inFollowerFeed, inAuthorFeed := post in followerFeed, post in authorFeed;
  }

  /**
    After following, the follower's view of the author's profile says
    `following`; an anonymous visitor's view fails in the follow lookup.
  */
  method ProfileShowsFollowing() returns (following: bool, anonymousFails: bool)
    ensures following && anonymousFails
  {
    var follower, author := User(1, "follower"), User(2, "author");
    var blog := new Blog([follower, author], 10, 15);
    var _ := blog.ProfileFollow(follower, "author");
    assert blog.follows == [Follow(1, 2)];
    var profile := blog.Profile(Some(1), "author", Missing);
    assert profile.Ok? && profile.value.author == author by {
      assert author in blog.users;
    }
    following := profile.value.following;
    var anonymous := blog.Profile(None, "author", Missing);
    anonymousFails := anonymous == Err(AnonymousViewer);
  }

  /**
    Another user's edit attempt leaves the post as it was and lands on its
    page; a comment no longer than the minimum is not stored, though the
    browser still goes to the post's page.
  */
  method ForeignEditAndShortComment() returns (text: string, comments: nat, responses: seq<Response>)
    ensures text == "mine" && comments == 0
    ensures responses == [Redirect(PostDetailPage(0)), Redirect(PostDetailPage(0))]
  {
    StripKeepsTrimmed("mine");
    StripKeepsTrimmed("short");
    var blog := AuthorPublishes("mine", NoUpload);
    var stranger := User(1, "follower");
    assert stranger in blog.users;
    assert 0 in blog.PostIds() by {
      assert blog.posts[0] in blog.posts;
    }
    var r1 := blog.PostEdit(stranger, 0, PostInput("theirs", None, NoUpload), true);
    var r2 := blog.AddComment(stranger, 0, Some("short"), 101);
    assert blog.posts == [Post(0, "mine", 100, 2, None, None)];
    text := blog.posts[0].text;
    comments := |blog.comments|;
    responses := [r1, r2];
  }

  /**
    The author edits the text of a post with an image and sends no new file:
    the post takes the new text and keeps its image.
  */
  lemma EditWithoutUploadKeepsImage()
    ensures EditPost([Post(0, "old", 100, 2, None, Some("a.gif"))], 0, PostInput("new", None, NoUpload))
      == [Post(0, "new", 100, 2, None, Some("a.gif"))]
  {
    StripKeepsTrimmed("new");
  }
}
