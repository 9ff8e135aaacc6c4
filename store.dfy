/**
  The blog's data and its request handlers. The tables of users, groups, posts,
  comments and follow edges are fields of one `Blog` object; the handlers that
  write (creating and editing posts, commenting, following, unfollowing) are
  methods that change those fields, the handlers that only read (the listings
  and the post page) are functions of them, and the deletions that the foreign
  keys' policies govern are methods too.

  A handler's caller is an already signed-in user, passed as the `User` row the
  session stands for; the clock is a `now` parameter.
*/
module Store {
  import opened Wrappers
  import opened Models
  import opened Forms
  import opened Pagination
  import opened Integrity
  import Seqs

  type Positive = n: nat | n > 0 witness 1

  /** Where a handler sends the browser next. */
  datatype Target = ProfilePage(username: string) | PostDetailPage(postId: PostId)

  /** What a handler that writes answers. */
  datatype Response =
    | Redirect(to: Target)
    | ShowForm     // the form page is rendered again
    | NotFound     // HTTP 404
    | ServerError  // an exception escapes the handler (HTTP 500)

  datatype IntegrityError = SlugTaken

  /** Why `profile` shows no page. */
  datatype ProfileError =
    | UnknownUser      // HTTP 404
    | AnonymousViewer  // the follow lookup by the anonymous user raises (HTTP 500)

  datatype GroupListing = GroupListing(group: Group, page: Page<Post>)
  datatype ProfileListing = ProfileListing(author: User, following: bool, page: Page<Post>)
  datatype PostPage = PostPage(post: Post, comments: seq<Comment>)

  function InGroup(gid: GroupId): Post -> bool {
    (p: Post) => p.group == Some(gid)
  }

  function ByAuthor(uid: UserId): Post -> bool {
    (p: Post) => p.author == uid
  }

  function OnPost(pid: PostId): Comment -> bool {
    (c: Comment) => c.post == pid
  }

  /** `post_edit`'s `form.save()`: the post `pid` takes the form's columns, the other posts stay. */
  function ApplyEdit(pid: PostId, input: PostInput): Post -> Post {
    (p: Post) => if p.id == pid then SavePost(input, p) else p
  }

  /** The posts table after editing post `pid`. */
  function EditPost(ps: seq<Post>, pid: PostId, input: PostInput): (r: seq<Post>)
    ensures |r| == |ps|
    ensures forall i, f :: 0 <= i < |ps| && f !in PostFormFields ==> SamePostField(r[i], ps[i], f)
    ensures forall i :: 0 <= i < |ps| && ps[i].id != pid ==> r[i] == ps[i]
    ensures forall i :: 0 <= i < |ps| && ps[i].id == pid ==>
      r[i].text == Strip(input.text) && r[i].group == input.group && r[i].image == CleanedImage(input.image, ps[i].image)
  {
    Seqs.Map(ps, ApplyEdit(pid, input))
  }

  /** The comments on post `pid`, newest first: all of them, each as often as stored. */
  function CommentsOf(cs: seq<Comment>, pid: PostId): (r: seq<Comment>)
    ensures Seqs.SortedDesc(r, Created)
    ensures multiset(r) == multiset(Seqs.Filter(cs, OnPost(pid)))
    ensures forall c :: c in r <==> c in cs && c.post == pid
  {
    var r := CommentsNewestFirst(Seqs.Filter(cs, OnPost(pid)));
    assert forall c :: c in r <==> c in multiset(Seqs.Filter(cs, OnPost(pid)));
    assert forall c :: c in Seqs.Filter(cs, OnPost(pid)) <==> c in cs && c.post == pid;
    r
  }

  /** A listing as the handlers serve it: newest first, then one page of it. */
  function Listing(ps: seq<Post>, perPage: Positive, q: PageQuery): (r: Page<Post>)
    ensures r == GetPage(PostsNewestFirst(ps), perPage, q)
    ensures |r.items| <= perPage
    ensures forall p :: p in r.items ==> p in ps
    ensures Seqs.SortedDesc(r.items, PubDate)
  {
    var sorted := PostsNewestFirst(ps);
    var r := GetPage(sorted, perPage, q);
    PageBounds(|sorted|, perPage, r.number);
    PageOfSortedIsSorted(sorted, perPage, q, PubDate);
    assert forall p :: p in r.items ==> p in multiset(sorted);
    r
  }

  /** A listing that fits on one page shows all its posts, each as often as stored, when no page is asked for. */
  lemma ListingFitsOnePage(ps: seq<Post>, perPage: Positive)
    requires |ps| <= perPage
    ensures Listing(ps, perPage, Missing).numPages == 1
    ensures multiset(Listing(ps, perPage, Missing).items) == multiset(ps)
  {
    var sorted := PostsNewestFirst(ps);
    MissingGivesFirstPage(sorted, perPage);
    assert sorted[..Min(perPage, |sorted|)] == sorted;
  }

  /** One post more than a page: the first page is full, the second holds the oldest post alone. */
  lemma ListingOverflow(ps: seq<Post>, perPage: Positive)
    requires |ps| == perPage + 1
    ensures |Listing(ps, perPage, Missing).items| == perPage
    ensures Listing(ps, perPage, Number(2)).items == [PostsNewestFirst(ps)[perPage]]
  {
    var sorted := PostsNewestFirst(ps);
    MissingGivesFirstPage(sorted, perPage);
    OneItemOverflow(sorted, perPage);
  }

  /** All pages of a listing, in order, hold exactly the listed posts, each as often as listed. */
  lemma ListingPagesCoverAll(ps: seq<Post>, perPage: Positive)
    ensures multiset(PagesFrom(PostsNewestFirst(ps), perPage, 1)) == multiset(ps)
    ensures Seqs.SortedDesc(PagesFrom(PostsNewestFirst(ps), perPage, 1), PubDate)
  {
    PagesConcatenateToListing(PostsNewestFirst(ps), perPage);
  }

  class Blog {
    const postsPerPage: Positive   // POSTS_PER_PAGE
    const numOfLetters: nat        // NUM_OF_LETTERS

    var users: seq<User>
    var groups: seq<Group>
    var posts: seq<Post>
    var comments: seq<Comment>
    var follows: seq<Follow>

    // the next primary keys the database hands out
    var nextGroupId: nat
    var nextPostId: nat
    var nextCommentId: nat

    function UserIds(): set<UserId> reads this { UserIdsOf(users) }
    function GroupIds(): set<GroupId> reads this { GroupIdsOf(groups) }
    function PostIds(): set<PostId> reads this { PostIdsOf(posts) }

    /** Keys are unique, slugs are unique and every foreign key names an existing row. */
    ghost predicate Valid() reads this {
      Consistent(users, groups, posts, comments, follows, nextGroupId, nextPostId, nextCommentId)
    }

    /** A blog over the platform's user table, with no groups, posts, comments or follows yet. */
    constructor (users: seq<User>, postsPerPage: Positive, numOfLetters: nat)
      requires UsersWellFormed(users)
      ensures Valid()
      ensures this.users == users && this.postsPerPage == postsPerPage && this.numOfLetters == numOfLetters
      ensures groups == [] && posts == [] && comments == [] && follows == []
      ensures nextGroupId == 0 && nextPostId == 0 && nextCommentId == 0
    {
      this.postsPerPage := postsPerPage;
      this.numOfLetters := numOfLetters;
      this.users := users;
      groups, posts, comments, follows := [], [], [], [];
      nextGroupId, nextPostId, nextCommentId := 0, 0, 0;
    }

    // -------------------------------------------------------------------------
    // Lookups (`get_object_or_404`)

    function FindUser(username: string): (r: Option<User>)
      reads this
      ensures r.Some? ==> r.value in users && r.value.username == username
      ensures r.None? ==> forall u :: u in users ==> u.username != username
    {
      match Seqs.FindIndex(users, (u: User) => u.username == username)
      case None => None
      case Some(i) => Some(users[i])
    }

    function FindGroup(slug: string): (r: Option<Group>)
      reads this
      ensures r.Some? ==> r.value in groups && r.value.slug == slug
      ensures r.None? ==> forall g :: g in groups ==> g.slug != slug
    {
      match Seqs.FindIndex(groups, (g: Group) => g.slug == slug)
      case None => None
      case Some(i) => Some(groups[i])
    }

    function FindPost(pid: PostId): (r: Option<Post>)
      reads this
      ensures r.Some? ==> r.value in posts && r.value.id == pid
      ensures r.None? <==> pid !in PostIds()
    {
      match Seqs.FindIndex(posts, (p: Post) => p.id == pid)
      case None => None
      case Some(i) => Some(posts[i])
    }

    // -------------------------------------------------------------------------
    // Handlers that only read

    /** `index`: all posts, newest first, one page. */
    function Index(q: PageQuery): (r: Page<Post>)
      reads this
      ensures r == Listing(posts, postsPerPage, q)
      ensures |r.items| <= postsPerPage
      ensures forall p :: p in r.items ==> p in posts
      ensures Seqs.SortedDesc(r.items, PubDate)
    {
      Listing(posts, postsPerPage, q)
    }

    /** `group_posts`: the posts of the group with this slug, or not found. */
    function GroupPosts(slug: string, q: PageQuery): (r: Option<GroupListing>)
      reads this
      ensures r.None? <==> forall g :: g in groups ==> g.slug != slug
      ensures r.Some? ==> r.value.group in groups && r.value.group.slug == slug
      ensures r.Some? ==> forall p :: p in r.value.page.items ==> p in posts && p.group == Some(r.value.group.id)
      ensures r.Some? ==> Seqs.SortedDesc(r.value.page.items, PubDate)
      ensures r.Some? ==> r.value.page == Listing(Seqs.Filter(posts, InGroup(r.value.group.id)), postsPerPage, q)
    {
      match FindGroup(slug)
      case None => None
      case Some(g) => Some(GroupListing(g, Listing(Seqs.Filter(posts, InGroup(g.id)), postsPerPage, q)))
    }

    /**
      `profile`: the posts of the user with this username, and whether the
      viewer follows that user. The author is looked up first; the follow
      lookup then filters by the viewer, which raises for an anonymous
      visitor (`None`).
    */
    function Profile(viewer: Option<UserId>, username: string, q: PageQuery): (r: Result<ProfileListing, ProfileError>)
      reads this
      ensures r == Err(UnknownUser) <==> forall u :: u in users ==> u.username != username
      ensures r == Err(AnonymousViewer) <==> viewer.None? && exists u :: u in users && u.username == username
      ensures r.Ok? ==> r.value.author in users && r.value.author.username == username && viewer.Some?
      ensures r.Ok? ==> (r.value.following <==> EdgeCount(follows, viewer.value, r.value.author.id) > 0)
      ensures r.Ok? ==> forall p :: p in r.value.page.items ==> p in posts && p.author == r.value.author.id
      ensures r.Ok? ==> Seqs.SortedDesc(r.value.page.items, PubDate)
      ensures r.Ok? ==> r.value.page == Listing(Seqs.Filter(posts, ByAuthor(r.value.author.id)), postsPerPage, q)
    {
      match FindUser(username)
      case None => Err(UnknownUser)
      case Some(a) =>
        if viewer.None? then Err(AnonymousViewer)
        else
          var following := Follow(viewer.value, a.id) in follows;
          assert following <==> EdgeCount(follows, viewer.value, a.id) > 0;
          Ok(ProfileListing(a, following, Listing(Seqs.Filter(posts, ByAuthor(a.id)), postsPerPage, q)))
    }

    /**
      `profile` as the repository's paginator test expects it to behave: an
      anonymous visitor sees the author's page too, and follows nobody. This
      is `Profile` with the follow lookup made only for a signed-in viewer.
    */
    function ProfileForAnyViewer(viewer: Option<UserId>, username: string, q: PageQuery): (r: Option<ProfileListing>)
      reads this
      ensures r.None? <==> forall u :: u in users ==> u.username != username
      ensures r.Some? ==> r.value.author in users && r.value.author.username == username
      ensures r.Some? ==> (r.value.following <==> viewer.Some? && EdgeCount(follows, viewer.value, r.value.author.id) > 0)
      ensures r.Some? ==> forall p :: p in r.value.page.items ==> p in posts && p.author == r.value.author.id
      ensures r.Some? ==> Seqs.SortedDesc(r.value.page.items, PubDate)
      ensures r.Some? ==> r.value.page == Listing(Seqs.Filter(posts, ByAuthor(r.value.author.id)), postsPerPage, q)
    {
      match FindUser(username)
      case None => None
      case Some(a) =>
        var following := viewer.Some? && Follow(viewer.value, a.id) in follows;
        assert viewer.Some? ==> (Follow(viewer.value, a.id) in follows <==> EdgeCount(follows, viewer.value, a.id) > 0);
        Some(ProfileListing(a, following, Listing(Seqs.Filter(posts, ByAuthor(a.id)), postsPerPage, q)))
    }

    /** For a signed-in viewer the corrected profile and the one as written show the same page. */
    lemma SignedInProfilesAgree(viewer: UserId, username: string, q: PageQuery)
      ensures ProfileForAnyViewer(Some(viewer), username, q).None? ==> Profile(Some(viewer), username, q) == Err(UnknownUser)
      ensures ProfileForAnyViewer(Some(viewer), username, q).Some? ==>
        Profile(Some(viewer), username, q) == Ok(ProfileForAnyViewer(Some(viewer), username, q).value)
    {
    }

    /**
      The paginator test's profile requests, made without signing in, fail on
      the code as written whichever page they ask for.
    */
    lemma AnonymousProfileRequestsFail(username: string)
      requires FindUser(username).Some?
      ensures Profile(None, username, Missing) == Err(AnonymousViewer)
      ensures Profile(None, username, Number(2)) == Err(AnonymousViewer)
    {
    }

    /** `post_detail`: the post and its comments, newest first, or not found. */
    function PostDetail(pid: PostId): (r: Option<PostPage>)
      reads this
      ensures r.None? <==> pid !in PostIds()
      ensures r.Some? ==> r.value.post in posts && r.value.post.id == pid
      ensures r.Some? ==> r.value.comments == CommentsOf(comments, pid)
    {
      match FindPost(pid)
      case None => None
      case Some(p) =>
        Some(PostPage(p, CommentsOf(comments, pid)))
    }

    /** The whole follow feed of `u` before pagination: the join, newest first. */
    function FollowFeed(u: UserId): (r: seq<Post>)
      reads this
      ensures forall p :: p in r <==> p in posts && EdgeCount(follows, u, p.author) > 0
      ensures Seqs.SortedDesc(r, PubDate)
    {
      var rows := FeedRows(posts, follows, u);
      var r := PostsNewestFirst(rows);
      assert forall p :: p in r <==> p in multiset(rows);
      assert forall p: Post :: Follow(u, p.author) in follows <==> EdgeCount(follows, u, p.author) > 0;
      r
    }

    /** `follow_index`: one page of the follow feed. */
    function FollowIndex(u: UserId, q: PageQuery): (r: Page<Post>)
      reads this
      ensures r == GetPage(FollowFeed(u), postsPerPage, q)
      ensures |r.items| <= postsPerPage
      ensures forall p :: p in r.items ==> p in posts && EdgeCount(follows, u, p.author) > 0
      ensures Seqs.SortedDesc(r.items, PubDate)
    {
      var rows := FeedRows(posts, follows, u);
      assert forall p: Post :: Follow(u, p.author) in follows <==> EdgeCount(follows, u, p.author) > 0;
      Listing(rows, postsPerPage, q)
    }

    /** With no duplicate Follow rows, the feed lists each post of a followed author exactly once. */
    lemma FollowFeedExactlyOnce(u: UserId)
      requires NoDuplicateEdges(follows)
      ensures multiset(FollowFeed(u)) == multiset(Seqs.Filter(posts, AuthorFollowedBy(follows, u)))
    {
      FeedRowsWithoutDuplicates(posts, follows, u);
    }

    /**
      One post more than a page, all in one group and by one author: the
      index, the group's page and the author's profile each show a full first
      page and a second page of one post. The profile is the corrected one,
      for any viewer: the test's client does not sign in.
    */
    lemma ListingsOverflowToSecondPage(slug: string, username: string, viewer: Option<UserId>)
      requires |posts| == postsPerPage + 1
      requires FindGroup(slug).Some? && forall p :: p in posts ==> p.group == Some(FindGroup(slug).value.id)
      requires FindUser(username).Some? && forall p :: p in posts ==> p.author == FindUser(username).value.id
      ensures |Index(Missing).items| == postsPerPage && |Index(Number(2)).items| == 1
      ensures GroupPosts(slug, Missing).Some? && |GroupPosts(slug, Missing).value.page.items| == postsPerPage
      ensures GroupPosts(slug, Number(2)).Some? && |GroupPosts(slug, Number(2)).value.page.items| == 1
      ensures ProfileForAnyViewer(viewer, username, Missing).Some?
      ensures |ProfileForAnyViewer(viewer, username, Missing).value.page.items| == postsPerPage
      ensures ProfileForAnyViewer(viewer, username, Number(2)).Some?
      ensures |ProfileForAnyViewer(viewer, username, Number(2)).value.page.items| == 1
    {
      ListingOverflow(posts, postsPerPage);
      Seqs.FilterAll(posts, InGroup(FindGroup(slug).value.id));
      Seqs.FilterAll(posts, ByAuthor(FindUser(username).value.id));
    }

    // -------------------------------------------------------------------------
    // Handlers that write

    /** `post_create`: a valid form stores one new post by the caller. */
    method PostCreate(caller: User, input: PostInput, imageValid: bool, now: int) returns (r: Response)
      requires Valid() && caller in users
      modifies this
      ensures Valid()
      ensures PostFormValid(input, imageValid, old(GroupIds())) ==>
        posts == old(posts) + [Post(old(nextPostId), Strip(input.text), now, caller.id, input.group, CleanedImage(input.image, None))] &&
        nextPostId == old(nextPostId) + 1 &&
        r == Redirect(ProfilePage(caller.username))
      ensures !PostFormValid(input, imageValid, old(GroupIds())) ==>
        posts == old(posts) && nextPostId == old(nextPostId) && r == ShowForm
      ensures users == old(users) && groups == old(groups) && comments == old(comments) && follows == old(follows)
      ensures nextGroupId == old(nextGroupId) && nextCommentId == old(nextCommentId)
    {
      if !PostFormValid(input, imageValid, GroupIds()) {
        return ShowForm;
      }
      // `form.save(commit=False)` on a fresh row, then the author
      var post := SavePost(input, Post(nextPostId, [], now, caller.id, None, None));
      PostAppendKeepsConsistency(users, groups, posts, comments, follows, nextGroupId, nextPostId, nextCommentId, post);
      posts := posts + [post];
      nextPostId := nextPostId + 1;
      r := Redirect(ProfilePage(caller.username));
    }

    /**
      `post_edit`: only the author may edit; another user is sent to the post
      page and nothing changes.
    */
    method PostEdit(caller: User, pid: PostId, input: PostInput, imageValid: bool) returns (r: Response)
      requires Valid() && caller in users
      modifies this
      ensures Valid()
      ensures old(FindPost(pid)).None? ==> r == NotFound && posts == old(posts)
      ensures old(FindPost(pid)).Some? && old(FindPost(pid)).value.author != caller.id ==>
        r == Redirect(PostDetailPage(pid)) && posts == old(posts)
      ensures old(FindPost(pid)).Some? && old(FindPost(pid)).value.author == caller.id ==>
        if PostFormValid(input, imageValid, old(GroupIds())) then
          r == Redirect(PostDetailPage(pid)) && posts == EditPost(old(posts), pid, input)
        else
          r == ShowForm && posts == old(posts)
      ensures users == old(users) && groups == old(groups) && comments == old(comments) && follows == old(follows)
      ensures nextGroupId == old(nextGroupId) && nextPostId == old(nextPostId) && nextCommentId == old(nextCommentId)
    {
      var found := FindPost(pid);
      if found.None? {
        return NotFound;
      }
      if found.value.author != caller.id {
        return Redirect(PostDetailPage(pid));
      }
      if !PostFormValid(input, imageValid, GroupIds()) {
        return ShowForm;
      }
      assert forall p: Post :: SamePostField(SavePost(input, p), p, PkField) && SamePostField(SavePost(input, p), p, AuthorField);
      PostRewriteKeepsConsistency(
        users, groups, posts, comments, follows, nextGroupId, nextPostId, nextCommentId, ApplyEdit(pid, input));
      posts := Seqs.Apply(posts, ApplyEdit(pid, input));
      r := Redirect(PostDetailPage(pid));
    }

    /**
      `add_comment`: a text that the comment form accepts (stripped, then
      longer than the minimum) is stored, stripped, as one comment by the
      caller on the post; either way the browser goes to the post page.
    */
    method AddComment(caller: User, pid: PostId, text: Option<string>, now: int) returns (r: Response)
      requires Valid() && caller in users
      modifies this
      ensures Valid()
      ensures old(FindPost(pid)).None? ==> r == NotFound
      ensures old(FindPost(pid)).Some? ==> r == Redirect(PostDetailPage(pid))
      ensures old(FindPost(pid)).Some? && CommentFormValid(text, numOfLetters) ==>
        comments == old(comments) + [Comment(old(nextCommentId), pid, caller.id, Strip(text.value), now)] &&
        nextCommentId == old(nextCommentId) + 1
      ensures !(old(FindPost(pid)).Some? && CommentFormValid(text, numOfLetters)) ==>
        comments == old(comments) && nextCommentId == old(nextCommentId)
      ensures users == old(users) && groups == old(groups) && posts == old(posts) && follows == old(follows)
      ensures nextGroupId == old(nextGroupId) && nextPostId == old(nextPostId)
    {
      var found := FindPost(pid);
      if found.None? {
        return NotFound;
      }
      if CommentFormValid(text, numOfLetters) {
        // `form.save(commit=False)` on a fresh row, then the author and the post
        var comment := SaveComment(Strip(text.value), Comment(nextCommentId, pid, caller.id, [], now));
        CommentAppendKeepsConsistency(
          users, groups, posts, comments, follows, nextGroupId, nextPostId, nextCommentId, comment);
        comments := comments + [comment];
        nextCommentId := nextCommentId + 1;
      }
      r := Redirect(PostDetailPage(pid));
    }

    /**
      `profile_follow`: `get_or_create` of the edge from the caller to the user
      with this username, unless that user is the caller. `get_or_create`
      fails when two or more such rows are already stored.
    */
    method ProfileFollow(caller: User, username: string) returns (r: Response)
      requires Valid() && caller in users
      modifies this
      ensures Valid()
      ensures old(FindUser(username)).None? ==> r == NotFound && follows == old(follows)
      ensures old(FindUser(username)).Some? ==>
        var a := old(FindUser(username)).value;
        if a.id != caller.id && EdgeCount(old(follows), caller.id, a.id) > 1 then
          r == ServerError && follows == old(follows)
        else
          r == Redirect(ProfilePage(username)) && follows == FollowEdges(old(follows), caller.id, a.id)
      ensures NoDuplicateEdges(old(follows)) ==> NoDuplicateEdges(follows)
      ensures users == old(users) && groups == old(groups) && posts == old(posts) && comments == old(comments)
      ensures nextGroupId == old(nextGroupId) && nextPostId == old(nextPostId) && nextCommentId == old(nextCommentId)
    {
      var found := FindUser(username);
      if found.None? {
        return NotFound;
      }
      var author := found.value;
      if author.id != caller.id {
        var count := multiset(follows)[Follow(caller.id, author.id)];
        if count > 1 {
          return ServerError;
        }
        if NoDuplicateEdges(follows) {
          FollowKeepsNoDuplicates(follows, caller.id, author.id);
        }
        FollowsChangeKeepsConsistency(users, groups, posts, comments, follows, nextGroupId, nextPostId, nextCommentId,
          FollowEdges(follows, caller.id, author.id));
        follows := FollowEdges(follows, caller.id, author.id);
      }
      r := Redirect(ProfilePage(username));
    }

    /**
      `profile_unfollow`: deletes every edge from the caller to a user with this
      username; an unknown username or a missing edge is no error.
    */
    method ProfileUnfollow(caller: User, username: string) returns (r: Response)
      requires Valid() && caller in users
      modifies this
      ensures Valid()
      ensures r == Redirect(ProfilePage(username))
      ensures follows ==
        UnfollowEdges(old(follows), caller.id, set u | u in old(users) && u.username == username :: u.id)
      ensures NoDuplicateEdges(old(follows)) ==> NoDuplicateEdges(follows)
      ensures users == old(users) && groups == old(groups) && posts == old(posts) && comments == old(comments)
      ensures nextGroupId == old(nextGroupId) && nextPostId == old(nextPostId) && nextCommentId == old(nextCommentId)
    {
      var targets := set u | u in users && u.username == username :: u.id;
      FollowsChangeKeepsConsistency(users, groups, posts, comments, follows, nextGroupId, nextPostId, nextCommentId,
        UnfollowEdges(follows, caller.id, targets));
      if NoDuplicateEdges(follows) {
        SelectionKeepsNoDuplicates(follows, KeepUnlessUnfollowed(caller.id, targets));
      }
      follows := Seqs.Retain(follows, KeepUnlessUnfollowed(caller.id, targets));
      r := Redirect(ProfilePage(username));
    }

    // -------------------------------------------------------------------------
    // Deletions governed by the foreign keys' `on_delete` policies

    /** Creating a group (administration); the slug must be new. */
    method CreateGroup(title: string, slug: string, description: string) returns (r: Result<GroupId, IntegrityError>)
      requires Valid()
      modifies this
      ensures Valid()
      ensures (exists g :: g in old(groups) && g.slug == slug) ==>
        r == Err(SlugTaken) && groups == old(groups) && nextGroupId == old(nextGroupId)
      ensures (forall g :: g in old(groups) ==> g.slug != slug) ==>
        r == Ok(old(nextGroupId)) &&
        groups == old(groups) + [Group(old(nextGroupId), title, slug, description)] &&
        nextGroupId == old(nextGroupId) + 1
      ensures users == old(users) && posts == old(posts) && comments == old(comments) && follows == old(follows)
      ensures nextPostId == old(nextPostId) && nextCommentId == old(nextCommentId)
    {
      var found := FindGroup(slug);
      if found.Some? {
        return Err(SlugTaken);
      }
      var g := Group(nextGroupId, title, slug, description);
      GroupAppendKeepsConsistency(users, groups, posts, comments, follows, nextGroupId, nextPostId, nextCommentId, g);
      groups := groups + [g];
      nextGroupId := nextGroupId + 1;
      r := Ok(g.id);
    }

    /**
      Deleting a user: their posts, their comments, the comments on their posts
      and every follow edge from or to them go too.
    */
    method DeleteUser(uid: UserId)
      requires Valid()
      modifies this
      ensures Valid()
      ensures users == Seqs.Filter(old(users), UserSurvives(uid))
      ensures posts == Seqs.Filter(old(posts), PostSurvivesUser(uid))
      ensures comments == Seqs.Filter(old(comments), CommentSurvivesUser(uid, PostIdsBy(old(posts), uid)))
      ensures follows == Seqs.Filter(old(follows), FollowSurvivesUser(uid))
      ensures NoDuplicateEdges(old(follows)) ==> NoDuplicateEdges(follows)
      ensures groups == old(groups)
      ensures nextGroupId == old(nextGroupId) && nextPostId == old(nextPostId) && nextCommentId == old(nextCommentId)
    {
      UserDeletionKeepsConsistency(users, groups, posts, comments, follows, nextGroupId, nextPostId, nextCommentId, uid);
      if NoDuplicateEdges(follows) {
        SelectionKeepsNoDuplicates(follows, FollowSurvivesUser(uid));
      }
      var doomed := PostIdsBy(posts, uid);
      var us := Seqs.Retain(users, UserSurvives(uid));
      var ps := Seqs.Retain(posts, PostSurvivesUser(uid));
      var cs := Seqs.Retain(comments, CommentSurvivesUser(uid, doomed));
      var fs := Seqs.Retain(follows, FollowSurvivesUser(uid));
      SetRows(us, groups, ps, cs, fs);
    }

    /** Writes the tables back in one step. */
    method SetRows(us: seq<User>, gs: seq<Group>, ps: seq<Post>, cs: seq<Comment>, fs: seq<Follow>)
      modifies this
      ensures users == us && groups == gs && posts == ps && comments == cs && follows == fs
      ensures nextGroupId == old(nextGroupId) && nextPostId == old(nextPostId) && nextCommentId == old(nextCommentId)
    {
      users, groups, posts, comments, follows := us, gs, ps, cs, fs;
    }

    /** Deleting a post deletes its comments. */
    method DeletePost(pid: PostId)
      requires Valid()
      modifies this
      ensures Valid()
      ensures posts == Seqs.Filter(old(posts), PostSurvivesPost(pid))
      ensures comments == Seqs.Filter(old(comments), CommentSurvivesPost(pid))
      ensures users == old(users) && groups == old(groups) && follows == old(follows)
      ensures nextGroupId == old(nextGroupId) && nextPostId == old(nextPostId) && nextCommentId == old(nextCommentId)
    {
      PostDeletionKeepsConsistency(users, groups, posts, comments, follows, nextGroupId, nextPostId, nextCommentId, pid);
      var ps := Seqs.Retain(posts, PostSurvivesPost(pid));
      var cs := Seqs.Retain(comments, CommentSurvivesPost(pid));
      SetRows(users, groups, ps, cs, follows);
    }

    /** Deleting a group keeps its posts and sets their group to none. */
    method DeleteGroup(gid: GroupId)
      requires Valid()
      modifies this
      ensures Valid()
      ensures groups == Seqs.Filter(old(groups), GroupSurvives(gid))
      ensures posts == Seqs.Map(old(posts), DetachFromGroup(gid))
      ensures users == old(users) && comments == old(comments) && follows == old(follows)
      ensures nextGroupId == old(nextGroupId) && nextPostId == old(nextPostId) && nextCommentId == old(nextCommentId)
    {
      GroupDeletionKeepsConsistency(users, groups, posts, comments, follows, nextGroupId, nextPostId, nextCommentId, gid);
      var gs := Seqs.Retain(groups, GroupSurvives(gid));
      var ps := Seqs.Apply(posts, DetachFromGroup(gid));
      SetRows(users, gs, ps, comments, follows);
    }
  }
}
