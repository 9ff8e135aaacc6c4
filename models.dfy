/**
  The rows of the blog's tables (users, groups, posts, comments, follow edges),
  their string forms, their default orderings and the deletion policies of
  their foreign keys.
*/
module Models {
  import opened Wrappers
  import Seqs

  type UserId = nat
  type GroupId = nat
  type PostId = nat
  type CommentId = nat

  /** The stored path of an uploaded image; the file itself is not modelled. */
  type Image = string

  /** A user of the platform's own user table: only what the posts app reads. */
  datatype User = User(id: UserId, username: string)

  datatype Group = Group(id: GroupId, title: string, slug: string, description: string)

  datatype Post = Post(
    id: PostId,
    text: string,
    pubDate: int,
    author: UserId,
    group: Option<GroupId>,
    image: Option<Image>)

  datatype Comment = Comment(id: CommentId, post: PostId, author: UserId, text: string, created: int)

  /** A directed edge: `user` follows `author`. The row has no attributes of its own. */
  datatype Follow = Follow(user: UserId, author: UserId)

  // ---------------------------------------------------------------------------
  // String forms

  /** `str(group)`. */
  function GroupStr(g: Group): (s: string)
    ensures s == g.title
  {
    g.title
  }

  /** `str(post)`: the whole text, not a prefix of it. */
  function PostStr(p: Post): (s: string)
    ensures |s| == |p.text|
    ensures forall i :: 0 <= i < |s| ==> s[i] == p.text[i]
  {
    p.text
  }

  /** `str(post)` agrees with the first `n` characters of the text exactly when the text is that short. */
  lemma PostStrIsNotTruncated(p: Post, n: nat)
    ensures PostStr(p) == p.text[..if |p.text| < n then |p.text| else n] <==> |p.text| <= n
  {
    if |p.text| > n {
      assert |p.text[..n]| == n < |PostStr(p)|;
    }
  }

  // ---------------------------------------------------------------------------
  // Default orderings: posts by '-pub_date', comments by '-created'

  function PubDate(p: Post): int { p.pubDate }

  function Created(c: Comment): int { c.created }

  /** Posts newest first; posts with the same date keep their table order. */
  function PostsNewestFirst(ps: seq<Post>): (r: seq<Post>)
    ensures Seqs.SortedDesc(r, PubDate)
    ensures multiset(r) == multiset(ps)
    ensures |r| == |ps|
  {
    var r := Seqs.SortDesc(ps, PubDate);
    assert |r| == |multiset(r)|;
    r
  }

  /** Comments newest first; comments with the same date keep their table order. */
  function CommentsNewestFirst(cs: seq<Comment>): (r: seq<Comment>)
    ensures Seqs.SortedDesc(r, Created)
    ensures multiset(r) == multiset(cs)
  {
    Seqs.SortDesc(cs, Created)
  }

  // ---------------------------------------------------------------------------
  // Deletion policies, as the rows that survive a deletion

  /** Post.author is CASCADE: a user's posts go with the user. */
  function PostSurvivesUser(uid: UserId): Post -> bool {
    (p: Post) => p.author != uid
  }

  /**
    Comment.author is CASCADE, and Comment.post is CASCADE through the posts that
    go with the user, whose ids are `doomed`.
  */
  function CommentSurvivesUser(uid: UserId, doomed: set<PostId>): Comment -> bool {
    (c: Comment) => c.author != uid && c.post !in doomed
  }

  /** Ids of the posts written by `uid`: those that go with the user. */
  function PostIdsBy(ps: seq<Post>, uid: UserId): (r: set<PostId>)
    ensures forall p :: p in ps && p.author == uid ==> p.id in r
    ensures forall id :: id in r ==> exists p :: p in ps && p.author == uid && p.id == id
  {
    set p | p in ps && p.author == uid :: p.id
  }

  /** Follow.user and Follow.author are both CASCADE. */
  function FollowSurvivesUser(uid: UserId): Follow -> bool {
    (f: Follow) => f.user != uid && f.author != uid
  }

  function UserSurvives(uid: UserId): User -> bool {
    (u: User) => u.id != uid
  }

  function PostSurvivesPost(pid: PostId): Post -> bool {
    (p: Post) => p.id != pid
  }

  /** Comment.post is CASCADE: a post's comments go with the post. */
  function CommentSurvivesPost(pid: PostId): Comment -> bool {
    (c: Comment) => c.post != pid
  }

  function GroupSurvives(gid: GroupId): Group -> bool {
    (g: Group) => g.id != gid
  }

  /** Post.group is SET_NULL: a post of a deleted group stays, without a group. */
  function DetachFromGroup(gid: GroupId): Post -> Post {
    (p: Post) => if p.group == Some(gid) then p.(group := None) else p
  }

  /** Deleting group `gid` touches no field but `group`, and only on that group's posts. */
  lemma DetachKeepsPost(gid: GroupId, p: Post)
    ensures DetachFromGroup(gid)(p).group == if p.group == Some(gid) then None else p.group
    ensures DetachFromGroup(gid)(p) == p.(group := DetachFromGroup(gid)(p).group)
  {
  }

  // ---------------------------------------------------------------------------
  // Follow edges

  /** How many Follow rows say that `u` follows `a`. */
  function EdgeCount(fs: seq<Follow>, u: UserId, a: UserId): nat {
    multiset(fs)[Follow(u, a)]
  }

  /** No Follow row is stored twice. */
  ghost predicate NoDuplicateEdges(fs: seq<Follow>) {
    forall f :: multiset(fs)[f] <= 1
  }

  /**
    The table after `profile_follow` by `u` of `a` (when `get_or_create` succeeds):
    a new edge is added only for another user and only when none exists yet.
  */
  function FollowEdges(fs: seq<Follow>, u: UserId, a: UserId): (r: seq<Follow>)
    ensures u == a ==> r == fs
    ensures u != a ==> EdgeCount(r, u, a) == if EdgeCount(fs, u, a) == 0 then 1 else EdgeCount(fs, u, a)
    ensures forall f :: f != Follow(u, a) ==> multiset(r)[f] == multiset(fs)[f]
  {
    if u == a || EdgeCount(fs, u, a) > 0 then fs else fs + [Follow(u, a)]
  }

  /** Following oneself stores nothing. */
  lemma SelfFollowStoresNothing(fs: seq<Follow>, u: UserId)
    ensures FollowEdges(fs, u, u) == fs
    ensures EdgeCount(FollowEdges(fs, u, u), u, u) == EdgeCount(fs, u, u)
  {
  }

  /** Following again changes nothing. */
  lemma FollowIdempotent(fs: seq<Follow>, u: UserId, a: UserId)
    ensures FollowEdges(FollowEdges(fs, u, a), u, a) == FollowEdges(fs, u, a)
  {
  }

  /** From no edge, one follow (or any number of them) leaves exactly one. */
  lemma FollowGivesOneEdge(fs: seq<Follow>, u: UserId, a: UserId)
    requires u != a && EdgeCount(fs, u, a) == 0
    ensures EdgeCount(FollowEdges(fs, u, a), u, a) == 1
    ensures EdgeCount(FollowEdges(FollowEdges(fs, u, a), u, a), u, a) == 1
  {
  }

  /** Following never creates a duplicate row. */
  lemma FollowKeepsNoDuplicates(fs: seq<Follow>, u: UserId, a: UserId)
    requires NoDuplicateEdges(fs)
    ensures NoDuplicateEdges(FollowEdges(fs, u, a))
  {
    var r := FollowEdges(fs, u, a);
    forall f ensures multiset(r)[f] <= 1 {
      if f == Follow(u, a) && u != a {
        assert EdgeCount(r, u, a) == multiset(r)[f];
      }
    }
  }

  /**
    `profile_unfollow` by `u` of the users `targets` (those with the requested
    username): the edges from `u` to them are selected away.
  */
  function KeepUnlessUnfollowed(u: UserId, targets: set<UserId>): Follow -> bool {
    (f: Follow) => !(f.user == u && f.author in targets)
  }

  function UnfollowEdges(fs: seq<Follow>, u: UserId, targets: set<UserId>): (r: seq<Follow>)
    ensures forall a :: a in targets ==> EdgeCount(r, u, a) == 0
    ensures forall f :: f in r <==> f in fs && !(f.user == u && f.author in targets)
  {
    var r := Seqs.Filter(fs, KeepUnlessUnfollowed(u, targets));
    assert forall a :: a in targets ==> Follow(u, a) !in r;
    r
  }

  /** Unfollowing removes every edge in question, however many were stored. */
  lemma {:induction false} UnfollowRemovesAll(fs: seq<Follow>, u: UserId, a: UserId)
    ensures EdgeCount(UnfollowEdges(fs, u, {a}), u, a) == 0
    ensures forall f :: f != Follow(u, a) ==> multiset(UnfollowEdges(fs, u, {a}))[f] == multiset(fs)[f]
    decreases |fs|
  {
    if fs != [] {
      var init, last := fs[..|fs| - 1], fs[|fs| - 1];
      assert fs == init + [last];
      UnfollowRemovesAll(init, u, a);
      assert UnfollowEdges(fs, u, {a})
          == UnfollowEdges(init, u, {a}) + (if KeepUnlessUnfollowed(u, {a})(last) then [last] else []);
    }
  }

  /** Deleting follow rows, by unfollowing or by a cascade, never makes a row occur twice. */
  lemma SelectionKeepsNoDuplicates(fs: seq<Follow>, keep: Follow -> bool)
    requires NoDuplicateEdges(fs)
    ensures NoDuplicateEdges(Seqs.Filter(fs, keep))
  {
    forall f ensures multiset(Seqs.Filter(fs, keep))[f] <= 1 {
      Seqs.FilterCount(fs, keep, f);
    }
  }

  /** An unknown username, or no edge to that user, makes unfollowing a no-op. */
  lemma UnfollowWithoutEdgeIsNoop(fs: seq<Follow>, u: UserId, targets: set<UserId>)
    requires forall a :: a in targets ==> EdgeCount(fs, u, a) == 0
    ensures UnfollowEdges(fs, u, targets) == fs
  {
    forall f | f in fs ensures KeepUnlessUnfollowed(u, targets)(f) {
      assert multiset(fs)[f] > 0;
    }
    Seqs.FilterAll(fs, KeepUnlessUnfollowed(u, targets));
  }

  /** Following then unfollowing the same user leaves no edge between them. */
  lemma FollowThenUnfollow(fs: seq<Follow>, u: UserId, a: UserId)
    ensures EdgeCount(UnfollowEdges(FollowEdges(fs, u, a), u, {a}), u, a) == 0
  {
  }

  // ---------------------------------------------------------------------------
  // The follow feed

  /** `n` copies of `p`. */
  function Repeat(p: Post, n: nat): (r: seq<Post>)
    ensures |r| == n && forall q :: q in r ==> q == p
  {
    if n == 0 then [] else [p] + Repeat(p, n - 1)
  }

  /**
    The rows of `Post.objects.filter(author__following__user=u)` before ordering:
    the join yields each post once per Follow row from `u` to its author.
  */
  function FeedRows(ps: seq<Post>, fs: seq<Follow>, u: UserId): (r: seq<Post>)
    ensures forall p :: p in r <==> p in ps && Follow(u, p.author) in fs
  {
    if ps == [] then []
    else
      var init, last := ps[..|ps| - 1], ps[|ps| - 1];
      assert ps == init + [last];
      assert Follow(u, last.author) in fs <==> EdgeCount(fs, u, last.author) > 0;
      FeedRows(init, fs, u) + Repeat(last, EdgeCount(fs, u, last.author))
  }

  function AuthorFollowedBy(fs: seq<Follow>, u: UserId): Post -> bool {
    (p: Post) => Follow(u, p.author) in fs
  }

  /** Without duplicate edges the join lists each followed author's post exactly once. */
  lemma {:induction false} FeedRowsWithoutDuplicates(ps: seq<Post>, fs: seq<Follow>, u: UserId)
    requires NoDuplicateEdges(fs)
    ensures FeedRows(ps, fs, u) == Seqs.Filter(ps, AuthorFollowedBy(fs, u))
    decreases |ps|
  {
    if ps != [] {
      var init, last := ps[..|ps| - 1], ps[|ps| - 1];
      assert ps == init + [last];
      FeedRowsWithoutDuplicates(init, fs, u);
      var n := EdgeCount(fs, u, last.author);
      assert n <= 1;
      assert Follow(u, last.author) in fs <==> n > 0;
      assert Repeat(last, n) == if AuthorFollowedBy(fs, u)(last) then [last] else [];
    }
  }
}
