/**
  The database's constraints: primary keys are unique, `Group.slug` is unique,
  and every foreign key names an existing row. The lemmas here show that the
  deletion policies of the foreign keys (CASCADE and SET_NULL) keep them.
*/
module Integrity {
  import opened Wrappers
  import opened Models
  import Seqs

  function UserKey(u: User): UserId { u.id }
  function UsernameKey(u: User): string { u.username }
  function GroupKey(g: Group): GroupId { g.id }
  function SlugKey(g: Group): string { g.slug }
  function PostKey(p: Post): PostId { p.id }
  function CommentKey(c: Comment): CommentId { c.id }

  function UserIdsOf(us: seq<User>): set<UserId> { Seqs.Keys(us, UserKey) }
  function GroupIdsOf(gs: seq<Group>): set<GroupId> { Seqs.Keys(gs, GroupKey) }
  function PostIdsOf(ps: seq<Post>): set<PostId> { Seqs.Keys(ps, PostKey) }

  /** Users have distinct ids and distinct usernames. */
  ghost predicate UsersWellFormed(us: seq<User>) {
    Seqs.KeysUnique(us, UserKey) && Seqs.KeysUnique(us, UsernameKey)
  }

  /** `Group.slug` is unique: no two groups share a slug. */
  ghost predicate SlugsUnique(gs: seq<Group>) {
    Seqs.KeysUnique(gs, SlugKey)
  }

  ghost predicate GroupsWellFormed(gs: seq<Group>, nextId: nat) {
    Seqs.KeysUnique(gs, GroupKey) && SlugsUnique(gs) && forall g :: g in gs ==> g.id < nextId
  }

  ghost predicate PostsWellFormed(ps: seq<Post>, userIds: set<UserId>, groupIds: set<GroupId>, nextId: nat) {
    Seqs.KeysUnique(ps, PostKey) &&
    forall p :: p in ps ==>
      p.id < nextId && p.author in userIds && (p.group.Some? ==> p.group.value in groupIds)
  }

  ghost predicate CommentsWellFormed(cs: seq<Comment>, postIds: set<PostId>, userIds: set<UserId>, nextId: nat) {
    Seqs.KeysUnique(cs, CommentKey) &&
    forall c :: c in cs ==> c.id < nextId && c.post in postIds && c.author in userIds
  }

  ghost predicate FollowsWellFormed(fs: seq<Follow>, userIds: set<UserId>) {
    forall f :: f in fs ==> f.user in userIds && f.author in userIds
  }

  /** All tables together; the `next…` arguments are the keys the database hands out next. */
  ghost predicate Consistent(
    us: seq<User>, gs: seq<Group>, ps: seq<Post>, cs: seq<Comment>, fs: seq<Follow>,
    nextGroupId: nat, nextPostId: nat, nextCommentId: nat)
  {
    UsersWellFormed(us) && GroupsWellFormed(gs, nextGroupId) &&
    PostsWellFormed(ps, UserIdsOf(us), GroupIdsOf(gs), nextPostId) &&
    CommentsWellFormed(cs, PostIdsOf(ps), UserIdsOf(us), nextCommentId) &&
    FollowsWellFormed(fs, UserIdsOf(us))
  }

  /** A selection keeps every key whose row it keeps. */
  lemma KeysSurvive<T(!new), K(!new)>(s: seq<T>, keep: T -> bool, key: T -> K, gone: K -> bool)
    requires forall x :: x in s && !gone(key(x)) ==> keep(x)
    ensures forall k :: k in Seqs.Keys(s, key) && !gone(k) ==> k in Seqs.Keys(Seqs.Filter(s, keep), key)
  {
    forall k | k in Seqs.Keys(s, key) && !gone(k) ensures k in Seqs.Keys(Seqs.Filter(s, keep), key) {
      var x :| x in s && key(x) == k;
      assert x in Seqs.Filter(s, keep);
    }
  }

  /**
    Deleting user `uid` with CASCADE on Post.author, Comment.author,
    Comment.post, Follow.user and Follow.author leaves no dangling reference.
  */
  lemma UserDeletionKeepsConsistency(
    us: seq<User>, gs: seq<Group>, ps: seq<Post>, cs: seq<Comment>, fs: seq<Follow>,
    ng: nat, np: nat, nc: nat, uid: UserId)
    requires Consistent(us, gs, ps, cs, fs, ng, np, nc)
    ensures Consistent(
      Seqs.Filter(us, UserSurvives(uid)), gs,
      Seqs.Filter(ps, PostSurvivesUser(uid)),
      Seqs.Filter(cs, CommentSurvivesUser(uid, PostIdsBy(ps, uid))),
      Seqs.Filter(fs, FollowSurvivesUser(uid)),
      ng, np, nc)
  {
    var doomed := PostIdsBy(ps, uid);
    Seqs.FilterKeepsKeysUnique(us, UserSurvives(uid), UserKey);
    Seqs.FilterKeepsKeysUnique(us, UserSurvives(uid), UsernameKey);
    Seqs.FilterKeepsKeysUnique(ps, PostSurvivesUser(uid), PostKey);
    Seqs.FilterKeepsKeysUnique(cs, CommentSurvivesUser(uid, doomed), CommentKey);
    KeysSurvive(us, UserSurvives(uid), UserKey, (k: UserId) => k == uid);
    KeysSurvive(ps, PostSurvivesUser(uid), PostKey, (k: PostId) => k in doomed);
  }

  /** Deleting post `pid` with CASCADE on Comment.post leaves no dangling reference. */
  lemma PostDeletionKeepsConsistency(
    us: seq<User>, gs: seq<Group>, ps: seq<Post>, cs: seq<Comment>, fs: seq<Follow>,
    ng: nat, np: nat, nc: nat, pid: PostId)
    requires Consistent(us, gs, ps, cs, fs, ng, np, nc)
    ensures Consistent(
      us, gs, Seqs.Filter(ps, PostSurvivesPost(pid)), Seqs.Filter(cs, CommentSurvivesPost(pid)), fs, ng, np, nc)
  {
    Seqs.FilterKeepsKeysUnique(ps, PostSurvivesPost(pid), PostKey);
    Seqs.FilterKeepsKeysUnique(cs, CommentSurvivesPost(pid), CommentKey);
    KeysSurvive(ps, PostSurvivesPost(pid), PostKey, (k: PostId) => k == pid);
  }

  /** Deleting group `gid` with SET_NULL on Post.group leaves no dangling reference and loses no post. */
  lemma GroupDeletionKeepsConsistency(
    us: seq<User>, gs: seq<Group>, ps: seq<Post>, cs: seq<Comment>, fs: seq<Follow>,
    ng: nat, np: nat, nc: nat, gid: GroupId)
    requires Consistent(us, gs, ps, cs, fs, ng, np, nc)
    ensures PostIdsOf(Seqs.Map(ps, DetachFromGroup(gid))) == PostIdsOf(ps)
    ensures Consistent(
      us, Seqs.Filter(gs, GroupSurvives(gid)), Seqs.Map(ps, DetachFromGroup(gid)), cs, fs, ng, np, nc)
  {
    var gs' := Seqs.Filter(gs, GroupSurvives(gid));
    var ps' := Seqs.Map(ps, DetachFromGroup(gid));
    Seqs.FilterKeepsKeysUnique(gs, GroupSurvives(gid), GroupKey);
    Seqs.FilterKeepsKeysUnique(gs, GroupSurvives(gid), SlugKey);
    KeysSurvive(gs, GroupSurvives(gid), GroupKey, (k: GroupId) => k == gid);
    Seqs.MapKeys(ps, DetachFromGroup(gid), PostKey);
    forall p | p in ps'
      ensures p.id < np && p.author in UserIdsOf(us) && (p.group.Some? ==> p.group.value in GroupIdsOf(gs'))
    {
      var i :| 0 <= i < |ps'| && ps'[i] == p;
      assert ps[i] in ps;
    }
  }

  /**
    Rewriting posts in place without touching their ids or authors, and giving
    them only existing groups, leaves no dangling reference.
  */
  lemma PostRewriteKeepsConsistency(
    us: seq<User>, gs: seq<Group>, ps: seq<Post>, cs: seq<Comment>, fs: seq<Follow>,
    ng: nat, np: nat, nc: nat, f: Post -> Post)
    requires Consistent(us, gs, ps, cs, fs, ng, np, nc)
    requires forall p :: f(p).id == p.id && f(p).author == p.author
    requires forall p :: f(p).group == p.group || f(p).group.None? || f(p).group.value in GroupIdsOf(gs)
    ensures PostIdsOf(Seqs.Map(ps, f)) == PostIdsOf(ps)
    ensures Consistent(us, gs, Seqs.Map(ps, f), cs, fs, ng, np, nc)
  {
    var ps' := Seqs.Map(ps, f);
    assert forall p :: PostKey(f(p)) == PostKey(p);
    Seqs.MapKeys(ps, f, PostKey);
    forall p | p in ps'
      ensures p.id < np && p.author in UserIdsOf(us) && (p.group.Some? ==> p.group.value in GroupIdsOf(gs))
    {
      var i :| 0 <= i < |ps'| && ps'[i] == p;
      assert ps[i] in ps;
    }
  }

  /** Storing a new post with the next key, by an existing author and in an existing group or none. */
  lemma PostAppendKeepsConsistency(
    us: seq<User>, gs: seq<Group>, ps: seq<Post>, cs: seq<Comment>, fs: seq<Follow>,
    ng: nat, np: nat, nc: nat, p: Post)
    requires Consistent(us, gs, ps, cs, fs, ng, np, nc)
    requires p.id == np && p.author in UserIdsOf(us) && (p.group.Some? ==> p.group.value in GroupIdsOf(gs))
    ensures PostIdsOf(ps + [p]) == PostIdsOf(ps) + {np}
    ensures Consistent(us, gs, ps + [p], cs, fs, ng, np + 1, nc)
  {
    Seqs.AppendKeepsKeysUnique(ps, p, PostKey);
    Seqs.AppendKeys(ps, p, PostKey);
  }

  /** Storing a new comment with the next key, by an existing user on an existing post. */
  lemma CommentAppendKeepsConsistency(
    us: seq<User>, gs: seq<Group>, ps: seq<Post>, cs: seq<Comment>, fs: seq<Follow>,
    ng: nat, np: nat, nc: nat, c: Comment)
    requires Consistent(us, gs, ps, cs, fs, ng, np, nc)
    requires c.id == nc && c.post in PostIdsOf(ps) && c.author in UserIdsOf(us)
    ensures Consistent(us, gs, ps, cs + [c], fs, ng, np, nc + 1)
  {
    Seqs.AppendKeepsKeysUnique(cs, c, CommentKey);
  }

  /** Storing a new group with the next key and a slug no group has yet. */
  lemma GroupAppendKeepsConsistency(
    us: seq<User>, gs: seq<Group>, ps: seq<Post>, cs: seq<Comment>, fs: seq<Follow>,
    ng: nat, np: nat, nc: nat, g: Group)
    requires Consistent(us, gs, ps, cs, fs, ng, np, nc)
    requires g.id == ng && forall h :: h in gs ==> h.slug != g.slug
    ensures GroupIdsOf(gs + [g]) == GroupIdsOf(gs) + {ng}
    ensures Consistent(us, gs + [g], ps, cs, fs, ng + 1, np, nc)
  {
    Seqs.AppendKeepsKeysUnique(gs, g, GroupKey);
    Seqs.AppendKeepsKeysUnique(gs, g, SlugKey);
    Seqs.AppendKeys(gs, g, GroupKey);
  }

  /** Replacing the follow table by one whose edges join existing users. */
  lemma FollowsChangeKeepsConsistency(
    us: seq<User>, gs: seq<Group>, ps: seq<Post>, cs: seq<Comment>, fs: seq<Follow>,
    ng: nat, np: nat, nc: nat, fs': seq<Follow>)
    requires Consistent(us, gs, ps, cs, fs, ng, np, nc)
    requires forall f :: f in fs' ==> f in fs || (f.user in UserIdsOf(us) && f.author in UserIdsOf(us))
    ensures Consistent(us, gs, ps, cs, fs', ng, np, nc)
  {
  }
}
