/** The integrity the database keeps for the five tables, as a property of
    their contents, and how each kind of write preserves it. */
module Integrity {
  import opened Models
  import opened Collections
  import opened Ordering
  import opened FollowGraph

  /** The whole content of the store: the five tables and the next primary
      key of each table with an auto-increment key. */
  datatype Db = Db(
    users: seq<User>, groups: seq<Group>, posts: seq<Post>,
    comments: seq<Comment>, follows: seq<Follow>,
    nextUserId: nat, nextGroupId: nat, nextPostId: nat, nextCommentId: nat)

  /** Rows are stored in primary-key order, so no key repeats. */
  ghost predicate KeysOrdered(db: Db) {
    && Increasing(db.users, UserKey) && Increasing(db.groups, GroupKey)
    && Increasing(db.posts, PostKey) && Increasing(db.comments, CommentKey)
  }

  /** Every stored key was issued: it is below the next key. */
  ghost predicate KeysIssued(db: Db) {
    && (forall u :: u in db.users ==> u.id < db.nextUserId)
    && (forall g :: g in db.groups ==> g.id < db.nextGroupId)
    && (forall p :: p in db.posts ==> p.id < db.nextPostId)
    && (forall c :: c in db.comments ==> c.id < db.nextCommentId)
  }

  /** Every foreign key names an existing row. The follow table has no
      constraint beyond its two foreign keys. */
  ghost predicate References(db: Db) {
    && (forall p :: p in db.posts ==> p.author in UserIds(db.users))
    && (forall p :: p in db.posts && p.group.Some? ==> p.group.value in GroupIds(db.groups))
    && (forall c :: c in db.comments ==> c.post in PostIds(db.posts) && c.author in UserIds(db.users))
    && (forall f :: f in db.follows ==> f.user in UserIds(db.users) && f.author in UserIds(db.users))
  }

  ghost predicate Consistent(db: Db) {
    KeysOrdered(db) && KeysIssued(db) && UniqueUsernames(db.users) && UniqueSlugs(db.groups) && References(db)
  }

  /** The empty database. */
  lemma EmptyIsConsistent()
    ensures Consistent(Db([], [], [], [], [], 1, 1, 1, 1))
  {
  }

  /** Primary keys of posts are unique, which the default ordering needs to
      be a total order. */
  lemma ConsistentPostsKeyedById(db: Db)
    requires Consistent(db)
    ensures KeyedById(db.posts)
  {
    IncreasingPairs(db.posts, PostKey);
    forall p, q | p in db.posts && q in db.posts && p.id == q.id ensures p == q {
      var i :| 0 <= i < |db.posts| && db.posts[i] == p;
      var j :| 0 <= j < |db.posts| && db.posts[j] == q;
      assert !(i < j) && !(j < i);
    }
  }

  /** A new row keeps every key set: what was there stays there. */
  lemma UserIdsGrow(users: seq<User>, u: User)
    ensures UserIds(users + [u]) == UserIds(users) + {u.id}
  {
    forall id | id in UserIds(users) ensures id in UserIds(users + [u]) {
      var v :| v in users && v.id == id;
      assert v in users + [u];
    }
    assert u in users + [u];
  }

  lemma GroupIdsGrow(groups: seq<Group>, g: Group)
    ensures GroupIds(groups + [g]) == GroupIds(groups) + {g.id}
  {
    forall id | id in GroupIds(groups) ensures id in GroupIds(groups + [g]) {
      var v :| v in groups && v.id == id;
      assert v in groups + [g];
    }
    assert g in groups + [g];
  }

  lemma PostIdsGrow(posts: seq<Post>, p: Post)
    ensures PostIds(posts + [p]) == PostIds(posts) + {p.id}
  {
    forall id | id in PostIds(posts) ensures id in PostIds(posts + [p]) {
      var v :| v in posts && v.id == id;
      assert v in posts + [p];
    }
    assert p in posts + [p];
  }

  /** Registering a user under a free username. */
  lemma AddUserKeepsConsistent(db: Db, name: string)
    requires Consistent(db)
    requires forall u :: u in db.users ==> u.username != name
    ensures Consistent(db.(users := db.users + [User(db.nextUserId, name)],
                           nextUserId := db.nextUserId + 1))
  {
    var u := User(db.nextUserId, name);
    var db' := db.(users := db.users + [u], nextUserId := db.nextUserId + 1);
    assert KeysOrdered(db') by {
      AppendKeepsIncreasing(db.users, u, UserKey);
    }
    assert References(db') by {
      UserIdsGrow(db.users, u);
    }
  }

  /** Creating a group under a free slug. */
  lemma AddGroupKeepsConsistent(db: Db, title: string, slug: string, description: string)
    requires Consistent(db)
    requires forall g :: g in db.groups ==> g.slug != slug
    ensures Consistent(db.(groups := db.groups + [Group(db.nextGroupId, title, slug, description)],
                           nextGroupId := db.nextGroupId + 1))
  {
    var g := Group(db.nextGroupId, title, slug, description);
    var db' := db.(groups := db.groups + [g], nextGroupId := db.nextGroupId + 1);
    assert KeysOrdered(db') by {
      AppendKeepsIncreasing(db.groups, g, GroupKey);
    }
    assert References(db') by {
      GroupIdsGrow(db.groups, g);
    }
  }

  /** Adding a post under the next key, by an existing user, in no group or
      an existing one. */
  lemma AddPostKeepsConsistent(db: Db, p: Post)
    requires Consistent(db)
    requires p.id == db.nextPostId && p.author in UserIds(db.users)
    requires p.group.Some? ==> p.group.value in GroupIds(db.groups)
    ensures Consistent(db.(posts := db.posts + [p], nextPostId := db.nextPostId + 1))
  {
    var db' := db.(posts := db.posts + [p], nextPostId := db.nextPostId + 1);
    assert KeysOrdered(db') by {
      AppendKeepsIncreasing(db.posts, p, PostKey);
    }
    assert References(db') by {
      PostIdsGrow(db.posts, p);
    }
  }

  /** Replacing a post by one with the same key, by an existing user, in no
      group or an existing one. */
  lemma EditPostKeepsConsistent(db: Db, i: nat, e: Post)
    requires Consistent(db)
    requires i < |db.posts| && e.id == db.posts[i].id && e.author in UserIds(db.users)
    requires e.group.Some? ==> e.group.value in GroupIds(db.groups)
    ensures Consistent(db.(posts := db.posts[i := e]))
  {
    UpdateKeepsIncreasing(db.posts, i, e, PostKey);
    ReplaceKeepsPostIds(db.posts, i, e);
  }

  /** Adding a comment under the next key, on an existing post, by an
      existing user. */
  lemma AddCommentKeepsConsistent(db: Db, c: Comment)
    requires Consistent(db)
    requires c.id == db.nextCommentId && c.post in PostIds(db.posts) && c.author in UserIds(db.users)
    ensures Consistent(db.(comments := db.comments + [c], nextCommentId := db.nextCommentId + 1))
  {
    var db' := db.(comments := db.comments + [c], nextCommentId := db.nextCommentId + 1);
    assert KeysOrdered(db') by {
      AppendKeepsIncreasing(db.comments, c, CommentKey);
    }
  }

  /** Adding a follow row between two existing users; no other condition. */
  lemma AddFollowKeepsConsistent(db: Db, f: Follow)
    requires Consistent(db)
    requires f.user in UserIds(db.users) && f.author in UserIds(db.users)
    ensures Consistent(db.(follows := db.follows + [f]))
  {
  }

  /** Deleting any follow rows. */
  lemma DropFollowsKeepsConsistent(db: Db, t: seq<Follow>)
    requires Consistent(db)
    requires forall f :: f in t ==> f in db.follows
    ensures Consistent(db.(follows := t))
  {
  }

  /** Deleting a group and detaching its posts. */
  lemma DeleteGroupKeepsConsistent(db: Db, gid: GroupId, keep: Group -> bool)
    requires Consistent(db)
    requires forall g :: keep(g) <==> g.id != gid
    ensures Consistent(db.(groups := Filter(db.groups, keep), posts := DetachGroup(db.posts, gid)))
  {
    var groups := Filter(db.groups, keep);
    var posts := DetachGroup(db.posts, gid);
    FilterKeepsIncreasing(db.groups, keep, GroupKey);
    SameKeysIncreasing(db.posts, posts, PostKey);
    forall p | p in posts
      ensures p.id < db.nextPostId && p.author in UserIds(db.users)
      ensures p.group.Some? ==> p.group.value in GroupIds(groups)
    {
      var j :| 0 <= j < |posts| && posts[j] == p;
      assert db.posts[j] in db.posts;
      if p.group.Some? {
        var g :| g in db.groups && g.id == p.group.value;
        assert g in groups;
      }
    }
    DetachKeepsPostIds(db.posts, gid);
  }

  /** Deleting a post with the comments on it. */
  lemma DeletePostKeepsConsistent(db: Db, pid: PostId, keepPost: Post -> bool, keepComment: Comment -> bool)
    requires Consistent(db)
    requires forall p :: keepPost(p) <==> p.id != pid
    requires forall c :: keepComment(c) <==> c.post != pid
    ensures Consistent(db.(posts := Filter(db.posts, keepPost), comments := Filter(db.comments, keepComment)))
  {
    var posts := Filter(db.posts, keepPost);
    FilterKeepsIncreasing(db.posts, keepPost, PostKey);
    FilterKeepsIncreasing(db.comments, keepComment, CommentKey);
    forall c | c in Filter(db.comments, keepComment) ensures c.post in PostIds(posts) {
      var q :| q in db.posts && q.id == c.post;
      assert q in posts;
    }
  }

  /** Deleting a user with everything that cascades from it keeps the
      invariant: their posts, the comments they wrote or that are on a
      deleted post, and the follow rows that name them all go. */
  lemma DeleteUserKeepsConsistent(db: Db, uid: UserId,
                                  keepUser: User -> bool, keepPost: Post -> bool,
                                  keepComment: Comment -> bool, follows: seq<Follow>)
    requires Consistent(db)
    requires forall u :: keepUser(u) <==> u.id != uid
    requires forall p :: keepPost(p) <==> p.author != uid
    requires forall c :: keepComment(c) <==> c.author != uid && c.post in PostIds(Filter(db.posts, keepPost))
    requires forall f :: f in follows ==> f in db.follows && f.user != uid && f.author != uid
    ensures Consistent(db.(users := Filter(db.users, keepUser), posts := Filter(db.posts, keepPost),
                           comments := Filter(db.comments, keepComment), follows := follows))
  {
    var users := Filter(db.users, keepUser);
    FilterKeepsIncreasing(db.users, keepUser, UserKey);
    FilterKeepsIncreasing(db.posts, keepPost, PostKey);
    FilterKeepsIncreasing(db.comments, keepComment, CommentKey);
    forall id | id in UserIds(db.users) && id != uid ensures id in UserIds(users) {
      var u :| u in db.users && u.id == id;
      assert u in users;
    }
  }

  /** The database after deleting user `uid` (`on_delete=CASCADE` on
      `Post.author`, `Comment.author`, `Comment.post`, `Follow.user` and
      `Follow.author`): the user, their posts, the comments they wrote or
      that are on a deleted post, and every follow row naming them go;
      nothing else changes, and the invariant is kept. */
  function DeleteUserRows(db: Db, uid: UserId): (r: Db)
    requires Consistent(db)
    ensures Consistent(r)
    ensures forall u :: u in r.users <==> u in db.users && u.id != uid
    ensures forall p :: p in r.posts <==> p in db.posts && p.author != uid
    ensures forall c :: c in r.comments <==> c in db.comments && c.author != uid && c.post in PostIds(r.posts)
    ensures r.follows == DropUserEdges(db.follows, uid)
    ensures uid !in UserIds(r.users)
    ensures r == db.(users := r.users, posts := r.posts, comments := r.comments, follows := r.follows)
  {
    var keepUser := (u: User) => u.id != uid;
    var keepPost := (p: Post) => p.author != uid;
    var posts := Filter(db.posts, keepPost);
    var keptIds := PostIds(posts);
    var keepComment := (c: Comment) => c.author != uid && c.post in keptIds;
    var follows := DropUserEdges(db.follows, uid);
    DeleteUserKeepsConsistent(db, uid, keepUser, keepPost, keepComment, follows);
    db.(users := Filter(db.users, keepUser), posts := posts,
        comments := Filter(db.comments, keepComment), follows := follows)
  }
}
