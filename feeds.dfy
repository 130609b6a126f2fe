/** The four post feeds: every post, the posts of one group, the posts of one
    author, and the posts of the authors a user follows. Each is a filter of
    the post table put into the default order. */
module Feeds {
  import opened Wrappers
  import opened Models
  import opened Collections
  import opened Ordering
  import opened FollowGraph

  /** `group.groups_posts.all()`, before ordering. */
  function GroupPosts(posts: seq<Post>, gid: GroupId): (r: seq<Post>)
    ensures forall p :: multiset(r)[p] == if p.group == Some(gid) then multiset(posts)[p] else 0
    ensures forall p :: p in r <==> p in posts && p.group == Some(gid)
  {
    FilterCounts(posts, (p: Post) => p.group == Some(gid));
    Filter(posts, (p: Post) => p.group == Some(gid))
  }

  /** `author.posts.all()`, before ordering. */
  function AuthorPosts(posts: seq<Post>, uid: UserId): (r: seq<Post>)
    ensures forall p :: multiset(r)[p] == if p.author == uid then multiset(posts)[p] else 0
    ensures forall p :: p in r <==> p in posts && p.author == uid
  {
    FilterCounts(posts, (p: Post) => p.author == uid);
    Filter(posts, (p: Post) => p.author == uid)
  }

  /** `user.follower.values_list('author', flat=True)`: whom `uid` follows. */
  function FollowedAuthors(follows: seq<Follow>, uid: UserId): (a: set<UserId>)
    ensures forall x :: x in a <==> Follow(uid, x) in follows
  {
    set f | f in follows && f.user == uid :: f.author
  }

  /** `Post.objects.filter(author__id__in=authors)`, before ordering. */
  function FollowedPosts(posts: seq<Post>, follows: seq<Follow>, uid: UserId): (r: seq<Post>)
    ensures forall p :: multiset(r)[p] == (if Follow(uid, p.author) in follows then multiset(posts)[p] else 0)
    ensures forall p :: p in r <==> p in posts && Follow(uid, p.author) in follows
  {
    var authors := FollowedAuthors(follows, uid);
    var keep := (p: Post) => p.author in authors;
    FilterCounts(posts, keep);
    Filter(posts, keep)
  }

  /** The home page feed: every post, newest first. */
  function GlobalFeed(posts: seq<Post>): (r: seq<Post>)
    ensures Sorted(r) && multiset(r) == multiset(posts)
  {
    SortPosts(posts)
  }

  /** The group page feed. */
  function GroupFeed(posts: seq<Post>, gid: GroupId): (r: seq<Post>)
    ensures Sorted(r) && multiset(r) == multiset(GroupPosts(posts, gid))
    ensures forall p :: p in r <==> p in posts && p.group == Some(gid)
  {
    var r := SortPosts(GroupPosts(posts, gid));
    assert forall p :: p in r <==> p in multiset(r);
    r
  }

  /** The profile page feed. */
  function AuthorFeed(posts: seq<Post>, uid: UserId): (r: seq<Post>)
    ensures Sorted(r) && multiset(r) == multiset(AuthorPosts(posts, uid))
    ensures forall p :: p in r <==> p in posts && p.author == uid
  {
    var r := SortPosts(AuthorPosts(posts, uid));
    assert forall p :: p in r <==> p in multiset(r);
    r
  }

  /** The follow page feed of `uid`. */
  function FollowFeed(posts: seq<Post>, follows: seq<Follow>, uid: UserId): (r: seq<Post>)
    ensures Sorted(r) && multiset(r) == multiset(FollowedPosts(posts, follows, uid))
    ensures forall p :: p in r <==> p in posts && Follow(uid, p.author) in follows
  {
    var r := SortPosts(FollowedPosts(posts, follows, uid));
    assert forall p :: p in r <==> p in multiset(r);
    r
  }

  /** A user who follows nobody has an empty follow feed, whatever anyone
      posts. */
  lemma FollowingNobodyEmptyFeed(posts: seq<Post>, follows: seq<Follow>, uid: UserId)
    requires forall f :: f in follows ==> f.user != uid
    ensures FollowFeed(posts, follows, uid) == []
  {
  }

  /** A selection of a table keyed by id is keyed by id. */
  lemma SubsetKeyedById(s: seq<Post>, t: seq<Post>)
    requires KeyedById(s) && forall p :: p in t ==> p in s
    ensures KeyedById(t)
  {
  }

  /** Each feed is the only sorted arrangement of its rows: any sorted
      sequence holding exactly the rows of the filter is that feed. */
  lemma FeedsAreCanonical(posts: seq<Post>, r: seq<Post>)
    requires KeyedById(posts) && Sorted(r)
    ensures multiset(r) == multiset(posts) ==> r == GlobalFeed(posts)
    ensures forall gid :: multiset(r) == multiset(GroupPosts(posts, gid)) ==> r == GroupFeed(posts, gid)
    ensures forall uid :: multiset(r) == multiset(AuthorPosts(posts, uid)) ==> r == AuthorFeed(posts, uid)
    ensures forall follows, uid :: multiset(r) == multiset(FollowedPosts(posts, follows, uid)) ==>
      r == FollowFeed(posts, follows, uid)
  {
    if multiset(r) == multiset(posts) {
      SortIsCanonical(posts, r);
    }
    forall gid | multiset(r) == multiset(GroupPosts(posts, gid))
      ensures r == GroupFeed(posts, gid)
    {
      SubsetKeyedById(posts, GroupPosts(posts, gid));
      SortIsCanonical(GroupPosts(posts, gid), r);
    }
    forall uid | multiset(r) == multiset(AuthorPosts(posts, uid))
      ensures r == AuthorFeed(posts, uid)
    {
      SubsetKeyedById(posts, AuthorPosts(posts, uid));
      SortIsCanonical(AuthorPosts(posts, uid), r);
    }
    forall follows, uid | multiset(r) == multiset(FollowedPosts(posts, follows, uid))
      ensures r == FollowFeed(posts, follows, uid)
    {
      SubsetKeyedById(posts, FollowedPosts(posts, follows, uid));
      SortIsCanonical(FollowedPosts(posts, follows, uid), r);
    }
  }

  /** An edited post, stamped later than every other post, heads every feed
      it belongs to. */
  lemma EditedPostLeads(posts: seq<Post>, i: nat, e: Post, follows: seq<Follow>, follower: UserId)
    requires i < |posts|
    requires forall j :: 0 <= j < |posts| && j != i ==> posts[j].pubDate < e.pubDate
    ensures GlobalFeed(posts[i := e]) != [] && GlobalFeed(posts[i := e])[0] == e
    ensures AuthorFeed(posts[i := e], e.author) != [] && AuthorFeed(posts[i := e], e.author)[0] == e
    ensures e.group.Some? ==>
      GroupFeed(posts[i := e], e.group.value) != [] && GroupFeed(posts[i := e], e.group.value)[0] == e
    ensures Follow(follower, e.author) in follows ==>
      FollowFeed(posts[i := e], follows, follower) != [] && FollowFeed(posts[i := e], follows, follower)[0] == e
  {
    var t := posts[i := e];
    assert e == t[i];
    forall q | q in t && q != e ensures q.pubDate < e.pubDate {
      var j :| 0 <= j < |t| && t[j] == q;
    }
    NewestLeads(t, e);
    NewestLeads(AuthorPosts(t, e.author), e);
    if e.group.Some? {
      NewestLeads(GroupPosts(t, e.group.value), e);
    }
    if Follow(follower, e.author) in follows {
      NewestLeads(FollowedPosts(t, follows, follower), e);
    }
  }
}
