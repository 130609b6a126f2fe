/** The request handlers of the posts app over an in-memory store of the
    five tables. Read-only pages are functions of the store; handlers that
    write are methods of it. The logged-in user, the validity of the
    submitted form with its cleaned fields, the HTTP method and the clock
    are inputs. */
module Views {
  import opened Wrappers
  import opened Models
  import opened Collections
  import opened Paging
  import opened FollowGraph
  import opened Feeds
  import opened Integrity

  /** Who sent the request: nobody logged in, or a user of the store. */
  datatype Request = Anonymous | LoggedIn(user: UserId)

  /** Where a redirect points. */
  datatype Target = LoginPage | ProfileOf(username: string) | DetailOf(postId: PostId)

  /** The data a page is rendered from. */
  datatype View =
    | FeedPage(items: seq<Post>)
    | GroupPage(group: Group, items: seq<Post>)
    | ProfilePage(author: User, items: seq<Post>, following: bool)
    | DetailPage(post: Post, excerpt: string, comments: seq<Comment>)
    | PostFormPage(isEdit: bool)

  /** The outcome of a handler: a rendered page, a redirect, a 404, or an
      uncaught exception (a 500). */
  datatype Response = Render(view: View) | Redirect(to: Target) | NotFound | ServerError

  /** `authorized_only`: an anonymous request is answered with the redirect
      to the login page and the wrapped handler does not run. */
  function LoginRequired(req: Request): (r: Option<Response>)
    ensures r.None? <==> req.LoggedIn?
    ensures r.Some? ==> r.value == Redirect(LoginPage)
  {
    if req.LoggedIn? then None else Some(Redirect(LoginPage))
  }

  const ExcerptLength: nat := 30

  /** `post.text[:30]`. */
  function Excerpt(text: string): (e: string)
    ensures |e| == Min(ExcerptLength, |text|)
    ensures e == text[..|e|]
  {
    if |text| <= ExcerptLength then text else text[..ExcerptLength]
  }

  /** `Comment.objects.filter(post_id=...)`, in storage order. */
  function CommentsOf(comments: seq<Comment>, pid: PostId): (r: seq<Comment>)
    ensures forall c :: multiset(r)[c] == if c.post == pid then multiset(comments)[c] else 0
    ensures forall c :: c in r <==> c in comments && c.post == pid
  {
    FilterCounts(comments, (c: Comment) => c.post == pid);
    Filter(comments, (c: Comment) => c.post == pid)
  }

  class Store {
    /** `settings.PER_PAGE_PAGINATOR`. */
    const perPage: Positive

    var users: seq<User>
    var groups: seq<Group>
    var posts: seq<Post>
    var comments: seq<Comment>
    var follows: seq<Follow>

    // The next primary key of each table with an auto-increment key.
    var nextUserId: nat
    var nextGroupId: nat
    var nextPostId: nat
    var nextCommentId: nat

    ghost function Snapshot(): Db
      reads this
    {
      Db(users, groups, posts, comments, follows, nextUserId, nextGroupId, nextPostId, nextCommentId)
    }

    /** The integrity the database keeps over the store's tables. */
    ghost predicate Valid()
      reads this
    {
      Consistent(Snapshot())
    }

    /** A logged-in requester is a user of the store. */
    predicate Known(req: Request)
      reads this
    {
      req.LoggedIn? ==> req.user in UserIds(users)
    }

    constructor (pageSize: Positive)
      ensures Valid() && perPage == pageSize
      ensures users == [] && groups == [] && posts == [] && comments == [] && follows == []
    {
      perPage := pageSize;
      users, groups, posts, comments, follows := [], [], [], [], [];
      nextUserId, nextGroupId, nextPostId, nextCommentId := 1, 1, 1, 1;
    }

    // ---------------------------------------------------------------
    // Read-only pages.

    /** `index`: page `page` of every post, newest first. */
    function Index(page: Positive): (r: Response)
      reads this
      ensures r.Render? && r.view.FeedPage?
      ensures r.view.items == Page(GlobalFeed(posts), perPage, page)
    {
      Render(FeedPage(Page(GlobalFeed(posts), perPage, page)))
    }

    /** `group_posts`: a 404 for an unknown slug, otherwise the group and
        page `page` of its posts. */
    function GroupPostsPage(slug: string, page: Positive): (r: Response)
      reads this
      ensures r.NotFound? <==> forall g :: g in groups ==> g.slug != slug
      ensures r.NotFound? || r.Render?
      ensures r.Render? ==>
        && r.view.GroupPage?
        && r.view.group in groups && r.view.group.slug == slug
        && r.view.items == Page(GroupFeed(posts, r.view.group.id), perPage, page)
        && forall p :: p in r.view.items ==> p in posts && p.group == Some(r.view.group.id)
    {
      match GroupBySlug(groups, slug)
      case None => NotFound
      case Some(g) =>
        var items := Page(GroupFeed(posts, g.id), perPage, page);
        PageWithin(GroupFeed(posts, g.id), perPage, page);
        Render(GroupPage(g, items))
    }

    /** `profile`: a 404 for an unknown username, otherwise the user, page
        `page` of their posts, and whether anybody at all follows them. */
    function Profile(username: string, page: Positive): (r: Response)
      reads this
      ensures r.NotFound? <==> forall u :: u in users ==> u.username != username
      ensures r.NotFound? || r.Render?
      ensures r.Render? ==>
        && r.view.ProfilePage?
        && r.view.author in users && r.view.author.username == username
        && r.view.items == Page(AuthorFeed(posts, r.view.author.id), perPage, page)
        && (forall p :: p in r.view.items ==> p in posts && p.author == r.view.author.id)
        && (r.view.following <==> exists f :: f in follows && f.author == r.view.author.id)
    {
      match UserByName(users, username)
      case None => NotFound
      case Some(u) =>
        var items := Page(AuthorFeed(posts, u.id), perPage, page);
        PageWithin(AuthorFeed(posts, u.id), perPage, page);
        Render(ProfilePage(u, items, HasFollower(follows, u.id)))
    }

    /** `post_detail`: a 404 for an unknown key, otherwise the post, the
        first 30 characters of its text and its comments. */
    function PostDetail(postId: PostId): (r: Response)
      reads this
      ensures r.NotFound? <==> postId !in PostIds(posts)
      ensures r.NotFound? || r.Render?
      ensures r.Render? ==>
        && r.view.DetailPage?
        && r.view.post in posts && r.view.post.id == postId
        && |r.view.excerpt| == Min(ExcerptLength, |r.view.post.text|)
        && r.view.excerpt == r.view.post.text[..|r.view.excerpt|]
        && (forall c :: c in r.view.comments <==> c in comments && c.post == postId)
        && (forall c :: multiset(r.view.comments)[c] == if c.post == postId then multiset(comments)[c] else 0)
    {
      match PostIndex(posts, postId)
      case None => NotFound
      case Some(i) =>
        var p := posts[i];
        Render(DetailPage(p, Excerpt(p.text), CommentsOf(comments, postId)))
    }

    /** `follow_index`: login required; page `page` of the posts of the
        authors the requester follows. */
    function FollowIndex(req: Request, page: Positive): (r: Response)
      reads this
      ensures req.Anonymous? ==> r == Redirect(LoginPage)
      ensures req.LoggedIn? ==>
        && r.Render? && r.view.FeedPage?
        && r.view.items == Page(FollowFeed(posts, follows, req.user), perPage, page)
        && forall p :: p in r.view.items ==> p in posts && Follow(req.user, p.author) in follows
    {
      match LoginRequired(req)
      case Some(redirect) => redirect
      case None =>
        var items := Page(FollowFeed(posts, follows, req.user), perPage, page);
        PageWithin(FollowFeed(posts, follows, req.user), perPage, page);
        Render(FeedPage(items))
    }

    // ---------------------------------------------------------------
    // Handlers that write.

    /** The username of a user of the store. */
    function NameOf(uid: UserId): string
      reads this
      requires uid in UserIds(users)
    {
      var u := UserById(users, uid);
      u.value.username
    }

    /** `post_create`: login required; a valid form adds exactly one post,
        written by the requester and stamped `now`, and redirects to the
        requester's profile; otherwise the form is shown again and nothing
        is written. */
    method PostCreate(req: Request, valid: bool, text: string, group: Option<GroupId>,
                      image: Option<ImageRef>, now: Timestamp) returns (r: Response)
      requires Valid() && Known(req)
      requires valid && group.Some? ==> group.value in GroupIds(groups)
      modifies this
      ensures Valid()
      ensures req.Anonymous? ==> r == Redirect(LoginPage) && Snapshot() == old(Snapshot())
      ensures req.LoggedIn? && !valid ==>
        r == Render(PostFormPage(false)) && Snapshot() == old(Snapshot())
      ensures req.LoggedIn? && valid ==>
        && r == Redirect(ProfileOf(old(NameOf(req.user))))
        && posts == old(posts) + [Post(old(nextPostId), text, now, req.user, group, image)]
        && |posts| == |old(posts)| + 1
        && Snapshot() == old(Snapshot()).(posts := posts, nextPostId := nextPostId)
    {
      match LoginRequired(req)
      case Some(redirect) => return redirect;
      case None =>
      if !valid {
        return Render(PostFormPage(false));
      }
      var post := Post(nextPostId, text, now, req.user, group, image);
      r := Redirect(ProfileOf(NameOf(req.user)));
      AddPostKeepsConsistent(Snapshot(), post);
      Commit(Db(users, groups, posts + [post], comments, follows,
                nextUserId, nextGroupId, nextPostId + 1, nextCommentId));
    }

    /** `post_edit`: login required; a 404 for an unknown post; anybody but
        the author is sent to the post's page with nothing changed; the
        author gets the form on a GET or an invalid POST; a valid POST
        replaces text, group and image of the same row, stamps it `now` and
        redirects to the post's page. */
    method PostEdit(req: Request, postId: PostId, isPost: bool, valid: bool, text: string,
                    group: Option<GroupId>, image: Option<ImageRef>, now: Timestamp)
      returns (r: Response)
      requires Valid() && Known(req)
      requires isPost && valid && group.Some? ==> group.value in GroupIds(groups)
      modifies this
      ensures Valid()
      ensures req.Anonymous? ==> r == Redirect(LoginPage) && Snapshot() == old(Snapshot())
      ensures req.LoggedIn? && postId !in old(PostIds(posts)) ==>
        r == NotFound && Snapshot() == old(Snapshot())
      ensures req.LoggedIn? && postId in old(PostIds(posts)) ==>
        var i := PostIndex(old(posts), postId).value;
        var isAuthor := old(posts)[i].author == req.user;
        && (!isAuthor ==> r == Redirect(DetailOf(postId)) && Snapshot() == old(Snapshot()))
        && (isAuthor && !(isPost && valid) ==>
              r == Render(PostFormPage(true)) && Snapshot() == old(Snapshot()))
        && (isAuthor && isPost && valid ==>
              && r == Redirect(DetailOf(postId))
              && posts == old(posts)[i := Post(postId, text, now, req.user, group, image)]
              && Snapshot() == old(Snapshot()).(posts := posts))
      ensures req.LoggedIn? && postId in old(PostIds(posts)) &&
              old(posts)[PostIndex(old(posts), postId).value].author == req.user && isPost && valid &&
              (forall q :: q in old(posts) && q.id != postId ==> q.pubDate < now) ==>
        GlobalFeed(posts) != [] && GlobalFeed(posts)[0].id == postId
    {
      match LoginRequired(req)
      case Some(redirect) => return redirect;
      case None =>
      var found := PostIndex(posts, postId);
      if found.None? {
        return NotFound;
      }
      var i := found.value;
      var post := posts[i];
      SameNameSameUser(req.user, post.author);
      if NameOf(req.user) != NameOf(post.author) {
        return Redirect(DetailOf(postId));
      }
      if !(isPost && valid) {
        return Render(PostFormPage(true));
      }
      var edited := Post(post.id, text, now, req.user, group, image);
      ghost var before := posts;
      EditPostKeepsConsistent(Snapshot(), i, edited);
      posts := posts[i := edited];
      EditedLeadsWhenNewest(before, i, edited, now);
      r := Redirect(DetailOf(postId));
    }

    /** Under unique usernames, comparing usernames is comparing users. */
    lemma SameNameSameUser(a: UserId, b: UserId)
      requires Valid() && a in UserIds(users) && b in UserIds(users)
      ensures NameOf(a) == NameOf(b) <==> a == b
    {
    }

    /** With every other post older than `now`, the edited post heads the
        home feed. */
    static lemma EditedLeadsWhenNewest(before: seq<Post>, i: nat, e: Post, now: Timestamp)
      requires i < |before| && e.pubDate == now && e.id == before[i].id
      requires Increasing(before, PostKey)
      ensures (forall q :: q in before && q.id != e.id ==> q.pubDate < now) ==>
        GlobalFeed(before[i := e]) != [] && GlobalFeed(before[i := e])[0].id == e.id
    {
      if forall q :: q in before && q.id != e.id ==> q.pubDate < now {
        IncreasingPairs(before, PostKey);
        forall j | 0 <= j < |before| && j != i ensures before[j].pubDate < e.pubDate {
          assert before[j] in before && before[j].id != e.id;
        }
        EditedPostLeads(before, i, e, [], 0);
      }
    }

    /** `add_comment`: login required; a 404 for an unknown post; a valid
        form adds exactly one comment on that post by the requester; the
        answer is always the redirect to the post's page. */
    method AddComment(req: Request, postId: PostId, valid: bool, text: string, now: Timestamp)
      returns (r: Response)
      requires Valid() && Known(req)
      modifies this
      ensures Valid()
      ensures req.Anonymous? ==> r == Redirect(LoginPage) && Snapshot() == old(Snapshot())
      ensures req.LoggedIn? && postId !in old(PostIds(posts)) ==>
        r == NotFound && Snapshot() == old(Snapshot())
      ensures req.LoggedIn? && postId in old(PostIds(posts)) ==>
        && r == Redirect(DetailOf(postId))
        && (!valid ==> Snapshot() == old(Snapshot()))
        && (valid ==>
              && comments == old(comments) + [Comment(old(nextCommentId), postId, text, now, req.user)]
              && Snapshot() == old(Snapshot()).(comments := comments, nextCommentId := nextCommentId))
    {
      match LoginRequired(req)
      case Some(redirect) => return redirect;
      case None =>
      var found := PostIndex(posts, postId);
      if found.None? {
        return NotFound;
      }
      if valid {
        var comment := Comment(nextCommentId, postId, text, now, req.user);
        assert posts[found.value] in posts;
        AddCommentKeepsConsistent(Snapshot(), comment);
        comments := comments + [comment];
        nextCommentId := nextCommentId + 1;
      }
      r := Redirect(DetailOf(postId));
    }

    /** `profile_follow`: login required; `User.objects.get` on an unknown
        username raises (a 500); the edge (requester, target) is added only
        when the target is someone else and has no follower at all; the
        answer is the redirect to the target's profile. */
    method ProfileFollow(req: Request, username: string) returns (r: Response)
      requires Valid() && Known(req)
      modifies this
      ensures Valid()
      ensures old(FollowPolicy(follows)) ==> FollowPolicy(follows)
      ensures req.Anonymous? ==> r == Redirect(LoginPage) && Snapshot() == old(Snapshot())
      ensures req.LoggedIn? && (forall u :: u in old(users) ==> u.username != username) ==>
        r == ServerError && Snapshot() == old(Snapshot())
      ensures req.LoggedIn? && (exists u :: u in old(users) && u.username == username) ==>
        var target := UserByName(old(users), username).value;
        var admitted := target.id != req.user && FollowerCount(old(follows), target.id) == 0;
        && r == Redirect(ProfileOf(username))
        && (admitted ==>
              && follows == old(follows) + [Follow(req.user, target.id)]
              && Snapshot() == old(Snapshot()).(follows := follows))
        && (!admitted ==> Snapshot() == old(Snapshot()))
    {
      match LoginRequired(req)
      case Some(redirect) => return redirect;
      case None =>
      var found := UserByName(users, username);
      if found.None? {
        return ServerError;
      }
      var author := found.value;
      if author.id != req.user && FollowerCount(follows, author.id) == 0 {
        if FollowPolicy(follows) {
          FollowKeepsPolicy(follows, req.user, author.id);
        }
        AddFollowKeepsConsistent(Snapshot(), Follow(req.user, author.id));
        follows := follows + [Follow(req.user, author.id)];
      }
      r := Redirect(ProfileOf(username));
    }

    /** `profile_unfollow`: login required; `Follow.objects.get` must find
        exactly one row (requester, target): none or several raise (a 500)
        and change nothing; otherwise that one row is deleted, every other
        row stays, and the answer is the redirect to the target's profile. */
    method ProfileUnfollow(req: Request, username: string) returns (r: Response)
      requires Valid() && Known(req)
      modifies this
      ensures Valid()
      ensures old(FollowPolicy(follows)) ==> FollowPolicy(follows)
      ensures req.Anonymous? ==> r == Redirect(LoginPage) && Snapshot() == old(Snapshot())
      ensures r != Redirect(ProfileOf(username)) ==> Snapshot() == old(Snapshot())
      ensures req.LoggedIn? ==>
        var target := UserByName(old(users), username);
        var edges := if target.None? then 0 else EdgeCount(old(follows), req.user, target.value.id);
        && (edges != 1 ==> r == ServerError)
        && (edges == 1 ==>
              && r == Redirect(ProfileOf(username))
              && follows == DeleteEdge(old(follows), Follow(req.user, target.value.id))
              && Snapshot() == old(Snapshot()).(follows := follows))
      ensures req.LoggedIn? && old(FollowPolicy(follows)) && r == ServerError ==>
        forall u :: u in old(users) && u.username == username ==> Follow(req.user, u.id) !in old(follows)
    {
      match LoginRequired(req)
      case Some(redirect) => return redirect;
      case None =>
      var found := UserByName(users, username);
      if found.None? {
        return ServerError;
      }
      var edge := Follow(req.user, found.value.id);
      var n := EdgeCount(follows, req.user, found.value.id);
      if n != 1 {
        if FollowPolicy(follows) {
          PolicyNoDuplicateEdges(follows, req.user, found.value.id);
          assert edge !in multiset(follows);
          forall u | u in users && u.username == username ensures Follow(req.user, u.id) !in follows {
            assert u == found.value;
          }
        }
        return ServerError;
      }
      DropFollowsKeepsConsistent(Snapshot(), DeleteEdge(follows, edge));
      follows := DeleteEdge(follows, edge);
      r := Redirect(ProfileOf(username));
    }

    // ---------------------------------------------------------------
    // Rows created and deleted outside the views, with the database's own
    // rules: unique columns and the `on_delete` policy of each foreign key.

    /** Creating a user: the username column is unique, so a taken name is
        refused and nothing changes. */
    method RegisterUser(username: string) returns (ok: bool)
      requires Valid()
      modifies this
      ensures Valid()
      ensures ok <==> forall u :: u in old(users) ==> u.username != username
      ensures ok ==>
        && users == old(users) + [User(old(nextUserId), username)]
        && Snapshot() == old(Snapshot()).(users := users, nextUserId := nextUserId)
      ensures !ok ==> Snapshot() == old(Snapshot())
    {
      if UserByName(users, username).Some? {
        return false;
      }
      var user := User(nextUserId, username);
      AddUserKeepsConsistent(Snapshot(), username);
      users := users + [user];
      nextUserId := nextUserId + 1;
      ok := true;
    }

    /** Creating a group: `slug` is unique, so a taken slug is refused and
        nothing changes. */
    method CreateGroup(title: string, slug: string, description: string) returns (ok: bool)
      requires Valid()
      modifies this
      ensures Valid()
      ensures ok <==> forall g :: g in old(groups) ==> g.slug != slug
      ensures ok ==>
        && groups == old(groups) + [Group(old(nextGroupId), title, slug, description)]
        && Snapshot() == old(Snapshot()).(groups := groups, nextGroupId := nextGroupId)
      ensures !ok ==> Snapshot() == old(Snapshot())
    {
      if GroupBySlug(groups, slug).Some? {
        return false;
      }
      var group := Group(nextGroupId, title, slug, description);
      AddGroupKeepsConsistent(Snapshot(), title, slug, description);
      groups := groups + [group];
      nextGroupId := nextGroupId + 1;
      ok := true;
    }

    /** A row written to the follow table directly: the table has no
        constraint beyond its two foreign keys, so any two existing users,
        the same one twice included, are accepted, whatever rows exist. */
    method InsertFollow(user: UserId, author: UserId) returns (ok: bool)
      requires Valid()
      modifies this
      ensures Valid()
      ensures ok <==> user in old(UserIds(users)) && author in old(UserIds(users))
      ensures ok ==>
        && follows == old(follows) + [Follow(user, author)]
        && Snapshot() == old(Snapshot()).(follows := follows)
      ensures !ok ==> Snapshot() == old(Snapshot())
    {
      if UserById(users, user).None? || UserById(users, author).None? {
        return false;
      }
      AddFollowKeepsConsistent(Snapshot(), Follow(user, author));
      follows := follows + [Follow(user, author)];
      ok := true;
    }

    /** Deleting a group: `on_delete=SET_NULL` on `Post.group`, so its posts
        stay and lose their group; nothing else changes. */
    method DeleteGroup(gid: GroupId)
      requires Valid()
      modifies this
      ensures Valid()
      ensures forall g :: g in groups <==> g in old(groups) && g.id != gid
      ensures posts == DetachGroup(old(posts), gid)
      ensures PostIds(posts) == old(PostIds(posts))
      ensures Snapshot() == old(Snapshot()).(groups := groups, posts := posts)
    {
      var keep := (g: Group) => g.id != gid;
      DeleteGroupKeepsConsistent(Snapshot(), gid, keep);
      DetachKeepsPostIds(posts, gid);
      groups := Filter(groups, keep);
      posts := DetachGroup(posts, gid);
    }

    /** Deleting a post: `on_delete=CASCADE` on `Comment.post`, so its
        comments go with it; nothing else changes. */
    method DeletePost(pid: PostId)
      requires Valid()
      modifies this
      ensures Valid()
      ensures forall p :: p in posts <==> p in old(posts) && p.id != pid
      ensures pid !in PostIds(posts)
      ensures forall c :: c in comments <==> c in old(comments) && c.post != pid
      ensures Snapshot() == old(Snapshot()).(posts := posts, comments := comments)
    {
      var keepPost := (p: Post) => p.id != pid;
      var keepComment := (c: Comment) => c.post != pid;
      DeletePostKeepsConsistent(Snapshot(), pid, keepPost, keepComment);
      posts := Filter(posts, keepPost);
      comments := Filter(comments, keepComment);
    }

    /** Deleting a user: `on_delete=CASCADE` on `Post.author`,
        `Comment.author`, `Comment.post`, `Follow.user` and `Follow.author`,
        so their posts, the comments they wrote, the comments on their posts
        and every follow row that names them go too; nothing else changes. */
    method DeleteUser(uid: UserId)
      requires Valid()
      modifies this
      ensures Valid()
      ensures forall u :: u in users <==> u in old(users) && u.id != uid
      ensures forall p :: p in posts <==> p in old(posts) && p.author != uid
      ensures forall c :: c in comments <==>
        c in old(comments) && c.author != uid && c.post in PostIds(posts)
      ensures follows == DropUserEdges(old(follows), uid)
      ensures forall f :: f in follows <==> f in old(follows) && f.user != uid && f.author != uid
      ensures old(FollowPolicy(follows)) ==> FollowPolicy(follows)
      ensures uid !in UserIds(users)
      ensures Snapshot() == old(Snapshot()).(users := users, posts := posts,
                                            comments := comments, follows := follows)
    {
      var r := DeleteUserRows(Db(users, groups, posts, comments, follows,
                                 nextUserId, nextGroupId, nextPostId, nextCommentId), uid);
      Commit(r);
    }

    /** Writes a whole consistent database state into the store in one
        step, as a save or a cascading delete does inside its transaction. */
    method Commit(db: Db)
      requires Consistent(db)
      modifies this
      ensures Valid()
      ensures Snapshot() == db
    {
      users, groups, posts, comments, follows := db.users, db.groups, db.posts, db.comments, db.follows;
      nextUserId, nextGroupId, nextPostId, nextCommentId :=
        db.nextUserId, db.nextGroupId, db.nextPostId, db.nextCommentId;
    }
  }
}
