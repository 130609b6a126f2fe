/** The five tables of the posts app: users, groups, posts, comments and
    follow edges. Primary keys are natural numbers; a nullable foreign key
    is an Option. */
module Models {
  import opened Wrappers
  import TextWrap

  type UserId = nat
  type GroupId = nat
  type PostId = nat
  type CommentId = nat

  /** A point in time (`DateTimeField`), as a number of ticks. */
  type Timestamp = int

  /** A stored upload (`ImageField`), kept opaque: its storage path. */
  type ImageRef = string

  /** The project's user model, reduced to its key and its unique username. */
  datatype User = User(id: UserId, username: string)

  datatype Group = Group(id: GroupId, title: string, slug: string, description: string)

  datatype Post = Post(
    id: PostId,
    text: string,
    pubDate: Timestamp,
    author: UserId,
    group: Option<GroupId>,
    image: Option<ImageRef>)

  datatype Comment = Comment(
    id: CommentId,
    post: PostId,
    text: string,
    created: Timestamp,
    author: UserId)

  /** A follow row: `user` follows `author`. The table declares no key of
      its own besides the implicit primary key, no uniqueness and no check. */
  datatype Follow = Follow(user: UserId, author: UserId)

  // Primary keys, as functions so that tables can be ordered by them.
  function UserKey(u: User): int { u.id }
  function GroupKey(g: Group): int { g.id }
  function PostKey(p: Post): int { p.id }
  function CommentKey(c: Comment): int { c.id }

  function UserIds(users: seq<User>): set<UserId> {
    set u | u in users :: u.id
  }

  function GroupIds(groups: seq<Group>): set<GroupId> {
    set g | g in groups :: g.id
  }

  function PostIds(posts: seq<Post>): set<PostId> {
    set p | p in posts :: p.id
  }

  /** `User.username` is unique. */
  ghost predicate UniqueUsernames(users: seq<User>) {
    forall u, v :: u in users && v in users && u.username == v.username ==> u == v
  }

  /** `Group.slug` is unique. */
  ghost predicate UniqueSlugs(groups: seq<Group>) {
    forall g, h :: g in groups && h in groups && g.slug == h.slug ==> g == h
  }

  /** `User.objects.get(username=...)`, as an optional result. */
  function UserByName(users: seq<User>, username: string): (r: Option<User>)
    ensures r.Some? ==> r.value in users && r.value.username == username
    ensures r.None? ==> forall u :: u in users ==> u.username != username
  {
    if users == [] then None
    else if users[0].username == username then Some(users[0])
    else UserByName(users[1..], username)
  }

  /** The user row with primary key `id`. */
  function UserById(users: seq<User>, id: UserId): (r: Option<User>)
    ensures r.Some? ==> r.value in users && r.value.id == id
    ensures r.None? ==> id !in UserIds(users)
  {
    if users == [] then None
    else if users[0].id == id then Some(users[0])
    else UserById(users[1..], id)
  }

  /** `Group.objects.get(slug=...)`, as an optional result. */
  function GroupBySlug(groups: seq<Group>, slug: string): (r: Option<Group>)
    ensures r.Some? ==> r.value in groups && r.value.slug == slug
    ensures r.None? ==> forall g :: g in groups ==> g.slug != slug
  {
    if groups == [] then None
    else if groups[0].slug == slug then Some(groups[0])
    else GroupBySlug(groups[1..], slug)
  }

  /** The position of the post with primary key `id`. */
  function PostIndex(posts: seq<Post>, id: PostId): (r: Option<nat>)
    ensures r.Some? ==> r.value < |posts| && posts[r.value].id == id
    ensures r.None? ==> id !in PostIds(posts)
  {
    if posts == [] then None
    else if posts[0].id == id then Some(0)
    else
      var r := PostIndex(posts[1..], id);
      if r.Some? then Some(r.value + 1) else None
  }

  /** Width passed to `textwrap.shorten` by `Post.__str__`. */
  const PostStrWidth: nat := 15

  /** `Post.__str__`: the text, whitespace collapsed, shortened to fit 15
      characters. */
  function PostStr(p: Post): (r: string)
    ensures |r| <= PostStrWidth
    ensures |TextWrap.Collapse(p.text)| <= PostStrWidth ==> r == TextWrap.Collapse(p.text)
    ensures |TextWrap.Collapse(p.text)| > PostStrWidth ==> TextWrap.LongestFittingPrefix(p.text, PostStrWidth, r)
  {
    TextWrap.Shorten(p.text, PostStrWidth)
  }

  /** The post of the model test: its text is short and already collapsed,
      so it is its own string form. */
  lemma PostStrOfShortText(p: Post)
    requires p.text == "Тестовый пост"
    ensures PostStr(p) == "Тестовый пост"
  {
    var s := p.text;
    assert |s| == 13;
    assert forall i :: 0 <= i < |s| && i != 8 ==> s[i] !in TextWrap.SpaceChars;
    TextWrap.ShortFitsUnchanged(s, PostStrWidth);
  }

  /** `on_delete=SET_NULL` of `Post.group`: every post of the deleted group
      loses its group; nothing else about any post changes. */
  function DetachGroup(posts: seq<Post>, gid: GroupId): (r: seq<Post>)
    ensures |r| == |posts|
    ensures forall i :: 0 <= i < |r| ==> r[i].group != Some(gid)
    ensures forall i :: 0 <= i < |r| && posts[i].group == Some(gid) ==> r[i].group == None
    ensures forall i :: 0 <= i < |r| ==>
      r[i].(group := posts[i].group) == posts[i] &&
      (posts[i].group != Some(gid) ==> r[i] == posts[i])
  {
    seq(|posts|, i requires 0 <= i < |posts| =>
      if posts[i].group == Some(gid) then posts[i].(group := None) else posts[i])
  }

  /** Replacing a post by one with the same key keeps the set of keys. */
  lemma ReplaceKeepsPostIds(posts: seq<Post>, i: nat, e: Post)
    requires i < |posts| && e.id == posts[i].id
    ensures PostIds(posts[i := e]) == PostIds(posts)
    ensures forall q :: q in posts[i := e] ==> q == e || q in posts
  {
    var t := posts[i := e];
    forall id | id in PostIds(posts) ensures id in PostIds(t) {
      var q :| q in posts && q.id == id;
      var j :| 0 <= j < |posts| && posts[j] == q;
      assert t[j].id == id;
    }
  }

  /** Detaching posts from a group keeps every post key. */
  lemma DetachKeepsPostIds(posts: seq<Post>, gid: GroupId)
    ensures PostIds(DetachGroup(posts, gid)) == PostIds(posts)
  {
    var r := DetachGroup(posts, gid);
    forall id | id in PostIds(posts) ensures id in PostIds(r) {
      var j :| 0 <= j < |posts| && posts[j].id == id;
      assert r[j] in r;
    }
  }
}
