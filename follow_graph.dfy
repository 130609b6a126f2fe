/** The follow table seen as a directed graph, and the policy the follow
    handlers keep on it: nobody follows themselves, and every user has at
    most one follower row (the follow handler admits a new follower only
    while the target has none). */
module FollowGraph {
  import opened Wrappers
  import opened Models
  import opened Collections

  /** `author.following.count()`: the rows whose author is `a`. */
  function FollowerCount(follows: seq<Follow>, a: UserId): (n: nat)
    ensures n <= |follows|
    ensures n == 0 <==> forall f :: f in follows ==> f.author != a
  {
    if follows == [] then 0
    else (if follows[0].author == a then 1 else 0) + FollowerCount(follows[1..], a)
  }

  /** `author.following.exists()`. */
  predicate HasFollower(follows: seq<Follow>, a: UserId) {
    exists f :: f in follows && f.author == a
  }

  /** The number of rows that are the edge (`u`, `a`). */
  function EdgeCount(follows: seq<Follow>, u: UserId, a: UserId): nat {
    multiset(follows)[Follow(u, a)]
  }

  /** The first position of row `e`. */
  function FindEdge(follows: seq<Follow>, e: Follow): (r: Option<nat>)
    ensures r.Some? ==> r.value < |follows| && follows[r.value] == e
    ensures r.Some? ==> forall j :: 0 <= j < r.value ==> follows[j] != e
    ensures r.None? ==> e !in follows
  {
    if follows == [] then None
    else if follows[0] == e then Some(0)
    else
      var r := FindEdge(follows[1..], e);
      if r.Some? then Some(r.value + 1) else None
  }

  ghost predicate NoSelfFollow(follows: seq<Follow>) {
    forall f :: f in follows ==> f.user != f.author
  }

  ghost predicate AtMostOneFollower(follows: seq<Follow>) {
    forall a :: FollowerCount(follows, a) <= 1
  }

  ghost predicate FollowPolicy(follows: seq<Follow>) {
    NoSelfFollow(follows) && AtMostOneFollower(follows)
  }

  /** The profile flag and the follow guard ask the same question. */
  lemma HasFollowerIffCount(follows: seq<Follow>, a: UserId)
    ensures HasFollower(follows, a) <==> FollowerCount(follows, a) > 0
  {
  }

  lemma {:induction false} FollowerCountConcat(s: seq<Follow>, t: seq<Follow>, a: UserId)
    ensures FollowerCount(s + t, a) == FollowerCount(s, a) + FollowerCount(t, a)
  {
    if s == [] {
      assert s + t == t;
    } else {
      assert (s + t)[1..] == s[1..] + t;
      FollowerCountConcat(s[1..], t, a);
    }
  }

  lemma {:induction false} FollowerCountFilter(s: seq<Follow>, keep: Follow -> bool, a: UserId)
    ensures FollowerCount(Filter(s, keep), a) <= FollowerCount(s, a)
  {
    if s != [] {
      FollowerCountFilter(s[1..], keep, a);
      var head := if keep(s[0]) then [s[0]] else [];
      FollowerCountConcat(head, Filter(s[1..], keep), a);
    }
  }

  /** Copies of one edge are follower rows of its author. */
  lemma {:induction false} EdgeCountBelowFollowers(s: seq<Follow>, u: UserId, a: UserId)
    ensures EdgeCount(s, u, a) <= FollowerCount(s, a)
  {
    if s != [] {
      EdgeCountBelowFollowers(s[1..], u, a);
      assert s == [s[0]] + s[1..];
      assert multiset(s) == multiset{s[0]} + multiset(s[1..]);
    }
  }

  /** Under the policy no edge is stored twice and no edge is a loop. */
  lemma PolicyNoDuplicateEdges(s: seq<Follow>, u: UserId, a: UserId)
    requires FollowPolicy(s)
    ensures EdgeCount(s, u, a) <= 1
    ensures EdgeCount(s, u, u) == 0
  {
    EdgeCountBelowFollowers(s, u, a);
    assert FollowerCount(s, a) <= 1;
  }

  /** The follow handler's insertion keeps the policy. */
  lemma FollowKeepsPolicy(s: seq<Follow>, u: UserId, a: UserId)
    requires FollowPolicy(s) && u != a && FollowerCount(s, a) == 0
    ensures FollowPolicy(s + [Follow(u, a)])
  {
    var t := s + [Follow(u, a)];
    forall b ensures FollowerCount(t, b) <= 1 {
      FollowerCountConcat(s, [Follow(u, a)], b);
      assert [Follow(u, a)][1..] == [];
    }
  }

  /** Deleting one row keeps the policy. */
  lemma RemoveKeepsPolicy(s: seq<Follow>, i: nat)
    requires i < |s|
    ensures FollowPolicy(s) ==> FollowPolicy(s[..i] + s[i + 1..])
  {
    if FollowPolicy(s) {
      var t := s[..i] + s[i + 1..];
      forall f | f in t ensures f in s {
      }
      forall b ensures FollowerCount(t, b) <= 1 {
        assert s == s[..i] + ([s[i]] + s[i + 1..]);
        FollowerCountConcat(s[..i], [s[i]] + s[i + 1..], b);
        FollowerCountConcat([s[i]], s[i + 1..], b);
        FollowerCountConcat(s[..i], s[i + 1..], b);
      }
    }
  }

  /** Deleting any set of rows at once keeps the policy. */
  lemma FilterKeepsPolicy(s: seq<Follow>, keep: Follow -> bool)
    ensures FollowPolicy(s) ==> FollowPolicy(Filter(s, keep))
  {
    if FollowPolicy(s) {
      forall b ensures FollowerCount(Filter(s, keep), b) <= 1 {
        FollowerCountFilter(s, keep, b);
      }
    }
  }

  /** Deleting the only copy of an edge leaves no copy of it. */
  lemma RemoveOnlyCopy(s: seq<Follow>, i: nat)
    requires i < |s| && EdgeCount(s, s[i].user, s[i].author) == 1
    ensures s[i] !in s[..i] + s[i + 1..]
    ensures forall f :: f != s[i] ==> multiset(s[..i] + s[i + 1..])[f] == multiset(s)[f]
  {
    assert s == s[..i] + [s[i]] + s[i + 1..];
    assert multiset(s) == multiset(s[..i]) + multiset{s[i]} + multiset(s[i + 1..]);
    assert multiset(s[..i] + s[i + 1..]) == multiset(s[..i]) + multiset(s[i + 1..]);
  }

  /** `Follow.objects.get(user=u, author=a).delete()` once the query has
      found exactly one row: that row goes, every other row stays in its
      order, and the policy is kept. */
  function DeleteEdge(s: seq<Follow>, e: Follow): (r: seq<Follow>)
    requires EdgeCount(s, e.user, e.author) == 1
    ensures e !in r
    ensures multiset(r) == multiset(s) - multiset{e}
    ensures exists i :: 0 <= i < |s| && s[i] == e && r == s[..i] + s[i + 1..]
    ensures forall f :: f in r ==> f in s
    ensures FollowPolicy(s) ==> FollowPolicy(r)
  {
    assert e in multiset(s);
    var i := FindEdge(s, e).value;
    RemoveOnlyCopy(s, i);
    RemoveAt(s, i);
    RemoveKeepsPolicy(s, i);
    s[..i] + s[i + 1..]
  }

  /** The cascade of deleting user `uid` on the follow table: every row
      naming `uid` on either side goes, every other row stays with all its
      copies, and the policy is kept. */
  function DropUserEdges(s: seq<Follow>, uid: UserId): (r: seq<Follow>)
    ensures forall f :: f in r <==> f in s && f.user != uid && f.author != uid
    ensures forall f :: multiset(r)[f] == (if f.user != uid && f.author != uid then multiset(s)[f] else 0)
    ensures FollowPolicy(s) ==> FollowPolicy(r)
  {
    var keep := (f: Follow) => f.user != uid && f.author != uid;
    FilterCounts(s, keep);
    FilterKeepsPolicy(s, keep);
    Filter(s, keep)
  }
}
