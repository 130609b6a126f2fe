/** `Post.Meta.ordering = ('-pub_date', 'pk')`: newest first, ties broken by
    the smaller primary key. Every post query is returned in this order. */
module Ordering {
  import opened Models

  /** `a` may stand before `b` in the default order. */
  predicate Precedes(a: Post, b: Post) {
    a.pubDate > b.pubDate || (a.pubDate == b.pubDate && a.id <= b.id)
  }

  predicate Sorted(s: seq<Post>) {
    forall i, j :: 0 <= i < j < |s| ==> Precedes(s[i], s[j])
  }

  /** Rows with the same primary key are the same row. */
  ghost predicate KeyedById(s: seq<Post>) {
    forall p, q :: p in s && q in s && p.id == q.id ==> p == q
  }

  /** The first row of a sorted sequence precedes every row of it. */
  lemma HeadPrecedesAll(s: seq<Post>)
    requires Sorted(s) && s != []
    ensures forall y :: y in s ==> Precedes(s[0], y)
  {
    forall y | y in s ensures Precedes(s[0], y) {
      var j :| 0 <= j < |s| && s[j] == y;
      if j > 0 { assert Precedes(s[0], s[j]); }
    }
  }

  /** A row that precedes every row of a sorted sequence may lead it. */
  lemma SortedCons(x: Post, t: seq<Post>)
    requires Sorted(t) && forall y :: y in t ==> Precedes(x, y)
    ensures Sorted([x] + t)
  {
    var r := [x] + t;
    forall i, j | 0 <= i < j < |r| ensures Precedes(r[i], r[j]) {
      if i == 0 { assert r[j] == t[j - 1] && t[j - 1] in t; } else { assert r[i] == t[i - 1] && r[j] == t[j - 1]; }
    }
  }

  /** `p` placed into the sorted `s` at its place in the order. */
  function Insert(p: Post, s: seq<Post>): (r: seq<Post>)
    requires Sorted(s)
    ensures Sorted(r)
    ensures multiset(r) == multiset(s) + multiset{p}
  {
    if s == [] then [p]
    else if Precedes(p, s[0]) then
      HeadPrecedesAll(s);
      SortedCons(p, s);
      [p] + s
    else
      var rest := Insert(p, s[1..]);
      assert s == [s[0]] + s[1..];
      assert Sorted(s[1..]);
      assert forall y :: y in rest ==> Precedes(s[0], y) by {
        HeadPrecedesAll(s);
        forall y | y in rest ensures y == p || y in s {
          assert y in multiset(rest);
        }
      }
      SortedCons(s[0], rest);
      [s[0]] + rest
  }

  /** The posts of `s` in the default order (`order_by` of a queryset). */
  function SortPosts(s: seq<Post>): (r: seq<Post>)
    ensures Sorted(r)
    ensures multiset(r) == multiset(s)
  {
    if s == [] then []
    else
      assert s == [s[0]] + s[1..];
      Insert(s[0], SortPosts(s[1..]))
  }

  /** Rows keyed by id stay keyed by id under any permutation. */
  lemma KeyedByIdPermutation(s: seq<Post>, t: seq<Post>)
    requires KeyedById(s) && multiset(t) == multiset(s)
    ensures KeyedById(t)
  {
    forall p, q | p in t && q in t
      ensures p in s && q in s
    {
      assert p in multiset(t) && q in multiset(t);
    }
  }

  /** Two sorted arrangements of the same rows, keyed by id, start with the
      same row. */
  lemma SameHead(a: seq<Post>, b: seq<Post>)
    requires Sorted(a) && Sorted(b) && multiset(a) == multiset(b) && KeyedById(a)
    requires a != []
    ensures b != [] && a[0] == b[0]
  {
    assert a[0] in multiset(b);
    HeadPrecedesAll(a);
    HeadPrecedesAll(b);
    assert b[0] in multiset(a);
    assert Precedes(a[0], b[0]) && Precedes(b[0], a[0]);
  }

  /** Removing the same first row from two permutations of each other
      leaves permutations of each other. */
  lemma TailsPermuted(a: seq<Post>, b: seq<Post>)
    requires a != [] && b != [] && a[0] == b[0] && multiset(a) == multiset(b)
    ensures multiset(a[1..]) == multiset(b[1..])
  {
    assert a == [a[0]] + a[1..] && b == [b[0]] + b[1..];
    assert multiset(a[1..]) == multiset(a) - multiset{a[0]};
    assert multiset(b[1..]) == multiset(b) - multiset{b[0]};
  }

  /** Two sorted arrangements of the same rows, keyed by id, are equal: the
      default order leaves no freedom. */
  lemma {:induction false} SortedIsUnique(a: seq<Post>, b: seq<Post>)
    requires Sorted(a) && Sorted(b) && multiset(a) == multiset(b) && KeyedById(a)
    ensures a == b
  {
    if a == [] {
      assert |b| == |multiset(b)| == 0;
    } else {
      SameHead(a, b);
      TailsPermuted(a, b);
      assert KeyedById(a[1..]) by {
        forall p | p in a[1..] ensures p in a { }
      }
      SortedIsUnique(a[1..], b[1..]);
      assert a == [a[0]] + a[1..] && b == [b[0]] + b[1..];
    }
  }

  /** Any sorted arrangement of rows keyed by id is the one `SortPosts`
      returns. */
  lemma SortIsCanonical(s: seq<Post>, r: seq<Post>)
    requires KeyedById(s) && Sorted(r) && multiset(r) == multiset(s)
    ensures r == SortPosts(s)
  {
    KeyedByIdPermutation(s, r);
    SortedIsUnique(r, SortPosts(s));
  }

  /** A post newer than every other row of `s` comes first once sorted. */
  lemma NewestLeads(s: seq<Post>, p: Post)
    requires p in s
    requires forall q :: q in s && q != p ==> q.pubDate < p.pubDate
    ensures SortPosts(s) != [] && SortPosts(s)[0] == p
  {
    var r := SortPosts(s);
    assert p in multiset(r);
    var k :| 0 <= k < |r| && r[k] == p;
    assert r[0] in multiset(s);
    if k != 0 {
      assert Precedes(r[0], r[k]);
    }
  }
}
