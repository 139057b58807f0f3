/** The post record (Sources/App/Models/ Micropost.swift) as far as the user
    controller reads it: who wrote it and when, and the per-user query
    `user.microposts.query(on:).sort(\.createAt, .descending)`. */
module Microposts {
  import opened Outcomes
  import opened Users

  /** A row of the posts table; `createAt` is a timestamp. */
  datatype Micropost = Micropost(id: Option<int>, content: string, picture: string, createAt: int, userId: int)

  /** `user.microposts`: the posts whose userId is the user's id, in table order. */
  function PostsBy(posts: seq<Micropost>, user: User): (r: seq<Micropost>)
    ensures forall p :: p in r <==> p in posts && user.id == Some(p.userId)
    ensures |r| <= |posts|
  {
    if posts == [] then []
    else
      var rest := PostsBy(posts[1..], user);
      assert forall p :: p in posts ==> p == posts[0] || p in posts[1..];
      if user.id == Some(posts[0].userId) then [posts[0]] + rest else rest
  }

  /** Ordered by `createAt`, newest first. */
  ghost predicate NewestFirst(s: seq<Micropost>) {
    forall i, j :: 0 <= i < j < |s| ==> s[i].createAt >= s[j].createAt
  }

  /** Places `p` before the first post that is not newer than it. */
  function InsertByDate(p: Micropost, s: seq<Micropost>): seq<Micropost> {
    if s == [] || p.createAt >= s[0].createAt then [p] + s
    else [s[0]] + InsertByDate(p, s[1..])
  }

  /** `.sort(\.createAt, .descending)` as an insertion sort; posts with equal
      timestamps keep their table order. */
  function SortNewestFirst(s: seq<Micropost>): seq<Micropost> {
    if s == [] then []
    else InsertByDate(s[0], SortNewestFirst(s[1..]))
  }

  /** Inserting adds exactly the one post. */
  lemma {:induction false} InsertByDatePermutes(p: Micropost, s: seq<Micropost>)
    ensures multiset(InsertByDate(p, s)) == multiset(s) + multiset{p}
  {
    if s != [] && p.createAt < s[0].createAt {
      InsertByDatePermutes(p, s[1..]);
      assert s == [s[0]] + s[1..];
    }
  }

  /** Inserting into a newest-first list keeps it newest first. */
  lemma {:induction false} InsertByDateSorted(p: Micropost, s: seq<Micropost>)
    requires NewestFirst(s)
    ensures NewestFirst(InsertByDate(p, s))
  {
    if s == [] || p.createAt >= s[0].createAt {
      PrependNewest(p, s);
    } else {
      var rest := InsertByDate(p, s[1..]);
      InsertByDateSorted(p, s[1..]);
      InsertByDatePermutes(p, s[1..]);
      HeadBoundsInsertion(p, s, rest);
      PrependNewest(s[0], rest);
    }
  }

  /** A post no older than every post of a newest-first list can go in front. */
  lemma PrependNewest(h: Micropost, s: seq<Micropost>)
    requires NewestFirst(s)
    requires forall k :: 0 <= k < |s| ==> s[k].createAt <= h.createAt
    ensures NewestFirst([h] + s)
  {
  }

  /** What InsertByDate puts after the head of `s` is no newer than that head. */
  lemma HeadBoundsInsertion(p: Micropost, s: seq<Micropost>, rest: seq<Micropost>)
    requires NewestFirst(s) && s != [] && p.createAt < s[0].createAt
    requires multiset(rest) == multiset(s[1..]) + multiset{p}
    ensures forall k :: 0 <= k < |rest| ==> rest[k].createAt <= s[0].createAt
  {
    forall k | 0 <= k < |rest| ensures rest[k].createAt <= s[0].createAt {
      var q := rest[k];
      assert q in multiset(rest);
      if q != p {
        assert q in multiset(s[1..]);
        var m :| 0 <= m < |s[1..]| && s[1..][m] == q;
        assert s[m + 1] == q;
      }
    }
  }

  /** The sort keeps exactly the posts it was given. */
  lemma {:induction false} SortNewestFirstPermutes(s: seq<Micropost>)
    ensures multiset(SortNewestFirst(s)) == multiset(s)
  {
    if s != [] {
      SortNewestFirstPermutes(s[1..]);
      InsertByDatePermutes(s[0], SortNewestFirst(s[1..]));
      assert s == [s[0]] + s[1..];
    }
  }

  /** The sort's result is newest first. */
  lemma {:induction false} SortNewestFirstSorted(s: seq<Micropost>)
    ensures NewestFirst(SortNewestFirst(s))
  {
    if s != [] {
      SortNewestFirstSorted(s[1..]);
      InsertByDateSorted(s[0], SortNewestFirst(s[1..]));
    }
  }
}
