/** Blog likes (backend/controllers/BlogLike.controller.js). A like is a
    (user, blog) pair. `doLike` either saves a new pair or deletes the one it
    found, so sequential requests never store a pair twice and the
    collection is a set of pairs. */
module BlogLikeController {
  import opened Wrappers
  import opened Text
  import opened Http

  datatype Like = Like(user: string, blog: string)

  /** `countDocuments({ blogid })` counts the members of this set. */
  function LikesFor(likes: set<Like>, blog: string): (r: set<Like>)
    ensures forall l :: l in r <==> l in likes && l.blog == blog
  {
    set l | l in likes && l.blog == blog
  }

  /** The pairs after one `doLike` for `l`: insert when absent, delete when found. */
  function Toggled(likes: set<Like>, l: Like): (r: set<Like>)
    ensures l in r <==> l !in likes
    ensures forall m :: m != l ==> (m in r <==> m in likes)
  {
    if l in likes then likes - {l} else likes + {l}
  }

  /** Two likes by the same user on the same blog restore the original pairs. */
  lemma ToggleTwiceRestores(likes: set<Like>, l: Like)
    ensures Toggled(Toggled(likes, l), l) == likes
  {
  }

  /** One toggle moves the count of the toggled blog by exactly one, up when
      the pair was absent, and leaves the count of every other blog alone. */
  lemma {:induction false} ToggledCount(likes: set<Like>, l: Like)
    ensures l !in likes ==> |LikesFor(Toggled(likes, l), l.blog)| == |LikesFor(likes, l.blog)| + 1
    ensures l in likes ==> |LikesFor(Toggled(likes, l), l.blog)| == |LikesFor(likes, l.blog)| - 1
    ensures forall b :: b != l.blog ==> LikesFor(Toggled(likes, l), b) == LikesFor(likes, b)
  {
    if l in likes {
      assert LikesFor(Toggled(likes, l), l.blog) == LikesFor(likes, l.blog) - {l};
    } else {
      assert LikesFor(Toggled(likes, l), l.blog) == LikesFor(likes, l.blog) + {l};
    }
  }

  /** The reply of `likeCount`. */
  datatype LikeStatus = LikeStatus(likecount: int, isUserliked: bool)

  /** A `userid` route parameter that names somebody: present and not blank. */
  predicate NamesUser(userid: Option<string>) {
    Truthy(userid) && Trim(userid.value) != ""
  }

  /** What `likeCount` reports for `blogid` and the optional `userid`. */
  function Status(likes: set<Like>, blogid: string, userid: Option<string>): (s: LikeStatus)
    ensures s.likecount == |LikesFor(likes, blogid)| && s.likecount >= 0
    ensures s.isUserliked <==> NamesUser(userid) && Like(userid.value, blogid) in likes
    ensures s.isUserliked ==> s.likecount >= 1
  {
    var count := |LikesFor(likes, blogid)|;
    if NamesUser(userid) then
      var mine := LikesFor(likes, blogid) * {Like(userid.value, blogid)};
      assert Like(userid.value, blogid) in likes ==> Like(userid.value, blogid) in mine;
      assert |mine| <= count by { SubsetCard(mine, LikesFor(likes, blogid)); }
      LikeStatus(count, |mine| > 0)
    else
      LikeStatus(count, false)
  }

  lemma {:induction false} SubsetCard(a: set<Like>, b: set<Like>)
    requires a <= b
    ensures |a| <= |b|
  {
    if a != {} {
      var x :| x in a;
      SubsetCard(a - {x}, b - {x});
    }
  }

  /** After a `doLike` by a user whose id is not blank, `likeCount` for that
      user reports the opposite of what it reported before. */
  lemma DoLikeFlipsStatus(likes: set<Like>, user: string, blogid: string)
    requires NamesUser(Some(user))
    ensures Status(Toggled(likes, Like(user, blogid)), blogid, Some(user)).isUserliked
            == !Status(likes, blogid, Some(user)).isUserliked
  {
  }

  /** The BlogLike collection. */
  class LikeTable {
    var likes: set<Like>

    constructor (likes: set<Like>)
      ensures this.likes == likes
    {
      this.likes := likes;
    }

    /** `doLike`: `user` and `blogid` come from the request body; the route
        sits behind `authenticate`. */
    method DoLike(user: string, blogid: string) returns (r: Reply<int>)
      modifies this
      ensures Like(user, blogid) in old(likes) ==> likes == old(likes) - {Like(user, blogid)}
      ensures Like(user, blogid) !in old(likes) ==> likes == old(likes) + {Like(user, blogid)}
      ensures r == Ok(200, |LikesFor(likes, blogid)|)
    {
      var like := Like(user, blogid);
      if like !in likes {
        likes := likes + {like};
      } else {
        likes := likes - {like};
      }
      r := Ok(200, |LikesFor(likes, blogid)|);
    }

    /** `likeCount`: a read-only query. */
    method LikeCount(blogid: string, userid: Option<string>) returns (r: Reply<LikeStatus>)
      ensures r == Ok(200, Status(likes, blogid, userid))
    {
      var likecount := |LikesFor(likes, blogid)|;
      var isUserliked := false;
      if Truthy(userid) && Trim(userid.value) != "" {
        var getuserlike := |LikesFor(likes, blogid) * {Like(userid.value, blogid)}|;
        if getuserlike > 0 {
          isUserliked := true;
        }
      }
      r := Ok(200, LikeStatus(likecount, isUserliked));
    }
  }

  /** Two `doLike` requests by the same user on the same blog leave the pairs
      as they were and answer counts one apart. */
  method DoubleLike(table: LikeTable, user: string, blogid: string) returns (first: Reply<int>, second: Reply<int>)
    modifies table
    ensures table.likes == old(table.likes)
    ensures first.Ok? && second.Ok? && second.value == |LikesFor(old(table.likes), blogid)|
    ensures Like(user, blogid) !in old(table.likes) ==> first.value == second.value + 1
    ensures Like(user, blogid) in old(table.likes) ==> first.value == second.value - 1
  {
    ToggledCount(table.likes, Like(user, blogid));
    first := table.DoLike(user, blogid);
    second := table.DoLike(user, blogid);
    ToggleTwiceRestores(old(table.likes), Like(user, blogid));
  }
}
