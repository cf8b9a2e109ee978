/**
 * The social feed: the posts with their like counters, the set of posts the
 * signed-in user likes, the comments loaded per post, the comment being typed
 * under each post, the post whose comments are open, and the relative age shown
 * on each post.
 *
 * Each backend call is represented by the request the feed sends and, where
 * the feed uses the answer, by the answer passed in as a parameter.
 */
module SocialFeed {
  import opened Wrappers
  import opened Text

  /** A post with its author's profile. */
  datatype Post = Post(
    id: string, userId: string, content: string, mediaUrl: Option<string>,
    mediaType: Option<string>, likesCount: int, createdAt: string,
    username: string, avatarUrl: Option<string>)

  /** A comment with its author's user name. */
  datatype Comment = Comment(id: string, content: string, createdAt: string, username: string)

  /** The like request sent for a toggle. */
  datatype LikeRequest = DeleteLike(postId: string, userId: string) | InsertLike(postId: string, userId: string)

  /** The comment row sent to the backend. */
  datatype CommentInsert = CommentInsert(postId: string, userId: string, content: string)

  // ---------------------------------------------------------------- likes

  /** The posts with `delta` added to the counter of every post with that id. */
  function AdjustLikes(posts: seq<Post>, postId: string, delta: int): (r: seq<Post>)
    ensures |r| == |posts|
  {
    seq(|posts|, i requires 0 <= i < |posts| =>
      if posts[i].id == postId then posts[i].(likesCount := posts[i].likesCount + delta) else posts[i])
  }

  /** What a like toggle acts on: the posts and the ids of the liked posts. */
  datatype LikeState = LikeState(posts: seq<Post>, liked: set<string>)

  /** `toggleLike` for a signed-in user: a liked post is unliked and its
      counter goes down by one, any other post is liked and its counter goes
      up by one. The local state changes whatever the backend answers. */
  function Toggled(s: LikeState, postId: string): LikeState {
    if postId in s.liked then LikeState(AdjustLikes(s.posts, postId, -1), s.liked - {postId})
    else LikeState(AdjustLikes(s.posts, postId, 1), s.liked + {postId})
  }

  /** A toggle flips the post's membership, moves its counter one step in the
      same direction, and touches no other post or like. */
  lemma ToggleMovesOnePost(s: LikeState, postId: string)
    ensures var t := Toggled(s, postId);
            && (postId in t.liked <==> postId !in s.liked)
            && (forall id :: id != postId ==> (id in t.liked <==> id in s.liked))
            && |t.posts| == |s.posts|
            && (forall i :: 0 <= i < |t.posts| ==>
                  t.posts[i].id == s.posts[i].id
                  && t.posts[i].likesCount == s.posts[i].likesCount
                     + (if s.posts[i].id != postId then 0 else if postId in t.liked then 1 else -1))
            && (forall i :: 0 <= i < |t.posts| && s.posts[i].id != postId ==> t.posts[i] == s.posts[i])
            && (forall i :: 0 <= i < |t.posts| && s.posts[i].id == postId ==>
                  t.posts[i] == s.posts[i].(likesCount := t.posts[i].likesCount))
  {
  }

  /** Toggling the same post twice gives back the likes and the counters. */
  lemma ToggleTwiceRestores(s: LikeState, postId: string)
    ensures Toggled(Toggled(s, postId), postId) == s
  {
    var t := Toggled(Toggled(s, postId), postId);
    assert t.liked == s.liked;
    assert t.posts == s.posts by {
      forall i | 0 <= i < |s.posts|
        ensures t.posts[i] == s.posts[i]
      {
        var p := s.posts[i];
        if p.id == postId {
          assert p.(likesCount := p.likesCount + 1).(likesCount := p.likesCount + 1 - 1) == p;
          assert p.(likesCount := p.likesCount - 1).(likesCount := p.likesCount - 1 + 1) == p;
        }
      }
    }
  }

  /** Counters agree with the user's likes: never negative, and at least one on
      a post the user likes. */
  ghost predicate CountsConsistent(s: LikeState) {
    forall i :: 0 <= i < |s.posts| ==>
      s.posts[i].likesCount >= (if s.posts[i].id in s.liked then 1 else 0)
  }

  /** A toggle keeps counters consistent, so they never go below zero. */
  lemma ToggleKeepsCountsConsistent(s: LikeState, postId: string)
    requires CountsConsistent(s)
    ensures CountsConsistent(Toggled(s, postId))
  {
    var t := Toggled(s, postId);
    forall i | 0 <= i < |t.posts|
      ensures t.posts[i].likesCount >= (if t.posts[i].id in t.liked then 1 else 0)
    {
      assert s.posts[i].likesCount >= (if s.posts[i].id in s.liked then 1 else 0);
    }
  }

  // ---------------------------------------------------------------- comments

  /** The comment typed under a post; a post nobody typed under has none. */
  function Draft(newComment: map<string, string>, postId: string): string {
    if postId in newComment then newComment[postId] else ""
  }

  /** `loadComments` once the answer is in: a post whose list is already there,
      even an empty one, is not reloaded; otherwise a received list is stored. */
  function AfterLoad(comments: map<string, seq<Comment>>, postId: string, fetched: Option<seq<Comment>>)
    : (r: map<string, seq<Comment>>)
    ensures postId in comments ==> r == comments
    ensures postId !in comments && fetched != None ==> r == comments[postId := fetched.value]
    ensures fetched == None ==> r == comments
  {
    if postId in comments || fetched == None then comments else comments[postId := fetched.value]
  }

  /** Loading is idempotent: once a list is there, later loads change nothing,
      whatever the backend would answer. */
  lemma LoadCommentsIdempotent(comments: map<string, seq<Comment>>, postId: string,
                               first: Option<seq<Comment>>, second: Option<seq<Comment>>)
    requires first != None
    ensures AfterLoad(AfterLoad(comments, postId, first), postId, second) == AfterLoad(comments, postId, first)
    ensures postId in AfterLoad(comments, postId, first)
  {
  }

  /** The comments after the backend returned a new comment: it goes at the end
      of the post's list (an absent list counting as empty). */
  function Appended(comments: map<string, seq<Comment>>, postId: string, c: Comment): (r: map<string, seq<Comment>>)
    ensures r.Keys == comments.Keys + {postId}
  {
    comments[postId := (if postId in comments then comments[postId] else []) + [c]]
  }

  /** A new comment lengthens its post's list by one, at the end, and leaves
      every other post's list alone. */
  lemma AppendedGrowsOneList(comments: map<string, seq<Comment>>, postId: string, c: Comment)
    ensures var before := if postId in comments then comments[postId] else [];
            var after := Appended(comments, postId, c)[postId];
            |after| == |before| + 1 && after[..|before|] == before && after[|before|] == c
    ensures forall id :: id in comments && id != postId ==> Appended(comments, postId, c)[id] == comments[id]
  {
    var before := if postId in comments then comments[postId] else [];
    assert (before + [c])[..|before|] == before;
  }

  /** The comment sent for a post: nothing without a signed-in user or when the
      draft is blank once trimmed; otherwise the trimmed draft. */
  function CommentRequest(user: Option<string>, newComment: map<string, string>, postId: string)
    : (r: Option<CommentInsert>)
    ensures r == None <==> user == None || Trim(Draft(newComment, postId)) == []
    ensures r != None ==> r.value.postId == postId && r.value.userId == user.value
    ensures r != None ==> r.value.content == Trim(Draft(newComment, postId))
    ensures r != None ==> r.value.content != [] && !IsJsWhitespace(r.value.content[0])
                          && !IsJsWhitespace(r.value.content[|r.value.content| - 1])
  {
    var content := Trim(Draft(newComment, postId));
    if user == None || content == [] then None else Some(CommentInsert(postId, user.value, content))
  }

  /** Text typed under a post is what a signed-in user sends: trimmed, and
      nothing when it is blank. */
  lemma TypedDraftIsSent(user: string, newComment: map<string, string>, postId: string, text: string)
    ensures CommentRequest(Some(user), newComment[postId := text], postId)
            == if Trim(text) == [] then None else Some(CommentInsert(postId, user, Trim(text)))
  {
    assert Draft(newComment[postId := text], postId) == text;
  }

  /** Once a comment went through, its draft is cleared, so sending again at
      once sends nothing. */
  lemma NoDoubleComment(user: Option<string>, newComment: map<string, string>, postId: string)
    ensures CommentRequest(user, newComment[postId := ""], postId) == None
  {
    assert Draft(newComment[postId := ""], postId) == "";
    assert Trim("") == [];
  }

  // ---------------------------------------------------------------- open comments

  /** `toggleComments` on the open post: the post that is open afterwards. */
  function NextExpanded(expanded: Option<string>, postId: string): (r: Option<string>)
    ensures r == None <==> expanded == Some(postId)
    ensures r != None ==> r.value == postId
  {
    if expanded == Some(postId) then None else Some(postId)
  }

  /** Toggling the same post twice leaves it open if it was open, and
      otherwise closes everything, whichever other post was open before. */
  lemma ToggleCommentsTwice(expanded: Option<string>, postId: string)
    ensures NextExpanded(NextExpanded(expanded, postId), postId)
            == if expanded == Some(postId) then expanded else None
  {
  }

  // ---------------------------------------------------------------- the feed

  class Feed {
    var posts: seq<Post>
    var likedPosts: set<string>
    var comments: map<string, seq<Comment>>
    var newComment: map<string, string>
    var expandedPost: Option<string>
    const user: Option<string>

    /** An empty feed for the given signed-in user id, if any. */
    constructor (user: Option<string>)
      ensures this.user == user
      ensures posts == [] && likedPosts == {} && comments == map[] && newComment == map[] && expandedPost == None
    {
      this.user := user;
      posts := [];
      likedPosts := {};
      comments := map[];
      newComment := map[];
      expandedPost := None;
    }

    /** `loadPosts` once the answer is in: a received list replaces the posts. */
    method LoadPosts(data: Option<seq<Post>>)
      modifies this
      ensures posts == if data == None then old(posts) else data.value
      ensures likedPosts == old(likedPosts) && comments == old(comments)
      ensures newComment == old(newComment) && expandedPost == old(expandedPost)
    {
      if data != None {
        posts := data.value;
      }
    }

    /** `loadUserLikes`: the liked posts become the posts of the user's like rows. */
    method LoadUserLikes(likedIds: Option<seq<string>>)
      modifies this
      ensures user != None && likedIds != None ==> likedPosts == set i | 0 <= i < |likedIds.value| :: likedIds.value[i]
      ensures user == None || likedIds == None ==> likedPosts == old(likedPosts)
      ensures posts == old(posts) && comments == old(comments)
      ensures newComment == old(newComment) && expandedPost == old(expandedPost)
    {
      if user != None && likedIds != None {
        likedPosts := set i | 0 <= i < |likedIds.value| :: likedIds.value[i];
      }
    }

    /** `toggleLike`: the request sent, and the likes and counters toggled. */
    method ToggleLike(postId: string) returns (request: Option<LikeRequest>)
      modifies this
      ensures user == None ==> request == None && posts == old(posts) && likedPosts == old(likedPosts)
      ensures user != None ==> request == Some(if postId in old(likedPosts) then DeleteLike(postId, user.value)
                                               else InsertLike(postId, user.value))
      ensures user != None ==> LikeState(posts, likedPosts) == Toggled(LikeState(old(posts), old(likedPosts)), postId)
      ensures comments == old(comments) && newComment == old(newComment) && expandedPost == old(expandedPost)
    {
      if user == None {
        return None;
      }
      var isLiked := postId in likedPosts;
      if isLiked {
        request := Some(DeleteLike(postId, user.value));
        likedPosts := likedPosts - {postId};
        posts := AdjustLikes(posts, postId, -1);
      } else {
        request := Some(InsertLike(postId, user.value));
        likedPosts := likedPosts + {postId};
        posts := AdjustLikes(posts, postId, 1);
      }
    }

    /** `loadComments`: whether a query is sent, and the comments once the answer is in. */
    method LoadComments(postId: string, fetched: Option<seq<Comment>>) returns (queried: bool)
      modifies this
      ensures queried <==> postId !in old(comments)
      ensures comments == AfterLoad(old(comments), postId, fetched)
      ensures posts == old(posts) && likedPosts == old(likedPosts)
      ensures newComment == old(newComment) && expandedPost == old(expandedPost)
    {
      if postId in comments {
        return false;
      }
      queried := true;
      if fetched != None {
        comments := comments[postId := fetched.value];
      }
    }

    /** `addComment`: the row sent, if any; when the backend returns the stored
        comment, it is appended and the draft is cleared. */
    method AddComment(postId: string, reply: Option<Comment>) returns (request: Option<CommentInsert>)
      modifies this
      ensures request == CommentRequest(user, old(newComment), postId)
      ensures request != None && reply != None ==> comments == Appended(old(comments), postId, reply.value)
      ensures request != None && reply != None ==> newComment == old(newComment)[postId := ""]
      ensures request == None || reply == None ==> comments == old(comments) && newComment == old(newComment)
      ensures posts == old(posts) && likedPosts == old(likedPosts) && expandedPost == old(expandedPost)
    {
      request := CommentToSend(postId);
      if request != None && reply != None {
        RecordComment(postId, reply.value);
      }
    }

    /** The insert `addComment` sends: none without a signed-in user or when the
        draft trims to nothing. */
    method CommentToSend(postId: string) returns (request: Option<CommentInsert>)
      ensures request == CommentRequest(user, newComment, postId)
    {
      var content := Trim(Draft(newComment, postId));
      if user == None || content == [] {
        return None;
      }
      request := Some(CommentInsert(postId, user.value, content));
    }

    /** What `addComment` does once the insert returned the stored comment:
        append it to the post's list and clear the draft. */
    method RecordComment(postId: string, c: Comment)
      modifies this
      ensures comments == Appended(old(comments), postId, c)
      ensures newComment == old(newComment)[postId := ""]
      ensures posts == old(posts) && likedPosts == old(likedPosts) && expandedPost == old(expandedPost)
    {
      var list := if postId in comments then comments[postId] else [];
      comments := comments[postId := list + [c]];
      newComment := newComment[postId := ""];
    }

    /** The comment box's `onChange`: the typed text becomes the post's draft. */
    method SetDraft(postId: string, text: string)
      modifies this
      ensures newComment == old(newComment)[postId := text]
      ensures posts == old(posts) && likedPosts == old(likedPosts)
      ensures comments == old(comments) && expandedPost == old(expandedPost)
    {
      newComment := newComment[postId := text];
    }

    /** `toggleComments`: close the open post, or open another one and load its comments. */
    method ToggleComments(postId: string, fetched: Option<seq<Comment>>) returns (queried: bool)
      modifies this
      ensures expandedPost == NextExpanded(old(expandedPost), postId)
      ensures queried <==> old(expandedPost) != Some(postId) && postId !in old(comments)
      ensures comments == if old(expandedPost) == Some(postId) then old(comments)
                          else AfterLoad(old(comments), postId, fetched)
      ensures posts == old(posts) && likedPosts == old(likedPosts) && newComment == old(newComment)
    {
      if expandedPost == Some(postId) {
        expandedPost := None;
        return false;
      }
      expandedPost := Some(postId);
      queried := LoadComments(postId, fetched);
    }
  }

  // ---------------------------------------------------------------- relative age

  /** How long ago a post was made, as the feed words it. */
  datatype Age = JustNow | MinutesAgo(minutes: int) | HoursAgo(hours: int) | DaysAgo(days: int) | OnDate

  /** The age bucket for `elapsedMs` milliseconds: whole seconds, rounded down,
      then the first unit the age fits under. A post dated in the future counts
      as just made. */
  function AgeOf(elapsedMs: int): (a: Age)
    ensures var s := elapsedMs / 1000;
            && (a == JustNow <==> s < 60)
            && (a.MinutesAgo? ==> 1 <= a.minutes < 60 && a.minutes * 60 <= s < a.minutes * 60 + 60)
            && (a.HoursAgo? ==> 1 <= a.hours < 24 && a.hours * 3600 <= s < a.hours * 3600 + 3600)
            && (a.DaysAgo? ==> 1 <= a.days < 7 && a.days * 86400 <= s < a.days * 86400 + 86400)
            && (a == OnDate <==> s >= 604800)
  {
    var seconds := elapsedMs / 1000;
    if seconds < 60 then JustNow
    else if seconds < 3600 then MinutesAgo(seconds / 60)
    else if seconds < 86400 then HoursAgo(seconds / 3600)
    else if seconds < 604800 then DaysAgo(seconds / 86400)
    else OnDate
  }

  /** The coarseness of a bucket. */
  function Rank(a: Age): nat {
    match a
    case JustNow => 0
    case MinutesAgo(_) => 1
    case HoursAgo(_) => 2
    case DaysAgo(_) => 3
    case OnDate => 4
  }

  /** An older post never gets a finer bucket, nor a smaller count in the same one. */
  lemma AgeMonotonic(ms1: int, ms2: int)
    requires ms1 <= ms2
    ensures Rank(AgeOf(ms1)) <= Rank(AgeOf(ms2))
    ensures AgeOf(ms1).MinutesAgo? && AgeOf(ms2).MinutesAgo? ==> AgeOf(ms1).minutes <= AgeOf(ms2).minutes
    ensures AgeOf(ms1).HoursAgo? && AgeOf(ms2).HoursAgo? ==> AgeOf(ms1).hours <= AgeOf(ms2).hours
    ensures AgeOf(ms1).DaysAgo? && AgeOf(ms2).DaysAgo? ==> AgeOf(ms1).days <= AgeOf(ms2).days
  {
    DivMonotonic(ms1, ms2, 1000);
    var s1, s2 := ms1 / 1000, ms2 / 1000;
    DivMonotonic(s1, s2, 60);
    DivMonotonic(s1, s2, 3600);
    DivMonotonic(s1, s2, 86400);
  }

  lemma DivMonotonic(a: int, b: int, d: int)
    requires a <= b && d > 0
    ensures a / d <= b / d
  {
    var qa, qb := a / d, b / d;
    assert d * qa <= a && b < d * qb + d;
    if qa > qb {
      MulAtLeast(d, qa - qb);
      assert false;
    }
  }

  lemma MulAtLeast(d: int, x: int)
    requires d > 0 && x >= 1
    ensures d * x >= d
  {
    assert d * x == d + d * (x - 1);
  }

  /** `formatTimeAgo`: the age in French; past a week, the date as the locale
      formats it (`dateLabel`). */
  function FormatTimeAgo(elapsedMs: int, dateLabel: string): (r: string)
    ensures elapsedMs / 1000 >= 604800 ==> r == dateLabel
    ensures elapsedMs / 1000 < 60 ==> r == "À l'instant"
  {
    match AgeOf(elapsedMs)
    case JustNow => "À l'instant"
    case MinutesAgo(n) => "Il y a " + NatToString(n) + "m"
    case HoursAgo(n) => "Il y a " + NatToString(n) + "h"
    case DaysAgo(n) => "Il y a " + NatToString(n) + "j"
    case OnDate => dateLabel
  }

  /** Between a minute and a week, the text is `Il y a `, the count in digits
      and the unit letter, and the count reads back as the bucket's count. */
  lemma FormatTimeAgoReadsBack(elapsedMs: int, dateLabel: string)
    requires 60 <= elapsedMs / 1000 < 604800
    ensures var r := FormatTimeAgo(elapsedMs, dateLabel);
            var a := AgeOf(elapsedMs);
            var n := if a.MinutesAgo? then a.minutes else if a.HoursAgo? then a.hours else a.days;
            var unit := if a.MinutesAgo? then 'm' else if a.HoursAgo? then 'h' else 'j';
            && 9 <= |r| <= 10 && r[..7] == "Il y a " && r[|r| - 1] == unit
            && (forall i :: 7 <= i < |r| - 1 ==> IsDigit(r[i]))
            && DigitsValue(r[7..|r| - 1]) == n
  {
    var a := AgeOf(elapsedMs);
    var n := if a.MinutesAgo? then a.minutes else if a.HoursAgo? then a.hours else a.days;
    var unit := if a.MinutesAgo? then 'm' else if a.HoursAgo? then 'h' else 'j';
    NatToStringLength(n);
    NatToStringRoundTrip(n);
    var r := FormatTimeAgo(elapsedMs, dateLabel);
    assert r == "Il y a " + NatToString(n) + [unit];
    assert r[7..|r| - 1] == NatToString(n);
  }
}
