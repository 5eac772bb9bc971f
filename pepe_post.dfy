/**
 * The post widget's like/dislike buttons and comment box. A press of the
 * button that is already active withdraws the vote with a DELETE; any other
 * press casts it with a PUT. The flags and counts shown change only once the
 * API has answered ok. The DOM, the fetch itself and the comment feed are not
 * modelled: the API's answer is a parameter.
 */
module PepePost {
  import opened Wrappers

  datatype Verb = Put | Delete

  /** The request a press sends to /picture/like: a DELETE carries no `like` field. */
  datatype LikeRequest = LikeRequest(verb: Verb, picture_id: string, like: Option<bool>)

  /** The request a send sends to /picture/comment. */
  datatype CommentRequest = CommentRequest(picture_id: string, comment: string)

  /** The vote state the widget shows: its own flags and the counts. */
  datatype LikeState = LikeState(liked: bool, disliked: bool, likeCount: int, dislikeCount: int)

  /** At most one of the two buttons is active. */
  predicate Exclusive(s: LikeState)
  {
    !(s.liked && s.disliked)
  }

  /** The votes of everybody else: each count without this user's own vote. */
  function Others(s: LikeState): (int, int)
  {
    (s.likeCount - (if s.liked then 1 else 0), s.dislikeCount - (if s.disliked then 1 else 0))
  }

  /** Whether pressing the like (true) or dislike (false) button withdraws a vote: it does when that button is active. */
  predicate IsDelete(s: LikeState, value: bool)
  {
    (s.liked && value) || (s.disliked && !value)
  }

  /** The request a press sends. */
  function RequestFor(s: LikeState, pictureId: string, value: bool): (r: LikeRequest)
    ensures r.verb == Delete <==> IsDelete(s, value)
    ensures r.like.None? <==> r.verb == Delete
    ensures r.like.Some? ==> r.like.value == value
    ensures r.picture_id == pictureId
  {
    if IsDelete(s, value) then LikeRequest(Delete, pictureId, None) else LikeRequest(Put, pictureId, Some(value))
  }

  /**
   * The state after `updateLikeCounts`: first an active like, else an active
   * dislike, is removed if the call withdraws or switches it; then a vote
   * that is not a withdrawal is added. Every new count is computed from the
   * count read at the start of the call.
   */
  function LikeTransition(s: LikeState, deleteLike: bool, value: bool): LikeState
  {
    var removed :=
      if s.liked && (deleteLike || !value) then s.(liked := false, likeCount := s.likeCount - 1)
      else if s.disliked && (deleteLike || value) then s.(disliked := false, dislikeCount := s.dislikeCount - 1)
      else s;
    if !deleteLike && value then removed.(liked := true, likeCount := s.likeCount + 1)
    else if !deleteLike && !value then removed.(disliked := true, dislikeCount := s.dislikeCount + 1)
    else removed
  }

  /** A press answered ok. */
  function Press(s: LikeState, value: bool): LikeState
  {
    LikeTransition(s, IsDelete(s, value), value)
  }

  class PostWidget {
    var pictureId: string
    var liked: bool
    var disliked: bool
    var likeCount: int
    var dislikeCount: int
    var commentCount: int
    var commentInput: string

    constructor(pictureId: string, liked: bool, disliked: bool, likeCount: int, dislikeCount: int,
                commentCount: int)
      ensures this.pictureId == pictureId
      ensures this.liked == liked && this.disliked == disliked
      ensures this.likeCount == likeCount && this.dislikeCount == dislikeCount
      ensures this.commentCount == commentCount && commentInput == ""
    {
      this.pictureId := pictureId;
      this.liked := liked;
      this.disliked := disliked;
      this.likeCount := likeCount;
      this.dislikeCount := dislikeCount;
      this.commentCount := commentCount;
      commentInput := "";
    }

    function State(): LikeState
      reads this
    {
      LikeState(liked, disliked, likeCount, dislikeCount)
    }

    /** `updateLikeCounts`. */
    method UpdateLikeCounts(deleteLike: bool, value: bool)
      modifies this
      ensures State() == LikeTransition(old(State()), deleteLike, value)
      ensures pictureId == old(pictureId) && commentCount == old(commentCount) && commentInput == old(commentInput)
    {
      var likes := likeCount;
      var dislikes := dislikeCount;
      if liked && (deleteLike || !value) {
        liked := false;
        likeCount := likes - 1;
      } else if disliked && (deleteLike || value) {
        disliked := false;
        dislikeCount := dislikes - 1;
      }
      if !deleteLike && value {
        liked := true;
        likeCount := likes + 1;
      } else if !deleteLike && !value {
        disliked := true;
        dislikeCount := dislikes + 1;
      }
    }

    /** `like`: sends the request; `ok` is whether the API answered ok. Nothing changes otherwise. */
    method Like(value: bool, ok: bool) returns (request: LikeRequest)
      modifies this
      ensures request == RequestFor(old(State()), pictureId, value)
      ensures ok ==> State() == Press(old(State()), value)
      ensures !ok ==> State() == old(State())
      ensures pictureId == old(pictureId) && commentCount == old(commentCount) && commentInput == old(commentInput)
    {
      var deleteLike := (liked && value) || (disliked && !value);
      if deleteLike {
        request := LikeRequest(Delete, pictureId, None);
      } else {
        request := LikeRequest(Put, pictureId, Some(value));
      }
      if ok {
        UpdateLikeCounts(deleteLike, value);
      }
    }

    /**
     * `sendComment`: nothing is sent for an empty input. On an ok answer the
     * input is cleared first; the comment count goes up by one only when the
     * answer's body then reads as the new comment (`bodyRead`), so a body that
     * fails to read leaves the input cleared and the count as it was.
     */
    method SendComment(ok: bool, bodyRead: bool) returns (sent: Option<CommentRequest>)
      modifies this
      ensures sent.Some? <==> old(commentInput) != ""
      ensures sent.Some? ==> sent.value == CommentRequest(old(pictureId), old(commentInput))
      ensures commentInput == if sent.Some? && ok then "" else old(commentInput)
      ensures commentCount == if sent.Some? && ok && bodyRead then old(commentCount) + 1 else old(commentCount)
      ensures State() == old(State()) && pictureId == old(pictureId)
    {
      var content := commentInput;
      if content == "" {
        return None;
      }
      sent := Some(CommentRequest(pictureId, content));
      if ok {
        commentInput := "";
        if bodyRead {
          commentCount := commentCount + 1;
        }
      }
    }
  }

  // ---------------------------------------------------------------------------
  // Properties of the vote state

  /** Each count moves by at most one per call. */
  lemma CountsMoveByAtMostOne(s: LikeState, deleteLike: bool, value: bool)
    ensures var t := LikeTransition(s, deleteLike, value);
            && -1 <= t.likeCount - s.likeCount <= 1
            && -1 <= t.dislikeCount - s.dislikeCount <= 1
  {
  }

  /** Whatever the state before, at most one button is active after the call. */
  lemma TransitionIsExclusive(s: LikeState, deleteLike: bool, value: bool)
    ensures Exclusive(LikeTransition(s, deleteLike, value))
  {
  }

  /** From a state with at most one active button, a press keeps everybody else's votes. */
  lemma PressKeepsOthers(s: LikeState, value: bool)
    requires Exclusive(s)
    ensures Others(Press(s, value)) == Others(s)
  {
  }

  /** Pressing the same button twice restores the state, unless the other button was active. */
  lemma PressTwiceRestores(s: LikeState, value: bool)
    requires Exclusive(s)
    requires if value then !s.disliked else !s.liked
    ensures Press(Press(s, value), value) == s
  {
  }

  /** Pressing dislike on a liked post switches the vote: one like fewer, one dislike more, with a PUT. */
  lemma SwitchToDislike(s: LikeState, pictureId: string)
    requires s.liked && !s.disliked
    ensures Press(s, false) == LikeState(false, true, s.likeCount - 1, s.dislikeCount + 1)
    ensures RequestFor(s, pictureId, false) == LikeRequest(Put, pictureId, Some(false))
  {
  }

  /** Pressing an active button withdraws the vote with a DELETE. */
  lemma WithdrawVote(s: LikeState, pictureId: string, value: bool)
    requires Exclusive(s) && (if value then s.liked else s.disliked)
    ensures Press(s, value) == s.(liked := false, disliked := false,
                                  likeCount := s.likeCount - (if value then 1 else 0),
                                  dislikeCount := s.dislikeCount - (if value then 0 else 1))
    ensures RequestFor(s, pictureId, value) == LikeRequest(Delete, pictureId, None)
  {
  }
}
