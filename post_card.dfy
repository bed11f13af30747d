/** The like button of a post card (src/components/PostCard.jsx). */
module PostCard {

  class Card {
    /** `post.likes`, the count the card was shown with. */
    const likes: int
    var liked: bool
    var likeCount: int

    /** The shown count is the post's count plus one while this viewer likes it. */
    ghost predicate Valid()
      reads this
    {
      likeCount == likes + (if liked then 1 else 0)
    }

    constructor (likes: int)
      ensures Valid()
      ensures this.likes == likes && !liked && likeCount == likes
    {
      this.likes := likes;
      liked := false;
      likeCount := likes;
    }

    /** `handleLike`: liking adds one to the count, unliking takes one away. */
    method HandleLike()
      requires Valid()
      modifies this
      ensures Valid()
      ensures liked == !old(liked)
      ensures old(liked) ==> likeCount == old(likeCount) - 1
      ensures !old(liked) ==> likeCount == old(likeCount) + 1
    {
      if liked {
        likeCount := likeCount - 1;
      } else {
        likeCount := likeCount + 1;
      }
      liked := !liked;
    }
  }

  /** Liking and then unliking a fresh card shows the post's own count again, unliked. */
  method LikeTwice(likes: int) returns (afterOne: int, afterTwo: int, likedAtEnd: bool)
    ensures afterOne == likes + 1
    ensures afterTwo == likes && !likedAtEnd
  {
    var c := new Card(likes);
    c.HandleLike();
    afterOne := c.likeCount;
    c.HandleLike();
    afterTwo, likedAtEnd := c.likeCount, c.liked;
  }

  /** Two presses restore any card's state, liked or not. */
  method PressTwice(c: Card)
    requires c.Valid()
    modifies c
    ensures c.Valid() && c.liked == old(c.liked) && c.likeCount == old(c.likeCount)
  {
    c.HandleLike();
    c.HandleLike();
  }
}
