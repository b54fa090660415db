/**
 * The reviews list: what it shows once the GET of the reviews endpoint has
 * answered. The request itself is not modelled; its outcome is an input.
 */
module Reviews {
  import opened Dom

  /** One review as the endpoint returns it. */
  datatype Review = Review(name: string, rating: int, comment: string)

  /**
   * The outcome of fetching and decoding the list: the decoded array, or a
   * rejection (network failure, or a body that is not JSON).
   */
  datatype ReviewsResponse = ReviewList(items: seq<Review>) | Rejected

  const NoReviews := "No reviews yet. Be the first to review!"
  const ReviewsUnavailable := "Unable to load reviews. Please try again later."

  /** U+2B50, the star repeated once per rating point. */
  const Star: char := '\U{2B50}'

  /** `"⭐".repeat(n)`. */
  function Stars(n: nat): (s: string)
    ensures |s| == n
    ensures forall i :: 0 <= i < |s| ==> s[i] == Star
  {
    if n == 0 then "" else [Star] + Stars(n - 1)
  }

  /** `repeat` raises a RangeError for a negative count; every rating here can be repeated. */
  predicate RatingsRepeatable(items: seq<Review>) {
    forall i :: 0 <= i < |items| ==> items[i].rating >= 0
  }

  /** The card of one review: its name, one star per rating point, its comment. */
  function Card(review: Review): Node
    requires review.rating >= 0
  {
    ReviewCard(review.name, Stars(review.rating), review.comment)
  }

  /** One card per review, in the order the endpoint returned them. */
  function Cards(items: seq<Review>): (cards: seq<Node>)
    requires RatingsRepeatable(items)
    ensures |cards| == |items|
    ensures forall i :: 0 <= i < |items| ==> cards[i] == Card(items[i])
  {
    if items == [] then [] else [Card(items[0])] + Cards(items[1..])
  }

  /**
   * What the list holds once the request has settled: the unavailable
   * message when it was rejected, the empty-list message for an empty array,
   * the unavailable message too when some rating is negative (the RangeError
   * of `repeat` reaches the same catch handler), and otherwise one card per
   * review in order, each with `rating` stars.
   */
  function ReviewsView(response: ReviewsResponse): (r: seq<Node>)
    ensures response.Rejected? ==> r == [Paragraph(ReviewsUnavailable)]
    ensures response.ReviewList? && response.items == [] ==> r == [Paragraph(NoReviews)]
    ensures response.ReviewList? && !RatingsRepeatable(response.items) ==>
      r == [Paragraph(ReviewsUnavailable)]
    ensures response.ReviewList? && response.items != [] && RatingsRepeatable(response.items) ==>
      |r| == |response.items| &&
      forall i :: 0 <= i < |r| ==>
        r[i].ReviewCard? && r[i].name == response.items[i].name &&
        r[i].comment == response.items[i].comment &&
        |r[i].stars| == response.items[i].rating &&
        forall j :: 0 <= j < |r[i].stars| ==> r[i].stars[j] == Star
  {
    match response
    case Rejected => [Paragraph(ReviewsUnavailable)]
    case ReviewList(items) =>
      if items == [] then [Paragraph(NoReviews)]
      else if RatingsRepeatable(items) then Cards(items)
      else [Paragraph(ReviewsUnavailable)]
  }

  /**
   * The `.then` body and its `.catch`: a missing list element is skipped;
   * otherwise the list is cleared and filled card by card, and a failure
   * (a rejected request, or `repeat` throwing on a negative rating) replaces
   * whatever was appended with the unavailable message.
   */
  method RenderReviews(list: Container?, response: ReviewsResponse)
    modifies list
    ensures list != null ==> list.children == ReviewsView(response)
  {
    if list == null {
      return;
    }
    if response.Rejected? {
      list.ShowParagraph(ReviewsUnavailable);
      return;
    }
    var items := response.items;
    list.Clear();
    if |items| == 0 {
      list.ShowParagraph(NoReviews);
      return;
    }
    var i := 0;
    while i < |items|
      invariant 0 <= i <= |items|
      invariant |list.children| == i
      invariant forall k :: 0 <= k < i ==> items[k].rating >= 0 && list.children[k] == Card(items[k])
    {
      if items[i].rating < 0 {
        list.ShowParagraph(ReviewsUnavailable);
        return;
      }
      list.AppendChild(Card(items[i]));
      i := i + 1;
    }
    assert list.children == Cards(items);
  }
}
