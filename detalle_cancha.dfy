/** The review part of the court detail page (DetalleCancha.jsx): the star
    rating input, the star display, and the guarded submission of a review.
    The page's court id comes from the URL as text; the server's answer is an
    input. */
module DetalleCancha {
  import opened Common

  /** The number of stars the page draws. */
  const Stars: nat := 5

  /** `ReviewStars`: star `i` (0-based) is filled when `i < rating`. */
  predicate StarFilled(i: int, rating: int) {
    i < rating
  }

  /** `StarRatingInput`: the star whose value `i + 1` is at most the rating is lit. */
  predicate InputStarLit(i: int, rating: int) {
    i + 1 <= rating
  }

  /** The input and the display light the same stars. */
  lemma InputAgreesWithDisplay(i: int, rating: int)
    ensures InputStarLit(i, rating) <==> StarFilled(i, rating)
  {
  }

  /** The number of filled stars among the first `n`. */
  function FilledAmong(n: nat, rating: int): (k: nat)
    ensures k <= n
  {
    if n == 0 then 0 else FilledAmong(n - 1, rating) + (if StarFilled(n - 1, rating) then 1 else 0)
  }

  /** A rating from 0 to 5 shows exactly that many filled stars. */
  lemma {:induction false} FilledCount(n: nat, rating: int)
    requires 0 <= rating <= n
    ensures FilledAmong(n, rating) == rating
  {
    if rating == n {
      FilledAllBelow(n, rating);
    } else {
      FilledCount(n - 1, rating);
    }
  }

  /** With the rating at least `n`, all of the first `n` stars are filled. */
  lemma {:induction false} FilledAllBelow(n: nat, rating: int)
    requires n <= rating
    ensures FilledAmong(n, rating) == n
  {
    if n > 0 {
      FilledAllBelow(n - 1, rating);
    }
  }

  /** Clicking star `i` sets the rating to `i + 1`: a rating from 1 to 5 under
      which that star and all before it are filled and the rest are not. */
  function RatingFromStar(i: int): (rating: int)
    requires 0 <= i < Stars
    ensures 1 <= rating <= Stars
    ensures forall j :: 0 <= j < Stars ==> (StarFilled(j, rating) <==> j <= i)
  {
    i + 1
  }

  /** The submit button is disabled exactly when no rating is chosen or the
      comment is blank. */
  function SubmitDisabled(rating: int, comment: string): (disabled: bool)
    ensures disabled <==> rating == 0 || AllSpace(comment)
  {
    TrimEmptyIffBlank(comment);
    rating == 0 || Trim(comment) == ""
  }

  /** The body of the review request. */
  datatype ReviewRequest = ReviewRequest(id_reserva: nat, calificacion: int, comentario: string)

  /** The completed reservation every review is filed under. */
  const DemoReservation: nat := 2

  /** What `handleSubmitReview` decides before any request. */
  datatype ReviewDecision =
    | Incomplete                  // no rating or blank comment: alert
    | OtherCourt                  // a court other than "2": the demo alert
    | Send(request: ReviewRequest)

  /** The guards of `handleSubmitReview`, in order: a missing rating or comment
      first, then the court. */
  function DecideReview(id: string, rating: int, comment: string): (r: ReviewDecision)
    ensures r == Incomplete <==> SubmitDisabled(rating, comment)
    ensures r == OtherCourt <==> !SubmitDisabled(rating, comment) && id != "2"
    ensures r.Send? ==>
      id == "2" && rating != 0 && !AllSpace(comment) &&
      r.request == ReviewRequest(DemoReservation, rating, comment)
  {
    if rating == 0 || Trim(comment) == "" then Incomplete
    else if id != "2" then OtherCourt
    else Send(ReviewRequest(DemoReservation, rating, comment))
  }

  /** The review form's state on the page of court `id`. */
  class ReviewForm {
    const id: string
    var newRating: int
    var newComment: string

    constructor (id: string)
      ensures this.id == id && newRating == 0 && newComment == ""
    {
      this.id := id;
      newRating := 0;
      newComment := "";
    }

    /** A click on star `i`. */
    method SetRating(i: int)
      requires 0 <= i < Stars
      modifies this`newRating
      ensures newRating == RatingFromStar(i)
    {
      newRating := i + 1;
    }

    /** Typing in the comment box. */
    method SetComment(text: string)
      modifies this`newComment
      ensures newComment == text
    {
      newComment := text;
    }

    /** `handleSubmitReview` with the server's answer `ok`: a request is sent
        only past both guards; on success the form is reset and the court is
        fetched again; otherwise the form is kept. */
    method HandleSubmitReview(ok: bool) returns (request: Option<ReviewRequest>, refetch: bool)
      modifies this`newRating, this`newComment
      ensures var d := DecideReview(id, old(newRating), old(newComment));
        request == (if d.Send? then Some(d.request) else None)
      ensures refetch <==> request.Some? && ok
      ensures refetch ==> newRating == 0 && newComment == ""
      ensures !refetch ==> newRating == old(newRating) && newComment == old(newComment)
    {
      request, refetch := None, false;
      if newRating == 0 || Trim(newComment) == "" {
        return;
      }
      var idReservaCompletada := DemoReservation;
      if id != "2" {
        return;
      }
      request := Some(ReviewRequest(idReservaCompletada, newRating, newComment));
      if ok {
        newRating := 0;
        newComment := "";
        refetch := true;
      }
    }
  }
}
