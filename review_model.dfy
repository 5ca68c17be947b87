/** The `Review` schema of backend/models/Review.js and the collection that stores
    reviews. Saving a draft runs the schema: `professorId`, `studentId`, `rating`,
    `semester` and `subject` are required, the rating lies in 1..5, and the comment
    is trimmed and at most 500 characters long. */
module ReviewModel {
  import opened Common
  import opened Text

  const MaxCommentLength: nat := 500

  /** A stored review. */
  datatype Review = Review(
    id: nat,
    professorId: nat,
    studentId: nat,
    rating: int,
    semester: string,
    subject: string,
    comment: string,
    createdAt: nat)

  /** The fields given to `new Review({...})`; a missing id or rating is None and a
      missing string is "". */
  datatype ReviewDraft = ReviewDraft(
    professorId: Option<nat>,
    studentId: Option<nat>,
    rating: Option<int>,
    semester: string,
    subject: string,
    comment: string)

  /** The schema's validators, run on the values after the `trim` setter. */
  predicate DraftValid(d: ReviewDraft)
  {
    && d.professorId.Some?
    && d.studentId.Some?
    && d.rating.Some? && 1 <= d.rating.value <= 5
    && d.semester != ""
    && d.subject != ""
    && |Trim(d.comment)| <= MaxCommentLength
  }

  /** What the schema guarantees of a review it has saved. */
  predicate WellFormed(r: Review)
  {
    && 1 <= r.rating <= 5
    && r.semester != ""
    && r.subject != ""
    && |r.comment| <= MaxCommentLength && Trimmed(r.comment)
  }

  /** The document `new Review(d)` produces, or None when a validator fails. */
  function Materialize(d: ReviewDraft, id: nat, createdAt: nat): (r: Option<Review>)
    ensures r.Some? <==> DraftValid(d)
    ensures r.Some? ==> WellFormed(r.value) && r.value.id == id && r.value.createdAt == createdAt
    ensures r.Some? ==> Some(r.value.professorId) == d.professorId && Some(r.value.studentId) == d.studentId
    ensures r.Some? ==> Some(r.value.rating) == d.rating && r.value.comment == Trim(d.comment)
  {
    if !DraftValid(d) then None
    else Some(Review(id, d.professorId.value, d.studentId.value, d.rating.value,
                     d.semester, d.subject, Trim(d.comment), createdAt))
  }

  /** Every draft with a semester or subject missing is refused, whatever else it holds. */
  lemma MissingCourseRefused(d: ReviewDraft, id: nat, createdAt: nat)
    requires d.semester == "" || d.subject == ""
    ensures Materialize(d, id, createdAt).None?
  {
  }

  /** The collection invariant: insertion order is `createdAt` order, ids are unique,
      every review passed the schema, and the clock is ahead of every stamp. */
  ghost predicate Stamped(reviews: seq<Review>, clock: nat)
  {
    && (forall i, j :: 0 <= i < j < |reviews| ==> reviews[i].createdAt < reviews[j].createdAt)
    && (forall i, j :: 0 <= i < j < |reviews| ==> reviews[i].id != reviews[j].id)
    && (forall i :: 0 <= i < |reviews| ==> WellFormed(reviews[i]))
    && (forall i :: 0 <= i < |reviews| ==> reviews[i].createdAt < clock && reviews[i].id < clock)
  }

  lemma StampedAppend(reviews: seq<Review>, clock: nat, r: Review)
    requires Stamped(reviews, clock)
    requires r.id == clock && r.createdAt == clock && WellFormed(r)
    ensures Stamped(reviews + [r], clock + 1)
  {
    var s := reviews + [r];
    forall i, j | 0 <= i < j < |s|
      ensures s[i].createdAt < s[j].createdAt && s[i].id != s[j].id
    {
      if j == |reviews| {
        assert s[i] == reviews[i];
      }
    }
  }

  /** An average kept as the sum of the ratings and their number: `sum / count`, or 0
      when `count` is 0. */
  datatype Average = Average(sum: int, count: nat)

  /** The sum of the ratings (`reviews.reduce((sum, r) => sum + r.rating, 0)`). */
  function RatingSum(rs: seq<Review>): int
  {
    if rs == [] then 0 else rs[0].rating + RatingSum(rs[1..])
  }

  /** Every rating lies in 1..5, so a non-empty list averages between 1 and 5. */
  lemma {:induction false} RatingSumBounds(rs: seq<Review>)
    requires forall i :: 0 <= i < |rs| ==> 1 <= rs[i].rating <= 5
    ensures |rs| <= RatingSum(rs) <= 5 * |rs|
  {
    if rs != [] {
      RatingSumBounds(rs[1..]);
    }
  }

  /** `Review.find({ professorId }).sort({ createdAt: -1 })`: the reviews of one professor,
      newest first. */
  function ReviewsOf(reviews: seq<Review>, professorId: nat): (r: seq<Review>)
    ensures forall x :: x in r <==> x in reviews && x.professorId == professorId
  {
    Reverse(Filter(reviews, (x: Review) => x.professorId == professorId))
  }

  /** In a stamped collection the reviews of a professor come newest first. */
  lemma ReviewsOfNewestFirst(reviews: seq<Review>, clock: nat, professorId: nat)
    requires Stamped(reviews, clock)
    ensures forall i, j :: 0 <= i < j < |ReviewsOf(reviews, professorId)| ==>
      ReviewsOf(reviews, professorId)[i].createdAt > ReviewsOf(reviews, professorId)[j].createdAt
  {
    var older := (a: Review, b: Review) => a.createdAt < b.createdAt;
    var newer := (a: Review, b: Review) => a.createdAt > b.createdAt;
    var p := (x: Review) => x.professorId == professorId;
    assert Chain(reviews, older);
    FilterKeepsChain(reviews, p, older);
    ReverseFlipsChain(Filter(reviews, p), older, newer);
  }

  /** The collection of reviews, with its clock for ids and `createdAt` stamps. */
  class ReviewCollection {
    var reviews: seq<Review>
    var clock: nat

    ghost predicate Valid()
      reads this
    {
      Stamped(reviews, clock)
    }

    constructor ()
      ensures Valid() && reviews == []
    {
      reviews := [];
      clock := 0;
    }

    /** `new Review(d).save()`: appends the materialised review, or stores nothing when a
        validator fails. */
    method Save(d: ReviewDraft) returns (r: Option<Review>)
      requires Valid()
      modifies this
      ensures Valid()
      ensures r == Materialize(d, old(clock), old(clock))
      ensures reviews == if r.Some? then old(reviews) + [r.value] else old(reviews)
    {
      r := Materialize(d, clock, clock);
      if r.Some? {
        Append(r.value);
      }
    }

    /** Inserts a well-formed review stamped with the clock, and advances the clock. */
    method Append(x: Review)
      requires Valid()
      requires x.id == clock && x.createdAt == clock && WellFormed(x)
      modifies this
      ensures Valid()
      ensures reviews == old(reviews) + [x] && clock == old(clock) + 1
    {
      StampedAppend(reviews, clock, x);
      reviews := reviews + [x];
      clock := clock + 1;
    }
  }
}
