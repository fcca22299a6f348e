/**
 * The boundary classifiers of the feature-engineering script: review scores
 * into five ordered review labels, and day counts into the review-age and
 * last-review-recency bands. Scores and day counts are compared, never
 * computed with, so they are modelled as `real`; a missing value is `None`.
 */
module Classifiers {
  import opened Wrappers
  import opened Frame

  /** The index of `s` in the declared category order `order`. */
  function Position(order: seq<string>, s: string): (k: nat)
    requires s in order
    ensures k < |order| && order[k] == s
    ensures forall j :: 0 <= j < k ==> order[j] != s
  {
    if order[0] == s then 0 else 1 + Position(order[1..], s)
  }

  /** In an order without repeats, the label at index `k` sits at position `k`. */
  lemma PositionOfIndex(order: seq<string>, k: nat)
    requires Distinct(order) && k < |order|
    ensures Position(order, order[k]) == k
  {
  }

  // ---------------------------------------------------------------------
  // Review scores
  // ---------------------------------------------------------------------

  /** The ordered review scale, worst (missing) to best. */
  const REVIEW_CAT: seq<string> := ["no_reviews", "low_reviews", "medium_reviews", "high_reviews", "top_reviews"]

  /** numpy.select: the choice paired with the first condition that holds, else `default`. */
  function Select<T>(conds: seq<bool>, choices: seq<T>, default: T): (r: T)
    requires |conds| == |choices|
    ensures r in choices || r == default
    ensures forall i :: 0 <= i < |conds| && conds[i] && (forall j :: 0 <= j < i ==> !conds[j]) ==> r == choices[i]
    ensures (forall i :: 0 <= i < |conds| ==> !conds[i]) ==> r == default
  {
    if conds == [] then default
    else if conds[0] then choices[0]
    else
      var r := Select(conds[1..], choices[1..], default);
      assert forall i :: 1 <= i < |conds| ==> conds[1..][i - 1] == conds[i] && choices[1..][i - 1] == choices[i];
      r
  }

  /** The five masks handed to numpy.select, evaluated at one cell; a missing score fails every comparison. */
  function ReviewConditions(score: Option<real>): (c: seq<bool>)
    ensures |c| == |REVIEW_CAT|
  {
    match score
    case None => [true, false, false, false, false]
    case Some(x) => [false, x < 4.0, x >= 4.0 && x < 4.6, x >= 4.6 && x <= 4.8, x > 4.8]
  }

  /** The review label of one score, as `categorize_reviews` assigns it. */
  function ReviewLabel(score: Option<real>): (r: string)
    ensures r in REVIEW_CAT
  {
    Select(ReviewConditions(score), REVIEW_CAT, "no_reviews")
  }

  /** The number of conditions that hold. */
  function CountTrue(conds: seq<bool>): (n: nat)
    ensures n <= |conds|
  {
    if conds == [] then 0 else (if conds[0] then 1 else 0) + CountTrue(conds[1..])
  }

  /** Each band of the review scale, in both directions; 4.6 and 4.8 both belong to `high_reviews`. */
  lemma ReviewBands(score: Option<real>)
    ensures ReviewLabel(score) == "no_reviews" <==> score.None?
    ensures ReviewLabel(score) == "low_reviews" <==> score.Some? && score.value < 4.0
    ensures ReviewLabel(score) == "medium_reviews" <==> score.Some? && 4.0 <= score.value < 4.6
    ensures ReviewLabel(score) == "high_reviews" <==> score.Some? && 4.6 <= score.value <= 4.8
    ensures ReviewLabel(score) == "top_reviews" <==> score.Some? && score.value > 4.8
  {
    var c := ReviewConditions(score);
    match score
    case None =>
      assert c[0];
    case Some(x) =>
      if x < 4.0 { assert c[1] && !c[0]; }
      else if x < 4.6 { assert c[2] && !c[0] && !c[1]; }
      else if x <= 4.8 { assert c[3] && !c[0] && !c[1] && !c[2]; }
      else { assert c[4] && !c[0] && !c[1] && !c[2] && !c[3]; }
  }

  /** Exactly one numpy.select condition holds for every cell, so the default is never what picks a label. */
  lemma ExactlyOneReviewCondition(score: Option<real>)
    ensures CountTrue(ReviewConditions(score)) == 1
  {
    var c := ReviewConditions(score);
    assert CountTrue(c[5..]) == 0;
    assert CountTrue(c[4..]) == (if c[4] then 1 else 0) + CountTrue(c[5..]) by { assert c[4..][1..] == c[5..]; }
    assert CountTrue(c[3..]) == (if c[3] then 1 else 0) + CountTrue(c[4..]) by { assert c[3..][1..] == c[4..]; }
    assert CountTrue(c[2..]) == (if c[2] then 1 else 0) + CountTrue(c[3..]) by { assert c[2..][1..] == c[3..]; }
    assert CountTrue(c[1..]) == (if c[1] then 1 else 0) + CountTrue(c[2..]) by { assert c[1..][1..] == c[2..]; }
    assert c[0..] == c;
  }

  /** The review scale is monotone in the score, and every present score ranks above `no_reviews`. */
  lemma ReviewMonotone(a: real, b: real)
    requires a <= b
    ensures 0 < Position(REVIEW_CAT, ReviewLabel(Some(a))) <= Position(REVIEW_CAT, ReviewLabel(Some(b)))
  {
    ReviewRank(a);
    ReviewRank(b);
  }

  /** The position of a present score's label: 1 below 4.0, 2 below 4.6, 3 up to 4.8, 4 above. */
  lemma ReviewRank(x: real)
    ensures Position(REVIEW_CAT, ReviewLabel(Some(x))) == if x < 4.0 then 1 else if x < 4.6 then 2 else if x <= 4.8 then 3 else 4
  {
    ReviewBands(Some(x));
    var k := if x < 4.0 then 1 else if x < 4.6 then 2 else if x <= 4.8 then 3 else 4;
    assert ReviewLabel(Some(x)) == REVIEW_CAT[k];
    PositionOfIndex(REVIEW_CAT, k);
  }

  // ---------------------------------------------------------------------
  // First-match day cascades
  // ---------------------------------------------------------------------

  /** The index of the first bound that `d` does not exceed; `|bounds|` when it exceeds them all. */
  function FirstBound(bounds: seq<real>, d: real): (k: nat)
    ensures k <= |bounds|
    ensures forall j :: 0 <= j < k ==> d > bounds[j]
    ensures k < |bounds| ==> d <= bounds[k]
  {
    if bounds == [] then 0
    else if d <= bounds[0] then 0
    else
      var k := FirstBound(bounds[1..], d);
      assert forall j :: 1 <= j < |bounds| ==> bounds[1..][j - 1] == bounds[j];
      1 + k
  }

  ghost predicate Ascending(bounds: seq<real>) {
    forall i, j :: 0 <= i < j < |bounds| ==> bounds[i] < bounds[j]
  }

  /**
   * A cascade of `days <= bound` tests, first match wins: `order[0]` for a
   * missing value, `order[k + 1]` for the k-th bound, the last label beyond
   * every bound.
   */
  function Cascade(order: seq<string>, bounds: seq<real>, days: Option<real>): string
    requires |order| == |bounds| + 2
  {
    match days
    case None => order[0]
    case Some(d) => order[1 + FirstBound(bounds, d)]
  }

  /** Over ascending bounds a cascade is monotone in the day count and ranks present values above the missing label. */
  lemma CascadeMonotone(order: seq<string>, bounds: seq<real>, a: real, b: real)
    requires |order| == |bounds| + 2 && Distinct(order) && Ascending(bounds)
    requires a <= b
    ensures 0 < Position(order, Cascade(order, bounds, Some(a))) <= Position(order, Cascade(order, bounds, Some(b)))
  {
    var ka, kb := FirstBound(bounds, a), FirstBound(bounds, b);
    PositionOfIndex(order, 1 + ka);
    PositionOfIndex(order, 1 + kb);
  }

  // Review age (days since first review)

  const AGE_ORDER: seq<string> := [
    "no_review_yet",
    "very_new (<= 1 month)",
    "new (<= 6 months)",
    "established (<= 1 year)",
    "mature (<= 3 years)",
    "veteran (<= 5 years)",
    "legacy (over 5 years)"
  ]

  const AGE_BOUNDS: seq<real> := [30.0, 180.0, 365.0, 1095.0, 1825.0]

  /** `categorize_review_age`, the if/elif chain as written. */
  function ReviewAge(days: Option<real>): (r: string)
    ensures r in AGE_ORDER
  {
    match days
    case None => "no_review_yet"
    case Some(d) =>
      if d <= 30.0 then "very_new (<= 1 month)"
      else if d <= 180.0 then "new (<= 6 months)"
      else if d <= 365.0 then "established (<= 1 year)"
      else if d <= 1095.0 then "mature (<= 3 years)"
      else if d <= 1825.0 then "veteran (<= 5 years)"
      else "legacy (over 5 years)"
  }

  /** The if/elif chain is the first-match cascade over 30, 180, 365, 1095 and 1825 days. */
  lemma ReviewAgeIsCascade(days: Option<real>)
    ensures ReviewAge(days) == Cascade(AGE_ORDER, AGE_BOUNDS, days)
  {
    if days.Some? {
      var d := days.value;
      var k := FirstBound(AGE_BOUNDS, d);
      assert AGE_BOUNDS[0] == 30.0 && AGE_BOUNDS[1] == 180.0 && AGE_BOUNDS[2] == 365.0 && AGE_BOUNDS[3] == 1095.0 && AGE_BOUNDS[4] == 1825.0;
      if d <= 30.0 { assert k == 0; }
      else if d <= 180.0 { assert k == 1; }
      else if d <= 365.0 { assert k == 2; }
      else if d <= 1095.0 { assert k == 3; }
      else if d <= 1825.0 { assert k == 4; }
      else { assert k == 5; }
    }
  }

  /** Each review-age band in both directions. */
  lemma ReviewAgeBands(days: Option<real>)
    ensures ReviewAge(days) == "no_review_yet" <==> days.None?
    ensures ReviewAge(days) == "very_new (<= 1 month)" <==> days.Some? && days.value <= 30.0
    ensures ReviewAge(days) == "new (<= 6 months)" <==> days.Some? && 30.0 < days.value <= 180.0
    ensures ReviewAge(days) == "established (<= 1 year)" <==> days.Some? && 180.0 < days.value <= 365.0
    ensures ReviewAge(days) == "mature (<= 3 years)" <==> days.Some? && 365.0 < days.value <= 1095.0
    ensures ReviewAge(days) == "veteran (<= 5 years)" <==> days.Some? && 1095.0 < days.value <= 1825.0
    ensures ReviewAge(days) == "legacy (over 5 years)" <==> days.Some? && days.value > 1825.0
  {
  }

  /** The review-age label is monotone in the day count along `categories_order`. */
  lemma ReviewAgeMonotone(a: real, b: real)
    requires a <= b
    ensures 0 < Position(AGE_ORDER, ReviewAge(Some(a))) <= Position(AGE_ORDER, ReviewAge(Some(b)))
  {
    ReviewAgeIsCascade(Some(a));
    ReviewAgeIsCascade(Some(b));
    CascadeMonotone(AGE_ORDER, AGE_BOUNDS, a, b);
  }

  // Last-review recency (days since last review)

  const RECENCY_ORDER: seq<string> := [
    "no_review",
    "very_recent (<= 1 week)",
    "recent (<= 1 month)",
    "somewhat_recent (<= 3 months)",
    "old (<= 6 months)",
    "very_old (<= 1 year)",
    "dormant (over a year)"
  ]

  const RECENCY_BOUNDS: seq<real> := [7.0, 30.0, 90.0, 180.0, 365.0]

  /** `categorize_last_review_recency`, the if/elif chain as written. */
  function LastReviewRecency(days: Option<real>): (r: string)
    ensures r in RECENCY_ORDER
  {
    match days
    case None => "no_review"
    case Some(d) =>
      if d <= 7.0 then "very_recent (<= 1 week)"
      else if d <= 30.0 then "recent (<= 1 month)"
      else if d <= 90.0 then "somewhat_recent (<= 3 months)"
      else if d <= 180.0 then "old (<= 6 months)"
      else if d <= 365.0 then "very_old (<= 1 year)"
      else "dormant (over a year)"
  }

  /** The if/elif chain is the first-match cascade over 7, 30, 90, 180 and 365 days. */
  lemma LastReviewRecencyIsCascade(days: Option<real>)
    ensures LastReviewRecency(days) == Cascade(RECENCY_ORDER, RECENCY_BOUNDS, days)
  {
    if days.Some? {
      var d := days.value;
      var k := FirstBound(RECENCY_BOUNDS, d);
      assert RECENCY_BOUNDS[0] == 7.0 && RECENCY_BOUNDS[1] == 30.0 && RECENCY_BOUNDS[2] == 90.0 && RECENCY_BOUNDS[3] == 180.0 && RECENCY_BOUNDS[4] == 365.0;
      if d <= 7.0 { assert k == 0; }
      else if d <= 30.0 { assert k == 1; }
      else if d <= 90.0 { assert k == 2; }
      else if d <= 180.0 { assert k == 3; }
      else if d <= 365.0 { assert k == 4; }
      else { assert k == 5; }
    }
  }

  /** Each recency band in both directions. */
  lemma LastReviewRecencyBands(days: Option<real>)
    ensures LastReviewRecency(days) == "no_review" <==> days.None?
    ensures LastReviewRecency(days) == "very_recent (<= 1 week)" <==> days.Some? && days.value <= 7.0
    ensures LastReviewRecency(days) == "recent (<= 1 month)" <==> days.Some? && 7.0 < days.value <= 30.0
    ensures LastReviewRecency(days) == "somewhat_recent (<= 3 months)" <==> days.Some? && 30.0 < days.value <= 90.0
    ensures LastReviewRecency(days) == "old (<= 6 months)" <==> days.Some? && 90.0 < days.value <= 180.0
    ensures LastReviewRecency(days) == "very_old (<= 1 year)" <==> days.Some? && 180.0 < days.value <= 365.0
    ensures LastReviewRecency(days) == "dormant (over a year)" <==> days.Some? && days.value > 365.0
  {
  }

  /** The recency label is monotone in the day count along `categories_order`. */
  lemma LastReviewRecencyMonotone(a: real, b: real)
    requires a <= b
    ensures 0 < Position(RECENCY_ORDER, LastReviewRecency(Some(a))) <= Position(RECENCY_ORDER, LastReviewRecency(Some(b)))
  {
    LastReviewRecencyIsCascade(Some(a));
    LastReviewRecencyIsCascade(Some(b));
    CascadeMonotone(RECENCY_ORDER, RECENCY_BOUNDS, a, b);
  }
}
