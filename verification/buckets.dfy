/** The five-way classification of a district score on the signed scale,
    written twice in the tab: once as the `>=` chain of the popup (from 1.5
    downward) and once as the `<` chain of the map fill (from -1.5 upward).
    A score is a possibly-NaN float: every comparison with NaN is false, so
    a NaN score falls through each chain to its final branch. */
module Buckets {
  import opened Wrappers

  datatype Bucket = VeryLow | Low | Middle | High | VeryHigh

  /** Position of a bucket, from 0 (very low) to 4 (very high). */
  function Rank(b: Bucket): (n: nat)
    ensures n <= 4
  {
    match b
    case VeryLow => 0
    case Low => 1
    case Middle => 2
    case High => 3
    case VeryHigh => 4
  }

  function BucketAt(n: nat): (b: Bucket)
    requires n <= 4
    ensures Rank(b) == n
  {
    if n == 0 then VeryLow
    else if n == 1 then Low
    else if n == 2 then Middle
    else if n == 3 then High
    else VeryHigh
  }

  function Colour(b: Bucket): string
  {
    match b
    case VeryLow => "#d73027"
    case Low => "#fc8d59"
    case Middle => "#fee08b"
    case High => "#91cf60"
    case VeryHigh => "#1a9850"
  }

  function Description(b: Bucket): string
  {
    match b
    case VeryLow => "Very Low Satisfaction"
    case Low => "Low Satisfaction"
    case Middle => "Neutral Satisfaction"
    case High => "High Satisfaction"
    case VeryHigh => "Very High Satisfaction"
  }

  /** Each bucket has its own colour. */
  lemma ColourIdentifiesBucket(a: Bucket, b: Bucket)
    ensures Colour(a) == Colour(b) <==> a == b
  {
  }

  /** The four bucket boundaries, ascending. */
  const Boundaries: seq<real> := [-1.5, -0.5, 0.5, 1.5]

  /** Number of boundaries at or below `x`. */
  function AtOrBelow(bs: seq<real>, x: real): (n: nat)
    ensures n <= |bs|
  {
    if bs == [] then 0 else (if bs[0] <= x then 1 else 0) + AtOrBelow(bs[1..], x)
  }

  /** The reference classification of a defined score: its bucket is the
      number of boundaries it has reached. */
  function Classify(x: real): Bucket
  {
    BucketAt(AtOrBelow(Boundaries, x))
  }

  /** Python float comparisons, where a NaN score compares false. */
  predicate Below(score: Option<real>, c: real)
  {
    score.Some? && score.value < c
  }

  predicate AtLeast(score: Option<real>, c: real)
  {
    score.Some? && score.value >= c
  }

  datatype Status = Status(description: string, colour: string)

  /** The chain of `create_popup_html`. */
  function PopupStatus(score: Option<real>): Status
  {
    if AtLeast(score, 1.5) then Status("Very High Satisfaction", "#1a9850")
    else if AtLeast(score, 0.5) then Status("High Satisfaction", "#91cf60")
    else if AtLeast(score, -0.5) then Status("Neutral Satisfaction", "#fee08b")
    else if AtLeast(score, -1.5) then Status("Low Satisfaction", "#fc8d59")
    else Status("Very Low Satisfaction", "#d73027")
  }

  /** The chain of `style_function` for a score found in the table. */
  function FillColour(score: Option<real>): string
  {
    if Below(score, -1.5) then "#d73027"
    else if Below(score, -0.5) then "#fc8d59"
    else if Below(score, 0.5) then "#fee08b"
    else if Below(score, 1.5) then "#91cf60"
    else "#1a9850"
  }

  /** The boundaries a score reaches, counted directly. */
  lemma ReachedBoundaries(x: real)
    ensures AtOrBelow(Boundaries, x) ==
              (if x < -1.5 then 0 else if x < -0.5 then 1 else if x < 0.5 then 2 else if x < 1.5 then 3 else 4)
  {
    assert Boundaries[1..] == [-0.5, 0.5, 1.5];
    assert [-0.5, 0.5, 1.5][1..] == [0.5, 1.5];
    assert [0.5, 1.5][1..] == [1.5];
    assert [1.5][1..] == [];
    assert AtOrBelow([1.5], x) == if 1.5 <= x then 1 else 0;
    assert AtOrBelow([0.5, 1.5], x) == (if 0.5 <= x then 1 else 0) + AtOrBelow([1.5], x);
    assert AtOrBelow([-0.5, 0.5, 1.5], x) == (if -0.5 <= x then 1 else 0) + AtOrBelow([0.5, 1.5], x);
  }

  /** For a defined score the popup chain is the reference classification. */
  lemma PopupClassifies(x: real)
    ensures PopupStatus(Some(x)) == Status(Description(Classify(x)), Colour(Classify(x)))
  {
    ReachedBoundaries(x);
  }

  /** For a defined score the fill chain is the reference classification. */
  lemma FillClassifies(x: real)
    ensures FillColour(Some(x)) == Colour(Classify(x))
  {
    ReachedBoundaries(x);
  }

  /** The two chains give every defined score the same colour. */
  lemma ChainsAgree(x: real)
    ensures FillColour(Some(x)) == PopupStatus(Some(x)).colour
  {
    PopupClassifies(x);
    FillClassifies(x);
  }

  /** A score exactly on a boundary lands in the bucket above it. */
  lemma BoundaryGoesUp(i: nat)
    requires i < |Boundaries|
    ensures Rank(Classify(Boundaries[i])) == i + 1
  {
    ReachedBoundaries(Boundaries[i]);
  }

  lemma {:induction false} AtOrBelowMonotone(bs: seq<real>, x: real, y: real)
    requires x <= y
    ensures AtOrBelow(bs, x) <= AtOrBelow(bs, y)
  {
    if bs != [] {
      AtOrBelowMonotone(bs[1..], x, y);
    }
  }

  /** A higher score never lands in a lower bucket. */
  lemma Monotone(x: real, y: real)
    requires x <= y
    ensures Rank(Classify(x)) <= Rank(Classify(y))
  {
    AtOrBelowMonotone(Boundaries, x, y);
  }

  /** With a NaN score the chains disagree: the fill falls through to dark
      green while the popup falls through to "Very Low Satisfaction". */
  lemma NaNScoreSplitsChains()
    ensures FillColour(None) == Colour(VeryHigh)
    ensures PopupStatus(None) == Status(Description(VeryLow), Colour(VeryLow))
  {
  }
}
