/** The two satisfaction scales: the module-level `satisfaction_scores`
    table (ordinal 1..5) and the `satisfaction_weights` table defined inside
    the tab (signed -2..+2). Mapping a label through either table is pandas'
    `Series.map(dict)`: a label that is not a key gives NaN, never 0. */
module Scales {
  import opened Wrappers
  import opened Seqs

  const VerySatisfied: string := "Very Satisfied"
  const Satisfied: string := "Satisfied"
  const Neutral: string := "Neutral"
  const Dissatisfied: string := "Dissatisfied"
  const VeryDissatisfied: string := "Very Dissatisfied"

  /** The five labels in display order, from "Very Satisfied" to
      "Very Dissatisfied" (the `ordered_cols` list of the heatmap). */
  const Labels: seq<string> := [VerySatisfied, Satisfied, Neutral, Dissatisfied, VeryDissatisfied]

  /** `satisfaction_scores`. */
  const SatisfactionScores: map<string, int> :=
    map[VerySatisfied := 5, Satisfied := 4, Neutral := 3, Dissatisfied := 2, VeryDissatisfied := 1]

  /** `satisfaction_weights`. */
  const SatisfactionWeights: map<string, int> :=
    map[VerySatisfied := 2, Satisfied := 1, Neutral := 0, Dissatisfied := -1, VeryDissatisfied := -2]

  /** Which of the two tables a numeric column is derived from. */
  datatype Scale = Ordinal | Signed

  function TableOf(s: Scale): map<string, int>
  {
    match s
    case Ordinal => SatisfactionScores
    case Signed => SatisfactionWeights
  }

  /** Smallest and largest value of a scale. */
  function Lo(s: Scale): int
  {
    match s
    case Ordinal => 1
    case Signed => -2
  }

  function Hi(s: Scale): int
  {
    match s
    case Ordinal => 5
    case Signed => 2
  }

  /** `total` is a possible sum of `count` values of the scale: it lies
      between `count * Lo(s)` and `count * Hi(s)`. */
  predicate WithinScale(s: Scale, total: int, count: nat)
  {
    match s
    case Ordinal => count <= total <= 5 * count
    case Signed => -2 * count <= total <= 2 * count
  }

  /** One cell of `df["satisfaction_level"].map(table)`: defined exactly for
      the five labels, and then within the scale's range. */
  function ScaleValue(s: Scale, name: string): (v: Option<int>)
    ensures v.Some? <==> name in Labels
    ensures v.Some? ==> Lo(s) <= v.value <= Hi(s)
  {
    var table := TableOf(s);
    if name in table then Some(table[name]) else None
  }

  /** Both tables have exactly the five display labels as keys, and the five
      labels are distinct. */
  lemma TablesShareLabels()
    ensures SatisfactionScores.Keys == SetOf(Labels)
    ensures SatisfactionWeights.Keys == SetOf(Labels)
    ensures Distinct(Labels)
  {
  }

  /** The signed weight of every label is its ordinal score shifted by 3,
      and an unknown label has neither. */
  lemma WeightIsShiftedScore(name: string)
    ensures ScaleValue(Signed, name).Some? <==> ScaleValue(Ordinal, name).Some?
    ensures ScaleValue(Signed, name).Some? ==>
              ScaleValue(Signed, name).value == ScaleValue(Ordinal, name).value - 3
  {
  }

  /** The display order is the order of decreasing score. */
  lemma DisplayOrderIsScoreOrder(i: nat, j: nat)
    requires i < j < |Labels|
    ensures ScaleValue(Ordinal, Labels[i]).value > ScaleValue(Ordinal, Labels[j]).value
  {
  }
}
