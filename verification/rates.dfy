/** The two headline rates of the overall distribution: the share of
    respondents who are satisfied ("Very Satisfied" or "Satisfied") and the
    share who are dissatisfied ("Dissatisfied" or "Very Dissatisfied"), each
    a percentage of all labelled rows of the unfiltered table. */
module Rates {
  import opened Wrappers
  import opened Seqs
  import opened Survey
  import opened Scales

  const SatisfiedLabels: set<string> := {VerySatisfied, Satisfied}
  const DissatisfiedLabels: set<string> := {Dissatisfied, VeryDissatisfied}

  datatype Rates = Rates(satisfied: real, dissatisfied: real)

  /** `count / total * 100`, for a positive total. */
  function Share(count: nat, total: nat): (p: real)
    ensures count <= total ==> 0.0 <= p <= 100.0
  {
    if total == 0 then 0.0
    else
      assert count <= total ==> (count as real) / (total as real) <= 1.0;
      (count as real) / (total as real) * 100.0
  }

  /** Shares of the parts of a partition of `n` rows add up to 100. */
  lemma {:induction false} SharesAddUp(a: nat, b: nat, c: nat, n: nat)
    requires a + b + c == n && n > 0
    ensures Share(a, n) + Share(b, n) + Share(c, n) == 100.0
  {
    var nr := n as real;
    var x, y, z := (a as real) / nr, (b as real) / nr, (c as real) / nr;
    assert x + y + z == 1.0 by {
      assert x + y + z == (a + b + c) as real / nr;
    }
    calc {
      Share(a, n) + Share(b, n) + Share(c, n);
      x * 100.0 + y * 100.0 + z * 100.0;
      (x + y + z) * 100.0;
    }
  }

  /** The percentage of `rows` labelled with one of `levels`; over no rows
      pandas divides 0 by 0 and gets NaN, modelled as no value. */
  function Percentage(rows: seq<Row>, levels: set<string>): (p: Option<real>)
    ensures p.Some? <==> |rows| > 0
    ensures p.Some? ==> p.value == Share(CountLevels(rows, levels), |rows|)
    ensures p.Some? ==> 0.0 <= p.value <= 100.0
  {
    if |rows| == 0 then None
    else Some(Share(CountLevels(rows, levels), |rows|))
  }

  /** Shares of one total add. */
  lemma ShareAdds(a: nat, b: nat, n: nat)
    requires n > 0
    ensures Share(a + b, n) == Share(a, n) + Share(b, n)
  {
    var nr := n as real;
    assert (a + b) as real / nr == (a as real) / nr + (b as real) / nr;
  }

  /** The percentage over two disjoint label sets is the sum of their
      percentages. */
  lemma PercentageAdds(rows: seq<Row>, a: set<string>, b: set<string>)
    requires a !! b
    ensures Percentage(rows, a + b).Some? ==>
              Percentage(rows, a + b).value == Percentage(rows, a).value + Percentage(rows, b).value
  {
    if |rows| > 0 {
      CountLevelsSplit(rows, a, b);
      ShareAdds(CountLevels(rows, a), CountLevels(rows, b), |rows|);
    }
  }

  /** Every row labelled with one of `levels` makes 100 percent; no row so
      labelled makes 0 percent. */
  lemma PercentageBounds(rows: seq<Row>, levels: set<string>)
    requires |rows| > 0
    ensures (forall r :: r in rows ==> r.level in levels) ==> Percentage(rows, levels) == Some(100.0)
    ensures (forall r :: r in rows ==> r.level !in levels) ==> Percentage(rows, levels) == Some(0.0)
  {
    if forall r :: r in rows ==> r.level in levels {
      CountEveryRow(rows, levels);
      assert (|rows| as real) / (|rows| as real) == 1.0;
    }
    if forall r :: r in rows ==> r.level !in levels {
      CountLevelsAgree(rows, levels, {});
      NothingCounted(rows);
    }
  }

  lemma {:induction false} NothingCounted(rows: seq<Row>)
    ensures CountLevels(rows, {}) == 0
  {
    if rows != [] {
      NothingCounted(rows[1..]);
    }
  }

  /** `satisfied_pct` and `dissatisfied_pct`: the percentages of rows
      labelled "Very Satisfied" or "Satisfied", and "Dissatisfied" or "Very
      Dissatisfied". Both lie in [0, 100], they
      sum to at most 100, and what they leave is exactly the share of rows
      labelled "Neutral" or with a label outside the five. */
  function SatisfactionRates(rows: seq<Row>): (r: Option<Rates>)
    ensures r.Some? <==> |rows| > 0
    ensures r.Some? ==> r.value.satisfied == Percentage(rows, SatisfiedLabels).value
    ensures r.Some? ==> r.value.dissatisfied == Percentage(rows, DissatisfiedLabels).value
    ensures r.Some? ==>
              && 0.0 <= r.value.satisfied <= 100.0
              && 0.0 <= r.value.dissatisfied <= 100.0
              && r.value.satisfied + r.value.dissatisfied <= 100.0
    ensures r.Some? ==>
              100.0 - r.value.satisfied - r.value.dissatisfied
              == Share(CountLevels(rows, {Neutral}) + CountOthers(rows, SetOf(Labels)), |rows|)
  {
    var s := Percentage(rows, SatisfiedLabels);
    var d := Percentage(rows, DissatisfiedLabels);
    if s.None? then None
    else
      LabelCounts(rows);
      SharesAddUp(CountLevels(rows, SatisfiedLabels), CountLevels(rows, DissatisfiedLabels),
                  CountLevels(rows, {Neutral}) + CountOthers(rows, SetOf(Labels)), |rows|);
      Some(Rates(s.value, d.value))
  }

  /** Satisfied, dissatisfied, neutral and other rows make up the table. */
  lemma LabelCounts(rows: seq<Row>)
    ensures CountLevels(rows, SatisfiedLabels) + CountLevels(rows, DissatisfiedLabels)
            + CountLevels(rows, {Neutral}) + CountOthers(rows, SetOf(Labels)) == |rows|
  {
    LabelsPartition();
    CountLevelsSplit(rows, SatisfiedLabels, DissatisfiedLabels);
    CountLevelsSplit(rows, SatisfiedLabels + DissatisfiedLabels, {Neutral});
  }

  lemma LabelsPartition()
    ensures SatisfiedLabels !! DissatisfiedLabels
    ensures SatisfiedLabels + DissatisfiedLabels !! {Neutral}
    ensures SatisfiedLabels + DissatisfiedLabels + {Neutral} == SetOf(Labels)
  {
  }
}
