/** The rent-burden analysis over renters only: the bracket-by-label counts
    melted into one bar segment per (bracket, label) and ordered by the
    bracket order, the mean ordinal score per bracket, and the brackets with
    the highest and lowest mean (`idxmax` / `idxmin`). */
module RentBurden {
  import opened Wrappers
  import opened Seqs
  import opened Survey
  import opened Scales
  import opened CrossTab
  import opened Groups

  /** `rent_burden_order`, the categories of the ordered categorical. */
  const BurdenOrder: seq<string> := [
    "\U{2264}30% (Affordable)",
    "31-50% (Moderate)",
    "51-80% (High)",
    ">80% (Very High)",
    "Unknown"
  ]

  /** Position of a bracket in the categorical order; a bracket outside the
      categories becomes NaN and sorts after all of them. */
  function BracketRank(b: string): (n: nat)
    ensures n <= |BurdenOrder|
    ensures n < |BurdenOrder| <==> b in BurdenOrder
    ensures n < |BurdenOrder| ==> BurdenOrder[n] == b
  {
    if b in BurdenOrder then IndexOf(BurdenOrder, b) else |BurdenOrder|
  }

  /** The ranks follow the listed order, each category its own rank. */
  lemma BracketRankFollowsOrder(i: nat, j: nat)
    requires i < j < |BurdenOrder|
    ensures BracketRank(BurdenOrder[i]) == i
    ensures BracketRank(BurdenOrder[i]) < BracketRank(BurdenOrder[j])
  {
    BurdenOrderDistinct();
    RankOfCategory(i);
    RankOfCategory(j);
  }

  lemma BurdenOrderDistinct()
    ensures Distinct(BurdenOrder)
  {
  }

  lemma RankOfCategory(i: nat)
    requires i < |BurdenOrder| && Distinct(BurdenOrder)
    ensures BracketRank(BurdenOrder[i]) == i
  {
    assert BurdenOrder[i] in BurdenOrder;
  }

  /** One row of `rent_satisfaction_melted`. */
  datatype Segment = Segment(bracket: string, level: string, count: nat)

  /** The sum of the counts of a list of segments. */
  function Total(ss: seq<Segment>): nat
  {
    if ss == [] then 0 else ss[0].count + Total(ss[1..])
  }

  /** One value column of the crosstab, melted: the count of `level` in each
      bracket, brackets in crosstab order. */
  function MeltColumn(rows: seq<Row>, brackets: seq<string>, level: string): (r: seq<Segment>)
    ensures |r| == |brackets|
    ensures forall i :: 0 <= i < |brackets| ==>
              r[i] == Segment(brackets[i], level, Tally(rows, RentBurden, {brackets[i]}, {level}))
  {
    if brackets == [] then []
    else [Segment(brackets[0], level, Tally(rows, RentBurden, {brackets[0]}, {level}))]
         + MeltColumn(rows, brackets[1..], level)
  }

  /** `pd.melt` of the crosstab: its value columns one after the other, one
      segment per (bracket, label) pair, so no segment twice when neither
      the brackets nor the labels repeat. */
  function MeltColumns(rows: seq<Row>, brackets: seq<string>, levels: seq<string>): (r: seq<Segment>)
    ensures forall e :: e in r <==>
              e.bracket in brackets && e.level in levels && e.count == Tally(rows, RentBurden, {e.bracket}, {e.level})
    ensures Distinct(brackets) && Distinct(levels) ==> Distinct(r)
  {
    if levels == [] then []
    else
      var col := MeltColumn(rows, brackets, levels[0]);
      assert forall e: Segment :: e in col <==>
        e.bracket in brackets && e.level == levels[0] && e.count == Tally(rows, RentBurden, {e.bracket}, {e.level}) by {
        forall e | e in col
          ensures e.bracket in brackets && e.level == levels[0]
        {
          var i :| 0 <= i < |col| && col[i] == e;
        }
        forall e: Segment | e.bracket in brackets && e.level == levels[0] && e.count == Tally(rows, RentBurden, {e.bracket}, {e.level})
          ensures e in col
        {
          var i :| 0 <= i < |brackets| && brackets[i] == e.bracket;
          assert col[i] == e;
        }
      }
      var rest := MeltColumns(rows, brackets, levels[1..]);
      MeltStepDistinct(rows, brackets, levels, rest);
      col + rest
  }

  /** The melted table has one segment per (bracket, label) pair. */
  lemma {:induction false} MeltColumnsLength(rows: seq<Row>, brackets: seq<string>, levels: seq<string>)
    ensures |MeltColumns(rows, brackets, levels)| == |brackets| * |levels|
  {
    if levels != [] {
      var col := MeltColumn(rows, brackets, levels[0]);
      var rest := MeltColumns(rows, brackets, levels[1..]);
      assert MeltColumns(rows, brackets, levels) == col + rest;
      MeltColumnsLength(rows, brackets, levels[1..]);
      MulStep(|brackets|, |levels| - 1);
    }
  }

  lemma MulStep(a: int, b: int)
    ensures a * (b + 1) == a + a * b
  {
  }

  /** Adding one more melted column keeps the segments free of repeats. */
  lemma MeltStepDistinct(rows: seq<Row>, brackets: seq<string>, levels: seq<string>, rest: seq<Segment>)
    requires levels != []
    requires forall e :: e in rest ==> e.level in levels[1..]
    requires Distinct(brackets) && Distinct(levels[1..]) ==> Distinct(rest)
    ensures Distinct(brackets) && Distinct(levels) ==> Distinct(MeltColumn(rows, brackets, levels[0]) + rest)
  {
    if Distinct(brackets) && Distinct(levels) {
      var col := MeltColumn(rows, brackets, levels[0]);
      MeltColumnDistinct(rows, brackets, levels[0]);
      assert levels[0] !in levels[1..] by {
        forall j | 0 <= j < |levels[1..]| ensures levels[1..][j] != levels[0] {
          assert levels[1..][j] == levels[j + 1];
        }
      }
      assert Distinct(levels[1..]) by {
        forall i, j | 0 <= i < j < |levels[1..]| ensures levels[1..][i] != levels[1..][j] {
          assert levels[1..][i] == levels[i + 1] && levels[1..][j] == levels[j + 1];
        }
      }
      forall x | x in col ensures x !in rest {
        var i :| 0 <= i < |col| && col[i] == x;
      }
      DistinctConcat(col, rest);
    }
  }

  lemma MeltColumnDistinct(rows: seq<Row>, brackets: seq<string>, level: string)
    requires Distinct(brackets)
    ensures Distinct(MeltColumn(rows, brackets, level))
  {
    var col := MeltColumn(rows, brackets, level);
    forall i, j | 0 <= i < j < |col| ensures col[i] != col[j] {
      assert col[i].bracket == brackets[i] && col[j].bracket == brackets[j];
    }
  }

  lemma {:induction false} TotalAppend(a: seq<Segment>, b: seq<Segment>)
    ensures Total(a + b) == Total(a) + Total(b)
  {
    if a == [] {
      assert a + b == b;
    } else {
      assert (a + b)[1..] == a[1..] + b;
      TotalAppend(a[1..], b);
    }
  }

  /** The total is the count of any one segment plus the total of the rest. */
  lemma {:induction false} TotalRemove(b: seq<Segment>, i: nat)
    requires i < |b|
    ensures Total(b) == b[i].count + Total(b[..i] + b[i + 1..])
  {
    if i == 0 {
      assert b[..i] + b[i + 1..] == b[1..];
    } else {
      TotalRemove(b[1..], i - 1);
      assert b[..i] + b[i + 1..] == [b[0]] + (b[1..][..i - 1] + b[1..][i..]);
    }
  }

  /** Reordering segments keeps their total. */
  lemma {:induction false} TotalPermutation(a: seq<Segment>, b: seq<Segment>)
    requires multiset(a) == multiset(b)
    ensures Total(a) == Total(b)
    decreases |a|
  {
    if a != [] {
      assert a[0] in multiset(b);
      var i :| 0 <= i < |b| && b[i] == a[0];
      RemoveOne(a, b, i);
      TotalPermutation(a[1..], b[..i] + b[i + 1..]);
      TotalRemove(b, i);
    } else {
      assert b == [];
    }
  }

  /** A melted column adds up to the rows with that label and a listed bracket. */
  lemma {:induction false} MeltColumnTotal(rows: seq<Row>, brackets: seq<string>, level: string)
    requires Distinct(brackets)
    ensures Total(MeltColumn(rows, brackets, level)) == Tally(rows, RentBurden, SetOf(brackets), {level})
  {
    if brackets == [] {
      TallyNothing(rows, RentBurden, SetOf(brackets), {level});
    } else {
      var col := MeltColumn(rows, brackets, level);
      assert col[1..] == MeltColumn(rows, brackets[1..], level);
      MeltColumnTotal(rows, brackets[1..], level);
      assert SetOf(brackets) == {brackets[0]} + SetOf(brackets[1..]);
      TallySplitKeys(rows, RentBurden, {brackets[0]}, SetOf(brackets[1..]), {level});
    }
  }

  /** The melted table adds up to the rows with a listed bracket and label. */
  lemma {:induction false} MeltColumnsTotal(rows: seq<Row>, brackets: seq<string>, levels: seq<string>)
    requires Distinct(brackets) && Distinct(levels)
    ensures Total(MeltColumns(rows, brackets, levels)) == Tally(rows, RentBurden, SetOf(brackets), SetOf(levels))
  {
    if levels == [] {
      TallyNothing(rows, RentBurden, SetOf(brackets), SetOf(levels));
    } else {
      var col := MeltColumn(rows, brackets, levels[0]);
      TotalAppend(col, MeltColumns(rows, brackets, levels[1..]));
      MeltColumnTotal(rows, brackets, levels[0]);
      MeltColumnsTotal(rows, brackets, levels[1..]);
      assert SetOf(levels) == {levels[0]} + SetOf(levels[1..]);
      TallySplitLevels(rows, RentBurden, SetOf(brackets), {levels[0]}, SetOf(levels[1..]));
    }
  }

  function BracketKey(e: Segment): real
  {
    BracketRank(e.bracket) as real
  }

  /** `rent_satisfaction_melted` after `sort_values("rent_burden")`: one
      segment per bracket and label that occur among the renters, none
      twice, carrying the number of renters with both, ordered by the
      bracket order with unlisted brackets last. The segments of the chart
      account for every renter exactly once. The source's sort does not fix
      the order within one bracket, and neither does this contract. */
  function RentSatisfaction(renters: seq<Row>): (r: seq<Segment>)
    ensures forall e :: e in r <==>
              && e.bracket in Column(renters, RentBurden)
              && e.level in LevelColumn(renters)
              && e.count == Tally(renters, RentBurden, {e.bracket}, {e.level})
    ensures Distinct(r)
    ensures forall i, j :: 0 <= i < j < |r| ==> BracketRank(r[i].bracket) <= BracketRank(r[j].bracket)
    ensures Total(r) == |renters|
  {
    var brackets := Dedup(Column(renters, RentBurden));
    var levels := Dedup(LevelColumn(renters));
    var r := SortBy(MeltColumns(renters, brackets, levels), BracketKey);
    DistinctPermutation(MeltColumns(renters, brackets, levels), r);
    ReorderedMembers(renters, brackets, levels, r);
    ReorderedTotal(renters, brackets, levels, r);
    InBracketOrder(r);
    r
  }

  /** Any reordering of the melted table holds the same segments, one per
      bracket and label that occur. */
  lemma ReorderedMembers(rows: seq<Row>, brackets: seq<string>, levels: seq<string>, r: seq<Segment>)
    requires forall k :: k in brackets <==> k in Column(rows, RentBurden)
    requires forall k :: k in levels <==> k in LevelColumn(rows)
    requires multiset(r) == multiset(MeltColumns(rows, brackets, levels))
    ensures forall e :: e in r <==>
              && e.bracket in Column(rows, RentBurden)
              && e.level in LevelColumn(rows)
              && e.count == Tally(rows, RentBurden, {e.bracket}, {e.level})
  {
    SameElements(r, MeltColumns(rows, brackets, levels));
  }

  /** Any reordering of the melted table still counts every row once. */
  lemma ReorderedTotal(rows: seq<Row>, brackets: seq<string>, levels: seq<string>, r: seq<Segment>)
    requires Distinct(brackets) && Distinct(levels)
    requires forall k :: k in brackets <==> k in Column(rows, RentBurden)
    requires forall k :: k in levels <==> k in LevelColumn(rows)
    requires multiset(r) == multiset(MeltColumns(rows, brackets, levels))
    ensures Total(r) == |rows|
  {
    TotalPermutation(r, MeltColumns(rows, brackets, levels));
    assert SetOf(levels) == SetOf(LevelColumn(rows));
    MeltCountsEveryRow(rows, brackets, levels);
  }

  /** Sorted on the bracket key means the bracket ranks never decrease. */
  lemma InBracketOrder(r: seq<Segment>)
    requires SortedBy(r, BracketKey)
    ensures forall i, j :: 0 <= i < j < |r| ==> BracketRank(r[i].bracket) <= BracketRank(r[j].bracket)
  {
    forall i, j | 0 <= i < j < |r| ensures BracketRank(r[i].bracket) <= BracketRank(r[j].bracket) {
      assert BracketKey(r[i]) <= BracketKey(r[j]);
    }
  }

  /** Melting the crosstab over all brackets and labels that occur keeps
      every row in exactly one segment. */
  lemma MeltCountsEveryRow(rows: seq<Row>, brackets: seq<string>, levels: seq<string>)
    requires Distinct(brackets) && Distinct(levels)
    requires forall k :: k in brackets <==> k in Column(rows, RentBurden)
    requires SetOf(levels) == SetOf(LevelColumn(rows))
    ensures Total(MeltColumns(rows, brackets, levels)) == |rows|
  {
    MeltColumnsTotal(rows, brackets, levels);
    KeysCoverRows(rows, RentBurden, brackets);
    TallyCovering(rows, RentBurden, SetOf(brackets), SetOf(levels));
    CountAllLevels(rows);
  }

  /** `avg_satisfaction_by_burden`: the renters grouped by bracket, each
      total the ordinal label sum of the bracket's renters, so each mean an
      ordinal score in [1, 5] over the bracket's labelled rows. */
  function BurdenMeans(rows: seq<Row>): (gs: seq<GroupSummary>)
    ensures Distinct(KeysOf(gs))
    ensures forall k :: k in KeysOf(gs) <==> k in Column(Renters(rows), RentBurden)
    ensures forall g :: g in gs ==> g.count == Tally(Renters(rows), RentBurden, {g.key}, SetOf(Labels))
    ensures forall g :: g in gs ==> g.total == LabelSum(Renters(rows), RentBurden, g.key, Ordinal)
    ensures forall g :: g in gs && g.count > 0 ==> 1.0 <= g.Mean().value <= 5.0
  {
    GroupMeansWithinScale(Renters(rows), RentBurden, Ordinal);
    GroupBy(Renters(rows), RentBurden, Ordinal)
  }

  /** A respondent who does not rent has no effect on the bracket means. */
  lemma NonRenterIgnored(a: seq<Row>, r: Row, b: seq<Row>)
    requires r.housing != Renting
    ensures BurdenMeans(a + [r] + b) == BurdenMeans(a + b)
  {
    NonRenterDropped(a, r, b);
  }

  /** What the rent-burden section reports when there are renters. */
  datatype BurdenView = BurdenView(
    segments: seq<Segment>,
    means: seq<GroupSummary>,
    highest: Option<nat>,
    lowest: Option<nat>)

  /** The rent-burden section: nothing when no selected row rents ("No
      rental data available"); otherwise the chart segments, the bracket
      means and the positions of the brackets with the highest and the
      lowest mean. When no bracket has a defined mean both positions are
      absent. */
  method AnalyseRentBurden(rows: seq<Row>) returns (v: Option<BurdenView>)
    ensures v.None? <==> Renters(rows) == []
    ensures v.Some? ==> v.value.segments == RentSatisfaction(Renters(rows))
    ensures v.Some? ==> Total(v.value.segments) == |Renters(rows)|
    ensures v.Some? ==> Distinct(v.value.segments)
    ensures v.Some? ==> forall e :: e in v.value.segments ==> e.count == Tally(Renters(rows), RentBurden, {e.bracket}, {e.level})
    ensures v.Some? ==> forall i, j :: 0 <= i < j < |v.value.segments| ==>
              BracketRank(v.value.segments[i].bracket) <= BracketRank(v.value.segments[j].bracket)
    ensures v.Some? ==> v.value.means == BurdenMeans(rows)
    ensures v.Some? && v.value.highest.Some? ==>
              var ms := v.value.means;
              var h := v.value.highest.value;
              h < |ms| && ms[h].count > 0 &&
              forall i :: 0 <= i < |ms| && ms[i].count > 0 ==> ms[i].Mean().value <= ms[h].Mean().value
    ensures v.Some? && v.value.lowest.Some? ==>
              var ms := v.value.means;
              var l := v.value.lowest.value;
              l < |ms| && ms[l].count > 0 &&
              forall i :: 0 <= i < |ms| && ms[i].count > 0 ==> ms[l].Mean().value <= ms[i].Mean().value
    ensures v.Some? ==> (v.value.highest.None? <==> forall g :: g in v.value.means ==> g.count == 0)
    ensures v.Some? ==> (v.value.lowest.None? <==> v.value.highest.None?)
  {
    var renters := Renters(rows);
    if renters == [] {
      return None;
    }
    var means := BurdenMeans(rows);
    var hi := IdxMax(means);
    var lo := IdxMin(means);
    v := Some(BurdenView(RentSatisfaction(renters), means, hi, lo));
  }
}
