/** The group aggregator: `groupby(key)[score].agg(["mean", "count"])` over a
    score column obtained by mapping satisfaction_level through one of the two
    scales, the descending sort of the district table with its highest and
    lowest district, and `idxmax` / `idxmin` over group means. */
module Groups {
  import opened Wrappers
  import opened Seqs
  import opened Survey
  import opened Scales

  /** One group: the sum and the number of its defined scores. */
  datatype GroupSummary = GroupSummary(key: string, total: int, count: nat) {

    /** The group mean; NaN (no value) for a group without defined scores. */
    function Mean(): (m: Option<real>)
      ensures m.Some? <==> count > 0
    {
      if count == 0 then None else Some(total as real / count as real)
    }
  }

  /** The summary of group `k`: rows whose label has no value on the scale
      add to neither the total nor the count. */
  function Summarise(rows: seq<Row>, d: Dimension, k: string, s: Scale): (g: GroupSummary)
    ensures g.key == k
    ensures g.count == Tally(rows, d, {k}, SetOf(Labels))
    ensures g.total == LabelSum(rows, d, k, s)
    ensures WithinScale(s, g.total, g.count)
  {
    if rows == [] then GroupSummary(k, 0, 0)
    else
      var g := Summarise(rows[1..], d, k, s);
      var v := ScaleValue(s, rows[0].level);
      LabelSumStep(rows, d, k, s);
      if Field(rows[0], d) == k && v.Some? then GroupSummary(k, g.total + v.value, g.count + 1)
      else g
  }

  /** The value of one label on a scale. */
  function Weight(s: Scale, name: string): int
    requires name in Labels
  {
    ScaleValue(s, name).value
  }

  /** The sum of the scale values of group `k`, counted label by label: each
      of the five labels contributes its value times the number of the
      group's rows that carry it. */
  function LabelSum(rows: seq<Row>, d: Dimension, k: string, s: Scale): int
  {
    Term(rows, d, k, s, VerySatisfied) + Term(rows, d, k, s, Satisfied) + Term(rows, d, k, s, Neutral)
    + Term(rows, d, k, s, Dissatisfied) + Term(rows, d, k, s, VeryDissatisfied)
  }

  /** The contribution of one label to the label sum of group `k`. */
  function Term(rows: seq<Row>, d: Dimension, k: string, s: Scale, name: string): int
    requires name in Labels
  {
    Weight(s, name) * Tally(rows, d, {k}, {name})
  }

  /** The first row adds the label's value to its term exactly when it
      belongs to the group and carries that label. */
  lemma TermStep(rows: seq<Row>, d: Dimension, k: string, s: Scale, name: string)
    requires rows != [] && name in Labels
    ensures Term(rows, d, k, s, name) ==
              Term(rows[1..], d, k, s, name)
              + (if Field(rows[0], d) == k && rows[0].level == name then Weight(s, name) else 0)
  {
    var t := Tally(rows[1..], d, {k}, {name});
    var w := Weight(s, name);
    if Field(rows[0], d) == k && rows[0].level == name {
      assert Tally(rows, d, {k}, {name}) == t + 1;
      assert w * (t + 1) == w * t + w;
    } else {
      assert Tally(rows, d, {k}, {name}) == t;
    }
  }

  /** The first row adds its own value to the label sum of the rest, when it
      belongs to the group and carries one of the five labels. */
  lemma LabelSumStep(rows: seq<Row>, d: Dimension, k: string, s: Scale)
    requires rows != []
    ensures LabelSum(rows, d, k, s) ==
              LabelSum(rows[1..], d, k, s)
              + (if Field(rows[0], d) == k && ScaleValue(s, rows[0].level).Some?
                 then ScaleValue(s, rows[0].level).value else 0)
  {
    TermStep(rows, d, k, s, VerySatisfied);
    TermStep(rows, d, k, s, Satisfied);
    TermStep(rows, d, k, s, Neutral);
    TermStep(rows, d, k, s, Dissatisfied);
    TermStep(rows, d, k, s, VeryDissatisfied);
  }

  /** The keys of a group table, in table order. */
  function KeysOf(gs: seq<GroupSummary>): (ks: seq<string>)
    ensures |ks| == |gs|
    ensures forall i :: 0 <= i < |gs| ==> ks[i] == gs[i].key
  {
    if gs == [] then [] else [gs[0].key] + KeysOf(gs[1..])
  }

  function SummariseAll(rows: seq<Row>, d: Dimension, keys: seq<string>, s: Scale): (gs: seq<GroupSummary>)
    ensures |gs| == |keys|
    ensures forall i :: 0 <= i < |keys| ==> gs[i] == Summarise(rows, d, keys[i], s)
  {
    if keys == [] then [] else [Summarise(rows, d, keys[0], s)] + SummariseAll(rows, d, keys[1..], s)
  }

  /** `rows.groupby(d)[score].agg(["mean", "count"])`: one group per value
      of `d` that occurs (also when none of its scores is defined), whose
      count is the number of its rows carrying one of the five labels and
      whose total is their label sum. */
  function GroupBy(rows: seq<Row>, d: Dimension, s: Scale): (gs: seq<GroupSummary>)
    ensures Distinct(KeysOf(gs))
    ensures forall k :: k in KeysOf(gs) <==> k in Column(rows, d)
    ensures forall g :: g in gs ==> g.count == Tally(rows, d, {g.key}, SetOf(Labels))
    ensures forall g :: g in gs ==> g.total == LabelSum(rows, d, g.key, s)
    ensures forall g :: g in gs ==> WithinScale(s, g.total, g.count)
  {
    var keys := Dedup(Column(rows, d));
    var gs := SummariseAll(rows, d, keys, s);
    assert KeysOf(gs) == keys;
    gs
  }

  /** A group mean lies within the bounds of the scale it averages. */
  lemma MeanWithinScale(g: GroupSummary, s: Scale)
    requires g.count > 0
    requires WithinScale(s, g.total, g.count)
    ensures Lo(s) as real <= g.Mean().value <= Hi(s) as real
  {
    var c := g.count as real;
    var t := g.total as real;
    match s
    case Ordinal =>
      assert 1.0 * c <= t <= 5.0 * c;
      DivideBounds(1.0, t, 5.0, c);
    case Signed =>
      assert -2.0 * c <= t <= 2.0 * c;
      DivideBounds(-2.0, t, 2.0, c);
  }

  /** Dividing bounds `lo * c <= t <= hi * c` by a positive `c`. */
  lemma DivideBounds(lo: real, t: real, hi: real, c: real)
    requires c > 0.0 && lo * c <= t <= hi * c
    ensures lo <= t / c <= hi
  {
    var m := t / c;
    assert m * c == t;
    assert (m - lo) * c >= 0.0;
    assert (hi - m) * c >= 0.0;
  }

  /** Every group mean of a table built by `GroupBy` lies within the scale. */
  lemma GroupMeansWithinScale(rows: seq<Row>, d: Dimension, s: Scale)
    ensures forall g :: g in GroupBy(rows, d, s) && g.count > 0 ==>
              Lo(s) as real <= g.Mean().value <= Hi(s) as real
  {
    forall g | g in GroupBy(rows, d, s) && g.count > 0
      ensures Lo(s) as real <= g.Mean().value <= Hi(s) as real
    {
      MeanWithinScale(g, s);
    }
  }

  /** A row whose label is not one of the five changes no group: it is not
      counted as a zero score. */
  lemma {:induction false} UnscoredRowIgnored(a: seq<Row>, r: Row, b: seq<Row>, d: Dimension, k: string, s: Scale)
    requires r.level !in Labels
    ensures Summarise(a + [r] + b, d, k, s) == Summarise(a + b, d, k, s)
  {
    if a == [] {
      assert a + [r] + b == [r] + b;
      assert a + b == b;
      assert ([r] + b)[1..] == b;
      assert ScaleValue(s, r.level).None?;
    } else {
      assert (a + [r] + b)[1..] == a[1..] + [r] + b;
      assert (a + b)[1..] == a[1..] + b;
      assert (a + [r] + b)[0] == a[0] == (a + b)[0];
      UnscoredRowIgnored(a[1..], r, b, d, k, s);
    }
  }

  /** `district_satisfaction`: signed weights averaged per district. A
      district's total is its label sum on the signed scale, so its mean is
      that sum over its count; each defined mean lies in [-2, 2]. */
  function DistrictSummary(rows: seq<Row>): (gs: seq<GroupSummary>)
    ensures Distinct(KeysOf(gs))
    ensures forall k :: k in KeysOf(gs) <==> k in Column(rows, District)
    ensures forall g :: g in gs ==> g.count == Tally(rows, District, {g.key}, SetOf(Labels))
    ensures forall g :: g in gs ==> g.total == LabelSum(rows, District, g.key, Signed)
    ensures forall g :: g in gs && g.count > 0 ==> -2.0 <= g.Mean().value <= 2.0
  {
    GroupMeansWithinScale(rows, District, Signed);
    GroupBy(rows, District, Signed)
  }

  /** The sort key that orders defined means from the largest down. */
  function DescendingMean(g: GroupSummary): real
  {
    if g.count > 0 then -(g.total as real / g.count as real) else 0.0
  }

  /** `sort_values("satisfaction_score", ascending=False)`: the groups with a
      defined mean, largest first, then the NaN groups (pandas places NaN
      last). The source's sort does not fix the order of equal means, and
      neither does this contract. */
  function RankByMean(gs: seq<GroupSummary>): (r: seq<GroupSummary>)
    ensures multiset(r) == multiset(gs)
    ensures Ranked(r)
  {
    var scored := Filter(gs, (g: GroupSummary) => g.count > 0);
    var unscored := Filter(gs, (g: GroupSummary) => g.count == 0);
    var sorted := SortBy(scored, DescendingMean);
    FilterCounts(gs, (g: GroupSummary) => g.count > 0);
    FilterCounts(gs, (g: GroupSummary) => g.count == 0);
    SameElements(sorted, scored);
    ScoredThenUnscored(sorted, unscored);
    SplitByScored(gs, scored, unscored);
    sorted + unscored
  }

  /** The two halves of a table split on whether the mean is defined hold
      the table's groups between them. */
  lemma SplitByScored(gs: seq<GroupSummary>, scored: seq<GroupSummary>, unscored: seq<GroupSummary>)
    requires forall x :: multiset(scored)[x] == if x.count > 0 then multiset(gs)[x] else 0
    requires forall x :: multiset(unscored)[x] == if x.count == 0 then multiset(gs)[x] else 0
    ensures multiset(scored) + multiset(unscored) == multiset(gs)
  {
    assert forall x :: (multiset(scored) + multiset(unscored))[x] == multiset(gs)[x];
  }

  /** Defined means sorted descending, followed by NaN groups, are ranked. */
  lemma ScoredThenUnscored(sorted: seq<GroupSummary>, unscored: seq<GroupSummary>)
    requires SortedBy(sorted, DescendingMean)
    requires forall x :: x in sorted ==> x.count > 0
    requires forall x :: x in unscored ==> x.count == 0
    ensures Ranked(sorted + unscored)
  {
    var r := sorted + unscored;
    forall i, j | 0 <= i < j < |r| && r[j].count > 0
      ensures r[i].count > 0 && r[i].Mean().value >= r[j].Mean().value
    {
      assert r[i] in sorted && r[j] in sorted;
      assert DescendingMean(r[i]) <= DescendingMean(r[j]);
    }
  }

  /** `iloc[0]` of the ranked table: when any group has a defined mean,
      a group with the largest one. */
  function Highest(gs: seq<GroupSummary>): (h: Option<GroupSummary>)
    ensures h.Some? <==> |gs| > 0
    ensures h.Some? ==> h.value in gs
    ensures h.Some? && (exists g :: g in gs && g.count > 0) ==>
              h.value.count > 0 && forall g :: g in gs && g.count > 0 ==> g.Mean().value <= h.value.Mean().value
  {
    var r := RankByMean(gs);
    SameElements(r, gs);
    if |r| == 0 then None
    else
      FirstIsHighest(r);
      Some(r[0])
  }

  /** The first group of a ranked table has the largest defined mean, if
      any group has one. */
  lemma FirstIsHighest(r: seq<GroupSummary>)
    requires Ranked(r) && |r| > 0
    ensures (exists g :: g in r && g.count > 0) ==>
              r[0].count > 0 && forall g :: g in r && g.count > 0 ==> g.Mean().value <= r[0].Mean().value
  {
    forall g | g in r && g.count > 0
      ensures r[0].count > 0 && g.Mean().value <= r[0].Mean().value
    {
      var j :| 0 <= j < |r| && r[j] == g;
      if j > 0 {
        RankedAt(r, 0, j);
      }
    }
  }

  /** `iloc[-1]` of the ranked table, as the source reads the lowest
      district: when every group has a defined mean it is the group with the
      smallest one; when some group has no defined mean, that NaN group is
      last and is reported, whatever the defined means are. */
  function LowestAsWritten(gs: seq<GroupSummary>): (l: Option<GroupSummary>)
    ensures l.Some? <==> |gs| > 0
    ensures l.Some? ==> l.value in gs
    ensures l.Some? && (forall g :: g in gs ==> g.count > 0) ==>
              forall g :: g in gs ==> l.value.Mean().value <= g.Mean().value
    ensures l.Some? && (exists g :: g in gs && g.count == 0) ==> l.value.count == 0
  {
    var r := RankByMean(gs);
    SameElements(r, gs);
    if |r| == 0 then None
    else
      LastIsUnscored(r);
      LastIsLowest(r);
      Some(r[|r| - 1])
  }

  /** When every group of a ranked table has a defined mean, the last one
      has the smallest. */
  lemma LastIsLowest(r: seq<GroupSummary>)
    requires Ranked(r) && |r| > 0
    ensures (forall g :: g in r ==> g.count > 0) ==>
              forall g :: g in r ==> r[|r| - 1].Mean().value <= g.Mean().value
  {
    if forall g :: g in r ==> g.count > 0 {
      forall g | g in r ensures r[|r| - 1].Mean().value <= g.Mean().value {
        var j :| 0 <= j < |r| && r[j] == g;
        assert r[|r| - 1] in r;
        if j < |r| - 1 {
          RankedAt(r, j, |r| - 1);
        }
      }
    }
  }

  /** Without NaN groups the as-written reading and the smallest defined
      mean pick the same group. */
  lemma LowestAsWrittenAgrees(gs: seq<GroupSummary>)
    requires forall g :: g in gs ==> g.count > 0
    ensures LowestAsWritten(gs) == Lowest(gs)
  {
    var r := RankByMean(gs);
    SameElements(r, gs);
    assert CountScored(r) == |r|;
  }

  /** The last group of a ranked table has no defined mean, if any group
      lacks one. */
  lemma LastIsUnscored(r: seq<GroupSummary>)
    requires Ranked(r) && |r| > 0
    ensures (exists g :: g in r && g.count == 0) ==> r[|r| - 1].count == 0
  {
    if r[|r| - 1].count > 0 {
      forall g | g in r ensures g.count > 0 {
        var j :| 0 <= j < |r| && r[j] == g;
        if j < |r| - 1 {
          RankedAt(r, j, |r| - 1);
        }
      }
    }
  }

  /** The reading the tab's text gives to the lowest district: the group
      with the smallest defined mean, if any group has one. */
  function Lowest(gs: seq<GroupSummary>): (l: Option<GroupSummary>)
    ensures l.Some? <==> exists g :: g in gs && g.count > 0
    ensures l.Some? ==> l.value in gs && l.value.count > 0
    ensures l.Some? ==> forall g :: g in gs && g.count > 0 ==> l.value.Mean().value <= g.Mean().value
  {
    var r := RankByMean(gs);
    SameElements(r, gs);
    var n := CountScored(r);
    LastScoredIsLowest(r, n);
    if n == 0 then None else Some(r[n - 1])
  }

  /** In a ranked table, the last group of the leading run of defined means
      has the smallest defined mean, and a run of length 0 means no group
      has one. */
  lemma LastScoredIsLowest(r: seq<GroupSummary>, n: nat)
    requires Ranked(r)
    requires n <= |r|
    requires forall i :: 0 <= i < n ==> r[i].count > 0
    requires n < |r| ==> r[n].count == 0
    ensures n == 0 <==> forall g :: g in r ==> g.count == 0
    ensures n > 0 ==> forall g :: g in r && g.count > 0 ==> r[n - 1].Mean().value <= g.Mean().value
  {
    forall g | g in r && g.count > 0
      ensures n > 0 && r[n - 1].Mean().value <= g.Mean().value
    {
      var j :| 0 <= j < |r| && r[j] == g;
      if j < n - 1 {
        RankedAt(r, j, n - 1);
      }
    }
    if n > 0 {
      assert r[0] in r;
    }
  }

  /** Defined means never increase along `r`, and NaN groups come last. */
  ghost predicate Ranked(r: seq<GroupSummary>)
  {
    forall i, j :: 0 <= i < j < |r| && r[j].count > 0 ==>
      r[i].count > 0 && r[i].Mean().value >= r[j].Mean().value
  }

  lemma RankedAt(r: seq<GroupSummary>, i: nat, j: nat)
    requires Ranked(r) && i < j < |r| && r[j].count > 0
    ensures r[i].count > 0 && r[i].Mean().value >= r[j].Mean().value
  {
  }

  /** Length of the leading run of groups with a defined mean. */
  function CountScored(r: seq<GroupSummary>): (n: nat)
    ensures n <= |r|
    ensures forall i :: 0 <= i < n ==> r[i].count > 0
    ensures n < |r| ==> r[n].count == 0
  {
    if r == [] || r[0].count == 0 then 0 else 1 + CountScored(r[1..])
  }

  /** A concrete table where the source names a district without any
      scored response as the lowest, while another district has a mean. */
  lemma LowestAsWrittenPicksUnscored()
    ensures var gs := [GroupSummary("Lisboa", 2, 1), GroupSummary("Porto", 0, 0)];
            && LowestAsWritten(gs).Some? && LowestAsWritten(gs).value.key == "Porto"
            && Lowest(gs).Some? && Lowest(gs).value.key == "Lisboa"
  {
    var lisboa, porto := GroupSummary("Lisboa", 2, 1), GroupSummary("Porto", 0, 0);
    var gs := [lisboa, porto];
    assert porto in gs;
    var l := LowestAsWritten(gs).value;
    assert l == porto;
    var m := Lowest(gs).value;
    assert m == lisboa;
  }

  /** The highest and lowest district named under "Geographic Insights",
      with the lowest read as the smallest defined mean (`Lowest`), not as
      the source's `iloc[-1]` (`LowestAsWritten`): the two differ whenever
      some district has no defined mean. Nothing is named when no district
      has a defined mean. */
  function DistrictExtremes(rows: seq<Row>): (e: Option<(GroupSummary, GroupSummary)>)
    ensures e.Some? <==> exists g :: g in DistrictSummary(rows) && g.count > 0
    ensures e.Some? ==> e.value.0 in DistrictSummary(rows) && e.value.1 in DistrictSummary(rows)
    ensures e.Some? ==> e.value.0.count > 0 && e.value.1.count > 0
    ensures e.Some? ==> forall g :: g in DistrictSummary(rows) && g.count > 0 ==>
              e.value.1.Mean().value <= g.Mean().value <= e.value.0.Mean().value
  {
    var gs := DistrictSummary(rows);
    var low := Lowest(gs);
    if low.None? then None
    else Some((Highest(gs).value, low.value))
  }

  /** `idxmax()` over group means: the first group with the largest
      defined mean, or nothing when no group has one. */
  method IdxMax(gs: seq<GroupSummary>) returns (k: Option<nat>)
    ensures k.None? <==> forall i :: 0 <= i < |gs| ==> gs[i].count == 0
    ensures k.Some? ==> k.value < |gs| && gs[k.value].count > 0
    ensures k.Some? ==> forall i :: 0 <= i < |gs| && gs[i].count > 0 ==>
              gs[i].Mean().value <= gs[k.value].Mean().value
    ensures k.Some? ==> forall i :: 0 <= i < k.value && gs[i].count > 0 ==>
              gs[i].Mean().value < gs[k.value].Mean().value
  {
    k := None;
    var i := 0;
    while i < |gs|
      invariant 0 <= i <= |gs|
      invariant k.None? <==> forall j :: 0 <= j < i ==> gs[j].count == 0
      invariant k.Some? ==> k.value < i && gs[k.value].count > 0
      invariant k.Some? ==> forall j :: 0 <= j < i && gs[j].count > 0 ==>
                  gs[j].Mean().value <= gs[k.value].Mean().value
      invariant k.Some? ==> forall j :: 0 <= j < k.value && gs[j].count > 0 ==>
                  gs[j].Mean().value < gs[k.value].Mean().value
    {
      if gs[i].count > 0 && (k.None? || gs[i].Mean().value > gs[k.value].Mean().value) {
        k := Some(i);
      }
      i := i + 1;
    }
  }

  /** `idxmin()` over group means: the first group with the smallest
      defined mean, or nothing when no group has one. */
  method IdxMin(gs: seq<GroupSummary>) returns (k: Option<nat>)
    ensures k.None? <==> forall i :: 0 <= i < |gs| ==> gs[i].count == 0
    ensures k.Some? ==> k.value < |gs| && gs[k.value].count > 0
    ensures k.Some? ==> forall i :: 0 <= i < |gs| && gs[i].count > 0 ==>
              gs[k.value].Mean().value <= gs[i].Mean().value
    ensures k.Some? ==> forall i :: 0 <= i < k.value && gs[i].count > 0 ==>
              gs[k.value].Mean().value < gs[i].Mean().value
  {
    k := None;
    var i := 0;
    while i < |gs|
      invariant 0 <= i <= |gs|
      invariant k.None? <==> forall j :: 0 <= j < i ==> gs[j].count == 0
      invariant k.Some? ==> k.value < i && gs[k.value].count > 0
      invariant k.Some? ==> forall j :: 0 <= j < i && gs[j].count > 0 ==>
                  gs[k.value].Mean().value <= gs[j].Mean().value
      invariant k.Some? ==> forall j :: 0 <= j < k.value && gs[j].count > 0 ==>
                  gs[k.value].Mean().value < gs[j].Mean().value
    {
      if gs[i].count > 0 && (k.None? || gs[i].Mean().value < gs[k.value].Mean().value) {
        k := Some(i);
      }
      i := i + 1;
    }
  }
}
