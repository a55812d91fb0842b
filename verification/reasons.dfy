/** The dissatisfaction-reason tally: every `reason_*` column that is also a
    key of `reason_mapping` is summed into `reason_counts` under its readable
    label, the pairs are ranked by count, descending, and the first three
    labels are the "top reasons". */
module Reasons {
  import opened Seqs
  import opened Survey

  const ReasonPrefix: string := "reason_"

  /** `reason_mapping`: indicator column -> readable reason. */
  const ReasonMapping: map<string, string> := map[
    "reason_pago-demasiado" := "Paying too much",
    "reason_falta-espaco" := "Lack of space",
    "reason_habitacao-mau-estado" := "Poor housing condition",
    "reason_vivo-longe" := "Living far from work/amenities",
    "reason_quero-independecia" := "Want independence",
    "reason_dificuldades-financeiras" := "Financial difficulties",
    "reason_financeiramente-dependente" := "Financially dependent",
    "reason_vivo-longe-de-transportes" := "Far from transportation",
    "reason_vivo-zona-insegura" := "Living in unsafe area",
    "reason_partilho-casa-com-desconhecidos" := "Sharing with strangers"
  ]

  /** One row of `reason_df`. */
  datatype ReasonCount = ReasonCount(reason: string, count: nat)

  /** No reason occurs twice. */
  predicate UniqueReasons(rs: seq<ReasonCount>)
  {
    forall i, j :: 0 <= i < j < |rs| ==> rs[i].reason != rs[j].reason
  }

  /** A column is summed when it is one of `dissatisfaction_cols` (its name
      starts with "reason_") and a key of `reason_mapping`. */
  predicate Contributes(col: string)
  {
    ReasonPrefix <= col && col in ReasonMapping
  }

  /** `df[col].sum()` over a boolean column: the rows where it is true. */
  function CountTrue(rows: seq<Row>, col: string): (n: nat)
    ensures n <= |rows|
  {
    if rows == [] then 0
    else (if col in rows[0].flags && rows[0].flags[col] then 1 else 0) + CountTrue(rows[1..], col)
  }

  /** Every mapped column carries the prefix, so the prefix test never
      excludes a mapped column; and no two columns share a readable label. */
  lemma MappingShape()
    ensures forall col :: col in ReasonMapping ==> ReasonPrefix <= col
    ensures forall a, b :: a in ReasonMapping && b in ReasonMapping && ReasonMapping[a] == ReasonMapping[b] ==> a == b
  {
  }

  /** Position of the first entry for `reason`, or `|acc|` when there is none. */
  function FindReason(acc: seq<ReasonCount>, reason: string): (i: nat)
    ensures i <= |acc|
    ensures i < |acc| ==> acc[i].reason == reason
    ensures forall j :: 0 <= j < i ==> acc[j].reason != reason
  {
    if acc == [] then 0
    else if acc[0].reason == reason then 0
    else 1 + FindReason(acc[1..], reason)
  }

  /** `reason_counts[reason] = count` on an insertion-ordered dict: an
      existing reason is overwritten in place, a new one is appended. */
  function Put(acc: seq<ReasonCount>, reason: string, count: nat): (r: seq<ReasonCount>)
    ensures ReasonCount(reason, count) in r
    ensures forall x :: x in r ==> x == ReasonCount(reason, count) || x in acc
    ensures forall x :: x in acc && x.reason != reason ==> x in r
    ensures |r| <= |acc| + 1
  {
    var i := FindReason(acc, reason);
    if i < |acc| then
      UpdateMembers(acc, i, ReasonCount(reason, count));
      acc[i := ReasonCount(reason, count)]
    else acc + [ReasonCount(reason, count)]
  }

  /** Overwriting entry `i` adds the new value and drops at most the old one. */
  lemma UpdateMembers(acc: seq<ReasonCount>, i: nat, v: ReasonCount)
    requires i < |acc|
    ensures v in acc[i := v]
    ensures forall x :: x in acc[i := v] ==> x == v || x in acc
    ensures forall x :: x in acc && x != acc[i] ==> x in acc[i := v]
  {
    var r := acc[i := v];
    assert r[i] == v;
    forall x | x in r ensures x == v || x in acc {
      var k :| 0 <= k < |r| && r[k] == x;
      if k != i {
        assert acc[k] == x;
      }
    }
    forall x | x in acc && x != acc[i] ensures x in r {
      var k :| 0 <= k < |acc| && acc[k] == x;
      assert r[k] == x;
    }
  }

  /** Storing under a reason never makes a reason occur twice. */
  lemma PutUnique(acc: seq<ReasonCount>, reason: string, count: nat)
    requires UniqueReasons(acc)
    ensures UniqueReasons(Put(acc, reason, count))
  {
    var i := FindReason(acc, reason);
    var r := Put(acc, reason, count);
    if i < |acc| {
      assert forall k :: 0 <= k < |r| ==> r[k].reason == acc[k].reason;
    } else {
      assert forall k :: 0 <= k < |acc| ==> r[k] == acc[k];
    }
  }

  /** `reason_counts`, built over the columns in table order. Its entries
      are exactly the pairs (label of a contributing column, number of rows
      where that column is true), each label once. */
  function TallyReasons(columns: seq<string>, rows: seq<Row>): (r: seq<ReasonCount>)
    ensures UniqueReasons(r)
    ensures forall x :: x in r ==>
              exists col :: col in columns && Contributes(col) && ReasonMapping[col] == x.reason && x.count == CountTrue(rows, col)
    ensures forall col :: col in columns && Contributes(col) ==>
              ReasonCount(ReasonMapping[col], CountTrue(rows, col)) in r
    ensures |r| <= |columns|
  {
    if columns == [] then []
    else
      var init := columns[..|columns| - 1];
      var col := columns[|columns| - 1];
      var acc := TallyReasons(init, rows);
      if Contributes(col) then
        PutStep(acc, init, col, rows);
        Put(acc, ReasonMapping[col], CountTrue(rows, col))
      else
        SkipStep(acc, init, col, rows);
        acc
  }

  /** Every entry of `acc` is the tally of some contributing column of `columns`. */
  ghost predicate Sound(acc: seq<ReasonCount>, columns: seq<string>, rows: seq<Row>)
  {
    forall x :: x in acc ==>
      exists col :: col in columns && Contributes(col) && ReasonMapping[col] == x.reason && x.count == CountTrue(rows, col)
  }

  /** Every contributing column of `columns` has its tally in `acc`. */
  ghost predicate Complete(acc: seq<ReasonCount>, columns: seq<string>, rows: seq<Row>)
  {
    forall col :: col in columns && Contributes(col) ==> ReasonCount(ReasonMapping[col], CountTrue(rows, col)) in acc
  }

  /** Tallying one more contributing column keeps the tally sound, complete
      and free of repeated reasons. */
  lemma PutStep(acc: seq<ReasonCount>, init: seq<string>, col: string, rows: seq<Row>)
    requires UniqueReasons(acc) && Sound(acc, init, rows) && Complete(acc, init, rows)
    requires Contributes(col)
    ensures var r := Put(acc, ReasonMapping[col], CountTrue(rows, col));
            UniqueReasons(r) && Sound(r, init + [col], rows) && Complete(r, init + [col], rows)
  {
    PutUnique(acc, ReasonMapping[col], CountTrue(rows, col));
    PutSound(acc, init, col, rows);
    PutComplete(acc, init, col, rows);
  }

  lemma PutSound(acc: seq<ReasonCount>, init: seq<string>, col: string, rows: seq<Row>)
    requires Sound(acc, init, rows) && Contributes(col)
    ensures Sound(Put(acc, ReasonMapping[col], CountTrue(rows, col)), init + [col], rows)
  {
    var r := Put(acc, ReasonMapping[col], CountTrue(rows, col));
    forall x | x in r
      ensures exists c :: c in init + [col] && Contributes(c) && ReasonMapping[c] == x.reason && x.count == CountTrue(rows, c)
    {
      if x != ReasonCount(ReasonMapping[col], CountTrue(rows, col)) {
        var c :| c in init && Contributes(c) && ReasonMapping[c] == x.reason && x.count == CountTrue(rows, c);
        assert c in init + [col];
      } else {
        assert col in init + [col];
      }
    }
  }

  /** A column tallied earlier keeps its entry, since no other column
      shares its readable label. */
  lemma PutComplete(acc: seq<ReasonCount>, init: seq<string>, col: string, rows: seq<Row>)
    requires Complete(acc, init, rows) && Contributes(col)
    ensures Complete(Put(acc, ReasonMapping[col], CountTrue(rows, col)), init + [col], rows)
  {
    MappingShape();
    var r := Put(acc, ReasonMapping[col], CountTrue(rows, col));
    forall c | c in init + [col] && Contributes(c)
      ensures ReasonCount(ReasonMapping[c], CountTrue(rows, c)) in r
    {
      if c != col {
        assert c in init;
      }
    }
  }

  /** A column that does not contribute leaves the tally as it is. */
  lemma SkipStep(acc: seq<ReasonCount>, init: seq<string>, col: string, rows: seq<Row>)
    requires Sound(acc, init, rows) && Complete(acc, init, rows)
    requires !Contributes(col)
    ensures Sound(acc, init + [col], rows) && Complete(acc, init + [col], rows)
  {
    forall x | x in acc
      ensures exists c :: c in init + [col] && Contributes(c) && ReasonMapping[c] == x.reason && x.count == CountTrue(rows, c)
    {
      var c :| c in init && Contributes(c) && ReasonMapping[c] == x.reason && x.count == CountTrue(rows, c);
      assert c in init + [col];
    }
    forall c | c in init + [col] && Contributes(c)
      ensures ReasonCount(ReasonMapping[c], CountTrue(rows, c)) in acc
    {
      assert c in init;
    }
  }

  /** `reason_df`: the tally ranked by count, largest first. The source's
      `sort_values` does not fix the order of equal counts, and neither does
      this contract. */
  function RankReasons(tally: seq<ReasonCount>): (r: seq<ReasonCount>)
    ensures multiset(r) == multiset(tally)
    ensures forall i, j :: 0 <= i < j < |r| ==> r[i].count >= r[j].count
  {
    var key := (x: ReasonCount) => -(x.count as real);
    var r := SortBy(tally, key);
    assert forall i, j :: 0 <= i < j < |r| ==> key(r[i]) <= key(r[j]);
    r
  }

  function Min(a: nat, b: nat): nat
  {
    if a <= b then a else b
  }

  /** The first `k` reasons of a ranking. */
  function Prefix(ranked: seq<ReasonCount>, k: nat): (names: seq<string>)
    requires k <= |ranked|
    ensures |names| == k
    ensures forall i :: 0 <= i < k ==> names[i] == ranked[i].reason
  {
    if k == 0 then [] else Prefix(ranked, k - 1) + [ranked[k - 1].reason]
  }

  /** `reason_df.head(3)["Reason"]`: up to three distinct labels from the
      tally, in order of non-increasing count, and every tallied reason left
      out has a count no larger than any chosen one. Among equal counts no
      particular order is promised. */
  function TopReasons(t: Table): (top: seq<string>)
    ensures var tally := TallyReasons(t.columns, t.rows);
            && |top| == Min(3, |tally|)
            && (forall i :: 0 <= i < |top| ==> exists x :: x in tally && x.reason == top[i])
            && (forall y, z :: y in tally && z in tally && z.reason in top && y.reason !in top ==> z.count >= y.count)
            && Distinct(top)
            && (forall i, j, y, z :: 0 <= i < j < |top| && y in tally && z in tally && y.reason == top[i] && z.reason == top[j] ==>
                  y.count >= z.count)
  {
    TopOf(TallyReasons(t.columns, t.rows))
  }

  /** The first three labels of a ranked tally without repeated reasons. */
  function TopOf(tally: seq<ReasonCount>): (top: seq<string>)
    requires UniqueReasons(tally)
    ensures |top| == Min(3, |tally|)
    ensures forall i :: 0 <= i < |top| ==> exists x :: x in tally && x.reason == top[i]
    ensures forall y, z :: y in tally && z in tally && z.reason in top && y.reason !in top ==> z.count >= y.count
    ensures Distinct(top)
    ensures forall i, j, y, z :: 0 <= i < j < |top| && y in tally && z in tally && y.reason == top[i] && z.reason == top[j] ==>
              y.count >= z.count
  {
    var ranked := RankReasons(tally);
    assert |ranked| == |multiset(ranked)| == |tally|;
    var top := Prefix(ranked, Min(3, |ranked|));
    TopDominates(tally, ranked, top);
    RankedUnique(tally, ranked);
    TopInRankOrder(tally, ranked, top);
    top
  }

  /** Reordering a tally without repeated reasons introduces none. */
  lemma RankedUnique(tally: seq<ReasonCount>, ranked: seq<ReasonCount>)
    requires UniqueReasons(tally)
    requires multiset(ranked) == multiset(tally)
    ensures UniqueReasons(ranked)
  {
    assert Distinct(tally);
    DistinctPermutation(tally, ranked);
    forall i, j | 0 <= i < j < |ranked| ensures ranked[i].reason != ranked[j].reason {
      assert ranked[i] in multiset(tally) && ranked[j] in multiset(tally);
      var p :| 0 <= p < |tally| && tally[p] == ranked[i];
      var q :| 0 <= q < |tally| && tally[q] == ranked[j];
      assert p != q;
    }
  }

  /** The chosen labels are distinct and their tallied counts never rise. */
  lemma TopInRankOrder(tally: seq<ReasonCount>, ranked: seq<ReasonCount>, top: seq<string>)
    requires UniqueReasons(tally) && UniqueReasons(ranked)
    requires multiset(ranked) == multiset(tally)
    requires forall i, j :: 0 <= i < j < |ranked| ==> ranked[i].count >= ranked[j].count
    requires |top| <= |ranked|
    requires forall i :: 0 <= i < |top| ==> top[i] == ranked[i].reason
    ensures Distinct(top)
    ensures forall i, j, y, z :: 0 <= i < j < |top| && y in tally && z in tally && y.reason == top[i] && z.reason == top[j] ==>
              y.count >= z.count
  {
    forall i, j, y, z | 0 <= i < j < |top| && y in tally && z in tally && y.reason == top[i] && z.reason == top[j]
      ensures y.count >= z.count
    {
      SameReasonSameEntry(tally, ranked, i, y);
      SameReasonSameEntry(tally, ranked, j, z);
    }
  }

  /** In a tally without repeated reasons, the entry carrying the reason of
      `ranked[i]` is `ranked[i]` itself. */
  lemma SameReasonSameEntry(tally: seq<ReasonCount>, ranked: seq<ReasonCount>, i: nat, y: ReasonCount)
    requires UniqueReasons(tally)
    requires multiset(ranked) == multiset(tally)
    requires i < |ranked| && y in tally && y.reason == ranked[i].reason
    ensures y == ranked[i]
  {
    assert ranked[i] in multiset(tally);
    var p :| 0 <= p < |tally| && tally[p] == y;
    var q :| 0 <= q < |tally| && tally[q] == ranked[i];
    assert p == q;
  }

  lemma TopDominates(tally: seq<ReasonCount>, ranked: seq<ReasonCount>, top: seq<string>)
    requires UniqueReasons(tally)
    requires multiset(ranked) == multiset(tally)
    requires forall i, j :: 0 <= i < j < |ranked| ==> ranked[i].count >= ranked[j].count
    requires |top| <= |ranked|
    requires forall i :: 0 <= i < |top| ==> top[i] == ranked[i].reason
    ensures forall i :: 0 <= i < |top| ==> exists x :: x in tally && x.reason == top[i]
    ensures forall y, z :: y in tally && z in tally && z.reason in top && y.reason !in top ==> z.count >= y.count
  {
    forall i | 0 <= i < |top| ensures ranked[i] in tally {
      assert ranked[i] in multiset(ranked);
    }
    forall y, z | y in tally && z in tally && z.reason in top && y.reason !in top
      ensures z.count >= y.count
    {
      var i :| 0 <= i < |top| && top[i] == z.reason;
      assert ranked[i] in tally;
      assert ranked[i] == z by {
        var p :| 0 <= p < |tally| && tally[p] == z;
        var q :| 0 <= q < |tally| && tally[q] == ranked[i];
        assert p == q;
      }
      assert y in multiset(ranked);
      var j :| 0 <= j < |ranked| && ranked[j] == y;
    }
  }
}
