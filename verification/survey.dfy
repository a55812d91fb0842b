/** The survey table the tab receives as `df`, the counting functions every
    aggregation is measured against, and the two row filters of the tab:
    the satisfaction multiselect and the renters-only subset. */
module Survey {
  import opened Seqs

  /** The categorical columns a table can be grouped by. */
  datatype Dimension = Housing | IncomeBracket | RentBurden | District

  /** One respondent. `flags` holds the boolean `reason_*` indicator cells;
      a column that is missing from `flags` counts as false. */
  datatype Row = Row(
    housing: string,     // housing_situation
    level: string,       // satisfaction_level
    income: string,      // rendimento-anual
    rentBurden: string,  // rent_burden
    district: string,    // distrito
    flags: map<string, bool>)

  /** `df`: all column names, in order, and the rows. */
  datatype Table = Table(columns: seq<string>, rows: seq<Row>)

  const Renting: string := "Renting"

  function Field(r: Row, d: Dimension): string
  {
    match d
    case Housing => r.housing
    case IncomeBracket => r.income
    case RentBurden => r.rentBurden
    case District => r.district
  }

  /** The column `d` of `rows`, in row order. */
  function Column(rows: seq<Row>, d: Dimension): (vs: seq<string>)
    ensures |vs| == |rows|
    ensures forall i :: 0 <= i < |rows| ==> vs[i] == Field(rows[i], d)
  {
    if rows == [] then [] else [Field(rows[0], d)] + Column(rows[1..], d)
  }

  /** The satisfaction_level column of `rows`, in row order. */
  function LevelColumn(rows: seq<Row>): (vs: seq<string>)
    ensures |vs| == |rows|
    ensures forall i :: 0 <= i < |rows| ==> vs[i] == rows[i].level
  {
    if rows == [] then [] else [rows[0].level] + LevelColumn(rows[1..])
  }

  /** Number of rows whose `d` value is one of `keys` and whose label is
      one of `levels`. */
  function Tally(rows: seq<Row>, d: Dimension, keys: set<string>, levels: set<string>): (n: nat)
    ensures n <= |rows|
  {
    if rows == [] then 0
    else (if Field(rows[0], d) in keys && rows[0].level in levels then 1 else 0)
         + Tally(rows[1..], d, keys, levels)
  }

  /** Number of rows whose label is one of `levels`. */
  function CountLevels(rows: seq<Row>, levels: set<string>): (n: nat)
    ensures n <= |rows|
  {
    if rows == [] then 0
    else (if rows[0].level in levels then 1 else 0) + CountLevels(rows[1..], levels)
  }

  /** Nothing is counted against an empty key or label set. */
  lemma {:induction false} TallyNothing(rows: seq<Row>, d: Dimension, keys: set<string>, levels: set<string>)
    requires keys == {} || levels == {}
    ensures Tally(rows, d, keys, levels) == 0
  {
    if rows != [] {
      TallyNothing(rows[1..], d, keys, levels);
    }
  }

  /** Counting over disjoint label sets adds up. */
  lemma {:induction false} TallySplitLevels(rows: seq<Row>, d: Dimension, keys: set<string>, a: set<string>, b: set<string>)
    requires a !! b
    ensures Tally(rows, d, keys, a + b) == Tally(rows, d, keys, a) + Tally(rows, d, keys, b)
  {
    if rows != [] {
      TallySplitLevels(rows[1..], d, keys, a, b);
    }
  }

  /** Counting over disjoint key sets adds up. */
  lemma {:induction false} TallySplitKeys(rows: seq<Row>, d: Dimension, a: set<string>, b: set<string>, levels: set<string>)
    requires a !! b
    ensures Tally(rows, d, a + b, levels) == Tally(rows, d, a, levels) + Tally(rows, d, b, levels)
  {
    if rows != [] {
      TallySplitKeys(rows[1..], d, a, b, levels);
    }
  }

  /** When `keys` holds every row's `d` value, the key condition is void. */
  lemma {:induction false} TallyCovering(rows: seq<Row>, d: Dimension, keys: set<string>, levels: set<string>)
    requires forall r :: r in rows ==> Field(r, d) in keys
    ensures Tally(rows, d, keys, levels) == CountLevels(rows, levels)
  {
    if rows != [] {
      assert rows[0] in rows;
      assert forall r :: r in rows[1..] ==> r in rows;
      TallyCovering(rows[1..], d, keys, levels);
    }
  }

  /** A list holding exactly the values of column `d` holds every row's value. */
  lemma KeysCoverRows(rows: seq<Row>, d: Dimension, keys: seq<string>)
    requires forall k :: k in keys <==> k in Column(rows, d)
    ensures forall r :: r in rows ==> Field(r, d) in SetOf(keys)
  {
    forall r | r in rows ensures Field(r, d) in SetOf(keys) {
      var i :| 0 <= i < |rows| && rows[i] == r;
      assert Column(rows, d)[i] == Field(r, d);
    }
  }

  /** Number of rows whose label is not one of `levels`. */
  function CountOthers(rows: seq<Row>, levels: set<string>): (n: nat)
    ensures n + CountLevels(rows, levels) == |rows|
  {
    if rows == [] then 0
    else (if rows[0].level in levels then 0 else 1) + CountOthers(rows[1..], levels)
  }

  /** Counting rows over disjoint label sets adds up. */
  lemma {:induction false} CountLevelsSplit(rows: seq<Row>, a: set<string>, b: set<string>)
    requires a !! b
    ensures CountLevels(rows, a + b) == CountLevels(rows, a) + CountLevels(rows, b)
  {
    if rows != [] {
      CountLevelsSplit(rows[1..], a, b);
    }
  }

  /** When every row carries one of `levels`, every row is counted. */
  lemma {:induction false} CountEveryRow(rows: seq<Row>, levels: set<string>)
    requires forall r :: r in rows ==> r.level in levels
    ensures CountLevels(rows, levels) == |rows|
  {
    if rows != [] {
      assert rows[0] in rows;
      assert forall r :: r in rows[1..] ==> r in rows;
      CountEveryRow(rows[1..], levels);
    }
  }

  /** Two label sets that agree on every label present count the same rows. */
  lemma {:induction false} CountLevelsAgree(rows: seq<Row>, a: set<string>, b: set<string>)
    requires forall r :: r in rows ==> (r.level in a <==> r.level in b)
    ensures CountLevels(rows, a) == CountLevels(rows, b)
  {
    if rows != [] {
      assert rows[0] in rows;
      assert forall r :: r in rows[1..] ==> r in rows;
      CountLevelsAgree(rows[1..], a, b);
    }
  }

  /** The satisfaction multiselect: an empty selection keeps the whole
      table; otherwise exactly the rows whose label is selected survive,
      each as often as it occurs and in table order. */
  function Select(rows: seq<Row>, selected: seq<string>): (r: seq<Row>)
    ensures selected == [] ==> r == rows
    ensures selected != [] ==>
              forall x :: multiset(r)[x] == if x.level in selected then multiset(rows)[x] else 0
    ensures IsSubsequence(r, rows)
  {
    if selected == [] then
      SubsequenceReflexive(rows);
      rows
    else
      FilterCounts(rows, (x: Row) => x.level in selected);
      Filter(rows, (x: Row) => x.level in selected)
  }

  /** `renters_df`: the rows whose housing situation is exactly "Renting". */
  function Renters(rows: seq<Row>): (r: seq<Row>)
    ensures forall x :: x in r ==> x.housing == Renting
    ensures forall x :: multiset(r)[x] == if x.housing == Renting then multiset(rows)[x] else 0
    ensures IsSubsequence(r, rows)
  {
    FilterCounts(rows, (x: Row) => x.housing == Renting);
    Filter(rows, (x: Row) => x.housing == Renting)
  }

  /** Rows that are not renting never reach `renters_df`. */
  lemma NonRenterDropped(a: seq<Row>, r: Row, b: seq<Row>)
    requires r.housing != Renting
    ensures Renters(a + [r] + b) == Renters(a + b)
  {
    FilterAppend(a + [r], b, (x: Row) => x.housing == Renting);
    FilterAppend(a, [r], (x: Row) => x.housing == Renting);
    FilterAppend(a, b, (x: Row) => x.housing == Renting);
  }
}
