/** Full query results: count, sum, minimum, maximum and distinct values, computed
    per row group and per memtable and then merged. */
module QueryResults {
  import opened Words
  import opened SimdTransposer
  import opened Storage
  import opened MemTables
  import opened Rows
  import opened AdaptiveIngester
  import opened BlockReader
  import opened QueryPlanner
  import opened PlanMeaning
  import opened QueryRunner
  import opened StoredRows
  import opened QueryRefinement

  /** The order of the distinct values is not fixed. */
  datatype QueryResult = QueryResult(count: nat, sum: int64, min: int64, max: int64, distinct: set<int64>)

  const NO_RESULT := QueryResult(0, 0, 0, 0, {})

  // ----- the summary of a list of values

  function Total(values: seq<int64>): int {
    if values == [] then 0 else Total(values[..|values| - 1]) + values[|values| - 1]
  }

  /** A sum in 64-bit arithmetic. */
  function Sum64(n: int): int64 { Signed(Wrap(n)) }

  function Minimum(values: seq<int64>): (m: int64)
    requires values != []
    ensures m in values && forall v :: v in values ==> m <= v
  {
    if |values| == 1 then values[0]
    else
      var rest, last := values[..|values| - 1], values[|values| - 1];
      assert values == rest + [last];
      if last < Minimum(rest) then last else Minimum(rest)
  }

  function Maximum(values: seq<int64>): (m: int64)
    requires values != []
    ensures m in values && forall v :: v in values ==> v <= m
  {
    if |values| == 1 then values[0]
    else
      var rest, last := values[..|values| - 1], values[|values| - 1];
      assert values == rest + [last];
      if last > Maximum(rest) then last else Maximum(rest)
  }

  function Distinct(values: seq<int64>): set<int64> { set v | v in values }

  /** What one pass over the values reports. */
  function Summary(values: seq<int64>): QueryResult {
    if values == [] then NO_RESULT
    else QueryResult(|values|, Sum64(Total(values)), Minimum(values), Maximum(values), Distinct(values))
  }

  lemma SumStep(n: int, v: int)
    ensures Sum64(Sum64(n) + v) == Sum64(n + v)
  {
    var s := Sum64(n);
    assert Unsigned(s) == Wrap(n);
    WrapUnsigned(s);
    WrapPlus(v, s, n);
    hide Wrap;
  }

  lemma TotalNext(values: seq<int64>, i: nat)
    requires i < |values|
    ensures Total(values[..i + 1]) == Total(values[..i]) + values[i]
  {
    assert values[..i + 1][..i] == values[..i];
  }

  method SumValues(values: seq<int64>) returns (sum: int64)
    ensures sum == Sum64(Total(values))
  {
    sum := 0;
    assert values[..0] == [] && Sum64(0) == 0;
    hide Sum64;
    for i := 0 to |values|
      invariant sum == Sum64(Total(values[..i]))
    {
      TotalNext(values, i);
      SumStep(Total(values[..i]), values[i]);
      hide Total;
      sum := Sum64(sum + values[i]);
    }
    assert values[..|values|] == values;
  }

  lemma ExtremesAre(values: seq<int64>, min: int64, max: int64)
    requires min in values && max in values && forall k :: 0 <= k < |values| ==> min <= values[k] <= max
    ensures min == Minimum(values) && max == Maximum(values)
  {
  }

  method Extremes(values: seq<int64>) returns (min: int64, max: int64)
    requires values != []
    ensures min == Minimum(values) && max == Maximum(values)
  {
    hide Minimum, Maximum;
    min, max := values[0], values[0];
    for i := 0 to |values|
      invariant min in values && max in values
      invariant forall k :: 0 <= k < i ==> min <= values[k] <= max
    {
      if values[i] < min { min := values[i]; }
      if values[i] > max { max := values[i]; }
    }
    ExtremesAre(values, min, max);
  }

  method DistinctValues(values: seq<int64>) returns (distinct: set<int64>)
    ensures distinct == Distinct(values)
  {
    distinct := {};
    for i := 0 to |values|
      invariant forall v :: v in distinct <==> exists k :: 0 <= k < i && values[k] == v
    {
      distinct := distinct + {values[i]};
    }
  }

  /** Sum, minimum, maximum and distinct values of the collected values. */
  method Summarize(values: seq<int64>) returns (r: QueryResult)
    ensures r == Summary(values)
  {
    hide Sum64, Total, Minimum, Maximum, Distinct;
    if values == [] { return NO_RESULT; }
    var sum := SumValues(values);
    var min, max := Extremes(values);
    var distinct := DistinctValues(values);
    r := QueryResult(|values|, sum, min, max, distinct);
  }

  // ----- merging

  lemma {:induction false} TotalAppend(x: seq<int64>, y: seq<int64>)
    ensures Total(x + y) == Total(x) + Total(y)
    decreases |y|
  {
    if y == [] {
      assert x + y == x;
    } else {
      TotalAppend(x, y[..|y| - 1]);
      assert (x + y)[..|x + y| - 1] == x + y[..|y| - 1];
    }
  }

  lemma MinimumAppend(x: seq<int64>, y: seq<int64>)
    requires x != [] && y != []
    ensures Minimum(x + y) == if Minimum(y) < Minimum(x) then Minimum(y) else Minimum(x)
    ensures Maximum(x + y) == if Maximum(y) > Maximum(x) then Maximum(y) else Maximum(x)
  {
    assert forall v :: v in x + y <==> v in x || v in y;
  }

  /** Merging one more part into the running result. */
  function Merge(m: QueryResult, r: QueryResult): QueryResult {
    if r.count == 0 then m.(sum := Sum64(m.sum + r.sum))
    else if m.count == 0 then QueryResult(m.count + r.count, Sum64(m.sum + r.sum), r.min, r.max, m.distinct + r.distinct)
    else QueryResult(m.count + r.count, Sum64(m.sum + r.sum),
                     if r.min < m.min then r.min else m.min, if r.max > m.max then r.max else m.max, m.distinct + r.distinct)
  }

  lemma SummaryIs(x: seq<int64>)
    requires x != []
    ensures Summary(x).count == |x| && Summary(x).sum == Sum64(Total(x)) && Summary(x).min == Minimum(x)
    ensures Summary(x).max == Maximum(x) && Summary(x).distinct == Distinct(x)
    ensures Summary([]) == NO_RESULT
  {
    hide Sum64, Total, Minimum, Maximum, Distinct;
  }

  lemma NoSum(n: int64)
    ensures Sum64(n + 0) == n && Sum64(0 + n) == n
  {
    WrapUnsigned(n);
    hide Wrap;
    assert Unsigned(Sum64(n)) == Wrap(n) == Unsigned(n) by { WrapSmall(Unsigned(n)); }
  }

  lemma WrapSmall(n: nat)
    requires n < TWO_64
    ensures Wrap(n) == n
  {
  }

  lemma DistinctAppend(x: seq<int64>, y: seq<int64>)
    ensures Distinct(x + y) == Distinct(x) + Distinct(y)
  {
  }

  /** Merging summaries is summarising the concatenation. */
  lemma MergeIsHomomorphism(x: seq<int64>, y: seq<int64>)
    ensures Merge(Summary(x), Summary(y)) == Summary(x + y)
  {
    TotalAppend(x, y);
    SumsAdd(Total(x), Total(y));
    DistinctAppend(x, y);
    NoSum(Summary(x).sum);
    NoSum(Summary(y).sum);
    hide Sum64, Minimum, Maximum, Distinct, Total, Summary;
    SummaryIs([0]);
    if y == [] {
      assert x + y == x;
    } else if x == [] {
      assert x + y == y;
      SummaryIs(y);
      assert {} + Distinct(y) == Distinct(y);
    } else {
      SummaryIs(x);
      SummaryIs(y);
      SummaryIs(x + y);
      MinimumAppend(x, y);
    }
  }

  lemma SumsAdd(a: int, b: int)
    ensures Sum64(Sum64(a) + Sum64(b)) == Sum64(a + b)
  {
    SumStep(b, Sum64(a));
    SumStep(a, b);
    hide Sum64;
  }

  // ----- parts with null aggregates

  /** What one row group or memtable contributes: the values found on its matching
      rows, and how many rows matched, those with a null aggregate included. */
  datatype Part = Part(values: seq<int64>, count: nat)

  predicate Proper(p: Part) { |p.values| <= p.count }

  /** Rows matched, but all their aggregates were null. */
  predicate AllNull(p: Part) { p.values == [] && p.count > 0 }

  /** Minimum and maximum stay 0 when there is no value. */
  function PartResult(p: Part): QueryResult { Summary(p.values).(count := p.count) }

  function Values(parts: seq<Part>): seq<int64> {
    if parts == [] then [] else Values(parts[..|parts| - 1]) + parts[|parts| - 1].values
  }

  function Counts(parts: seq<Part>): nat {
    if parts == [] then 0 else Counts(parts[..|parts| - 1]) + parts[|parts| - 1].count
  }

  predicate SomeNull(parts: seq<Part>) { exists i :: 0 <= i < |parts| && AllNull(parts[i]) }

  function Lower(a: int64, b: int64): int64 { if b < a then b else a }

  function Higher(a: int64, b: int64): int64 { if b > a then b else a }

  /** The result over the given values, with a zero among the candidates for minimum
      and maximum when `nulls` is set. */
  function Reported(values: seq<int64>, count: nat, nulls: bool): QueryResult {
    if values == [] then NO_RESULT.(count := count)
    else QueryResult(count, Sum64(Total(values)), if nulls then Lower(0, Minimum(values)) else Minimum(values),
                     if nulls then Higher(0, Maximum(values)) else Maximum(values), Distinct(values))
  }

  lemma PartReported(p: Part)
    requires Proper(p)
    ensures PartResult(p) == Reported(p.values, p.count, AllNull(p))
  {
    hide Sum64, Total, Minimum, Maximum, Distinct;
  }

  lemma ReportedParts(x: seq<int64>, m: nat, a: bool)
    ensures Reported(x, m, a).count == m
    ensures Reported(x, m, a).sum == Sum64(Total(x)) && Reported(x, m, a).distinct == Distinct(x)
    ensures x == [] ==> Reported(x, m, a).min == 0 == Reported(x, m, a).max
    ensures x != [] ==> Reported(x, m, a).min == if a then Lower(0, Minimum(x)) else Minimum(x)
    ensures x != [] ==> Reported(x, m, a).max == if a then Higher(0, Maximum(x)) else Maximum(x)
  {
    hide Minimum, Maximum, Lower, Higher;
    if x == [] {
      assert Total(x) == 0 && Distinct(x) == {};
      NoSum(0);
    }
    hide Sum64, Total, Distinct;
  }

  lemma MergeParts(p: QueryResult, q: QueryResult)
    requires q.count == 0 ==> q.distinct == {}
    requires p.count == 0 ==> p.distinct == {}
    ensures Merge(p, q).count == p.count + q.count && Merge(p, q).sum == Sum64(p.sum + q.sum)
    ensures Merge(p, q).distinct == p.distinct + q.distinct
    ensures Merge(p, q).min == if q.count == 0 then p.min else if p.count == 0 then q.min else Lower(p.min, q.min)
    ensures Merge(p, q).max == if q.count == 0 then p.max else if p.count == 0 then q.max else Higher(p.max, q.max)
  {
    hide Sum64;
  }

  lemma ExtremesMerge(x: seq<int64>, a: bool, y: seq<int64>, b: bool)
    requires x != [] && y != []
    ensures Lower(if a then Lower(0, Minimum(x)) else Minimum(x), if b then Lower(0, Minimum(y)) else Minimum(y))
            == if a || b then Lower(0, Minimum(x + y)) else Minimum(x + y)
    ensures Higher(if a then Higher(0, Maximum(x)) else Maximum(x), if b then Higher(0, Maximum(y)) else Maximum(y))
            == if a || b then Higher(0, Maximum(x + y)) else Maximum(x + y)
  {
    MinimumAppend(x, y);
    hide Minimum, Maximum;
  }

  lemma NoDistinct()
    ensures Distinct([]) == {}
  {
  }

  /** Merging keeps count, sum and distinct values; a zero that stands for nulls on
      either side stays a candidate for minimum and maximum. */
  lemma MergeReported(x: seq<int64>, m: nat, a: bool, y: seq<int64>, n: nat, b: bool)
    requires |x| <= m && |y| <= n && (x == [] && m > 0 ==> a) && (y == [] && n > 0 ==> b) && (a ==> m > 0) && (b ==> n > 0)
    ensures Merge(Reported(x, m, a), Reported(y, n, b)) == Reported(x + y, m + n, a || b)
  {
    hide *;
    NoDistinct();
    ReportedParts(x, m, a);
    ReportedParts(y, n, b);
    ReportedParts(x + y, m + n, a || b);
    MergeParts(Reported(x, m, a), Reported(y, n, b));
    TotalAppend(x, y);
    SumsAdd(Total(x), Total(y));
    DistinctAppend(x, y);
    if x != [] && y != [] { ExtremesMerge(x, a, y, b); }
    ZeroCandidate(x, a);
    ZeroCandidate(y, b);
    assert x == [] ==> x + y == y;
    assert y == [] ==> x + y == x;
  }

  /** Merging a bare zero. */
  lemma ZeroCandidate(x: seq<int64>, a: bool)
    ensures Lower(0, 0) == 0 == Higher(0, 0)
    ensures x != [] ==> Lower(if a then Lower(0, Minimum(x)) else Minimum(x), 0) == Lower(0, Minimum(x))
    ensures x != [] ==> Lower(0, if a then Lower(0, Minimum(x)) else Minimum(x)) == Lower(0, Minimum(x))
    ensures x != [] ==> Higher(if a then Higher(0, Maximum(x)) else Maximum(x), 0) == Higher(0, Maximum(x))
    ensures x != [] ==> Higher(0, if a then Higher(0, Maximum(x)) else Maximum(x)) == Higher(0, Maximum(x))
  {
    hide Minimum, Maximum;
  }

  predicate ResultsOf(results: seq<QueryResult>, parts: seq<Part>) {
    |results| == |parts| && forall i :: 0 <= i < |results| ==> Proper(parts[i]) && results[i] == PartResult(parts[i])
  }

  lemma PartsNext(parts: seq<Part>, i: nat)
    requires i < |parts|
    ensures Values(parts[..i + 1]) == Values(parts[..i]) + parts[i].values
    ensures Counts(parts[..i + 1]) == Counts(parts[..i]) + parts[i].count
    ensures SomeNull(parts[..i + 1]) <==> SomeNull(parts[..i]) || AllNull(parts[i])
  {
    assert parts[..i + 1][..i] == parts[..i];
    if AllNull(parts[i]) { assert AllNull(parts[..i + 1][i]); }
    if SomeNull(parts[..i]) {
      var k :| 0 <= k < i && AllNull(parts[..i][k]);
      assert AllNull(parts[..i + 1][k]);
    }
    hide AllNull;
  }

  lemma NoParts(parts: seq<Part>)
    ensures NO_RESULT == Reported(Values(parts[..0]), Counts(parts[..0]), SomeNull(parts[..0]))
  {
  }

  /** Facts about the parts so far that merging one more needs. */
  lemma {:induction false} PartsProper(parts: seq<Part>, i: nat)
    requires i <= |parts| && forall k :: 0 <= k < i ==> Proper(parts[k])
    ensures |Values(parts[..i])| <= Counts(parts[..i])
    ensures Values(parts[..i]) == [] && Counts(parts[..i]) > 0 ==> SomeNull(parts[..i])
    ensures SomeNull(parts[..i]) ==> Counts(parts[..i]) > 0
  {
    if i > 0 {
      PartsProper(parts, i - 1);
      PartsNext(parts, i - 1);
      hide Values, Counts, SomeNull;
    }
  }

  /** Merging the results of all parts: one pass over all values, with a zero among
      the candidates for minimum and maximum when some part had only nulls. */
  method MergeResults(results: seq<QueryResult>, ghost parts: seq<Part>) returns (merged: QueryResult)
    requires ResultsOf(results, parts)
    ensures merged == Reported(Values(parts), Counts(parts), SomeNull(parts))
  {
    hide PartResult, Reported, Values, Counts, SomeNull, Merge, Proper;
    merged := NO_RESULT;
    NoParts(parts);
    for i := 0 to |results|
      invariant merged == Reported(Values(parts[..i]), Counts(parts[..i]), SomeNull(parts[..i]))
    {
      MergeNext(parts, i);
      merged := Merge(merged, results[i]);
    }
    assert parts[..|parts|] == parts;
  }

  lemma MergeNext(parts: seq<Part>, i: nat)
    requires i < |parts| && forall k :: 0 <= k < |parts| ==> Proper(parts[k])
    ensures Merge(Reported(Values(parts[..i]), Counts(parts[..i]), SomeNull(parts[..i])), PartResult(parts[i]))
            == Reported(Values(parts[..i + 1]), Counts(parts[..i + 1]), SomeNull(parts[..i + 1]))
  {
    assert Proper(parts[i]) && (AllNull(parts[i]) <==> parts[i].values == [] && parts[i].count > 0);
    assert |parts[i].values| <= parts[i].count;
    hide *;
    PartsProper(parts, i);
    PartsNext(parts, i);
    PartReported(parts[i]);
    MergeReported(Values(parts[..i]), Counts(parts[..i]), SomeNull(parts[..i]), parts[i].values, parts[i].count, AllNull(parts[i]));
  }

  /** Without all-null parts, or with zero between the extremes, nothing is spoiled,
      and not otherwise. */
  lemma ReportedExact(values: seq<int64>, count: nat, nulls: bool)
    ensures Reported(values, count, nulls) == PartResult(Part(values, count))
            <==> values == [] || !nulls || Minimum(values) <= 0 <= Maximum(values)
    ensures values != [] ==> (Reported(values, count, nulls).min == Minimum(values) && Reported(values, count, nulls).max == Maximum(values)
                              <==> !nulls || Minimum(values) <= 0 <= Maximum(values))
  {
    hide Sum64, Total, Minimum, Maximum, Distinct;
  }

  /** A part that matched rows but found only nulls to aggregate reports minimum and
      maximum 0. Merging it into the summary of some values keeps minimum and maximum
      if and only if zero lies between them. */
  lemma NullsSpoilMerge(values: seq<int64>, p: Part)
    requires values != [] && AllNull(p)
    ensures PartResult(p) == QueryResult(p.count, 0, 0, 0, {})
    ensures var merged := Merge(Summary(values), PartResult(p));
            merged.min == Minimum(values) && merged.max == Maximum(values) <==> Minimum(values) <= 0 <= Maximum(values)
  {
    hide Sum64, Total, Minimum, Maximum, Distinct;
  }

  // ----- values of the matched rows

  /** Aggregate values of matching rows, in order; nulls are skipped. */
  function MatchedNumbers(names: seq<Str>, rows: seq<Row>, preds: seq<Predicate>, agg: Str): seq<int64> {
    if rows == [] then []
    else MatchedNumbers(names, rows[..|rows| - 1], preds, agg) + OneNumber(names, rows[|rows| - 1], preds, agg)
  }

  function OneNumber(names: seq<Str>, row: Row, preds: seq<Predicate>, agg: Str): seq<int64> {
    if !Matches(names, row, preds) then []
    else
      var f := FindColumn(names, agg);
      if agg != [] && f.Some? && row[f.value].IntCell? && row[f.value].n.Some? then [row[f.value].n.value] else []
  }

  /** What the reference reports on a list of rows: the summary of the values of the
      matching ones, and the number of matches. */
  function Reference(names: seq<Str>, rows: seq<Row>, preds: seq<Predicate>, agg: Str): QueryResult {
    PartResult(Part(MatchedNumbers(names, rows, preds, agg), MatchCount(names, rows, preds)))
  }

  /** The same values as the tiles hold them: a null reads as 0. */
  function MatchedStored(names: seq<Str>, rows: seq<Row>, preds: seq<Predicate>, agg: Str): seq<int64> {
    if rows == [] then []
    else MatchedStored(names, rows[..|rows| - 1], preds, agg) + OneStored(names, rows[|rows| - 1], preds, agg)
  }

  function OneStored(names: seq<Str>, row: Row, preds: seq<Predicate>, agg: Str): seq<int64> {
    if !Matches(names, row, preds) then []
    else
      var f := FindColumn(names, agg);
      if agg != [] && f.Some? && row[f.value].IntCell? then [if row[f.value].n.Some? then row[f.value].n.value else 0] else []
  }

  lemma StoredSnoc(names: seq<Str>, rows: seq<Row>, row: Row, preds: seq<Predicate>, agg: Str)
    ensures MatchedStored(names, rows + [row], preds, agg) == MatchedStored(names, rows, preds, agg) + OneStored(names, row, preds, agg)
  {
    assert (rows + [row])[..|rows + [row]| - 1] == rows;
    hide OneStored;
  }

  lemma NumbersSnoc(names: seq<Str>, rows: seq<Row>, row: Row, preds: seq<Predicate>, agg: Str)
    ensures MatchedNumbers(names, rows + [row], preds, agg) == MatchedNumbers(names, rows, preds, agg) + OneNumber(names, row, preds, agg)
  {
    assert (rows + [row])[..|rows + [row]| - 1] == rows;
    hide OneNumber;
  }

  // ----- the reference's result, by the cells of the rows

  /** A matching row whose one column of that name holds the value. */
  predicate Holding(names: seq<Str>, row: Row, preds: seq<Predicate>, agg: Str, v: int64) {
    Matches(names, row, preds) && agg != [] && exists f :: 0 <= f < |row| && OnlyAt(names, agg, f) && row[f] == IntCell(Some(v))
  }

  lemma OneNumberIs(names: seq<Str>, row: Row, preds: seq<Predicate>, agg: Str, v: int64)
    ensures v in OneNumber(names, row, preds, agg) <==> Holding(names, row, preds, agg, v)
    ensures |names| == |row| && Matches(names, row, preds) ==> Total(OneNumber(names, row, preds, agg)) == Contribution(names, row, agg)
    ensures !Matches(names, row, preds) ==> OneNumber(names, row, preds, agg) == []
  {
    hide Matches, FindColumn;
    if Matches(names, row, preds) {
      SameSize(names, row, preds);
      FoundExactly(names, agg);
      var one := OneNumber(names, row, preds, agg);
      if one != [] { assert one[..0] == []; }
    }
  }

  lemma SameSize(names: seq<Str>, row: Row, preds: seq<Predicate>)
    requires Matches(names, row, preds)
    ensures |names| == |row|
  {
  }

  lemma {:induction false} NumbersAre(names: seq<Str>, rows: seq<Row>, preds: seq<Predicate>, agg: Str, v: int64)
    ensures v in MatchedNumbers(names, rows, preds, agg) <==> exists i :: 0 <= i < |rows| && Holding(names, rows[i], preds, agg, v)
  {
    if rows != [] {
      var rest, last := rows[..|rows| - 1], rows[|rows| - 1];
      NumbersAre(names, rest, preds, agg, v);
      OneNumberIs(names, last, preds, agg, v);
      hide Holding, OneNumber;
      assert forall i :: 0 <= i < |rest| ==> rest[i] == rows[i];
      if i :| 0 <= i < |rows| && Holding(names, rows[i], preds, agg, v) {
        if i < |rest| { assert Holding(names, rest[i], preds, agg, v); }
      }
    }
  }

  lemma {:induction false} NumbersSum(names: seq<Str>, rows: seq<Row>, preds: seq<Predicate>, agg: Str)
    ensures Total(MatchedNumbers(names, rows, preds, agg)) == MatchSum(names, rows, preds, agg)
  {
    if rows != [] {
      var rest, last := rows[..|rows| - 1], rows[|rows| - 1];
      NumbersSum(names, rest, preds, agg);
      OneNumberIs(names, last, preds, agg, 0);
      TotalAppend(MatchedNumbers(names, rest, preds, agg), OneNumber(names, last, preds, agg));
      if Matches(names, last, preds) { SameSize(names, last, preds); }
      hide Total, OneNumber, Matches, Holding, Contribution;
      assert Total([]) == 0 by { NothingTotal(); }
    }
  }

  lemma NothingTotal()
    ensures Total([]) == 0
  {
  }

  /** Every field of the reference's result by the rows: the number of matching ones, the
      wrapped sum of what they contribute, and the least, greatest and all values that
      some matching row holds; all 0 and empty when none does. */
  lemma ReferenceMeaning(names: seq<Str>, rows: seq<Row>, preds: seq<Predicate>, agg: Str)
    ensures var r := Reference(names, rows, preds, agg);
            && r.count == MatchCount(names, rows, preds)
            && (Unsigned(r.sum) - MatchSum(names, rows, preds, agg)) % 0x1_0000_0000_0000_0000 == 0
            && (forall v :: v in r.distinct <==> exists i :: 0 <= i < |rows| && Holding(names, rows[i], preds, agg, v))
            && (r.distinct != {} ==> r.min in r.distinct && r.max in r.distinct && forall v :: v in r.distinct ==> r.min <= v <= r.max)
            && (r.distinct == {} ==> r.min == 0 == r.max && r.sum == 0)
  {
    var values := MatchedNumbers(names, rows, preds, agg);
    hide *;
    ReferenceParts(names, rows, preds, agg);
    NumbersSum(names, rows, preds, agg);
    forall v ensures v in values <==> exists i :: 0 <= i < |rows| && Holding(names, rows[i], preds, agg, v) {
      NumbersAre(names, rows, preds, agg, v);
    }
  }

  lemma ReferenceParts(names: seq<Str>, rows: seq<Row>, preds: seq<Predicate>, agg: Str)
    ensures var r, values := Reference(names, rows, preds, agg), MatchedNumbers(names, rows, preds, agg);
            && r.count == MatchCount(names, rows, preds)
            && (Unsigned(r.sum) - Total(values)) % 0x1_0000_0000_0000_0000 == 0
            && (forall v :: v in r.distinct <==> v in values)
            && (r.distinct != {} ==> r.min in r.distinct && r.max in r.distinct && forall v :: v in r.distinct ==> r.min <= v <= r.max)
            && (r.distinct == {} ==> r.min == 0 == r.max && r.sum == 0)
  {
    var values := MatchedNumbers(names, rows, preds, agg);
    hide MatchedNumbers, MatchCount, Minimum, Maximum, Total, Sum64;
    SumUnsigned(Total(values));
    if values == [] { NothingTotal(); } else { assert values[0] in Distinct(values); }
  }

  lemma SumUnsigned(n: int)
    ensures (Unsigned(Sum64(n)) - n) % 0x1_0000_0000_0000_0000 == 0
  {
  }

  // ----- materialising the selected lanes of a block

  /** Values of the selected lanes below n. */
  function LaneValues(mask: Word, planes: Matrix, n: nat): seq<int64>
    requires n <= 64
  {
    if n == 0 then []
    else LaneValues(mask, planes, n - 1) + if mask[n - 1] then [LaneNumber(planes, n - 1)] else []
  }

  function LaneNumber(planes: Matrix, r: nat): int64
    requires r < 64
  {
    WordOfValue(Transposed(planes)[r]);
    Signed(Value(Transposed(planes)[r]))
  }

  lemma {:induction false} NoLanes(mask: Word, planes: Matrix, m: nat, n: nat)
    requires m <= n <= 64 && forall r :: m <= r < n ==> !mask[r]
    ensures LaneValues(mask, planes, n) == LaneValues(mask, planes, m)
  {
    if m < n { NoLanes(mask, planes, m, n - 1); }
  }

  method Materialize(mask: Word, planes: Matrix) returns (values: seq<int64>)
    ensures values == LaneValues(mask, planes, 64)
  {
    hide LaneNumber;
    values := [];
    var todo := mask;
    ghost var done := 0;
    while todo != ZEROS
      invariant done <= 64 && values == LaneValues(mask, planes, done)
      invariant forall r :: 0 <= r < 64 ==> todo[r] == (r >= done && mask[r])
      decreases Popcount(todo)
    {
      var i, rest := NextLane(todo);
      NoLanes(mask, planes, done, i);
      values := values + [LaneNumber(planes, i)];
      todo := rest;
      done := i + 1;
    }
    assert forall r :: 0 <= r < 64 ==> todo[r] == false;
    NoLanes(mask, planes, done, 64);
  }

  /** Values of the first k blocks of a row group. */
  function GroupValues(run: Runner, rg: RowGroup, ctxs: seq<Context>, k: nat): seq<int64>
    requires Executable(run, rg, ctxs) && run.aggIndex.Some? && k <= |rg.blocks|
  {
    if k == 0 then []
    else
      assert ExecutableBlock(run, rg, ctxs, k - 1);
      GroupValues(run, rg, ctxs, k - 1)
      + LaneValues(Matched(run, rg.blocks[k - 1], RowsIn(rg.numRows, k - 1), ctxs[k - 1]), rg.blocks[k - 1].columns[run.aggIndex.value].planes, 64)
  }

  function GroupPart(run: Runner, rg: RowGroup, ctxs: seq<Context>): Part
    requires Executable(run, rg, ctxs)
  {
    Part(if run.aggIndex.Some? then GroupValues(run, rg, ctxs, |rg.blocks|) else [], CountBlocks(run, rg, ctxs, |rg.blocks|))
  }

  method BlockValues(run: Runner, block: Block, rows: nat, ctx: Context) returns (count: nat, values: seq<int64>)
    requires Parallel(run) && (run.aggIndex.Some? ==> run.aggIndex.value < |block.columns|)
    requires TextsReadable(run, block.tail, rows, Candidates(run, block, rows, ctx))
    ensures count == Popcount(Matched(run, block, rows, ctx))
    ensures values == if run.aggIndex.Some? then LaneValues(Matched(run, block, rows, ctx), block.columns[run.aggIndex.value].planes, 64) else []
  {
    hide ScanBlock, TextsReadable, LaneValues, Verified;
    var candidates := ScanBlock(run.code, block, ctx);
    if rows < 64 { candidates := And(candidates, LowMask(rows)); }
    var mask := Verify(run, block.tail, rows, candidates);
    count, values := Popcount(mask), [];
    if run.aggIndex.Some? {
      if mask == ZEROS {
        NothingMaterialized(block.columns[run.aggIndex.value].planes);
      } else {
        values := Materialize(mask, block.columns[run.aggIndex.value].planes);
      }
    }
  }

  lemma NothingMaterialized(planes: Matrix)
    ensures LaneValues(ZEROS, planes, 64) == []
  {
    NoLanes(ZEROS, planes, 0, 64);
    hide LaneNumber;
  }

  lemma NoBlockValues(run: Runner, rg: RowGroup, ctxs: seq<Context>)
    requires Executable(run, rg, ctxs)
    ensures CountBlocks(run, rg, ctxs, 0) == 0 && (run.aggIndex.Some? ==> GroupValues(run, rg, ctxs, 0) == [])
  {
    hide Matched, TextsReadable;
  }

  lemma BlockValuesNext(run: Runner, rg: RowGroup, ctxs: seq<Context>, b: nat)
    requires Executable(run, rg, ctxs) && b < |rg.blocks|
    ensures Parallel(run) && |ctxs| == |rg.blocks| && b * 64 < rg.numRows
    ensures run.aggIndex.Some? ==> run.aggIndex.value < |rg.blocks[b].columns|
    ensures TextsReadable(run, rg.blocks[b].tail, RowsIn(rg.numRows, b), Candidates(run, rg.blocks[b], RowsIn(rg.numRows, b), ctxs[b]))
    ensures var mask := Matched(run, rg.blocks[b], RowsIn(rg.numRows, b), ctxs[b]);
            && CountBlocks(run, rg, ctxs, b + 1) == CountBlocks(run, rg, ctxs, b) + Popcount(mask)
            && (run.aggIndex.Some? ==> GroupValues(run, rg, ctxs, b + 1) == GroupValues(run, rg, ctxs, b)
                                                   + LaneValues(mask, rg.blocks[b].columns[run.aggIndex.value].planes, 64))
  {
    assert ExecutableBlock(run, rg, ctxs, b);
    hide Matched, LaneValues, TextsReadable, Candidates, Popcount;
  }

  method ExecuteQueryResult(run: Runner, rg: RowGroup, ctxs: seq<Context>) returns (r: QueryResult)
    requires Executable(run, rg, ctxs)
    ensures r == PartResult(GroupPart(run, rg, ctxs))
  {
    hide *;
    NoBlockValues(run, rg, ctxs);
    var count, values: seq<int64> := 0, [];
    for b := 0 to |rg.blocks|
      invariant count == CountBlocks(run, rg, ctxs, b)
      invariant values == if run.aggIndex.Some? then GroupValues(run, rg, ctxs, b) else []
    {
      BlockValuesNext(run, rg, ctxs, b);
      var n, more := BlockValues(run, rg.blocks[b], RowsIn(rg.numRows, b), ctxs[b]);
      count, values := count + n, values + more;
    }
    r := Summarize(values);
    r := r.(count := count);
    GroupPartIs(run, rg, ctxs, count, values);
  }

  lemma GroupPartIs(run: Runner, rg: RowGroup, ctxs: seq<Context>, count: nat, values: seq<int64>)
    requires Executable(run, rg, ctxs) && count == CountBlocks(run, rg, ctxs, |rg.blocks|)
    requires values == if run.aggIndex.Some? then GroupValues(run, rg, ctxs, |rg.blocks|) else []
    ensures PartResult(GroupPart(run, rg, ctxs)) == Summary(values).(count := count)
  {
    hide Executable, CountBlocks, GroupValues, Summary;
  }

  lemma {:induction false} LaneValuesCount(mask: Word, planes: Matrix, n: nat)
    requires n <= 64
    ensures |LaneValues(mask, planes, n)| == Popcount(mask[..n])
  {
    if n > 0 {
      LaneValuesCount(mask, planes, n - 1);
      PopcountLow(mask, n - 1);
      hide Popcount, LaneNumber;
    }
  }

  lemma AllLanesCount(mask: Word, planes: Matrix)
    ensures |LaneValues(mask, planes, 64)| == Popcount(mask)
  {
    LaneValuesCount(mask, planes, 64);
    assert mask[..64] == mask;
    hide LaneValues, Popcount;
  }

  /** A row group reports as many values as matches. */
  lemma {:induction false} GroupCounts(run: Runner, rg: RowGroup, ctxs: seq<Context>, k: nat)
    requires Executable(run, rg, ctxs) && run.aggIndex.Some? && k <= |rg.blocks|
    ensures |GroupValues(run, rg, ctxs, k)| == CountBlocks(run, rg, ctxs, k)
  {
    hide *;
    if k == 0 {
      NoBlockValues(run, rg, ctxs);
    } else {
      GroupCounts(run, rg, ctxs, k - 1);
      BlockValuesNext(run, rg, ctxs, k - 1);
      AllLanesCount(Matched(run, rg.blocks[k - 1], RowsIn(rg.numRows, k - 1), ctxs[k - 1]), rg.blocks[k - 1].columns[run.aggIndex.value].planes);
    }
  }

  // ----- the values are those of the matching rows

  /** The aggregate is a numeric column. */
  predicate AggregatesNumbers(s: Setting)
    requires s.batch.Valid()
  {
    var f := FindColumn(s.batch.names, s.agg);
    s.agg != [] && f.Some? && s.batch.columns[f.value].Ints?
  }

  lemma AggregateNumeric(s: Setting, run: Runner)
    requires Refinable(s, run) && s.agg != []
    ensures s.batch.Valid() && AggregatesNumbers(s)
  {
    hide Ready, Agreeing, FindColumn, FirstIndex, HighestPlane, Pow2;
  }

  function StoredKept(s: Setting, n: nat): seq<int64>
    requires s.batch.Valid() && n <= s.batch.numRows && |s.rg.blocks| == NumBlocks(s.batch.numRows)
  {
    MatchedStored(s.batch.names, Kept(s.batch, AliveBits(s.rg), n), s.preds, s.agg)
  }

  lemma OneStoredIs(s: Setting, n: nat)
    requires s.batch.Valid() && n < s.batch.numRows && AggregatesNumbers(s) && Matches(s.batch.names, RowAt(s.batch, n), s.preds)
    ensures -0x8000_0000_0000_0000 <= AggValue(s, n) < 0x8000_0000_0000_0000
    ensures OneStored(s.batch.names, RowAt(s.batch, n), s.preds, s.agg) == [AggValue(s, n)]
  {
    hide Matches, FindColumn;
  }

  lemma StoredNext(s: Setting, n: nat)
    requires s.batch.Valid() && n < s.batch.numRows && |s.rg.blocks| == NumBlocks(s.batch.numRows) && AggregatesNumbers(s)
    ensures Counted(s, n) ==> StoredKept(s, n + 1) == StoredKept(s, n) + [AggValue(s, n)]
    ensures !Counted(s, n) ==> StoredKept(s, n + 1) == StoredKept(s, n)
  {
    var alive, row := AliveBits(s.rg), RowAt(s.batch, n);
    assert Kept(s.batch, alive, n + 1) == Kept(s.batch, alive, n) + if alive[n] then [row] else [];
    if alive[n] {
      StoredSnoc(s.batch.names, Kept(s.batch, alive, n), row, s.preds, s.agg);
      assert !Matches(s.batch.names, row, s.preds) ==> OneStored(s.batch.names, row, s.preds, s.agg) == [];
      hide Kept, MatchedStored, OneStored, Matches, RowAt, AliveBits, AggValue, AggregatesNumbers;
      if Counted(s, n) { OneStoredIs(s, n); }
    } else {
      assert Kept(s.batch, alive, n) + [] == Kept(s.batch, alive, n);
      hide Kept, MatchedStored, OneStored, Matches, RowAt, AliveBits, AggValue, AggregatesNumbers;
    }
  }

  lemma LaneNumberIs(t: Tile, r: nat, v: Option<int64>)
    requires r < 64 && Lane(t, r) == IntWord(v)
    ensures LaneNumber(t.planes, r) == if v.Some? then v.value else 0
  {
    StoredInt(v);
    WordValue(StoredNumber(v));
    hide WordOf, Value, Transposed;
  }

  /** A lane of the aggregate's tile holds what the row contributes. */
  lemma LaneIsNumber(s: Setting, run: Runner, b: nat, r: nat)
    requires Refinable(s, run) && s.agg != [] && RowIn(s, b, r) && s.batch.Valid() && b * 64 + r < s.batch.numRows && r < 64
    ensures run.aggIndex.Some? && run.aggIndex.value < |s.rg.blocks[b].columns|
    ensures LaneNumber(s.rg.blocks[b].columns[run.aggIndex.value].planes, r) == AggValue(s, b * 64 + r)
  {
    hide *;
    RefinableParts(s, run);
    RunnerParallel(s, run);
    var ops := ReadyParts(s, run);
    var v := AggregateCell(s, run, b, r);
    LaneNumberIs(s.rg.blocks[b].columns[run.aggIndex.value], r, v);
  }

  lemma LaneValuesNext(mask: Word, planes: Matrix, n: nat)
    requires n < 64
    ensures LaneValues(mask, planes, 0) == []
    ensures LaneValues(mask, planes, n + 1) == LaneValues(mask, planes, n) + if mask[n] then [LaneNumber(planes, n)] else []
  {
    hide LaneNumber;
  }

  lemma AppendAgain(x: seq<int64>, y: seq<int64>, z: seq<int64>)
    ensures (x + y) + z == x + (y + z) && x + [] == x
  {
  }

  /** Values the first k lanes of a block add. */
  lemma {:induction false} BlockStored(s: Setting, run: Runner, ctx: Context, b: nat, k: nat, mask: Word, planes: Matrix)
    requires Refinable(s, run) && Parallel(run) && b < |s.rg.blocks| && Room(ctx, s.rg.blocks[b].columns) && s.agg != []
    requires s.batch.Valid() && b * 64 < s.batch.numRows && k <= RowsIn(s.batch.numRows, b)
    requires |s.rg.blocks| == NumBlocks(s.batch.numRows)
    requires mask == Matched(run, s.rg.blocks[b], RowsIn(s.batch.numRows, b), ctx)
    requires run.aggIndex.Some? && run.aggIndex.value < |s.rg.blocks[b].columns| && planes == s.rg.blocks[b].columns[run.aggIndex.value].planes
    ensures StoredKept(s, b * 64 + k) == StoredKept(s, b * 64) + LaneValues(mask, planes, k)
  {
    hide *;
    LaneValuesNext(mask, planes, if k > 0 then k - 1 else 0);
    AppendAgain(StoredKept(s, b * 64), [], []);
    if k > 0 {
      var n := b * 64 + (k - 1);
      BlockStored(s, run, ctx, b, k - 1, mask, planes);
      RowIsIn(s, b, k - 1);
      LaneCounted(s, run, ctx, b, k - 1);
      AggregateNumeric(s, run);
      StoredNext(s, n);
      LaneIsNumber(s, run, b, k - 1);
      AppendAgain(StoredKept(s, b * 64), LaneValues(mask, planes, k - 1), [LaneNumber(planes, k - 1)]);
      AppendAgain(LaneValues(mask, planes, k - 1), [], []);
    }
  }

  lemma BlockAddsStored(s: Setting, run: Runner, ctx: Context, b: nat)
    requires Refinable(s, run) && Parallel(run) && b < |s.rg.blocks| && Room(ctx, s.rg.blocks[b].columns) && s.agg != []
    requires s.batch.Valid() && b * 64 < s.batch.numRows && |s.rg.blocks| == NumBlocks(s.batch.numRows)
    requires run.aggIndex.Some? && run.aggIndex.value < |s.rg.blocks[b].columns|
    ensures var rows := RowsIn(s.batch.numRows, b);
            StoredKept(s, b * 64 + rows) == StoredKept(s, b * 64)
              + LaneValues(Matched(run, s.rg.blocks[b], rows, ctx), s.rg.blocks[b].columns[run.aggIndex.value].planes, 64)
  {
    hide *;
    var rows := RowsIn(s.batch.numRows, b);
    var mask, planes := Matched(run, s.rg.blocks[b], rows, ctx), s.rg.blocks[b].columns[run.aggIndex.value].planes;
    BlockStored(s, run, ctx, b, rows, mask, planes);
    forall r | rows <= r < 64 ensures !mask[r] { MaskBeyond(run, s.rg.blocks[b], rows, ctx, r); }
    NoLanes(mask, planes, rows, 64);
  }

  lemma NothingKept(s: Setting)
    requires s.batch.Valid() && |s.rg.blocks| == NumBlocks(s.batch.numRows)
    ensures Min(0 * 64, s.batch.numRows) == 0 && StoredKept(s, 0) == []
  {
  }

  lemma {:induction false} GroupStored(s: Setting, run: Runner, ctxs: seq<Context>, k: nat)
    requires Refinable(s, run) && Roomy(s.rg, ctxs) && Executable(run, s.rg, ctxs) && s.agg != [] && run.aggIndex.Some?
    requires k <= |s.rg.blocks| == NumBlocks(s.batch.numRows) && s.batch.Valid()
    ensures GroupValues(run, s.rg, ctxs, k) == StoredKept(s, Min(k * 64, s.batch.numRows))
  {
    hide *;
    if k == 0 {
      NoBlockValues(run, s.rg, ctxs);
      NothingKept(s);
    } else {
      var b := k - 1;
      GroupStored(s, run, ctxs, b);
      RefinableParts(s, run);
      BlockValuesNext(run, s.rg, ctxs, b);
      RoomAt(s.rg, ctxs, b);
      BlockRange(s.batch.numRows, |s.rg.blocks|, b);
      BlockAddsStored(s, run, ctxs[b], b);
    }
  }

  lemma GroupPartParts(run: Runner, rg: RowGroup, ctxs: seq<Context>)
    requires Executable(run, rg, ctxs)
    ensures GroupPart(run, rg, ctxs).count == CountBlocks(run, rg, ctxs, |rg.blocks|)
    ensures GroupPart(run, rg, ctxs).values == if run.aggIndex.Some? then GroupValues(run, rg, ctxs, |rg.blocks|) else []
  {
    hide Executable, CountBlocks, GroupValues;
  }

  /** What a row group reports: the number of its matching alive rows, and their
      aggregates as stored, in order. */
  lemma ResultRefines(s: Setting, run: Runner, ctxs: seq<Context>)
    requires QueryDomain(s, run) && Roomy(s.rg, ctxs)
    requires s.batch.Valid() && |s.rg.blocks| == NumBlocks(s.batch.numRows)
    ensures Executable(run, s.rg, ctxs)
    ensures GroupPart(run, s.rg, ctxs) == Part(MatchedStored(s.batch.names, AliveRows(s.rg, s.batch), s.preds, s.agg),
                                               MatchCount(s.batch.names, AliveRows(s.rg, s.batch), s.preds))
  {
    hide *;
    DomainRefinable(s, run);
    RefinableParts(s, run);
    ExecuteRefines(s, run, ctxs);
    GroupPartParts(run, s.rg, ctxs);
    var ops := ReadyParts(s, run);
    if s.agg == [] {
      NothingStored(s.batch.names, AliveRows(s.rg, s.batch), s.preds);
    } else {
      GroupStored(s, run, ctxs, |s.rg.blocks|);
      AllStored(s);
    }
  }

  lemma {:induction false} NothingStored(names: seq<Str>, rows: seq<Row>, preds: seq<Predicate>)
    ensures MatchedStored(names, rows, preds, []) == [] == MatchedNumbers(names, rows, preds, [])
  {
    if rows != [] { NothingStored(names, rows[..|rows| - 1], preds); }
  }

  lemma AllStored(s: Setting)
    requires s.batch.Valid() && |s.rg.blocks| == NumBlocks(s.batch.numRows)
    ensures Min(|s.rg.blocks| * 64, s.batch.numRows) == s.batch.numRows
    ensures StoredKept(s, s.batch.numRows) == MatchedStored(s.batch.names, AliveRows(s.rg, s.batch), s.preds, s.agg)
  {
    hide MatchedStored, Kept, AliveBits;
  }

  // ----- memtables and the whole table

  /** Aggregate values of the matching rows of the first k batches. */
  function BatchesNumbers(batches: seq<Batch>, preds: seq<Predicate>, agg: Str, k: nat): seq<int64>
    requires AllValid(batches) && k <= |batches|
  {
    if k == 0 then []
    else BatchesNumbers(batches, preds, agg, k - 1) + MatchedNumbers(batches[k - 1].names, RowsOf(batches[k - 1]), preds, agg)
  }

  lemma RowNumbersNext(batch: Batch, preds: seq<Predicate>, agg: Str, n: nat)
    requires batch.Valid() && n < batch.numRows
    ensures MatchedNumbers(batch.names, RowsTo(batch, n + 1), preds, agg)
            == MatchedNumbers(batch.names, RowsTo(batch, n), preds, agg) + OneNumber(batch.names, RowAt(batch, n), preds, agg)
    ensures CountTo(batch, preds, n + 1) == CountTo(batch, preds, n) + if Matches(batch.names, RowAt(batch, n), preds) then 1 else 0
  {
    NumbersSnoc(batch.names, RowsTo(batch, n), RowAt(batch, n), preds, agg);
    hide MatchedNumbers, OneNumber, RowAt, SatisfiesAll;
  }

  lemma OneNumberIn(batch: Batch, preds: seq<Predicate>, agg: Str, f: nat, n: nat)
    requires batch.Valid() && n < batch.numRows && agg != [] && FindColumn(batch.names, agg) == Some(f) && batch.columns[f].Ints?
    ensures var v := batch.columns[f].ints[n];
            OneNumber(batch.names, RowAt(batch, n), preds, agg)
            == if Matches(batch.names, RowAt(batch, n), preds) && v.Some? then [v.value] else []
  {
    hide Matches, FindColumn;
  }

  lemma NoNumbers(batch: Batch, preds: seq<Predicate>, agg: Str)
    requires batch.Valid()
    ensures CountTo(batch, preds, 0) == 0 && MatchedNumbers(batch.names, RowsTo(batch, 0), preds, agg) == []
    ensures RowsOf(batch) == RowsTo(batch, batch.numRows) && |batch.names| == |batch.columns|
  {
  }

  /** Which rows match, as marks. */
  predicate Marked(batch: Batch, preds: seq<Predicate>, matches: seq<bool>)
    requires batch.Valid()
  {
    |matches| == batch.numRows && forall r :: 0 <= r < batch.numRows ==> matches[r] == Matches(batch.names, RowAt(batch, r), preds)
  }

  lemma MarkedWhen(batch: Batch, preds: seq<Predicate>, matches: seq<bool>)
    requires batch.Valid() && |matches| == batch.numRows
    requires forall r :: 0 <= r < batch.numRows ==> matches[r] == SatisfiesAll(batch.names, RowAt(batch, r), preds)
    ensures Marked(batch, preds, matches)
  {
    forall r | 0 <= r < batch.numRows ensures matches[r] == Matches(batch.names, RowAt(batch, r), preds) {
      MatchesIs(batch.names, RowAt(batch, r), preds);
    }
    hide Matches, SatisfiesAll, RowAt;
  }

  lemma MatchesIs(names: seq<Str>, row: Row, preds: seq<Predicate>)
    requires |names| == |row|
    ensures Matches(names, row, preds) == SatisfiesAll(names, row, preds)
  {
  }

  lemma NextNumber(batch: Batch, preds: seq<Predicate>, agg: Str, f: nat, matches: seq<bool>, n: nat)
    requires batch.Valid() && Marked(batch, preds, matches) && agg != [] && FindColumn(batch.names, agg) == Some(f)
    requires batch.columns[f].Ints? && n < batch.numRows
    ensures |matches| == |batch.columns[f].ints| == batch.numRows
    ensures var v := batch.columns[f].ints[n];
            MatchedNumbers(batch.names, RowsTo(batch, n + 1), preds, agg)
            == MatchedNumbers(batch.names, RowsTo(batch, n), preds, agg) + if matches[n] && v.Some? then [v.value] else []
  {
    assert matches[n] == Matches(batch.names, RowAt(batch, n), preds);
    assert |batch.columns[f].ints| == batch.numRows;
    hide Marked, Matches, OneNumber, RowAt, MatchedNumbers, RowsTo, CountTo, Batch.Valid;
    RowNumbersNext(batch, preds, agg, n);
    OneNumberIn(batch, preds, agg, f, n);
  }

  method CollectNumbers(batch: Batch, preds: seq<Predicate>, agg: Str, f: nat, matches: seq<bool>) returns (values: seq<int64>)
    requires batch.Valid() && Marked(batch, preds, matches) && agg != [] && FindColumn(batch.names, agg) == Some(f)
    requires batch.columns[f].Ints?
    ensures values == MatchedNumbers(batch.names, RowsTo(batch, batch.numRows), preds, agg)
  {
    hide *;
    NoNumbers(batch, preds, agg);
    values := [];
    for r := 0 to batch.numRows
      invariant values == MatchedNumbers(batch.names, RowsTo(batch, r), preds, agg)
    {
      NextNumber(batch, preds, agg, f, matches, r);
      if matches[r] && batch.columns[f].ints[r].Some? { values := values + [batch.columns[f].ints[r].value]; }
    }
  }

  lemma NextMatch(batch: Batch, preds: seq<Predicate>, matches: seq<bool>, n: nat)
    requires batch.Valid() && Marked(batch, preds, matches) && n < batch.numRows
    ensures |matches| == batch.numRows
    ensures CountTo(batch, preds, n + 1) == CountTo(batch, preds, n) + if matches[n] then 1 else 0
  {
    assert matches[n] == Matches(batch.names, RowAt(batch, n), preds);
    RowNumbersNext(batch, preds, [], n);
    hide Marked, Matches, RowAt, CountTo, Batch.Valid, RowsTo, MatchedNumbers;
  }

  method CountMarked(batch: Batch, preds: seq<Predicate>, matches: seq<bool>) returns (count: nat)
    requires batch.Valid() && Marked(batch, preds, matches)
    ensures count == CountTo(batch, preds, batch.numRows)
  {
    hide *;
    NoNumbers(batch, preds, []);
    count := 0;
    for r := 0 to batch.numRows
      invariant count == CountTo(batch, preds, r)
    {
      NextMatch(batch, preds, matches, r);
      if matches[r] { count := count + 1; }
    }
  }

  lemma NothingToSkip(batch: Batch, preds: seq<Predicate>, agg: Str, n: nat)
    requires batch.Valid() && n < batch.numRows && (agg == [] || FindColumn(batch.names, agg).None?)
    ensures OneNumber(batch.names, RowAt(batch, n), preds, agg) == []
  {
  }

  /** Never more values than matches, and none without an aggregate column. */
  lemma {:induction false} NumbersBounded(batch: Batch, preds: seq<Predicate>, agg: Str, n: nat)
    requires batch.Valid() && n <= batch.numRows
    ensures |MatchedNumbers(batch.names, RowsTo(batch, n), preds, agg)| <= CountTo(batch, preds, n)
    ensures agg == [] || FindColumn(batch.names, agg).None? ==> MatchedNumbers(batch.names, RowsTo(batch, n), preds, agg) == []
  {
    hide *;
    if n == 0 {
      NoNumbers(batch, preds, agg);
    } else {
      NumbersBounded(batch, preds, agg, n - 1);
      RowNumbersNext(batch, preds, agg, n - 1);
      OneAtMost(batch.names, RowAt(batch, n - 1), preds, agg);
      if agg == [] || FindColumn(batch.names, agg).None? { NothingToSkip(batch, preds, agg, n - 1); }
    }
  }

  lemma OneAtMost(names: seq<Str>, row: Row, preds: seq<Predicate>, agg: Str)
    ensures |OneNumber(names, row, preds, agg)| <= if Matches(names, row, preds) then 1 else 0
  {
    hide Matches, FindColumn;
  }

  method BatchNumbers(batch: Batch, preds: seq<Predicate>, agg: Str) returns (count: nat, values: seq<int64>)
    requires batch.Valid() && Typed(batch, preds) && NumericColumn(batch, agg)
    ensures count == CountTo(batch, preds, batch.numRows)
    ensures values == MatchedNumbers(batch.names, RowsOf(batch), preds, agg)
  {
    hide SatisfiesAll, FindColumn, MatchedNumbers, CountTo, Typed, RowsTo, Batch.Valid;
    var matches := MatchingRows(batch, preds);
    MarkedWhen(batch, preds, matches);
    hide Marked;
    NoNumbers(batch, preds, agg);
    NumbersBounded(batch, preds, agg, batch.numRows);
    count := CountMarked(batch, preds, matches);
    values := [];
    if count > 0 && agg != [] {
      var f := FindColumn(batch.names, agg);
      if f.Some? { values := CollectNumbers(batch, preds, agg, f.value, matches); }
    }
  }

  function MemPart(batches: seq<Batch>, preds: seq<Predicate>, agg: Str): Part
    requires AllValid(batches)
  {
    Part(BatchesNumbers(batches, preds, agg, |batches|), CountAll(batches, preds, |batches|))
  }

  lemma QueryableAt(batches: seq<Batch>, preds: seq<Predicate>, agg: Str, i: nat)
    requires Queryable(batches, preds, agg) && i < |batches|
    ensures AllValid(batches) && batches[i].Valid() && Typed(batches[i], preds) && NumericColumn(batches[i], agg)
  {
    hide Typed, NumericColumn, Batch.Valid;
  }

  lemma MemPartIs(batches: seq<Batch>, preds: seq<Predicate>, agg: Str)
    requires AllValid(batches)
    ensures PartResult(MemPart(batches, preds, agg))
            == Summary(BatchesNumbers(batches, preds, agg, |batches|)).(count := CountAll(batches, preds, |batches|))
  {
    hide AllValid, BatchesNumbers, CountAll, Summary;
  }

  method MemTableResult(batches: seq<Batch>, preds: seq<Predicate>, agg: Str) returns (r: QueryResult)
    requires AllValid(batches) && Queryable(batches, preds, agg)
    ensures r == PartResult(MemPart(batches, preds, agg))
  {
    hide *;
    NoBatchNumbers(batches, preds, agg);
    var count, values: seq<int64> := 0, [];
    for i := 0 to |batches|
      invariant count == CountAll(batches, preds, i)
      invariant values == BatchesNumbers(batches, preds, agg, i)
    {
      QueryableAt(batches, preds, agg, i);
      BatchesNext(batches, preds, agg, i);
      NoNumbers(batches[i], preds, agg);
      var n, more := BatchNumbers(batches[i], preds, agg);
      count, values := count + n, values + more;
    }
    r := Summarize(values);
    r := r.(count := count);
    MemPartIs(batches, preds, agg);
  }

  lemma {:induction false} BatchesBounded(batches: seq<Batch>, preds: seq<Predicate>, agg: Str, k: nat)
    requires AllValid(batches) && k <= |batches|
    ensures |BatchesNumbers(batches, preds, agg, k)| <= CountAll(batches, preds, k)
  {
    hide *;
    if k == 0 {
      NoBatchNumbers(batches, preds, agg);
    } else {
      BatchesNext(batches, preds, agg, k - 1);
      BatchesBounded(batches, preds, agg, k - 1);
      NumbersBounded(batches[k - 1], preds, agg, batches[k - 1].numRows);
    }
  }

  lemma MemPartProper(batches: seq<Batch>, preds: seq<Predicate>, agg: Str)
    requires AllValid(batches)
    ensures Proper(MemPart(batches, preds, agg))
  {
    BatchesBounded(batches, preds, agg, |batches|);
    hide AllValid, BatchesNumbers, CountAll;
  }

  // ----- a memtable with nothing but nulls to aggregate

  const KEY: Str := [107]
  const AMOUNT: Str := [118]

  /** One row, whose amount is null. */
  const NULL_BATCH := Batch([KEY, AMOUNT], [Ints([Some(1)]), Ints([None])], 1)

  const KEY_IS_ONE: seq<Predicate> := [Predicate(KEY, EQ, [], 1, false)]

  /** The memtable with this one batch reports a match, and 0 for minimum and maximum. */
  lemma NullBatchReports()
    ensures NULL_BATCH.Valid() && Queryable([NULL_BATCH], KEY_IS_ONE, AMOUNT)
    ensures MemPart([NULL_BATCH], KEY_IS_ONE, AMOUNT) == Part([], 1)
    ensures PartResult(MemPart([NULL_BATCH], KEY_IS_ONE, AMOUNT)) == QueryResult(1, 0, 0, 0, {})
  {
    var b, row := NULL_BATCH, RowAt(NULL_BATCH, 0);
    assert b.Valid() && row == [IntCell(Some(1)), IntCell(None)];
    assert FindColumn(b.names, KEY) == Some(0) && FindColumn(b.names, AMOUNT) == Some(1);
    assert Satisfies(b.names, row, KEY_IS_ONE[0]);
    assert Matches(b.names, row, KEY_IS_ONE) && OneNumber(b.names, row, KEY_IS_ONE, AMOUNT) == [];
    hide FindColumn, Matches, OneNumber, RowAt, Satisfies;
    RowNumbersNext(b, KEY_IS_ONE, AMOUNT, 0);
    NoNumbers(b, KEY_IS_ONE, AMOUNT);
    NoBatchNumbers([b], KEY_IS_ONE, AMOUNT);
    BatchesNext([b], KEY_IS_ONE, AMOUNT, 0);
  }

  /** Merged with one positive or one negative value, it spoils the result. */
  lemma NullBatchSpoils(v: int64)
    requires v != 0
    ensures var merged := Merge(Summary([v]), PartResult(MemPart([NULL_BATCH], KEY_IS_ONE, AMOUNT)));
            merged.min != Minimum([v]) || merged.max != Maximum([v])
  {
    NullBatchReports();
    hide MemPart, PartResult;
  }

  /** No matching row has a null aggregate. */
  ghost predicate NullFree(batches: seq<Batch>, preds: seq<Predicate>, agg: Str)
    requires AllValid(batches)
  {
    forall i, n :: 0 <= i < |batches| && 0 <= n < batches[i].numRows && Matches(batches[i].names, RowAt(batches[i], n), preds) ==>
      |OneNumber(batches[i].names, RowAt(batches[i], n), preds, agg)| == 1
  }

  lemma {:induction false} BatchCount(batch: Batch, preds: seq<Predicate>, agg: Str, n: nat)
    requires batch.Valid() && n <= batch.numRows
    requires forall k :: 0 <= k < n && Matches(batch.names, RowAt(batch, k), preds) ==> |OneNumber(batch.names, RowAt(batch, k), preds, agg)| == 1
    ensures |MatchedNumbers(batch.names, RowsTo(batch, n), preds, agg)| == CountTo(batch, preds, n)
  {
    if n > 0 {
      BatchCount(batch, preds, agg, n - 1);
      RowNumbersNext(batch, preds, agg, n - 1);
      assert !Matches(batch.names, RowAt(batch, n - 1), preds) ==> OneNumber(batch.names, RowAt(batch, n - 1), preds, agg) == [];
      hide OneNumber, Matches, RowAt, MatchedNumbers, RowsTo, CountTo, Batch.Valid;
    }
  }

  lemma BatchesNext(batches: seq<Batch>, preds: seq<Predicate>, agg: Str, k: nat)
    requires AllValid(batches) && k < |batches|
    ensures batches[k].Valid()
    ensures BatchesNumbers(batches, preds, agg, k + 1)
            == BatchesNumbers(batches, preds, agg, k) + MatchedNumbers(batches[k].names, RowsTo(batches[k], batches[k].numRows), preds, agg)
    ensures CountAll(batches, preds, k + 1) == CountAll(batches, preds, k) + CountTo(batches[k], preds, batches[k].numRows)
  {
    hide MatchedNumbers, CountTo, RowsTo, Batch.Valid;
  }

  lemma NoBatchNumbers(batches: seq<Batch>, preds: seq<Predicate>, agg: Str)
    requires AllValid(batches)
    ensures BatchesNumbers(batches, preds, agg, 0) == [] && CountAll(batches, preds, 0) == 0
  {
  }

  lemma NullFreeAt(batches: seq<Batch>, preds: seq<Predicate>, agg: Str, k: nat)
    requires AllValid(batches) && NullFree(batches, preds, agg) && k < |batches|
    ensures batches[k].Valid()
    ensures forall n :: 0 <= n < batches[k].numRows && Matches(batches[k].names, RowAt(batches[k], n), preds) ==>
      |OneNumber(batches[k].names, RowAt(batches[k], n), preds, agg)| == 1
  {
    hide Matches, RowAt, OneNumber, Batch.Valid;
  }

  /** Without null aggregates, as many values as matches. */
  lemma {:induction false} CountsAgree(batches: seq<Batch>, preds: seq<Predicate>, agg: Str, k: nat)
    requires AllValid(batches) && NullFree(batches, preds, agg) && k <= |batches|
    ensures |BatchesNumbers(batches, preds, agg, k)| == CountAll(batches, preds, k)
  {
    hide *;
    if k == 0 {
      NoBatchNumbers(batches, preds, agg);
    } else {
      BatchesNext(batches, preds, agg, k - 1);
      NullFreeAt(batches, preds, agg, k - 1);
      CountsAgree(batches, preds, agg, k - 1);
      BatchCount(batches[k - 1], preds, agg, batches[k - 1].numRows);
    }
  }

  lemma MemTableSummary(batches: seq<Batch>, preds: seq<Predicate>, agg: Str)
    requires AllValid(batches) && NullFree(batches, preds, agg)
    ensures !AllNull(MemPart(batches, preds, agg))
    ensures PartResult(MemPart(batches, preds, agg)) == Summary(BatchesNumbers(batches, preds, agg, |batches|))
  {
    CountsAgree(batches, preds, agg, |batches|);
    hide BatchesNumbers, CountAll, NullFree;
  }

  // ----- the whole table

  function GroupParts(run: Runner, groups: seq<RowGroup>, ctxs: seq<seq<Context>>, k: nat): seq<Part>
    requires ExecutableAll(run, groups, ctxs) && k <= |groups|
  {
    if k == 0 then [] else GroupParts(run, groups, ctxs, k - 1) + [GroupPart(run, groups[k - 1], ctxs[k - 1])]
  }

  /** What a table's parts report: persisted groups, active and frozen batches. */
  function TableParts(run: Runner, groups: seq<RowGroup>, ctxs: seq<seq<Context>>, active: seq<Batch>, frozen: seq<Batch>): seq<Part>
    requires ExecutableAll(run, groups, ctxs) && AllValid(active) && AllValid(frozen)
  {
    GroupParts(run, groups, ctxs, |groups|) + [MemPart(active, run.preds, run.aggName)] + [MemPart(frozen, run.preds, run.aggName)]
  }

  /** Without an aggregate no part has values; otherwise a group has one per match. */
  lemma GroupPartProper(run: Runner, rg: RowGroup, ctxs: seq<Context>)
    requires Executable(run, rg, ctxs)
    ensures Proper(GroupPart(run, rg, ctxs)) && (run.aggIndex.Some? ==> !AllNull(GroupPart(run, rg, ctxs)))
  {
    if run.aggIndex.Some? { GroupCounts(run, rg, ctxs, |rg.blocks|); }
    GroupPartParts(run, rg, ctxs);
    hide GroupPart, GroupValues, CountBlocks, Executable;
  }

  lemma GroupPartsNext(run: Runner, groups: seq<RowGroup>, ctxs: seq<seq<Context>>, g: nat)
    requires ExecutableAll(run, groups, ctxs) && g < |groups|
    ensures |groups| == |ctxs| && Executable(run, groups[g], ctxs[g])
    ensures GroupParts(run, groups, ctxs, 0) == []
    ensures GroupParts(run, groups, ctxs, g + 1) == GroupParts(run, groups, ctxs, g) + [GroupPart(run, groups[g], ctxs[g])]
  {
    hide Executable, GroupPart;
  }

  lemma NoGroupParts(run: Runner, groups: seq<RowGroup>, ctxs: seq<seq<Context>>)
    requires ExecutableAll(run, groups, ctxs)
    ensures GroupParts(run, groups, ctxs, 0) == [] && ResultsOf([], []) && |groups| == |ctxs|
  {
    hide Executable;
  }

  lemma OneMore(results: seq<QueryResult>, parts: seq<Part>, r: QueryResult, p: Part)
    requires ResultsOf(results, parts) && r == PartResult(p) && Proper(p)
    ensures ResultsOf(results + [r], parts + [p])
  {
    hide PartResult, Proper;
  }

  lemma TablePartsAre(run: Runner, groups: seq<RowGroup>, ctxs: seq<seq<Context>>, active: seq<Batch>, frozen: seq<Batch>)
    requires ExecutableAll(run, groups, ctxs) && AllValid(active) && AllValid(frozen)
    ensures TableParts(run, groups, ctxs, active, frozen)
            == GroupParts(run, groups, ctxs, |groups|) + [MemPart(active, run.preds, run.aggName)] + [MemPart(frozen, run.preds, run.aggName)]
  {
  }

  /** The result of a table, from the results of its parts. */
  ghost function TableReport(run: Runner, groups: seq<RowGroup>, ctxs: seq<seq<Context>>, active: seq<Batch>, frozen: seq<Batch>): QueryResult
    requires ExecutableAll(run, groups, ctxs) && AllValid(active) && AllValid(frozen)
  {
    var parts := TableParts(run, groups, ctxs, active, frozen);
    Reported(Values(parts), Counts(parts), SomeNull(parts))
  }

  /** The merged result of a table is one pass over all its values, with a zero among
      the candidates for minimum and maximum when a part had only nulls. */
  method TableResult(run: Runner, groups: seq<RowGroup>, ctxs: seq<seq<Context>>, active: seq<Batch>, frozen: seq<Batch>) returns (r: QueryResult)
    requires ExecutableAll(run, groups, ctxs)
    requires AllValid(active) && Queryable(active, run.preds, run.aggName)
    requires AllValid(frozen) && Queryable(frozen, run.preds, run.aggName)
    ensures r == TableReport(run, groups, ctxs, active, frozen)
  {
    hide *;
    NoGroupParts(run, groups, ctxs);
    var results: seq<QueryResult> := [];
    for g := 0 to |groups|
      invariant ResultsOf(results, GroupParts(run, groups, ctxs, g))
    {
      GroupPartsNext(run, groups, ctxs, g);
      GroupPartProper(run, groups[g], ctxs[g]);
      var one := ExecuteQueryResult(run, groups[g], ctxs[g]);
      OneMore(results, GroupParts(run, groups, ctxs, g), one, GroupPart(run, groups[g], ctxs[g]));
      results := results + [one];
    }
    ghost var parts := GroupParts(run, groups, ctxs, |groups|);
    var a := MemTableResult(active, run.preds, run.aggName);
    MemPartProper(active, run.preds, run.aggName);
    OneMore(results, parts, a, MemPart(active, run.preds, run.aggName));
    var f := MemTableResult(frozen, run.preds, run.aggName);
    MemPartProper(frozen, run.preds, run.aggName);
    OneMore(results + [a], parts + [MemPart(active, run.preds, run.aggName)], f, MemPart(frozen, run.preds, run.aggName));
    TablePartsAre(run, groups, ctxs, active, frozen);
    r := MergeResults(results + [a] + [f], TableParts(run, groups, ctxs, active, frozen));
    ReportIs(run, groups, ctxs, active, frozen);
  }

  lemma ReportIs(run: Runner, groups: seq<RowGroup>, ctxs: seq<seq<Context>>, active: seq<Batch>, frozen: seq<Batch>)
    requires ExecutableAll(run, groups, ctxs) && AllValid(active) && AllValid(frozen)
    ensures var parts := TableParts(run, groups, ctxs, active, frozen);
            TableReport(run, groups, ctxs, active, frozen) == Reported(Values(parts), Counts(parts), SomeNull(parts))
  {
    hide TableParts, Reported, Values, Counts, SomeNull, ExecutableAll, AllValid;
  }
}
