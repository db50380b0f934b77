/** Row-by-row query execution over in-memory batches: the reference meaning of
    a conjunctive query. */
module MemTables {
  import opened Words
  import opened Storage

  datatype PredicateOp = EQ | LIKE_PREFIX | LIKE_CONTAINS | GT | LT

  datatype Predicate = Predicate(column: Str, op: PredicateOp, value: Str, number: u64, isString: bool)

  type u64 = n: nat | n < TWO_64

  const PERCENT: byte := 37

  function DropLastPercent(s: Str): Str {
    if s != [] && s[|s| - 1] == PERCENT then s[..|s| - 1] else s
  }

  function DropFirstPercent(s: Str): Str {
    if s != [] && s[0] == PERCENT then s[1..] else s
  }

  /** The pattern without its wildcards. */
  function CleanPattern(op: PredicateOp, value: Str): Str {
    if op == LIKE_PREFIX then DropLastPercent(value)
    else if op == LIKE_CONTAINS then DropLastPercent(DropFirstPercent(value))
    else value
  }

  /** One wildcard is stripped at each end that may carry it: at both ends of a
      `contains` pattern, at the end of a prefix, nowhere of an equality. */
  lemma WildcardsStripped(p: Str)
    ensures CleanPattern(LIKE_CONTAINS, [37] + p + [37]) == p
    ensures CleanPattern(LIKE_PREFIX, p + [37]) == p
    ensures CleanPattern(EQ, p) == p
  {
    assert ([37] + p + [37])[1..] == p + [37];
    assert (p + [37])[..|p|] == p;
  }

  /** An end without a wildcard is kept. */
  lemma OtherEndsKept(p: Str)
    ensures (p == [] || p[|p| - 1] != 37) ==> CleanPattern(LIKE_PREFIX, p) == p && CleanPattern(LIKE_CONTAINS, [37] + p) == p
    ensures p != [] && p[0] != 37 ==> CleanPattern(LIKE_CONTAINS, p + [37]) == p
    ensures p != [] && p[0] != 37 && p[|p| - 1] != 37 ==> CleanPattern(LIKE_CONTAINS, p) == p
    ensures CleanPattern(LIKE_CONTAINS, []) == [] == CleanPattern(LIKE_CONTAINS, [37])
  {
    assert ([37] + p)[1..] == p;
    assert (p + [37])[..|p|] == p;
  }

  predicate OccursAt(text: Str, pattern: Str, i: nat) {
    i + |pattern| <= |text| && text[i..i + |pattern|] == pattern
  }

  /** `find(pattern) != npos` */
  predicate Contains(text: Str, pattern: Str) {
    exists i: nat | i <= |text| :: OccursAt(text, pattern, i)
  }

  predicate MatchString(text: Str, op: PredicateOp, pattern: Str) {
    match op
    case EQ => text == pattern
    case LIKE_PREFIX => pattern <= text
    case LIKE_CONTAINS => Contains(text, pattern)
    case GT => false
    case LT => false
  }

  /** What the string operators say of a text. */
  lemma StringMeaning(text: Str, p: Str)
    ensures MatchString(text, EQ, p) <==> text == p
    ensures MatchString(text, LIKE_PREFIX, p) <==> exists y: Str :: text == p + y
    ensures MatchString(text, LIKE_CONTAINS, p) <==> exists x: Str, y: Str :: text == x + p + y
    ensures !MatchString(text, GT, p) && !MatchString(text, LT, p)
  {
    if p <= text { assert text == p + text[|p|..]; }
    if Contains(text, p) {
      var i: nat :| i <= |text| && OccursAt(text, p, i);
      assert text == text[..i] + p + text[i + |p|..];
    }
    forall x: Str, y: Str | text == x + p + y ensures Contains(text, p) {
      assert OccursAt(text, p, |x|);
    }
  }

  /** Signed comparison with the target reinterpreted as signed. */
  predicate MatchNumeric(n: int64, op: PredicateOp, target: u64) {
    match op
    case EQ => n == Signed(target)
    case GT => n > Signed(target)
    case LT => n < Signed(target)
    case LIKE_PREFIX => false
    case LIKE_CONTAINS => false
  }

  /** Nulls never match. */
  predicate CellMatches(cell: Cell, pred: Predicate) {
    if pred.isString then cell.StrCell? && cell.s.Some? && MatchString(cell.s.value, pred.op, CleanPattern(pred.op, pred.value))
    else cell.IntCell? && cell.n.Some? && MatchNumeric(cell.n.value, pred.op, pred.number)
  }

  // ----- columns by name

  function FirstIndex(names: seq<Str>, name: Str): (r: Option<nat>)
    ensures r.Some? ==> r.value < |names| && names[r.value] == name
    ensures r.Some? ==> forall i :: 0 <= i < r.value ==> names[i] != name
    ensures r.None? ==> name !in names
  {
    if names == [] then None
    else if names[0] == name then Some(0)
    else match FirstIndex(names[1..], name)
         case Some(i) => Some(i + 1)
         case None => None
  }

  /** Arrow finds a column only when its name is unique. */
  function FindColumn(names: seq<Str>, name: Str): (r: Option<nat>)
    ensures r.Some? ==> r.value < |names| && names[r.value] == name
  {
    var i := FirstIndex(names, name);
    if i.Some? && name in names[i.value + 1..] then None else i
  }

  /** The name stands at index i and nowhere else. */
  predicate OnlyAt(names: seq<Str>, name: Str, i: nat) {
    i < |names| && names[i] == name && forall j :: 0 <= j < |names| && names[j] == name ==> j == i
  }

  /** A column is found exactly when its name occurs once, and then where it occurs. */
  lemma FoundExactly(names: seq<Str>, name: Str)
    ensures forall i: nat :: FindColumn(names, name) == Some(i) <==> OnlyAt(names, name, i)
  {
    var first := FirstIndex(names, name);
    forall i: nat ensures FindColumn(names, name) == Some(i) <==> OnlyAt(names, name, i) {
      if OnlyAt(names, name, i) {
        assert first == Some(i);
        assert name !in names[i + 1..];
      } else if first == Some(i) {
        var j :| 0 <= j < |names| && names[j] == name && j != i;
        assert names[i + 1..][j - i - 1] == name;
      }
    }
  }

  /** Predicates are applied to columns of their own kind. */
  predicate Typed(batch: Batch, preds: seq<Predicate>)
    requires batch.Valid()
  {
    forall p :: 0 <= p < |preds| ==>
      var i := FindColumn(batch.names, preds[p].column);
      i.Some? ==> batch.columns[i.value].Strs? == preds[p].isString
  }

  predicate NumericColumn(batch: Batch, name: Str)
    requires batch.Valid()
  {
    var i := FindColumn(batch.names, name);
    i.Some? ==> batch.columns[i.value].Ints?
  }

  // ----- the reference semantics

  predicate Satisfies(names: seq<Str>, row: Row, pred: Predicate)
    requires |names| == |row|
  {
    var i := FindColumn(names, pred.column);
    i.Some? && CellMatches(row[i.value], pred)
  }

  predicate SatisfiesAll(names: seq<Str>, row: Row, preds: seq<Predicate>)
    requires |names| == |row|
  {
    forall p :: 0 <= p < |preds| ==> Satisfies(names, row, preds[p])
  }

  /** Number of matching rows among the first n. */
  function CountTo(batch: Batch, preds: seq<Predicate>, n: nat): nat
    requires batch.Valid() && n <= batch.numRows
  {
    if n == 0 then 0
    else CountTo(batch, preds, n - 1) + if SatisfiesAll(batch.names, RowAt(batch, n - 1), preds) then 1 else 0
  }

  /** The value a row contributes to a SUM; nulls contribute nothing. */
  function Contribution(names: seq<Str>, row: Row, agg: Str): int
    requires |names| == |row|
  {
    var i := FindColumn(names, agg);
    if agg == [] || i.None? then 0
    else match row[i.value]
         case IntCell(Some(n)) => n
         case _ => 0
  }

  function SumTo(batch: Batch, preds: seq<Predicate>, agg: Str, n: nat): int
    requires batch.Valid() && n <= batch.numRows
  {
    if n == 0 then 0
    else SumTo(batch, preds, agg, n - 1)
         + if SatisfiesAll(batch.names, RowAt(batch, n - 1), preds) then Contribution(batch.names, RowAt(batch, n - 1), agg) else 0
  }

  predicate AllValid(batches: seq<Batch>) { forall i :: 0 <= i < |batches| ==> batches[i].Valid() }

  function CountAll(batches: seq<Batch>, preds: seq<Predicate>, k: nat): nat
    requires k <= |batches| && AllValid(batches)
  {
    if k == 0 then 0 else CountAll(batches, preds, k - 1) + CountTo(batches[k - 1], preds, batches[k - 1].numRows)
  }

  function SumAll(batches: seq<Batch>, preds: seq<Predicate>, agg: Str, k: nat): int
    requires k <= |batches| && AllValid(batches)
  {
    if k == 0 then 0 else SumAll(batches, preds, agg, k - 1) + SumTo(batches[k - 1], preds, agg, batches[k - 1].numRows)
  }

  // ----- the column-at-a-time filter

  predicate HoldsUpTo(batch: Batch, preds: seq<Predicate>, k: nat, r: nat)
    requires batch.Valid() && k <= |preds| && r < batch.numRows
  {
    forall p :: 0 <= p < k ==> Satisfies(batch.names, RowAt(batch, r), preds[p])
  }

  method FilterColumn(batch: Batch, preds: seq<Predicate>, k: nat, f: nat, was: seq<bool>) returns (matches: seq<bool>)
    requires batch.Valid() && k < |preds| && FindColumn(batch.names, preds[k].column) == Some(f)
    requires batch.columns[f].Strs? == preds[k].isString
    requires |was| == batch.numRows
    requires forall r :: 0 <= r < batch.numRows ==> was[r] == HoldsUpTo(batch, preds, k, r)
    ensures |matches| == batch.numRows
    ensures forall r :: 0 <= r < batch.numRows ==> matches[r] == HoldsUpTo(batch, preds, k + 1, r)
  {
    var pred, c := preds[k], batch.columns[f];
    var pattern := CleanPattern(pred.op, pred.value);
    matches := was;
    for r := 0 to batch.numRows
      invariant |matches| == batch.numRows
      invariant forall i :: 0 <= i < r ==> matches[i] == (was[i] && CellMatches(CellAt(c, i), pred))
      invariant forall i :: r <= i < batch.numRows ==> matches[i] == was[i]
    {
      if matches[r] {
        if pred.isString {
          matches := matches[r := c.strs[r].Some? && MatchString(c.strs[r].value, pred.op, pattern)];
        } else {
          matches := matches[r := c.ints[r].Some? && MatchNumeric(c.ints[r].value, pred.op, pred.number)];
        }
      }
    }
    hide CellMatches;
    forall r | 0 <= r < batch.numRows ensures matches[r] == HoldsUpTo(batch, preds, k + 1, r) {
      assert Satisfies(batch.names, RowAt(batch, r), pred) == CellMatches(CellAt(c, r), pred);
    }
  }

  /** Which rows of a batch satisfy every predicate; a predicate on an absent
      column fails every row. */
  method MatchingRows(batch: Batch, preds: seq<Predicate>) returns (matches: seq<bool>)
    requires batch.Valid() && Typed(batch, preds)
    ensures |matches| == batch.numRows
    ensures forall r :: 0 <= r < batch.numRows ==> matches[r] == SatisfiesAll(batch.names, RowAt(batch, r), preds)
  {
    hide Satisfies;
    matches := seq(batch.numRows, _ => true);
    for k := 0 to |preds|
      invariant |matches| == batch.numRows
      invariant forall r :: 0 <= r < batch.numRows ==> matches[r] == HoldsUpTo(batch, preds, k, r)
    {
      var f := FindColumn(batch.names, preds[k].column);
      if f.None? {
        matches := seq(batch.numRows, _ => false);
        forall r | 0 <= r < batch.numRows ensures !SatisfiesAll(batch.names, RowAt(batch, r), preds) {
          AbsentColumn(batch, preds[k], r);
        }
        return;
      }
      matches := FilterColumn(batch, preds, k, f.value, matches);
    }
  }

  lemma AbsentColumn(batch: Batch, pred: Predicate, r: nat)
    requires batch.Valid() && r < batch.numRows && FindColumn(batch.names, pred.column).None?
    ensures !Satisfies(batch.names, RowAt(batch, r), pred)
  {
  }

  // ----- a string query, from its text to the rows it marks

  /** The text of column `name` in row r, if there is one. */
  predicate TextIs(batch: Batch, name: Str, r: nat, text: Str)
    requires batch.Valid() && r < batch.numRows
  {
    exists f :: 0 <= f < |batch.names| && OnlyAt(batch.names, name, f) && CellAt(batch.columns[f], r) == StrCell(Some(text))
  }

  lemma TextOfColumn(batch: Batch, name: Str, r: nat)
    requires batch.Valid() && r < batch.numRows
    ensures forall text: Str :: TextIs(batch, name, r, text) <==>
      var f := FindColumn(batch.names, name); f.Some? && CellAt(batch.columns[f.value], r) == StrCell(Some(text))
  {
    FoundExactly(batch.names, name);
    hide FindColumn, OnlyAt;
  }

  lemma OneStringPredicate(batch: Batch, name: Str, op: PredicateOp, value: Str, number: u64, r: nat)
    requires batch.Valid() && r < batch.numRows
    ensures SatisfiesAll(batch.names, RowAt(batch, r), [Predicate(name, op, value, number, true)])
            <==> exists text: Str :: TextIs(batch, name, r, text) && MatchString(text, op, CleanPattern(op, value))
  {
    TextOfColumn(batch, name, r);
    hide FindColumn, TextIs, MatchString, CleanPattern;
    var pred, row := Predicate(name, op, value, number, true), RowAt(batch, r);
    assert SatisfiesAll(batch.names, row, [pred]) <==> Satisfies(batch.names, row, [pred][0]);
    if Satisfies(batch.names, row, pred) {
      var cell := row[FindColumn(batch.names, name).value];
      assert cell == StrCell(Some(cell.s.value));
      assert TextIs(batch, name, r, cell.s.value);
    }
  }

  /** `contains "%p%"` marks the rows whose text has p somewhere, whatever p is. */
  lemma ContainsQuery(batch: Batch, name: Str, p: Str, number: u64, r: nat)
    requires batch.Valid() && r < batch.numRows
    ensures SatisfiesAll(batch.names, RowAt(batch, r), [Predicate(name, LIKE_CONTAINS, [37] + p + [37], number, true)])
            <==> exists x: Str, y: Str :: TextIs(batch, name, r, x + p + y)
  {
    OneStringPredicate(batch, name, LIKE_CONTAINS, [37] + p + [37], number, r);
    WildcardsStripped(p);
    hide SatisfiesAll, RowAt, MatchString, CleanPattern, TextIs;
    forall text: Str | TextIs(batch, name, r, text) && MatchString(text, LIKE_CONTAINS, p)
      ensures exists x: Str, y: Str :: TextIs(batch, name, r, x + p + y)
    {
      StringMeaning(text, p);
    }
    forall x: Str, y: Str | TextIs(batch, name, r, x + p + y) ensures MatchString(x + p + y, LIKE_CONTAINS, p) {
      StringMeaning(x + p + y, p);
    }
  }

  /** `prefix "p%"` marks the rows whose text begins with p. */
  lemma PrefixQuery(batch: Batch, name: Str, p: Str, number: u64, r: nat)
    requires batch.Valid() && r < batch.numRows
    ensures SatisfiesAll(batch.names, RowAt(batch, r), [Predicate(name, LIKE_PREFIX, p + [37], number, true)])
            <==> exists y: Str :: TextIs(batch, name, r, p + y)
  {
    OneStringPredicate(batch, name, LIKE_PREFIX, p + [37], number, r);
    WildcardsStripped(p);
    hide SatisfiesAll, RowAt, MatchString, CleanPattern, TextIs;
    forall text: Str | TextIs(batch, name, r, text) && MatchString(text, LIKE_PREFIX, p)
      ensures exists y: Str :: TextIs(batch, name, r, p + y)
    {
      StringMeaning(text, p);
    }
    forall y: Str | TextIs(batch, name, r, p + y) ensures MatchString(p + y, LIKE_PREFIX, p) {
      StringMeaning(p + y, p);
    }
  }

  /** `=` marks the rows whose text is p, percent signs included. */
  lemma EqualityQuery(batch: Batch, name: Str, p: Str, number: u64, r: nat)
    requires batch.Valid() && r < batch.numRows
    ensures SatisfiesAll(batch.names, RowAt(batch, r), [Predicate(name, EQ, p, number, true)]) <==> TextIs(batch, name, r, p)
  {
    OneStringPredicate(batch, name, EQ, p, number, r);
    WildcardsStripped(p);
    hide SatisfiesAll, RowAt, CleanPattern, TextIs;
  }

  class MemTable {
    var batches: seq<Batch>
    var rowCount: nat

    ghost predicate Valid()
      reads this
    {
      AllValid(batches) && rowCount == TotalRows(batches)
    }

    constructor ()
      ensures Valid() && batches == []
    {
      batches, rowCount := [], 0;
    }

    method Append(batch: Batch)
      requires Valid() && batch.Valid()
      modifies this
      ensures Valid() && batches == old(batches) + [batch]
    {
      TotalRowsSnoc(batches, batch);
      batches := batches + [batch];
      rowCount := rowCount + batch.numRows;
    }

    method Clear()
      modifies this
      ensures Valid() && batches == []
    {
      batches, rowCount := [], 0;
    }

    method ExecuteQuery(preds: seq<Predicate>, agg: Str) returns (matched: nat, sum: u64)
      requires Valid()
      requires forall i :: 0 <= i < |batches| ==> Typed(batches[i], preds) && NumericColumn(batches[i], agg)
      ensures matched == CountAll(batches, preds, |batches|)
      ensures sum == Wrap(SumAll(batches, preds, agg, |batches|))
    {
      var snapshot := batches;
      matched, sum := QueryBatches(snapshot, preds, agg);
    }
  }

  method QueryBatches(batches: seq<Batch>, preds: seq<Predicate>, agg: Str) returns (matched: nat, sum: u64)
    requires AllValid(batches)
    requires forall i :: 0 <= i < |batches| ==> Typed(batches[i], preds) && NumericColumn(batches[i], agg)
    ensures matched == CountAll(batches, preds, |batches|)
    ensures sum == Wrap(SumAll(batches, preds, agg, |batches|))
  {
    hide Typed, NumericColumn, CountTo, SumTo, Wrap, Batch.Valid;
    matched, sum := 0, 0;
    for k := 0 to |batches|
      invariant matched == CountAll(batches, preds, k)
      invariant sum == Wrap(SumAll(batches, preds, agg, k))
    {
      var n, s := QueryBatch(batches[k], preds, agg, sum);
      matched := matched + n;
      WrapAdd(SumAll(batches, preds, agg, k), SumTo(batches[k], preds, agg, batches[k].numRows));
      sum := s;
    }
  }

  function TotalRows(batches: seq<Batch>): nat {
    if batches == [] then 0 else batches[0].numRows + TotalRows(batches[1..])
  }

  lemma {:induction false} TotalRowsSnoc(batches: seq<Batch>, last: Batch)
    ensures TotalRows(batches + [last]) == TotalRows(batches) + last.numRows
  {
    if batches == [] {
      assert [] + [last] == [last];
    } else {
      TotalRowsSnoc(batches[1..], last);
      assert (batches + [last])[1..] == batches[1..] + [last];
    }
  }

  /** One batch, starting from an accumulated 64-bit sum. */
  method QueryBatch(batch: Batch, preds: seq<Predicate>, agg: Str, start: u64) returns (matched: nat, sum: u64)
    requires batch.Valid() && Typed(batch, preds) && NumericColumn(batch, agg)
    ensures matched == CountTo(batch, preds, batch.numRows)
    ensures sum == Wrap(start + SumTo(batch, preds, agg, batch.numRows))
  {
    hide SatisfiesAll, RowAt, Wrap;
    var matches := MatchingRows(batch, preds);
    matched := 0;
    for r := 0 to batch.numRows
      invariant matched == CountTo(batch, preds, r)
    {
      if matches[r] { matched := matched + 1; }
    }
    sum := start;
    if matched > 0 && agg != [] {
      var f := FindColumn(batch.names, agg);
      if f.Some? {
        sum := SumMatches(batch, preds, agg, f.value, matches, start);
        return;
      }
    }
    NothingToSum(batch, preds, agg, batch.numRows);
  }

  method SumMatches(batch: Batch, preds: seq<Predicate>, agg: Str, f: nat, matches: seq<bool>, start: u64) returns (sum: u64)
    requires batch.Valid()
    requires agg != [] && FindColumn(batch.names, agg) == Some(f) && batch.columns[f].Ints?
    requires |matches| == batch.numRows
    requires forall r :: 0 <= r < batch.numRows ==> matches[r] == SatisfiesAll(batch.names, RowAt(batch, r), preds)
    ensures sum == Wrap(start + SumTo(batch, preds, agg, batch.numRows))
  {
    var ints := batch.columns[f].ints;
    assert |ints| == batch.numRows;
    hide SatisfiesAll, RowAt, Contribution, Wrap, FindColumn, Batch.Valid;
    sum := start;
    for r := 0 to batch.numRows
      invariant sum == Wrap(start + SumTo(batch, preds, agg, r))
    {
      ContributionOf(batch, agg, f, r);
      WrapAdd(start + SumTo(batch, preds, agg, r), Contribution(batch.names, RowAt(batch, r), agg));
      if matches[r] && ints[r].Some? {
        sum := Wrap(sum + ints[r].value);
      }
    }
  }

  lemma ContributionOf(batch: Batch, agg: Str, f: nat, r: nat)
    requires batch.Valid() && r < batch.numRows
    requires agg != [] && FindColumn(batch.names, agg) == Some(f) && batch.columns[f].Ints?
    ensures var v := batch.columns[f].ints[r];
            Contribution(batch.names, RowAt(batch, r), agg) == if v.Some? then v.value else 0
  {
    assert RowAt(batch, r)[f] == IntCell(batch.columns[f].ints[r]);
  }

  lemma {:induction false} NothingToSum(batch: Batch, preds: seq<Predicate>, agg: Str, n: nat)
    requires batch.Valid() && n <= batch.numRows
    requires CountTo(batch, preds, n) == 0 || agg == [] || FindColumn(batch.names, agg).None?
    ensures SumTo(batch, preds, agg, n) == 0
  {
    hide SatisfiesAll, RowAt;
    if n > 0 { NothingToSum(batch, preds, agg, n - 1); }
  }
}
