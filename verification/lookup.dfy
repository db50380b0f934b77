/** Finding columns by name among the physical columns: exactly when a lookup finds
    the tiles of the logical column meant, and that it does when user names do not
    collide with generated signature names. */
module ColumnLookup {
  import opened Storage
  import opened MemTables
  import opened AdaptiveIngester
  import opened QueryPlanner

  /** Names are distinct, and none is another's signature name. */
  predicate NoCollisions(names: seq<Str>) {
    && (forall i, j :: 0 <= i < j < |names| ==> names[i] != names[j])
    && (forall i, j :: 0 <= i < |names| && 0 <= j < |names| ==> names[i] != names[j] + KIM_SUFFIX)
  }

  lemma SuffixInjective(x: Str, y: Str)
    requires x + KIM_SUFFIX == y + KIM_SUFFIX
    ensures x == y
  {
    assert |x| == |y|;
    assert x == (x + KIM_SUFFIX)[..|x|] && y == (y + KIM_SUFFIX)[..|y|];
  }

  lemma {:induction false} FirstIndexIs(names: seq<Str>, name: Str, p: nat)
    requires p < |names| && names[p] == name && forall i :: 0 <= i < p ==> names[i] != name
    ensures FirstIndex(names, name) == Some(p)
  {
    if p > 0 {
      assert forall i :: 0 <= i < p - 1 ==> names[1..][i] == names[i + 1];
      FirstIndexIs(names[1..], name, p - 1);
    }
  }

  lemma {:induction false} PhysicalSize(batch: Batch, n: nat)
    requires batch.Valid() && n <= |batch.columns|
    ensures |PhysicalNames(batch, n)| == PhysicalIndex(batch.columns, n)
  {
    if n > 0 { PhysicalSize(batch, n - 1); }
  }

  /** The names of a column sit at its physical index. */
  lemma {:induction false} PhysicalAt(batch: Batch, n: nat, f: nat)
    requires batch.Valid() && f < n <= |batch.columns|
    ensures var names, p, c := PhysicalNames(batch, n), PhysicalIndex(batch.columns, f), batch.columns[f];
            && p + Width(c) <= |names| && names[p] == batch.names[f]
            && (c.Strs? ==> names[p + 1] == batch.names[f] + KIM_SUFFIX)
            && p + Width(c) == PhysicalIndex(batch.columns, f + 1)
  {
    PhysicalSize(batch, n - 1);
    if f < n - 1 { PhysicalAt(batch, n - 1, f); }
  }

  /** Every physical name below PhysicalIndex(f) belongs to an earlier column. */
  lemma {:induction false} OwnerBelow(batch: Batch, n: nat, i: nat) returns (g: nat)
    requires batch.Valid() && n <= |batch.columns| && i < PhysicalIndex(batch.columns, n)
    ensures g < n
    ensures PhysicalIndex(batch.columns, g) <= i < PhysicalIndex(batch.columns, g) + Width(batch.columns[g])
  {
    if i < PhysicalIndex(batch.columns, n - 1) {
      g := OwnerBelow(batch, n - 1, i);
    } else {
      g := n - 1;
    }
  }

  lemma {:induction false} PhysicalMonotone(columns: seq<Column>, g: nat, f: nat)
    requires g <= f <= |columns|
    ensures PhysicalIndex(columns, g) <= PhysicalIndex(columns, f)
    ensures g < f ==> PhysicalIndex(columns, g) + Width(columns[g]) <= PhysicalIndex(columns, f)
  {
    if g < f { PhysicalMonotone(columns, g, f - 1); }
  }

  /** No earlier column has the name, nor a signature column of that name. */
  predicate Unshadowed(batch: Batch, f: nat, name: Str)
    requires batch.Valid() && f <= |batch.columns|
  {
    forall g :: 0 <= g < f ==> batch.names[g] != name && (batch.columns[g].Strs? ==> batch.names[g] + KIM_SUFFIX != name)
  }

  /** The names before column f are those of earlier columns. */
  lemma EarlierNames(batch: Batch, f: nat, name: Str)
    requires batch.Valid() && f < |batch.columns|
    ensures PhysicalIndex(batch.columns, f) < |PhysicalNames(batch, |batch.names|)|
    ensures Unshadowed(batch, f, name) <==> forall i :: 0 <= i < PhysicalIndex(batch.columns, f) ==> PhysicalNames(batch, |batch.names|)[i] != name
  {
    var n, names, p := |batch.names|, PhysicalNames(batch, |batch.names|), PhysicalIndex(batch.columns, f);
    hide PhysicalNames, PhysicalIndex;
    PhysicalAt(batch, n, f);
    if Unshadowed(batch, f, name) {
      forall i | 0 <= i < p ensures names[i] != name {
        var g := OwnerBelow(batch, f, i);
        PhysicalAt(batch, n, g);
      }
    } else {
      var g :| 0 <= g < f && (batch.names[g] == name || (batch.columns[g].Strs? && batch.names[g] + KIM_SUFFIX == name));
      PhysicalAt(batch, n, g);
      PhysicalMonotone(batch.columns, g, f);
      var q := PhysicalIndex(batch.columns, g);
      assert names[q] == name || names[q + 1] == name;
    }
  }

  /** A name lookup finds the column's own tile exactly when nothing shadows it. */
  lemma LookupData(batch: Batch, f: nat)
    requires batch.Valid() && f < |batch.columns|
    ensures FirstIndex(PhysicalNames(batch, |batch.names|), batch.names[f]) == Some(PhysicalIndex(batch.columns, f))
            <==> Unshadowed(batch, f, batch.names[f])
  {
    var names, p := PhysicalNames(batch, |batch.names|), PhysicalIndex(batch.columns, f);
    hide PhysicalNames, PhysicalIndex, FirstIndex, Unshadowed;
    PhysicalAt(batch, |batch.names|, f);
    EarlierNames(batch, f, batch.names[f]);
    if Unshadowed(batch, f, batch.names[f]) { FirstIndexIs(names, batch.names[f], p); }
  }

  /** Likewise for the signature tile and the suffixed name. */
  lemma LookupSignature(batch: Batch, f: nat)
    requires batch.Valid() && f < |batch.columns| && batch.columns[f].Strs?
    ensures FirstIndex(PhysicalNames(batch, |batch.names|), batch.names[f] + KIM_SUFFIX) == Some(PhysicalIndex(batch.columns, f) + 1)
            <==> Unshadowed(batch, f, batch.names[f] + KIM_SUFFIX)
  {
    var names, p, name := PhysicalNames(batch, |batch.names|), PhysicalIndex(batch.columns, f), batch.names[f] + KIM_SUFFIX;
    hide PhysicalNames, PhysicalIndex, FirstIndex, Unshadowed;
    PhysicalAt(batch, |batch.names|, f);
    EarlierNames(batch, f, name);
    assert |batch.names[f]| < |name|;
    if Unshadowed(batch, f, name) { FirstIndexIs(names, name, p + 1); }
  }

  /** The scan for the string column counts the ones before it. */
  predicate CountsRight(batch: Batch, f: nat)
    requires batch.Valid() && f < |batch.columns|
  {
    StringColumn(PhysicalNames(batch, |batch.names|), batch.names[f], 0, 0) == Some(StringIndex(batch.columns, f))
  }

  /** All lookups for column f find what they should. */
  predicate Reachable(batch: Batch, f: nat)
    requires batch.Valid() && f < |batch.columns|
  {
    && Unshadowed(batch, f, batch.names[f])
    && (batch.columns[f].Strs? ==> Unshadowed(batch, f, batch.names[f] + KIM_SUFFIX) && CountsRight(batch, f))
  }

  /** Without collisions every column is found. */
  lemma AllReachable(batch: Batch, f: nat)
    requires batch.Valid() && NoCollisions(batch.names) && f < |batch.columns|
    ensures Reachable(batch, f)
  {
    hide StringColumn, PhysicalNames;
    LookupStrings(batch, f);
    forall g | 0 <= g < f
      ensures batch.names[g] != batch.names[f] && batch.names[g] + KIM_SUFFIX != batch.names[f]
      ensures batch.names[g] != batch.names[f] + KIM_SUFFIX && batch.names[g] + KIM_SUFFIX != batch.names[f] + KIM_SUFFIX
    {
      assert batch.names[g] != batch.names[f];
      if batch.names[g] + KIM_SUFFIX == batch.names[f] + KIM_SUFFIX { SuffixInjective(batch.names[g], batch.names[f]); }
    }
  }

  /** No numeric column before column f is followed by one named like its signature. */
  predicate NoFalsePairs(batch: Batch, f: nat)
    requires batch.Valid() && f <= |batch.columns|
  {
    forall g :: 0 <= g < f && batch.columns[g].Ints? && g + 1 < |batch.columns| ==> batch.names[g + 1] != batch.names[g] + KIM_SUFFIX
  }

  lemma KimFollowsStrings(batch: Batch, g: nat)
    requires batch.Valid() && g < |batch.columns| && NoFalsePairs(batch, g + 1)
    ensures PhysicalIndex(batch.columns, g) < |PhysicalNames(batch, |batch.names|)|
    ensures FollowedByKim(PhysicalNames(batch, |batch.names|), PhysicalIndex(batch.columns, g)) == batch.columns[g].Strs?
  {
    var n, names, p := |batch.names|, PhysicalNames(batch, |batch.names|), PhysicalIndex(batch.columns, g);
    PhysicalAt(batch, n, g);
    assert PhysicalIndex(batch.columns, g) + Width(batch.columns[g]) == PhysicalIndex(batch.columns, g + 1);
    hide PhysicalNames, PhysicalIndex, NoFalsePairs, Batch.Valid;
    if batch.columns[g].Ints? { NextName(batch, g); }
  }

  lemma NextName(batch: Batch, g: nat)
    requires batch.Valid() && g < |batch.columns| && batch.columns[g].Ints? && NoFalsePairs(batch, g + 1)
    ensures var names, p := PhysicalNames(batch, |batch.names|), PhysicalIndex(batch.columns, g + 1);
            p < |names| ==> names[p] != batch.names[g] + KIM_SUFFIX
  {
    hide PhysicalNames;
    PhysicalSize(batch, |batch.names|);
    if g + 1 < |batch.columns| {
      hide PhysicalIndex;
      PhysicalAt(batch, |batch.names|, g + 1);
      assert batch.names[g + 1] != batch.names[g] + KIM_SUFFIX;
    }
  }

  lemma FewerPairs(batch: Batch, g: nat, f: nat)
    requires batch.Valid() && g <= f <= |batch.columns| && NoFalsePairs(batch, f)
    ensures NoFalsePairs(batch, g)
  {
    hide Batch.Valid;
  }

  lemma ScanEnds(batch: Batch, f: nat)
    requires batch.Valid() && f < |batch.columns|
    ensures StringColumn(PhysicalNames(batch, |batch.names|), batch.names[f], PhysicalIndex(batch.columns, f), StringIndex(batch.columns, f))
            == Some(StringIndex(batch.columns, f))
  {
    PhysicalAt(batch, |batch.names|, f);
    hide PhysicalNames, PhysicalIndex, StringIndex, FollowedByKim;
  }

  lemma ScanPasses(batch: Batch, f: nat, g: nat)
    requires batch.Valid() && g < f < |batch.columns| && NoFalsePairs(batch, g + 1) && batch.names[g] != batch.names[f]
    ensures StringColumn(PhysicalNames(batch, |batch.names|), batch.names[f], PhysicalIndex(batch.columns, g), StringIndex(batch.columns, g))
            == StringColumn(PhysicalNames(batch, |batch.names|), batch.names[f], PhysicalIndex(batch.columns, g + 1), StringIndex(batch.columns, g + 1))
  {
    PhysicalAt(batch, |batch.names|, g);
    KimFollowsStrings(batch, g);
    hide PhysicalNames, FollowedByKim, NoFalsePairs, Batch.Valid;
  }

  /** Scanning from column g on counts the string columns before column f. */
  lemma {:induction false} CountStrings(batch: Batch, f: nat, g: nat)
    requires batch.Valid() && g <= f < |batch.columns| && NoFalsePairs(batch, f)
    requires forall i :: 0 <= i < f ==> batch.names[i] != batch.names[f]
    ensures StringColumn(PhysicalNames(batch, |batch.names|), batch.names[f], PhysicalIndex(batch.columns, g), StringIndex(batch.columns, g))
            == Some(StringIndex(batch.columns, f))
    decreases f - g
  {
    if g == f {
      ScanEnds(batch, f);
    } else {
      FewerPairs(batch, g + 1, f);
      ScanPasses(batch, f, g);
      CountStrings(batch, f, g + 1);
      hide StringColumn, PhysicalNames, PhysicalIndex, StringIndex;
    }
  }

  /** The scan counts right when the name is new and there is no false pair before it. */
  lemma LookupStrings(batch: Batch, f: nat)
    requires batch.Valid() && f < |batch.columns| && NoFalsePairs(batch, f)
    requires forall i :: 0 <= i < f ==> batch.names[i] != batch.names[f]
    ensures StringColumn(PhysicalNames(batch, |batch.names|), batch.names[f], 0, 0) == Some(StringIndex(batch.columns, f))
  {
    CountStrings(batch, f, 0);
    assert PhysicalIndex(batch.columns, 0) == 0 && StringIndex(batch.columns, 0) == 0;
    hide StringColumn, PhysicalNames, NoFalsePairs;
  }

  // ----- the layout of an ingested batch

  lemma {:induction false} IndexCounts(columns: seq<Column>, f: nat)
    requires f <= |columns|
    ensures PhysicalIndex(columns, f) == f + StringIndex(columns, f)
  {
    if f > 0 { IndexCounts(columns, f - 1); }
  }

  lemma {:induction false} TypesSize(columns: seq<Column>, n: nat)
    requires n <= |columns|
    ensures |PhysicalTypes(columns, n)| == PhysicalIndex(columns, n)
  {
    if n > 0 { TypesSize(columns, n - 1); }
  }

  lemma {:induction false} TypesAt(columns: seq<Column>, n: nat, f: nat)
    requires f < n <= |columns|
    ensures var types, p := PhysicalTypes(columns, n), PhysicalIndex(columns, f);
            && p + Width(columns[f]) <= |types|
            && if columns[f].Strs? then types[p] == 13 && types[p + 1] == 8 else types[p] == 9
  {
    TypesSize(columns, n - 1);
    if f < n - 1 { TypesAt(columns, n - 1, f); }
  }

  /** A numeric column is one physical column of type 9; a string column is one of
      type 13, and behind it one of type 8 with "_kim" at the end of its name. A physical
      index counts the columns before it, string columns twice. */
  lemma IngestedLayout(batch: Batch, f: nat)
    requires batch.Valid() && f < |batch.columns|
    ensures var rg, p, c := Ingested(batch), f + StringIndex(batch.columns, f), batch.columns[f];
            && p + Width(c) <= |rg.columnNames| == |rg.columnTypes| && rg.columnNames[p] == batch.names[f]
            && (c.Ints? ==> Width(c) == 1 && rg.columnTypes[p] == 9)
            && (c.Strs? ==>
                  && Width(c) == 2 && rg.columnTypes[p] == 13 && rg.columnTypes[p + 1] == 8
                  && rg.columnNames[p + 1] == batch.names[f] + ['_' as int, 'k' as int, 'i' as int, 'm' as int])
  {
    hide *;
    var n := |batch.columns|;
    IngestedIs(batch);
    IndexCounts(batch.columns, f);
    PhysicalAt(batch, n, f);
    PhysicalSize(batch, n);
    TypesAt(batch.columns, n, f);
    TypesSize(batch.columns, n);
    WidthIs(batch.columns[f]);
  }

  lemma IngestedIs(batch: Batch)
    requires batch.Valid()
    ensures |batch.names| == |batch.columns|
    ensures Ingested(batch).columnNames == PhysicalNames(batch, |batch.columns|)
    ensures Ingested(batch).columnTypes == PhysicalTypes(batch.columns, |batch.columns|)
  {
    hide PhysicalNames, PhysicalTypes, BlocksOf;
  }

  lemma WidthIs(c: Column)
    ensures Width(c) == if c.Strs? then 2 else 1
    ensures KIM_SUFFIX == ['_' as int, 'k' as int, 'i' as int, 'm' as int]
  {
  }
}
