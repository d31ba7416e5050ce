/**
 * The step function of __intrinsic_interval_intersect, written the way the
 * source computes it: column names pushed in a loop, the tables collected and
 * their order sorted in place by size, the result seeded from the smallest
 * table and then replaced round by round by the overlaps with each further
 * table, and finally one row per entry.
 */
module IntervalIntersect {
  import opened Decimal
  import opened IntervalIntersectSpec

  /** Index of the first id column in a row (kIdxColOffset). */
  const IdxColOffset: nat := 2

  /** MultiIndexInterval::AddRow: ts, dur, then the id of each of the tableCount tables. */
  method AddRow(m: MultiIndexInterval, tableCount: nat) returns (row: seq<int>)
    requires tableCount <= |m.idxInTable|
    ensures row == Row(m, tableCount)
  {
    row := [m.start as int, m.end - m.start];
    for i := 0 to tableCount
      invariant |row| == i + IdxColOffset
      invariant row[0] == m.start && row[1] == m.end - m.start
      invariant forall j :: 0 <= j < i ==> row[j + IdxColOffset] == m.idxInTable[j]
    {
      row := row + [m.idxInTable[i] as int];
    }
  }

  /** The col_names vector: "ts", "dur", then "id_0" ... "id_{n-1}". */
  method BuildColumnNames(tablesCount: nat) returns (colNames: seq<string>)
    ensures colNames == ColumnNames(tablesCount)
  {
    colNames := ["ts", "dur"];
    for i := 0 to tablesCount
      invariant |colNames| == i + 2
      invariant colNames[0] == "ts" && colNames[1] == "dur"
      invariant forall j :: 0 <= j < i ==> colNames[j + 2] == "id_" + NatToString(j)
    {
      colNames := colNames + [IdColumnName(i)];
    }
  }

  /**
   * std::sort of tables_order by table size. The tie order of std::sort is
   * unspecified; this is one admissible outcome (an insertion sort), and the
   * postcondition says only what every outcome satisfies.
   */
  method SortBySize(order: array<nat>, sizes: seq<nat>)
    requires forall k :: 0 <= k < order.Length ==> order[k] < |sizes|
    modifies order
    ensures multiset(order[..]) == multiset(old(order[..]))
    ensures SortedBySize(order[..], sizes)
  {
    var i := 0;
    while i < order.Length
      invariant 0 <= i <= order.Length
      invariant forall k :: 0 <= k < order.Length ==> order[k] < |sizes|
      invariant forall a, b :: 0 <= a < b < i ==> sizes[order[a]] <= sizes[order[b]]
      invariant multiset(order[..]) == multiset(old(order[..]))
    {
      InsertBySize(order, sizes, i);
      i := i + 1;
    }
  }

  /**
   * Moves order[i] down into the size-sorted prefix order[..i]. Only the
   * prefix order[..i + 1] is rearranged; the rest of the array is unchanged.
   */
  method InsertBySize(order: array<nat>, sizes: seq<nat>, i: nat)
    requires i < order.Length
    requires forall k :: 0 <= k < order.Length ==> order[k] < |sizes|
    requires forall a, b :: 0 <= a < b < i ==> sizes[order[a]] <= sizes[order[b]]
    modifies order
    ensures forall k :: 0 <= k < order.Length ==> order[k] < |sizes|
    ensures forall a, b :: 0 <= a < b <= i ==> sizes[order[a]] <= sizes[order[b]]
    ensures multiset(order[..i + 1]) == multiset(old(order[..i + 1]))
    ensures forall k :: i < k < order.Length ==> order[k] == old(order[k])
    ensures multiset(order[..]) == multiset(old(order[..]))
  {
    var j := i;
    while j > 0 && sizes[order[j - 1]] > sizes[order[j]]
      invariant 0 <= j <= i
      invariant forall k :: 0 <= k < order.Length ==> order[k] < |sizes|
      invariant forall a, b :: 0 <= a < b <= i && b != j ==> sizes[order[a]] <= sizes[order[b]]
      invariant multiset(order[..i + 1]) == multiset(old(order[..i + 1]))
      invariant forall k :: i < k < order.Length ==> order[k] == old(order[k])
      decreases j
    {
      SwapDown(order, j, i);
      j := j - 1;
    }
    // The suffix is unchanged, so the prefix's multiset carries over to the whole array.
    assert order[i + 1..] == old(order[i + 1..]);
    assert order[..] == order[..i + 1] + order[i + 1..];
    assert old(order[..]) == old(order[..i + 1]) + old(order[i + 1..]);
  }

  /** Swaps order[j - 1] and order[j], inside the prefix order[..i + 1]. */
  method SwapDown(order: array<nat>, j: nat, i: nat)
    requires 0 < j <= i < order.Length
    modifies order
    ensures order[j - 1] == old(order[j]) && order[j] == old(order[j - 1])
    ensures forall k :: 0 <= k < order.Length && k != j - 1 && k != j ==> order[k] == old(order[k])
    ensures multiset(order[..i + 1]) == multiset(old(order[..i + 1]))
  {
    order[j - 1], order[j] := order[j], order[j - 1];
    assert order[..i + 1] == old(order[..i + 1])[j - 1 := old(order[j])][j := old(order[j - 1])];
  }

  /**
   * IntervalIntersect::Step. argv holds the tables followed by one further
   * argument; `find` is FindOverlaps on an interval tree built from a table.
   * The ghost `order` is the table order the size sort produced.
   */
  method Step(argv: seq<SqlValue>, find: Finder) returns (table: RuntimeTable, ghost order: seq<nat>)
    requires |argv| >= 3
    ensures TablesCount(argv) == |argv| - 1 >= 2
    ensures table.columnNames == ColumnNames(TablesCount(argv))
    ensures !AllPresent(argv) ==> table.rows == []
    ensures AllPresent(argv) ==>
      && IsSizeOrder(order, Sizes(Tables(argv)))
      && |order| == TablesCount(argv)
      && WellSized(Intersect(Tables(argv), order, find), TablesCount(argv))
      && table.rows == Rows(Intersect(Tables(argv), order, find), TablesCount(argv))
  {
    var tablesCount := |argv| - 1;
    var colNames := BuildColumnNames(tablesCount);

    // Collect the tables; a missing or empty one gives an empty table.
    var tableIntervals: seq<SortedIntervals> := [];
    var tablesOrder := new nat[tablesCount];
    for i := 0 to tablesCount
      invariant |tableIntervals| == i
      invariant forall k :: 0 <= k < i ==> Present(argv[k]) && tableIntervals[k] == argv[k].intervals
      invariant forall k :: 0 <= k < i ==> tablesOrder[k] == k
    {
      if !argv[i].IntervalsPointer? || argv[i].intervals == [] {
        return RuntimeTable(colNames, []), [];
      }
      tableIntervals := tableIntervals + [argv[i].intervals];
      tablesOrder[i] := i;
    }
    assert tableIntervals == Tables(argv);
    assert tablesOrder[..] == Iota(tablesCount);

    // Sort the table indices from the smallest table to the biggest.
    var sizes := Sizes(tableIntervals);
    SortBySize(tablesOrder, sizes);
    order := tablesOrder[..];
    assert IsSizeOrder(order, sizes);
    OrderIsPermutation(order, sizes);

    // Seed the result from the smallest table.
    var smallestTableIdx := tablesOrder[0];
    var res := SeedResult(tableIntervals[smallestTableIdx], smallestTableIdx, tablesCount);

    // One round per further table, until the result runs empty.
    res := RunRounds(res, tableIntervals, tablesOrder[..], find);

    // Push the result into the table, one row per entry.
    var rows := PushRows(res, tablesCount);
    table := RuntimeTable(colNames, rows);
  }

  /**
   * The loop over tables_order[1..]: each round replaces res by its overlaps
   * with the next table; the loop stops early once res is empty.
   */
  method RunRounds(seed: seq<MultiIndexInterval>, tableIntervals: seq<SortedIntervals>, tablesOrder: seq<nat>, find: Finder)
    returns (res: seq<MultiIndexInterval>)
    requires WellSized(seed, |tableIntervals|)
    requires forall k :: 0 <= k < |tablesOrder| ==> tablesOrder[k] < |tableIntervals|
    ensures seed == [] ==> res == []
    ensures res == Rounds(seed, tableIntervals, tablesOrder, 1, find)
  {
    res := seed;
    var i := 1;
    while i < |tablesOrder| && res != []
      invariant 1 <= i
      invariant WellSized(res, |tableIntervals|)
      invariant Rounds(res, tableIntervals, tablesOrder, i, find) == Rounds(seed, tableIntervals, tablesOrder, 1, find)
      decreases |tablesOrder| - i
    {
      var tableIdx := tablesOrder[i];
      RoundsStep(res, tableIntervals, tablesOrder, i, find);
      res := IntersectRound(res, tableIntervals[tableIdx], tableIdx, |tableIntervals|, find);
      i := i + 1;
    }
    assert Rounds(res, tableIntervals, tablesOrder, i, find) == res;
  }

  /** The loop that seeds res: one entry per interval of the smallest table. */
  method SeedResult(smallest: SortedIntervals, smallestTableIdx: nat, tablesCount: nat)
    returns (res: seq<MultiIndexInterval>)
    requires smallestTableIdx < tablesCount
    ensures |res| == |smallest|
    ensures forall k :: 0 <= k < |smallest| ==>
      && res[k].start == smallest[k].start && res[k].end == smallest[k].end
      && |res[k].idxInTable| == tablesCount
      && res[k].idxInTable[smallestTableIdx] == smallest[k].id
    ensures res == Seed(smallest, smallestTableIdx, tablesCount)
  {
    res := [];
    for k := 0 to |smallest|
      invariant res == Seed(smallest, smallestTableIdx, tablesCount)[..k]
    {
      var interval := smallest[k];
      res := res + [MultiIndexInterval(interval.start, interval.end, Zeros(tablesCount)[smallestTableIdx := interval.id])];
    }
  }

  /** The builder loop: AddRow for each entry, so the table has exactly |res| rows. */
  method PushRows(res: seq<MultiIndexInterval>, tablesCount: nat) returns (rows: seq<seq<int>>)
    requires WellSized(res, tablesCount)
    ensures |rows| == |res|
    ensures forall k :: 0 <= k < |res| ==> |rows[k]| == tablesCount + IdxColOffset
    ensures rows == Rows(res, tablesCount)
  {
    rows := [];
    for k := 0 to |res|
      invariant rows == Rows(res[..k], tablesCount)
    {
      assert res[k] in res;
      var row := AddRow(res[k], tablesCount);
      rows := rows + [row];
    }
    assert res[..|res|] == res;
  }

  /**
   * The body of one round of Step: for each entry of res, in order, the
   * entries for the overlaps FindOverlaps reports in `table`.
   */
  method IntersectRound(res: seq<MultiIndexInterval>, table: SortedIntervals, tableIdx: nat, tablesCount: nat, find: Finder)
    returns (overlapsWithThisTable: seq<MultiIndexInterval>)
    requires WellSized(res, tablesCount) && tableIdx < tablesCount
    ensures SlotsFit(res, tableIdx)
    ensures overlapsWithThisTable == Round(res, table, tableIdx, find)
    ensures WellSized(overlapsWithThisTable, tablesCount)
  {
    RoundWellSized(res, table, tableIdx, tablesCount, find);
    overlapsWithThisTable := [];
    for k := 0 to |res|
      invariant overlapsWithThisTable == Round(res[..k], table, tableIdx, find)
    {
      var r := res[k];
      assert r in res;
      var newIntervals := find(table, r.start, r.end);
      for j := 0 to |newIntervals|
        invariant overlapsWithThisTable == Round(res[..k], table, tableIdx, find) + ExtendAll(r, tableIdx, newIntervals[..j])
      {
        var overlap := newIntervals[j];
        overlapsWithThisTable := overlapsWithThisTable
          + [MultiIndexInterval(overlap.start, overlap.end, r.idxInTable[tableIdx := overlap.id])];
      }
      assert newIntervals[..|newIntervals|] == newIntervals;
      assert res[..k + 1][..k] == res[..k];
    }
    assert res[..|res|] == res;
  }
}
