/** The grid generator: cuts a list of objects into columns and the columns into rows. */
module GridGenerator {
  import opened Arithmetic
  import opened Wrappers
  import opened Text

  datatype Column<T> = Column(id: string, style: string, items: seq<T>)
  datatype Row<T> = Row(id: string, style: string, columns: seq<Column<T>>)

  // ------------------------------------------------------------------ generators

  /** Where a generator that yields n elements over and over stands after k yields. */
  function Position(n: nat, k: nat): (r: nat)
    requires n > 0
    ensures r < n
  {
    if k == 0 then 0 else if Position(n, k - 1) + 1 == n then 0 else Position(n, k - 1) + 1
  }

  /** The element yielded after k others. */
  function Yield<T>(items: seq<T>, k: nat): T
    requires items != []
  {
    items[Position(|items|, k)]
  }

  lemma {:induction false} YieldIsCyclic<T>(items: seq<T>, k: nat)
    requires items != []
    ensures Yield(items, k) == items[k % |items|]
  {
    if k > 0 {
      YieldIsCyclic(items, k - 1);
      PositionIsRemainder(|items|, k);
    }
  }

  lemma PositionIsRemainder(n: nat, k: nat)
    requires n > 0
    ensures Position(n, k) == k % n
  {
    for i := 0 to k
      invariant Position(n, i) == i % n
    {
      NextRemainder(i, n);
    }
  }

  /** One step of a generator: it yields, moves on, and starts over at the end. */
  method Next<T>(items: seq<T>, position: nat, ghost k: nat) returns (value: T, position': nat)
    requires items != [] && position == Position(|items|, k)
    ensures value == Yield(items, k) && position' == Position(|items|, k + 1)
  {
    value := items[position];
    position' := position + 1;
    if position' == |items| {
      position' := 0;
    }
  }

  // ------------------------------------------------------------------ boundaries

  /** Where the k-th group ends if groups take their sizes from the list, over and over. */
  function Boundary(sizes: seq<int>, k: nat): int
    requires sizes != []
  {
    if k == 0 then 0 else Boundary(sizes, k - 1) + Yield(sizes, k - 1)
  }

  /** How many groups are closed after n elements: one more whenever the next boundary is met. */
  function Closed(sizes: seq<int>, n: nat): nat
    requires sizes != []
  {
    if n == 0 then 0
    else
      var before := Closed(sizes, n - 1);
      if Boundary(sizes, before + 1) == n then before + 1 else before
  }

  /** Closed groups lie one behind the other within the elements seen. */
  lemma {:induction false} ClosedGroups(sizes: seq<int>, n: nat, k: nat)
    requires sizes != [] && k <= Closed(sizes, n)
    ensures 0 <= Boundary(sizes, k) <= n
    ensures k < Closed(sizes, n) ==> Boundary(sizes, k) < Boundary(sizes, k + 1) <= n
    decreases n
  {
    if n > 0 {
      var before := Closed(sizes, n - 1);
      if k <= before { ClosedGroups(sizes, n - 1, k); }
      if k == before { ClosedGroups(sizes, n - 1, before); }
    }
  }

  lemma {:induction false} ClosedGrows(sizes: seq<int>, m: nat, n: nat)
    requires sizes != [] && m <= n
    ensures Closed(sizes, m) <= Closed(sizes, n)
    decreases n
  {
    if m < n { ClosedGrows(sizes, m, n - 1); }
  }

  predicate Positive(sizes: seq<int>) { sizes != [] && forall i :: 0 <= i < |sizes| ==> sizes[i] > 0 }

  /** With positive sizes the last closed group ends at the last boundary met. */
  lemma {:induction false} LastBoundary(sizes: seq<int>, n: nat)
    requires Positive(sizes)
    ensures Boundary(sizes, Closed(sizes, n)) <= n < Boundary(sizes, Closed(sizes, n) + 1)
  {
    if n > 0 { LastBoundary(sizes, n - 1); }
  }

  lemma {:induction false} BoundaryGrows(sizes: seq<int>, j: nat, k: nat)
    requires Positive(sizes) && j < k
    ensures Boundary(sizes, j) < Boundary(sizes, k)
    decreases k
  {
    if j < k - 1 { BoundaryGrows(sizes, j, k - 1); }
  }

  /** A place is a boundary exactly when the last group closed there ends there. */
  lemma BoundaryMet(sizes: seq<int>, n: nat)
    requires Positive(sizes)
    ensures (exists k: nat :: Boundary(sizes, k) == n) <==> Boundary(sizes, Closed(sizes, n)) == n
  {
    LastBoundary(sizes, n);
    var c := Closed(sizes, n);
    forall k: nat | Boundary(sizes, k) == n ensures k == c {
      if k < c {
        BoundaryGrows(sizes, k, c);
      } else if k > c + 1 {
        BoundaryGrows(sizes, c + 1, k);
      }
    }
  }

  // ------------------------------------------------------------------- the grid

  datatype Layout = Layout(rowStyles: seq<string>, colStyles: seq<string>,
                           rowAfterElements: seq<int>, colAfterElements: seq<int>)
  {
    predicate Valid() { rowStyles != [] && colStyles != [] && rowAfterElements != [] && colAfterElements != [] }
  }

  /** The elements between two boundaries. */
  function ColumnItems<T>(source: seq<T>, l: Layout, k: nat): seq<T>
    requires l.Valid()
  {
    var first, last := Boundary(l.colAfterElements, k), Boundary(l.colAfterElements, k + 1);
    if 0 <= first <= last <= |source| then source[first..last] else []
  }

  /** Column k of the source. */
  function ColumnOf<T>(source: seq<T>, l: Layout, k: nat): Column<T>
    requires l.Valid()
  {
    Column("c" + Itoa(Boundary(l.colAfterElements, k + 1)), Yield(l.colStyles, k), ColumnItems(source, l, k))
  }

  function Columns<T>(source: seq<T>, l: Layout, first: nat, last: nat): (r: seq<Column<T>>)
    requires l.Valid()
    ensures |r| == if first <= last then last - first else 0
  {
    if first >= last then [] else Columns(source, l, first, last - 1) + [ColumnOf(source, l, last - 1)]
  }

  /** The columns closed when k rows are closed. */
  function ColumnsBefore(l: Layout, k: nat): nat
    requires l.Valid()
  {
    var end := Boundary(l.rowAfterElements, k);
    if end < 0 then 0 else Closed(l.colAfterElements, end)
  }

  /** Later rows begin where more columns are closed, and all of them within the source. */
  lemma ColumnsBeforeGrow(l: Layout, n: nat, j: nat)
    requires l.Valid() && j <= Closed(l.rowAfterElements, n)
    ensures ColumnsBefore(l, j) <= Closed(l.colAfterElements, n)
    ensures j < Closed(l.rowAfterElements, n) ==> ColumnsBefore(l, j) <= ColumnsBefore(l, j + 1)
  {
    ClosedGroups(l.rowAfterElements, n, j);
    ClosedGrows(l.colAfterElements, Boundary(l.rowAfterElements, j), n);
    if j < Closed(l.rowAfterElements, n) {
      ClosedGrows(l.colAfterElements, Boundary(l.rowAfterElements, j), Boundary(l.rowAfterElements, j + 1));
    }
  }

  /** A row that closes at element n closes over all columns closed so far. */
  lemma RowClosing(l: Layout, n: nat, rowCount: nat)
    requires l.Valid() && Boundary(l.rowAfterElements, rowCount + 1) == n
    ensures ColumnsBefore(l, rowCount + 1) == Closed(l.colAfterElements, n)
  {
  }

  /** Row j holds the columns closed since row j - 1. */
  function RowOf<T>(source: seq<T>, l: Layout, j: nat): Row<T>
    requires l.Valid()
  {
    Row("r" + Itoa(Boundary(l.rowAfterElements, j + 1)), Yield(l.rowStyles, j),
        Columns(source, l, ColumnsBefore(l, j), ColumnsBefore(l, j + 1)))
  }

  function Rows<T>(source: seq<T>, l: Layout, count: nat): seq<Row<T>>
    requires l.Valid()
  {
    if count == 0 then [] else Rows(source, l, count - 1) + [RowOf(source, l, count - 1)]
  }

  /** What the loop knows about columns after n elements: the closed ones, the pending elements, and the generators. */
  ghost predicate ColumnState<T>(source: seq<T>, l: Layout, n: nat, cols: nat, pending: seq<T>, next: int,
                                 indexGen: nat, styleGen: nat)
    requires l.Valid() && n <= |source|
  {
    && cols == Closed(l.colAfterElements, n)
    && 0 <= Boundary(l.colAfterElements, cols) <= n && pending == source[Boundary(l.colAfterElements, cols)..n]
    && next == Boundary(l.colAfterElements, cols + 1)
    && indexGen == Position(|l.colAfterElements|, cols + 1) && styleGen == Position(|l.colStyles|, cols)
  }

  ghost predicate RowState(l: Layout, n: nat, rowCount: nat, next: int, indexGen: nat, styleGen: nat)
    requires l.Valid()
  {
    && rowCount == Closed(l.rowAfterElements, n) && next == Boundary(l.rowAfterElements, rowCount + 1)
    && indexGen == Position(|l.rowAfterElements|, rowCount + 1) && styleGen == Position(|l.rowStyles|, rowCount)
  }

  /** One more element: it is appended to the pending ones, and closes a column exactly at the next boundary. */
  lemma ColumnStep<T>(source: seq<T>, l: Layout, n: nat, cols: nat, pending: seq<T>, next: int,
                      indexGen: nat, styleGen: nat)
    requires l.Valid() && n < |source| && ColumnState(source, l, n, cols, pending, next, indexGen, styleGen)
    ensures 0 <= Boundary(l.colAfterElements, cols) <= n + 1
    ensures pending + [source[n]] == source[Boundary(l.colAfterElements, cols)..n + 1]
    ensures next != n + 1 ==> ColumnState(source, l, n + 1, cols, pending + [source[n]], next, indexGen, styleGen)
    ensures next == n + 1 ==> ColumnState(source, l, n + 1, cols + 1, [], Boundary(l.colAfterElements, cols + 2),
              Position(|l.colAfterElements|, cols + 2), Position(|l.colStyles|, cols + 1))
  {
  }

  lemma RowStep(l: Layout, n: nat, rowCount: nat, next: int, indexGen: nat, styleGen: nat)
    requires l.Valid() && RowState(l, n, rowCount, next, indexGen, styleGen)
    ensures next != n + 1 ==> RowState(l, n + 1, rowCount, next, indexGen, styleGen)
    ensures next == n + 1 ==> RowState(l, n + 1, rowCount + 1, Boundary(l.rowAfterElements, rowCount + 2),
              Position(|l.rowAfterElements|, rowCount + 2), Position(|l.rowStyles|, rowCount + 1))
  {
  }

  /** What earlier calls left on the generator. */
  datatype Earlier<T> = Earlier(columns: seq<Column<T>>, rows: seq<Row<T>>)

  /** Columns that an earlier call left open go into the first row. */
  function WithLeftover<T>(open: seq<Column<T>>, rows: seq<Row<T>>): (r: seq<Row<T>>)
    ensures |r| == |rows|
  {
    if rows == [] then [] else [rows[0].(columns := open + rows[0].columns)] + rows[1..]
  }

  /** Columns that an earlier call left open stand in front of the first row's own. */
  lemma LeftoverMeans<T>(open: seq<Column<T>>, rows: seq<Row<T>>, j: nat)
    requires j < |rows|
    ensures WithLeftover(open, rows)[j]
         == Row(rows[j].id, rows[j].style, if j == 0 then open + rows[0].columns else rows[j].columns)
  {
  }

  function Leftover<T>(open: seq<Column<T>>, rowCount: nat): seq<Column<T>> { if rowCount == 0 then open else [] }

  lemma RowAppends<T>(open: seq<Column<T>>, rows: seq<Row<T>>, row: Row<T>)
    ensures WithLeftover(open, rows) + [row.(columns := Leftover(open, |rows|) + row.columns)]
         == WithLeftover(open, rows + [row])
  {
    if rows != [] {
      assert (rows + [row])[1..] == rows[1..] + [row];
      assert row.(columns := [] + row.columns) == row;
    }
  }

  lemma NothingLeftOver<T>(rows: seq<Row<T>>)
    ensures [] + WithLeftover([], rows) == rows
  {
    if rows != [] {
      assert rows[0].(columns := [] + rows[0].columns) == rows[0];
    }
  }

  lemma RowsCount<T>(source: seq<T>, l: Layout, count: nat)
    requires l.Valid()
    ensures |Rows(source, l, count)| == count
  {
  }

  /** One more row, closed at this element, encloses what is left over and the columns closed since the last one. */
  lemma RowEncloses<T>(source: seq<T>, l: Layout, index: nat, style: string, e: Earlier<T>, rowCount: nat)
    requires l.Valid() && index == Boundary(l.rowAfterElements, rowCount + 1) && style == Yield(l.rowStyles, rowCount)
    ensures var columns := Columns(source, l, ColumnsBefore(l, rowCount), Closed(l.colAfterElements, index));
            e.rows + WithLeftover(e.columns, Rows(source, l, rowCount))
            + [Row("r" + Itoa(index), style, Leftover(e.columns, rowCount) + columns)]
            == e.rows + WithLeftover(e.columns, Rows(source, l, rowCount + 1))
  {
    RowClosing(l, index, rowCount);
    RowsCount(source, l, rowCount);
    var rows, row := Rows(source, l, rowCount), RowOf(source, l, rowCount);
    RowAppends(e.columns, rows, row);
    assert Rows(source, l, rowCount + 1) == rows + [row];
  }

  class Generator<T> {
    const sourceObjects: seq<T>
    var genColObjects: seq<Column<T>>
    var genRowObjects: seq<Row<T>>
    var layout: Layout

    constructor (sourceObjects: seq<T>)
      ensures this.sourceObjects == sourceObjects && genColObjects == [] && genRowObjects == []
    {
      this.sourceObjects := sourceObjects;
      genColObjects := [];
      genRowObjects := [];
      layout := Layout([], [], [], []);
    }

    /** Columns hold one element unless told otherwise. */
    method Init(rowStyles: seq<string>, colStyles: seq<string>,
                rowAfterElements: seq<int>, colAfterElements: Option<seq<int>>)
      modifies this`layout
      ensures layout == Layout(rowStyles, colStyles, rowAfterElements,
                               if colAfterElements.None? then [1] else colAfterElements.value)
    {
      var columnSizes := if colAfterElements.None? then [1] else colAfterElements.value;
      layout := Layout(rowStyles, colStyles, rowAfterElements, columnSizes);
    }

    /** Encloses the pending elements in a column and moves on to the next boundary. */
    method CloseColumn(l: Layout, pending: seq<T>, index: nat, colIndexGen: nat, colStyleGen: nat,
                       ghost open: seq<Column<T>>, ghost first: nat, ghost cols: nat)
      returns (nextColIndex: int, colIndexGen': nat, colStyleGen': nat)
      requires layout == l && l.Valid() && first <= cols
      requires index == Boundary(l.colAfterElements, cols + 1)
      requires 0 <= Boundary(l.colAfterElements, cols) <= index <= |sourceObjects|
      requires pending == sourceObjects[Boundary(l.colAfterElements, cols)..index]
      requires colIndexGen == Position(|l.colAfterElements|, cols + 1) && colStyleGen == Position(|l.colStyles|, cols)
      requires genColObjects == open + Columns(sourceObjects, l, first, cols)
      modifies this`genColObjects
      ensures genColObjects == open + Columns(sourceObjects, l, first, cols + 1)
      ensures nextColIndex == Boundary(l.colAfterElements, cols + 2)
      ensures colIndexGen' == Position(|l.colAfterElements|, cols + 2)
      ensures colStyleGen' == Position(|l.colStyles|, cols + 1)
    {
      var style, step;
      style, colStyleGen' := Next(l.colStyles, colStyleGen, cols);
      genColObjects := genColObjects + [Column("c" + Itoa(index), style, pending)];
      step, colIndexGen' := Next(l.colAfterElements, colIndexGen, cols + 1);
      nextColIndex := step + index;
    }

    /** The rows closed, and the columns closed since, behind what earlier calls left. */
    ghost predicate RowsSoFar(l: Layout, rowCount: nat, cols: nat, e: Earlier<T>)
      requires l.Valid()
      reads this
    {
      && genColObjects == Leftover(e.columns, rowCount) + Columns(sourceObjects, l, ColumnsBefore(l, rowCount), cols)
      && genRowObjects == e.rows + WithLeftover(e.columns, Rows(sourceObjects, l, rowCount))
    }

    /** Encloses the columns closed since the last row in a row and moves on to the next boundary. */
    method CloseRow(l: Layout, index: nat, rowIndexGen: nat, rowStyleGen: nat, ghost e: Earlier<T>, ghost rowCount: nat)
      returns (nextRowIndex: int, rowIndexGen': nat, rowStyleGen': nat)
      requires layout == l && l.Valid() && index == Boundary(l.rowAfterElements, rowCount + 1)
      requires rowIndexGen == Position(|l.rowAfterElements|, rowCount + 1)
      requires rowStyleGen == Position(|l.rowStyles|, rowCount)
      requires RowsSoFar(l, rowCount, Closed(l.colAfterElements, index), e)
      modifies this`genColObjects, this`genRowObjects
      ensures RowsSoFar(l, rowCount + 1, Closed(l.colAfterElements, index), e)
      ensures nextRowIndex == Boundary(l.rowAfterElements, rowCount + 2)
      ensures rowIndexGen' == Position(|l.rowAfterElements|, rowCount + 2)
      ensures rowStyleGen' == Position(|l.rowStyles|, rowCount + 1)
    {
      RowClosing(l, index, rowCount);
      var style, step;
      style, rowStyleGen' := Next(l.rowStyles, rowStyleGen, rowCount);
      RowEncloses(sourceObjects, l, index, style, e, rowCount);
      genRowObjects := genRowObjects + [Row("r" + Itoa(index), style, genColObjects)];
      step, rowIndexGen' := Next(l.rowAfterElements, rowIndexGen, rowCount + 1);
      nextRowIndex := step + index;
      genColObjects := [];
    }

    /** The next element becomes pending, and closes a column when the boundary is met. */
    method AddElement(l: Layout, n: nat, pending: seq<T>, nextColIndex: int, colIndexGen: nat, colStyleGen: nat,
                       ghost open: seq<Column<T>>, ghost first: nat, ghost cols: nat)
      returns (pending': seq<T>, nextColIndex': int, colIndexGen': nat, colStyleGen': nat, ghost cols': nat)
      requires layout == l && l.Valid() && n < |sourceObjects| && first <= cols
      requires ColumnState(sourceObjects, l, n, cols, pending, nextColIndex, colIndexGen, colStyleGen)
      requires genColObjects == open + Columns(sourceObjects, l, first, cols)
      modifies this`genColObjects
      ensures ColumnState(sourceObjects, l, n + 1, cols', pending', nextColIndex', colIndexGen', colStyleGen')
      ensures first <= cols' && genColObjects == open + Columns(sourceObjects, l, first, cols')
    {
      ColumnStep(sourceObjects, l, n, cols, pending, nextColIndex, colIndexGen, colStyleGen);
      pending' := pending + [sourceObjects[n]];
      if n + 1 == nextColIndex {
        nextColIndex', colIndexGen', colStyleGen' :=
          CloseColumn(l, pending', n + 1, colIndexGen, colStyleGen, open, first, cols);
        pending', cols' := [], cols + 1;
      } else {
        nextColIndex', colIndexGen', colStyleGen', cols' := nextColIndex, colIndexGen, colStyleGen, cols;
      }
    }

    /** After the element a row closes when its boundary is met. */
    method EndElement(l: Layout, n: nat, nextRowIndex: int, rowIndexGen: nat, rowStyleGen: nat,
                    ghost e: Earlier<T>, ghost rowCount: nat)
      returns (nextRowIndex': int, rowIndexGen': nat, rowStyleGen': nat, ghost rowCount': nat)
      requires layout == l && l.Valid() && RowState(l, n, rowCount, nextRowIndex, rowIndexGen, rowStyleGen)
      requires RowsSoFar(l, rowCount, Closed(l.colAfterElements, n + 1), e)
      modifies this`genColObjects, this`genRowObjects
      ensures RowState(l, n + 1, rowCount', nextRowIndex', rowIndexGen', rowStyleGen')
      ensures RowsSoFar(l, rowCount', Closed(l.colAfterElements, n + 1), e)
    {
      RowStep(l, n, rowCount, nextRowIndex, rowIndexGen, rowStyleGen);
      if n + 1 == nextRowIndex {
        RowClosing(l, n + 1, rowCount);
        nextRowIndex', rowIndexGen', rowStyleGen' := CloseRow(l, n + 1, rowIndexGen, rowStyleGen, e, rowCount);
        rowCount' := rowCount + 1;
      } else {
        nextRowIndex', rowIndexGen', rowStyleGen', rowCount' := nextRowIndex, rowIndexGen, rowStyleGen, rowCount;
      }
    }

    /** Everything known after n elements. */
    ghost predicate Progress(l: Layout, n: nat, pending: seq<T>, nextColIndex: int, colIndexGen: nat, colStyleGen: nat,
                             nextRowIndex: int, rowIndexGen: nat, rowStyleGen: nat, e: Earlier<T>)
      requires l.Valid() && n <= |sourceObjects|
      reads this
    {
      var cols, rowCount := Closed(l.colAfterElements, n), Closed(l.rowAfterElements, n);
      && layout == l
      && ColumnState(sourceObjects, l, n, cols, pending, nextColIndex, colIndexGen, colStyleGen)
      && RowState(l, n, rowCount, nextRowIndex, rowIndexGen, rowStyleGen)
      && RowsSoFar(l, rowCount, cols, e)
    }

    method ProcessElement(l: Layout, n: nat, pending: seq<T>, nextColIndex: int, colIndexGen: nat, colStyleGen: nat,
                          nextRowIndex: int, rowIndexGen: nat, rowStyleGen: nat, ghost e: Earlier<T>)
      returns (pending': seq<T>, nextColIndex': int, colIndexGen': nat, colStyleGen': nat,
               nextRowIndex': int, rowIndexGen': nat, rowStyleGen': nat)
      requires l.Valid() && n < |sourceObjects|
      requires Progress(l, n, pending, nextColIndex, colIndexGen, colStyleGen,
                        nextRowIndex, rowIndexGen, rowStyleGen, e)
      modifies this`genColObjects, this`genRowObjects
      ensures Progress(l, n + 1, pending', nextColIndex', colIndexGen', colStyleGen',
                       nextRowIndex', rowIndexGen', rowStyleGen', e)
    {
      ghost var cols, rowCount := Closed(l.colAfterElements, n), Closed(l.rowAfterElements, n);
      ColumnsBeforeGrow(l, n, rowCount);
      pending', nextColIndex', colIndexGen', colStyleGen', cols :=
        AddElement(l, n, pending, nextColIndex, colIndexGen, colStyleGen,
                   Leftover(e.columns, rowCount), ColumnsBefore(l, rowCount), cols);
      nextRowIndex', rowIndexGen', rowStyleGen', rowCount :=
        EndElement(l, n, nextRowIndex, rowIndexGen, rowStyleGen, e, rowCount);
    }

    /** Cuts the source into columns and rows, which join those of earlier calls; with empty lists it would
        not return. */
    method Generate() returns (rows: seq<Row<T>>)
      requires layout.Valid()
      modifies this`genColObjects, this`genRowObjects
      ensures rows == genRowObjects
      ensures genRowObjects == old(genRowObjects) + WithLeftover(old(genColObjects),
                Rows(sourceObjects, layout, Closed(layout.rowAfterElements, |sourceObjects|)))
      ensures old(genRowObjects) == [] && old(genColObjects) == [] ==>
        rows == Rows(sourceObjects, layout, Closed(layout.rowAfterElements, |sourceObjects|))
    {
      var l := layout;
      ghost var e := Earlier(genColObjects, genRowObjects);
      var processColObjects: seq<T> := [];
      var colIndexGen, rowIndexGen, colStyleGen, rowStyleGen := 0, 0, 0, 0;
      var nextColIndex, nextRowIndex;
      nextColIndex, colIndexGen := Next(l.colAfterElements, colIndexGen, 0);
      nextRowIndex, rowIndexGen := Next(l.rowAfterElements, rowIndexGen, 0);
      for i := 0 to |sourceObjects|
        invariant Progress(l, i, processColObjects, nextColIndex, colIndexGen, colStyleGen,
                           nextRowIndex, rowIndexGen, rowStyleGen, e)
      {
        processColObjects, nextColIndex, colIndexGen, colStyleGen, nextRowIndex, rowIndexGen, rowStyleGen :=
          ProcessElement(l, i, processColObjects, nextColIndex, colIndexGen, colStyleGen,
                         nextRowIndex, rowIndexGen, rowStyleGen, e);
      }
      NothingLeftOver(Rows(sourceObjects, l, Closed(l.rowAfterElements, |sourceObjects|)));
      rows := genRowObjects;
    }
  }

  // ---------------------------------------------------------------- the results

  function ItemsOf<T>(columns: seq<Column<T>>): seq<T> {
    if columns == [] then [] else ItemsOf(columns[..|columns| - 1]) + columns[|columns| - 1].items
  }

  function Flatten<T>(rows: seq<Row<T>>): seq<T> {
    if rows == [] then [] else Flatten(rows[..|rows| - 1]) + ItemsOf(rows[|rows| - 1].columns)
  }

  /** Every closed column holds exactly as many elements as its size says, consecutive in the source. */
  lemma ColumnHoldsItsSize<T>(source: seq<T>, l: Layout, k: nat)
    requires l.Valid() && k < Closed(l.colAfterElements, |source|)
    ensures |ColumnOf(source, l, k).items| == l.colAfterElements[k % |l.colAfterElements|]
    ensures 0 <= Boundary(l.colAfterElements, k) <= Boundary(l.colAfterElements, k + 1) <= |source|
    ensures ColumnOf(source, l, k).items == source[Boundary(l.colAfterElements, k)..Boundary(l.colAfterElements, k + 1)]
  {
    ClosedGroups(l.colAfterElements, |source|, k);
    YieldIsCyclic(l.colAfterElements, k);
  }

  /** Boundaries add up the sizes, over and over. */
  lemma BoundaryAdds(sizes: seq<int>, k: nat)
    requires sizes != []
    ensures Boundary(sizes, 0) == 0 && Boundary(sizes, k + 1) == Boundary(sizes, k) + sizes[k % |sizes|]
  {
    YieldIsCyclic(sizes, k);
  }

  /** With positive sizes a group is closed exactly when its end has been met. */
  lemma ClosedMeans(sizes: seq<int>, n: nat, k: nat)
    requires Positive(sizes)
    ensures k < Closed(sizes, n) <==> Boundary(sizes, k + 1) <= n
  {
    LastBoundary(sizes, n);
    var c := Closed(sizes, n);
    if k + 1 < c {
      BoundaryGrows(sizes, k + 1, c);
    } else if k > c {
      BoundaryGrows(sizes, c + 1, k + 1);
    }
  }

  /** A sequence that is empty at first and grows by g(m) at m holds g(j) at place j - first. */
  lemma {:induction false} GrownAt<T>(f: nat -> seq<T>, g: nat -> T, first: nat, n: nat, j: nat)
    requires f(first) == [] && forall m: nat {:trigger g(m)} :: first <= m ==> f(m + 1) == f(m) + [g(m)]
    requires first <= j <= n
    ensures |f(n)| == n - first && |f(n + 1)| == n + 1 - first && f(n + 1)[j - first] == g(j)
    decreases n
  {
    assert f(n + 1) == f(n) + [g(n)];
    if n > first {
      var m: nat := n - 1;
      GrownAt(f, g, first, m, if j < n then j else m);
      assert m + 1 == n;
    }
  }

  /** Column k among the columns from first up to n. */
  lemma ColumnsAt<T>(source: seq<T>, l: Layout, first: nat, n: nat, k: nat)
    requires l.Valid() && first <= k <= n
    ensures |Columns(source, l, first, n + 1)| == n + 1 - first
    ensures Columns(source, l, first, n + 1)[k - first] == ColumnOf(source, l, k)
  {
    var f, g := (m: nat) => Columns(source, l, first, m), (m: nat) => ColumnOf(source, l, m);
    forall m: nat | first <= m ensures f(m + 1) == f(m) + [g(m)] {
      OneColumnMore(source, l, first, m);
    }
    NoColumns(source, l, first);
    GrownAt(f, g, first, n, k);
  }

  lemma NoColumns<T>(source: seq<T>, l: Layout, first: nat)
    requires l.Valid()
    ensures Columns(source, l, first, first) == []
  {
  }

  lemma OneColumnMore<T>(source: seq<T>, l: Layout, first: nat, n: nat)
    requires l.Valid() && first <= n
    ensures Columns(source, l, first, n + 1) == Columns(source, l, first, n) + [ColumnOf(source, l, n)]
  {
  }

  lemma RowsAt<T>(source: seq<T>, l: Layout, n: nat, j: nat)
    requires l.Valid() && j <= n
    ensures |Rows(source, l, n + 1)| == n + 1 && Rows(source, l, n + 1)[j] == RowOf(source, l, j)
  {
    var f, g := (m: nat) => Rows(source, l, m), (m: nat) => RowOf(source, l, m);
    forall m: nat ensures f(m + 1) == f(m) + [g(m)] {
      OneRowMore(source, l, m);
    }
    GrownAt(f, g, 0, n, j);
  }

  lemma OneRowMore<T>(source: seq<T>, l: Layout, n: nat)
    requires l.Valid()
    ensures Rows(source, l, n + 1) == Rows(source, l, n) + [RowOf(source, l, n)]
  {
  }

  /** A closed column: named by the place it ends at, in the style due, with the elements since the last one. */
  lemma ColumnHolds<T>(source: seq<T>, l: Layout, k: nat)
    requires l.Valid() && k < Closed(l.colAfterElements, |source|)
    ensures var a, b := Boundary(l.colAfterElements, k), Boundary(l.colAfterElements, k + 1);
            && 0 <= a < b <= |source|
            && ColumnOf(source, l, k) == Column("c" + Itoa(b), l.colStyles[k % |l.colStyles|], source[a..b])
  {
    ClosedGroups(l.colAfterElements, |source|, k);
    YieldIsCyclic(l.colStyles, k);
  }

  /** Row j: named by the place it ends at, in the style due, with the columns closed since the last row. */
  lemma RowHolds<T>(source: seq<T>, l: Layout, j: nat)
    requires l.Valid() && j < Closed(l.rowAfterElements, |source|)
    ensures 0 <= Boundary(l.rowAfterElements, j) < Boundary(l.rowAfterElements, j + 1) <= |source|
    ensures ColumnsBefore(l, j) <= ColumnsBefore(l, j + 1) <= Closed(l.colAfterElements, |source|)
    ensures var row, first := RowOf(source, l, j), ColumnsBefore(l, j);
      && row.id == "r" + Itoa(Boundary(l.rowAfterElements, j + 1))
      && row.style == l.rowStyles[j % |l.rowStyles|]
      && row.columns == Columns(source, l, first, ColumnsBefore(l, j + 1))
  {
    ClosedGroups(l.rowAfterElements, |source|, j);
    YieldIsCyclic(l.rowStyles, j);
    ColumnsBeforeGrow(l, |source|, j);
    ColumnsBeforeGrow(l, |source|, j + 1);
  }

  /** With positive column sizes these are the columns that end behind the last row's end and not behind its own. */
  lemma ColumnsOfRow<T>(source: seq<T>, l: Layout, j: nat, k: nat)
    requires l.Valid() && Positive(l.colAfterElements) && j < Closed(l.rowAfterElements, |source|)
    ensures ColumnsBefore(l, j) <= k < ColumnsBefore(l, j + 1) <==>
      Boundary(l.rowAfterElements, j) < Boundary(l.colAfterElements, k + 1) <= Boundary(l.rowAfterElements, j + 1)
  {
    ClosedGroups(l.rowAfterElements, |source|, j);
    ClosedMeans(l.colAfterElements, Boundary(l.rowAfterElements, j), k);
    ClosedMeans(l.colAfterElements, Boundary(l.rowAfterElements, j + 1), k);
  }

  lemma ItemsOfPush<T>(columns: seq<Column<T>>, c: Column<T>)
    ensures ItemsOf(columns + [c]) == ItemsOf(columns) + c.items
  {
    assert (columns + [c])[..|columns + [c]| - 1] == columns;
  }

  lemma FlattenPush<T>(rows: seq<Row<T>>, r: Row<T>)
    ensures Flatten(rows + [r]) == Flatten(rows) + ItemsOf(r.columns)
  {
    assert (rows + [r])[..|rows + [r]| - 1] == rows;
  }

  lemma Adjacent<T>(s: seq<T>, a: int, b: int, c: int)
    requires 0 <= a <= b <= c <= |s|
    ensures s[a..b] + s[b..c] == s[a..c]
  {
  }

  /** The elements of the columns from first up to last. */
  function ItemsFrom<T>(source: seq<T>, l: Layout, first: nat, last: nat): seq<T>
    requires l.Valid()
  {
    if first >= last then [] else ItemsFrom(source, l, first, last - 1) + ColumnItems(source, l, last - 1)
  }

  lemma ItemsOfNext<T>(source: seq<T>, l: Layout, first: nat, k: nat)
    requires l.Valid() && first <= k
    requires ItemsOf(Columns(source, l, first, k)) == ItemsFrom(source, l, first, k)
    ensures ItemsOf(Columns(source, l, first, k + 1)) == ItemsFrom(source, l, first, k + 1)
  {
    ItemsOfPush(Columns(source, l, first, k), ColumnOf(source, l, k));
  }

  lemma ItemsOfColumns<T>(source: seq<T>, l: Layout, first: nat, last: nat)
    requires l.Valid() && first <= last
    ensures ItemsOf(Columns(source, l, first, last)) == ItemsFrom(source, l, first, last)
  {
    for k := first to last
      invariant ItemsOf(Columns(source, l, first, k)) == ItemsFrom(source, l, first, k)
    {
      ItemsOfNext(source, l, first, k);
    }
  }

  /** The columns from first up to last hold the stretch of the source between their boundaries. */
  predicate HoldStretch<T(==)>(source: seq<T>, l: Layout, first: nat, last: nat)
    requires l.Valid()
  {
    var a, b := Boundary(l.colAfterElements, first), Boundary(l.colAfterElements, last);
    0 <= a <= b <= |source| && ItemsFrom(source, l, first, last) == source[a..b]
  }

  lemma StretchStep<T>(source: seq<T>, l: Layout, first: nat, k: nat)
    requires l.Valid() && first <= k < Closed(l.colAfterElements, |source|) && HoldStretch(source, l, first, k)
    ensures HoldStretch(source, l, first, k + 1)
  {
    ClosedGroups(l.colAfterElements, |source|, k);
    Adjacent(source, Boundary(l.colAfterElements, first),
             Boundary(l.colAfterElements, k), Boundary(l.colAfterElements, k + 1));
  }

  lemma StretchStart<T>(source: seq<T>, l: Layout, first: nat)
    requires l.Valid() && first <= Closed(l.colAfterElements, |source|)
    ensures HoldStretch(source, l, first, first)
  {
    ClosedGroups(l.colAfterElements, |source|, first);
  }

  lemma {:induction false} ColumnsHoldStretch<T>(source: seq<T>, l: Layout, first: nat, last: nat)
    requires l.Valid() && first <= last <= Closed(l.colAfterElements, |source|)
    ensures HoldStretch(source, l, first, last)
    decreases last, 1
  {
    if first == last {
      StretchStart(source, l, first);
    } else {
      var k: nat := last - 1;
      StretchBefore(source, l, first, k);
      assert k + 1 == last;
    }
  }

  lemma {:induction false} StretchBefore<T>(source: seq<T>, l: Layout, first: nat, k: nat)
    requires l.Valid() && first <= k < Closed(l.colAfterElements, |source|)
    ensures HoldStretch(source, l, first, k + 1)
    decreases k + 1, 0
  {
    ColumnsHoldStretch(source, l, first, k);
    StretchStep(source, l, first, k);
  }

  /** Closed columns that follow one another hold the elements between their boundaries, nothing twice. */
  lemma ColumnsAreSlice<T>(source: seq<T>, l: Layout, first: nat, last: nat)
    requires l.Valid() && first <= last <= Closed(l.colAfterElements, |source|)
    ensures 0 <= Boundary(l.colAfterElements, first) <= Boundary(l.colAfterElements, last) <= |source|
    ensures ItemsOf(Columns(source, l, first, last))
         == source[Boundary(l.colAfterElements, first)..Boundary(l.colAfterElements, last)]
  {
    ColumnsHoldStretch(source, l, first, last);
    ItemsOfColumns(source, l, first, last);
  }

  /** The rows hold a prefix of the source, up to the last column boundary at or before the last row boundary. */
  lemma {:induction false} RowsArePrefix<T>(source: seq<T>, l: Layout, count: nat)
    requires l.Valid() && count <= Closed(l.rowAfterElements, |source|)
    ensures 0 <= Boundary(l.colAfterElements, ColumnsBefore(l, count)) <= |source|
    ensures Flatten(Rows(source, l, count)) == source[..Boundary(l.colAfterElements, ColumnsBefore(l, count))]
  {
    ColumnsBeforeGrow(l, |source|, count);
    if count > 0 {
      var j: nat := count - 1;
      RowsArePrefix(source, l, j);
      ColumnsBeforeGrow(l, |source|, j);
      var before, after := ColumnsBefore(l, j), ColumnsBefore(l, count);
      ColumnsAreSlice(source, l, before, after);
      FlattenPush(Rows(source, l, j), RowOf(source, l, j));
      Adjacent(source, 0, Boundary(l.colAfterElements, before), Boundary(l.colAfterElements, after));
    }
  }

  /** With positive sizes nothing is lost exactly when the source ends at a column boundary that is a row boundary. */
  lemma NothingLost<T>(source: seq<T>, l: Layout)
    requires l.Valid() && Positive(l.rowAfterElements) && Positive(l.colAfterElements)
    ensures Flatten(Rows(source, l, Closed(l.rowAfterElements, |source|))) == source
       <==>
       (exists j: nat :: Boundary(l.rowAfterElements, j) == |source|)
       && (exists k: nat :: Boundary(l.colAfterElements, k) == |source|)
  {
    var n := |source|;
    var count := Closed(l.rowAfterElements, n);
    RowsArePrefix(source, l, count);
    EndsTogether(l, n);
    BoundaryMet(l.rowAfterElements, n);
    BoundaryMet(l.colAfterElements, n);
    assert source[..n] == source;
  }

  /** The last column boundary before the last row boundary is the end exactly when both last boundaries are. */
  lemma EndsTogether(l: Layout, n: nat)
    requires l.Valid() && Positive(l.rowAfterElements) && Positive(l.colAfterElements)
    ensures var end := Boundary(l.rowAfterElements, Closed(l.rowAfterElements, n));
            0 <= end <= n &&
            (Boundary(l.colAfterElements, Closed(l.colAfterElements, end)) == n <==>
              end == n && Boundary(l.colAfterElements, Closed(l.colAfterElements, n)) == n)
  {
    var count := Closed(l.rowAfterElements, n);
    LastBoundary(l.rowAfterElements, n);
    ClosedGroups(l.rowAfterElements, n, count);
    LastBoundary(l.colAfterElements, Boundary(l.rowAfterElements, count));
  }
}
