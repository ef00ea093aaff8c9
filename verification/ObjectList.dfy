/** The list object: data records, and one row object per record that is built anew on every render. */
module ObjectList {
  import opened Wrappers

  /** A record by column; an absent column reads as undefined. */
  type Record = map<string, string>

  function At(r: Record, column: string): Option<string> { if column in r then Some(r[column]) else None }

  datatype Attributes = Attributes(
    columns: seq<string>, disableHeader: bool, rowsSelectable: bool,
    doubleCheckColumn: Option<string>, dataMaxRows: Option<nat>)

  // ---------------------------------------------------------------------- splicing

  /** splice(start, 1): a start behind the end removes nothing, a negative start counts from the end. */
  function Splice<T>(s: seq<T>, start: int): seq<T> {
    var from0 := if start >= 0 then start else if |s| + start >= 0 then |s| + start else 0;
    if from0 < |s| then s[..from0] + s[from0 + 1..] else s
  }

  /** Removes at the listed places, the last place first. */
  function RemoveBackwards<T>(s: seq<T>, places: seq<int>): seq<T>
    decreases |places|
  {
    if places == [] then s else RemoveBackwards(Splice(s, places[|places| - 1]), places[..|places| - 1])
  }

  /** The places of the selected ones among the first n. */
  function SelectedPlaces(selected: seq<bool>, n: nat): seq<int>
    requires n <= |selected|
  {
    if n == 0 then [] else SelectedPlaces(selected, n - 1) + if selected[n - 1] then [n - 1] else []
  }

  /** The elements that are not selected, in their order. */
  function Unselected<T>(s: seq<T>, selected: seq<bool>): seq<T>
    requires |s| <= |selected|
  {
    if s == [] then [] else Unselected(s[..|s| - 1], selected) + if selected[|s| - 1] then [] else [s[|s| - 1]]
  }

  /** One element goes: the one at start, counted from the end if start is negative, the first at the latest. */
  lemma SpliceMeans<T>(s: seq<T>, start: int, i: nat)
    requires i < |s|
    ensures var gone := if start >= 0 then start else if start >= -|s| then |s| + start else 0;
      && (start >= |s| ==> Splice(s, start) == s)
      && (start < |s| ==>
           |Splice(s, start)| == |s| - 1
           && (i < gone ==> Splice(s, start)[i] == s[i]) && (i > gone ==> Splice(s, start)[i - 1] == s[i]))
  {
  }

  /** The unselected places in front of i. */
  function Kept(selected: seq<bool>, i: nat): set<nat>
    requires i <= |selected|
  {
    set j: nat | j < i && !selected[j]
  }

  lemma KeptNext(selected: seq<bool>, i: nat)
    requires i < |selected|
    ensures |Kept(selected, i + 1)| == |Kept(selected, i)| + if selected[i] then 0 else 1
  {
    if selected[i] {
      assert Kept(selected, i + 1) == Kept(selected, i);
    } else {
      assert Kept(selected, i + 1) == Kept(selected, i) + {i};
    }
  }

  /** There are as many as are not selected, and each stands behind those in front of it. */
  lemma {:induction false} UnselectedAt<T>(s: seq<T>, selected: seq<bool>, i: nat)
    requires i <= |s| <= |selected|
    ensures |Unselected(s, selected)| == |Kept(selected, |s|)|
    ensures i < |s| && !selected[i] ==>
      |Kept(selected, i)| < |Unselected(s, selected)| && Unselected(s, selected)[|Kept(selected, i)|] == s[i]
  {
    if s == [] {
      assert Kept(selected, 0) == {};
    } else {
      var n: nat := |s| - 1;
      UnselectedAt(s[..n], selected, if i < n then i else n);
      KeptNext(selected, n);
    }
  }

  lemma RemoveLast<T>(s: seq<T>, before: seq<int>, k: nat)
    requires k < |s|
    ensures RemoveBackwards(s, before + [k]) == RemoveBackwards(s[..k] + s[k + 1..], before)
  {
    assert (before + [k])[..|before|] == before;
  }

  lemma RemoveStep<T>(s: seq<T>, selected: seq<bool>, k: nat)
    requires k < |s| && k < |selected|
    ensures RemoveBackwards(s, SelectedPlaces(selected, k + 1))
         == RemoveBackwards(if selected[k] then s[..k] + s[k + 1..] else s, SelectedPlaces(selected, k))
  {
    RemoveLast(s, SelectedPlaces(selected, k), k);
    assert SelectedPlaces(selected, k + 1) == SelectedPlaces(selected, k) + if selected[k] then [k] else [];
    assert SelectedPlaces(selected, k) + [] == SelectedPlaces(selected, k);
  }

  lemma UnselectedStep<T>(s: seq<T>, selected: seq<bool>, k: nat)
    requires k < |s| && k < |selected|
    ensures Unselected(s[..k + 1], selected) == Unselected(s[..k], selected) + if selected[k] then [] else [s[k]]
  {
    assert s[..k + 1][..k] == s[..k];
  }

  /** What is left once the places before n have been decided. */
  function Left<T>(s: seq<T>, selected: seq<bool>, n: nat): seq<T>
    requires n <= |s| && n <= |selected|
  {
    Unselected(s[..n], selected) + s[n..]
  }

  lemma KeepStep<T>(s: seq<T>, selected: seq<bool>, k: nat)
    requires k < |s| && k < |selected| && !selected[k]
    ensures Left(s, selected, k + 1) == Left(s, selected, k)
  {
    UnselectedStep(s, selected, k);
    var kept, x, tail := Unselected(s[..k], selected), s[k], s[k + 1..];
    assert s[k..] == [x] + tail;
    assert (kept + [x]) + tail == kept + ([x] + tail);
  }

  lemma DropStep<T>(s: seq<T>, selected: seq<bool>, k: nat)
    requires k < |s| && k < |selected| && selected[k]
    ensures Left(s, selected, k + 1) == Left(s[..k] + s[k + 1..], selected, k)
  {
    UnselectedStep(s, selected, k);
    var head, tail := s[..k], s[k + 1..];
    var kept := Unselected(head, selected);
    assert kept + [] == kept;
    assert (head + tail)[..k] == head && (head + tail)[k..] == tail;
  }

  /** Removing the selected places from the back leaves exactly what is not selected. */
  lemma RemovingSelected<T>(s: seq<T>, selected: seq<bool>, n: nat)
    requires n <= |s| && n <= |selected|
    ensures RemoveBackwards(s, SelectedPlaces(selected, n)) == Left(s, selected, n)
  {
    var rest := s;
    for k := n downto 0
      invariant k <= |rest|
      invariant RemoveBackwards(rest, SelectedPlaces(selected, k)) == RemoveBackwards(s, SelectedPlaces(selected, n))
      invariant Left(rest, selected, k) == Left(s, selected, n)
    {
      RemoveStep(rest, selected, k);
      if selected[k] {
        DropStep(rest, selected, k);
        rest := rest[..k] + rest[k + 1..];
      } else {
        KeepStep(rest, selected, k);
      }
    }
    assert rest[..0] == [] && rest[0..] == rest;
  }

  lemma SelectionRemoved<T>(s: seq<T>, selected: seq<bool>)
    requires |s| == |selected|
    ensures RemoveBackwards(s, SelectedPlaces(selected, |s|)) == Unselected(s, selected)
  {
    RemovingSelected(s, selected, |s|);
    assert s[..|s|] == s && s[|s|..] == [];
  }

  // ---------------------------------------------------------------------- uniqueness

  /** No two records agree on the column; two records without it agree. */
  predicate Unique(data: seq<Record>, column: string) {
    forall i, j :: 0 <= i < j < |data| ==> At(data[i], column) != At(data[j], column)
  }

  predicate IsNew(data: seq<Record>, column: string, value: Option<string>) {
    forall i :: 0 <= i < |data| ==> At(data[i], column) != value
  }

  /** What is stored of a form: only the columns the list knows. */
  function Stored(form: Record, columns: seq<string>): Record {
    map k | k in form && k in columns :: form[k]
  }

  /** A form that passes the check keeps the column unique if and only if the column is stored or no record lacks it. */
  lemma UniqueAfterAppend(data: seq<Record>, form: Record, columns: seq<string>, column: string)
    requires IsNew(data, column, At(form, column))
    ensures Unique(data + [Stored(form, columns)], column)
       <==> Unique(data, column) && (column in columns || IsNew(data, column, None))
  {
    var after, row := data + [Stored(form, columns)], Stored(form, columns);
    assert At(row, column) == if column in columns then At(form, column) else None;
    assert after[|data|] == row && forall i :: 0 <= i < |data| ==> after[i] == data[i];
    if Unique(after, column) {
      forall i, j | 0 <= i < j < |data| ensures At(data[i], column) != At(data[j], column) {
        assert At(after[i], column) != At(after[j], column);
      }
      forall i | 0 <= i < |data| ensures At(data[i], column) != At(row, column) {
        assert At(after[i], column) != At(after[|data|], column);
      }
    }
  }

  /** A form whose checked column is not stored passes the check, and leaves two records without it. */
  lemma ColumnNotStored()
    ensures var data, form, columns := [map["id" := "1"]], map["id" := "2", "name" := "x"], ["id"];
            && IsNew(data, "name", At(form, "name")) && Unique(data, "name")
            && !Unique(data + [Stored(form, columns)], "name")
  {
    var data, form, columns := [map["id" := "1"]], map["id" := "2", "name" := "x"], ["id"];
    UniqueAfterAppend(data, form, columns, "name");
    assert At(data[0], "name") == None;
  }

  // ------------------------------------------------------------------------ the list

  class ListRow {
    var index: int
    var selected: bool
    var rowData: Record

    constructor (index: int, rowData: Record)
      ensures this.index == index && !selected && this.rowData == rowData
    {
      this.index, this.selected, this.rowData := index, false, rowData;
    }

    /** A left click toggles the selection where rows are selectable. */
    method Select(rowsSelectable: bool, button: int)
      modifies this`selected
      ensures selected == if rowsSelectable && button == 0 then !old(selected) else old(selected)
    {
      if rowsSelectable && button == 0 {
        var processed := false;
        if selected {
          selected := false;
          processed := true;
        }
        if !selected && !processed {
          selected := true;
        }
      }
    }
  }

  class List {
    const attributes: Attributes
    var serviceData: seq<Record>
    var rowItems: seq<ListRow>
    var columns: seq<string>
    var updateCount: nat

    /** Row i has index i and carries record i. */
    ghost predicate Synced()
      reads this, rowItems
    {
      && |rowItems| == |serviceData|
      && forall i :: 0 <= i < |rowItems| ==> rowItems[i].index == i && rowItems[i].rowData == serviceData[i]
    }

    ghost predicate NothingSelected()
      reads this, rowItems
    {
      forall i :: 0 <= i < |rowItems| ==> !rowItems[i].selected
    }

    ghost function Selection(): seq<bool>
      reads this, rowItems
    {
      seq(|rowItems|, i requires 0 <= i < |rowItems| reads this, rowItems => rowItems[i].selected)
    }

    constructor (attributes: Attributes)
      ensures this.attributes == attributes && serviceData == [] && rowItems == [] && columns == []
      ensures updateCount == 0 && Synced()
    {
      this.attributes := attributes;
      serviceData, rowItems, columns, updateCount := [], [], [], 0;
    }

    /** The column keys a render adds. */
    function Header(): seq<string> { if attributes.disableHeader then [] else attributes.columns }

    /** Adds the column keys once more; membership is all that is asked of them. */
    method SetupHeader()
      modifies this`columns
      ensures columns == old(columns) + attributes.columns
    {
      for i := 0 to |attributes.columns|
        invariant columns == old(columns) + attributes.columns[..i]
      {
        columns := columns + [attributes.columns[i]];
      }
    }

    method AddRow(rowData: Record, index: int)
      modifies this`rowItems
      ensures |rowItems| == |old(rowItems)| + 1 && rowItems[..|old(rowItems)|] == old(rowItems)
      ensures
        var row := rowItems[|old(rowItems)|];
        fresh(row) && row.index == index && !row.selected && row.rowData == rowData
    {
      var row := new ListRow(index, rowData);
      rowItems := rowItems + [row];
    }

    /** Whatever the rows were, after rendering they mirror the data and nothing is selected. */
    method RenderPage()
      modifies this`rowItems, this`columns
      ensures Synced() && NothingSelected() && fresh(rowItems)
      ensures columns == old(columns) + Header()
    {
      if !attributes.disableHeader {
        SetupHeader();
      }
      rowItems := [];
      for rowId := 0 to |serviceData|
        invariant |rowItems| == rowId && fresh(rowItems)
        invariant forall i :: 0 <= i < rowId ==>
          rowItems[i].index == i && rowItems[i].rowData == serviceData[i] && !rowItems[i].selected
        invariant columns == old(columns) + Header()
      {
        AddRow(serviceData[rowId], rowId);
      }
    }

    /** A result from the service is appended to the data. */
    method Update(results: seq<Record>)
      modifies this`serviceData, this`rowItems, this`columns, this`updateCount
      ensures Synced() && NothingSelected() && fresh(rowItems) && serviceData == old(serviceData) + results
      ensures columns == old(columns) + Header() && updateCount == old(updateCount) + 1
    {
      updateCount := updateCount + 1;
      for i := 0 to |results|
        invariant serviceData == old(serviceData) + results[..i] && rowItems == old(rowItems)
        invariant columns == old(columns) && updateCount == old(updateCount) + 1
      {
        serviceData := serviceData + [results[i]];
      }
      RenderPage();
    }

    method Reset()
      modifies this`serviceData, this`rowItems, this`columns
      ensures Synced() && rowItems == [] && serviceData == [] && columns == old(columns) + Header()
    {
      serviceData := [];
      RenderPage();
    }

    method RemoveRow(index: int)
      modifies this`serviceData, this`rowItems, this`columns
      ensures Synced() && NothingSelected() && fresh(rowItems) && serviceData == Splice(old(serviceData), index)
      ensures columns == old(columns) + Header()
    {
      rowItems := Splice(rowItems, index);
      serviceData := Splice(serviceData, index);
      RenderPage();
    }

    method RemoveSelectedRows()
      modifies this`serviceData, this`rowItems, this`columns
      ensures Synced() && NothingSelected() && fresh(rowItems)
      ensures old(Synced()) ==> serviceData == Unselected(old(serviceData), old(Selection()))
      ensures columns == old(columns) + Header()
    {
      var removeArray := Collect();
      SpliceAll(removeArray);
      if old(Synced()) {
        SelectionRemoved(old(serviceData), old(Selection()));
      }
      RenderPage();
    }

    /** Removes rows and records at the collected places, from the last one to the first. */
    method SpliceAll(removeArray: seq<int>)
      modifies this`serviceData, this`rowItems
      ensures serviceData == RemoveBackwards(old(serviceData), removeArray)
    {
      var i := |removeArray| - 1;
      assert removeArray[..i + 1] == removeArray;
      while i >= 0
        invariant -1 <= i < |removeArray|
        invariant RemoveBackwards(serviceData, removeArray[..i + 1]) == RemoveBackwards(old(serviceData), removeArray)
      {
        assert removeArray[..i + 1][..i] == removeArray[..i];
        rowItems := Splice(rowItems, removeArray[i]);
        serviceData := Splice(serviceData, removeArray[i]);
        i := i - 1;
      }
    }

    method Collect() returns (removeArray: seq<int>)
      ensures Synced() ==> removeArray == SelectedPlaces(Selection(), |rowItems|)
    {
      removeArray := [];
      for i := 0 to |rowItems|
        invariant Synced() ==> removeArray == SelectedPlaces(Selection(), i)
      {
        if rowItems[i].selected {
          removeArray := removeArray + [rowItems[i].index];
        }
      }
    }

    /** Replaces a record; one place behind the last one it appends. */
    method UpdateRow(index: int, data: Record)
      requires 1 <= index <= |serviceData| + 1
      modifies this`serviceData, this`rowItems, this`columns, this`updateCount
      ensures Synced() && NothingSelected() && fresh(rowItems)
      ensures serviceData
           == old(serviceData)[..index - 1] + [data]
              + if index <= |old(serviceData)| then old(serviceData)[index..] else []
      ensures columns == old(columns) + Header() && updateCount == old(updateCount) + 1
    {
      serviceData := if index <= |serviceData| then serviceData[index - 1 := data] else serviceData + [data];
      updateCount := updateCount + 1;
      RenderPage();
    }

    method CheckDouble(column: string, checkValue: Option<string>) returns (ok: bool)
      ensures ok == IsNew(serviceData, column, checkValue)
    {
      for i := 0 to |serviceData|
        invariant IsNew(serviceData[..i], column, checkValue)
      {
        if At(serviceData[i], column) == checkValue {
          return false;
        }
      }
      assert serviceData[..|serviceData|] == serviceData;
      ok := true;
    }

    /** A form is refused when the list is full and errors can be shown, when it doubles a value, or when a
        pattern fails. */
    ghost predicate Refused(form: Record, errorObj: bool, patternsMatch: bool)
      reads this`serviceData
    {
      || (attributes.dataMaxRows.Some? && |serviceData| >= attributes.dataMaxRows.value && errorObj)
      || (attributes.doubleCheckColumn.Some?
          && !IsNew(serviceData, attributes.doubleCheckColumn.value, At(form, attributes.doubleCheckColumn.value)))
      || !patternsMatch
    }

    method AppendData(form: Record, errorObj: bool, patternsMatch: bool)
      modifies this`serviceData, this`rowItems, this`columns, this`updateCount
      ensures old(Refused(form, errorObj, patternsMatch)) ==>
        && serviceData == old(serviceData) && rowItems == old(rowItems)
        && columns == old(columns) && updateCount == old(updateCount)
      ensures !old(Refused(form, errorObj, patternsMatch)) ==>
        && Synced() && NothingSelected() && fresh(rowItems)
        && serviceData == old(serviceData) + [Stored(form, old(columns))]
        && columns == old(columns) + Header() && updateCount == old(updateCount) + 1
      ensures attributes.dataMaxRows.Some? && errorObj && |old(serviceData)| <= attributes.dataMaxRows.value ==>
        |serviceData| <= attributes.dataMaxRows.value
      ensures (attributes.dataMaxRows.Some? && errorObj && |old(serviceData)| >= attributes.dataMaxRows.value)
              || !patternsMatch || (attributes.doubleCheckColumn.Some?
                  && var c := attributes.doubleCheckColumn.value;
                     exists i :: 0 <= i < |old(serviceData)| && At(old(serviceData)[i], c) == At(form, c)) <==>
        |serviceData| == |old(serviceData)|
      ensures attributes.doubleCheckColumn.Some? && !old(Refused(form, errorObj, patternsMatch)) ==>
        var column := attributes.doubleCheckColumn.value;
        Unique(serviceData, column) <==>
        Unique(old(serviceData), column) && (column in old(columns) || IsNew(old(serviceData), column, None))
    {
      if attributes.dataMaxRows.Some? && |serviceData| >= attributes.dataMaxRows.value && errorObj {
        return;
      }
      if attributes.doubleCheckColumn.Some? {
        var column := attributes.doubleCheckColumn.value;
        var ok := CheckDouble(column, At(form, column));
        if !ok {
          return;
        }
        UniqueAfterAppend(serviceData, form, columns, column);
      }
      if !patternsMatch {
        return;
      }
      updateCount := updateCount + 1;
      var appendRowObj := KnownColumns(form);
      serviceData := serviceData + [appendRowObj];
      AddRow(appendRowObj, |rowItems| + 1);
      RenderPage();
    }

    method KnownColumns(form: Record) returns (row: Record)
      ensures row == Stored(form, columns)
    {
      row := map[];
      var keys := form.Keys;
      while |keys| > 0
        invariant keys <= form.Keys && row == map k | k in form && k !in keys && k in columns :: form[k]
      {
        var key := PickAny(keys);
        if key in columns {
          row := row[key := form[key]];
        }
        keys := keys - {key};
      }
    }
  }

  method PickAny(s: set<string>) returns (x: string)
    requires |s| > 0
    ensures x in s
  {
    x :| x in s;
  }
}
