/** The layout editor as the component runs it: row and field objects on the
    heap, a deep clone before every edit, and in-place swaps, splices and pushes
    on that clone. Every handler is tied to one operation of module `Layout`, and
    its `modifies this` says that the objects of the layout shown before the
    edit are never touched. */
module LayoutDesigner {
  import opened Layout

  class FieldCell {
    var attribute: string
    var caption: string
    var required: bool

    constructor (attribute: string, caption: string, required: bool)
      ensures this.attribute == attribute && this.caption == caption && this.required == required
    {
      this.attribute, this.caption, this.required := attribute, caption, required;
    }
  }

  class RowCell {
    var columns: seq<FieldCell>

    constructor (columns: seq<FieldCell>)
      ensures this.columns == columns
    {
      this.columns := columns;
    }
  }

  ghost predicate ShowsField(cell: FieldCell, f: Field)
    reads cell
  {
    cell.attribute == f.attribute && cell.caption == f.caption && cell.required == f.required
  }

  ghost predicate ShowsRow(columns: seq<FieldCell>, row: Row)
    reads columns
  {
    |columns| == |row| && forall j :: 0 <= j < |row| ==> ShowsField(columns[j], row[j])
  }

  ghost function FieldsOf(cells: seq<RowCell>): set<FieldCell>
    reads cells
    ensures forall i :: 0 <= i < |cells| ==> forall f :: f in cells[i].columns ==> f in FieldsOf(cells)
  {
    set i, f | 0 <= i < |cells| && f in cells[i].columns :: f
  }

  /** The objects `cells` hold the layout `rows`. */
  ghost predicate Shows(cells: seq<RowCell>, rows: Rows)
    reads cells, FieldsOf(cells)
  {
    |cells| == |rows| && forall i :: 0 <= i < |rows| ==> ShowsRow(cells[i].columns, rows[i])
  }

  ghost predicate NoRepeat(columns: seq<FieldCell>) {
    forall j, j' :: 0 <= j < j' < |columns| ==> columns[j] != columns[j']
  }

  ghost predicate Apart(r: RowCell, r': RowCell)
    reads r, r'
  {
    r != r' && forall f :: f in r.columns ==> f !in r'.columns
  }

  /** No row object and no field object stands in two places. */
  ghost predicate Separate(cells: seq<RowCell>)
    reads cells
  {
    && (forall i :: 0 <= i < |cells| ==> NoRepeat(cells[i].columns))
    && (forall i, i' :: 0 <= i < i' < |cells| ==> Apart(cells[i], cells[i']))
  }

  method CloneColumns(columns: seq<FieldCell>, ghost row: Row) returns (clone: seq<FieldCell>)
    requires ShowsRow(columns, row)
    ensures ShowsRow(clone, row)
    ensures forall f :: f in clone ==> fresh(f)
    ensures NoRepeat(clone)
  {
    clone := [];
    for j := 0 to |columns|
      invariant ShowsRow(columns, row) && ShowsRow(clone, row[..j])
      invariant forall f :: f in clone ==> fresh(f)
      invariant NoRepeat(clone)
    {
      assert ShowsField(columns[j], row[j]);
      var copy := new FieldCell(columns[j].attribute, columns[j].caption, columns[j].required);
      clone := clone + [copy];
    }
    assert row[..|columns|] == row;
  }

  lemma SeparateAppend(cells: seq<RowCell>, row: RowCell)
    requires Separate(cells) && NoRepeat(row.columns)
    requires forall i :: 0 <= i < |cells| ==> Apart(cells[i], row)
    ensures Separate(cells + [row])
  {
  }

  lemma ShowsRows(cells: seq<RowCell>, rows: Rows)
    ensures Shows(cells, rows) ==>
              |cells| == |rows| && forall i :: 0 <= i < |cells| ==> ShowsRow(cells[i].columns, rows[i])
  {
  }

  /** `cloneRows`. */
  method CloneRows(cells: seq<RowCell>, ghost rows: Rows) returns (clone: seq<RowCell>)
    requires Shows(cells, rows)
    ensures Shows(clone, rows) && Separate(clone)
    ensures forall i :: 0 <= i < |clone| ==> fresh(clone[i]) && fresh(set f | f in clone[i].columns)
  {
    hide Separate, NoRepeat, ShowsRow;
    clone := [];
    assert Separate([]) by { NothingShared(); }
    for i := 0 to |cells|
      invariant |clone| == i
      invariant forall k :: 0 <= k < |cells| ==> ShowsRow(cells[k].columns, rows[k])
      invariant forall k :: 0 <= k < i ==> ShowsRow(clone[k].columns, rows[k])
      invariant Separate(clone)
      invariant forall k :: 0 <= k < i ==> fresh(clone[k]) && fresh(set f | f in clone[k].columns)
    {
      var columns := CloneColumns(cells[i].columns, rows[i]);
      var row := new RowCell(columns);
      assert forall k :: 0 <= k < i ==> Apart(clone[k], row);
      SeparateAppend(clone, row);
      clone := clone + [row];
    }
  }

  lemma NothingShared()
    ensures Separate([])
  {
  }

  /** Puts new columns into one row of a separate clone; the other rows show what they showed. */
  method SetColumns(cells: seq<RowCell>, ghost rows: Rows, index: nat, columns: seq<FieldCell>, ghost row: Row)
    requires Shows(cells, rows) && Separate(cells) && index < |cells| && ShowsRow(columns, row)
    modifies cells[index]
    ensures cells[index].columns == columns
    ensures forall i :: 0 <= i < |cells| && i != index ==> cells[i].columns == old(cells[i].columns)
    ensures Shows(cells, rows[index := row])
  {
    forall i | 0 <= i < |cells| && i != index ensures cells[i] != cells[index] {
      assert i < index ==> Apart(cells[i], cells[index]);
      assert index < i ==> Apart(cells[index], cells[i]);
    }
    assert forall i :: 0 <= i < |cells| ==> ShowsRow(cells[i].columns, rows[i]);
    cells[index].columns := columns;
  }

  /** Writes one field object of a separate clone. */
  method SetCell(cells: seq<RowCell>, ghost rows: Rows, row: nat, col: nat, caption: string, required: bool)
    requires Shows(cells, rows) && Separate(cells) && row < |rows| && col < |rows[row]|
    modifies cells[row].columns[col]
    ensures Shows(cells, rows[row := rows[row][col := rows[row][col].(caption := caption, required := required)]])
  {
    assert forall i :: 0 <= i < |cells| ==> ShowsRow(cells[i].columns, rows[i]);
    OtherCellsKeep(cells, row, col);
    var cell := cells[row].columns[col];
    assert ShowsField(cell, rows[row][col]);
    forall i, j | 0 <= i < |cells| && 0 <= j < |cells[i].columns| ensures ShowsField(cells[i].columns[j], rows[i][j]) {
      assert ShowsRow(cells[i].columns, rows[i]);
    }
    cell.caption, cell.required := caption, required;
    ghost var rows' := rows[row := rows[row][col := rows[row][col].(caption := caption, required := required)]];
    forall i | 0 <= i < |cells| ensures ShowsRow(cells[i].columns, rows'[i]) {
      forall j | 0 <= j < |cells[i].columns| ensures ShowsField(cells[i].columns[j], rows'[i][j]) {
      }
    }
  }

  class LayoutDesigner {
    var rows: seq<RowCell>
    var breakpoint: int
    var chosen: map<nat, string>
    ghost var model: Rows

    ghost predicate Valid()
      reads this, rows, FieldsOf(rows)
    {
      Shows(rows, model)
    }

    ghost function State(): Editor
      reads this
    {
      Editor(model, chosen)
    }

    /** `loadLayout`: takes over the received objects and forgets the selectors. */
    constructor Load(cells: seq<RowCell>, breakpoint: int, ghost received: Rows)
      requires Shows(cells, received)
      ensures Valid() && State() == Editor(received, map[]) && this.breakpoint == breakpoint
    {
      this.rows, this.breakpoint, this.chosen, this.model := cells, breakpoint, map[], received;
    }

    method MoveRow(index: nat, direction: Direction)
      requires Valid() && index < |model|
      modifies this
      ensures Valid() && State() == Apply(old(State()), Op.MoveRow(index, direction)) && breakpoint == old(breakpoint)
    {
      hide ShowsRow, FieldsOf, Separate;
      var clone := CloneRows(rows, model);
      ShowsMoved(clone, model, index, direction);
      ShowsRows(clone, model);
      var target := if direction.Back? then index - 1 else index + 1;
      if 0 <= target < |clone| {
        clone := clone[index := clone[target]][target := clone[index]];
      }
      rows, model := clone, ApplyRows(State(), Op.MoveRow(index, direction));
    }

    method RemoveRow(index: nat)
      requires Valid() && index < |model|
      modifies this
      ensures Valid() && State() == Apply(old(State()), Op.RemoveRow(index)) && breakpoint == old(breakpoint)
    {
      hide ShowsRow, FieldsOf, Separate;
      var clone := CloneRows(rows, model);
      ShowsRows(clone, model);
      ShowsRemoved(clone, model, index);
      rows, model := clone[..index] + clone[index + 1..], RemoveAt(model, index);
    }

    method AddRow()
      requires Valid()
      modifies this
      ensures Valid() && State() == Apply(old(State()), Op.AddRow) && breakpoint == old(breakpoint)
    {
      var clone := CloneRows(rows, model);
      var row := new RowCell([]);
      rows, model := clone + [row], model + [[]];
    }

    method RemoveField(rowIndex: nat, colIndex: nat)
      requires Valid() && rowIndex < |model| && colIndex < |model[rowIndex]|
      modifies this
      ensures Valid() && State() == Apply(old(State()), Op.RemoveField(rowIndex, colIndex)) && breakpoint == old(breakpoint)
    {
      hide ShowsRow, FieldsOf, Separate;
      var clone := CloneRows(rows, model);
      ShowsRows(clone, model);
      var row := clone[rowIndex];
      ShowsColumns(row.columns, model[rowIndex]);
      ShowsColumnRemoved(row.columns, model[rowIndex], colIndex);
      var columns := row.columns[..colIndex] + row.columns[colIndex + 1..];
      ghost var kept := RemoveAt(model[rowIndex], colIndex);
      SetColumns(clone, model, rowIndex, columns, kept);
      ShowsColumns(columns, kept);
      ghost var shown := model[rowIndex := kept];
      ShowsRows(clone, shown);
      if row.columns == [] {
        assert RemoveAt(shown, rowIndex) == RemoveAt(model, rowIndex);
        ShowsRemoved(clone, shown, rowIndex);
        rows, model := clone[..rowIndex] + clone[rowIndex + 1..], RemoveAt(model, rowIndex);
      } else {
        rows, model := clone, shown;
      }
    }

    method MoveFieldWithinRow(rowIndex: nat, colIndex: nat, direction: Direction)
      requires Valid() && rowIndex < |model| && colIndex < |model[rowIndex]|
      modifies this
      ensures Valid() && State() == Apply(old(State()), Op.MoveField(rowIndex, colIndex, direction)) && breakpoint == old(breakpoint)
    {
      hide ShowsRow, FieldsOf, Separate;
      var clone := CloneRows(rows, model);
      ShowsRows(clone, model);
      var row := clone[rowIndex];
      ShowsColumns(row.columns, model[rowIndex]);
      ShowsColumnMoved(row.columns, model[rowIndex], colIndex, direction);
      var target := if direction.Back? then colIndex - 1 else colIndex + 1;
      var columns := row.columns;
      if 0 <= target < |columns| {
        columns := columns[colIndex := columns[target]][target := columns[colIndex]];
      }
      SetColumns(clone, model, rowIndex, columns, MoveAt(model[rowIndex], colIndex, direction));
      rows, model := clone, ApplyRows(State(), Op.MoveField(rowIndex, colIndex, direction));
    }

    method UpdateFieldLabel(rowIndex: nat, colIndex: nat, caption: string)
      requires Valid() && rowIndex < |model| && colIndex < |model[rowIndex]|
      modifies this
      ensures Valid() && State() == Apply(old(State()), Op.SetLabel(rowIndex, colIndex, caption)) && breakpoint == old(breakpoint)
    {
      var clone := CloneRows(rows, model);
      assert ShowsRow(clone[rowIndex].columns, model[rowIndex]) && ShowsField(clone[rowIndex].columns[colIndex], model[rowIndex][colIndex]);
      SetCell(clone, model, rowIndex, colIndex, caption, clone[rowIndex].columns[colIndex].required);
      rows, model := clone, ApplyRows(State(), Op.SetLabel(rowIndex, colIndex, caption));
    }

    method UpdateFieldRequired(rowIndex: nat, colIndex: nat, required: bool)
      requires Valid() && rowIndex < |model| && colIndex < |model[rowIndex]|
      modifies this
      ensures Valid() && State() == Apply(old(State()), Op.SetRequired(rowIndex, colIndex, required)) && breakpoint == old(breakpoint)
    {
      var clone := CloneRows(rows, model);
      assert ShowsRow(clone[rowIndex].columns, model[rowIndex]) && ShowsField(clone[rowIndex].columns[colIndex], model[rowIndex][colIndex]);
      SetCell(clone, model, rowIndex, colIndex, clone[rowIndex].columns[colIndex].caption, required);
      rows, model := clone, ApplyRows(State(), Op.SetRequired(rowIndex, colIndex, required));
    }

    /** The selector of a row. */
    method ChooseAttribute(rowIndex: nat, attribute: string)
      requires Valid() && rowIndex < |model|
      modifies this`chosen
      ensures Valid() && State() == Apply(old(State()), Op.Choose(rowIndex, attribute))
    {
      chosen := chosen[rowIndex := attribute];
    }

    method AddFieldToRow(rowIndex: nat)
      requires Valid() && rowIndex < |model|
      modifies this
      ensures Valid() && State() == Apply(old(State()), Op.AddField(rowIndex)) && breakpoint == old(breakpoint)
    {
      var attribute := if rowIndex in chosen then chosen[rowIndex] else "";
      if attribute == "" {
        return;
      }
      hide ShowsRow, FieldsOf, Separate;
      var clone := CloneRows(rows, model);
      ShowsRows(clone, model);
      var row := clone[rowIndex];
      var field := new FieldCell(attribute, attribute, false);
      assert Shows(clone, model) && Separate(clone);
      ShowsColumnAdded(row.columns, model[rowIndex], field, Field(attribute, attribute, false));
      hide ShowsField;
      SetColumns(clone, model, rowIndex, row.columns + [field], model[rowIndex] + [Field(attribute, attribute, false)]);
      rows, model := clone, ApplyRows(State(), Op.AddField(rowIndex));
      chosen := chosen[rowIndex := ""];
    }

    /** The rows `handleSave` sends: those with at least one field. */
    method RowsToSave() returns (sent: seq<RowCell>)
      requires Valid()
      ensures Shows(sent, Saved(model))
    {
      sent := [];
      for i := 0 to |rows|
        invariant Shows(sent, Saved(model[..i]))
      {
        SavedAppend(model[..i], model[i]);
        assert model[..i + 1] == model[..i] + [model[i]];
        if |rows[i].columns| > 0 {
          sent := sent + [rows[i]];
        }
      }
      assert model[..|rows|] == model;
    }
  }

  lemma ShowsColumns(columns: seq<FieldCell>, row: Row)
    ensures ShowsRow(columns, row) ==> |columns| == |row|
  {
  }

  lemma ShowsColumnRemoved(columns: seq<FieldCell>, row: Row, index: nat)
    requires ShowsRow(columns, row) && index < |row|
    ensures |columns| == |row| && ShowsRow(columns[..index] + columns[index + 1..], RemoveAt(row, index))
  {
  }

  lemma ShowsColumnMoved(columns: seq<FieldCell>, row: Row, index: nat, d: Direction)
    requires ShowsRow(columns, row) && index < |row|
    ensures |columns| == |row| && ShowsRow(MoveAt(columns, index, d), MoveAt(row, index, d))
  {
  }

  lemma ShowsColumnAdded(columns: seq<FieldCell>, row: Row, cell: FieldCell, f: Field)
    requires ShowsRow(columns, row) && ShowsField(cell, f)
    ensures ShowsRow(columns + [cell], row + [f])
  {
  }

  lemma ShowsMoved(cells: seq<RowCell>, rows: Rows, index: nat, d: Direction)
    requires Shows(cells, rows) && index < |rows|
    ensures |cells| == |rows| && Shows(MoveAt(cells, index, d), MoveAt(rows, index, d))
  {
    hide ShowsRow;
  }

  lemma ShowsRemoved(cells: seq<RowCell>, rows: Rows, index: nat)
    requires Shows(cells, rows) && index < |rows|
    ensures Shows(cells[..index] + cells[index + 1..], RemoveAt(rows, index))
  {
    hide ShowsRow;
  }

  /** In a separate clone only one place shows a given cell. */
  lemma OtherCellsKeep(cells: seq<RowCell>, row: nat, col: nat)
    requires Separate(cells) && row < |cells| && col < |cells[row].columns|
    ensures forall i, j :: 0 <= i < |cells| && 0 <= j < |cells[i].columns| && (i != row || j != col) ==>
                             cells[i].columns[j] != cells[row].columns[col]
  {
    forall i, j | 0 <= i < |cells| && 0 <= j < |cells[i].columns| && (i != row || j != col)
      ensures cells[i].columns[j] != cells[row].columns[col]
    {
      assert cells[i].columns[j] in cells[i].columns && cells[row].columns[col] in cells[row].columns;
      assert i < row ==> Apart(cells[i], cells[row]);
      assert row < i ==> Apart(cells[row], cells[i]);
      assert NoRepeat(cells[row].columns);
    }
  }

  lemma {:induction false} SavedAppend(rows: Rows, row: Row)
    ensures Saved(rows + [row]) == Saved(rows) + if row == [] then [] else [row]
  {
    if rows == [] {
      assert rows + [row] == [row];
    } else {
      assert (rows + [row])[1..] == rows[1..] + [row];
      SavedAppend(rows[1..], row);
    }
  }
}
