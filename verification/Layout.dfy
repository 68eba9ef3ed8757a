/** The layout editor as a state machine on values: rows of fields, the
    attribute chosen in each row's selector, and one operation per handler. */
module Layout {
  import opened Wrappers

  /** `caption` is the `label` of the source, a reserved word here. */
  datatype Field = Field(attribute: string, caption: string, required: bool)
  type Row = seq<Field>
  type Rows = seq<Row>

  datatype Direction = Back | Forward

  datatype Editor = Editor(rows: Rows, chosen: map<nat, string>)

  datatype Op =
    | MoveRow(row: nat, direction: Direction)
    | RemoveRow(row: nat)
    | AddRow
    | RemoveField(row: nat, col: nat)
    | MoveField(row: nat, col: nat, direction: Direction)
    | SetLabel(row: nat, col: nat, caption: string)
    | SetRequired(row: nat, col: nat, required: bool)
    | Choose(row: nat, attribute: string)
    | AddField(row: nat)

  // ------------------------------------------------------------ operations

  /** Exchanges `i` with its neighbour; at the edge nothing happens. */
  function MoveAt<T>(s: seq<T>, i: nat, d: Direction): seq<T>
    requires i < |s|
  {
    var target := if d.Back? then i - 1 else i + 1;
    if target < 0 || target >= |s| then s else s[i := s[target]][target := s[i]]
  }

  function RemoveAt<T>(s: seq<T>, i: nat): seq<T>
    requires i < |s|
  {
    s[..i] + s[i + 1..]
  }

  function Chosen(e: Editor, row: nat): string {
    if row in e.chosen then e.chosen[row] else ""
  }

  predicate InRange(rows: Rows, op: Op) {
    match op
    case AddRow => true
    case MoveRow(row, _) => row < |rows|
    case RemoveRow(row) => row < |rows|
    case Choose(row, _) => row < |rows|
    case AddField(row) => row < |rows|
    case RemoveField(row, col) => row < |rows| && col < |rows[row]|
    case MoveField(row, col, _) => row < |rows| && col < |rows[row]|
    case SetLabel(row, col, _) => row < |rows| && col < |rows[row]|
    case SetRequired(row, col, _) => row < |rows| && col < |rows[row]|
  }

  function ApplyRows(e: Editor, op: Op): Rows
    requires InRange(e.rows, op)
  {
    var rows := e.rows;
    match op
    case AddRow => rows + [[]]
    case MoveRow(row, d) => MoveAt(rows, row, d)
    case RemoveRow(row) => RemoveAt(rows, row)
    case RemoveField(row, col) =>
      if |rows[row]| == 1 then RemoveAt(rows, row) else rows[row := RemoveAt(rows[row], col)]
    case MoveField(row, col, d) => rows[row := MoveAt(rows[row], col, d)]
    case SetLabel(row, col, caption) => rows[row := rows[row][col := rows[row][col].(caption := caption)]]
    case SetRequired(row, col, r) => rows[row := rows[row][col := rows[row][col].(required := r)]]
    case Choose(_, _) => rows
    case AddField(row) =>
      var a := Chosen(e, row);
      if a == "" then rows else rows[row := rows[row] + [Field(a, a, false)]]
  }

  function Apply(e: Editor, op: Op): Editor
    requires InRange(e.rows, op)
  {
    var chosen :=
      match op
      case Choose(row, a) => e.chosen[row := a]
      case AddField(row) => if Chosen(e, row) == "" then e.chosen else e.chosen[row := ""]
      case _ => e.chosen;
    Editor(ApplyRows(e, op), chosen)
  }

  /** What is sent on save. */
  function Saved(rows: Rows): Rows {
    if rows == [] then [] else (if rows[0] == [] then [] else [rows[0]]) + Saved(rows[1..])
  }

  // ------------------------------------------------------------ place by place

  /** The elements at `i` and `j` have changed places, all others stand where they stood. */
  ghost predicate Exchanged<T>(a: seq<T>, b: seq<T>, i: nat, j: nat) {
    && |a| == |b| && i < |a| && j < |a| && b[i] == a[j] && b[j] == a[i]
    && forall k :: 0 <= k < |a| && k != i && k != j ==> b[k] == a[k]
  }

  /** Moving `i` in a direction: an exchange with that neighbour, and nothing at the edge. */
  ghost predicate Moved<T>(a: seq<T>, b: seq<T>, i: nat, d: Direction) {
    match d
    case Back => if i == 0 then b == a else Exchanged(a, b, i, i - 1)
    case Forward => if i + 1 >= |a| then b == a else Exchanged(a, b, i, i + 1)
  }

  /** The element at `i` is gone, those behind it have moved up. */
  ghost predicate Dropped<T>(a: seq<T>, b: seq<T>, i: nat) {
    && |b| + 1 == |a| && i < |a|
    && (forall k :: 0 <= k < i ==> b[k] == a[k])
    && (forall k :: i <= k < |b| ==> b[k] == a[k + 1])
  }

  /** Only the element at `i` may differ. */
  ghost predicate OnlyAt<T>(a: seq<T>, b: seq<T>, i: nat) {
    |a| == |b| && i < |a| && forall k :: 0 <= k < |a| && k != i ==> b[k] == a[k]
  }

  /** What every operation does to every place of the layout. */
  lemma ApplyPlaces(e: Editor, op: Op)
    requires InRange(e.rows, op)
    ensures var before, after := e.rows, Apply(e, op).rows;
            match op
            case AddRow => Dropped(after, before, |before|) && after[|before|] == []
            case MoveRow(row, d) => Moved(before, after, row, d)
            case RemoveRow(row) => Dropped(before, after, row)
            case RemoveField(row, col) =>
              if |before[row]| == 1 then Dropped(before, after, row)
              else OnlyAt(before, after, row) && Dropped(before[row], after[row], col)
            case MoveField(row, col, d) => OnlyAt(before, after, row) && Moved(before[row], after[row], col, d)
            case SetLabel(row, col, caption) =>
              && OnlyAt(before, after, row) && OnlyAt(before[row], after[row], col)
              && var was, now := before[row][col], after[row][col];
                 now.caption == caption && now.attribute == was.attribute && now.required == was.required
            case SetRequired(row, col, required) =>
              && OnlyAt(before, after, row) && OnlyAt(before[row], after[row], col)
              && var was, now := before[row][col], after[row][col];
                 now.required == required && now.attribute == was.attribute && now.caption == was.caption
            case Choose(_, _) => after == before
            case AddField(row) =>
              if Chosen(e, row) == "" then after == before
              else
                && OnlyAt(before, after, row) && Dropped(after[row], before[row], |before[row]|)
                && after[row][|before[row]|] == Field(Chosen(e, row), Chosen(e, row), false)
  {
    match op
    case MoveField(row, col, d) => MovedPlaces(e.rows[row], col, d);
    case MoveRow(row, d) => MovedPlaces(e.rows, row, d);
    case _ =>
  }

  lemma MovedPlaces<T>(s: seq<T>, i: nat, d: Direction)
    requires i < |s|
    ensures Moved(s, MoveAt(s, i, d), i, d)
  {
  }

  /** Choosing sets one row's selector, adding a field empties it, and nothing else touches a selector. */
  lemma ApplySelectors(e: Editor, op: Op, row: nat)
    requires InRange(e.rows, op)
    ensures Chosen(Apply(e, op), row) ==
            if op.Choose? && op.row == row then op.attribute
            else if op == AddField(row) then "" else Chosen(e, row)
  {
  }

  // ------------------------------------------------------------ used and available attributes

  function Total<T>(s: seq<T>, f: T -> nat): nat {
    if s == [] then 0 else f(s[0]) + Total(s[1..], f)
  }

  function FieldCount(a: string): Field -> nat { (f: Field) => if f.attribute == a then 1 else 0 }

  function RowCount(a: string): Row -> nat { (row: Row) => Total(row, FieldCount(a)) }

  /** How often the attribute `a` is shown. */
  function Uses(rows: Rows, a: string): nat { Total(rows, RowCount(a)) }

  /** The schema's attributes that no field shows, in schema order. */
  function Available(schema: seq<string>, rows: Rows): seq<string> {
    if schema == [] then []
    else (if Uses(rows, schema[0]) > 0 then [] else [schema[0]]) + Available(schema[1..], rows)
  }

  ghost predicate Distinct(schema: seq<string>) {
    forall i, j :: 0 <= i < j < |schema| ==> schema[i] != schema[j]
  }

  ghost predicate NoDuplicates(rows: Rows) {
    forall a :: Uses(rows, a) <= 1
  }

  lemma {:induction false} AvailableIs(schema: seq<string>, rows: Rows, a: string)
    ensures a in Available(schema, rows) <==> a in schema && Uses(rows, a) == 0
    ensures multiset(Available(schema, rows))[a] == if Uses(rows, a) > 0 then 0 else multiset(schema)[a]
  {
    if schema != [] {
      AvailableIs(schema[1..], rows, a);
      assert schema == [schema[0]] + schema[1..];
      var first := if Uses(rows, schema[0]) > 0 then [] else [schema[0]];
      assert multiset(Available(schema, rows)) == multiset(first) + multiset(Available(schema[1..], rows));
    }
  }

  lemma {:induction false} TotalConcat<T>(a: seq<T>, b: seq<T>, f: T -> nat)
    ensures Total(a + b, f) == Total(a, f) + Total(b, f)
  {
    if a == [] {
      assert a + b == b;
    } else {
      assert (a + b)[1..] == a[1..] + b;
      TotalConcat(a[1..], b, f);
    }
  }

  lemma TotalSplit<T>(s: seq<T>, i: nat, f: T -> nat)
    requires i < |s|
    ensures Total(s, f) == Total(s[..i], f) + f(s[i]) + Total(s[i + 1..], f)
  {
    assert s == s[..i] + s[i..];
    assert s[i..][1..] == s[i + 1..];
    TotalConcat(s[..i], s[i..], f);
  }

  lemma TotalUpdate<T>(s: seq<T>, i: nat, x: T, f: T -> nat)
    requires i < |s|
    ensures Total(s[i := x], f) == Total(s, f) - f(s[i]) + f(x)
  {
    TotalSplit(s, i, f);
    TotalSplit(s[i := x], i, f);
    assert s[i := x][..i] == s[..i] && s[i := x][i + 1..] == s[i + 1..];
  }

  lemma TotalRemove<T>(s: seq<T>, i: nat, f: T -> nat)
    requires i < |s|
    ensures Total(RemoveAt(s, i), f) == Total(s, f) - f(s[i])
  {
    TotalSplit(s, i, f);
    TotalConcat(s[..i], s[i + 1..], f);
  }

  lemma TotalMove<T>(s: seq<T>, i: nat, d: Direction, f: T -> nat)
    requires i < |s|
    ensures Total(MoveAt(s, i, d), f) == Total(s, f)
  {
    var j := if d.Back? then i - 1 else i + 1;
    if 0 <= j < |s| {
      TotalUpdate(s, i, s[j], f);
      TotalUpdate(s[i := s[j]], j, s[i], f);
    }
  }

  lemma UsesReplace(rows: Rows, i: nat, row: Row, a: string)
    requires i < |rows|
    ensures Uses(rows[i := row], a) == Uses(rows, a) - Total(rows[i], FieldCount(a)) + Total(row, FieldCount(a))
  {
    TotalUpdate(rows, i, row, RowCount(a));
  }

  lemma RemoveFieldUses(rows: Rows, i: nat, col: nat, a: string)
    requires i < |rows| && col < |rows[i]|
    ensures var after := if |rows[i]| == 1 then RemoveAt(rows, i) else rows[i := RemoveAt(rows[i], col)];
            Uses(after, a) == Uses(rows, a) - if rows[i][col].attribute == a then 1 else 0
  {
    TotalRemove(rows[i], col, FieldCount(a));
    if |rows[i]| == 1 {
      assert RemoveAt(rows[i], col) == [];
      TotalRemove(rows, i, RowCount(a));
    } else {
      UsesReplace(rows, i, RemoveAt(rows[i], col), a);
    }
  }

  lemma MoveFieldUses(rows: Rows, i: nat, col: nat, d: Direction, a: string)
    requires i < |rows| && col < |rows[i]|
    ensures Uses(rows[i := MoveAt(rows[i], col, d)], a) == Uses(rows, a)
  {
    TotalMove(rows[i], col, d, FieldCount(a));
    UsesReplace(rows, i, MoveAt(rows[i], col, d), a);
  }

  lemma SetFieldUses(rows: Rows, i: nat, col: nat, field: Field, a: string)
    requires i < |rows| && col < |rows[i]| && field.attribute == rows[i][col].attribute
    ensures Uses(rows[i := rows[i][col := field]], a) == Uses(rows, a)
  {
    TotalUpdate(rows[i], col, field, FieldCount(a));
    UsesReplace(rows, i, rows[i][col := field], a);
  }

  lemma AddFieldUses(rows: Rows, i: nat, field: Field, a: string)
    requires i < |rows|
    ensures Uses(rows[i := rows[i] + [field]], a) == Uses(rows, a) + if field.attribute == a then 1 else 0
  {
    TotalConcat(rows[i], [field], FieldCount(a));
    UsesReplace(rows, i, rows[i] + [field], a);
  }

  /** Bookkeeping of every operation: only adding and removing change how often an attribute is shown. */
  lemma ApplyUses(e: Editor, op: Op, a: string)
    requires InRange(e.rows, op)
    ensures var before, after := Uses(e.rows, a), Uses(Apply(e, op).rows, a);
            match op
            case AddField(row) => after == before + if a == Chosen(e, row) != "" then 1 else 0
            case RemoveField(row, col) => after == before - if e.rows[row][col].attribute == a then 1 else 0
            case RemoveRow(row) => after == before - RowCount(a)(e.rows[row])
            case _ => after == before
  {
    hide RemoveAt, MoveAt;
    var rows := e.rows;
    match op
    case AddRow => TotalConcat(rows, [[]], RowCount(a));
    case MoveRow(row, d) => TotalMove(rows, row, d, RowCount(a));
    case RemoveRow(row) => TotalRemove(rows, row, RowCount(a));
    case RemoveField(row, col) => RemoveFieldUses(rows, row, col, a);
    case MoveField(row, col, d) => MoveFieldUses(rows, row, col, d, a);
    case SetLabel(row, col, caption) => SetFieldUses(rows, row, col, rows[row][col].(caption := caption), a);
    case SetRequired(row, col, required) => SetFieldUses(rows, row, col, rows[row][col].(required := required), a);
    case Choose(_, _) =>
    case AddField(row) => AddFieldUses(rows, row, Field(Chosen(e, row), Chosen(e, row), false), a);
  }

  // ------------------------------------------------------------ runs

  /** What the rendered screen offers: buttons at the edge are disabled, the selector lists the
      available attributes and is not shown when there are none. */
  predicate Offered(schema: seq<string>, rows: Rows, op: Op) {
    && InRange(rows, op)
    && match op
       case MoveRow(row, d) => if d.Back? then 0 < row else row + 1 < |rows|
       case MoveField(row, col, d) => if d.Back? then 0 < col else col + 1 < |rows[row]|
       case Choose(_, a) => Available(schema, rows) != [] && (a == "" || a in Available(schema, rows))
       case AddField(_) => Available(schema, rows) != []
       case _ => true
  }

  /** The state after a run of offered operations. */
  function Run(schema: seq<string>, e: Editor, ops: seq<Op>): Option<Editor>
    decreases |ops|
  {
    if ops == [] then Some(e)
    else if !Offered(schema, e.rows, ops[0]) then None
    else Run(schema, Apply(e, ops[0]), ops[1..])
  }

  lemma {:induction false} RunConcat(schema: seq<string>, e: Editor, a: seq<Op>, b: seq<Op>)
    ensures Run(schema, e, a + b) ==
            match Run(schema, e, a) case None => None case Some(mid) => Run(schema, mid, b)
    decreases |a|
  {
    if a == [] {
      assert a + b == b;
    } else {
      assert (a + b)[0] == a[0] && (a + b)[1..] == a[1..] + b;
      if Offered(schema, e.rows, a[0]) {
        RunConcat(schema, Apply(e, a[0]), a[1..], b);
      }
    }
  }

  /** Every attribute added along the run is unused at the moment of the click. */
  ghost predicate FreshAdds(schema: seq<string>, e: Editor, ops: seq<Op>)
    decreases |ops|
  {
    ops != [] && Offered(schema, e.rows, ops[0]) ==>
      && (ops[0].AddField? ==> Chosen(e, ops[0].row) == "" || Chosen(e, ops[0].row) in Available(schema, e.rows))
      && FreshAdds(schema, Apply(e, ops[0]), ops[1..])
  }

  /** No state of the run shows an attribute twice. */
  ghost predicate NeverDuplicates(schema: seq<string>, e: Editor, ops: seq<Op>)
    decreases |ops|
  {
    && NoDuplicates(e.rows)
    && (ops != [] && Offered(schema, e.rows, ops[0]) ==> NeverDuplicates(schema, Apply(e, ops[0]), ops[1..]))
  }

  /** The selectors hold nothing but schema attributes. */
  ghost predicate SchemaChoices(schema: seq<string>, e: Editor) {
    forall row :: row in e.chosen ==> e.chosen[row] == "" || e.chosen[row] in schema
  }

  /** One click on a duplicate-free layout: it stays so unless an attribute in use is added. */
  lemma StepKeepsDistinct(e: Editor, op: Op)
    requires InRange(e.rows, op) && NoDuplicates(e.rows)
    ensures NoDuplicates(Apply(e, op).rows) <==>
            !(op.AddField? && Chosen(e, op.row) != "" && Uses(e.rows, Chosen(e, op.row)) > 0)
  {
    forall a ensures Uses(Apply(e, op).rows, a) <=
                     Uses(e.rows, a) + if op.AddField? && a == Chosen(e, op.row) != "" then 1 else 0 {
      ApplyUses(e, op, a);
    }
    if op.AddField? {
      ApplyUses(e, op, Chosen(e, op.row));
    }
  }

  /** Safety over whole runs, in both directions: a run from a duplicate-free layout stays
      duplicate-free exactly when no click adds an attribute that was used meanwhile. The click
      handler itself does not look: it adds a stale choice. */
  lemma {:induction false} RunKeepsDistinct(schema: seq<string>, e: Editor, ops: seq<Op>)
    requires NoDuplicates(e.rows) && SchemaChoices(schema, e)
    ensures NeverDuplicates(schema, e, ops) <==> FreshAdds(schema, e, ops)
    decreases |ops|
  {
    if ops != [] && Offered(schema, e.rows, ops[0]) {
      StepKeepsDistinct(e, ops[0]);
      StepKeepsChoices(schema, e, ops[0]);
      if ops[0].AddField? {
        AvailableIs(schema, e.rows, Chosen(e, ops[0].row));
      }
      if NoDuplicates(Apply(e, ops[0]).rows) {
        RunKeepsDistinct(schema, Apply(e, ops[0]), ops[1..]);
      }
    }
  }

  lemma StepKeepsChoices(schema: seq<string>, e: Editor, op: Op)
    requires Offered(schema, e.rows, op) && SchemaChoices(schema, e)
    ensures SchemaChoices(schema, Apply(e, op))
  {
    if op.Choose? {
      AvailableIs(schema, e.rows, op.attribute);
    }
  }

  lemma RunStep(schema: seq<string>, e: Editor, op: Op, ops: seq<Op>)
    requires Offered(schema, e.rows, op)
    ensures Run(schema, e, [op] + ops) == Run(schema, Apply(e, op), ops)
  {
    assert ([op] + ops)[1..] == ops;
  }

  lemma RunTwo(schema: seq<string>, e: Editor, op: Op, op': Op)
    requires Offered(schema, e.rows, op) && Offered(schema, Apply(e, op).rows, op')
    ensures Run(schema, e, [op, op']) == Some(Apply(Apply(e, op), op'))
  {
    RunStep(schema, Apply(e, op), op', []);
    assert [op'] + [] == [op'] && [op] + [op'] == [op, op'];
    RunStep(schema, e, op, [op']);
  }

  lemma AddsTwice(schema: seq<string>, e: Editor, i: nat, j: nat, a: string, b: string)
    requires i < |e.rows| && j < |e.rows| && i != j
    requires a != "" && a != b && a in Available(schema, e.rows) && b in Available(schema, e.rows)
    requires Chosen(e, i) == a && Chosen(e, j) == a
    ensures var r := Run(schema, e, [AddField(i), AddField(j)]);
            r.Some? && Uses(r.value.rows, a) == 2
  {
    hide Uses, Available, Run;
    AvailableIs(schema, e.rows, a);
    AvailableIs(schema, e.rows, b);
    var once := Apply(e, AddField(i));
    ApplyUses(e, AddField(i), a);
    ApplyUses(e, AddField(i), b);
    AvailableIs(schema, once.rows, b);
    ApplyUses(once, AddField(j), a);
    RunTwo(schema, e, AddField(i), AddField(j));
  }

  /** Stale choices are reachable from every layout that still has two rows and two available
      attributes: one of them chosen in both rows and added in both is shown twice. */
  lemma StaleChoiceDuplicates(schema: seq<string>, e: Editor, i: nat, j: nat, a: string, b: string)
    requires i < |e.rows| && j < |e.rows| && i != j
    requires a != "" && a != b && a in Available(schema, e.rows) && b in Available(schema, e.rows)
    ensures var r := Run(schema, e, [Choose(i, a), Choose(j, a)] + [AddField(i), AddField(j)]);
            r.Some? && Uses(r.value.rows, a) == 2
  {
    hide Uses, Available, Run;
    RunTwo(schema, e, Choose(i, a), Choose(j, a));
    AddsTwice(schema, Apply(Apply(e, Choose(i, a)), Choose(j, a)), i, j, a, b);
    RunConcat(schema, e, [Choose(i, a), Choose(j, a)], [AddField(i), AddField(j)]);
  }

  /** Used and available attributes partition the schema, whatever the run did. */
  lemma {:induction false} SchemaPartition(schema: seq<string>, e: Editor, ops: seq<Op>, a: string)
    requires Distinct(schema) && SchemaChoices(schema, e) && NoDuplicates(e.rows)
    requires forall b :: Uses(e.rows, b) > 0 ==> b in schema
    requires FreshAdds(schema, e, ops) && Run(schema, e, ops).Some?
    ensures var rows := Run(schema, e, ops).value.rows;
            multiset(Available(schema, rows))[a] + Uses(rows, a) == multiset(schema)[a]
    decreases |ops|
  {
    if ops == [] {
      AvailableIs(schema, e.rows, a);
      DistinctCounts(schema, a);
    } else {
      var next := Apply(e, ops[0]);
      StepKeepsDistinct(e, ops[0]);
      StepKeepsChoices(schema, e, ops[0]);
      if ops[0].AddField? {
        AvailableIs(schema, e.rows, Chosen(e, ops[0].row));
      }
      forall b | Uses(next.rows, b) > 0 ensures b in schema {
        ApplyUses(e, ops[0], b);
      }
      SchemaPartition(schema, next, ops[1..], a);
    }
  }

  lemma {:induction false} DistinctCounts(s: seq<string>, a: string)
    requires Distinct(s)
    ensures multiset(s)[a] == if a in s then 1 else 0
  {
    if s != [] {
      DistinctCounts(s[1..], a);
      assert s == [s[0]] + s[1..];
      assert s[0] !in s[1..];
    }
  }
}
