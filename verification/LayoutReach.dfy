/** What the layout editor can reach: every order of the rows within a bound on
    the number of moves, and every well-formed layout. */
module LayoutReach {
  import opened Wrappers
  import opened Layout

  // ------------------------------------------------------------ moves conserve fields

  function SameField(f: Field): Field -> nat { (g: Field) => if g == f then 1 else 0 }

  function SameFieldInRow(f: Field): Row -> nat { (row: Row) => Total(row, SameField(f)) }

  /** How often exactly this field, with its caption and flag, occurs. */
  function Copies(rows: Rows, f: Field): nat { Total(rows, SameFieldInRow(f)) }

  predicate Rearranges(op: Op) { op.MoveRow? || op.MoveField? || op.AddRow? || op.Choose? }

  /** One rearranging operation keeps every field. */
  lemma MoveConservesFields(e: Editor, op: Op, f: Field)
    requires InRange(e.rows, op) && Rearranges(op)
    ensures Copies(Apply(e, op).rows, f) == Copies(e.rows, f)
  {
    hide MoveAt, Total;
    var rows, perRow := e.rows, SameFieldInRow(f);
    match op
    case AddRow => EmptyRowAdded(rows, f);
    case MoveRow(row, d) => TotalMove(rows, row, d, perRow);
    case MoveField(row, col, d) =>
      TotalMove(rows[row], col, d, SameField(f));
      TotalUpdate(rows, row, MoveAt(rows[row], col, d), perRow);
    case Choose(_, _) =>
  }

  lemma EmptyRowAdded(rows: Rows, f: Field)
    ensures Copies(rows + [[]], f) == Copies(rows, f)
  {
    TotalConcat(rows, [[]], SameFieldInRow(f));
  }

  /** Moving conserves the multiset of fields over any run. */
  lemma {:induction false} MovesConserveFields(schema: seq<string>, e: Editor, ops: seq<Op>, f: Field)
    requires Run(schema, e, ops).Some? && forall op :: op in ops ==> Rearranges(op)
    ensures Copies(Run(schema, e, ops).value.rows, f) == Copies(e.rows, f)
    decreases |ops|
  {
    hide Copies, Apply;
    if ops != [] {
      assert Rearranges(ops[0]) && forall op :: op in ops[1..] ==> op in ops;
      MoveConservesFields(e, ops[0], f);
      MovesConserveFields(schema, Apply(e, ops[0]), ops[1..], f);
    }
  }

  // ------------------------------------------------------------ every order

  /** The result of moving the elements at these places back by one, one after the other. */
  function MovedBack<T>(s: seq<T>, places: seq<nat>): (r: seq<T>)
    requires forall k :: k in places ==> 0 < k < |s|
    ensures |r| == |s|
    decreases |places|
  {
    if places == [] then s
    else
      assert places[0] in places && forall k :: k in places[1..] ==> k in places;
      MovedBack(MoveAt(s, places[0], Back), places[1..])
  }

  lemma {:induction false} MovedBackConcat<T>(s: seq<T>, a: seq<nat>, b: seq<nat>)
    requires (forall k :: k in a ==> 0 < k < |s|) && forall k :: k in b ==> 0 < k < |s|
    ensures (forall k :: k in a + b ==> 0 < k < |s|) && MovedBack(s, a + b) == MovedBack(MovedBack(s, a), b)
    decreases |a|
  {
    hide MoveAt;
    if a == [] {
      assert a + b == b;
    } else {
      assert a[0] in a && (forall k :: k in a[1..] ==> k in a) && (a + b)[1..] == a[1..] + b;
      MoveAtSize(s, a[0]);
      MovedBackConcat(MoveAt(s, a[0], Back), a[1..], b);
    }
  }

  lemma MoveAtSize<T>(s: seq<T>, k: nat)
    requires 0 < k < |s|
    ensures |MoveAt(s, k, Back)| == |s|
  {
  }

  /** The list with the element at `k` taken out and put in at `to`. */
  function MoveUp<T>(s: seq<T>, k: nat, to: nat): seq<T>
    requires to <= k < |s|
  {
    s[..to] + [s[k]] + s[to..k] + s[k + 1..]
  }

  lemma MoveUpStep<T>(s: seq<T>, k: nat, to: nat)
    requires to < k < |s|
    ensures MoveUp(MoveAt(s, k, Back), k - 1, to) == MoveUp(s, k, to)
  {
    var moved := MoveAt(s, k, Back);
    assert moved[..to] == s[..to] && moved[to..k - 1] == s[to..k - 1] && moved[k + 1..] == s[k + 1..];
    assert s[to..k] == s[to..k - 1] + [s[k - 1]] && moved[k..] == [s[k - 1]] + s[k + 1..];
  }

  /** Moves the element at `k` back, one step at a time, until it is at `to`. */
  lemma {:induction false} Bubble<T>(s: seq<T>, k: nat, to: nat) returns (places: seq<nat>)
    requires to <= k < |s|
    ensures |places| == k - to && (forall p :: p in places ==> 0 < p < |s|) && MovedBack(s, places) == MoveUp(s, k, to)
    decreases k
  {
    if k == to {
      assert MoveUp(s, k, k) == s;
      places := [];
    } else {
      MoveUpStep(s, k, to);
      MoveAtSize(s, k);
      hide MoveUp, MoveAt;
      var rest := Bubble(MoveAt(s, k, Back), k - 1, to);
      places := [k] + rest;
      assert places[1..] == rest;
    }
  }

  lemma CancelOne<T>(a: seq<T>, x: T, b: seq<T>, rest: seq<T>)
    requires multiset(a + [x] + b) == multiset([x] + rest)
    ensures multiset(a + b) == multiset(rest)
  {
    assert multiset(a + b) + multiset{x} == multiset(a + [x] + b);
    assert multiset(rest) + multiset{x} == multiset([x] + rest);
    assert multiset(a + b) == multiset(a + b) + multiset{x} - multiset{x};
  }

  lemma TriangleStep(n: nat, k: nat, rest: nat)
    requires 0 < n && k <= n - 1 && 2 * rest <= (n - 1) * (n - 2)
    ensures 2 * (k + rest) <= n * (n - 1)
  {
    assert n * (n - 1) == (n - 1) * (n - 2) + 2 * (n - 1);
  }

  lemma SameSize<T>(a: seq<T>, b: seq<T>)
    requires multiset(a) == multiset(b)
    ensures |a| == |b|
  {
    assert |multiset(a)| == |a| && |multiset(b)| == |b|;
  }

  /** Finds the element that belongs at `done`. */
  lemma Select<T>(s: seq<T>, target: seq<T>, done: nat) returns (k: nat)
    requires done <= |s| && target != [] && multiset(s[done..]) == multiset(target)
    ensures done <= k < |s| && s[k] == target[0]
    ensures multiset(s[done..k] + s[k + 1..]) == multiset(target[1..])
  {
    assert target[0] in multiset(target) && target[0] in s[done..];
    k :| done <= k < |s| && s[k] == target[0];
    assert s[done..] == s[done..k] + [s[k]] + s[k + 1..] && target == [target[0]] + target[1..];
    CancelOne(s[done..k], target[0], s[k + 1..], target[1..]);
  }

  /** Selection sort of the elements from `done` on into the order of `target`. */
  lemma {:induction false} Arrange<T>(s: seq<T>, target: seq<T>, done: nat) returns (places: seq<nat>)
    requires done <= |s| && multiset(s[done..]) == multiset(target)
    ensures 2 * |places| <= |target| * (|target| - 1) && forall p :: p in places ==> 0 < p < |s|
    ensures MovedBack(s, places) == s[..done] + target
    decreases |target|
  {
    hide MovedBack;
    SameSize(s[done..], target);
    if target == [] {
      assert s[..done] + target == s;
      places := [];
      assert MovedBack(s, []) == s by { NoMoves(s); }
    } else {
      var k := Select(s, target, done);
      var first := Bubble(s, k, done);
      var moved := MoveUp(s, k, done);
      MovedUp(s, k, done);
      var rest := Arrange(moved, target[1..], done + 1);
      assert s[..done] + [target[0]] + target[1..] == s[..done] + target;
      MovedBackConcat(s, first, rest);
      TriangleStep(|target|, |first|, |rest|);
      places := first + rest;
    }
  }

  lemma NoMoves<T>(s: seq<T>)
    ensures MovedBack(s, []) == s
  {
  }

  lemma MovedUp<T>(s: seq<T>, k: nat, to: nat)
    requires to <= k < |s|
    ensures |MoveUp(s, k, to)| == |s|
    ensures MoveUp(s, k, to)[to + 1..] == s[to..k] + s[k + 1..]
    ensures MoveUp(s, k, to)[..to + 1] == s[..to] + [s[k]]
  {
  }

  /** Moving rows back, one offered click after the other. */
  lemma {:induction false} RowMoves(schema: seq<string>, e: Editor, places: seq<nat>) returns (ops: seq<Op>)
    requires forall k :: k in places ==> 0 < k < |e.rows|
    ensures |ops| == |places| && forall op: Op :: op in ops ==> op.MoveRow?
    ensures Run(schema, e, ops) == Some(e.(rows := MovedBack(e.rows, places)))
    decreases |places|
  {
    if places == [] {
      ops := [];
    } else {
      var k, op := places[0], MoveRow(places[0], Back);
      assert k in places && forall p :: p in places[1..] ==> p in places;
      MoveAtSize(e.rows, k);
      hide MoveAt, Run;
      var rest := RowMoves(schema, Apply(e, op), places[1..]);
      RunStep(schema, e, op, rest);
      ops := [op] + rest;
    }
  }

  /** Moving the fields of one row back, one offered click after the other. */
  lemma {:induction false} FieldMoves(schema: seq<string>, e: Editor, row: nat, places: seq<nat>) returns (ops: seq<Op>)
    requires row < |e.rows| && forall k :: k in places ==> 0 < k < |e.rows[row]|
    ensures |ops| == |places| && forall op: Op :: op in ops ==> op.MoveField? && op.row == row
    ensures Run(schema, e, ops) == Some(e.(rows := e.rows[row := MovedBack(e.rows[row], places)]))
    decreases |places|
  {
    if places == [] {
      ops := [];
      assert e.rows[row := e.rows[row]] == e.rows;
    } else {
      var k, op := places[0], MoveField(row, places[0], Back);
      assert k in places && forall p :: p in places[1..] ==> p in places;
      MoveAtSize(e.rows[row], k);
      hide MoveAt, Run;
      var next := Apply(e, op);
      var rest := FieldMoves(schema, next, row, places[1..]);
      var moved := MovedBack(next.rows[row], places[1..]);
      assert next.rows[row := moved] == e.rows[row := moved];
      RunStep(schema, e, op, rest);
      ops := [op] + rest;
    }
  }

  /** Any order of n rows is reached by at most n(n-1)/2 offered row moves, every row keeping its contents. */
  lemma AnyRowOrder(schema: seq<string>, e: Editor, target: Rows)
    requires multiset(e.rows) == multiset(target)
    ensures exists ops: seq<Op> :: Run(schema, e, ops) == Some(e.(rows := target))
                                   && 2 * |ops| <= |e.rows| * (|e.rows| - 1)
                                   && forall op: Op :: op in ops ==> op.MoveRow?
  {
    hide Run, MovedBack;
    assert e.rows[0..] == e.rows && e.rows[..0] + target == target;
    SameSize(e.rows, target);
    var places := Arrange(e.rows, target, 0);
    var ops := RowMoves(schema, e, places);
  }

  /** Any order of the n fields of a row is reached by at most n(n-1)/2 offered moves within that row, the other
      rows staying as they are. */
  lemma AnyFieldOrder(schema: seq<string>, e: Editor, row: nat, target: Row)
    requires row < |e.rows| && multiset(e.rows[row]) == multiset(target)
    ensures exists ops: seq<Op> :: Run(schema, e, ops) == Some(e.(rows := e.rows[row := target]))
                                   && 2 * |ops| <= |e.rows[row]| * (|e.rows[row]| - 1)
                                   && forall op: Op :: op in ops ==> op.MoveField? && op.row == row
  {
    hide Run, MovedBack;
    var fields := e.rows[row];
    assert fields[0..] == fields && fields[..0] + target == target;
    SameSize(fields, target);
    var places := Arrange(fields, target, 0);
    var ops := FieldMoves(schema, e, row, places);
  }

  // ------------------------------------------------------------ every layout

  /** A run of fresh, offered operations from `e` to a layout with these rows. */
  ghost predicate Reaches(schema: seq<string>, e: Editor, ops: seq<Op>, rows: Rows) {
    Run(schema, e, ops).Some? && Run(schema, e, ops).value.rows == rows && FreshAdds(schema, e, ops)
  }

  lemma {:induction false} FreshConcat(schema: seq<string>, e: Editor, a: seq<Op>, b: seq<Op>)
    requires Run(schema, e, a).Some? && FreshAdds(schema, e, a) && FreshAdds(schema, Run(schema, e, a).value, b)
    ensures FreshAdds(schema, e, a + b)
    decreases |a|
  {
    if a == [] {
      assert a + b == b;
    } else {
      assert (a + b)[0] == a[0] && (a + b)[1..] == a[1..] + b;
      FreshConcat(schema, Apply(e, a[0]), a[1..], b);
    }
  }

  lemma ReachesConcat(schema: seq<string>, e: Editor, a: seq<Op>, mid: Rows, b: seq<Op>, rows: Rows)
    requires Reaches(schema, e, a, mid) && Reaches(schema, Run(schema, e, a).value, b, rows)
    ensures Reaches(schema, e, a + b, rows)
  {
    RunConcat(schema, e, a, b);
    FreshConcat(schema, e, a, b);
  }

  lemma ReachesOne(schema: seq<string>, e: Editor, op: Op)
    requires Offered(schema, e.rows, op) && (op.AddField? ==> Chosen(e, op.row) in Available(schema, e.rows))
    ensures Reaches(schema, e, [op], Apply(e, op).rows) && Run(schema, e, [op]) == Some(Apply(e, op))
  {
    RunStep(schema, e, op, []);
    assert [op] + [] == [op] && [op][1..] == [];
  }

  lemma {:induction false} ClearReaches(schema: seq<string>, e: Editor) returns (ops: seq<Op>)
    ensures Reaches(schema, e, ops, [])
    decreases |e.rows|
  {
    ops := [];
    if e.rows != [] {
      var rest := ClearReaches(schema, Apply(e, RemoveRow(0)));
      ReachesOne(schema, e, RemoveRow(0));
      ReachesConcat(schema, e, [RemoveRow(0)], Apply(e, RemoveRow(0)).rows, rest, []);
      ops := [RemoveRow(0)] + rest;
    }
  }

  lemma LastCell(before: Rows, row: Row, old': Field, new': Field)
    ensures (before + [row + [old']])[|before| := (row + [old'])[|row| := new']] == before + [row + [new']]
  {
    assert (row + [old'])[|row| := new'] == row + [new'];
  }

  /** Chooses, adds, captions and flags one field at the end of the last row. */
  lemma PlaceReaches(schema: seq<string>, e: Editor, before: Rows, row: Row, f: Field) returns (ops: seq<Op>)
    requires e.rows == before + [row]
    requires f.attribute != "" && f.attribute in Available(schema, e.rows)
    ensures Reaches(schema, e, ops, before + [row + [f]])
  {
    hide Available, Run, FreshAdds;
    var i, j, a := |before|, |row|, f.attribute;
    var e1 := Apply(e, Choose(i, a));
    ReachesOne(schema, e, Choose(i, a));
    var e2 := Apply(e1, AddField(i));
    ReachesOne(schema, e1, AddField(i));
    ReachesConcat(schema, e, [Choose(i, a)], e1.rows, [AddField(i)], e2.rows);
    RunConcat(schema, e, [Choose(i, a)], [AddField(i)]);
    assert e2.rows == before + [row + [Field(a, a, false)]];
    ops := CaptionReaches(schema, e2, before, row, f);
    ReachesConcat(schema, e, [Choose(i, a)] + [AddField(i)], e2.rows, ops, before + [row + [f]]);
    ops := [Choose(i, a)] + [AddField(i)] + ops;
  }

  lemma CaptionReaches(schema: seq<string>, e: Editor, before: Rows, row: Row, f: Field) returns (ops: seq<Op>)
    requires e.rows == before + [row + [Field(f.attribute, f.attribute, false)]]
    ensures Reaches(schema, e, ops, before + [row + [f]])
  {
    hide Run, FreshAdds;
    var i, j, a := |before|, |row|, f.attribute;
    var e1 := Apply(e, SetLabel(i, j, f.caption));
    ReachesOne(schema, e, SetLabel(i, j, f.caption));
    LastCell(before, row, Field(a, a, false), Field(a, f.caption, false));
    ReachesOne(schema, e1, SetRequired(i, j, f.required));
    LastCell(before, row, Field(a, f.caption, false), f);
    ReachesConcat(schema, e, [SetLabel(i, j, f.caption)], e1.rows, [SetRequired(i, j, f.required)], before + [row + [f]]);
    ops := [SetLabel(i, j, f.caption)] + [SetRequired(i, j, f.required)];
  }

  ghost predicate WellFormed(schema: seq<string>, target: Rows) {
    && NoDuplicates(target) && [] !in target
    && forall i, j :: 0 <= i < |target| && 0 <= j < |target[i]| ==>
                        target[i][j].attribute != "" && target[i][j].attribute in schema
  }

  /** In a layout without duplicates, what stands before a field does not show its attribute. */
  lemma NextIsUnused(target: Rows, i: nat, j: nat)
    requires NoDuplicates(target) && i < |target| && j < |target[i]|
    ensures Uses(target[..i] + [target[i][..j]], target[i][j].attribute) == 0
  {
    var a := target[i][j].attribute;
    TotalSplit(target, i, RowCount(a));
    TotalSplit(target[i], j, FieldCount(a));
    TotalConcat(target[..i], [target[i][..j]], RowCount(a));
    assert Uses(target, a) <= 1;
  }

  lemma {:induction false} FillReaches(schema: seq<string>, e: Editor, target: Rows, i: nat, j: nat) returns (ops: seq<Op>)
    requires WellFormed(schema, target) && i < |target| && j <= |target[i]|
    requires e.rows == target[..i] + [target[i][..j]]
    ensures Reaches(schema, e, ops, target[..i + 1])
    decreases |target[i]| - j
  {
    if j == |target[i]| {
      assert target[i][..j] == target[i] && target[..i] + [target[i]] == target[..i + 1];
      ops := [];
    } else {
      var f := target[i][j];
      NextIsUnused(target, i, j);
      AvailableIs(schema, e.rows, f.attribute);
      var place := PlaceReaches(schema, e, target[..i], target[i][..j], f);
      assert target[i][..j] + [f] == target[i][..j + 1];
      var mid := Run(schema, e, place).value;
      var rest := FillReaches(schema, mid, target, i, j + 1);
      ReachesConcat(schema, e, place, mid.rows, rest, target[..i + 1]);
      ops := place + rest;
    }
  }

  lemma {:induction false} BuildReaches(schema: seq<string>, e: Editor, target: Rows, i: nat) returns (ops: seq<Op>)
    requires WellFormed(schema, target) && i <= |target| && e.rows == target[..i]
    ensures Reaches(schema, e, ops, target)
    decreases |target| - i
  {
    if i == |target| {
      assert target[..i] == target;
      ops := [];
    } else {
      var added := Apply(e, AddRow);
      ReachesOne(schema, e, AddRow);
      assert added.rows == target[..i] + [target[i][..0]];
      var fill := FillReaches(schema, added, target, i, 0);
      ReachesConcat(schema, e, [AddRow], added.rows, fill, target[..i + 1]);
      var mid := Run(schema, e, [AddRow] + fill).value;
      var rest := BuildReaches(schema, mid, target, i + 1);
      ReachesConcat(schema, e, [AddRow] + fill, mid.rows, rest, target);
      ops := [AddRow] + fill + rest;
    }
  }

  lemma {:induction false} SavedIs(rows: Rows)
    ensures Saved(rows) == rows <==> [] !in rows
    ensures [] !in Saved(rows) && |Saved(rows)| <= |rows|
  {
    if rows != [] {
      SavedIs(rows[1..]);
      assert rows == [rows[0]] + rows[1..];
    }
  }

  /** Editor completeness: from any layout, every layout of non-empty rows with distinct, non-empty
      schema attributes is reached by offered operations, every added attribute being available when
      it is added, and saving then sends exactly that layout. */
  lemma EditorComplete(schema: seq<string>, e: Editor, target: Rows)
    requires WellFormed(schema, target)
    ensures exists ops :: Reaches(schema, e, ops, target) && Saved(Run(schema, e, ops).value.rows) == target
  {
    var clear := ClearReaches(schema, e);
    var empty := Run(schema, e, clear).value;
    var build := BuildReaches(schema, empty, target, 0);
    ReachesConcat(schema, e, clear, [], build, target);
    SavedIs(target);
    assert Saved(Run(schema, e, clear + build).value.rows) == target;
  }
}
