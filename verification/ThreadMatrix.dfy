/** The thread-by-column matrix as a value: one row of cells per registered thread, one column per live
    handle. Every operation runs under the thread mutex, or touches only the caller's own cell, so a run is
    a sequence of whole operations. `ThreadRows` has the linked rows that implement this. */
module ThreadMatrix {
  import opened Sequences

  /** Pointers and handlers are numbers; zero is the null pointer. */
  const NULL: nat := 0

  datatype Call = Call(handler: nat, ptr: nat)

  /** Where a pointer was installed, and the handler its column had. */
  datatype Installed = Installed(id: nat, handler: Option<nat>)

  /** `live` holds the ids of the handles in existence; `calls` lists the handler calls made so far and
      `installed` every pointer ever installed. */
  datatype Matrix = Matrix(
    rows: seq<seq<nat>>,
    nextId: nat, freeIds: seq<nat>, handlers: map<nat, nat>,
    live: set<nat>, calls: seq<Call>, installed: map<nat, Installed>)

  function Empty(): Matrix { Matrix([], 0, [], map[], {}, [], map[]) }

  function Cell(cells: seq<nat>, id: nat): nat { if id < |cells| then cells[id] else NULL }

  /** A row long enough to have a cell for id. */
  function Grown(cells: seq<nat>, id: nat): (r: seq<nat>)
    ensures id < |r| && r[id] == Cell(cells, id)
  {
    if |cells| <= id then cells + seq(id + 1 - |cells|, _ => NULL) else cells
  }

  function HandlerOf(handlers: map<nat, nat>, id: nat): Option<nat> {
    if id in handlers then Some(handlers[id]) else None
  }

  // ---- Operations ----

  function NewId(m: Matrix): nat {
    if m.freeIds == [] then m.nextId else m.freeIds[|m.freeIds| - 1]
  }

  function NewColumn(m: Matrix, handler: Option<nat>): Matrix {
    var id := NewId(m);
    m.(nextId := if m.freeIds == [] then m.nextId + 1 else m.nextId,
       freeIds := if m.freeIds == [] then [] else m.freeIds[..|m.freeIds| - 1],
       handlers := if handler.Some? then m.handlers[id := handler.value] else m.handlers - {id},
       live := m.live + {id})
  }

  function Register(m: Matrix): Matrix { m.(rows := [[]] + m.rows) }

  function Touch(m: Matrix, r: nat, id: nat): Matrix
    requires r < |m.rows|
  {
    m.(rows := m.rows[r := Grown(m.rows[r], id)])
  }

  /** The caller's cell, filled with p if it was null. */
  function GetOrInit(m: Matrix, r: nat, id: nat, p: nat): Matrix
    requires r < |m.rows|
  {
    if Cell(m.rows[r], id) != NULL then Touch(m, r, id)
    else m.(rows := m.rows[r := Grown(m.rows[r], id)[id := p]],
            installed := m.installed[p := Installed(id, HandlerOf(m.handlers, id))])
  }

  function CallFor(handler: Option<nat>, p: nat): seq<Call> {
    if p != NULL && handler.Some? then [Call(handler.value, p)] else []
  }

  /** The handler calls for one row, cell by cell. */
  function RowCalls(cells: seq<nat>, handlers: map<nat, nat>): seq<Call> {
    if cells == [] then []
    else RowCalls(cells[..|cells| - 1], handlers) + CallFor(HandlerOf(handlers, |cells| - 1), cells[|cells| - 1])
  }

  function DropRow(m: Matrix, r: nat): Matrix
    requires r < |m.rows|
  {
    m.(rows := m.rows[..r] + m.rows[r + 1..], calls := m.calls + RowCalls(m.rows[r], m.handlers))
  }

  /** The handler calls for one column, row by row. */
  function ColumnCalls(rows: seq<seq<nat>>, id: nat, handler: Option<nat>): seq<Call> {
    if rows == [] then []
    else ColumnCalls(rows[..|rows| - 1], id, handler) + CallFor(handler, Cell(rows[|rows| - 1], id))
  }

  function ClearCell(cells: seq<nat>, id: nat): seq<nat> { if id < |cells| then cells[id := NULL] else cells }

  function ClearColumn(rows: seq<seq<nat>>, id: nat): (r: seq<seq<nat>>)
    ensures |r| == |rows| && forall i :: 0 <= i < |rows| ==> r[i] == ClearCell(rows[i], id)
  {
    if rows == [] then [] else ClearColumn(rows[..|rows| - 1], id) + [ClearCell(rows[|rows| - 1], id)]
  }

  function RemoveColumn(m: Matrix, id: nat): Matrix {
    m.(rows := ClearColumn(m.rows, id),
       freeIds := m.freeIds + [id],
       handlers := m.handlers - {id},
       live := m.live - {id},
       calls := m.calls + ColumnCalls(m.rows, id, HandlerOf(m.handlers, id)))
  }

  // ---- Runs ----

  datatype Action =
    | ANewColumn(handler: Option<nat>)
    | ARegister
    | ATouch(row: nat, id: nat)
    | AGetOrInit(row: nat, id: nat, ptr: nat)
    | ADropRow(row: nat)
    | ARemoveColumn(id: nat)

  /** Handles are used while they live and dropped once; whoever installs brings a pointer of their own. */
  predicate Enabled(m: Matrix, act: Action) {
    match act
    case ANewColumn(_) => true
    case ARegister => true
    case ATouch(r, id) => r < |m.rows| && id in m.live
    case AGetOrInit(r, id, p) => r < |m.rows| && id in m.live && p != NULL && p !in m.installed
    case ADropRow(r) => r < |m.rows|
    case ARemoveColumn(id) => id in m.live
  }

  function Next(m: Matrix, act: Action): Matrix
    requires Enabled(m, act)
  {
    match act
    case ANewColumn(handler) => NewColumn(m, handler)
    case ARegister => Register(m)
    case ATouch(r, id) => Touch(m, r, id)
    case AGetOrInit(r, id, p) => GetOrInit(m, r, id, p)
    case ADropRow(r) => DropRow(m, r)
    case ARemoveColumn(id) => RemoveColumn(m, id)
  }

  ghost predicate Execution(states: seq<Matrix>, acts: seq<Action>) {
    && |states| == |acts| + 1
    && states[0] == Empty()
    && (forall i :: 0 <= i < |acts| ==> Enabled(states[i], acts[i]) && states[i + 1] == Next(states[i], acts[i]))
  }

  // ---- How often a pointer occurs ----

  function CallCount(calls: seq<Call>, p: nat): nat {
    if calls == [] then 0
    else CallCount(calls[..|calls| - 1], p) + (if calls[|calls| - 1].ptr == p then 1 else 0)
  }

  function CellCount(cells: seq<nat>, p: nat): nat {
    if cells == [] then 0
    else CellCount(cells[..|cells| - 1], p) + (if cells[|cells| - 1] == p then 1 else 0)
  }

  function RowsCount(rows: seq<seq<nat>>, p: nat): nat {
    if rows == [] then 0 else RowsCount(rows[..|rows| - 1], p) + CellCount(rows[|rows| - 1], p)
  }

  lemma {:induction false} CallCountConcat(a: seq<Call>, b: seq<Call>, p: nat)
    ensures CallCount(a + b, p) == CallCount(a, p) + CallCount(b, p)
  {
    if b == [] {
      assert a + b == a;
    } else {
      assert (a + b)[..|a + b| - 1] == a + b[..|b| - 1];
      CallCountConcat(a, b[..|b| - 1], p);
    }
  }

  lemma {:induction false} CellCountUpdate(cells: seq<nat>, i: nat, v: nat, p: nat)
    requires i < |cells|
    ensures CellCount(cells[i := v], p) == CellCount(cells, p) - (if cells[i] == p then 1 else 0) + (if v == p then 1 else 0)
  {
    var n := |cells| - 1;
    if i == n {
      assert cells[i := v][..n] == cells[..n];
    } else {
      assert cells[i := v][..n] == cells[..n][i := v];
      CellCountUpdate(cells[..n], i, v, p);
    }
  }

  lemma {:induction false} CellCountGrown(cells: seq<nat>, extra: nat, p: nat)
    requires p != NULL
    ensures CellCount(cells + seq(extra, _ => NULL), p) == CellCount(cells, p)
  {
    var s := cells + seq(extra, _ => NULL);
    if extra == 0 {
      assert s == cells;
    } else {
      assert s[..|s| - 1] == cells + seq(extra - 1, _ => NULL);
      CellCountGrown(cells, extra - 1, p);
    }
  }

  lemma {:induction false} RowsCountUpdate(rows: seq<seq<nat>>, r: nat, cells: seq<nat>, p: nat)
    requires r < |rows|
    ensures RowsCount(rows[r := cells], p) == RowsCount(rows, p) - CellCount(rows[r], p) + CellCount(cells, p)
  {
    var n := |rows| - 1;
    if r == n {
      assert rows[r := cells][..n] == rows[..n];
    } else {
      assert rows[r := cells][..n] == rows[..n][r := cells];
      RowsCountUpdate(rows[..n], r, cells, p);
    }
  }

  lemma {:induction false} RowsCountConcat(a: seq<seq<nat>>, b: seq<seq<nat>>, p: nat)
    ensures RowsCount(a + b, p) == RowsCount(a, p) + RowsCount(b, p)
  {
    if b == [] {
      assert a + b == a;
    } else {
      assert (a + b)[..|a + b| - 1] == a + b[..|b| - 1];
      RowsCountConcat(a, b[..|b| - 1], p);
    }
  }

  lemma {:induction false} CellCountPositive(cells: seq<nat>, i: nat, p: nat)
    requires i < |cells| && cells[i] == p
    ensures CellCount(cells, p) >= 1
  {
    if i < |cells| - 1 { CellCountPositive(cells[..|cells| - 1], i, p); }
  }

  lemma {:induction false} RowsCountPositive(rows: seq<seq<nat>>, r: nat, i: nat, p: nat)
    requires r < |rows| && i < |rows[r]| && rows[r][i] == p
    ensures RowsCount(rows, p) >= 1
  {
    CellCountPositive(rows[r], i, p);
    if r < |rows| - 1 { RowsCountPositive(rows[..|rows| - 1], r, i, p); }
  }

  /** Dropping a row hands over its non-null cells whose columns have handlers, and nothing else. */
  lemma {:induction false} RowCallsCount(cells: seq<nat>, handlers: map<nat, nat>, p: nat, handled: bool)
    requires p != NULL
    requires forall i :: 0 <= i < |cells| && cells[i] == p ==> (i in handlers <==> handled)
    ensures CallCount(RowCalls(cells, handlers), p) == if handled then CellCount(cells, p) else 0
  {
    if cells != [] {
      var n := |cells| - 1;
      assert forall i :: 0 <= i < n ==> cells[..n][i] == cells[i];
      RowCallsCount(cells[..n], handlers, p, handled);
      var last := CallFor(HandlerOf(handlers, n), cells[n]);
      CallCountConcat(RowCalls(cells[..n], handlers), last, p);
      CallForCount(HandlerOf(handlers, n), cells[n], p);
    }
  }

  lemma CallForCount(handler: Option<nat>, c: nat, p: nat)
    requires p != NULL
    ensures CallCount(CallFor(handler, c), p) == if c == p && handler.Some? then 1 else 0
  {
    var s := CallFor(handler, c);
    if s != [] { assert s[..|s| - 1] == []; }
  }

  /** Clearing a column moves each pointer in it from the cells to the calls. */
  lemma {:induction false} ColumnCallsCount(rows: seq<seq<nat>>, id: nat, handler: Option<nat>, p: nat)
    requires p != NULL
    ensures handler.Some? ==>
              RowsCount(ClearColumn(rows, id), p) + CallCount(ColumnCalls(rows, id, handler), p) == RowsCount(rows, p)
    ensures handler.None? ==> CallCount(ColumnCalls(rows, id, handler), p) == 0
    ensures RowsCount(ClearColumn(rows, id), p) <= RowsCount(rows, p)
  {
    if rows != [] {
      var n := |rows| - 1;
      assert ClearColumn(rows, id)[..n] == ClearColumn(rows[..n], id);
      ColumnCallsCount(rows[..n], id, handler, p);
      CallCountConcat(ColumnCalls(rows[..n], id, handler), CallFor(handler, Cell(rows[n], id)), p);
      CallForCount(handler, Cell(rows[n], id), p);
      if id < |rows[n]| { CellCountUpdate(rows[n], id, NULL, p); }
    }
  }

  // ---- The invariant ----

  ghost predicate IdsOk(m: Matrix) {
    && (forall i, j :: 0 <= i < j < |m.freeIds| ==> m.freeIds[i] != m.freeIds[j])
    && (forall id :: id in m.live ==> id < m.nextId && id !in m.freeIds)
    && (forall id :: id in m.freeIds ==> id < m.nextId)
    && (forall id :: 0 <= id < m.nextId && id !in m.live ==> id in m.freeIds)
    && m.handlers.Keys <= m.live
  }

  ghost predicate CellsOk(m: Matrix) {
    forall r, i {:trigger m.rows[r][i]} :: 0 <= r < |m.rows| && 0 <= i < |m.rows[r]| && m.rows[r][i] != NULL ==>
      && i in m.live
      && m.rows[r][i] in m.installed
      && m.installed[m.rows[r][i]] == Installed(i, HandlerOf(m.handlers, i))
  }

  /** Where pointer p is, all in all. */
  ghost predicate LedgerOk(m: Matrix, p: nat) {
    var cells, calls := RowsCount(m.rows, p), CallCount(m.calls, p);
    if p !in m.installed then cells == 0 && calls == 0
    else if m.installed[p].handler.Some? then cells + calls == 1
    else cells <= 1 && calls == 0
  }

  ghost predicate CallsOk(m: Matrix) {
    forall k :: 0 <= k < |m.calls| ==>
      && m.calls[k].ptr in m.installed
      && m.installed[m.calls[k].ptr].handler == Some(m.calls[k].handler)
  }

  ghost predicate Inv(m: Matrix) {
    && IdsOk(m) && CellsOk(m) && CallsOk(m) && NULL !in m.installed
    && (forall p: nat :: p != NULL ==> LedgerOk(m, p))
  }

  lemma InitInv()
    ensures Inv(Empty())
  {
  }

  lemma NewIdIsNew(m: Matrix)
    requires IdsOk(m)
    ensures NewId(m) !in m.live && NewId(m) !in m.handlers
    ensures m.freeIds != [] ==> NewId(m) in m.freeIds
  {
  }

  lemma NewColumnIdsOk(m: Matrix, handler: Option<nat>)
    requires IdsOk(m)
    ensures IdsOk(NewColumn(m, handler))
  {
    var m' := NewColumn(m, handler);
    NewIdIsNew(m);
    if m.freeIds != [] {
      var n := |m.freeIds| - 1;
      assert m.freeIds == m'.freeIds + [NewId(m)];
      assert forall i :: 0 <= i < n ==> m'.freeIds[i] == m.freeIds[i];
      assert NewId(m) !in m'.freeIds;
      assert forall id :: id in m'.freeIds ==> id in m.freeIds;
    }
  }

  lemma NewColumnOk(m: Matrix, handler: Option<nat>)
    requires Inv(m)
    ensures Inv(NewColumn(m, handler))
  {
    var m' := NewColumn(m, handler);
    NewIdIsNew(m);
    NewColumnIdsOk(m, handler);
    forall r, i | 0 <= r < |m'.rows| && 0 <= i < |m'.rows[r]| && m'.rows[r][i] != NULL
      ensures i in m'.live && m'.rows[r][i] in m'.installed
      ensures m'.installed[m'.rows[r][i]] == Installed(i, HandlerOf(m'.handlers, i))
    {
      assert i in m.live && m.rows[r][i] in m.installed;
    }
    forall p: nat | p != NULL ensures LedgerOk(m', p) { assert LedgerOk(m, p); }
  }

  lemma RegisterOk(m: Matrix)
    requires Inv(m)
    ensures Inv(Register(m))
  {
    var m' := Register(m);
    assert forall r :: 0 < r < |m'.rows| ==> m'.rows[r] == m.rows[r - 1];
    forall p: nat | p != NULL ensures LedgerOk(m', p) {
      assert LedgerOk(m, p);
      RowsCountConcat([[]], m.rows, p);
      assert RowsCount([[]], p) == 0;
    }
  }

  lemma TouchCount(m: Matrix, r: nat, id: nat, p: nat)
    requires r < |m.rows| && p != NULL
    ensures RowsCount(Touch(m, r, id).rows, p) == RowsCount(m.rows, p)
  {
    var cells := m.rows[r];
    RowsCountUpdate(m.rows, r, Grown(cells, id), p);
    if |cells| <= id { CellCountGrown(cells, id + 1 - |cells|, p); }
  }

  lemma TouchOk(m: Matrix, r: nat, id: nat)
    requires Inv(m) && r < |m.rows|
    ensures Inv(Touch(m, r, id))
  {
    var m' := Touch(m, r, id);
    forall p: nat | p != NULL ensures LedgerOk(m', p) {
      assert LedgerOk(m, p);
      TouchCount(m, r, id, p);
    }
  }

  lemma InstallOk(m: Matrix, r: nat, id: nat, p: nat)
    requires Inv(m) && Enabled(m, AGetOrInit(r, id, p)) && Cell(m.rows[r], id) == NULL
    ensures Inv(GetOrInit(m, r, id, p))
  {
    var m1 := Touch(m, r, id);
    TouchOk(m, r, id);
    var m' := GetOrInit(m, r, id, p);
    var filled: seq<nat> := m1.rows[r][id := p];
    assert m'.rows == m1.rows[r := filled];
    forall q: nat | q != NULL ensures LedgerOk(m', q) {
      assert LedgerOk(m1, q);
      RowsCountUpdate(m1.rows, r, filled, q);
      CellCountUpdate(m1.rows[r], id, p, q);
    }
    forall i, j | 0 <= i < |m'.rows| && 0 <= j < |m'.rows[i]| && m'.rows[i][j] != NULL
      ensures j in m'.live && m'.rows[i][j] in m'.installed
      ensures m'.installed[m'.rows[i][j]] == Installed(j, HandlerOf(m'.handlers, j))
    {
      assert (i != r || j != id) ==> m'.rows[i][j] == m1.rows[i][j];
    }
  }

  lemma {:induction false} RowCallsFrom(cells: seq<nat>, handlers: map<nat, nat>, k: nat)
    requires k < |RowCalls(cells, handlers)|
    ensures exists i :: 0 <= i < |cells| && cells[i] != NULL && i in handlers &&
                        RowCalls(cells, handlers)[k] == Call(handlers[i], cells[i])
  {
    var n := |cells| - 1;
    var before := RowCalls(cells[..n], handlers);
    if k < |before| {
      RowCallsFrom(cells[..n], handlers, k);
      var i :| 0 <= i < n && cells[..n][i] != NULL && i in handlers && before[k] == Call(handlers[i], cells[..n][i]);
      assert cells[i] == cells[..n][i];
    }
  }

  lemma {:induction false} ColumnCallsFrom(rows: seq<seq<nat>>, id: nat, handler: Option<nat>, k: nat)
    requires k < |ColumnCalls(rows, id, handler)|
    ensures exists r :: 0 <= r < |rows| && Cell(rows[r], id) != NULL && handler.Some? &&
                        ColumnCalls(rows, id, handler)[k] == Call(handler.value, Cell(rows[r], id))
  {
    var n := |rows| - 1;
    var before := ColumnCalls(rows[..n], id, handler);
    if k < |before| {
      ColumnCallsFrom(rows[..n], id, handler, k);
      var r :| 0 <= r < n && Cell(rows[..n][r], id) != NULL && before[k] == Call(handler.value, Cell(rows[..n][r], id));
      assert rows[r] == rows[..n][r];
    }
  }

  lemma DropRowCallsOk(m: Matrix, r: nat)
    requires Inv(m) && r < |m.rows|
    ensures CallsOk(DropRow(m, r))
  {
    var m' := DropRow(m, r);
    var n := |m.calls|;
    forall k | 0 <= k < |m'.calls|
      ensures m'.calls[k].ptr in m.installed && m.installed[m'.calls[k].ptr].handler == Some(m'.calls[k].handler)
    {
      if k >= n {
        RowCallsFrom(m.rows[r], m.handlers, k - n);
        var i :| 0 <= i < |m.rows[r]| && m.rows[r][i] != NULL && i in m.handlers &&
                 m'.calls[k] == Call(m.handlers[i], m.rows[r][i]);
      }
    }
  }

  lemma RowsCountWithout(rows: seq<seq<nat>>, r: nat, p: nat)
    requires r < |rows|
    ensures RowsCount(rows[..r] + rows[r + 1..], p) == RowsCount(rows, p) - CellCount(rows[r], p)
  {
    assert rows == (rows[..r] + [rows[r]]) + rows[r + 1..];
    RowsCountConcat(rows[..r] + [rows[r]], rows[r + 1..], p);
    assert (rows[..r] + [rows[r]])[..r] == rows[..r];
    RowsCountConcat(rows[..r], rows[r + 1..], p);
  }

  lemma DropRowCalls(m: Matrix, r: nat, p: nat)
    requires CellsOk(m) && r < |m.rows| && p != NULL
    ensures CallCount(RowCalls(m.rows[r], m.handlers), p) ==
            if p in m.installed && m.installed[p].handler.Some? then CellCount(m.rows[r], p) else 0
  {
    var handled := p in m.installed && m.installed[p].handler.Some?;
    forall i | 0 <= i < |m.rows[r]| && m.rows[r][i] == p ensures i in m.handlers <==> handled {
      assert m.rows[r][i] in m.installed;
    }
    RowCallsCount(m.rows[r], m.handlers, p, handled);
  }

  /** A dropped row leaves every pointer where the ledger wants it. */
  lemma DropRowCounts(m: Matrix, r: nat, p: nat)
    requires LedgerOk(m, p) && CellsOk(m) && r < |m.rows| && p != NULL
    ensures LedgerOk(DropRow(m, r), p)
    ensures RowsCount(DropRow(m, r).rows, p) == RowsCount(m.rows, p) - CellCount(m.rows[r], p)
  {
    RowsCountWithout(m.rows, r, p);
    DropRowCalls(m, r, p);
    CallCountConcat(m.calls, RowCalls(m.rows[r], m.handlers), p);
  }

  lemma DropRowOk(m: Matrix, r: nat)
    requires Inv(m) && r < |m.rows|
    ensures Inv(DropRow(m, r))
  {
    var m' := DropRow(m, r);
    assert forall i :: 0 <= i < |m'.rows| ==> m'.rows[i] == m.rows[if i < r then i else i + 1];
    DropRowCallsOk(m, r);
    forall p: nat | p != NULL ensures LedgerOk(m', p) {
      assert LedgerOk(m, p);
      DropRowCounts(m, r, p);
    }
  }

  lemma RemoveColumnCallsOk(m: Matrix, id: nat)
    requires Inv(m)
    ensures CallsOk(RemoveColumn(m, id))
  {
    var m' := RemoveColumn(m, id);
    var n := |m.calls|;
    var handler := HandlerOf(m.handlers, id);
    forall k | 0 <= k < |m'.calls|
      ensures m'.calls[k].ptr in m.installed && m.installed[m'.calls[k].ptr].handler == Some(m'.calls[k].handler)
    {
      if k >= n {
        ColumnCallsFrom(m.rows, id, handler, k - n);
        var r :| 0 <= r < |m.rows| && Cell(m.rows[r], id) != NULL && m'.calls[k] == Call(handler.value, Cell(m.rows[r], id));
        assert m.rows[r][id] != NULL;
      }
    }
  }

  /** A column that does not hold p neither hands p over nor loses it. */
  lemma {:induction false} NotInColumn(rows: seq<seq<nat>>, id: nat, handler: Option<nat>, p: nat)
    requires p != NULL && forall r :: 0 <= r < |rows| ==> Cell(rows[r], id) != p
    ensures CallCount(ColumnCalls(rows, id, handler), p) == 0
  {
    if rows != [] {
      var n := |rows| - 1;
      forall r | 0 <= r < n ensures Cell(rows[..n][r], id) != p {
        assert rows[..n][r] == rows[r];
      }
      NotInColumn(rows[..n], id, handler, p);
      CallCountConcat(ColumnCalls(rows[..n], id, handler), CallFor(handler, Cell(rows[n], id)), p);
      CallForCount(handler, Cell(rows[n], id), p);
    }
  }

  lemma {:induction false} NotInColumnCount(rows: seq<seq<nat>>, id: nat, p: nat)
    requires p != NULL && forall r :: 0 <= r < |rows| ==> Cell(rows[r], id) != p
    ensures RowsCount(ClearColumn(rows, id), p) == RowsCount(rows, p)
  {
    if rows != [] {
      var n := |rows| - 1;
      assert ClearColumn(rows, id)[..n] == ClearColumn(rows[..n], id);
      forall r | 0 <= r < n ensures Cell(rows[..n][r], id) != p {
        assert rows[..n][r] == rows[r];
      }
      NotInColumnCount(rows[..n], id, p);
      assert Cell(rows[n], id) != p;
      if id < |rows[n]| { CellCountUpdate(rows[n], id, NULL, p); }
    }
  }

  lemma RemoveColumnLedgerOk(m: Matrix, id: nat, p: nat)
    requires Inv(m) && p != NULL
    ensures LedgerOk(RemoveColumn(m, id), p)
  {
    var handler := HandlerOf(m.handlers, id);
    assert LedgerOk(m, p);
    CallCountConcat(m.calls, ColumnCalls(m.rows, id, handler), p);
    ColumnCallsCount(m.rows, id, handler, p);
    if p !in m.installed || m.installed[p].handler != handler {
      forall r | 0 <= r < |m.rows| ensures Cell(m.rows[r], id) != p {
        assert id < |m.rows[r]| && m.rows[r][id] != NULL ==>
                 m.rows[r][id] in m.installed && m.installed[m.rows[r][id]] == Installed(id, handler);
      }
      NotInColumn(m.rows, id, handler, p);
      NotInColumnCount(m.rows, id, p);
    }
  }

  lemma RemoveColumnOk(m: Matrix, id: nat)
    requires Inv(m) && id in m.live
    ensures Inv(RemoveColumn(m, id))
  {
    var m' := RemoveColumn(m, id);
    RemoveColumnCallsOk(m, id);
    forall p: nat | p != NULL ensures LedgerOk(m', p) { RemoveColumnLedgerOk(m, id, p); }
    RemoveColumnCellsOk(m, id);
    RemoveColumnIdsOk(m, id);
  }

  lemma RemoveColumnCellsOk(m: Matrix, id: nat)
    requires CellsOk(m)
    ensures CellsOk(RemoveColumn(m, id))
  {
    var m' := RemoveColumn(m, id);
    forall r, i | 0 <= r < |m'.rows| && 0 <= i < |m'.rows[r]| && m'.rows[r][i] != NULL
      ensures i in m'.live && m'.rows[r][i] in m'.installed
      ensures m'.installed[m'.rows[r][i]] == Installed(i, HandlerOf(m'.handlers, i))
    {
      assert i != id && m.rows[r][i] == m'.rows[r][i];
    }
  }

  lemma RemoveColumnIdsOk(m: Matrix, id: nat)
    requires IdsOk(m) && id in m.live
    ensures IdsOk(RemoveColumn(m, id))
  {
  }

  lemma NextKeepsInv(m: Matrix, act: Action)
    requires Inv(m) && Enabled(m, act)
    ensures Inv(Next(m, act))
  {
    match act
    case ANewColumn(handler) => NewColumnOk(m, handler);
    case ARegister => RegisterOk(m);
    case ATouch(r, id) => TouchOk(m, r, id);
    case AGetOrInit(r, id, p) =>
      if Cell(m.rows[r], id) == NULL { InstallOk(m, r, id, p); } else { TouchOk(m, r, id); }
    case ADropRow(r) => DropRowOk(m, r);
    case ARemoveColumn(id) => RemoveColumnOk(m, id);
  }

  lemma {:induction false} ReachableInv(states: seq<Matrix>, acts: seq<Action>, i: nat)
    requires Execution(states, acts) && i < |states|
    ensures Inv(states[i])
  {
    if i == 0 {
      InitInv();
    } else {
      ReachableInv(states, acts, i - 1);
      NextKeepsInv(states[i - 1], acts[i - 1]);
    }
  }

  // ---- What the runs promise ----

  ghost predicate InSomeCell(m: Matrix, p: nat) {
    exists r, i :: 0 <= r < |m.rows| && 0 <= i < |m.rows[r]| && m.rows[r][i] == p
  }

  lemma {:induction false} CellWitness(cells: seq<nat>, p: nat) returns (i: nat)
    requires CellCount(cells, p) > 0
    ensures i < |cells| && cells[i] == p
  {
    if cells[|cells| - 1] == p { i := |cells| - 1; } else { i := CellWitness(cells[..|cells| - 1], p); }
  }

  lemma {:induction false} RowsWitness(rows: seq<seq<nat>>, p: nat) returns (r: nat, i: nat)
    requires RowsCount(rows, p) > 0
    ensures r < |rows| && i < |rows[r]| && rows[r][i] == p
  {
    if CellCount(rows[|rows| - 1], p) > 0 {
      r := |rows| - 1;
      i := CellWitness(rows[r], p);
    } else {
      r, i := RowsWitness(rows[..|rows| - 1], p);
    }
  }

  lemma {:induction false} CallWitness(calls: seq<Call>, p: nat) returns (k: nat)
    requires CallCount(calls, p) > 0
    ensures k < |calls| && calls[k].ptr == p
  {
    if calls[|calls| - 1].ptr == p { k := |calls| - 1; } else { k := CallWitness(calls[..|calls| - 1], p); }
  }

  lemma {:induction false} CallCountTwo(calls: seq<Call>, j: nat, k: nat, p: nat)
    requires j < k < |calls| && calls[j].ptr == p == calls[k].ptr
    ensures CallCount(calls, p) >= 2
  {
    var n := |calls| - 1;
    if k < n {
      CallCountTwo(calls[..n], j, k, p);
    } else {
      CallCountOne(calls[..n], j, p);
    }
  }

  lemma {:induction false} CallCountOne(calls: seq<Call>, j: nat, p: nat)
    requires j < |calls| && calls[j].ptr == p
    ensures CallCount(calls, p) >= 1
  {
    if j < |calls| - 1 { CallCountOne(calls[..|calls| - 1], j, p); }
  }

  /** Through any run, a pointer installed in a column that had a handler is handed to that handler at most
      once, never to another, and exactly once if and only if it is in no cell any more. */
  lemma ExactlyOnce(states: seq<Matrix>, acts: seq<Action>, i: nat, p: nat)
    requires Execution(states, acts) && i < |states|
    requires p in states[i].installed && states[i].installed[p].handler.Some?
    ensures var m := states[i]; var h := m.installed[p].handler.value;
            && (Call(h, p) in m.calls <==> !InSomeCell(m, p))
            && (forall j, k :: 0 <= j < k < |m.calls| ==> !(m.calls[j].ptr == p == m.calls[k].ptr))
            && (forall k :: 0 <= k < |m.calls| && m.calls[k].ptr == p ==> m.calls[k].handler == h)
  {
    ReachableInv(states, acts, i);
    var m := states[i];
    assert LedgerOk(m, p);
    forall j, k | 0 <= j < k < |m.calls| ensures !(m.calls[j].ptr == p == m.calls[k].ptr) {
      if m.calls[j].ptr == p == m.calls[k].ptr { CallCountTwo(m.calls, j, k, p); }
    }
    if RowsCount(m.rows, p) > 0 {
      var r, c := RowsWitness(m.rows, p);
      if k :| 0 <= k < |m.calls| && m.calls[k].ptr == p { CallCountOne(m.calls, k, p); }
    } else {
      if InSomeCell(m, p) {
        var r, c :| 0 <= r < |m.rows| && 0 <= c < |m.rows[r]| && m.rows[r][c] == p;
        RowsCountPositive(m.rows, r, c, p);
      }
      var k := CallWitness(m.calls, p);
      assert m.calls[k] == Call(m.installed[p].handler.value, p);
    }
  }

  /** A pointer whose column has no handler is never handed to any. */
  lemma NoHandlerNoCall(states: seq<Matrix>, acts: seq<Action>, i: nat, k: nat)
    requires Execution(states, acts) && i < |states| && k < |states[i].calls|
    ensures var c := states[i].calls[k];
            c.ptr in states[i].installed && states[i].installed[c.ptr].handler == Some(c.handler)
  {
    ReachableInv(states, acts, i);
  }

  lemma {:induction false} NoneInCell(m: Matrix, p: nat)
    requires RowsCount(m.rows, p) == 0
    ensures !InSomeCell(m, p)
  {
    forall r: nat, i: nat | r < |m.rows| && i < |m.rows[r]| ensures m.rows[r][i] != p {
      if m.rows[r][i] == p { RowsCountPositive(m.rows, r, i, p); }
    }
  }

  /** Once a pointer's row is gone, or its column, the pointer is in no cell. */
  lemma RowGone(m: Matrix, r: nat, c: nat)
    requires Inv(m) && r < |m.rows| && c < |m.rows[r]| && m.rows[r][c] != NULL
    ensures !InSomeCell(DropRow(m, r), m.rows[r][c])
  {
    var p := m.rows[r][c];
    assert LedgerOk(m, p);
    DropRowCounts(m, r, p);
    CellCountPositive(m.rows[r], c, p);
    NoneInCell(DropRow(m, r), p);
  }

  lemma ColumnGone(m: Matrix, r: nat, c: nat)
    requires Inv(m) && r < |m.rows| && c < |m.rows[r]| && m.rows[r][c] != NULL && c in m.live
    ensures !InSomeCell(RemoveColumn(m, c), m.rows[r][c])
  {
    var p := m.rows[r][c];
    var m' := RemoveColumn(m, c);
    forall i: nat, j: nat | i < |m'.rows| && j < |m'.rows[i]| ensures m'.rows[i][j] != p {
      assert m'.rows[i] == ClearCell(m.rows[i], c);
      assert m.rows[i][j] != NULL ==> m.installed[m.rows[i][j]].id == j;
      assert m.installed[p].id == c;
    }
  }

  /** So a row or column that goes takes its pointers' last cells with it. */
  lemma GoneFromCells(states: seq<Matrix>, acts: seq<Action>, i: nat, r: nat, c: nat)
    requires Execution(states, acts) && i < |acts| && r < |states[i].rows| && c < |states[i].rows[r]|
    requires states[i].rows[r][c] != NULL && (acts[i] == ADropRow(r) || acts[i] == ARemoveColumn(c))
    ensures !InSomeCell(states[i + 1], states[i].rows[r][c])
  {
    ReachableInv(states, acts, i);
    if acts[i].ADropRow? { RowGone(states[i], r, c); } else { ColumnGone(states[i], r, c); }
  }

  /** Live ids and free ids partition the ids given out, without repetition. A fresh handle never shares its
      id with a live one; even a recycled id has only null cells and exactly the new handler. */
  lemma FreshColumnIsClean(states: seq<Matrix>, acts: seq<Action>, i: nat, handler: Option<nat>)
    requires Execution(states, acts) && i < |states|
    ensures var m := states[i]; var id := NewId(m); var m' := NewColumn(m, handler);
            && (forall d :: 0 <= d < m.nextId <==> d in m.live || d in m.freeIds)
            && (forall d :: !(d in m.live && d in m.freeIds))
            && (forall j, k :: 0 <= j < k < |m.freeIds| ==> m.freeIds[j] != m.freeIds[k])
            && id !in m.live && id in m'.live && id !in m'.freeIds
            && (forall r :: 0 <= r < |m'.rows| ==> Cell(m'.rows[r], id) == NULL)
            && HandlerOf(m'.handlers, id) == handler
            && (forall d :: d != id ==> HandlerOf(m'.handlers, d) == HandlerOf(m.handlers, d))
  {
    ReachableInv(states, acts, i);
    var m := states[i];
    NewIdIsNew(m);
    NewColumnIdsOk(m, handler);
    forall r | 0 <= r < |m.rows| ensures Cell(m.rows[r], NewId(m)) == NULL {
      assert NewId(m) < |m.rows[r]| ==> m.rows[r][NewId(m)] == NULL;
    }
  }

  /** A column gets an id never given out before exactly if all ids given out are live; otherwise it gets a free one. */
  lemma IdsAreReused(states: seq<Matrix>, acts: seq<Action>, i: nat, handler: Option<nat>)
    requires Execution(states, acts) && i < |states|
    ensures var m := states[i]; var id, m' := NewId(m), NewColumn(m, handler);
            if forall d :: 0 <= d < m.nextId ==> d in m.live then id == m.nextId && m'.nextId == m.nextId + 1
            else id < m.nextId && id in m.freeIds && m'.nextId == m.nextId
  {
    ReachableInv(states, acts, i);
    var m := states[i];
    if m.freeIds != [] { assert NewId(m) in m.freeIds && NewId(m) !in m.live; }
  }

  /** A torn-down row's pointers go to their handlers in cell order: what the first k cells call for comes first. */
  lemma {:induction false} RowCallsInOrder(cells: seq<nat>, handlers: map<nat, nat>, k: nat)
    requires k <= |cells|
    ensures RowCalls(cells[..k], handlers) <= RowCalls(cells, handlers)
    decreases |cells|
  {
    if k < |cells| {
      var front := cells[..|cells| - 1];
      RowCallsInOrder(front, handlers, k);
      assert front[..k] == cells[..k];
    } else {
      assert cells[..k] == cells;
    }
  }

  /** And a dropped column's in row order. */
  lemma {:induction false} ColumnCallsInOrder(rows: seq<seq<nat>>, id: nat, handler: Option<nat>, k: nat)
    requires k <= |rows|
    ensures ColumnCalls(rows[..k], id, handler) <= ColumnCalls(rows, id, handler)
    decreases |rows|
  {
    if k < |rows| {
      var front := rows[..|rows| - 1];
      ColumnCallsInOrder(front, id, handler, k);
      assert front[..k] == rows[..k];
    } else {
      assert rows[..k] == rows;
    }
  }

  /** A thread's cell is filled once: later accesses of the same live column find the first pointer. */
  lemma FirstInstallWins(m: Matrix, r: nat, id: nat, p: nat, q: nat)
    requires r < |m.rows| && p != NULL
    ensures var m' := GetOrInit(m, r, id, p);
            && Cell(m'.rows[r], id) == (if Cell(m.rows[r], id) == NULL then p else Cell(m.rows[r], id))
            && GetOrInit(m', r, id, q) == m'
            && (forall s, d :: 0 <= s < |m.rows| && d >= 0 && (s != r || d != id) ==> Cell(m'.rows[s], d) == Cell(m.rows[s], d))
  {
    var m' := GetOrInit(m, r, id, p);
    assert m'.rows[r := m'.rows[r]] == m'.rows;
  }
}
