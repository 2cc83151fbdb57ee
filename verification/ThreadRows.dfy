/** The rows of the thread-by-column matrix as the engine keeps them: one object per thread in an intrusive
    circular list behind a sentinel, its cells in a vector that grows on demand. Each method is one step of
    `ThreadMatrix`. */
module ThreadRows {
  import opened ThreadMatrix
  import opened Sequences

  class ThreadData {
    var next: ThreadData?
    var prev: ThreadData?
    var entries: seq<nat>
    var registered: bool

    constructor ()
      ensures next == null && prev == null && entries == [] && !registered
    {
      next, prev, entries, registered := null, null, [], false;
    }
  }

  // ---- The circle ----

  function Succ(i: nat, n: nat): nat { if i + 1 == n then 0 else i + 1 }

  ghost predicate Linked(ring: seq<ThreadData>, i: nat)
    requires i < |ring|
    reads ring`next, ring`prev
  {
    ring[i].next == ring[Succ(i, |ring|)] && ring[Succ(i, |ring|)].prev == ring[i]
  }

  /** The objects form one circle in this order, backwards as well as forwards. */
  ghost predicate Circular(ring: seq<ThreadData>)
    reads ring`next, ring`prev
  {
    Distinct(ring) && forall i: nat :: i < |ring| ==> Linked(ring, i)
  }

  /** Puts a new row right behind the sentinel. */
  method LinkBehind(head: ThreadData, td: ThreadData, ghost ring: seq<ThreadData>)
    requires Circular(ring) && |ring| > 0 && ring[0] == head && td !in ring
    modifies ring`next, ring`prev, td`next, td`prev
    ensures Circular([head, td] + ring[1..])
  {
    assert Linked(ring, 0);
    var first := head.next;
    td.prev := head;
    td.next := first;
    first.prev := td;
    head.next := td;
    forall i: nat | 0 < i < |ring| ensures Linked(ring, i) {
      assert old(Linked(ring, i)) && ring[Succ(i, |ring|)] != first;
    }
    LinkedBehind(ring, td);
  }

  lemma LinkedBehind(ring: seq<ThreadData>, td: ThreadData)
    requires Distinct(ring) && |ring| > 0 && td !in ring
    requires forall i: nat :: 0 < i < |ring| ==> Linked(ring, i)
    requires ring[0].next == td && td.prev == ring[0]
    requires td.next == ring[Succ(0, |ring|)] && ring[Succ(0, |ring|)].prev == td
    ensures Circular([ring[0], td] + ring[1..])
  {
    var n, ring' := |ring|, [ring[0], td] + ring[1..];
    forall i: nat | i < n + 1 ensures Linked(ring', i) {
      if i >= 2 {
        assert ring'[i] == ring[i - 1] && ring'[Succ(i, n + 1)] == ring[Succ(i - 1, n)];
        assert Linked(ring, i - 1);
      }
    }
  }

  /** Takes one row out of the circle. */
  method Unlink(td: ThreadData, ghost ring: seq<ThreadData>, ghost k: nat)
    requires Circular(ring) && 0 < k < |ring| && ring[k] == td
    modifies ring`next, ring`prev
    ensures Circular(ring[..k] + ring[k + 1..])
    ensures td.next == null && td.prev == null
  {
    assert Linked(ring, k - 1) && Linked(ring, k);
    var prev, next := td.prev, td.next;
    prev.next := next;
    next.prev := prev;
    td.next := null;
    td.prev := null;
    forall i: nat | i < |ring| && i != k - 1 && i != k ensures Linked(ring, i) {
      assert old(Linked(ring, i)) && ring[i] != prev && ring[i] != td && ring[Succ(i, |ring|)] != next && ring[Succ(i, |ring|)] != td;
    }
    Unlinked(ring, k);
  }

  lemma Unlinked(ring: seq<ThreadData>, k: nat)
    requires Distinct(ring) && 0 < k < |ring|
    requires forall i: nat :: i < |ring| && i != k - 1 && i != k ==> Linked(ring, i)
    requires ring[k - 1].next == ring[Succ(k, |ring|)] && ring[Succ(k, |ring|)].prev == ring[k - 1]
    ensures Circular(ring[..k] + ring[k + 1..])
  {
    var n, rest := |ring|, ring[..k] + ring[k + 1..];
    Without(ring, k);
    forall i: nat | i < n - 1 ensures Linked(rest, i) {
      var j: nat := if i < k then i else i + 1;
      assert rest[i] == ring[j];
      assert rest[Succ(i, n - 1)] == ring[if i == k - 1 then Succ(k, n) else Succ(j, n)];
      assert i != k - 1 ==> Linked(ring, j);
    }
  }

  /** The rows' cells are these. */
  ghost predicate Mirrored(rows: seq<ThreadData>, cells: seq<seq<nat>>)
    reads rows`entries
  {
    |cells| == |rows| && forall r :: 0 <= r < |rows| ==> rows[r].entries == cells[r]
  }

  /** A row behind the sentinel comes before the other rows. */
  lemma RowInFront(head: ThreadData, td: ThreadData, rows: seq<ThreadData>, cells: seq<seq<nat>>)
    requires Mirrored(rows, cells) && td.entries == []
    ensures [head, td] + ([head] + rows)[1..] == [head] + ([td] + rows)
    ensures Mirrored([td] + rows, [[]] + cells)
  {
  }

  lemma Without(rows: seq<ThreadData>, r: nat)
    requires Distinct(rows) && r < |rows|
    ensures Distinct(rows[..r] + rows[r + 1..]) && rows[r] !in rows[..r] + rows[r + 1..]
  {
    var left := rows[..r] + rows[r + 1..];
    assert forall i :: 0 <= i < |left| ==> left[i] == rows[if i < r then i else i + 1];
  }

  // ---- The matrix ----

  class ThreadMeta {
    const head: ThreadData
    var handlers: map<nat, nat>
    var nextTlsId: nat
    var freeIds: seq<nat>
    ghost var rows: seq<ThreadData>
    ghost var cells: seq<seq<nat>>
    ghost var live: set<nat>
    ghost var calls: seq<Call>
    ghost var installed: map<nat, Installed>

    ghost function View(): Matrix
      reads this
    {
      Matrix(cells, nextTlsId, freeIds, handlers, live, calls, installed)
    }

    ghost predicate RingOk()
      reads this`rows, head`next, head`prev, rows`next, rows`prev, rows`registered
    {
      && head !in rows && Distinct(rows)
      && Circular([head] + rows)
      && (forall td :: td in rows ==> td.registered)
    }

    ghost predicate Valid()
      reads this`rows, this`cells, head`next, head`prev, rows`next, rows`prev, rows`registered, rows`entries
    {
      RingOk() && Mirrored(rows, cells)
    }

    /** The place of a registered row in the list. */
    ghost function RowOf(td: ThreadData): (r: nat)
      requires td in rows
      reads this`rows
      ensures r < |rows| && rows[r] == td
    {
      var r :| 0 <= r < |rows| && rows[r] == td;
      r
    }

    /** A thread uses its row until it tears it down, and an unregistered row is empty. */
    ghost predicate Usable(td: ThreadData)
      reads this, td
    {
      && td != head
      && (td.registered ==> td in rows)
      && (!td.registered ==> td !in rows && td.entries == [])
    }

    /** The matrix once td is registered. */
    ghost function WithRow(td: ThreadData): (m: Matrix)
      requires Usable(td) && |cells| == |rows|
      reads this, td
      ensures |m.rows| == if td.registered then |rows| else |rows| + 1
    {
      if td.registered then View() else Register(View())
    }

    constructor ()
      ensures Valid() && View() == Empty() && fresh(head)
    {
      var sentinel := new ThreadData();
      head := sentinel;
      handlers, nextTlsId, freeIds := map[], 0, [];
      rows, cells, live, calls, installed := [], [], {}, [], map[];
      new;
      head.next := head;
      head.prev := head;
    }

    /** `new_with_handler`: a recycled id if there is one, else the next unused. */
    method NewWithHandler(handler: Option<nat>) returns (id: nat)
      requires Valid()
      modifies this
      ensures Valid() && rows == old(rows)
      ensures id == NewId(old(View())) && View() == NewColumn(old(View()), handler)
    {
      if freeIds != [] {
        id := freeIds[|freeIds| - 1];
        freeIds := freeIds[..|freeIds| - 1];
      } else {
        id := nextTlsId;
        nextTlsId := nextTlsId + 1;
      }
      if handler.Some? {
        handlers := handlers[id := handler.value];
      } else {
        handlers := handlers - {id};
      }
      live := live + {id};
    }

    /** `ensure_registered`: an unregistered row goes right behind the sentinel. */
    method EnsureRegistered(td: ThreadData)
      requires Valid() && Usable(td)
      modifies this`rows, this`cells, head`next, head`prev, rows`next, rows`prev, td`next, td`prev, td`registered
      ensures Valid() && td in rows
      ensures rows == if old(td.registered) then old(rows) else [td] + old(rows)
      ensures View() == old(WithRow(td))
      ensures td.entries == old(td.entries)
    {
      if td.registered { return; }
      LinkBehind(head, td, [head] + rows);
      td.registered := true;
      RowInFront(head, td, rows, cells);
      rows := [td] + rows;
      cells := [[]] + cells;
    }

    /** `with_tlp_ptr`: registers the row if need be and makes sure it has a cell for id. */
    method WithTlpPtr(td: ThreadData, id: nat)
      requires Valid() && Usable(td)
      modifies this`rows, this`cells, head`next, head`prev, rows`next, rows`prev, td
      ensures Valid() && td in rows && td.entries == Grown(old(td.entries), id)
      ensures rows == if old(td.registered) then old(rows) else [td] + old(rows)
      ensures View() == Touch(old(WithRow(td)), RowOf(td), id)
    {
      EnsureRegistered(td);
      if |td.entries| <= id {
        td.entries := td.entries + seq(id + 1 - |td.entries|, _ => NULL);
      }
      CellsFollow(td);
      cells := cells[RowOf(td) := td.entries];
    }

    /** Only one row's cells can have changed. */
    lemma CellsFollow(td: ThreadData)
      requires RingOk() && td in rows && |cells| == |rows|
      requires forall r :: 0 <= r < |rows| && rows[r] != td ==> rows[r].entries == cells[r]
      ensures Mirrored(rows, cells[RowOf(td) := td.entries])
    {
    }

    /** The caller's cell, filled with p if it was null. */
    method FillCell(td: ThreadData, id: nat, p: nat) returns (q: nat)
      requires Valid() && td in rows && id < |td.entries|
      modifies this`installed, this`cells, td`entries
      ensures Valid()
      ensures View() == ThreadMatrix.GetOrInit(old(View()), RowOf(td), id, p)
      ensures q == td.entries[id] == if old(td.entries[id]) == NULL then p else old(td.entries[id])
    {
      q := td.entries[id];
      if q == NULL {
        td.entries := td.entries[id := p];
        installed := installed[p := Installed(id, HandlerOf(handlers, id))];
        q := p;
      }
      cells := cells[RowOf(td) := td.entries];
    }

    /** `get_or_init`: the pointer in the caller's cell, installed first if there was none. */
    method GetOrInit(td: ThreadData, id: nat, p: nat) returns (q: nat)
      requires Valid() && Usable(td)
      modifies this`rows, this`cells, this`installed, head`next, head`prev, rows`next, rows`prev, td
      ensures Valid() && td in rows
      ensures rows == if old(td.registered) then old(rows) else [td] + old(rows)
      ensures View() == ThreadMatrix.GetOrInit(old(WithRow(td)), RowOf(td), id, p)
      ensures q == Cell(td.entries, id) == if Cell(old(td.entries), id) == NULL then p else Cell(old(td.entries), id)
    {
      ghost var m := WithRow(td);
      WithTlpPtr(td, id);
      TouchThenInit(m, RowOf(td), id, p);
      q := FillCell(td, id, p);
    }

    /** The loop of `drop_row` over an unlinked row: every cell is nulled, and what was in it goes to its
        column's handler if there is one. */
    method ClearRow(td: ThreadData)
      modifies this`calls, td`entries
      ensures |td.entries| == |old(td.entries)| && forall i :: 0 <= i < |td.entries| ==> td.entries[i] == NULL
      ensures calls == old(calls) + RowCalls(old(td.entries), handlers)
    {
      ghost var was := td.entries;
      var idx := 0;
      while idx < |td.entries|
        invariant 0 <= idx <= |td.entries| == |was|
        invariant forall i :: 0 <= i < idx ==> td.entries[i] == NULL
        invariant forall i :: idx <= i < |was| ==> td.entries[i] == was[i]
        invariant calls == old(calls) + RowCalls(was[..idx], handlers)
      {
        var ptr := td.entries[idx];
        td.entries := td.entries[idx := NULL];
        assert was[..idx + 1][..idx] == was[..idx];
        if ptr != NULL {
          if idx in handlers {
            calls := calls + [Call(handlers[idx], ptr)];
          }
        }
        idx := idx + 1;
      }
      assert was[..idx] == was;
    }

    /** The unlinking of `drop_row`. */
    method UnlinkRow(td: ThreadData)
      requires Valid() && td in rows
      modifies this`rows, this`cells, head`next, head`prev, rows`next, rows`prev
      ensures Valid() && td !in rows && td.next == null && td.prev == null
      ensures rows == old(rows)[..old(RowOf(td))] + old(rows)[old(RowOf(td)) + 1..]
      ensures cells == old(cells)[..old(RowOf(td))] + old(cells)[old(RowOf(td)) + 1..]
    {
      ghost var r := RowOf(td);
      ghost var ring := [head] + rows;
      Unlink(td, ring, r + 1);
      Without(rows, r);
      assert ring[..r + 1] + ring[r + 2..] == [head] + (rows[..r] + rows[r + 1..]);
      rows := rows[..r] + rows[r + 1..];
      cells := cells[..r] + cells[r + 1..];
    }

    /** `drop_row`: the row leaves the list and its pointers go to their columns' handlers. */
    method DropRow(td: ThreadData)
      requires Valid() && td in rows
      modifies this`rows, this`cells, this`calls, head`next, head`prev, rows`next, rows`prev, td`entries
      ensures Valid() && td !in rows && td.next == null && td.prev == null
      ensures forall i :: 0 <= i < |td.entries| ==> td.entries[i] == NULL
      ensures rows == old(rows)[..old(RowOf(td))] + old(rows)[old(RowOf(td)) + 1..]
      ensures View() == ThreadMatrix.DropRow(old(View()), old(RowOf(td)))
    {
      UnlinkRow(td);
      ClearRow(td);
    }

    /** `remove_column`: every row's cell of the column is cleared, its pointers go to the column's handler,
        and the id is free again. */
    method RemoveColumn(id: nat)
      requires Valid() && id in live
      modifies this`handlers, this`freeIds, this`live, this`calls, this`cells, rows`entries
      ensures Valid() && rows == old(rows)
      ensures View() == ThreadMatrix.RemoveColumn(old(View()), id)
    {
      var handler := HandlerOf(handlers, id);
      handlers := handlers - {id};
      ClearColumnCells(id, handler);
      freeIds := freeIds + [id];
      live := live - {id};
    }

    /** One row of that. */
    method ClearRowCell(td: ThreadData, id: nat, handler: Option<nat>)
      modifies this`calls, td`entries
      ensures td.entries == ClearCell(old(td.entries), id)
      ensures calls == old(calls) + CallFor(handler, Cell(old(td.entries), id))
    {
      if |td.entries| <= id { return; }
      var ptr := td.entries[id];
      td.entries := td.entries[id := NULL];
      if ptr != NULL && handler.Some? {
        calls := calls + [Call(handler.value, ptr)];
      }
    }

    /** One turn of the walk over a column. */
    method ClearNext(ghost k: nat, td: ThreadData, id: nat, handler: Option<nat>)
      requires Valid() && k < |rows| && rows[k] == td
      modifies this`calls, this`cells, td`entries
      ensures Valid()
      ensures cells == old(cells)[k := ClearCell(old(cells)[k], id)]
      ensures calls == old(calls) + CallFor(handler, Cell(old(cells)[k], id))
    {
      ClearRowCell(td, id, handler);
      cells := cells[k := td.entries];
    }

    /** The walk of `remove_column` round the circle. */
    method ClearColumnCells(id: nat, handler: Option<nat>)
      requires Valid()
      modifies this`calls, this`cells, rows`entries
      ensures Valid()
      ensures cells == ClearColumn(old(cells), id)
      ensures calls == old(calls) + ColumnCalls(old(cells), id, handler)
    {
      ghost var was := cells;
      ghost var ring := [head] + rows;
      assert Linked(ring, 0);
      var next := head.next;
      ghost var i := 0;
      while next != head
        invariant i <= |rows| && next == ring[Succ(i, |rows| + 1)]
        invariant Valid() && Cleared(was, cells, old(calls), calls, i, id, handler)
        decreases |rows| - i
      {
        var current := next;
        assert current == rows[i] == ring[i + 1];
        assert Linked(ring, i + 1);
        next := current.next;
        ClearedMore(was, cells, old(calls), calls, i, id, handler);
        ClearNext(i, current, id, handler);
        i := i + 1;
      }
      assert was[..i] == was;
      assert cells == ClearColumn(was, id);
    }
  }

  /** The first k rows of a walk over a column have been done. */
  ghost predicate Cleared(was: seq<seq<nat>>, cells: seq<seq<nat>>, before: seq<Call>, calls: seq<Call>,
                          k: nat, id: nat, handler: Option<nat>) {
    && k <= |cells| == |was|
    && (forall r :: 0 <= r < |was| ==> cells[r] == if r < k then ClearCell(was[r], id) else was[r])
    && calls == before + ColumnCalls(was[..k], id, handler)
  }

  lemma ClearedMore(was: seq<seq<nat>>, cells: seq<seq<nat>>, before: seq<Call>, calls: seq<Call>,
                    k: nat, id: nat, handler: Option<nat>)
    requires Cleared(was, cells, before, calls, k, id, handler) && k < |was|
    ensures Cleared(was, cells[k := ClearCell(cells[k], id)], before, calls + CallFor(handler, Cell(cells[k], id)),
                    k + 1, id, handler)
  {
    ColumnCallsStep(was, k, id, handler);
  }

  lemma ColumnCallsStep(rows: seq<seq<nat>>, i: nat, id: nat, handler: Option<nat>)
    requires i < |rows|
    ensures ColumnCalls(rows[..i + 1], id, handler) ==
            ColumnCalls(rows[..i], id, handler) + CallFor(handler, Cell(rows[i], id))
  {
    assert rows[..i + 1][..i] == rows[..i];
  }

  lemma TouchThenInit(m: Matrix, r: nat, id: nat, p: nat)
    requires r < |m.rows|
    ensures GetOrInit(Touch(m, r, id), r, id, p) == GetOrInit(m, r, id, p)
  {
    var t := Touch(m, r, id);
    assert t.rows[r := t.rows[r]] == t.rows;
    var cells: seq<nat> := Grown(m.rows[r], id)[id := p];
    assert t.rows[r := cells] == m.rows[r := cells];
  }
}
