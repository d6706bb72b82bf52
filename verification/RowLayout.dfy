/**
 Trace rows and their storage order. The order is an abstract permutation; an interaction mask with
 offset -1 or +1 reads the cyclic neighbour in logical order.
 */
module RowLayout {

  const N_ROWS := 256

  datatype Layout = Layout(physical: seq<nat>, logical: seq<nat>)

  ghost predicate ValidLayout(y: Layout)
  {
    && |y.physical| == |y.logical| == N_ROWS
    && (forall i :: 0 <= i < N_ROWS ==> y.physical[i] < N_ROWS && y.logical[y.physical[i]] == i)
    && (forall r :: 0 <= r < N_ROWS ==> y.logical[r] < N_ROWS && y.physical[y.logical[r]] == r)
  }

  /** The physical row that a mask with this offset reads from physical row r. */
  function Neighbor(y: Layout, r: nat, offset: int): (n: nat)
    requires ValidLayout(y) && r < N_ROWS
    ensures n < N_ROWS
  {
    y.physical[(y.logical[r] + offset) % N_ROWS]
  }

  function NextRow(i: nat): (j: nat)
    requires i < N_ROWS
    ensures j < N_ROWS
  {
    if i == N_ROWS - 1 then 0 else i + 1
  }

  function PrevRow(i: nat): (j: nat)
    requires i < N_ROWS
    ensures j < N_ROWS
  {
    if i == 0 then N_ROWS - 1 else i - 1
  }

  /** The trace in logical order. */
  function LogicalRows<R>(y: Layout, trace: seq<R>): (rows: seq<R>)
    requires ValidLayout(y) && |trace| == N_ROWS
    ensures |rows| == N_ROWS
  {
    seq(N_ROWS, i requires 0 <= i < N_ROWS => trace[y.physical[i]])
  }

  /** A row check that sees the logical row number, the previous row, the row and the next row. */
  type RowCheck<!R> = (nat, R, R, R) -> bool

  ghost predicate HoldsAt<R>(rows: seq<R>, check: RowCheck<R>, i: nat)
    requires |rows| == N_ROWS && i < N_ROWS
  {
    check(i, rows[PrevRow(i)], rows[i], rows[NextRow(i)])
  }

  ghost predicate HoldsOnRows<R>(rows: seq<R>, check: RowCheck<R>)
    requires |rows| == N_ROWS
  {
    forall i :: 0 <= i < N_ROWS ==> HoldsAt(rows, check, i)
  }

  ghost predicate HoldsAtPhysical<R>(y: Layout, trace: seq<R>, check: RowCheck<R>, r: nat)
    requires ValidLayout(y) && |trace| == N_ROWS && r < N_ROWS
  {
    check(y.logical[r], trace[Neighbor(y, r, -1)], trace[r], trace[Neighbor(y, r, 1)])
  }

  /** The check passes on every physical row of the stored trace. */
  ghost predicate HoldsOnTrace<R>(y: Layout, trace: seq<R>, check: RowCheck<R>)
    requires ValidLayout(y) && |trace| == N_ROWS
  {
    forall r :: 0 <= r < N_ROWS ==> HoldsAtPhysical(y, trace, check, r)
  }

  lemma LayoutInvisibleAt<R>(y: Layout, trace: seq<R>, check: RowCheck<R>, i: nat)
    requires ValidLayout(y) && |trace| == N_ROWS && i < N_ROWS
    ensures HoldsAtPhysical(y, trace, check, y.physical[i]) <==> HoldsAt(LogicalRows(y, trace), check, i)
  {
    assert (i - 1) % N_ROWS == PrevRow(i) && (i + 1) % N_ROWS == NextRow(i);
  }

  /** The storage order is invisible to every row check. */
  lemma LayoutInvisible<R>(y: Layout, trace: seq<R>, check: RowCheck<R>)
    requires ValidLayout(y) && |trace| == N_ROWS
    ensures HoldsOnTrace(y, trace, check) <==> HoldsOnRows(LogicalRows(y, trace), check)
  {
    hide HoldsAt, HoldsAtPhysical;
    var rows := LogicalRows(y, trace);
    forall i | 0 <= i < N_ROWS
      ensures HoldsAtPhysical(y, trace, check, y.physical[i]) <==> HoldsAt(rows, check, i)
    {
      LayoutInvisibleAt(y, trace, check, i);
    }
    if HoldsOnRows(rows, check) {
      forall r | 0 <= r < N_ROWS
        ensures HoldsAtPhysical(y, trace, check, r)
      {
        assert HoldsAt(rows, check, y.logical[r]);
      }
    }
  }
}
