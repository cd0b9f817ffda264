/**
 * The two list shapes both imports share: the read listener keeps the rows that pass a check and
 * enriches them, in sheet order; the importer then numbers the kept rows from the table's
 * current maximum id with an AtomicInteger.
 */
module RowFilter {
  import opened JavaStrings

  /** The rows that pass `keep`, each passed through `enrich`, in input order. */
  function Select<R>(rows: seq<R>, keep: R -> bool, enrich: R -> R): (out: seq<R>)
    ensures |out| <= |rows|
  {
    if rows == [] then []
    else
      var last := rows[|rows| - 1];
      Select(rows[..|rows| - 1], keep, enrich) + (if keep(last) then [enrich(last)] else [])
  }

  /** The positions of the rows that pass `keep`, in increasing order. */
  function KeptIndices<R>(rows: seq<R>, keep: R -> bool): (ix: seq<int>)
    ensures forall m | 0 <= m < |ix| :: 0 <= ix[m] < |rows| && keep(rows[ix[m]])
    ensures forall m, n | 0 <= m < n < |ix| :: ix[m] < ix[n]
    ensures forall i | 0 <= i < |rows| && keep(rows[i]) :: i in ix
  {
    if rows == [] then []
    else
      var front := rows[..|rows| - 1];
      assert forall i | 0 <= i < |front| :: front[i] == rows[i];
      KeptIndices(front, keep) + (if keep(rows[|rows| - 1]) then [|rows| - 1] else [])
  }

  /**
   * The output of Select is exactly the enriched rows at KeptIndices, in that order: every row
   * that passes is kept, none that fails is, and the sheet order is preserved.
   */
  lemma {:induction false} SelectCharacterized<R>(rows: seq<R>, keep: R -> bool, enrich: R -> R)
    ensures |Select(rows, keep, enrich)| == |KeptIndices(rows, keep)|
    ensures forall m | 0 <= m < |KeptIndices(rows, keep)| ::
      Select(rows, keep, enrich)[m] == enrich(rows[KeptIndices(rows, keep)[m]])
  {
    if rows != [] {
      var front := rows[..|rows| - 1];
      SelectCharacterized(front, keep, enrich);
      assert forall i | 0 <= i < |front| :: front[i] == rows[i];
    }
  }

  /** No position is kept exactly when no row passes `keep`. */
  lemma {:induction false} NoneKept<R>(rows: seq<R>, keep: R -> bool)
    ensures KeptIndices(rows, keep) == [] <==> forall i | 0 <= i < |rows| :: !keep(rows[i])
  {
    if rows != [] {
      var front := rows[..|rows| - 1];
      NoneKept(front, keep);
      assert forall i | 0 <= i < |front| :: front[i] == rows[i];
    }
  }

  /** Every row Select returns is the enrichment of some row of the input that passes `keep`. */
  lemma SelectSound<R>(rows: seq<R>, keep: R -> bool, enrich: R -> R, m: nat)
    requires m < |Select(rows, keep, enrich)|
    ensures exists i | 0 <= i < |rows| :: keep(rows[i]) && Select(rows, keep, enrich)[m] == enrich(rows[i])
  {
    SelectCharacterized(rows, keep, enrich);
    var i := KeptIndices(rows, keep)[m];
    assert keep(rows[i]) && Select(rows, keep, enrich)[m] == enrich(rows[i]);
  }

  /** Selecting from a concatenation selects from each part (one page of the sheet after another). */
  lemma {:induction false} SelectAppend<R>(a: seq<R>, b: seq<R>, keep: R -> bool, enrich: R -> R)
    ensures Select(a + b, keep, enrich) == Select(a, keep, enrich) + Select(b, keep, enrich)
  {
    if b == [] {
      assert a + b == a;
    } else {
      var front := b[..|b| - 1];
      assert (a + b)[..|a + b| - 1] == a + front;
      SelectAppend(a, front, keep, enrich);
    }
  }

  /** Row i gets id maxId + i + 1 as a Java int: the AtomicInteger's i+1-th incrementAndGet. */
  function Numbered<R>(rows: seq<R>, maxId: Int32, setId: (R, Int32) -> R): (keyed: seq<R>)
    ensures |keyed| == |rows|
  {
    seq(|rows|, i requires 0 <= i < |rows| => setId(rows[i], Wrap32(maxId + i + 1)))
  }

  /**
   * Row i is given maxId + i + 1 while that fits in an int; the counter then wraps, so the row
   * after the one numbered Integer.MAX_VALUE is numbered Integer.MIN_VALUE.
   */
  lemma NumberedIds<R>(rows: seq<R>, maxId: Int32, setId: (R, Int32) -> R)
    ensures forall i | 0 <= i < |rows| && maxId + i + 1 <= INT_MAX ::
      Numbered(rows, maxId, setId)[i] == setId(rows[i], maxId + i + 1)
    ensures maxId + |rows| > INT_MAX ==>
      Numbered(rows, maxId, setId)[INT_MAX - maxId] == setId(rows[INT_MAX - maxId], INT_MIN)
  {
    if maxId + |rows| > INT_MAX {
      assert Wrap32(INT_MAX + 1) == INT_MIN;
    }
  }

  /** `id = new AtomicInteger(maxId)` and the loop setting each row's id to `id.incrementAndGet()`. */
  method AssignIds<R>(dataList: seq<R>, maxId: Int32, setId: (R, Int32) -> R) returns (keyed: seq<R>)
    ensures |keyed| == |dataList|
    ensures keyed == Numbered(dataList, maxId, setId)
  {
    var id: Int32 := maxId;
    keyed := [];
    var i := 0;
    while i < |dataList|
      invariant 0 <= i <= |dataList|
      invariant id == Wrap32(maxId + i)
      invariant keyed == Numbered(dataList[..i], maxId, setId)
    {
      IncWrap(maxId + i);
      id := Inc32(id);
      keyed := keyed + [setId(dataList[i], id)];
      i := i + 1;
    }
    assert dataList[..i] == dataList;
  }
}
