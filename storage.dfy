/**
 * The mapper an import talks to (QkzlmbaMapper, LanguageMapper). Their SQL is not part of this
 * model, so the destination table is abstract: the mapper records each call it receives, in order,
 * with what was passed. Which calls throw is fixed when the mapper is made, and getMaxId reports a
 * fixed value.
 */
module Storage {
  import opened Wrappers
  import opened Failures
  import opened JavaStrings

  /** One call on a mapper, with its argument. */
  datatype Call<R> =
    | BackupData(tableName: string)
    | GetMaxId
    | SaveAll(rows: seq<R>)
    | RemoveDuplicates
    /** updateQybm on the qkzlmba mapper, updateSqbm on the language mapper. */
    | UpdateCode
  {
    /** Which of the five mapper operations this call is. */
    function Step(): Op {
      match this
      case BackupData(_) => BackupStep
      case GetMaxId => MaxIdStep
      case SaveAll(_) => SaveStep
      case RemoveDuplicates => DedupStep
      case UpdateCode => UpdateStep
    }
  }

  /** The operations of a call sequence, in order. */
  function Steps<R>(calls: seq<Call<R>>): (ops: seq<Op>)
    ensures |ops| == |calls|
    ensures forall i | 0 <= i < |calls| :: ops[i] == calls[i].Step()
  {
    seq(|calls|, i requires 0 <= i < |calls| => calls[i].Step())
  }

  /** The operations of calls made one after the other are those of each part, in turn. */
  lemma StepsAppend<R>(a: seq<Call<R>>, b: seq<Call<R>>)
    ensures Steps(a + b) == Steps(a) + Steps(b)
  {
    assert forall i | 0 <= i < |a + b| :: Steps(a + b)[i] == (Steps(a) + Steps(b))[i];
  }

  /** What one service call did: the mapper calls it made, in order, and what it returned or threw. */
  datatype Trace<R, T> = Trace(calls: seq<Call<R>>, result: Result<T, Failure>)

  /** The outcome of one mapper operation under a fault set. */
  function StepOutcome(faults: set<Op>, op: Op): (o: Outcome<Failure>)
    ensures o.Fail? <==> op in faults
    ensures o.Fail? ==> o.error == StorageError(op)
  {
    if op in faults then Fail(StorageError(op)) else Pass
  }

  class Mapper<R> {
    /** Every call received so far, oldest first. */
    var log: seq<Call<R>>
    /** The operations that throw. */
    const faults: set<Op>
    /** What getMaxId returns. */
    const maxId: Int32

    constructor (faults: set<Op>, maxId: Int32)
      ensures log == [] && this.faults == faults && this.maxId == maxId
    {
      log := [];
      this.faults := faults;
      this.maxId := maxId;
    }

    /** backupData(tableName): copy the table into a table of that name. */
    method BackupData(tableName: string) returns (o: Outcome<Failure>)
      modifies this
      ensures log == old(log) + [Call.BackupData(tableName)]
      ensures o == StepOutcome(faults, BackupStep)
    {
      log := log + [Call.BackupData(tableName)];
      o := StepOutcome(faults, BackupStep);
    }

    /** getMaxId(): the largest id in the table. */
    method GetMaxId() returns (r: Result<Int32, Failure>)
      modifies this
      ensures log == old(log) + [Call.GetMaxId]
      ensures MaxIdStep in faults ==> r == Failure(StorageError(MaxIdStep))
      ensures MaxIdStep !in faults ==> r == Success(maxId)
    {
      log := log + [Call.GetMaxId];
      r := if MaxIdStep in faults then Failure(StorageError(MaxIdStep)) else Success(maxId);
    }

    /** saveAll(dataList): one multi-row insert. */
    method SaveAll(rows: seq<R>) returns (o: Outcome<Failure>)
      modifies this
      ensures log == old(log) + [Call.SaveAll(rows)]
      ensures o == StepOutcome(faults, SaveStep)
    {
      log := log + [Call.SaveAll(rows)];
      o := StepOutcome(faults, SaveStep);
    }

    /** removeDuplicates(). */
    method RemoveDuplicates() returns (o: Outcome<Failure>)
      modifies this
      ensures log == old(log) + [Call.RemoveDuplicates]
      ensures o == StepOutcome(faults, DedupStep)
    {
      log := log + [Call.RemoveDuplicates];
      o := StepOutcome(faults, DedupStep);
    }

    /** updateQybm() / updateSqbm(): recompute the template's derived code column. */
    method UpdateCode() returns (o: Outcome<Failure>)
      modifies this
      ensures log == old(log) + [Call.UpdateCode]
      ensures o == StepOutcome(faults, UpdateStep)
    {
      log := log + [Call.UpdateCode];
      o := StepOutcome(faults, UpdateStep);
    }
  }
}
