/** The exceptions the import core throws or lets through. */
module Failures {

  /** The five calls an import makes on its mapper (QkzlmbaMapper and LanguageMapper have the same shape). */
  datatype Op = BackupStep | MaxIdStep | SaveStep | DedupStep | UpdateStep

  datatype Failure =
    /** IllegalArgumentException with its message. */
    | IllegalArgument(message: string)
    /** `new RuntimeException(context + ": " + cause.getMessage(), cause)`. */
    | Runtime(context: string, cause: Failure)
    /** Whatever a mapper call throws (the SQL behind it is not part of this model). */
    | StorageError(op: Op)
    /** IOException from the temporary copy of the upload, or an EasyExcel parse failure. */
    | ReadError(reason: string)
}
