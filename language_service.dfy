/**
 * LanguageServiceImpl: reading and importing the zd_language template.
 * A row is kept when both its Chinese text and its translation are non-blank; its sqbm is then set
 * to "-2". Unlike the qkzlmba import, reading makes no mapper call, and an import with no kept row
 * still numbers, saves (an empty list), removes duplicates and recomputes sqbm.
 */
module LanguageImport {
  import opened Wrappers
  import opened Failures
  import opened JavaStrings
  import opened Beans
  import opened RowFilter
  import opened ExcelUtil
  import opened Storage
  import opened BackupNames
  import opened TemplateTypes
  import opened ServiceFactory

  const BACKUP_PREFIX := "zd_language_"
  const READ_FAILED := "读取Excel文件失败"
  const SAVE_FAILED := "批量保存数据失败"
  /** The community code every imported row gets. */
  const IMPORTED_SQBM := "-2"

  /** The listener's check: chinese and other are both non-blank. */
  predicate Required(row: LanguagePO)
    ensures Required(row) ==> row.chinese.Some? && row.other.Some?
    ensures Required(row) ==> |row.chinese.value| > 0 && |row.other.value| > 0
  {
    !IsBlank(row.chinese) && !IsBlank(row.other)
  }

  /** `data.setSqbm("-2")`. */
  function WithSqbm(row: LanguagePO): (marked: LanguagePO)
    ensures marked.sqbm == Some(IMPORTED_SQBM)
    ensures marked.(sqbm := row.sqbm) == row
  {
    row.(sqbm := Some(IMPORTED_SQBM))
  }

  /** The rows the read listener collects from a sheet. */
  function ValidRows(rows: seq<LanguagePO>): (kept: seq<LanguagePO>)
    ensures |kept| == |KeptIndices(rows, Required)| <= |rows|
  {
    SelectCharacterized(rows, Required, WithSqbm);
    Select(rows, Required, WithSqbm)
  }

  /** The listener collects nothing exactly when no row passes the check. */
  lemma NoneValid(rows: seq<LanguagePO>)
    ensures ValidRows(rows) == [] <==> forall i | 0 <= i < |rows| :: !Required(rows[i])
  {
    NoneKept(rows, Required);
  }

  /** `data.setId(id)`. */
  function SetId(row: LanguagePO, id: Int32): LanguagePO {
    row.(id := Some(id))
  }

  /**
   * The rows kept are exactly those at KeptIndices (both texts non-blank), in sheet order, each
   * with sqbm "-2" and nothing else changed.
   */
  lemma ValidRowsExactly(rows: seq<LanguagePO>)
    ensures |ValidRows(rows)| == |KeptIndices(rows, Required)|
    ensures forall m | 0 <= m < |KeptIndices(rows, Required)| ::
      ValidRows(rows)[m] == rows[KeptIndices(rows, Required)[m]].(sqbm := Some(IMPORTED_SQBM))
    ensures forall i | 0 <= i < |rows| :: Required(rows[i]) <==> i in KeptIndices(rows, Required)
  {
    SelectCharacterized(rows, Required, WithSqbm);
  }

  /** Every kept row has both texts non-blank and sqbm "-2". */
  lemma ValidRowsComplete(rows: seq<LanguagePO>, m: nat)
    requires m < |ValidRows(rows)|
    ensures Required(ValidRows(rows)[m]) && ValidRows(rows)[m].sqbm == Some(IMPORTED_SQBM)
  {
    ValidRowsExactly(rows);
  }

  /**
   * readExcel: validate the upload (its IllegalArgumentException escapes as it is), read the
   * sheet, wrapping a read failure in RuntimeException, and return the kept rows.
   */
  function ReadSpec(file: Option<MultipartFile<LanguagePO>>): (r: Result<seq<LanguagePO>, Failure>)
    ensures ValidateMultipartFile(file).Fail? ==> r == Failure(ValidateMultipartFile(file).error)
    ensures r.Success? <==> (ValidateMultipartFile(file).Pass? && file.value.content.Rows?)
    ensures r.Success? ==> r.value == ValidRows(file.value.content.rows)
    ensures ValidateMultipartFile(file).Pass? && file.value.content.Unreadable? ==>
      r == Failure(Runtime(READ_FAILED, ReadError(file.value.content.reason)))
  {
    match ValidateMultipartFile(file)
    case Fail(e) => Failure(e)
    case Pass =>
      match file.value.content
      case Unreadable(why) => Failure(Runtime(READ_FAILED, ReadError(why)))
      case Rows(rows) => Success(ValidRows(rows))
  }

  /** importExcel, with today's date given. */
  function ImportSpec(file: Option<MultipartFile<LanguagePO>>, today: Date, faults: set<Op>, maxId: Int32)
    : (t: Trace<LanguagePO, int>)
    requires ValidDate(today)
    ensures |t.calls| >= 1 && t.calls[0] == BackupData(BackupTableName(BACKUP_PREFIX, today))
    ensures t.result.Success? ==> (file.Some? && file.value.content.Rows?
      && t.result.value == |ValidRows(file.value.content.rows)|)
  {
    var backup := BackupData(BackupTableName(BACKUP_PREFIX, today));
    if BackupStep in faults then Trace([backup], Failure(StorageError(BackupStep)))
    else
      match ReadSpec(file)
      case Failure(e) => Trace([backup], Failure(e))
      case Success(dataList) =>
        if MaxIdStep in faults then Trace([backup, GetMaxId], Failure(StorageError(MaxIdStep)))
        else
          var saved := [backup, GetMaxId, SaveAll(Numbered(dataList, maxId, SetId))];
          if SaveStep in faults then Trace(saved, Failure(Runtime(SAVE_FAILED, StorageError(SaveStep))))
          else if DedupStep in faults then Trace(saved + [RemoveDuplicates], Failure(StorageError(DedupStep)))
          else if UpdateStep in faults then
            Trace(saved + [RemoveDuplicates, UpdateCode], Failure(StorageError(UpdateStep)))
          else Trace(saved + [RemoveDuplicates, UpdateCode], Success(|dataList|))
  }

  /**
   * Whatever happens, the mapper sees a prefix of: backupData, getMaxId, saveAll, removeDuplicates,
   * updateSqbm; an import succeeds only after all five.
   */
  lemma CallOrder(file: Option<MultipartFile<LanguagePO>>, today: Date, faults: set<Op>, maxId: Int32)
    requires ValidDate(today)
    ensures Steps(ImportSpec(file, today, faults, maxId).calls)
      <= [BackupStep, MaxIdStep, SaveStep, DedupStep, UpdateStep]
    ensures ImportSpec(file, today, faults, maxId).result.Success? ==>
      Steps(ImportSpec(file, today, faults, maxId).calls) == [BackupStep, MaxIdStep, SaveStep, DedupStep, UpdateStep]
  {
    var t := ImportSpec(file, today, faults, maxId);
    var all := [BackupStep, MaxIdStep, SaveStep, DedupStep, UpdateStep];
    if BackupStep !in faults && ReadSpec(file).Success? && MaxIdStep !in faults {
      assert Steps(t.calls) == all[..|t.calls|];
    } else {
      assert Steps(t.calls) == all[..|t.calls|];
    }
  }

  /** An invalid upload fails with its IllegalArgumentException, unwrapped, right after the backup. */
  lemma InvalidUploadNotWrapped(file: Option<MultipartFile<LanguagePO>>, today: Date, faults: set<Op>, maxId: Int32)
    requires ValidDate(today) && BackupStep !in faults
    requires ValidateMultipartFile(file).Fail?
    ensures ImportSpec(file, today, faults, maxId)
      == Trace([BackupData(BackupTableName(BACKUP_PREFIX, today))], Failure(ValidateMultipartFile(file).error))
    ensures ValidateMultipartFile(file).error.IllegalArgument?
  {
  }

  /** A sheet that cannot be read fails with RuntimeException wrapping the cause, right after the backup. */
  lemma UnreadableSheetWrapped(file: Option<MultipartFile<LanguagePO>>, today: Date, faults: set<Op>, maxId: Int32)
    requires ValidDate(today) && BackupStep !in faults
    requires ValidateMultipartFile(file).Pass? && file.value.content.Unreadable?
    ensures ImportSpec(file, today, faults, maxId) == Trace(
      [BackupData(BackupTableName(BACKUP_PREFIX, today))],
      Failure(Runtime(READ_FAILED, ReadError(file.value.content.reason))))
  {
  }

  /**
   * With no row that passes the check, the import still asks for the maximum id, saves an empty
   * list, removes duplicates and recomputes sqbm, and returns 0.
   */
  lemma EmptyImportStillWrites(file: Option<MultipartFile<LanguagePO>>, today: Date, maxId: Int32)
    requires ValidDate(today) && ValidateMultipartFile(file).Pass? && file.value.content.Rows?
    requires forall i | 0 <= i < |file.value.content.rows| :: !Required(file.value.content.rows[i])
    ensures ImportSpec(file, today, {}, maxId) == Trace(
      [BackupData(BackupTableName(BACKUP_PREFIX, today)), GetMaxId, SaveAll([]), RemoveDuplicates, UpdateCode],
      Success(0))
  {
    var rows := file.value.content.rows;
    ValidRowsExactly(rows);
    NoneKept(rows, Required);
    assert ValidRows(rows) == [];
    assert Numbered(ValidRows(rows), maxId, SetId) == [];
  }

  /**
   * The rows saveAll receives: the kept rows in sheet order, the m-th with sqbm "-2" and id
   * maxId + m + 1, as long as those ids fit in an int.
   */
  lemma NumberedValidRows(rows: seq<LanguagePO>, maxId: Int32)
    requires maxId + |rows| <= INT_MAX
    ensures var ix := KeptIndices(rows, Required);
      var keyed := Numbered(ValidRows(rows), maxId, SetId);
      && |keyed| == |ix|
      && forall m | 0 <= m < |ix| :: keyed[m] == rows[ix[m]].(sqbm := Some(IMPORTED_SQBM), id := Some(maxId + m + 1))
  {
    SelectCharacterized(rows, Required, WithSqbm);
    var ix := KeptIndices(rows, Required);
    var kept := ValidRows(rows);
    var keyed := Numbered(kept, maxId, SetId);
    NumberedIds(kept, maxId, SetId);
    forall m | 0 <= m < |ix|
      ensures keyed[m] == rows[ix[m]].(sqbm := Some(IMPORTED_SQBM), id := Some(maxId + m + 1))
    {
      assert kept[m] == WithSqbm(rows[ix[m]]);
      assert keyed[m] == SetId(kept[m], maxId + m + 1);
    }
  }

  /**
   * Whatever the sheet held in sqbm, every saved row carries "-2", the community code a fresh
   * `new LanguagePO()` already starts with.
   */
  lemma SavedSqbmIsDefault(rows: seq<LanguagePO>, maxId: Int32)
    ensures NEW_LANGUAGE_PO.sqbm == Some(IMPORTED_SQBM)
    ensures var keyed := Numbered(ValidRows(rows), maxId, SetId);
      forall m | 0 <= m < |keyed| :: keyed[m].sqbm == NEW_LANGUAGE_PO.sqbm
  {
    SelectCharacterized(rows, Required, WithSqbm);
    var ix := KeptIndices(rows, Required);
    var kept := ValidRows(rows);
    var keyed := Numbered(kept, maxId, SetId);
    forall m | 0 <= m < |keyed| ensures keyed[m].sqbm == NEW_LANGUAGE_PO.sqbm {
      assert kept[m] == WithSqbm(rows[ix[m]]);
      assert keyed[m] == SetId(kept[m], Wrap32(maxId + m + 1));
    }
  }

  /** A full import without faults saves the numbered kept rows and returns how many were kept. */
  lemma SuccessfulImport(file: Option<MultipartFile<LanguagePO>>, today: Date, maxId: Int32)
    requires ValidDate(today) && ValidateMultipartFile(file).Pass? && file.value.content.Rows?
    ensures var rows := file.value.content.rows;
      ImportSpec(file, today, {}, maxId) == Trace(
        [BackupData(BackupTableName(BACKUP_PREFIX, today)), GetMaxId,
         SaveAll(Numbered(ValidRows(rows), maxId, SetId)), RemoveDuplicates, UpdateCode],
        Success(|KeptIndices(rows, Required)|))
  {
    ValidRowsExactly(file.value.content.rows);
  }

  /** saveAll throwing ends the import with RuntimeException wrapping that exception. */
  lemma SaveFailureWrapped(file: Option<MultipartFile<LanguagePO>>, today: Date, faults: set<Op>, maxId: Int32)
    requires ValidDate(today) && BackupStep !in faults && MaxIdStep !in faults && SaveStep in faults
    requires ValidateMultipartFile(file).Pass? && file.value.content.Rows?
    ensures var t := ImportSpec(file, today, faults, maxId);
      && t.result == Failure(Runtime(SAVE_FAILED, StorageError(SaveStep)))
      && Steps(t.calls) == [BackupStep, MaxIdStep, SaveStep]
  {
    var t := ImportSpec(file, today, faults, maxId);
    assert Steps(t.calls) == [BackupStep, MaxIdStep, SaveStep];
  }

  class LanguageService {
    const mapper: Mapper<LanguagePO>

    constructor (mapper: Mapper<LanguagePO>)
      ensures this.mapper == mapper
    {
      this.mapper := mapper;
    }

    /**
     * The ApplicationReadyEvent handler: registers this service with the factory under the
     * "language" code, leaving the other template's entry as it was.
     */
    method OnApplicationEvent(factory: Excel2DBServiceFactory<object>)
      modifies factory
      ensures factory.serviceMap == old(factory.serviceMap)[LANGUAGE.Code() := this]
      ensures factory.GetService(LANGUAGE) == Success(this)
      ensures forall t: TemplateType :: t != LANGUAGE ==> factory.GetService(t) == old(factory.GetService(t))
    {
      factory.RegisterService(LANGUAGE, this);
    }

    /** The PageReadListener body: skip incomplete rows, set sqbm on the others, collect and count them. */
    method CollectValidRows(dataList: seq<LanguagePO>) returns (poList: seq<LanguagePO>, count: nat)
      ensures poList == ValidRows(dataList)
      ensures count == |poList|
    {
      poList, count := [], 0;
      var i := 0;
      while i < |dataList|
        invariant 0 <= i <= |dataList|
        invariant poList == ValidRows(dataList[..i])
        invariant count == |poList|
      {
        var data := dataList[i];
        assert dataList[..i + 1][..i] == dataList[..i];
        i := i + 1;
        if IsBlank(data.chinese) || IsBlank(data.other) {
          continue;
        }
        data := data.(sqbm := Some(IMPORTED_SQBM));
        poList := poList + [data];
        count := count + 1;
      }
      assert dataList[..i] == dataList;
    }

    /** readExcel: no mapper call. */
    method ReadExcel(file: Option<MultipartFile<LanguagePO>>) returns (r: Result<seq<LanguagePO>, Failure>)
      ensures r == ReadSpec(file)
    {
      var valid := ValidateMultipartFile(file);
      if valid.Fail? {
        return Failure(valid.error);
      }
      match file.value.content
      case Unreadable(why) =>
        r := Failure(Runtime(READ_FAILED, ReadError(why)));
      case Rows(rows) =>
        var poList, count := CollectValidRows(rows);
        r := Success(poList);
    }

    /** saveDataBatch: saveAll, with any exception rethrown as RuntimeException. */
    method SaveDataBatch(dataList: seq<LanguagePO>) returns (o: Outcome<Failure>)
      modifies mapper
      ensures mapper.log == old(mapper.log) + [SaveAll(dataList)]
      ensures o == if SaveStep in mapper.faults then Fail(Runtime(SAVE_FAILED, StorageError(SaveStep))) else Pass
    {
      var saved := mapper.SaveAll(dataList);
      if saved.Fail? {
        return Fail(Runtime(SAVE_FAILED, saved.error));
      }
      o := Pass;
    }

    /** importExcel, with today's date given. */
    method ImportExcel(file: Option<MultipartFile<LanguagePO>>, today: Date) returns (r: Result<int, Failure>)
      requires ValidDate(today)
      modifies mapper
      ensures mapper.log == old(mapper.log) + ImportSpec(file, today, mapper.faults, mapper.maxId).calls
      ensures r == ImportSpec(file, today, mapper.faults, mapper.maxId).result
    {
      var backupTableName := BackupTableName(BACKUP_PREFIX, today);
      var backedUp := mapper.BackupData(backupTableName);
      if backedUp.Fail? {
        return Failure(backedUp.error);
      }
      var read := ReadExcel(file);
      if read.Failure? {
        return Failure(read.error);
      }
      var dataList := read.value;
      var maxId := mapper.GetMaxId();
      if maxId.Failure? {
        return Failure(maxId.error);
      }
      var keyed := AssignIds(dataList, maxId.value, SetId);
      var saved := SaveDataBatch(keyed);
      if saved.Fail? {
        return Failure(saved.error);
      }
      var deduplicated := mapper.RemoveDuplicates();
      if deduplicated.Fail? {
        return Failure(deduplicated.error);
      }
      var recoded := mapper.UpdateCode();
      if recoded.Fail? {
        return Failure(recoded.error);
      }
      r := Success(|dataList|);
    }
  }
}
