/**
 * QkzlmaServiceImpl: reading and importing the zd_qkzlmba template.
 * A row is kept when its name (mc), dictionary type (zdlx) and code (bm) are all non-blank; its
 * short code (dh) is then set to the pinyin initials of mc. An import backs the table up, reads,
 * stops with 0 when no row is kept, numbers the rows from the table's maximum sysid, saves them,
 * and asks the mapper to remove duplicates and recompute qybm.
 */
module QkzlmbaImport {
  import opened Wrappers
  import opened Failures
  import opened JavaStrings
  import opened Beans
  import opened PinYinUtil
  import opened RowFilter
  import opened ExcelUtil
  import opened Storage
  import opened BackupNames
  import opened TemplateTypes
  import opened ServiceFactory

  const BACKUP_PREFIX := "zd_qkzlmba_"
  const READ_FAILED := "读取Excel文件失败"
  const SAVE_FAILED := "批量保存数据失败"

  /** The listener's check: mc, zdlx and bm are all non-blank. */
  predicate Required(row: QkzlmbaPO)
    ensures Required(row) ==> row.mc.Some? && row.zdlx.Some? && row.bm.Some?
    ensures Required(row) ==> |row.mc.value| > 0 && |row.zdlx.value| > 0 && |row.bm.value| > 0
  {
    !IsBlank(row.mc) && !IsBlank(row.zdlx) && !IsBlank(row.bm)
  }

  /** `data.setDh(PinYinUtil.getPinyin(data.getMc()))`; mc is non-null on every row that passed Required. */
  function WithCode(row: QkzlmbaPO, toPinyin: char -> Syllable): (coded: QkzlmbaPO)
    ensures coded.dh.Some? && |coded.dh.value| == |row.mc.GetOr("")|
    ensures coded.(dh := row.dh) == row
  {
    row.(dh := Some(Initials(row.mc.GetOr(""), toPinyin)))
  }

  function Coder(toPinyin: char -> Syllable): QkzlmbaPO -> QkzlmbaPO {
    row => WithCode(row, toPinyin)
  }

  /** The rows the read listener collects from a sheet. */
  function ValidRows(rows: seq<QkzlmbaPO>, toPinyin: char -> Syllable): (kept: seq<QkzlmbaPO>)
    ensures |kept| == |KeptIndices(rows, Required)| <= |rows|
  {
    SelectCharacterized(rows, Required, Coder(toPinyin));
    Select(rows, Required, Coder(toPinyin))
  }

  /** The listener collects nothing exactly when no row passes the check. */
  lemma NoneValid(rows: seq<QkzlmbaPO>, toPinyin: char -> Syllable)
    ensures ValidRows(rows, toPinyin) == [] <==> forall i | 0 <= i < |rows| :: !Required(rows[i])
  {
    NoneKept(rows, Required);
  }

  /** `data.setSysid(id)`. */
  function SetSysid(row: QkzlmbaPO, id: Int32): QkzlmbaPO {
    row.(sysid := Some(id))
  }

  /**
   * The rows kept are exactly those at KeptIndices (the rows with mc, zdlx and bm non-blank), in
   * sheet order; each is its input row with dh set to the initials of mc, and nothing else changed.
   */
  lemma ValidRowsExactly(rows: seq<QkzlmbaPO>, toPinyin: char -> Syllable)
    ensures |ValidRows(rows, toPinyin)| == |KeptIndices(rows, Required)|
    ensures forall m | 0 <= m < |KeptIndices(rows, Required)| ::
      var row := rows[KeptIndices(rows, Required)[m]];
      row.mc.Some? && ValidRows(rows, toPinyin)[m] == row.(dh := Some(Initials(row.mc.value, toPinyin)))
    ensures forall i | 0 <= i < |rows| :: Required(rows[i]) <==> i in KeptIndices(rows, Required)
  {
    SelectCharacterized(rows, Required, Coder(toPinyin));
  }

  /** Every kept row has non-blank mc, zdlx and bm, and dh equal to the pinyin initials of mc. */
  lemma ValidRowsComplete(rows: seq<QkzlmbaPO>, toPinyin: char -> Syllable, m: nat)
    requires m < |ValidRows(rows, toPinyin)|
    ensures Required(ValidRows(rows, toPinyin)[m])
    ensures ValidRows(rows, toPinyin)[m].dh == Some(Initials(ValidRows(rows, toPinyin)[m].mc.value, toPinyin))
  {
    ValidRowsExactly(rows, toPinyin);
  }

  /**
   * readExcel: validate the upload (outside the try, so its IllegalArgumentException escapes as
   * it is); call getMaxId, whose result is never used; read the sheet, wrapping a read failure in
   * RuntimeException; return the kept rows.
   */
  function ReadSpec(file: Option<MultipartFile<QkzlmbaPO>>, faults: set<Op>, toPinyin: char -> Syllable)
    : (t: Trace<QkzlmbaPO, seq<QkzlmbaPO>>)
    ensures ValidateMultipartFile(file).Fail? ==> t == Trace([], Failure(ValidateMultipartFile(file).error))
    ensures ValidateMultipartFile(file).Pass? ==> t.calls == [GetMaxId]
    ensures t.result.Success? <==> (ValidateMultipartFile(file).Pass? && MaxIdStep !in faults && file.value.content.Rows?)
    ensures t.result.Success? ==> t.result.value == ValidRows(file.value.content.rows, toPinyin)
    ensures ValidateMultipartFile(file).Pass? && MaxIdStep in faults ==> t.result == Failure(StorageError(MaxIdStep))
    ensures ValidateMultipartFile(file).Pass? && MaxIdStep !in faults && file.value.content.Unreadable? ==>
      t.result == Failure(Runtime(READ_FAILED, ReadError(file.value.content.reason)))
  {
    match ValidateMultipartFile(file)
    case Fail(e) => Trace([], Failure(e))
    case Pass =>
      if MaxIdStep in faults then Trace([GetMaxId], Failure(StorageError(MaxIdStep)))
      else
        match file.value.content
        case Unreadable(why) => Trace([GetMaxId], Failure(Runtime(READ_FAILED, ReadError(why))))
        case Rows(rows) => Trace([GetMaxId], Success(ValidRows(rows, toPinyin)))
  }

  /**
   * importExcel. The fault set is fixed for the whole call, so the second getMaxId succeeds
   * whenever the first (inside readExcel) did.
   */
  function ImportSpec(file: Option<MultipartFile<QkzlmbaPO>>, today: Date, faults: set<Op>, maxId: Int32,
                      toPinyin: char -> Syllable): (t: Trace<QkzlmbaPO, int>)
    requires ValidDate(today)
    ensures |t.calls| >= 1 && t.calls[0] == BackupData(BackupTableName(BACKUP_PREFIX, today))
    ensures t.result.Success? ==> (file.Some? && file.value.content.Rows?
      && t.result.value == |ValidRows(file.value.content.rows, toPinyin)|)
  {
    var backup := BackupData(BackupTableName(BACKUP_PREFIX, today));
    if BackupStep in faults then Trace([backup], Failure(StorageError(BackupStep)))
    else
      var read := ReadSpec(file, faults, toPinyin);
      match read.result
      case Failure(e) => Trace([backup] + read.calls, Failure(e))
      case Success(dataList) =>
        if dataList == [] then Trace([backup] + read.calls, Success(0))
        else
          var keyed := Numbered(dataList, maxId, SetSysid);
          var saved := [backup] + read.calls + [GetMaxId, SaveAll(keyed)];
          if SaveStep in faults then Trace(saved, Failure(Runtime(SAVE_FAILED, StorageError(SaveStep))))
          else if DedupStep in faults then Trace(saved + [RemoveDuplicates], Failure(StorageError(DedupStep)))
          else if UpdateStep in faults then
            Trace(saved + [RemoveDuplicates, UpdateCode], Failure(StorageError(UpdateStep)))
          else Trace(saved + [RemoveDuplicates, UpdateCode], Success(|dataList|))
  }

  /**
   * Whatever happens, the mapper sees a prefix of: backupData, getMaxId (unused, in readExcel),
   * getMaxId, saveAll, removeDuplicates, updateQybm. A successful import either stops after the
   * first getMaxId (no row kept) or makes all six calls.
   */
  lemma CallOrder(file: Option<MultipartFile<QkzlmbaPO>>, today: Date, faults: set<Op>, maxId: Int32,
                  toPinyin: char -> Syllable)
    requires ValidDate(today)
    ensures Steps(ImportSpec(file, today, faults, maxId, toPinyin).calls)
      <= [BackupStep, MaxIdStep, MaxIdStep, SaveStep, DedupStep, UpdateStep]
    ensures ImportSpec(file, today, faults, maxId, toPinyin).result.Success? ==>
      Steps(ImportSpec(file, today, faults, maxId, toPinyin).calls)
        in {[BackupStep, MaxIdStep], [BackupStep, MaxIdStep, MaxIdStep, SaveStep, DedupStep, UpdateStep]}
  {
    var t := ImportSpec(file, today, faults, maxId, toPinyin);
    var ops := Steps(t.calls);
    if t.result.Success? {
      if |t.calls| == 2 {
        assert ops == [BackupStep, MaxIdStep];
      } else {
        assert ops == [BackupStep, MaxIdStep, MaxIdStep, SaveStep, DedupStep, UpdateStep];
      }
    }
  }

  /** An invalid upload fails with its IllegalArgumentException, unwrapped, after the backup and before anything else. */
  lemma InvalidUploadNotWrapped(file: Option<MultipartFile<QkzlmbaPO>>, today: Date, faults: set<Op>, maxId: Int32,
                                toPinyin: char -> Syllable)
    requires ValidDate(today) && BackupStep !in faults
    requires ValidateMultipartFile(file).Fail?
    ensures ImportSpec(file, today, faults, maxId, toPinyin)
      == Trace([BackupData(BackupTableName(BACKUP_PREFIX, today))], Failure(ValidateMultipartFile(file).error))
    ensures ValidateMultipartFile(file).error.IllegalArgument?
  {
  }

  /** A sheet that cannot be read fails with RuntimeException wrapping the cause; nothing is saved. */
  lemma UnreadableSheetWrapped(file: Option<MultipartFile<QkzlmbaPO>>, today: Date, faults: set<Op>, maxId: Int32,
                               toPinyin: char -> Syllable)
    requires ValidDate(today) && BackupStep !in faults && MaxIdStep !in faults
    requires ValidateMultipartFile(file).Pass? && file.value.content.Unreadable?
    ensures ImportSpec(file, today, faults, maxId, toPinyin) == Trace(
      [BackupData(BackupTableName(BACKUP_PREFIX, today)), GetMaxId],
      Failure(Runtime(READ_FAILED, ReadError(file.value.content.reason))))
  {
  }

  /**
   * With no row that passes the check, the import returns 0 after backupData and the unused
   * getMaxId: it never calls saveAll, removeDuplicates or updateQybm.
   */
  lemma NoValidRowReturnsZero(file: Option<MultipartFile<QkzlmbaPO>>, today: Date, faults: set<Op>, maxId: Int32,
                              toPinyin: char -> Syllable)
    requires ValidDate(today) && BackupStep !in faults && MaxIdStep !in faults
    requires ValidateMultipartFile(file).Pass? && file.value.content.Rows?
    requires forall i | 0 <= i < |file.value.content.rows| :: !Required(file.value.content.rows[i])
    ensures ImportSpec(file, today, faults, maxId, toPinyin)
      == Trace([BackupData(BackupTableName(BACKUP_PREFIX, today)), GetMaxId], Success(0))
  {
    var rows := file.value.content.rows;
    ValidRowsExactly(rows, toPinyin);
    NoneKept(rows, Required);
  }

  /**
   * The rows saveAll receives: the kept rows in sheet order, the m-th with dh set to the initials
   * of mc and sysid maxId + m + 1, as long as those ids fit in an int.
   */
  lemma NumberedValidRows(rows: seq<QkzlmbaPO>, maxId: Int32, toPinyin: char -> Syllable)
    requires maxId + |rows| <= INT_MAX
    ensures var ix := KeptIndices(rows, Required);
      var keyed := Numbered(ValidRows(rows, toPinyin), maxId, SetSysid);
      && |keyed| == |ix|
      && forall m | 0 <= m < |ix| :: rows[ix[m]].mc.Some? && keyed[m]
           == rows[ix[m]].(dh := Some(Initials(rows[ix[m]].mc.value, toPinyin)), sysid := Some(maxId + m + 1))
  {
    SelectCharacterized(rows, Required, Coder(toPinyin));
    var ix := KeptIndices(rows, Required);
    var kept := ValidRows(rows, toPinyin);
    var keyed := Numbered(kept, maxId, SetSysid);
    NumberedIds(kept, maxId, SetSysid);
    forall m | 0 <= m < |ix|
      ensures keyed[m] == rows[ix[m]].(dh := Some(Initials(rows[ix[m]].mc.value, toPinyin)), sysid := Some(maxId + m + 1))
    {
      assert kept[m] == WithCode(rows[ix[m]], toPinyin);
      assert keyed[m] == SetSysid(kept[m], maxId + m + 1);
    }
  }

  /**
   * The import never touches state or fCqjkwt: rows read into fresh records are saved with the
   * values `new QkzlmbaPO()` gives them, state 1 and fCqjkwt 0, whatever ids they receive.
   */
  lemma SavedRowsKeepDefaults(rows: seq<QkzlmbaPO>, maxId: Int32, toPinyin: char -> Syllable)
    requires forall i | 0 <= i < |rows| ::
      rows[i].state == NEW_QKZLMBA_PO.state && rows[i].fCqjkwt == NEW_QKZLMBA_PO.fCqjkwt
    ensures var keyed := Numbered(ValidRows(rows, toPinyin), maxId, SetSysid);
      forall m | 0 <= m < |keyed| :: keyed[m].state == Some(1) && keyed[m].fCqjkwt == Some(0)
  {
    SelectCharacterized(rows, Required, Coder(toPinyin));
    var ix := KeptIndices(rows, Required);
    var kept := ValidRows(rows, toPinyin);
    var keyed := Numbered(kept, maxId, SetSysid);
    forall m | 0 <= m < |keyed| ensures keyed[m].state == Some(1) && keyed[m].fCqjkwt == Some(0) {
      assert kept[m] == WithCode(rows[ix[m]], toPinyin);
      assert keyed[m] == SetSysid(kept[m], Wrap32(maxId + m + 1));
    }
  }

  /**
   * A full import without faults makes the six calls in order, saves the numbered kept rows and
   * returns how many rows were kept (not the table's size after removeDuplicates).
   */
  lemma SuccessfulImport(file: Option<MultipartFile<QkzlmbaPO>>, today: Date, maxId: Int32, toPinyin: char -> Syllable)
    requires ValidDate(today) && ValidateMultipartFile(file).Pass? && file.value.content.Rows?
    requires exists i | 0 <= i < |file.value.content.rows| :: Required(file.value.content.rows[i])
    ensures var rows := file.value.content.rows;
      ImportSpec(file, today, {}, maxId, toPinyin) == Trace(
        [BackupData(BackupTableName(BACKUP_PREFIX, today)), GetMaxId, GetMaxId,
         SaveAll(Numbered(ValidRows(rows, toPinyin), maxId, SetSysid)), RemoveDuplicates, UpdateCode],
        Success(|KeptIndices(rows, Required)|))
  {
    var rows := file.value.content.rows;
    var i :| 0 <= i < |rows| && Required(rows[i]);
    var dataList := ValidRows(rows, toPinyin);
    assert dataList != [];
    assert ReadSpec(file, {}, toPinyin) == Trace([GetMaxId], Success(dataList));
  }

  /**
   * saveAll throwing ends the import with RuntimeException wrapping that exception; removeDuplicates
   * and updateQybm are not called.
   */
  lemma SaveFailureWrapped(file: Option<MultipartFile<QkzlmbaPO>>, today: Date, faults: set<Op>, maxId: Int32,
                           toPinyin: char -> Syllable)
    requires ValidDate(today) && BackupStep !in faults && MaxIdStep !in faults && SaveStep in faults
    requires ValidateMultipartFile(file).Pass? && file.value.content.Rows?
    requires ValidRows(file.value.content.rows, toPinyin) != []
    ensures var t := ImportSpec(file, today, faults, maxId, toPinyin);
      && t.result == Failure(Runtime(SAVE_FAILED, StorageError(SaveStep)))
      && Steps(t.calls) == [BackupStep, MaxIdStep, MaxIdStep, SaveStep]
  {
  }

  class QkzlmbaService {
    const mapper: Mapper<QkzlmbaPO>
    /** Pinyin.toPinyin. */
    const toPinyin: char -> Syllable

    constructor (mapper: Mapper<QkzlmbaPO>, toPinyin: char -> Syllable)
      ensures this.mapper == mapper && this.toPinyin == toPinyin
    {
      this.mapper := mapper;
      this.toPinyin := toPinyin;
    }

    /**
     * The ApplicationReadyEvent handler: registers this service with the factory under the
     * "qkzlmba" code, leaving the other template's entry as it was.
     */
    method OnApplicationEvent(factory: Excel2DBServiceFactory<object>)
      modifies factory
      ensures factory.serviceMap == old(factory.serviceMap)[QKZLMA.Code() := this]
      ensures factory.GetService(QKZLMA) == Success(this)
      ensures forall t: TemplateType :: t != QKZLMA ==> factory.GetService(t) == old(factory.GetService(t))
    {
      factory.RegisterService(QKZLMA, this);
    }

    /** The PageReadListener body: skip incomplete rows, set dh on the others, collect and count them. */
    method CollectValidRows(dataList: seq<QkzlmbaPO>) returns (poList: seq<QkzlmbaPO>, count: nat)
      ensures poList == ValidRows(dataList, toPinyin)
      ensures count == |poList|
    {
      poList, count := [], 0;
      var i := 0;
      while i < |dataList|
        invariant 0 <= i <= |dataList|
        invariant poList == ValidRows(dataList[..i], toPinyin)
        invariant count == |poList|
      {
        var data := dataList[i];
        assert dataList[..i + 1][..i] == dataList[..i];
        i := i + 1;
        if IsBlank(data.mc) || IsBlank(data.zdlx) || IsBlank(data.bm) {
          continue;
        }
        var pinyin := GetPinyin(data.mc.value, toPinyin);
        data := data.(dh := Some(pinyin));
        poList := poList + [data];
        count := count + 1;
      }
      assert dataList[..i] == dataList;
    }

    /** readExcel. */
    method ReadExcel(file: Option<MultipartFile<QkzlmbaPO>>) returns (r: Result<seq<QkzlmbaPO>, Failure>)
      modifies mapper
      ensures mapper.log == old(mapper.log) + ReadSpec(file, mapper.faults, toPinyin).calls
      ensures r == ReadSpec(file, mapper.faults, toPinyin).result
    {
      var valid := ValidateMultipartFile(file);
      if valid.Fail? {
        return Failure(valid.error);
      }
      var unusedMaxId := mapper.GetMaxId();
      if unusedMaxId.Failure? {
        return Failure(unusedMaxId.error);
      }
      match file.value.content
      case Unreadable(why) =>
        r := Failure(Runtime(READ_FAILED, ReadError(why)));
      case Rows(rows) =>
        var poList, count := CollectValidRows(rows);
        r := Success(poList);
    }

    /** saveDataBatch: saveAll, with any exception rethrown as RuntimeException. */
    method SaveDataBatch(dataList: seq<QkzlmbaPO>) returns (o: Outcome<Failure>)
      modifies mapper
      ensures mapper.log == old(mapper.log) + [SaveAll(dataList)]
      ensures o == if SaveStep in mapper.faults then Fail(Runtime(SAVE_FAILED, StorageError(SaveStep))) else Pass
    {
      var saved := mapper.SaveAll(dataList);
      if saved.Fail? {
        return Fail(Runtime(SAVE_FAILED, saved.error));
      }
      o := Pass;
    }

    /** importExcel, with today's date given. */
    method ImportExcel(file: Option<MultipartFile<QkzlmbaPO>>, today: Date) returns (r: Result<int, Failure>)
      requires ValidDate(today)
      modifies mapper
      ensures mapper.log == old(mapper.log) + ImportSpec(file, today, mapper.faults, mapper.maxId, toPinyin).calls
      ensures r == ImportSpec(file, today, mapper.faults, mapper.maxId, toPinyin).result
    {
      var backupTableName := BackupTableName(BACKUP_PREFIX, today);
      var backedUp := mapper.BackupData(backupTableName);
      if backedUp.Fail? {
        return Failure(backedUp.error);
      }
      var read := ReadExcel(file);
      if read.Failure? {
        return Failure(read.error);
      }
      var dataList := read.value;
      if dataList == [] {
        return Success(0);
      }
      var maxId := mapper.GetMaxId();
      var keyed := AssignIds(dataList, maxId.value, SetSysid);
      var saved := SaveDataBatch(keyed);
      if saved.Fail? {
        return Failure(saved.error);
      }
      var deduplicated := mapper.RemoveDuplicates();
      if deduplicated.Fail? {
        return Failure(deduplicated.error);
      }
      var recoded := mapper.UpdateCode();
      if recoded.Fail? {
        return Failure(recoded.error);
      }
      r := Success(|dataList|);
    }
  }
}
