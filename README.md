# excel2db import core in Dafny

excel2db is a Spring service that imports Excel uploads into database tables, one template per
table. This project models the core of that service and proves properties about it:

- **Upload checks (`ExcelUtil`).** The Excel file-name test and the size bounds. The ordered
  validation of an upload. Extension and main-name splitting. The suffix that `convertToFile`
  gives its temporary copy.
- **Pinyin initials (`PinYinUtil.getPinyin`).** The transliteration library is a parameter that
  returns a non-empty syllable for each character.
- **Templates and the registry (`TemplateType`, `Excel2DBServiceFactory`).** A case-insensitive
  lookup by code. A map from template code to service, where the last registration wins, which
  each service fills with itself once the application is ready.
- **The two import services (`QkzlmaServiceImpl`, `LanguageServiceImpl`).**
  - `readExcel` validates the upload, keeps the rows whose required cells are non-blank and
    enriches them. A qkzlmba row gets `dh`, the pinyin initials of `mc`. A language row gets
    `sqbm = "-2"`.
  - `importExcel` does the following in order:
    1. Backs the table up into `<table>_<yyyyMMdd>_back_up`.
    2. Reads the upload.
    3. Numbers the rows `maxId + 1, maxId + 2, …` with a 32-bit `AtomicInteger`.
    4. Saves them in one call.
    5. Asks the mapper to remove duplicates and recompute the derived code.
    6. Returns the number of kept (complete) rows.
  - `saveDataBatch` wraps a save failure in `RuntimeException`.

The mappers' SQL is not part of this model. A mapper is the class `Storage.Mapper`:

- It records every call it receives, with its argument.
- A fixed set of operations throws.
- `getMaxId` reports a fixed value.

Each service method is proved against a specification function. `ReadSpec` and `ImportSpec`
return a `Trace`: the mapper calls made, in order, and the result or exception. The lemmas
about those functions state the following:

- the call order;
- what `saveAll` receives;
- the early return of qkzlmba;
- the empty import of language;
- which failures are wrapped and which are not.

Java `null` is `None`. An exception is a `Failure` value. Today's date is a parameter.

Two differences between the templates are stated outright:

- qkzlmba returns 0 on an empty list without touching the table again. Language still saves an
  empty list, removes duplicates and recomputes `sqbm` (`LanguageImport.EmptyImportStillWrites`).
- qkzlmba's `readExcel` calls `getMaxId` and drops the result. So a successful qkzlmba import
  that saves anything calls `getMaxId` twice (`QkzlmbaImport.CallOrder`).

A note on the code `qkzlma`: the controller's doc comment
(src/main/java/com/deaifish/excel2db/controller/DynamicExcel2DBController.java:21) shows requests under `qkzlma`. The registered code
is `qkzlmba`, and `TemplateTypes.UnknownCodes` and `Startup.ApplicationReady` prove that
`qkzlma` is rejected.

## Model

| member | source | states |
|---|---|---|
| JavaStrings.IsBlankChar | src/main/java/com/deaifish/excel2db/service/impl/QkzlmaServiceImpl.java:135 | ASCII letters and digits and CJK ideographs are never blank characters |
| JavaStrings.IsBlank | src/main/java/com/deaifish/excel2db/service/impl/QkzlmaServiceImpl.java:135 | null and "" are blank; a non-blank string is non-null and non-empty |
| JavaStrings.BlankConcat | src/main/java/com/deaifish/excel2db/service/impl/QkzlmaServiceImpl.java:135 | a concatenation is blank exactly when both parts are |
| JavaStrings.EqualsIgnoreCase | src/main/java/com/deaifish/excel2db/enums/TemplateType.java:49 | a string equals itself ignoring case, never equals null, and only equals strings of its length |
| JavaStrings.EqualsIgnoreCaseSymmetric | src/main/java/com/deaifish/excel2db/enums/TemplateType.java:49 | equality ignoring case is symmetric |
| JavaStrings.EndsWith | src/main/java/com/deaifish/excel2db/util/ExcelUtil.java:40 | a string ending with a suffix is at least as long and is its own prefix followed by that suffix |
| JavaStrings.EndsWithConcat | src/main/java/com/deaifish/excel2db/util/ExcelUtil.java:40 | prefix + suffix ends with suffix, and every string ends with "" |
| JavaStrings.LowerCase | src/main/java/com/deaifish/excel2db/util/ExcelUtil.java:38 | the lower-cased name has the same length, and each character is folded on its own (ASCII letters only) |
| JavaStrings.LowerCaseProperties | src/main/java/com/deaifish/excel2db/util/ExcelUtil.java:38 | lower-casing is idempotent, leaves a name without upper-case ASCII letters unchanged, and distributes over concatenation |
| JavaStrings.LastIndexOf | src/main/java/com/deaifish/excel2db/util/ExcelUtil.java:159 | -1 exactly when the character does not occur; otherwise the index of an occurrence with none after it |
| JavaStrings.Wrap32 | src/main/java/com/deaifish/excel2db/service/impl/QkzlmaServiceImpl.java:181-184 | a Java int agrees with the mathematical value modulo 2^32, and equals it when the value is in range |
| JavaStrings.Inc32 | src/main/java/com/deaifish/excel2db/service/impl/QkzlmaServiceImpl.java:183 | incrementAndGet is +1 wrapped to 32 bits, so MAX_VALUE is followed by MIN_VALUE |
| JavaStrings.IncWrap | src/main/java/com/deaifish/excel2db/service/impl/QkzlmaServiceImpl.java:181-184 | incrementing the wrapped counter is the same as wrapping the incremented count, so the k-th increment gives maxId + k as a Java int |
| PinYinUtil.Initials | src/main/java/com/deaifish/excel2db/util/PinYinUtil.java:19-26 | one initial per input character, so the output has the input's length and "" gives "" |
| PinYinUtil.InitialsAt | src/main/java/com/deaifish/excel2db/util/PinYinUtil.java:21-24 | output character i is the first character of the transliteration of input character i |
| PinYinUtil.InitialsAppend | src/main/java/com/deaifish/excel2db/util/PinYinUtil.java:21-24 | the initials of a + b are the initials of a followed by those of b |
| PinYinUtil.GetPinyin | src/main/java/com/deaifish/excel2db/util/PinYinUtil.java:19-26 | the StringBuilder loop yields exactly Initials: same length, character i from toPinyin(input[i]) |
| TemplateTypes.Find | src/main/java/com/deaifish/excel2db/enums/TemplateType.java:48-52 | the search returns a constant whose code matches ignoring case, the first constant when it matches, and nothing exactly when no constant matches |
| TemplateTypes.FromCode | src/main/java/com/deaifish/excel2db/enums/TemplateType.java:47-54 | succeeds with a constant matching the code ignoring case; fails with IllegalArgumentException "未知的模板类型: " + code exactly when no constant matches (null included) |
| TemplateTypes.CodesDistinct | src/main/java/com/deaifish/excel2db/enums/TemplateType.java:12-17 | no two constants have codes equal ignoring case |
| TemplateTypes.FromCodeRoundTrip | src/main/java/com/deaifish/excel2db/enums/TemplateType.java:34-51 | fromCode(t.getCode()) == t for every constant |
| TemplateTypes.FromCodeIgnoresCase | src/main/java/com/deaifish/excel2db/enums/TemplateType.java:49 | any capitalisation of a constant's code finds that constant |
| TemplateTypes.KnownCodes | src/main/java/com/deaifish/excel2db/enums/TemplateType.java:12-17 | "language" gives LANGUAGE, "qkzlmba" and "QKZLMBA" give QKZLMA |
| TemplateTypes.UnknownCodes | src/main/java/com/deaifish/excel2db/enums/TemplateType.java:47-54 | null (with message "未知的模板类型: null"), "qkzlma" and an unrelated code all fail |
| ServiceFactory.Excel2DBServiceFactory.constructor | src/main/java/com/deaifish/excel2db/factory/Excel2DBServiceFactory.java:27 | the registry starts empty |
| ServiceFactory.Excel2DBServiceFactory.RegisterService | src/main/java/com/deaifish/excel2db/factory/Excel2DBServiceFactory.java:35-38 | stores the service under the type's code, replacing an earlier one (last write wins); getService(t) then returns it and every other type's lookup is unchanged |
| ServiceFactory.Excel2DBServiceFactory.GetService | src/main/java/com/deaifish/excel2db/factory/Excel2DBServiceFactory.java:45-51 | succeeds exactly when the code is registered, with the stored service; otherwise IllegalArgumentException naming the code |
| ServiceFactory.Excel2DBServiceFactory.GetServiceByCode | src/main/java/com/deaifish/excel2db/factory/Excel2DBServiceFactory.java:58-61 | an unknown code fails in fromCode before the map is read; otherwise it equals getService(fromCode(code)); a success is the service of a constant matching the code |
| ServiceFactory.StartupLookups | src/main/java/com/deaifish/excel2db/factory/Excel2DBServiceFactory.java:58-61 | once both codes are registered, "qkzlmba" and the spelling "LANGUAGE" find the stored services and "qkzlma" fails in fromCode; TemplateTypes.FromCodeIgnoresCase covers every other capitalisation |
| ExcelUtil.EndsWithAny | src/main/java/com/deaifish/excel2db/util/ExcelUtil.java:39-44 | the early-returning loop is true exactly when some listed extension ends the name |
| ExcelUtil.IsExcelFile | src/main/java/com/deaifish/excel2db/util/ExcelUtil.java:33-45 | true exactly when the name is non-null and its lower-cased form ends with ".xls" or ".xlsx"; false for null and "" |
| ExcelUtil.CheckFileSize | src/main/java/com/deaifish/excel2db/util/ExcelUtil.java:53-55 | true exactly when 0 < size <= max |
| ExcelUtil.CheckFileSizeDefault | src/main/java/com/deaifish/excel2db/util/ExcelUtil.java:62-64 | true exactly when 1 <= size <= 10 * 1024 * 1024 |
| ExcelUtil.CheckFileSizeBounds | src/main/java/com/deaifish/excel2db/util/ExcelUtil.java:53-64 | size 0 never passes; passing under a limit implies passing under any larger limit; the default admits exactly 10485760 bytes and rejects one more |
| ExcelUtil.ValidateMultipartFile | src/main/java/com/deaifish/excel2db/util/ExcelUtil.java:71-84 | passes exactly when the upload is present, non-empty, has an Excel name and a size in bounds; otherwise the first failing check, in that order, throws IllegalArgumentException with its message |
| ExcelUtil.GetFileExtension | src/main/java/com/deaifish/excel2db/util/ExcelUtil.java:154-164 | non-empty exactly when the last dot is neither the first nor the last character; then it is a dot-led suffix of the name with no other dot |
| ExcelUtil.GetMainName | src/main/java/com/deaifish/excel2db/util/ExcelUtil.java:171-181 | the text before the last dot when that dot is past the first character, otherwise the whole name; "" for null |
| ExcelUtil.MainNameThenExtension | src/main/java/com/deaifish/excel2db/util/ExcelUtil.java:154-181 | whenever an extension is found, main name + extension == the name |
| ExcelUtil.ExtensionExamples | src/main/java/com/deaifish/excel2db/util/ExcelUtil.java:159-163 | ".bashrc" and "a." have no extension; "a.b.xlsx" splits into "a.b" and ".xlsx" |
| ExcelUtil.TempFileSuffix | src/main/java/com/deaifish/excel2db/util/ExcelUtil.java:98-107 | the suffix starts with its only dot; it ends the name when the name has a dot; a null or dot-less name gets ".xlsx" |
| ExcelUtil.TempFileSuffixAgrees | src/main/java/com/deaifish/excel2db/util/ExcelUtil.java:104-107 | the suffix equals getFileExtension whenever that is non-empty; "a." gets "." where getFileExtension gives "" |
| BackupNames.DigitsRoundTrip | src/main/java/com/deaifish/excel2db/service/impl/QkzlmaServiceImpl.java:168 | reading back a zero-padded number gives the number |
| BackupNames.FormatYyyyMMdd | src/main/java/com/deaifish/excel2db/service/impl/QkzlmaServiceImpl.java:168 | the date prints as eight digits |
| BackupNames.FormatRoundTrip | src/main/java/com/deaifish/excel2db/service/impl/QkzlmaServiceImpl.java:168 | parsing the printed yyyyMMdd gives back the date |
| BackupNames.BackupTableName | src/main/java/com/deaifish/excel2db/service/impl/QkzlmaServiceImpl.java:168-169 | the name is the table prefix, then eight date digits, then "_back_up" |
| BackupNames.BackupNameDeterminesDate | src/main/java/com/deaifish/excel2db/service/impl/QkzlmaServiceImpl.java:168-170 | two backup names are equal exactly when their dates are, so two imports on one day name the same backup table |
| Storage.Steps | src/main/java/com/deaifish/excel2db/mapper/QkzlmbaMapper.java:17-28 | one mapper operation per call, in call order |
| Storage.StepsAppend | src/main/java/com/deaifish/excel2db/mapper/QkzlmbaMapper.java:17-28 | the operations of calls made one after another are those of each part, in turn |
| Storage.Mapper.BackupData | src/main/java/com/deaifish/excel2db/mapper/QkzlmbaMapper.java:28 | the call is logged with its table name and fails exactly when backups fail |
| Storage.Mapper.GetMaxId | src/main/java/com/deaifish/excel2db/mapper/QkzlmbaMapper.java:19 | the call is logged; it returns the table's maximum id unless it fails |
| Storage.Mapper.SaveAll | src/main/java/com/deaifish/excel2db/mapper/QkzlmbaMapper.java:17 | the call is logged with the exact rows passed |
| Storage.Mapper.RemoveDuplicates | src/main/java/com/deaifish/excel2db/mapper/QkzlmbaMapper.java:24 | the call is logged |
| Storage.Mapper.UpdateCode | src/main/java/com/deaifish/excel2db/mapper/QkzlmbaMapper.java:26 | the call is logged |
| RowFilter.Select | src/main/java/com/deaifish/excel2db/service/impl/QkzlmaServiceImpl.java:133-148 | the listener never returns more rows than it reads |
| RowFilter.KeptIndices | src/main/java/com/deaifish/excel2db/service/impl/QkzlmaServiceImpl.java:134-139 | exactly the positions of the rows that pass the check, in increasing order |
| RowFilter.SelectCharacterized | src/main/java/com/deaifish/excel2db/service/impl/QkzlmaServiceImpl.java:134-147 | the kept rows are the enriched rows at KeptIndices, in sheet order: none that fails is kept, none that passes is dropped |
| RowFilter.NoneKept | src/main/java/com/deaifish/excel2db/service/impl/QkzlmaServiceImpl.java:136-139 | nothing is kept exactly when no row passes the check |
| RowFilter.SelectSound | src/main/java/com/deaifish/excel2db/service/impl/QkzlmaServiceImpl.java:136-144 | every kept row is the enrichment of an input row that passes |
| RowFilter.SelectAppend | src/main/java/com/deaifish/excel2db/service/impl/QkzlmaServiceImpl.java:133-148 | filtering page after page is filtering the whole sheet |
| RowFilter.Numbered | src/main/java/com/deaifish/excel2db/service/impl/QkzlmaServiceImpl.java:181-184 | numbering keeps the number of rows |
| RowFilter.NumberedIds | src/main/java/com/deaifish/excel2db/service/impl/QkzlmaServiceImpl.java:181-184 | row i gets maxId + i + 1 while that fits in an int; the row after the one numbered Integer.MAX_VALUE gets Integer.MIN_VALUE |
| RowFilter.AssignIds | src/main/java/com/deaifish/excel2db/service/impl/QkzlmaServiceImpl.java:181-184 | the incrementAndGet loop gives row i the id maxId + i + 1 as a Java int and changes nothing else |
| QkzlmbaImport.Required | src/main/java/com/deaifish/excel2db/service/impl/QkzlmaServiceImpl.java:135 | a row that passes has mc, zdlx and bm all present and non-empty |
| QkzlmbaImport.WithCode | src/main/java/com/deaifish/excel2db/service/impl/QkzlmaServiceImpl.java:140-142 | the row gets a dh as long as its mc, and no other field changes |
| QkzlmbaImport.ValidRows | src/main/java/com/deaifish/excel2db/service/impl/QkzlmaServiceImpl.java:132-147 | the listener keeps one row per position in KeptIndices, never more rows than it reads |
| QkzlmbaImport.NoneValid | src/main/java/com/deaifish/excel2db/service/impl/QkzlmaServiceImpl.java:135-138 | the listener collects nothing exactly when no row has mc, zdlx and bm all non-blank |
| QkzlmbaImport.ValidRowsExactly | src/main/java/com/deaifish/excel2db/service/impl/QkzlmaServiceImpl.java:134-147 | a row is kept exactly when mc, zdlx and bm are all non-blank; kept rows keep sheet order and differ from their input only in dh = getPinyin(mc) |
| QkzlmbaImport.ValidRowsComplete | src/main/java/com/deaifish/excel2db/service/impl/QkzlmaServiceImpl.java:136-143 | every kept row has non-blank mc, zdlx and bm and dh equal to the initials of mc |
| QkzlmbaImport.ReadSpec | src/main/java/com/deaifish/excel2db/service/impl/QkzlmaServiceImpl.java:120-162 | a failed validation makes no mapper call and fails unwrapped; otherwise getMaxId is called once, and its exception escapes unwrapped; reading succeeds exactly when the upload is valid, getMaxId works and the sheet is readable, with the kept rows; an unreadable sheet fails with RuntimeException("读取Excel文件失败", cause) |
| QkzlmbaImport.ImportSpec | src/main/java/com/deaifish/excel2db/service/impl/QkzlmaServiceImpl.java:166-194 | the first call is always the backup under "zd_qkzlmba_" + yyyyMMdd + "_back_up"; a success returns the number of kept rows |
| QkzlmbaImport.CallOrder | src/main/java/com/deaifish/excel2db/service/impl/QkzlmaServiceImpl.java:170-193 | the calls are always a prefix of backupData, getMaxId, getMaxId, saveAll, removeDuplicates, updateQybm; a success makes either the first two or all six |
| QkzlmbaImport.InvalidUploadNotWrapped | src/main/java/com/deaifish/excel2db/service/impl/QkzlmaServiceImpl.java:122-126 | a rejected upload fails with its own IllegalArgumentException, right after the backup and before getMaxId |
| QkzlmbaImport.UnreadableSheetWrapped | src/main/java/com/deaifish/excel2db/service/impl/QkzlmaServiceImpl.java:153-155 | a read failure becomes RuntimeException("读取Excel文件失败", cause) and nothing is saved |
| QkzlmbaImport.NoValidRowReturnsZero | src/main/java/com/deaifish/excel2db/service/impl/QkzlmaServiceImpl.java:175-178 | with no complete row the import returns 0 after backupData and getMaxId, never calling saveAll, removeDuplicates or updateQybm |
| QkzlmbaImport.NumberedValidRows | src/main/java/com/deaifish/excel2db/service/impl/QkzlmaServiceImpl.java:181-184 | saveAll gets the kept rows in order; the m-th has sysid maxId + m + 1, so the ids are consecutive, increasing and above the old maximum, given no overflow |
| QkzlmbaImport.SavedRowsKeepDefaults | src/main/java/com/deaifish/excel2db/bean/QkzlmbaPO.java:39-54 | rows read into fresh records are saved with state 1 and fCqjkwt 0, as `new QkzlmbaPO()` sets them, since no step of the import writes those fields |
| QkzlmbaImport.SuccessfulImport | src/main/java/com/deaifish/excel2db/service/impl/QkzlmaServiceImpl.java:166-194 | with a complete row and no failure, the six calls are made in order, saveAll receives the numbered kept rows, and the result is the kept-row count, not the table size after deduplication |
| QkzlmbaImport.SaveFailureWrapped | src/main/java/com/deaifish/excel2db/service/impl/QkzlmaServiceImpl.java:197-206 | a saveAll exception becomes RuntimeException("批量保存数据失败", cause) and the import stops there |
| QkzlmbaImport.QkzlmbaService.OnApplicationEvent | src/main/java/com/deaifish/excel2db/service/impl/QkzlmaServiceImpl.java:64-68 | registers the service under "qkzlmba"; getService(QKZLMA) then returns it and the language entry is unchanged |
| QkzlmbaImport.QkzlmbaService.CollectValidRows | src/main/java/com/deaifish/excel2db/service/impl/QkzlmaServiceImpl.java:133-148 | the listener loop builds exactly ValidRows, and its counter equals the list's length |
| QkzlmbaImport.QkzlmbaService.ReadExcel | src/main/java/com/deaifish/excel2db/service/impl/QkzlmaServiceImpl.java:120-162 | the mapper calls and the result are those of ReadSpec |
| QkzlmbaImport.QkzlmbaService.SaveDataBatch | src/main/java/com/deaifish/excel2db/service/impl/QkzlmaServiceImpl.java:197-206 | one saveAll with the given rows; its failure is wrapped in RuntimeException |
| QkzlmbaImport.QkzlmbaService.ImportExcel | src/main/java/com/deaifish/excel2db/service/impl/QkzlmaServiceImpl.java:166-194 | the mapper calls and the result are those of ImportSpec |
| LanguageImport.Required | src/main/java/com/deaifish/excel2db/service/impl/LanguageServiceImpl.java:137 | a row that passes has chinese and other both present and non-empty |
| LanguageImport.WithSqbm | src/main/java/com/deaifish/excel2db/service/impl/LanguageServiceImpl.java:141 | the row's sqbm becomes "-2" and no other field changes |
| LanguageImport.ValidRows | src/main/java/com/deaifish/excel2db/service/impl/LanguageServiceImpl.java:134-146 | the listener keeps one row per position in KeptIndices, never more rows than it reads |
| LanguageImport.NoneValid | src/main/java/com/deaifish/excel2db/service/impl/LanguageServiceImpl.java:137-140 | the listener collects nothing exactly when no row has chinese and other both non-blank |
| LanguageImport.ValidRowsExactly | src/main/java/com/deaifish/excel2db/service/impl/LanguageServiceImpl.java:135-145 | a row is kept exactly when chinese and other are both non-blank; kept rows keep sheet order and differ from their input only in sqbm = "-2" |
| LanguageImport.ValidRowsComplete | src/main/java/com/deaifish/excel2db/service/impl/LanguageServiceImpl.java:137-142 | every kept row has non-blank chinese and other and sqbm "-2" |
| LanguageImport.ReadSpec | src/main/java/com/deaifish/excel2db/service/impl/LanguageServiceImpl.java:122-160 | a rejected upload fails unwrapped; reading succeeds exactly when the upload is valid and readable, with the kept rows; an unreadable sheet fails with RuntimeException("读取Excel文件失败", cause) |
| LanguageImport.ImportSpec | src/main/java/com/deaifish/excel2db/service/impl/LanguageServiceImpl.java:170-194 | the first call is always the backup under "zd_language_" + yyyyMMdd + "_back_up"; a success returns the number of kept rows |
| LanguageImport.CallOrder | src/main/java/com/deaifish/excel2db/service/impl/LanguageServiceImpl.java:174-190 | the calls are always a prefix of backupData, getMaxId, saveAll, removeDuplicates, updateSqbm, and a success makes all five |
| LanguageImport.InvalidUploadNotWrapped | src/main/java/com/deaifish/excel2db/service/impl/LanguageServiceImpl.java:124 | a rejected upload fails with its own IllegalArgumentException, right after the backup |
| LanguageImport.UnreadableSheetWrapped | src/main/java/com/deaifish/excel2db/service/impl/LanguageServiceImpl.java:151-153 | a read failure becomes RuntimeException("读取Excel文件失败", cause) right after the backup |
| LanguageImport.EmptyImportStillWrites | src/main/java/com/deaifish/excel2db/service/impl/LanguageServiceImpl.java:178-193 | with no complete row the import still calls getMaxId, saveAll with an empty list, removeDuplicates and updateSqbm, then returns 0 |
| LanguageImport.NumberedValidRows | src/main/java/com/deaifish/excel2db/service/impl/LanguageServiceImpl.java:181-184 | saveAll gets the kept rows in order, the m-th with id maxId + m + 1, given no overflow |
| LanguageImport.SavedSqbmIsDefault | src/main/java/com/deaifish/excel2db/bean/LanguagePO.java:32 | every saved row has sqbm "-2", the value `new LanguagePO()` starts with, whatever the sheet held |
| LanguageImport.SuccessfulImport | src/main/java/com/deaifish/excel2db/service/impl/LanguageServiceImpl.java:170-194 | with no failure, the five calls are made in order, saveAll receives the numbered kept rows, and the result is the kept-row count |
| LanguageImport.SaveFailureWrapped | src/main/java/com/deaifish/excel2db/service/impl/LanguageServiceImpl.java:202-211 | a saveAll exception becomes RuntimeException("批量保存数据失败", cause) and the import stops there |
| LanguageImport.LanguageService.OnApplicationEvent | src/main/java/com/deaifish/excel2db/service/impl/LanguageServiceImpl.java:56-61 | registers the service under "language"; getService(LANGUAGE) then returns it and the qkzlmba entry is unchanged |
| LanguageImport.LanguageService.CollectValidRows | src/main/java/com/deaifish/excel2db/service/impl/LanguageServiceImpl.java:134-146 | the listener loop builds exactly ValidRows, and its counter equals the list's length |
| LanguageImport.LanguageService.ReadExcel | src/main/java/com/deaifish/excel2db/service/impl/LanguageServiceImpl.java:122-160 | the result is ReadSpec, with no mapper call |
| LanguageImport.LanguageService.SaveDataBatch | src/main/java/com/deaifish/excel2db/service/impl/LanguageServiceImpl.java:202-211 | one saveAll with the given rows; its failure is wrapped in RuntimeException |
| LanguageImport.LanguageService.ImportExcel | src/main/java/com/deaifish/excel2db/service/impl/LanguageServiceImpl.java:170-194 | the mapper calls and the result are those of ImportSpec |
| Startup.ApplicationReady | src/main/java/com/deaifish/excel2db/Excel2dbApplication.java:14-17 | once the application is ready and both handlers have run, in either order, "qkzlmba" and "LANGUAGE" find their services and "qkzlma" fails |

## Left out

- The mapper SQL for backupData, removeDuplicates, updateQybm/updateSqbm, getMaxId and saveAll is not part of this model. The mapper only logs calls and holds no table, so nothing is stated about deduplication or the table's contents afterwards.
- Storage.Mapper: a failing operation fails the same way every time within a run, so a second getMaxId succeeds whenever the first one did. Failures that change between calls are not modelled.
- Storage.Mapper.GetMaxId: getMaxId returns an Integer that may be null (as MAX over an empty table would be), and unboxing null throws NullPointerException. The model always returns an int.
- `@Transactional` rollback of a failed import is not modelled. A failure leaves the calls already made in the log.
- The registry is a `ConcurrentHashMap`; its thread safety is not modelled.
- The ApplicationReadyEvent handlers fetch their own proxy beans from the ApplicationContext. The OnApplicationEvent methods register the service object itself instead, and Startup.ApplicationReady runs both handlers without modelling Spring's event dispatch.
- Rows are values: a setter returns an updated row. EasyExcel's page list and poList share the same row objects, and that aliasing is not modelled.
- EasyExcel reads the sheet in pages of rows. The model reads the sheet as one list, which RowFilter.SelectAppend shows gives the same result.
- EasyExcel's parsing of the upload's bytes, the temporary file, and its mainName prefix are not modelled. An upload's content is either its rows or a reason it cannot be read.
- The temporary file's prefix is `FileUtil.mainName` of the upload's name (src/main/java/com/deaifish/excel2db/util/ExcelUtil.java:110-114), and `java.io.File.createTempFile` rejects a prefix shorter than three characters. In the service, an upload named like "ab.xlsx" or "数据.xlsx" therefore fails to read, with the exception wrapped in RuntimeException("读取Excel文件失败", cause). The model does not capture this: it reads such an upload like any other, and its content decides whether the read succeeds.
- getTemplate in both services and convertToFile's copy loop are stream and file I/O and are not modelled. `ExcelUtil.formatFileSize` uses floating point and is not modelled either.
- `Pinyin.toPinyin` is a foreign library. It is a parameter that returns a non-empty syllable for each character.
- LocalDate.now() is replaced by a date parameter. ValidDate allows days up to 31 in every month.
- JavaStrings.LowerCase: case folding covers only the ASCII letters, not all of Unicode. The same holds for EqualsIgnoreCase.
- JavaStrings.IsBlankChar lists hutool's blank characters as a fixed set rather than asking Character.isWhitespace and Character.isSpaceChar.
- QkzlmbaImport.NumberedValidRows: the ids are stated as maxId + m + 1 only when they fit in an int. RowFilter.NumberedIds, RowFilter.AssignIds and JavaStrings.Inc32 state the wrap to negative ids past Integer.MAX_VALUE.
- LanguageImport.NumberedValidRows: the same no-overflow restriction as QkzlmbaImport.NumberedValidRows.
- TemplateType.getName, the display name, is used by no operation of the import core and is not modelled.
- The HTTP controller, the exception handler, the response envelopes and the configuration are outside the import core and are not modelled.
