/**
 * The uploaded file as the import sees it, and ExcelUtil's checks on its name and size.
 * The bytes of the upload are not modelled: `content` is what EasyExcel would make of them.
 */
module ExcelUtil {
  import opened Wrappers
  import opened Failures
  import opened JavaStrings

  /** What EasyExcel reads from the upload: the row records of its first sheet, or a failure. */
  datatype Sheet<R> = Rows(rows: seq<R>) | Unreadable(reason: string)

  /** A Spring MultipartFile: its original name (possibly null), its size and its content. */
  datatype MultipartFile<R> = MultipartFile(originalFilename: JString, size: int, content: Sheet<R>) {
    /** MultipartFile.isEmpty: the upload holds no bytes. */
    predicate IsEmpty() {
      size == 0
    }
  }

  /** EXCEL_EXTENSIONS. */
  const EXCEL_EXTENSIONS: seq<string> := [".xls", ".xlsx"]

  /** DEFAULT_MAX_SIZE: 10 MB. */
  const DEFAULT_MAX_SIZE: int := 10 * 1024 * 1024

  const EMPTY_FILE_MESSAGE := "文件不能为空"
  const BAD_FORMAT_MESSAGE := "文件格式不正确，仅支持.xlsx和.xls格式"
  const TOO_LARGE_MESSAGE := "文件大小不能超过10MB"

  /** The early-returning loop of isExcelFile over the extension list. */
  function EndsWithAny(name: string, extensions: seq<string>): (r: bool)
    ensures r <==> exists k | 0 <= k < |extensions| :: EndsWith(name, extensions[k])
  {
    if extensions == [] then false
    else if EndsWith(name, extensions[0]) then true
    else
      assert forall k | 1 <= k < |extensions| :: extensions[k] == extensions[1..][k - 1];
      EndsWithAny(name, extensions[1..])
  }

  /** isExcelFile: a non-null, non-empty name whose lower-cased form ends with ".xls" or ".xlsx". */
  function IsExcelFile(filename: JString): (r: bool)
    ensures r <==> (filename.Some?
      && (EndsWith(LowerCase(filename.value), ".xls") || EndsWith(LowerCase(filename.value), ".xlsx")))
    ensures filename.None? || filename == Some("") ==> !r
  {
    if filename.None? || filename.value == [] then false
    else
      var r := EndsWithAny(LowerCase(filename.value), EXCEL_EXTENSIONS);
      assert r <==> (EndsWith(LowerCase(filename.value), EXCEL_EXTENSIONS[0])
        || EndsWith(LowerCase(filename.value), EXCEL_EXTENSIONS[1]));
      r
  }

  /** checkFileSize(fileSize, maxSize): positive and at most the limit. */
  function CheckFileSize(fileSize: int, maxSize: int): (r: bool)
    ensures r <==> 0 < fileSize <= maxSize
  {
    fileSize > 0 && fileSize <= maxSize
  }

  /**
   * An empty upload never passes, and a size that passes under one limit passes under any larger
   * one; the default limit admits exactly 10 MB and rejects one byte more.
   */
  lemma CheckFileSizeBounds(fileSize: int, maxSize: int, larger: int)
    ensures !CheckFileSize(0, maxSize)
    ensures CheckFileSize(fileSize, maxSize) && maxSize <= larger ==> CheckFileSize(fileSize, larger)
    ensures CheckFileSizeDefault(DEFAULT_MAX_SIZE) && !CheckFileSizeDefault(DEFAULT_MAX_SIZE + 1)
  {
  }

  /** checkFileSize(fileSize): the same check against 10 MB. */
  function CheckFileSizeDefault(fileSize: int): (r: bool)
    ensures r <==> 1 <= fileSize <= 10485760
  {
    CheckFileSize(fileSize, DEFAULT_MAX_SIZE)
  }

  /**
   * validateMultipartFile: rejects, in this order, a missing or empty upload, a name that is not
   * an Excel name, and a size outside (0, 10 MB]; each with IllegalArgumentException.
   */
  function ValidateMultipartFile<R>(file: Option<MultipartFile<R>>): (r: Outcome<Failure>)
    ensures r.Pass? <==> (file.Some? && file.value.size != 0
      && IsExcelFile(file.value.originalFilename) && 0 < file.value.size <= DEFAULT_MAX_SIZE)
    ensures file.None? || file.value.IsEmpty() ==> r == Fail(IllegalArgument(EMPTY_FILE_MESSAGE))
    ensures (file.Some? && !file.value.IsEmpty() && !IsExcelFile(file.value.originalFilename))
      ==> r == Fail(IllegalArgument(BAD_FORMAT_MESSAGE))
    ensures (file.Some? && !file.value.IsEmpty() && IsExcelFile(file.value.originalFilename)
      && !CheckFileSizeDefault(file.value.size)) ==> r == Fail(IllegalArgument(TOO_LARGE_MESSAGE))
  {
    if file.None? || file.value.IsEmpty() then Fail(IllegalArgument(EMPTY_FILE_MESSAGE))
    else if !IsExcelFile(file.value.originalFilename) then Fail(IllegalArgument(BAD_FORMAT_MESSAGE))
    else if !CheckFileSizeDefault(file.value.size) then Fail(IllegalArgument(TOO_LARGE_MESSAGE))
    else Pass
  }

  /**
   * getFileExtension: the text from the last '.' on, when that dot is neither the first nor the
   * last character; otherwise "".
   */
  function GetFileExtension(filename: JString): (r: string)
    ensures r != [] <==> filename.Some? && 0 < LastIndexOf(filename.value, '.') < |filename.value| - 1
    ensures r != [] ==> (2 <= |r| < |filename.value| && r[0] == '.' && '.' !in r[1..]
      && EndsWith(filename.value, r))
  {
    if filename.None? || filename.value == [] then ""
    else
      var name := filename.value;
      var lastDotIndex := LastIndexOf(name, '.');
      if 0 < lastDotIndex < |name| - 1 then name[lastDotIndex..] else ""
  }

  /**
   * getMainName: the text before the last '.', when there is a dot after the first character;
   * otherwise the whole name; "" for null or empty.
   */
  function GetMainName(filename: JString): (r: string)
    ensures filename.None? ==> r == ""
    ensures filename.Some? && LastIndexOf(filename.value, '.') > 0 ==>
      r == filename.value[..LastIndexOf(filename.value, '.')]
    ensures filename.Some? && LastIndexOf(filename.value, '.') <= 0 ==> r == filename.value
  {
    if filename.None? || filename.value == [] then ""
    else
      var name := filename.value;
      var lastDotIndex := LastIndexOf(name, '.');
      if lastDotIndex > 0 then name[..lastDotIndex] else name
  }

  /** A name with a real extension splits into main name and extension, and back. */
  lemma MainNameThenExtension(filename: JString)
    requires GetFileExtension(filename) != ""
    ensures GetMainName(filename) + GetFileExtension(filename) == filename.value
  {
    var name := filename.value;
    var k := LastIndexOf(name, '.');
    assert name[..k] + name[k..] == name;
  }

  /**
   * A leading dot is not an extension, nor is a trailing one; with a real extension the main
   * name keeps everything before the last dot.
   */
  lemma ExtensionExamples()
    ensures GetFileExtension(Some(".bashrc")) == "" && GetMainName(Some(".bashrc")) == ".bashrc"
    ensures GetFileExtension(Some("a.")) == "" && GetMainName(Some("a.")) == "a"
    ensures GetFileExtension(Some("a.b.xlsx")) == ".xlsx" && GetMainName(Some("a.b.xlsx")) == "a.b"
  {
    LastDotAt(".bashrc", 0);
    LastDotAt("a.", 1);
    LastDotAt("a.b.xlsx", 3);
  }

  /** The last dot is at k when there is a dot at k and none after it. */
  lemma LastDotAt(s: string, k: nat)
    requires k < |s| && s[k] == '.' && forall i | k < i < |s| :: s[i] != '.'
    ensures LastIndexOf(s, '.') == k
  {
    assert s[k] in s;
  }

  /**
   * The suffix convertToFile gives its temporary copy: from the last '.' of the original name when
   * it has one, ".xlsx" otherwise; a null name is read as "temp".
   */
  function TempFileSuffix(originalFilename: JString): (r: string)
    ensures |r| >= 1 && r[0] == '.' && '.' !in r[1..]
    ensures originalFilename.Some? && '.' in originalFilename.value ==> EndsWith(originalFilename.value, r)
    ensures originalFilename.None? || '.' !in originalFilename.value ==> r == ".xlsx"
  {
    var name := if originalFilename.None? then "temp" else originalFilename.value;
    if '.' in name then name[LastIndexOf(name, '.')..] else ".xlsx"
  }

  /**
   * Where getFileExtension finds an extension the temporary copy gets the same suffix; the two
   * differ on a trailing dot, which convertToFile keeps as the suffix ".".
   */
  lemma TempFileSuffixAgrees(filename: JString)
    ensures GetFileExtension(filename) != "" ==> TempFileSuffix(filename) == GetFileExtension(filename)
    ensures TempFileSuffix(Some("a.")) == "." && GetFileExtension(Some("a.")) == ""
  {
    LastDotAt("a.", 1);
  }
}
