/**
 * The row records of the two templates. A field EasyExcel does not fill keeps the value the
 * record's no-argument constructor gives it; a null reference is None.
 */
module Beans {
  import opened Wrappers
  import opened JavaStrings

  /** QkzlmbaPO: one row of zd_qkzlmba. mc, zdlx, bm, fcrb and remark come from the sheet. */
  datatype QkzlmbaPO = QkzlmbaPO(
    sysid: Option<Int32>,
    dh: JString,
    mc: JString,
    state: Option<Int32>,
    zdlx: JString,
    bm: JString,
    fCqjkwt: Option<Int32>,
    fcrb: JString,
    remark: JString)

  /** `new QkzlmbaPO()`: state 1, fCqjkwt 0, fcrb "1", every other field null. */
  const NEW_QKZLMBA_PO := QkzlmbaPO(None, None, None, Some(1), None, None, Some(0), Some("1"), None)

  /** LanguagePO: one row of zd_language. chinese and other come from the sheet. */
  datatype LanguagePO = LanguagePO(id: Option<Int32>, chinese: JString, other: JString, sqbm: JString)

  /** `new LanguagePO()`: sqbm "-2", every other field null. */
  const NEW_LANGUAGE_PO := LanguagePO(None, None, None, Some("-2"))
}
