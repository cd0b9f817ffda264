/** TemplateType: the registered import templates and the case-insensitive lookup by code. */
module TemplateTypes {
  import opened Wrappers
  import opened Failures
  import opened JavaStrings

  datatype TemplateType = LANGUAGE | QKZLMA {
    /** The stable key a template is registered and requested under. */
    function Code(): string {
      match this
      case LANGUAGE => "language"
      case QKZLMA => "qkzlmba"
    }
  }

  /** `TemplateType.values()`, in declaration order. */
  const VALUES: seq<TemplateType> := [LANGUAGE, QKZLMA]

  /** The first of `types` whose code equals `code` ignoring case. */
  function Find(types: seq<TemplateType>, code: JString): (r: Option<TemplateType>)
    ensures r.Some? ==> r.value in types && EqualsIgnoreCase(r.value.Code(), code)
    ensures types != [] && EqualsIgnoreCase(types[0].Code(), code) ==> r == Some(types[0])
    ensures r.None? <==> forall j | 0 <= j < |types| :: !EqualsIgnoreCase(types[j].Code(), code)
  {
    if types == [] then None
    else if EqualsIgnoreCase(types[0].Code(), code) then Some(types[0])
    else Find(types[1..], code)
  }

  /** The message fromCode throws with. */
  function UnknownTemplateMessage(code: JString): string {
    "未知的模板类型: " + Show(code)
  }

  /** `TemplateType.fromCode`: the constant whose code equals `code` ignoring case, else IllegalArgumentException. */
  function FromCode(code: JString): (r: Result<TemplateType, Failure>)
    ensures r.Success? ==> EqualsIgnoreCase(r.value.Code(), code)
    ensures r.Failure? <==> forall t: TemplateType :: !EqualsIgnoreCase(t.Code(), code)
    ensures r.Failure? ==> r.error == IllegalArgument(UnknownTemplateMessage(code))
  {
    match Find(VALUES, code)
    case Some(t) => Success(t)
    case None => Failure(IllegalArgument(UnknownTemplateMessage(code)))
  }

  /** No two constants share a code, even ignoring case. */
  lemma CodesDistinct(s: TemplateType, t: TemplateType)
    requires EqualsIgnoreCase(s.Code(), Some(t.Code()))
    ensures s == t
  {
  }

  /** Round trip: every constant is found again from its own code. */
  lemma FromCodeRoundTrip(t: TemplateType)
    ensures FromCode(Some(t.Code())) == Success(t)
  {
    var r := FromCode(Some(t.Code()));
    assert EqualsIgnoreCase(t.Code(), Some(t.Code()));
    CodesDistinct(r.value, t);
  }

  /** Lookup ignores case: any capitalisation of a code finds its constant. */
  lemma FromCodeIgnoresCase(t: TemplateType, code: string)
    requires LowerCase(code) == LowerCase(t.Code())
    ensures FromCode(Some(code)) == Success(t)
  {
    var r := FromCode(Some(code));
    assert EqualsIgnoreCase(t.Code(), Some(code));
    assert LowerCase(r.value.Code()) == LowerCase(t.Code());
    CodesDistinct(r.value, t);
  }

  /** The two registered codes, and an upper-case spelling of one. */
  lemma KnownCodes()
    ensures FromCode(Some("language")) == Success(LANGUAGE)
    ensures FromCode(Some("qkzlmba")) == Success(QKZLMA)
    ensures FromCode(Some("QKZLMBA")) == Success(QKZLMA)
  {
    FromCodeRoundTrip(LANGUAGE);
    FromCodeRoundTrip(QKZLMA);
    FromCodeIgnoresCase(QKZLMA, "QKZLMBA");
  }

  /**
   * Null, the spelling "qkzlma" (one letter short of the registered "qkzlmba") and an
   * arbitrary word are all rejected.
   */
  lemma UnknownCodes()
    ensures FromCode(None) == Failure(IllegalArgument("未知的模板类型: null"))
    ensures FromCode(Some("qkzlma")).Failure?
    ensures FromCode(Some("bogus")).Failure?
  {
    assert UnknownTemplateMessage(None) == "未知的模板类型: null";
    forall t: TemplateType ensures !EqualsIgnoreCase(t.Code(), Some("qkzlma")) {
      assert |LowerCase(t.Code())| != |LowerCase("qkzlma")|;
    }
    forall t: TemplateType ensures !EqualsIgnoreCase(t.Code(), Some("bogus")) {
      assert |LowerCase(t.Code())| != |LowerCase("bogus")|;
    }
  }
}
