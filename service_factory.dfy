/**
 * Excel2DBServiceFactory: the registry from template code to the service that imports it.
 * S is the type of the registered services.
 */
module ServiceFactory {
  import opened Wrappers
  import opened Failures
  import opened JavaStrings
  import opened TemplateTypes

  /** The message getService(TemplateType) throws when nothing is registered for the code. */
  function NotRegisteredMessage(t: TemplateType): string {
    "未找到模板类型 " + t.Code() + " 对应的Service实现"
  }

  class Excel2DBServiceFactory<S> {
    /** serviceMap: template code to service. */
    var serviceMap: map<string, S>

    constructor ()
      ensures serviceMap == map[]
    {
      serviceMap := map[];
    }

    /** registerService: store `service` under the template's code, replacing any earlier one. */
    method RegisterService(templateType: TemplateType, service: S)
      modifies this
      ensures serviceMap == old(serviceMap)[templateType.Code() := service]
      ensures GetService(templateType) == Success(service)
      ensures forall t: TemplateType :: t != templateType ==> GetService(t) == old(GetService(t))
    {
      serviceMap := serviceMap[templateType.Code() := service];
    }

    /** getService(TemplateType): the service stored under the type's code, or IllegalArgumentException. */
    function GetService(templateType: TemplateType): (r: Result<S, Failure>)
      reads this
      ensures r.Success? <==> templateType.Code() in serviceMap
      ensures r.Success? ==> r.value == serviceMap[templateType.Code()]
      ensures r.Failure? ==> r.error == IllegalArgument(NotRegisteredMessage(templateType))
    {
      if templateType.Code() in serviceMap then Success(serviceMap[templateType.Code()])
      else Failure(IllegalArgument(NotRegisteredMessage(templateType)))
    }

    /**
     * getService(String): resolve the code with fromCode first (an unknown code fails there,
     * before the map is consulted), then look the constant up.
     */
    function GetServiceByCode(templateCode: JString): (r: Result<S, Failure>)
      reads this
      ensures FromCode(templateCode).Failure? ==> r == Failure(IllegalArgument(UnknownTemplateMessage(templateCode)))
      ensures FromCode(templateCode).Success? ==> r == GetService(FromCode(templateCode).value)
      ensures r.Success? ==> exists t: TemplateType ::
        EqualsIgnoreCase(t.Code(), templateCode) && t.Code() in serviceMap && r.value == serviceMap[t.Code()]
    {
      match FromCode(templateCode)
      case Failure(e) => Failure(e)
      case Success(t) => GetService(t)
    }
  }

  /**
   * With both codes registered, a request for "qkzlmba" or for "LANGUAGE" in any case finds the
   * service stored under it, and the spelling "qkzlma" is rejected by fromCode.
   */
  lemma StartupLookups<S>(factory: Excel2DBServiceFactory<S>)
    requires "qkzlmba" in factory.serviceMap && "language" in factory.serviceMap
    ensures factory.GetServiceByCode(Some("qkzlmba")) == Success(factory.serviceMap["qkzlmba"])
    ensures factory.GetServiceByCode(Some("LANGUAGE")) == Success(factory.serviceMap["language"])
    ensures factory.GetServiceByCode(Some("qkzlma")).Failure?
  {
    assert FromCode(Some("qkzlmba")) == Success(QKZLMA) by {
      FromCodeRoundTrip(QKZLMA);
    }
    assert FromCode(Some("LANGUAGE")) == Success(LANGUAGE) by {
      FromCodeIgnoresCase(LANGUAGE, "LANGUAGE");
    }
    assert FromCode(Some("qkzlma")).Failure? by {
      UnknownCodes();
    }
  }
}
