/**
 * Application start-up: once Spring publishes ApplicationReadyEvent, each of the two services
 * registers itself with the shared factory.
 */
module Startup {
  import opened Wrappers
  import opened TemplateTypes
  import opened ServiceFactory
  import opened QkzlmbaImport
  import opened LanguageImport

  /**
   * Both ApplicationReadyEvent handlers run. The codes differ, so the order of the two events does
   * not matter, and afterwards a request for "qkzlmba" or "LANGUAGE" finds the right service while
   * the spelling "qkzlma" is rejected.
   */
  method ApplicationReady(factory: Excel2DBServiceFactory<object>, qkzlmba: QkzlmbaService, language: LanguageService)
    modifies factory
    ensures factory.serviceMap == old(factory.serviceMap)["qkzlmba" := qkzlmba]["language" := language]
    ensures factory.serviceMap == old(factory.serviceMap)["language" := language]["qkzlmba" := qkzlmba]
    ensures factory.GetServiceByCode(Some("qkzlmba")) == Success(qkzlmba)
    ensures factory.GetServiceByCode(Some("LANGUAGE")) == Success(language)
    ensures factory.GetServiceByCode(Some("qkzlma")).Failure?
  {
    ghost var before: map<string, object> := factory.serviceMap;
    qkzlmba.OnApplicationEvent(factory);
    language.OnApplicationEvent(factory);
    assert factory.serviceMap == before["qkzlmba" := qkzlmba]["language" := language];
    assert "qkzlmba" != "language";
    assert factory.serviceMap["qkzlmba"] == qkzlmba && factory.serviceMap["language"] == language;
    StartupLookups(factory);
  }
}
