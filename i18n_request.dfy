/**
 * The per-request i18n configuration: the locale the request asks for is
 * normalised to a supported one, and that locale's message catalog is loaded.
 */
module I18nRequest {
  import opened Wrappers
  import opened I18nRouting

  /**
   * The requested locale if it is supported, the default locale otherwise
   * (including when the request carries no locale at all).
   */
  function NormalizeLocale(requested: Option<string>): (l: string)
    ensures IsLocale(l)
    ensures requested.Some? && IsLocale(requested.value) ==> l == requested.value
    ensures !(requested.Some? && IsLocale(requested.value)) ==> l == DefaultLocale
  {
    if requested.Some? && IsLocale(requested.value) then requested.value else DefaultLocale
  }

  /** Normalising a normalised locale changes nothing. */
  lemma NormalizeLocaleIdempotent(requested: Option<string>)
    ensures NormalizeLocale(Some(NormalizeLocale(requested))) == NormalizeLocale(requested)
  {
  }

  /**
   * The module `loadMessages` imports for a locale: one catalog per
   * supported locale, the Chinese catalog for anything else.
   */
  function MessagesModule(locale: string): (path: string)
    ensures IsLocale(locale) ==> path == "../messages/" + locale + ".json"
    ensures !IsLocale(locale) ==> path == "../messages/" + DefaultLocale + ".json"
  {
    match locale
    case "zh" => "../messages/zh.json"
    case "en" => "../messages/en.json"
    case "ja" => "../messages/ja.json"
    case "fr" => "../messages/fr.json"
    case "ko" => "../messages/ko.json"
    case "de" => "../messages/de.json"
    case _ => "../messages/zh.json"
  }

  /** Two locales share a catalog only when one of them is not supported. */
  lemma MessagesModuleInjective(a: string, b: string)
    requires IsLocale(a) && IsLocale(b) && a != b
    ensures MessagesModule(a) != MessagesModule(b)
  {
    var pa := MessagesModule(a);
    var pb := MessagesModule(b);
    assert pa[12..14] == a && pb[12..14] == b;
  }

  /** What the request config returns: the locale and the catalog it loaded. */
  datatype RequestConfig = RequestConfig(locale: string, messages: string)

  function GetRequestConfig(requested: Option<string>): (c: RequestConfig)
    ensures IsLocale(c.locale) && c.locale == NormalizeLocale(requested)
    ensures c.messages == "../messages/" + c.locale + ".json"
  {
    var locale := NormalizeLocale(requested);
    RequestConfig(locale, MessagesModule(locale))
  }
}
