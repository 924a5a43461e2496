/**
 * The locale table shared by routing, navigation, the request config and
 * the auth callback.
 */
module I18nRouting {
  /** The supported locales, in the order the language switcher lists them. */
  const Locales: seq<string> := ["zh", "en", "ja", "fr", "ko", "de"]

  /** The locale used when a request names none or an unsupported one. */
  const DefaultLocale: string := "zh"

  /** Every path carries its locale segment, the default one included. */
  const LocalePrefix: string := "always"

  /** The name each locale is shown under, written in that language. */
  const LocaleLabels: map<string, string> := map[
    "zh" := "中文",
    "en" := "English",
    "ja" := "日本語",
    "fr" := "Français",
    "ko" := "한국어",
    "de" := "Deutsch"
  ]

  predicate IsLocale(s: string) {
    s in Locales
  }

  /**
   * The table is consistent: six distinct locales, the default among them,
   * and exactly one label per locale, no two alike.
   */
  lemma LocaleTableConsistent()
    ensures |Locales| == 6 && IsLocale(DefaultLocale)
    ensures forall i, j :: 0 <= i < j < |Locales| ==> Locales[i] != Locales[j]
    ensures LocaleLabels.Keys == set l | l in Locales
    ensures forall a, b :: a in LocaleLabels && b in LocaleLabels && a != b ==> LocaleLabels[a] != LocaleLabels[b]
  {
  }
}
