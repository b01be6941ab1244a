/** The option values of the two drop-down selectors of the start page. They
    are what the client stores and later sends as `selectedCountry` and
    `translatedLanguage`; the lemmas of the route modules run them through the
    routes' language tables. */
module Selectors {

  /** The values of the "Menu Language" selector, in display order. */
  const CountryOptions: seq<string> :=
    ["Japan", "France", "Spain", "Germany", "Korea", "Vietnam", "Thailand", "English", "China"]

  /** The values of the "User Language" selector, in display order. */
  const LanguageOptions: seq<string> :=
    ["日本語", "フランス語", "スペイン語", "ドイツ語", "韓国語", "ベトナム語", "タイ語", "英語", "中国語"]
}
