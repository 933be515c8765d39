/** The languages the code editor can highlight, and the check that maps any other language
    to no highlighting. */
module Languages {
  import opened Wrappers

  /** `GRADIO_SUPPORTED_LANGUAGES`; None (no highlighting) is one of them. */
  const SupportedLanguages: seq<Option<string>> := [
    Some("python"), Some("c"), Some("cpp"), Some("markdown"), Some("latex"), Some("json"),
    Some("html"), Some("css"), Some("javascript"), Some("jinja2"), Some("typescript"),
    Some("yaml"), Some("dockerfile"), Some("shell"), Some("r"), Some("sql"),
    Some("sql-msSQL"), Some("sql-mySQL"), Some("sql-mariaDB"), Some("sql-sqlite"),
    Some("sql-cassandra"), Some("sql-plSQL"), Some("sql-hive"), Some("sql-pgSQL"),
    Some("sql-gql"), Some("sql-gpSQL"), Some("sql-sparkSQL"), Some("sql-esper"), None
  ]

  /** `get_gradio_language(language)`: a supported language is kept, any other becomes None. */
  function GradioLanguage(language: Option<string>): (r: Option<string>)
    ensures r in SupportedLanguages
    ensures language in SupportedLanguages ==> r == language
    ensures language !in SupportedLanguages ==> r == None
  {
    if language in SupportedLanguages then language else None
  }

  /** Applying the check twice gives the result of applying it once. */
  lemma GradioLanguageIdempotent(language: Option<string>)
    ensures GradioLanguage(GradioLanguage(language)) == GradioLanguage(language)
  {
  }
}
