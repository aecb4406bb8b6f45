/** The data shapes of types.ts: the closed set of languages and one row of the
    interpretation history. */
module Types {

  datatype Option<+T> = None | Some(value: T)

  /** The four languages the selector offers (types.ts, enum Language). */
  datatype Language = Korean | English | Japanese | Chinese

  /** The string value each enum member carries; this is what the CSV export writes. */
  function LanguageName(l: Language): string
  {
    match l
    case Korean => "Korean"
    case English => "English"
    case Japanese => "Japanese"
    case Chinese => "Chinese (Mandarin)"
  }

  /** One row of the history. `id` is the decimal rendering of the creation time in
      milliseconds, which is not guaranteed unique; `timestamp` is the creation time
      itself; `error` is present only once processing has failed. */
  datatype TranslationRecord = TranslationRecord(
    id: string,
    timestamp: int,
    sourceLang: Language,
    targetLang: Language,
    originalText: string,
    translatedText: string,
    isLoading: bool,
    error: Option<string>)
}
