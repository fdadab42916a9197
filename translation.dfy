/** `translate_to_hindi`: the translation collaborator (source language
    detected automatically, target Hindi) applied to a text; on failure the
    text is passed through untranslated. */
module Translation {
  import opened Wrappers

  function TranslateToHindi(text: string, translator: string -> Outcome<string>): (r: string)
    ensures translator(text).Raised? ==> r == text
    ensures translator(text).Ok? ==> r == translator(text).value
  {
    match translator(text)
    case Ok(translated) => translated
    case Raised => text
  }
}
