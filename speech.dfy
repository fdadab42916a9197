/** `generate_tts_audio`: the speech collaborator writes the text, spoken,
    to an output file and reports where; on failure there is no audio. */
module Speech {
  import opened Wrappers

  /** The default `output_file`. */
  const DefaultOutputFile := "news_summary.mp3"

  function GenerateTtsAudio(text: string, outputFile: string, synthesize: (string, string) -> Outcome<string>): (r: Option<string>)
    ensures r.None? <==> synthesize(text, outputFile).Raised?
    ensures r.Some? ==> r.value == synthesize(text, outputFile).value
  {
    match synthesize(text, outputFile)
    case Ok(audio) => Some(audio)
    case Raised => None
  }
}
