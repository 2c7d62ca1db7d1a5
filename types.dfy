/** The records of types.ts: pronunciation analyses, words, history entries and the session record. */
module Types {
  import opened Wrappers

  /** One mispronounced part of a word, as the analysis service reports it. */
  datatype PronunciationError = PronunciationError(part: string, issue: string, suggestion: string)

  /** The analysis of one attempt. The score is an opaque number chosen by the service; nothing checks its range. */
  datatype AnalysisResult = AnalysisResult(
    score: int,
    feedback: string,
    errors: seq<PronunciationError>,
    improvementTips: seq<string>,
    transcription: string)

  /** The phase of a session (`AppStatus`). */
  datatype AppStatus =
    | Setup
    | GameIdle
    | GameRecording
    | GameAnalyzing
    | GameResults
    | GameGeneratingReport
    | GameOver
    | Error

  /** One entry of the word list. `isGeneratingImage` is optional in the record type, but every entry
      is created with it set, so it is a plain flag here. */
  datatype WordInfo = WordInfo(text: string, imageUrl: Option<string>, isGeneratingImage: bool)

  /** One scored attempt: a snapshot of the word and the analysis it received. */
  datatype WordResult = WordResult(word: WordInfo, analysis: AnalysisResult)

  /** The session record (`AppState`). */
  datatype AppState = AppState(
    wordList: seq<WordInfo>,
    currentIndex: nat,
    totalScore: int,
    status: AppStatus,
    analysis: Option<AnalysisResult>,
    error: Option<string>,
    history: seq<WordResult>,
    phonologicalReport: Option<string>)

  /** A byte, the element type of `Uint8Array` and of an audio chunk. */
  type Byte = x: int | 0 <= x < 256
}
