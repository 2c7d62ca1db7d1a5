/** The App component as a stateful object: the session record, the text of the word input, the buffer
    of recorded audio chunks and whether a recorder exists. Each handler replaces the session record by
    the matching transition of `Session` and keeps the session invariant. */
module Component {
  import opened Wrappers
  import opened Types
  import Text
  import Gemini
  import S = Session

  /** One `Blob` delivered by `ondataavailable`. */
  type Chunk = seq<Byte>

  /** The number of bytes held in the chunks. */
  function TotalLength(chunks: seq<Chunk>): nat {
    if chunks == [] then 0 else |chunks[0]| + TotalLength(chunks[1..])
  }

  /** `new Blob(chunks)`: the chunks joined in the order they are held; the clip holds every byte of
      every chunk, the first chunk at its front. */
  function Concat(chunks: seq<Chunk>): (clip: seq<Byte>)
    ensures |clip| == TotalLength(chunks)
    ensures chunks != [] ==> clip[..|chunks[0]|] == chunks[0]
  {
    if chunks == [] then [] else chunks[0] + Concat(chunks[1..])
  }

  /** A chunk that arrives later ends up later in the clip. */
  lemma {:induction false} ConcatAppend(chunks: seq<Chunk>, c: Chunk)
    ensures Concat(chunks + [c]) == Concat(chunks) + c
  {
    if chunks == [] {
      assert chunks + [c] == [c];
    } else {
      assert (chunks + [c])[1..] == chunks[1..] + [c];
      ConcatAppend(chunks[1..], c);
    }
  }

  class App {
    var state: AppState
    /** The word input (`newWord`). */
    var newWord: string
    /** `audioChunksRef.current`. */
    var chunks: seq<Chunk>
    /** `mediaRecorderRef.current !== null`. */
    var recorder: bool

    ghost predicate Valid()
      reads this
    {
      S.Inv(state) && (state.status == GameRecording ==> recorder)
    }

    /** The first render: the initial session, an empty input and no recorder. */
    constructor ()
      ensures Valid()
      ensures state == S.Initial() && newWord == "" && chunks == [] && !recorder
    {
      state := S.Initial();
      newWord := "";
      chunks := [];
      recorder := false;
      S.InitialInv();
    }

    /** `onChange` of the word input. */
    method SetNewWord(text: string)
      requires Valid() && state.status == Setup
      modifies this
      ensures Valid()
      ensures newWord == text
      ensures state == old(state) && chunks == old(chunks) && recorder == old(recorder)
    {
      newWord := text;
    }

    /** `addWord` up to the image request: a blank input is ignored and kept; otherwise the trimmed word
        is appended, the input is cleared and the word is returned to be illustrated. */
    method AddWord() returns (pending: Option<string>)
      requires Valid() && state.status == Setup
      modifies this
      ensures Valid()
      ensures state == S.AddWord(old(state), old(newWord))
      ensures pending == if Text.AllWhiteSpace(old(newWord)) then None else Some(Text.Trim(old(newWord)))
      ensures newWord == if pending.None? then old(newWord) else ""
      ensures chunks == old(chunks) && recorder == old(recorder)
    {
      var text := Text.Trim(newWord);
      if text == [] {
        return None;
      }
      S.AddWordPreservesInv(state, newWord);
      state := S.AddWord(state, newWord);
      newWord := "";
      pending := Some(text);
    }

    /** The rest of `addWord`, when `generateImage(word)` settles (`None`: it threw); this may happen
        in any status. */
    method SettleImage(word: string, url: Option<string>)
      requires Valid()
      modifies this
      ensures Valid()
      ensures state == S.ApplyImage(old(state), word, url)
      ensures newWord == old(newWord) && chunks == old(chunks) && recorder == old(recorder)
    {
      S.ApplyImagePreservesInv(state, word, url);
      state := S.ApplyImage(state, word, url);
    }

    /** The delete button of entry `idx`. */
    method RemoveWord(idx: int)
      requires Valid() && state.status == Setup && 0 <= idx < |state.wordList|
      modifies this
      ensures Valid()
      ensures state == S.RemoveWord(old(state), idx)
      ensures newWord == old(newWord) && chunks == old(chunks) && recorder == old(recorder)
    {
      S.RemoveWordPreservesInv(state, idx);
      state := S.RemoveWord(state, idx);
    }

    /** The play button, shown only for a non-empty list. */
    method StartPlay()
      requires Valid() && state.status == Setup && |state.wordList| > 0
      modifies this
      ensures Valid()
      ensures state == S.StartPlay(old(state))
      ensures newWord == old(newWord) && chunks == old(chunks) && recorder == old(recorder)
    {
      S.StartPlayPreservesInv(state);
      state := S.StartPlay(state);
    }

    /** `startRecording`: once a recorder exists the buffer starts empty; only full success moves to
        recording, and any failure sets the microphone error. */
    method StartRecording(mic: S.MicOutcome)
      requires Valid() && state.status == GameIdle
      modifies this
      ensures Valid()
      ensures state == S.StartRecording(old(state), mic)
      ensures chunks == if mic.MicDenied? then old(chunks) else []
      ensures recorder == (old(recorder) || !mic.MicDenied?)
      ensures newWord == old(newWord)
    {
      if !mic.MicDenied? {
        recorder := true;
        chunks := [];
      }
      S.StartRecordingPreservesInv(state, mic);
      state := S.StartRecording(state, mic);
    }

    /** `ondataavailable`: the chunk is pushed at the end of the buffer. */
    method ChunkAvailable(chunk: Chunk)
      requires Valid() && recorder
      modifies this
      ensures Valid()
      ensures chunks == old(chunks) + [chunk]
      ensures Concat(chunks) == Concat(old(chunks)) + chunk
      ensures state == old(state) && newWord == old(newWord) && recorder == old(recorder)
    {
      ConcatAppend(chunks, chunk);
      chunks := chunks + [chunk];
    }

    /** The stop button and `onstop`: the clip is every buffered chunk in arrival order, and
        `handleAnalyze` moves to the analysing screen. */
    method Stop() returns (clip: seq<Byte>)
      requires Valid() && state.status == GameRecording
      modifies this
      ensures Valid()
      ensures clip == Concat(old(chunks))
      ensures state == S.StopRecording(old(state))
      ensures newWord == old(newWord) && chunks == old(chunks) && recorder == old(recorder)
    {
      clip := Concat(chunks);
      S.StopRecordingPreservesInv(state);
      state := S.StopRecording(state);
    }

    /** `analyzePronunciation` settled (`None`: it threw). */
    method SettleAnalysis(result: Option<AnalysisResult>)
      requires Valid() && state.status == GameAnalyzing
      modifies this
      ensures Valid()
      ensures state == S.FinishAnalysis(old(state), result)
      ensures newWord == old(newWord) && chunks == old(chunks) && recorder == old(recorder)
    {
      S.FinishAnalysisPreservesInv(state, result);
      state := S.FinishAnalysis(state, result);
    }

    /** "Siguiente": on the last word the report is requested, for the projection of the whole history. */
    method Next() returns (request: Option<seq<Gemini.ReportEntry>>)
      requires Valid() && state.status == GameResults && state.analysis.Some?
      modifies this
      ensures Valid()
      ensures state == S.Next(old(state))
      ensures request.Some? <==> state.status == GameGeneratingReport
      ensures request.Some? ==>
        request.value == Gemini.ReportInput(old(state).history) && |request.value| == |state.wordList|
      ensures newWord == old(newWord) && chunks == old(chunks) && recorder == old(recorder)
    {
      S.NextPreservesInv(state);
      var before := state;
      state := S.Next(state);
      if state.status == GameGeneratingReport {
        request := Some(Gemini.ReportInput(before.history));
      } else {
        request := None;
      }
    }

    /** `generatePhonologicalReport` settled (`None`: the call threw). */
    method SettleReport(call: Option<Gemini.Response>)
      requires Valid() && state.status == GameGeneratingReport
      modifies this
      ensures Valid()
      ensures state == S.FinishReport(old(state), Gemini.PhonologicalReport(call))
      ensures state.phonologicalReport.Some? <==> call.Some?
      ensures newWord == old(newWord) && chunks == old(chunks) && recorder == old(recorder)
    {
      S.FinishReportPreservesInv(state, Gemini.PhonologicalReport(call));
      state := S.FinishReport(state, Gemini.PhonologicalReport(call));
    }

    /** "¡Jugar de nuevo!" reloads the page: everything is as on the first render. */
    method Reload()
      requires Valid() && state.status == GameOver
      modifies this
      ensures Valid()
      ensures state == S.Initial() && newWord == "" && chunks == [] && !recorder
    {
      state := S.Initial();
      newWord := "";
      chunks := [];
      recorder := false;
      S.InitialInv();
    }
  }
}
