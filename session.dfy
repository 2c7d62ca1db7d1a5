/** The practice session of App.tsx as a state machine over the session record: each handler is a
    function from one record to the next, `Step` applies a user action or an asynchronous completion
    when the screen of the current status offers it, and `Inv` is what every reachable record keeps. */
module Session {
  import opened Wrappers
  import opened Types
  import Text
  import Gemini

  const MicErrorMessage := "No encontré tu micrófono mágico."
  const AnalysisErrorMessage := "Reintenta, la magia falló."

  /** The record the component starts with, and the one a page reload returns to. */
  function Initial(): (s: AppState)
    ensures s.status == Setup && s.wordList == [] && s.currentIndex == 0 && s.totalScore == 0
    ensures s.analysis.None? && s.error.None? && s.history == [] && s.phonologicalReport.None?
  {
    AppState([], 0, 0, Setup, None, None, [], None)
  }

  /** The sum of the scores of a history, front to back. */
  function SumScores(history: seq<WordResult>): int {
    if history == [] then 0 else history[0].analysis.score + SumScores(history[1..])
  }

  lemma {:induction false} SumScoresAppend(history: seq<WordResult>, h: WordResult)
    ensures SumScores(history + [h]) == SumScores(history) + h.analysis.score
  {
    if history == [] {
      assert history + [h] == [h];
    } else {
      assert (history + [h])[1..] == history[1..] + [h];
      SumScoresAppend(history[1..], h);
    }
  }

  // ---------------------------------------------------------------------------
  // Editing the word list on the setup screen.

  /** The entry `addWord` appends for a trimmed word; its image is still being generated. */
  function NewEntry(text: string): (w: WordInfo)
    ensures w.text == text && w.imageUrl.None? && w.isGeneratingImage
  {
    WordInfo(text, None, true)
  }

  /** The first half of `addWord`: a word that trims to nothing is ignored; any other word is appended,
      trimmed, after every existing entry, and nothing else in the record changes. */
  function AddWord(s: AppState, input: string): (r: AppState)
    ensures Text.AllWhiteSpace(input) ==> r == s
    ensures !Text.AllWhiteSpace(input) ==>
      && |r.wordList| == |s.wordList| + 1
      && r.wordList[..|s.wordList|] == s.wordList
      && r.wordList[|s.wordList|] == NewEntry(Text.Trim(input))
      && r.wordList[|s.wordList|].text != []
      && r.(wordList := s.wordList) == s
  {
    var text := Text.Trim(input);
    if text == [] then s else s.(wordList := s.wordList + [NewEntry(text)])
  }

  /** The `map` of an image completion: every entry whose text is `word` (duplicates included) stops
      waiting for its image and, when the image arrived, takes its URL; other entries, the length and
      the order stay as they were. */
  function CompleteImage(words: seq<WordInfo>, word: string, url: Option<string>): (r: seq<WordInfo>)
    ensures |r| == |words|
    ensures forall i :: 0 <= i < |r| ==> r[i].text == words[i].text
    ensures forall i :: 0 <= i < |r| && words[i].text != word ==> r[i] == words[i]
    ensures forall i :: 0 <= i < |r| && words[i].text == word ==>
      && !r[i].isGeneratingImage
      && r[i].imageUrl == (if url.Some? then url else words[i].imageUrl)
  {
    if words == [] then []
    else
      var w := words[0];
      var w' := if w.text != word then w
                else if url.Some? then w.(imageUrl := url, isGeneratingImage := false)
                else w.(isGeneratingImage := false);
      [w'] + CompleteImage(words[1..], word, url)
  }

  /** The second half of `addWord`, when `generateImage` settles: `url` is `None` when it threw. */
  function ApplyImage(s: AppState, word: string, url: Option<string>): (r: AppState)
    ensures r.wordList == CompleteImage(s.wordList, word, url)
    ensures r.(wordList := s.wordList) == s
  {
    s.(wordList := CompleteImage(s.wordList, word, url))
  }

  /** `filter((_, i) => i !== idx)`: exactly position `idx` goes, the others keep their order; an index
      outside the list removes nothing. */
  function RemoveAt(words: seq<WordInfo>, idx: int): (r: seq<WordInfo>)
    ensures 0 <= idx < |words| ==>
      && |r| == |words| - 1
      && (forall j :: 0 <= j < idx ==> r[j] == words[j])
      && (forall j :: idx <= j < |r| ==> r[j] == words[j + 1])
    ensures !(0 <= idx < |words|) ==> r == words
  {
    if words == [] then []
    else (if idx == 0 then [] else [words[0]]) + RemoveAt(words[1..], idx - 1)
  }

  /** The delete button of one entry. */
  function RemoveWord(s: AppState, idx: int): (r: AppState)
    ensures r.wordList == RemoveAt(s.wordList, idx)
    ensures r.(wordList := s.wordList) == s
  {
    s.(wordList := RemoveAt(s.wordList, idx))
  }

  // ---------------------------------------------------------------------------
  // Playing.

  /** "¡VAMOS A JUGAR!": a fresh game over the current list; the error and the last analysis are kept. */
  function StartPlay(s: AppState): (r: AppState)
    ensures r.status == GameIdle && r.currentIndex == 0 && r.totalScore == 0
    ensures r.history == [] && r.phonologicalReport.None?
    ensures r.wordList == s.wordList && r.analysis == s.analysis && r.error == s.error
  {
    s.(status := GameIdle, currentIndex := 0, totalScore := 0, history := [], phonologicalReport := None)
  }

  /** How `startRecording` ends. `MicDenied`: a throw before the recorder is stored, that is a refused
      microphone or a failing `new MediaRecorder(stream)`. `MeterFailed`: a throw after the recorder is
      stored and the buffer emptied, that is from `mediaRecorder.start()` itself (nothing is then
      recording) or from building the level meter. `MicGranted`: everything succeeded. */
  datatype MicOutcome = MicGranted | MicDenied | MeterFailed

  /** The session part of `startRecording`: recording on success; on failure the error message is set
      and the status stays. */
  function StartRecording(s: AppState, mic: MicOutcome): (r: AppState)
    ensures mic.MicGranted? ==> r.status == GameRecording && r.error == s.error
    ensures !mic.MicGranted? ==> r.status == s.status && r.error == Some(MicErrorMessage)
    ensures r.(status := s.status, error := s.error) == s
  {
    if mic.MicGranted? then s.(status := GameRecording) else s.(error := Some(MicErrorMessage))
  }

  /** The recorder stopped: `handleAnalyze` first moves to the analysing screen. */
  function StopRecording(s: AppState): (r: AppState)
    ensures r.status == GameAnalyzing && r.(status := s.status) == s
  {
    s.(status := GameAnalyzing)
  }

  /** `handleAnalyze` when `analyzePronunciation` settles (`None`: it threw). A current index outside
      the list makes the call's argument throw, which lands in the same failure path. On success the
      only place where history and total score change: the attempt is appended and its score added. */
  function FinishAnalysis(s: AppState, result: Option<AnalysisResult>): (r: AppState)
    ensures result.Some? && s.currentIndex < |s.wordList| ==>
      && r.status == GameResults
      && r.analysis == result
      && r.totalScore == s.totalScore + result.value.score
      && r.history == s.history + [WordResult(s.wordList[s.currentIndex], result.value)]
      && r.(status := s.status, analysis := s.analysis, totalScore := s.totalScore, history := s.history) == s
    ensures result.None? || s.currentIndex >= |s.wordList| ==>
      && r.status == GameIdle
      && r.error == Some(AnalysisErrorMessage)
      && r.(status := s.status, error := s.error) == s
  {
    if result.Some? && s.currentIndex < |s.wordList| then
      s.(status := GameResults,
         analysis := result,
         totalScore := s.totalScore + result.value.score,
         history := s.history + [WordResult(s.wordList[s.currentIndex], result.value)])
    else
      s.(status := GameIdle, error := Some(AnalysisErrorMessage))
  }

  /** "Siguiente": the next word while there is one, otherwise on to the report. */
  function Next(s: AppState): (r: AppState)
    ensures s.currentIndex + 1 < |s.wordList| ==>
      && r.currentIndex == s.currentIndex + 1 && r.status == GameIdle && r.analysis.None?
      && r.(currentIndex := s.currentIndex, status := s.status, analysis := s.analysis) == s
    ensures s.currentIndex + 1 >= |s.wordList| ==>
      r.status == GameGeneratingReport && r.(status := s.status) == s
  {
    if s.currentIndex < |s.wordList| - 1 then
      s.(currentIndex := s.currentIndex + 1, status := GameIdle, analysis := None)
    else
      s.(status := GameGeneratingReport)
  }

  /** `generatePhonologicalReport` settled (`None`: it threw): the game is over either way, and a
      report is stored only when one came back. */
  function FinishReport(s: AppState, report: Option<string>): (r: AppState)
    ensures r.status == GameOver
    ensures r.phonologicalReport == if report.Some? then report else s.phonologicalReport
    ensures r.(status := s.status, phonologicalReport := s.phonologicalReport) == s
  {
    if report.Some? then s.(status := GameOver, phonologicalReport := report)
    else s.(status := GameOver)
  }

  // ---------------------------------------------------------------------------
  // The machine.

  /** What can happen to a session: a click on a button of the current screen, or the completion of
      an asynchronous call. */
  datatype Event =
    | AddClicked(input: string)
    | ImageArrived(word: string, url: Option<string>)
    | RemoveClicked(index: int)
    | PlayClicked
    | MicClicked(mic: MicOutcome)
    | StopClicked
    | AnalysisArrived(result: Option<AnalysisResult>)
    | NextClicked
    | ReportArrived(report: Option<string>)
    | RestartClicked

  /** The status whose screen renders the button of a click, or that the completion follows. */
  function ScreenOf(e: Event): AppStatus
    requires !e.ImageArrived?
  {
    match e
    case AddClicked(_) => Setup
    case RemoveClicked(_) => Setup
    case PlayClicked => Setup
    case MicClicked(_) => GameIdle
    case StopClicked => GameRecording
    case AnalysisArrived(_) => GameAnalyzing
    case NextClicked => GameResults
    case ReportArrived(_) => GameGeneratingReport
    case RestartClicked => GameOver
  }

  /** Whether the screen of `s.status` offers the event: each button is rendered only for its status
      (the delete button only next to an existing entry, the play button only under a non-empty list,
      "Siguiente" only beside an analysis), and each completion follows the step that started it.
      Image completions may land at any time. */
  predicate Enabled(s: AppState, e: Event)
    ensures Enabled(s, e) && !e.ImageArrived? ==> s.status == ScreenOf(e)
    ensures Enabled(s, e) && e.RemoveClicked? ==> 0 <= e.index < |s.wordList|
    ensures Enabled(s, e) && e.PlayClicked? ==> |s.wordList| > 0
    ensures Enabled(s, e) && e.NextClicked? ==> s.analysis.Some?
    ensures e.ImageArrived? ==> Enabled(s, e)
  {
    match e
    case AddClicked(_) => s.status == Setup
    case ImageArrived(_, _) => true
    case RemoveClicked(i) => s.status == Setup && 0 <= i < |s.wordList|
    case PlayClicked => s.status == Setup && |s.wordList| > 0
    case MicClicked(_) => s.status == GameIdle
    case StopClicked => s.status == GameRecording
    case AnalysisArrived(_) => s.status == GameAnalyzing
    case NextClicked => s.status == GameResults && s.analysis.Some?
    case ReportArrived(_) => s.status == GameGeneratingReport
    case RestartClicked => s.status == GameOver
  }

  /** One event: ignored when its screen is not shown; the word list changes only on the setup screen,
      by an image completion or by a reload. */
  function Step(s: AppState, e: Event): (r: AppState)
    ensures !Enabled(s, e) ==> r == s
    ensures r.wordList != s.wordList ==> s.status == Setup || e.ImageArrived? || e.RestartClicked?
    ensures e.ImageArrived? ==> r.(wordList := s.wordList) == s
  {
    if !Enabled(s, e) then s
    else match e
      case AddClicked(input) => AddWord(s, input)
      case ImageArrived(word, url) => ApplyImage(s, word, url)
      case RemoveClicked(i) => RemoveWord(s, i)
      case PlayClicked => StartPlay(s)
      case MicClicked(mic) => StartRecording(s, mic)
      case StopClicked => StopRecording(s)
      case AnalysisArrived(result) => FinishAnalysis(s, result)
      case NextClicked => Next(s)
      case ReportArrived(report) => FinishReport(s, report)
      case RestartClicked => Initial()
  }

  /** The record after a sequence of events. */
  function Run(s: AppState, events: seq<Event>): AppState
    decreases |events|
  {
    if events == [] then s else Run(Step(s, events[0]), events[1..])
  }

  // ---------------------------------------------------------------------------
  // What every reachable record keeps.

  /** Scored attempts are the first words of the list, in order. */
  predicate HistoryFollowsWords(s: AppState) {
    && |s.history| <= |s.wordList|
    && forall k :: 0 <= k < |s.history| ==> s.history[k].word.text == s.wordList[k].text
  }

  /** How far the game has got, per status. */
  predicate PhaseConsistent(s: AppState) {
    match s.status
    case Setup => s.history == [] && s.currentIndex == 0 && s.analysis.None?
    case GameIdle => s.currentIndex < |s.wordList| && |s.history| == s.currentIndex && s.analysis.None?
    case GameRecording => s.currentIndex < |s.wordList| && |s.history| == s.currentIndex && s.analysis.None?
    case GameAnalyzing => s.currentIndex < |s.wordList| && |s.history| == s.currentIndex && s.analysis.None?
    case GameResults =>
      && s.currentIndex < |s.wordList| && |s.history| == s.currentIndex + 1
      && s.analysis == Some(s.history[s.currentIndex].analysis)
    case GameGeneratingReport => |s.wordList| > 0 && s.currentIndex == |s.wordList| - 1 && |s.history| == |s.wordList|
    case GameOver => |s.wordList| > 0 && s.currentIndex == |s.wordList| - 1 && |s.history| == |s.wordList|
    case Error => false
  }

  /** The session invariant: the total is the sum of the history's scores, the phase and the history
      agree, the index never runs past the list, the report exists only once the game is over, and the
      `ERROR` status is never entered. */
  predicate Inv(s: AppState) {
    && s.status != Error
    && s.totalScore == SumScores(s.history)
    && s.currentIndex <= |s.wordList|
    && (s.phonologicalReport.Some? ==> s.status == GameOver)
    && HistoryFollowsWords(s)
    && PhaseConsistent(s)
  }

  lemma InitialInv()
    ensures Inv(Initial())
  {
  }

  lemma AddWordPreservesInv(s: AppState, input: string)
    requires Inv(s) && s.status == Setup
    ensures Inv(AddWord(s, input))
  {
  }

  lemma ApplyImagePreservesInv(s: AppState, word: string, url: Option<string>)
    requires Inv(s)
    ensures Inv(ApplyImage(s, word, url))
  {
  }

  lemma RemoveWordPreservesInv(s: AppState, idx: int)
    requires Inv(s) && s.status == Setup
    ensures Inv(RemoveWord(s, idx))
  {
  }

  lemma StartPlayPreservesInv(s: AppState)
    requires Inv(s) && s.status == Setup && |s.wordList| > 0
    ensures Inv(StartPlay(s))
  {
  }

  lemma StartRecordingPreservesInv(s: AppState, mic: MicOutcome)
    requires Inv(s) && s.status == GameIdle
    ensures Inv(StartRecording(s, mic))
  {
  }

  lemma StopRecordingPreservesInv(s: AppState)
    requires Inv(s) && s.status == GameRecording
    ensures Inv(StopRecording(s))
  {
  }

  lemma FinishAnalysisPreservesInv(s: AppState, result: Option<AnalysisResult>)
    requires Inv(s) && s.status == GameAnalyzing
    ensures Inv(FinishAnalysis(s, result))
  {
    if result.Some? {
      var r := FinishAnalysis(s, result);
      SumScoresAppend(s.history, WordResult(s.wordList[s.currentIndex], result.value));
      assert r.history[s.currentIndex].analysis == result.value;
    }
  }

  lemma NextPreservesInv(s: AppState)
    requires Inv(s) && s.status == GameResults
    ensures Inv(Next(s))
  {
  }

  lemma FinishReportPreservesInv(s: AppState, report: Option<string>)
    requires Inv(s) && s.status == GameGeneratingReport
    ensures Inv(FinishReport(s, report))
  {
  }

  /** Every enabled step keeps the invariant (a disabled one changes nothing). */
  lemma StepPreservesInv(s: AppState, e: Event)
    requires Inv(s)
    ensures Inv(Step(s, e))
  {
    if Enabled(s, e) {
      match e
      case AddClicked(input) => AddWordPreservesInv(s, input);
      case ImageArrived(word, url) => ApplyImagePreservesInv(s, word, url);
      case RemoveClicked(i) => RemoveWordPreservesInv(s, i);
      case PlayClicked => StartPlayPreservesInv(s);
      case MicClicked(mic) => StartRecordingPreservesInv(s, mic);
      case StopClicked => StopRecordingPreservesInv(s);
      case AnalysisArrived(result) => FinishAnalysisPreservesInv(s, result);
      case NextClicked => NextPreservesInv(s);
      case ReportArrived(report) => FinishReportPreservesInv(s, report);
      case RestartClicked => InitialInv();
    }
  }

  lemma {:induction false} RunPreservesInv(s: AppState, events: seq<Event>)
    requires Inv(s)
    ensures Inv(Run(s, events))
    decreases |events|
  {
    if events != [] {
      StepPreservesInv(s, events[0]);
      RunPreservesInv(Step(s, events[0]), events[1..]);
    }
  }

  /** A text `addWord` could have stored: non-empty, with no white space at either end (so it is its
      own trim, by `Text.TrimOfTrimmed`). */
  predicate Trimmed(text: string) {
    text != [] && !Text.IsWhiteSpace(text[0]) && !Text.IsWhiteSpace(text[|text| - 1])
  }

  /** Every entry of the list holds a non-empty, already trimmed text. */
  predicate WordsTrimmed(words: seq<WordInfo>) {
    forall i :: 0 <= i < |words| ==> Trimmed(words[i].text)
  }

  lemma AddWordKeepsWordsTrimmed(s: AppState, input: string)
    requires WordsTrimmed(s.wordList)
    ensures WordsTrimmed(AddWord(s, input).wordList)
  {
    var r := AddWord(s, input).wordList;
    if !Text.AllWhiteSpace(input) {
      forall j | 0 <= j < |r|
        ensures Trimmed(r[j].text)
      {
        if j < |s.wordList| {
          assert r[j] == r[..|s.wordList|][j] == s.wordList[j];
        }
      }
    }
  }

  lemma ApplyImageKeepsWordsTrimmed(s: AppState, word: string, url: Option<string>)
    requires WordsTrimmed(s.wordList)
    ensures WordsTrimmed(ApplyImage(s, word, url).wordList)
  {
    var r := ApplyImage(s, word, url).wordList;
    assert forall i :: 0 <= i < |r| ==> r[i].text == s.wordList[i].text;
  }

  lemma RemoveWordKeepsWordsTrimmed(s: AppState, idx: int)
    requires WordsTrimmed(s.wordList)
    ensures WordsTrimmed(RemoveWord(s, idx).wordList)
  {
    var r := RemoveWord(s, idx).wordList;
    forall j | 0 <= j < |r|
      ensures Trimmed(r[j].text)
    {
      var k := if 0 <= idx < |s.wordList| && idx <= j then j + 1 else j;
      assert r[j] == s.wordList[k];
    }
  }

  /** Every step keeps the words trimmed: only the setup handlers, image completions and a reload
      touch the list. */
  lemma StepKeepsWordsTrimmed(s: AppState, e: Event)
    requires WordsTrimmed(s.wordList)
    ensures WordsTrimmed(Step(s, e).wordList)
  {
    if Enabled(s, e) {
      match e
      case AddClicked(input) => AddWordKeepsWordsTrimmed(s, input);
      case ImageArrived(word, url) => ApplyImageKeepsWordsTrimmed(s, word, url);
      case RemoveClicked(i) => RemoveWordKeepsWordsTrimmed(s, i);
      case _ =>
    }
  }

  lemma {:induction false} RunKeepsWordsTrimmed(s: AppState, events: seq<Event>)
    requires WordsTrimmed(s.wordList)
    ensures WordsTrimmed(Run(s, events).wordList)
    decreases |events|
  {
    if events != [] {
      StepKeepsWordsTrimmed(s, events[0]);
      RunKeepsWordsTrimmed(Step(s, events[0]), events[1..]);
    }
  }

  /** Every record reachable from the start keeps the invariant: in particular the total score is the
      sum of the history's scores, the status is never `ERROR` and every word is non-empty and trimmed. */
  lemma ReachableInv(events: seq<Event>)
    ensures var s := Run(Initial(), events);
      && s.totalScore == SumScores(s.history)
      && s.status != Error
      && s.currentIndex <= |s.wordList|
      && (s.status != Setup ==> s.currentIndex < |s.wordList|)
      && (forall i :: 0 <= i < |s.wordList| ==>
            s.wordList[i].text != [] && Text.Trim(s.wordList[i].text) == s.wordList[i].text)
  {
    InitialInv();
    RunPreservesInv(Initial(), events);
    RunKeepsWordsTrimmed(Initial(), events);
    var words := Run(Initial(), events).wordList;
    forall i | 0 <= i < |words|
      ensures words[i].text != [] && Text.Trim(words[i].text) == words[i].text
    {
      Text.TrimOfTrimmed(words[i].text);
    }
  }

  // ---------------------------------------------------------------------------
  // Properties of single steps.

  /** Once set, the error message is never cleared (short of a reload), and only the two failure
      messages are ever written. */
  lemma ErrorIsSticky(s: AppState, e: Event)
    requires !e.RestartClicked?
    ensures s.error.Some? ==> Step(s, e).error.Some?
    ensures Step(s, e).error == s.error
      || Step(s, e).error == Some(MicErrorMessage)
      || Step(s, e).error == Some(AnalysisErrorMessage)
  {
  }

  /** The history only grows, by at most one entry, except when a new game or a reload clears it; the
      history and the total change only on a scored attempt or on those resets. */
  lemma HistoryAppendOnly(s: AppState, e: Event)
    requires !e.PlayClicked? && !e.RestartClicked?
    ensures var r := Step(s, e);
      && s.history <= r.history && |r.history| <= |s.history| + 1
      && ((r.history != s.history || r.totalScore != s.totalScore) ==> e.AnalysisArrived? && r.status == GameResults)
  {
  }

  /** The index moves only by one, on "Siguiente" and while another word remains, or back to zero on a
      new game or a reload. */
  lemma IndexAdvancesByOne(s: AppState, e: Event)
    ensures var r := Step(s, e);
      || r.currentIndex == s.currentIndex
      || (e.NextClicked? && r.currentIndex == s.currentIndex + 1 && r.currentIndex < |s.wordList|)
      || ((e.PlayClicked? || e.RestartClicked?) && r.currentIndex == 0)
  {
  }

  /** On the last word "Siguiente" leads to the report, never to an index equal to the list's length. */
  lemma LastWordLeadsToReport(s: AppState)
    requires Inv(s) && s.status == GameResults && s.currentIndex == |s.wordList| - 1
    ensures Next(s).status == GameGeneratingReport && Next(s).currentIndex < |s.wordList|
  {
  }

  // ---------------------------------------------------------------------------
  // The report input of a whole session.

  function EntryScoreSum(entries: seq<Gemini.ReportEntry>): int {
    if entries == [] then 0 else entries[0].score + EntryScoreSum(entries[1..])
  }

  lemma {:induction false} ReportScoresAreHistoryScores(history: seq<WordResult>)
    ensures EntryScoreSum(Gemini.ReportInput(history)) == SumScores(history)
  {
    if history != [] {
      ReportScoresAreHistoryScores(history[1..]);
      assert Gemini.ReportInput(history)[1..] == Gemini.ReportInput(history[1..]);
    }
  }

  /** The report is asked for with one entry per word of the list, whose scores add up to the total. */
  lemma ReportCarriesWholeGame(s: AppState)
    requires Inv(s) && s.status == GameGeneratingReport
    ensures |Gemini.ReportInput(s.history)| == |s.wordList|
    ensures EntryScoreSum(Gemini.ReportInput(s.history)) == s.totalScore
  {
    ReportScoresAreHistoryScores(s.history);
  }
  // ---------------------------------------------------------------------------
  // A whole game of one word.

  /** Running two sequences of events is running their concatenation. */
  lemma {:induction false} RunAppend(s: AppState, a: seq<Event>, b: seq<Event>)
    ensures Run(s, a + b) == Run(Run(s, a), b)
    decreases |a|
  {
    if a != [] {
      assert (a + b)[1..] == a[1..] + b;
      RunAppend(Step(s, a[0]), a[1..], b);
    } else {
      assert a + b == b;
    }
  }

  lemma RunCons(s: AppState, e: Event, rest: seq<Event>)
    ensures Run(s, [e] + rest) == Run(Step(s, e), rest)
  {
    assert ([e] + rest)[1..] == rest;
  }

  /** Running one more event is one more step. */
  lemma RunSnoc(s: AppState, events: seq<Event>, e: Event)
    ensures Run(s, events + [e]) == Step(Run(s, events), e)
  {
    RunAppend(s, events, [e]);
    RunCons(Run(s, events), e, []);
    assert [e] + [] == [e];
  }

  /** The events of a one-word game: the word is added and played, the attempt is recorded and scored,
      "Siguiente" is pressed on the last (only) word and the report call throws. */
  function OneWordEvents(word: string, a: AnalysisResult): seq<Event> {
    [AddClicked(word), PlayClicked, MicClicked(MicGranted), StopClicked,
     AnalysisArrived(Some(a)), NextClicked, ReportArrived(None)]
  }

  /** Running one more event of a sequence is one more step. */
  lemma RunPrefixStep(s: AppState, events: seq<Event>, k: nat)
    requires k < |events|
    ensures Run(s, events[..k + 1]) == Step(Run(s, events[..k]), events[k])
  {
    assert events[..k + 1] == events[..k] + [events[k]];
    RunSnoc(s, events[..k], events[k]);
  }

  /** The entry a one-word game plays. */
  function OneWordEntry(word: string): WordInfo {
    NewEntry(Text.Trim(word))
  }

  /** The record a one-word game is at before its word is scored. */
  function OneWordUnscored(word: string, status: AppStatus): AppState {
    AppState([OneWordEntry(word)], 0, 0, status, None, None, [], None)
  }

  /** The record a one-word game is at once its word is scored. */
  function OneWordScored(word: string, a: AnalysisResult, status: AppStatus): AppState {
    AppState([OneWordEntry(word)], 0, a.score, status, Some(a), None, [WordResult(OneWordEntry(word), a)], None)
  }

  lemma OneWordAfterAdd(word: string, a: AnalysisResult)
    requires !Text.AllWhiteSpace(word)
    ensures Run(Initial(), OneWordEvents(word, a)[..1]) == OneWordUnscored(word, Setup)
  {
    var ev := OneWordEvents(word, a);
    RunPrefixStep(Initial(), ev, 0);
    assert ev[..0] == [];
  }

  lemma OneWordAfterPlay(word: string, a: AnalysisResult)
    requires !Text.AllWhiteSpace(word)
    ensures Run(Initial(), OneWordEvents(word, a)[..2]) == OneWordUnscored(word, GameIdle)
  {
    OneWordAfterAdd(word, a);
    RunPrefixStep(Initial(), OneWordEvents(word, a), 1);
  }

  lemma OneWordAfterMic(word: string, a: AnalysisResult)
    requires !Text.AllWhiteSpace(word)
    ensures Run(Initial(), OneWordEvents(word, a)[..3]) == OneWordUnscored(word, GameRecording)
  {
    OneWordAfterPlay(word, a);
    RunPrefixStep(Initial(), OneWordEvents(word, a), 2);
  }

  lemma OneWordAfterStop(word: string, a: AnalysisResult)
    requires !Text.AllWhiteSpace(word)
    ensures Run(Initial(), OneWordEvents(word, a)[..4]) == OneWordUnscored(word, GameAnalyzing)
  {
    OneWordAfterMic(word, a);
    RunPrefixStep(Initial(), OneWordEvents(word, a), 3);
  }

  lemma OneWordAfterAnalysis(word: string, a: AnalysisResult)
    requires !Text.AllWhiteSpace(word)
    ensures Run(Initial(), OneWordEvents(word, a)[..5]) == OneWordScored(word, a, GameResults)
  {
    OneWordAfterStop(word, a);
    RunPrefixStep(Initial(), OneWordEvents(word, a), 4);
  }

  lemma OneWordAfterNext(word: string, a: AnalysisResult)
    requires !Text.AllWhiteSpace(word)
    ensures Run(Initial(), OneWordEvents(word, a)[..6]) == OneWordScored(word, a, GameGeneratingReport)
  {
    OneWordAfterAnalysis(word, a);
    RunPrefixStep(Initial(), OneWordEvents(word, a), 5);
  }

  lemma OneWordAfterReport(word: string, a: AnalysisResult)
    requires !Text.AllWhiteSpace(word)
    ensures Run(Initial(), OneWordEvents(word, a)) == OneWordScored(word, a, GameOver)
  {
    var ev := OneWordEvents(word, a);
    OneWordAfterNext(word, a);
    RunPrefixStep(Initial(), ev, 6);
    assert ev[..7] == ev;
  }

  /** A one-word game passes IDLE, RECORDING, ANALYZING, RESULTS with the score counted, and
      GENERATING_REPORT, and ends in OVER with one history entry and without a report (for "gato"
      scored 95, a total of 95). */
  lemma OneWordGame(word: string, a: AnalysisResult)
    requires !Text.AllWhiteSpace(word)
    ensures var ev := OneWordEvents(word, a);
      && Run(Initial(), ev[..1]).status == Setup && |Run(Initial(), ev[..1]).wordList| == 1
      && Run(Initial(), ev[..2]).status == GameIdle
      && Run(Initial(), ev[..3]).status == GameRecording
      && Run(Initial(), ev[..4]).status == GameAnalyzing
      && Run(Initial(), ev[..5]).status == GameResults && Run(Initial(), ev[..5]).totalScore == a.score
      && Run(Initial(), ev[..6]).status == GameGeneratingReport
    ensures var s := Run(Initial(), OneWordEvents(word, a));
      && s.status == GameOver && s.totalScore == a.score && |s.history| == 1
      && s.history[0].word.text == Text.Trim(word) && s.phonologicalReport.None?
  {
    OneWordAfterAdd(word, a);
    OneWordAfterPlay(word, a);
    OneWordAfterMic(word, a);
    OneWordAfterStop(word, a);
    OneWordAfterAnalysis(word, a);
    OneWordAfterNext(word, a);
    OneWordAfterReport(word, a);
  }
}
