# Fono practice session, modelled in Dafny

Fono is a browser activity in which a child practises the pronunciation of a list of words. On the setup
screen the adult types words; each is illustrated by a generative service. During play the child hears
each word, records it, and gets a score and feedback from the service. After the last word a report
on the whole practice is written by the same service.

This project models the core of that program:

- `types.dfy` (module `Types`): the records of `types.ts`: pronunciation errors, analyses, word entries,
  history entries, the status enumeration and the session record `AppState`.
- `wrappers.dfy` (module `Wrappers`): `Option` for nullable fields and `Result` for calls that throw.
- `text.dfy` (module `Text`): `String.prototype.trim` as `addWord` uses it, with the ECMAScript set of
  white-space and line-terminator characters.
- `session.dfy` (module `Session`): every handler of `App.tsx` as a function from one session record to
  the next. `Step` applies an event (a click on a button the current screen shows, or the completion
  of an asynchronous call). `Inv` is the session invariant, proved for every record reachable from the
  initial one: the total score is the sum of the history's scores; the history holds exactly the texts of the
  words already scored, in list order; the index never runs past the list; the report exists only at the end;
  and the `ERROR` status is never entered. `WordsTrimmed`, proved for the same records, says that every
  word of the list is non-empty and has no white space at either end.
- `app.dfy` (module `Component`): the component as a class `App`. It holds the session record, the
  word input, the buffer of recorded audio chunks and whether a recorder exists. One method per
  handler replaces the record by the matching `Session` transition and keeps the invariant.
- `gemini.dfy` (module `Gemini`): the plain helpers of `services/gemini.ts`:
  - picking the first inline image part of a response;
  - the history projection sent for the report;
  - the report's fallback text;
  - the byte copy of `decodeBase64`;
  - the channel de-interleaving of `decodeAudioData`.

The calls to the generative service, the microphone, the media recorder and the file reader are not
modelled as code. Their outcomes are inputs of the transitions:
- an image URL or `None` when generation threw;
- `MicGranted` on success; `MicDenied` for a throw before the recorder is stored (a refused microphone,
  or `new MediaRecorder(stream)` failing); `MeterFailed` for a throw after it is stored (from
  `mediaRecorder.start()` itself or from building the level meter);
- an `AnalysisResult` or `None`;
- a service response or `None` for the report.

The score is an opaque integer; nothing checks its range.

The model follows the code as written:
- There is no silence-triggered stop. The two silence constants are never read, and recording ends
  only through the stop button.
- Stream tracks, the animation frame and the audio context are never released.
- The error message is not transient. Once set, it is never cleared short of a page reload. The
  `ERROR` status exists in the enumeration but is never entered.
- A failed start of recording does not always leave the recorder untouched. When the failure comes
  after the recorder is stored (App.tsx:90-91), the chunk buffer has already been emptied and a
  recorder exists, yet the status stays on the idle screen. That is `MeterFailed`. It covers a throw
  from `mediaRecorder.start()` itself, in which case nothing is recording, and a throw while building
  the level meter. A throw from `new MediaRecorder(stream)` comes before the recorder is stored and
  is modelled as `MicDenied`, like a refused microphone.
- If the current index were outside the list, the analysis handler would throw while building the
  call's argument. The throw lands in the handler's failure path, so `FinishAnalysis` treats that
  case as a failed analysis.
- A report call that throws leaves `phonologicalReport` as it was. It does not clear it.

## Model

| member | source | states |
|---|---|---|
| `Text.Trim` | App.tsx:67-68 | the trimmed word neither starts nor ends with white space, and it is empty exactly when the input is all white space (so `" "` is rejected) |
| `Text.TrimIsInfix` | App.tsx:67 | what `trim` keeps is a contiguous piece of the input with only white space around it |
| `Text.TrimOfTrimmed` | App.tsx:67 | a word without white space at either end is its own trim |
| `Text.TrimIdempotent` | App.tsx:67 | trimming a trimmed word changes nothing |
| `Session.Initial` | App.tsx:34-42 | the first record: SETUP, empty list, index 0, total 0, no analysis, error, history or report |
| `Session.NewEntry` | App.tsx:69 | a new entry carries the given text, no image and is waiting for its image |
| `Session.Enabled` | App.tsx:160-245 | an event other than an image completion is offered only on the screen of its status; delete only for an index inside the list, play only under a non-empty list, "Siguiente" only beside an analysis; an image completion is always accepted |
| `Session.Step` | App.tsx:66-256 | an event its screen does not offer changes nothing; the word list changes only on the setup screen, by an image completion or by a reload; an image completion changes only the word list |
| `Session.AddWord` | App.tsx:66-71 | a blank input leaves the record unchanged; any other input appends exactly one entry `{trimmed text, no image, generating}` after the unchanged earlier entries, and nothing else changes |
| `Session.CompleteImage` | App.tsx:74-82 | every entry whose text equals the word, duplicates included, stops generating and takes the URL on success (keeps its own on failure); length, order, texts and other entries are unchanged |
| `Session.ApplyImage` | App.tsx:72-83 | an image completion changes only the word list, by `CompleteImage` |
| `Session.RemoveAt` | App.tsx:192 | removing index `idx` of the list deletes exactly that position and keeps the others in order; an index outside the list removes nothing |
| `Session.RemoveWord` | App.tsx:192 | the delete button changes only the word list, by `RemoveAt` |
| `Session.StartPlay` | App.tsx:196-197 | starting play sets status IDLE, index 0, total 0, empty history and no report, keeping the list, the error and the analysis |
| `Session.StartRecording` | App.tsx:86-119 | on success the status becomes RECORDING; on a failure the microphone error is set and the status stays; nothing else changes |
| `Session.StopRecording` | App.tsx:93-95 | stopping the recorder makes `handleAnalyze` move to ANALYZING and changes nothing else |
| `Session.FinishAnalysis` | App.tsx:126-139 | on success: RESULTS, the analysis stored, the score added to the total and `{current word, analysis}` appended to the history; on failure (or an index outside the list): back to IDLE with the retry error, history, total and index unchanged |
| `Session.Next` | App.tsx:245-249 | while another word remains: index plus one, IDLE, analysis cleared; on the last word: GENERATING_REPORT with nothing else changed |
| `Session.FinishReport` | App.tsx:250-255 | the game is over either way; the report is stored only when the call returned one |
| `Session.SumScoresAppend` | App.tsx:134-135 | appending an attempt to the history adds its score to the history's sum |
| `Session.InitialInv` | App.tsx:34-42 | the initial record satisfies the session invariant |
| `Session.AddWordPreservesInv` | App.tsx:66-71 | adding a word on the setup screen keeps the invariant |
| `Session.ApplyImagePreservesInv` | App.tsx:72-83 | an image completion, in any status, keeps the invariant |
| `Session.RemoveWordPreservesInv` | App.tsx:192 | removing a word on the setup screen keeps the invariant |
| `Session.StartPlayPreservesInv` | App.tsx:196-197 | starting play with a non-empty list keeps the invariant |
| `Session.StartRecordingPreservesInv` | App.tsx:86-119 | starting to record from IDLE keeps the invariant |
| `Session.StopRecordingPreservesInv` | App.tsx:93-95 | stopping a recording keeps the invariant |
| `Session.FinishAnalysisPreservesInv` | App.tsx:126-139 | an analysis outcome keeps the invariant: the total stays the sum of the history and the history grows to index plus one |
| `Session.NextPreservesInv` | App.tsx:245-256 | "Siguiente" keeps the invariant, so the index stays inside the list |
| `Session.FinishReportPreservesInv` | App.tsx:250-255 | the report outcome keeps the invariant |
| `Session.StepPreservesInv` | App.tsx:66-256 | every event, enabled on its screen or ignored, keeps the invariant |
| `Session.RunPreservesInv` | App.tsx:66-256 | any sequence of events from a record that satisfies the invariant keeps it |
| `Session.AddWordKeepsWordsTrimmed` | App.tsx:66-70 | adding a word keeps every entry non-empty with no white space at either end |
| `Session.ApplyImageKeepsWordsTrimmed` | App.tsx:74-82 | an image completion keeps every entry's text, so the list stays trimmed |
| `Session.RemoveWordKeepsWordsTrimmed` | App.tsx:192 | removing an entry keeps the others, so the list stays trimmed |
| `Session.StepKeepsWordsTrimmed` | App.tsx:66-256 | every event keeps every entry non-empty and trimmed |
| `Session.RunKeepsWordsTrimmed` | App.tsx:66-256 | any sequence of events keeps every entry non-empty and trimmed |
| `Session.ReachableInv` | App.tsx:34-42 | in every reachable record the total is the sum of the history's scores, the status is never ERROR, and the index is inside the list once play has started, and every word of the list is non-empty and its own trim |
| `Session.ErrorIsSticky` | App.tsx:116-138 | no event but a reload clears a set error, and the only messages ever written are the microphone and the analysis ones |
| `Session.HistoryAppendOnly` | App.tsx:130-136 | apart from a new game or a reload, the history only grows, by at most one entry, and history or total change only on a scored analysis |
| `Session.IndexAdvancesByOne` | App.tsx:246-247 | the index changes only by one on "Siguiente" while another word remains (staying inside the list), or back to zero on a new game or a reload |
| `Session.LastWordLeadsToReport` | App.tsx:246-249 | on the last word "Siguiente" goes to the report and the index never reaches the list's length |
| `Session.ReportScoresAreHistoryScores` | services/gemini.ts:37-41 | the scores sent for the report add up to the history's sum |
| `Session.ReportCarriesWholeGame` | App.tsx:251 | when the report is requested, its input has one entry per word and its scores add up to the total |
| `Session.OneWordGame` | App.tsx:66-256 | a one-word game (for instance "gato" scored 95) whose report call throws: after adding the word it is on SETUP with one entry; after the following events it is on IDLE, RECORDING, ANALYZING, RESULTS (with the score as total) and GENERATING_REPORT; it ends in OVER with the score as total, one history entry for the trimmed word and no report |
| `Gemini.FirstCandidateParts` | services/gemini.ts:28 | a missing or empty candidate list yields no parts; when the first candidate has content with parts, those are the parts, and any non-empty result comes from there |
| `Gemini.SelectImage` | services/gemini.ts:28-33 | the result is an error exactly when no part has inline data; otherwise it is `"data:image/png;base64,"` plus the data of the first such part |
| `Gemini.GenerateImage` | services/gemini.ts:16-34 | a missing or empty candidate list throws the fixed message; it throws exactly when no part of the first candidate has inline data, and otherwise yields `"data:image/png;base64,"` plus the data of the first such part |
| `Gemini.ErrorSummary` | services/gemini.ts:40 | the summary of an error is its part, then `": "`, then its issue, and nothing more |
| `Gemini.ToReportEntry` | services/gemini.ts:38-40 | the entry of one attempt copies the word's text and the score and summarises each of its errors in order |
| `Gemini.SummarizeErrors` | services/gemini.ts:40 | one summary per error, in order, each `part + ": " + issue` |
| `Gemini.SummaryIgnoresSuggestions` | services/gemini.ts:40 | two error lists that differ only in their suggestions are summarised alike |
| `Gemini.ReportInput` | services/gemini.ts:37-41 | one entry per history entry, in order, copying the word's text, the score and the error summaries |
| `Gemini.ReportInputAppend` | services/gemini.ts:37-41 | the projection of a longer history extends that of the shorter one by the new entry |
| `Gemini.ReportText` | services/gemini.ts:54 | the report text is never empty: an absent or empty response text becomes the fixed fallback message, and any other text is kept |
| `Gemini.PhonologicalReport` | services/gemini.ts:36-55 | the report call yields no report exactly when it threw; otherwise it yields the response text, or the fallback when that is absent or empty, never the empty string |
| `Gemini.DecodeBinaryString` | services/gemini.ts:120-125 | as many bytes as characters, byte `i` being character code `i` modulo 256 (the `Uint8Array` store) |
| `Gemini.DecodeBinaryLossless` | services/gemini.ts:121-124 | for a string of characters below 256, as `atob` yields, the bytes give back the string |
| `Gemini.FrameCount` | services/gemini.ts:129-130 | the frame count is the number of whole frames in the samples: that many frames fit, one more does not |
| `Gemini.ChannelData` | services/gemini.ts:129-133 | channel `c` has `samples / numChannels` frames, frame `i` being input sample `i * numChannels + c` |
| `Gemini.DecodeAudioData` | services/gemini.ts:127-136 | a buffer of `numChannels` channels of `frameCount` frames, each filled as `ChannelData` says |
| `Gemini.DeinterleaveRoundTrip` | services/gemini.ts:131-133 | interleaving the channels again gives back every sample of the whole frames |
| `Gemini.MonoIsIdentity` | services/gemini.ts:112 | with one channel, as the only caller uses, the channel is the input samples unchanged |
| `Component.Concat` | App.tsx:94 | the clip holds as many bytes as all chunks together, the first chunk at its front |
| `Component.ConcatAppend` | App.tsx:92-94 | a chunk that arrives later comes later in the clip |
| `Component.App.constructor` | App.tsx:34-50 | the first render: initial record, empty input, empty buffer, no recorder |
| `Component.App.SetNewWord` | App.tsx:174 | typing replaces the input text and nothing else |
| `Component.App.AddWord` | App.tsx:66-71 | the record becomes `Session.AddWord` of the input; a blank input is kept, any other is cleared and the trimmed word is handed to image generation |
| `Component.App.SettleImage` | App.tsx:72-83 | the record becomes `Session.ApplyImage`; input and buffer untouched |
| `Component.App.RemoveWord` | App.tsx:192 | the record becomes `Session.RemoveWord` of the index |
| `Component.App.StartPlay` | App.tsx:196-197 | the record becomes `Session.StartPlay` |
| `Component.App.StartRecording` | App.tsx:86-119 | the record becomes `Session.StartRecording`; once a recorder exists the buffer is emptied, and a refused microphone leaves buffer and recorder as they were |
| `Component.App.ChunkAvailable` | App.tsx:92 | an arriving chunk is appended after the buffered ones |
| `Component.App.Stop` | App.tsx:93-95 | the clip is the concatenation of the buffered chunks in arrival order, and the record becomes `Session.StopRecording` |
| `Component.App.SettleAnalysis` | App.tsx:126-139 | the record becomes `Session.FinishAnalysis` of the outcome |
| `Component.App.Next` | App.tsx:245-256 | the record becomes `Session.Next`; a report is requested exactly on the last word, with the projection of the whole history, one entry per word |
| `Component.App.SettleReport` | App.tsx:250-255 | the record becomes `Session.FinishReport` of the call's outcome; a report is stored exactly when the call did not throw |
| `Component.App.Reload` | App.tsx:289 | a reload returns everything to the first render |

## Left out

- Rendering: the JSX, styles and icons, and the confetti effects with their interval timer and random origins. These are presentation only.
- The audio level meter. Its loop computes a floating-point root mean square on every animation frame, and it only feeds a visual bar.
- A silence-triggered stop. The source declares a threshold, a duration and a timestamp reference but never reads them.
- Release of the microphone stream, the animation frame and the audio context. The source never releases them, so there is nothing to model.
- The browser media calls (`getUserMedia`, `MediaRecorder`, `AudioContext`). They are foreign I/O. Their outcomes are event parameters.
- `FileReader` and the split of the data URL, assumed to succeed. A failed read leaves `reader.result` null, so the `split` at App.tsx:127 throws outside the `try` of App.tsx:128. No state update then runs, and the session stays on ANALYZING, a screen with no button. The model has no event for this case; it is only the case where `AnalysisArrived` never arrives. `AnalysisArrived(None)` models a throwing analysis call, which goes back to IDLE with the retry message, and does not stand for a failed read.
- The calls to the generative service: prompts, response schemas, `JSON.parse` of the analysis, and the playback in `playReferenceAudio` with its own first-part lookup. They are network and foreign calls. Their results are inputs.
- `atob`, the reinterpretation of the bytes as 16-bit samples (and its endianness), and the division by 32768 into floating point. These are library and floating-point behaviour. `DecodeAudioData` takes the 16-bit samples as integers.
- Gemini.DecodeAudioData: does not model the exceptions of the browser APIs, because they are outside the loop. `Int16Array` rejects an odd byte length, and `createBuffer` rejects zero frames or channels. The method therefore requires at least one channel, and it returns an empty buffer for zero frames.
- Gemini.DecodeBinaryString: takes `string` as a sequence of Unicode scalar values, while JavaScript counts UTF-16 code units. The two agree on everything `atob` produces, which is characters below 256.
- Component.App: the class invariant `Valid` does not repeat `Session.WordsTrimmed`. That fact is proved for every reachable session record by `Session.ReachableInv`, and each method of the class applies exactly one `Session` transition.
- Concurrency. Each completion is one atomic step. Image completions may land in any status, including after play has started. `handleAnalyze` reads the word from the record current at the analysis step, not from the render its closure captured. The two agree on the word's text but may differ in its image URL, so the invariant ties history to the list by text.
- The score's type. It is a JavaScript number and is modelled as an integer.
