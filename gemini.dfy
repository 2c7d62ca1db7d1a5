/** The plain helpers of services/gemini.ts that sit around the calls to the generative service:
    picking the image out of a response, projecting the history for the report, the report's
    fallback text, the byte copy of `decodeBase64` and the sample selection of `decodeAudioData`. */
module Gemini {
  import opened Wrappers
  import opened Types

  // ---------------------------------------------------------------------------
  // The response shape of `generateContent`, as far as the helpers read it.

  datatype InlineData = InlineData(data: string, mimeType: string)
  datatype Part = Part(text: Option<string>, inlineData: Option<InlineData>)
  datatype Content = Content(parts: Option<seq<Part>>)
  datatype Candidate = Candidate(content: Option<Content>)
  datatype Response = Response(candidates: Option<seq<Candidate>>, text: Option<string>)

  const ImagePrefix := "data:image/png;base64,"
  const ImageFailureMessage := "No se pudo pintar la imagen mágica."
  const ReportFallback := "Tu informe se perdió en el bosque mágico."

  /** `response.candidates?.[0]?.content?.parts || []`: the parts of the first candidate, or none
      when any link of the chain is missing. */
  function FirstCandidateParts(response: Response): (parts: seq<Part>)
    ensures (response.candidates.None? || response.candidates.value == []) ==> parts == []
    ensures parts != [] ==>
      && response.candidates.Some? && response.candidates.value != []
      && response.candidates.value[0].content.Some?
      && response.candidates.value[0].content.value.parts == Some(parts)
    ensures (response.candidates.Some? && response.candidates.value != []
      && response.candidates.value[0].content.Some?
      && response.candidates.value[0].content.value.parts.Some?) ==>
      parts == response.candidates.value[0].content.value.parts.value
  {
    match response.candidates
    case None => []
    case Some(cs) =>
      if cs == [] then []
      else match cs[0].content
        case None => []
        case Some(c) => match c.parts
          case None => []
          case Some(ps) => ps
  }

  /** The scan of `generateImage`: the data URL of the first part that carries inline data, and the
      thrown error when no part does. */
  method SelectImage(parts: seq<Part>) returns (r: Result<string>)
    ensures r.Err? <==> forall i :: 0 <= i < |parts| ==> parts[i].inlineData.None?
    ensures r.Err? ==> r.message == ImageFailureMessage
    ensures r.Ok? ==> exists k :: (0 <= k < |parts| && parts[k].inlineData.Some?
      && (forall j :: 0 <= j < k ==> parts[j].inlineData.None?)
      && r.value == ImagePrefix + parts[k].inlineData.value.data)
  {
    var i := 0;
    while i < |parts|
      invariant 0 <= i <= |parts|
      invariant forall j :: 0 <= j < i ==> parts[j].inlineData.None?
    {
      if parts[i].inlineData.Some? {
        return Ok(ImagePrefix + parts[i].inlineData.value.data);
      }
      i := i + 1;
    }
    return Err(ImageFailureMessage);
  }

  /** `generateImage` after the service has answered: the data URL of the first part of the first
      candidate that carries inline data; a missing link of the chain, or no such part, is an error. */
  method GenerateImage(response: Response) returns (r: Result<string>)
    ensures (response.candidates.None? || response.candidates.value == []) ==> r == Err(ImageFailureMessage)
    ensures r.Err? <==> forall i :: 0 <= i < |FirstCandidateParts(response)| ==>
      FirstCandidateParts(response)[i].inlineData.None?
    ensures r.Err? ==> r.message == ImageFailureMessage
    ensures r.Ok? ==> exists k :: (0 <= k < |FirstCandidateParts(response)|
      && FirstCandidateParts(response)[k].inlineData.Some?
      && (forall j :: 0 <= j < k ==> FirstCandidateParts(response)[j].inlineData.None?)
      && r.value == ImagePrefix + FirstCandidateParts(response)[k].inlineData.value.data)
  {
    r := SelectImage(FirstCandidateParts(response));
  }

  // ---------------------------------------------------------------------------
  // `generatePhonologicalReport`: what is sent, and what comes back.

  /** One history entry as it is sent to the report service. */
  datatype ReportEntry = ReportEntry(word: string, score: int, errors: seq<string>)

  /** `e.part + ": " + e.issue`; the suggestion is not sent. */
  function ErrorSummary(e: PronunciationError): (r: string)
    ensures |r| == |e.part| + 2 + |e.issue|
    ensures r[..|e.part|] == e.part && r[|e.part|..|e.part| + 2] == ": " && r[|e.part| + 2..] == e.issue
  {
    e.part + ": " + e.issue
  }

  /** The errors of one analysis, summarised one by one and in order. */
  function SummarizeErrors(errors: seq<PronunciationError>): (r: seq<string>)
    ensures |r| == |errors|
    ensures forall i :: 0 <= i < |r| ==> r[i] == ErrorSummary(errors[i])
  {
    if errors == [] then [] else [ErrorSummary(errors[0])] + SummarizeErrors(errors[1..])
  }

  /** The entry of one scored attempt: its word's text, its score and its summarised errors. */
  function ToReportEntry(h: WordResult): (r: ReportEntry)
    ensures r.word == h.word.text && r.score == h.analysis.score
    ensures |r.errors| == |h.analysis.errors|
    ensures forall i :: 0 <= i < |r.errors| ==> r.errors[i] == ErrorSummary(h.analysis.errors[i])
  {
    ReportEntry(h.word.text, h.analysis.score, SummarizeErrors(h.analysis.errors))
  }

  /** `history.map(...)`: one entry per history entry, in the same order. */
  function ReportInput(history: seq<WordResult>): (r: seq<ReportEntry>)
    ensures |r| == |history|
    ensures forall i :: 0 <= i < |r| ==>
      && r[i].word == history[i].word.text
      && r[i].score == history[i].analysis.score
      && r[i].errors == SummarizeErrors(history[i].analysis.errors)
  {
    if history == [] then [] else [ToReportEntry(history[0])] + ReportInput(history[1..])
  }

  /** The summary does not depend on the suggestions: two error lists that differ only in them are
      sent alike. */
  lemma {:induction false} SummaryIgnoresSuggestions(a: seq<PronunciationError>, b: seq<PronunciationError>)
    requires |a| == |b|
    requires forall i :: 0 <= i < |a| ==> a[i].part == b[i].part && a[i].issue == b[i].issue
    ensures SummarizeErrors(a) == SummarizeErrors(b)
  {
    if a != [] {
      SummaryIgnoresSuggestions(a[1..], b[1..]);
    }
  }

  /** The report input of a longer history extends that of the shorter one by the new entry. */
  lemma {:induction false} ReportInputAppend(history: seq<WordResult>, h: WordResult)
    ensures ReportInput(history + [h]) == ReportInput(history) + [ToReportEntry(h)]
  {
    if history == [] {
      assert history + [h] == [h];
    } else {
      assert (history + [h])[1..] == history[1..] + [h];
      ReportInputAppend(history[1..], h);
    }
  }

  /** `response.text || fallback`: an absent or empty text is replaced by the fixed message, so a
      successful report call never yields the empty string. */
  function ReportText(text: Option<string>): (r: string)
    ensures r != ""
    ensures text.Some? && text.value != "" ==> r == text.value
    ensures text.None? || text.value == "" ==> r == ReportFallback
  {
    if text.Some? && text.value != "" then text.value else ReportFallback
  }

  /** The outcome of `generatePhonologicalReport`: `None` when the call threw, otherwise the report text. */
  function PhonologicalReport(call: Option<Response>): (r: Option<string>)
    ensures r.None? <==> call.None?
    ensures r.Some? ==> r.value != ""
    ensures call.Some? ==> r == Some(ReportText(call.value.text))
  {
    match call
    case None => None
    case Some(response) => Some(ReportText(response.text))
  }

  // ---------------------------------------------------------------------------
  // `decodeBase64`: the byte copy after `atob`.

  /** Each character of `binary` is stored into a `Uint8Array`, which keeps its code modulo 256. */
  method DecodeBinaryString(binary: string) returns (bytes: array<Byte>)
    ensures fresh(bytes)
    ensures bytes.Length == |binary|
    ensures forall i :: 0 <= i < |binary| ==> bytes[i] == (binary[i] as int) % 256
  {
    bytes := new Byte[|binary|];
    for i := 0 to |binary|
      invariant forall k :: 0 <= k < i ==> bytes[k] == (binary[k] as int) % 256
    {
      bytes[i] := (binary[i] as int) % 256;
    }
  }

  /** The string whose character codes are the given bytes (what `atob` produced). */
  function BinaryString(bytes: seq<Byte>): (s: string)
    ensures |s| == |bytes|
    ensures forall i :: 0 <= i < |s| ==> s[i] as int == bytes[i]
  {
    if bytes == [] then [] else [bytes[0] as char] + BinaryString(bytes[1..])
  }

  /** `atob` yields only characters below 256; for such a string the copy loses nothing. */
  lemma DecodeBinaryLossless(binary: string, bytes: seq<Byte>)
    requires |bytes| == |binary|
    requires forall i :: 0 <= i < |binary| ==> binary[i] as int < 256
    requires forall i :: 0 <= i < |binary| ==> bytes[i] == (binary[i] as int) % 256
    ensures BinaryString(bytes) == binary
  {
    var s := BinaryString(bytes);
    assert forall i :: 0 <= i < |s| ==> s[i] as int == binary[i] as int;
  }

  // ---------------------------------------------------------------------------
  // `decodeAudioData`: the de-interleaving of 16-bit samples into channels.

  /** `dataInt16.length / numChannels`, as `createBuffer` receives it (a fractional count is truncated,
      and the buffer ignores the one extra write the loop then makes). */
  function FrameCount(sampleCount: nat, numChannels: nat): (r: nat)
    requires numChannels > 0
    ensures r * numChannels <= sampleCount < (r + 1) * numChannels
  {
    sampleCount / numChannels
  }

  /** The position in the interleaved input of frame `i` of channel `c`. */
  function SampleIndex(i: nat, numChannels: nat, c: nat): nat {
    i * numChannels + c
  }

  lemma SampleIndexInRange(sampleCount: nat, numChannels: nat, i: nat, c: nat)
    requires 0 < numChannels && c < numChannels && i < FrameCount(sampleCount, numChannels)
    ensures SampleIndex(i, numChannels, c) < sampleCount
  {
    var f := sampleCount / numChannels;
    assert i + 1 <= f;
    assert (i + 1) * numChannels <= f * numChannels;
    assert f * numChannels <= sampleCount;
  }

  lemma AllSampleIndicesInRange(sampleCount: nat, numChannels: nat, c: nat)
    requires 0 < numChannels && c < numChannels
    ensures forall i: nat :: i < FrameCount(sampleCount, numChannels) ==> SampleIndex(i, numChannels, c) < sampleCount
  {
    forall i: nat | i < FrameCount(sampleCount, numChannels)
      ensures SampleIndex(i, numChannels, c) < sampleCount
    {
      SampleIndexInRange(sampleCount, numChannels, i, c);
    }
  }

  /** The samples of channel `c`: frame `i` is input sample `i * numChannels + c`. */
  function ChannelData(samples: seq<int>, numChannels: nat, c: nat): (r: seq<int>)
    requires 0 < numChannels && c < numChannels
    ensures |r| == FrameCount(|samples|, numChannels)
    ensures forall i :: 0 <= i < |r| ==>
      SampleIndex(i, numChannels, c) < |samples| && r[i] == samples[SampleIndex(i, numChannels, c)]
  {
    AllSampleIndicesInRange(|samples|, numChannels, c);
    seq(FrameCount(|samples|, numChannels), i requires 0 <= i < FrameCount(|samples|, numChannels) =>
      samples[SampleIndex(i, numChannels, c)])
  }

  /** The nested loops of `decodeAudioData` without the division by 32768: channel `c`, frame `i`
      receives sample number `i * numChannels + c`. */
  method DecodeAudioData(samples: seq<int>, numChannels: nat) returns (buffer: array2<int>)
    requires numChannels > 0
    ensures fresh(buffer)
    ensures buffer.Length0 == numChannels && buffer.Length1 == FrameCount(|samples|, numChannels)
    ensures forall c, i :: 0 <= c < numChannels && 0 <= i < buffer.Length1 ==>
      buffer[c, i] == ChannelData(samples, numChannels, c)[i]
  {
    var frameCount := FrameCount(|samples|, numChannels);
    buffer := new int[numChannels, frameCount];
    for channel := 0 to numChannels
      invariant forall c, i :: 0 <= c < channel && 0 <= i < frameCount ==>
        buffer[c, i] == ChannelData(samples, numChannels, c)[i]
    {
      for i := 0 to frameCount
        invariant forall c, j :: 0 <= c < channel && 0 <= j < frameCount ==>
          buffer[c, j] == ChannelData(samples, numChannels, c)[j]
        invariant forall j :: 0 <= j < i ==> buffer[channel, j] == ChannelData(samples, numChannels, channel)[j]
      {
        SampleIndexInRange(|samples|, numChannels, i, channel);
        buffer[channel, i] := samples[SampleIndex(i, numChannels, channel)];
      }
    }
  }

  /** Interleaving the channels again gives back every whole frame of the input, in order. */
  lemma DeinterleaveRoundTrip(samples: seq<int>, numChannels: nat, k: nat)
    requires 0 < numChannels && k < FrameCount(|samples|, numChannels) * numChannels
    ensures k / numChannels < FrameCount(|samples|, numChannels)
    ensures ChannelData(samples, numChannels, k % numChannels)[k / numChannels] == samples[k]
  {
    var f := FrameCount(|samples|, numChannels);
    var q, c := k / numChannels, k % numChannels;
    assert k == q * numChannels + c;
  }

  /** Mono audio (`numChannels = 1`, the only caller) keeps the samples as they are. */
  lemma MonoIsIdentity(samples: seq<int>)
    ensures ChannelData(samples, 1, 0) == samples
  {
    var r := ChannelData(samples, 1, 0);
    assert forall i :: 0 <= i < |r| ==> SampleIndex(i, 1, 0) == i;
  }
}
