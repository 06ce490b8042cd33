# AnamnesiAssist session core in Dafny

AnamnesiAssist is a browser assistant for clinical history-taking (anamnesis). It records the
doctor–patient conversation and sends each three-second audio chunk to a hosted transcription
service. The transcribed text accumulates into a running transcript. When recording stops, one
final analysis runs: it extracts question/answer pairs, asks for follow-up questions, and formats
a medical document from the pairs. A side panel shows the pairs grouped by screening category.

This project models that core and proves properties of it:

- `HomePage` (src/app/page.tsx): the page's session state as a class `Session`. The fields are
  `isRecording`, `transcript`, `qaPairs`, `suggestions`, `documentText`, `isDocumentOpen`, the
  four-flag `loading` record, and the accumulator `fullTranscript`, which stands for
  `fullTranscriptRef.current`. The handlers are methods that update those fields in place.
  The hosted services are oracles passed in as functions. Each oracle either resolves with a
  value or rejects. The final analysis returns the requests it issued, in order.
  A transcription is two events. `AudioChunkArrived` is the chunk reaching the page, and
  `TranscriptionSettled` is its service call settling. The caller chooses how settlements
  interleave.
- `InterviewFormat`: the serialiser that builds the formatting payload (`D: q`, newline, `R: a`,
  with pairs joined by a blank line). It also has an inverse reader, which is used to prove a
  round trip.
- `QaPanel` (src/components/anamnesi-assist/qa-panel.tsx): the group-by-category reduce, as an
  imperative loop over a map, proved against a reference definition. It also has the three-way
  view selection.
- `JsText`: the part of JavaScript's `String.prototype.trim` the page depends on.
- `Flows`: the pair record `{question, answer, category}` and the request payloads of the three
  analysis services. A transcription reply is reduced to `Settled<string>`, the text it carries
  or a rejection. The suggestion and formatting replies are reduced to the one field the page
  reads.

The page appends each transcription when its service call settles. It does not reorder chunks
into capture order. The model follows this behaviour. `HomePage.CompletionOrderIsVisible` shows
the consequence: two chunks that settle in the opposite order to their capture give a transcript
in settlement order. The page also applies analysis results without any versioning. The model
does not capture that part: its final analysis is one atomic step, so it cannot overlap a later
session (see "## Left out").

## Model

| member | source | states |
|---|---|---|
| `Flows.Questions` | src/app/page.tsx:57 | The answered questions sent with the suggestion request: one per extracted pair, in extraction order, each that pair's question. |
| `HomePage.Appended` | src/app/page.tsx:98-101 | One settlement only extends the accumulator. It is left unchanged exactly when the call rejected or the transcription is empty. |
| `HomePage.OneChunkSession` | src/app/page.tsx:33-113 | Start, one chunk whose transcription has a visible character, stop: the final analysis runs, and its first request is extraction of that text followed by one space. |
| `HomePage.Session.constructor` | src/app/page.tsx:18-31 | Initial state: not recording, empty transcript, accumulator, pairs, suggestions and document, dialog closed, all four loading flags false. |
| `HomePage.Session.StartRecording` | src/app/page.tsx:33-40 | From any prior state: transcript, accumulator and document become "", pairs and suggestions become empty, recording becomes true. Loading flags and the dialog state are unchanged. |
| `HomePage.Session.AudioChunkArrived` | src/app/page.tsx:88-91 | A chunk is accepted exactly when recording. If it is not accepted, nothing changes. If it is accepted, only `loading.transcribe` changes, to true. |
| `HomePage.Session.TranscriptionSettled` | src/app/page.tsx:95-113 | The accumulator becomes `old + t + " "` for a non-empty transcription `t`. It is unchanged for an empty transcription, a rejection, or a failed read. The displayed transcript equals the accumulator afterwards. `loading.transcribe` ends false. Nothing else changes. |
| `HomePage.Session.AnalyzeFinalTranscript` | src/app/page.tsx:42-81 | If the trimmed accumulator is empty, no request is issued and no state changes. Otherwise extraction, suggestion and formatting run in that order. The suggestion request carries the transcript, the extracted questions in order and "Generale". Formatting runs only if some pair was extracted. A rejection skips all later steps and leaves their fields untouched. All four flags end false. |
| `HomePage.Session.StopRecording` | src/app/page.tsx:83-86 | Recording stops, then exactly the final-analysis relation holds, starting from the stopped state. |
| `HomePage.Session.SetDocumentOpen` | src/app/page.tsx:145-149 | The dialog's open state becomes the given value. Nothing else changes. |
| `HomePage.AppendedExtends` | src/app/page.tsx:99-100 | A settlement only adds text at the end of the accumulator. |
| `HomePage.ReplayAppendsInCompletionOrder` | src/app/page.tsx:95-102 | After any sequence of settlements, the accumulator is the old text followed by each non-empty transcription and a space, in completion order. |
| `HomePage.CompletionOrderIsVisible` | src/app/page.tsx:98-101 | The same two transcriptions settling in opposite orders give "prima dopo " and "dopo prima ". |
| `HomePage.VisibleTranscriptionEnablesAnalysis` | src/app/page.tsx:43 | Once a transcription with a visible character has been appended, the accumulator is never blank again, whatever settles later. So the final analysis is not skipped. |
| `HomePage.AnalysisKeepsTranscript` | src/app/page.tsx:42-81 | The final analysis never changes the transcript, the accumulator or the recording flag. It issues at most three requests. It issues none exactly when the accumulator is blank. The flags end all false unless it was skipped. |
| `HomePage.FormatPayloadCarriesPairs` | src/app/page.tsx:63-67 | When the formatting request is issued, the stored pairs are non-empty. If no field spans lines, the payload reads back to exactly their questions and answers, in order. |
| `HomePage.PanelAfterExtraction` | src/app/page.tsx:131 | At the end of a final analysis whose extraction resolved, the stored pairs are the extracted ones. The QA panel (given `loading.qa`) then shows the empty message exactly when none were found, and otherwise one section per category. |
| `JsText.Trim` | src/app/page.tsx:43 | `trim()` yields a contiguous slice of the string. Everything before and after that slice is white space, and the slice neither starts nor ends with white space. It is empty exactly when every character is ECMAScript white space or a line terminator. |
| `JsText.TrimStartDropsWhitespace` | src/app/page.tsx:43 | Leading trim keeps a suffix that is empty or starts with a visible character. Everything it drops is white space. |
| `JsText.TrimEndDropsWhitespace` | src/app/page.tsx:43 | Trailing trim keeps a prefix that is empty or ends with a visible character. Everything it drops is white space. |
| `JsText.VisibleTextIsNotBlank` | src/app/page.tsx:43 | Any string containing a visible character is not blank after `trim()`. |
| `InterviewFormat.Render` | src/app/page.tsx:65 | One pair's text starts with "D: " and the question, and its length is both prefixes, the question, the line break and the answer. |
| `InterviewFormat.Join` | src/app/page.tsx:66 | `join` of no parts is "". Otherwise the result starts with the first part. |
| `InterviewFormat.InterviewData` | src/app/page.tsx:64-66 | The payload of a non-empty extraction starts with the first pair's rendering. |
| `InterviewFormat.ParseInterviewData` | src/app/page.tsx:64-66 | Round trip: when no question or answer spans lines, reading the payload back gives every pair's question and answer in extraction order. The category is not carried. |
| `InterviewFormat.InterviewDataEmptyIff` | src/app/page.tsx:64-66 | The payload is the empty string exactly when there are no pairs. |
| `InterviewFormat.InterviewDataCons` | src/app/page.tsx:64-66 | For two or more pairs, the payload is the first rendered pair, then "\n\n", then the payload of the rest. |
| `InterviewFormat.TwoPairExample` | src/app/page.tsx:64-66 | Pairs ("A?", "B") and ("C?", "D") serialise to exactly "D: A?\nR: B\n\nD: C?\nR: D". |
| `QaPanel.CategoryKey` | src/components/anamnesi-assist/qa-panel.tsx:21 | A pair's key is never empty, and it is the pair's own category whenever that is non-empty. Where an empty category goes is stated by `QaPanel.UncategorizedSection`. |
| `QaPanel.UncategorizedSection` | src/components/anamnesi-assist/qa-panel.tsx:21-25 | The "Non Categorizzato" section holds exactly the pairs with an empty category, together with any pair whose category is literally "Non Categorizzato": the two share one section. |
| `QaPanel.GroupByCategory` | src/components/anamnesi-assist/qa-panel.tsx:20-27 | The reduce loop builds exactly the reference grouping: keys in creation order, and under each key its pairs in input order. |
| `QaPanel.GroupingSnoc` | src/components/anamnesi-assist/qa-panel.tsx:22-25 | One more pair is pushed at the end of its own key's list. A new key is created, with just that pair, at the end of the key order. |
| `QaPanel.MembersIff` | src/components/anamnesi-assist/qa-panel.tsx:21-25 | A pair is in a group exactly when it is in the input and the group's key is its category, or "Non Categorizzato" when its category is empty. |
| `QaPanel.MembersMultiplicity` | src/components/anamnesi-assist/qa-panel.tsx:20-27 | Counting duplicates, each occurrence of a pair lands in exactly one group, its own. |
| `QaPanel.MembersInOrder` | src/components/anamnesi-assist/qa-panel.tsx:25 | Within a group, pairs keep their relative input order. |
| `QaPanel.CategoriesAreKeys` | src/components/anamnesi-assist/qa-panel.tsx:21-24 | The keys are distinct. They are exactly the normalised categories of the pairs present. |
| `QaPanel.NonEmptySections` | src/components/anamnesi-assist/qa-panel.tsx:22-25 | A string is a key exactly when its group is non-empty. No group is empty. |
| `QaPanel.CategoriesEmptyIff` | src/components/anamnesi-assist/qa-panel.tsx:20-27 | There is no key exactly when there is no pair. |
| `QaPanel.GroupSizesAddUp` | src/components/anamnesi-assist/qa-panel.tsx:20-27 | The group sizes, summed over the keys, equal the number of pairs. |
| `QaPanel.Entries` | src/components/anamnesi-assist/qa-panel.tsx:47 | `Object.entries`: one section per key, in key order, each holding that key's list. |
| `QaPanel.SelectView` | src/components/anamnesi-assist/qa-panel.tsx:39-66 | Skeleton exactly when loading with no pairs. Accordion exactly when there is some pair, with one section per key in order, holding that key's pairs. Empty message exactly when not loading and there are no pairs. |
| `QaPanel.GroupAsWritten` | src/components/anamnesi-assist/qa-panel.tsx:20-27 | The reduce as written on a plain `{}`. If it throws, the name it throws on is an Object.prototype name and is the key of some input pair. If it finishes, it has at most one key per pair. |
| `QaPanel.AsWrittenThrowsOnInheritedName` | src/components/anamnesi-assist/qa-panel.tsx:22-25 | As written: if any pair's category is an Object.prototype name such as "constructor", the reduce throws a TypeError. |
| `QaPanel.ConstructorCategoryThrows` | src/components/anamnesi-assist/qa-panel.tsx:22-25 | As written: a single pair filed under "constructor" makes the reduce throw. |
| `QaPanel.AsWrittenOwnKeys` | src/components/anamnesi-assist/qa-panel.tsx:22-24 | As written: a reduce that finishes never has an inherited name as a key. |
| `QaPanel.AsWrittenAgrees` | src/components/anamnesi-assist/qa-panel.tsx:20-27 | As written: when no category is an Object.prototype name, the reduce builds exactly the reference grouping. |

## Left out

- Audio capture (src/components/anamnesi-assist/audio-recorder.tsx) is not modelled. That covers `getUserMedia`, `MediaRecorder` and its 3-second timeslice, and the audio-level meter (a floating-point average over frequency bins). The model starts from chunks arriving.
- Base64 encoding with `FileReader` (src/app/page.tsx:94-96, 109) is a browser API and is not modelled. Its failure path (lines 110-113) has the same effect as a rejected transcription, so `TranscriptionSettled(Rejected)` covers it.
- The four services' prompt execution on a hosted model (src/ai/flows/*) is not modelled. Each service is an oracle that resolves or rejects. Schema validation of their output is not modelled.
- HomePage.Session.AnalyzeFinalTranscript: runs as one atomic step. Three consequences. First, the qa/suggest/document flags are set and then cleared within that step, so their true values during the awaits are not observable. For example, while the suggestion call is pending after an empty extraction, the source's panel shows the skeleton. Second, a transcription settling between the awaits is not modelled. In the source, the suggestion request re-reads the accumulator (line 56), so it could see more text than the extraction request did. Third, the model cannot start a new session while an analysis is still waiting on a service. In the source, the start button is shown as soon as recording stops and is disabled only while the microphone initialises (src/components/anamnesi-assist/audio-recorder.tsx:108-109). The old analysis then writes the previous session's pairs, suggestions and document into the new session and opens the dialog (src/app/page.tsx:52, 60, 68-69). Its `finally` also clears the new session's `loading.transcribe` (src/app/page.tsx:74-79).
- HomePage.Session.AudioChunkArrived: reads the current `isRecording` field. In the source, the callback reads the value from the render in which it was created (`useCallback` with `[isRecording]`). The recorder's `ondataavailable` keeps the callback from the render that started recording (src/components/anamnesi-assist/audio-recorder.tsx:64-71, 80). So the guard at src/app/page.tsx:89 sees `true` for every recorder chunk. That includes the last chunk, which `recorder.stop()` delivers after Stop (src/components/anamnesi-assist/audio-recorder.tsx:86, 91). The final analysis reads the accumulator twice: for the extraction request (src/app/page.tsx:50) and again, after extraction resolves, for the suggestion request (src/app/page.tsx:56). So that last chunk's text never reaches the extraction request. It reaches the suggestion request only if its transcription settles before extraction resolves. The same holds for any chunk still being transcribed when Stop is pressed. This is read from the code, not executed. React state updates are asynchronous and batched; the model applies them immediately.
- Error logging with `console.error` is left out. It has no effect on state.
- QaPanel.GroupByCategory: key order is modelled as creation order. JavaScript lists keys that look like array indices ("0", "12") first, in ascending numeric order. The model does not capture that ordering.
- QaPanel.SelectView: the accordion sections follow the same creation order, so the order of sections for categories named like array indices is not captured either.
- The accordion, the skeleton and the message markup are reduced to the `View` datatype. Styling, icons, the footer spinner, the transcription view, the suggestions panel, the document dialog's clipboard and timer behaviour, and the header are not modelled.

## Findings

| source | as written | input that shows it | evidently intended | confidence | as-written member | corrected member |
|---|---|---|---|---|---|---|
| src/components/anamnesi-assist/qa-panel.tsx:22-25 | The reduce starts from a plain `{}`. For a category that names an Object.prototype member, `acc[category]` is the inherited function or object. It is truthy, so no list is created, and `acc[category].push(qa)` throws a TypeError while the panel renders. | One pair whose category is "constructor" (likewise "toString", "valueOf", "__proto__", "hasOwnProperty", …) | Every pair is filed under its own category, whatever the category's text | high for the JavaScript lookup semantics; not executed | `QaPanel.GroupAsWritten`, `QaPanel.AsWrittenThrowsOnInheritedName` | `QaPanel.GroupByCategory` |
