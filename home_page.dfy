/**
 The session controller of the interview page: in-memory session state, the
 start/stop handlers, the per-chunk transcription callback and the final
 analysis that runs extraction, then suggestion, then (when pairs were found)
 document formatting.

 React state setters and the `fullTranscriptRef` accumulator are fields of
 `Session`, updated in place. The hosted services are oracles passed in by the
 caller; the final analysis returns the list of requests it issued, in order.
 A transcription is two events: the chunk arrives (`AudioChunkArrived`), and
 later its service call settles (`TranscriptionSettled`); the caller decides
 how settlements interleave, and the accumulator takes them in that order.
 */
module HomePage {
  import opened Flows
  import opened JsText
  import InterviewFormat
  import QaPanel

  /** The `loading` record: one flag per kind of pending service call. */
  datatype Loading = Loading(transcribe: bool, qa: bool, suggest: bool, document: bool)

  const AllClear: Loading := Loading(false, false, false, false)

  /** The screening section the page always sends with the suggestion request. */
  const ScreeningSection: string := "Generale"

  /** A value copy of the whole session state. */
  datatype State = State(
    isRecording: bool,
    transcript: string,
    qaPairs: seq<QaPair>,
    suggestions: seq<string>,
    documentText: string,
    isDocumentOpen: bool,
    loading: Loading,
    fullTranscript: string)

  /** The accumulator after one transcription settles: a non-empty transcription
      is appended followed by one space; an empty one or a rejection leaves it as is. */
  function Appended(acc: string, reply: Settled<string>): (next: string)
    ensures acc <= next
    ensures next == acc <==> reply.Rejected? || reply.value == ""
  {
    match reply
    case Resolved(transcription) => if transcription != "" then acc + transcription + " " else acc
    case Rejected => acc
  }

  /** The accumulator after several transcriptions settle, in completion order. */
  function Replay(acc: string, replies: seq<Settled<string>>): string
    decreases |replies|
  {
    if replies == [] then acc else Replay(Appended(acc, replies[0]), replies[1..])
  }

  /** The text the given settlements contribute: each non-empty transcription
      followed by a space, in completion order. */
  function Contributed(replies: seq<Settled<string>>): string
    decreases |replies|
  {
    if replies == [] then ""
    else Appended("", replies[0]) + Contributed(replies[1..])
  }

  /** The final analysis, as a relation between the state before and after it
      and the requests it issued. A blank accumulator means nothing happens.
      Otherwise extraction, suggestion and formatting run in that order; a
      rejection skips every later step and leaves what those steps would have
      set untouched; formatting runs only when some pair was extracted; and
      every loading flag ends cleared. */
  predicate FinalAnalysis(before: State, after: State, identify: Identifier, suggest: Suggester,
                          format: Formatter, issued: seq<Request>)
  {
    if IsBlank(before.fullTranscript) then after == before && issued == []
    else
      var identifyInput := IdentifyInput(before.fullTranscript);
      |issued| >= 1 && issued[0] == Identify(identifyInput)
      && match identify(identifyInput)
         case Rejected => |issued| == 1 && after == before.(loading := AllClear)
         case Resolved(found) =>
           AfterExtraction(before.(qaPairs := found, loading := AllClear), after, found, suggest, format, issued[1..])
  }

  /** The rest of the final analysis once extraction resolved with `found`:
      the suggestion request carries the transcript, the extracted questions in
      order and the screening section. */
  predicate AfterExtraction(state: State, after: State, found: seq<QaPair>, suggest: Suggester,
                            format: Formatter, issued: seq<Request>)
  {
    var suggestInput := SuggestInput(state.fullTranscript, Questions(found), ScreeningSection);
    |issued| >= 1 && issued[0] == Suggest(suggestInput)
    && match suggest(suggestInput)
       case Rejected => |issued| == 1 && after == state
       case Resolved(suggested) => AfterSuggestion(state.(suggestions := suggested), after, found, format, issued[1..])
  }

  /** The rest of the final analysis once suggestion resolved: formatting of
      the serialised pairs runs only if some pair was found, and only its
      success sets the document and opens it. */
  predicate AfterSuggestion(state: State, after: State, found: seq<QaPair>, format: Formatter, issued: seq<Request>)
  {
    if found == [] then issued == [] && after == state
    else
      var formatInput := FormatInput(InterviewFormat.InterviewData(found));
      issued == [Format(formatInput)]
      && match format(formatInput)
         case Rejected => after == state
         case Resolved(document) => after == state.(documentText := document, isDocumentOpen := true)
  }

  class Session {
    var isRecording: bool
    var transcript: string
    var qaPairs: seq<QaPair>
    var suggestions: seq<string>
    var documentText: string
    var isDocumentOpen: bool
    var loading: Loading
    /** `fullTranscriptRef.current` */
    var fullTranscript: string

    /** The displayed transcript always equals the accumulator. */
    ghost predicate Valid()
      reads this
    {
      transcript == fullTranscript
    }

    function Snapshot(): State
      reads this
    {
      State(isRecording, transcript, qaPairs, suggestions, documentText, isDocumentOpen, loading, fullTranscript)
    }

    /** The initial `useState` / `useRef` values. */
    constructor ()
      ensures Valid()
      ensures Snapshot() == State(false, "", [], [], "", false, AllClear, "")
    {
      isRecording := false;
      transcript := "";
      qaPairs := [];
      suggestions := [];
      documentText := "";
      isDocumentOpen := false;
      loading := AllClear;
      fullTranscript := "";
    }

    /** `handleStartRecording`: clears the session's text and results and starts
        recording, whatever came before; the flags and the dialog are kept. */
    method StartRecording()
      modifies this
      ensures Valid()
      ensures Snapshot() == old(Snapshot()).(isRecording := true, transcript := "", qaPairs := [],
                                               suggestions := [], documentText := "", fullTranscript := "")
    {
      transcript := "";
      qaPairs := [];
      suggestions := [];
      documentText := "";
      fullTranscript := "";
      isRecording := true;
    }

    /** `handleAudioChunk` on arrival: ignored unless recording, otherwise the
        transcription call is issued and marked pending. */
    method AudioChunkArrived() returns (accepted: bool)
      requires Valid()
      modifies this
      ensures Valid()
      ensures accepted == old(isRecording)
      ensures Snapshot() == if accepted then old(Snapshot()).(loading := old(loading).(transcribe := true))
                            else old(Snapshot())
    {
      if !isRecording {
        return false;
      }
      loading := loading.(transcribe := true);
      accepted := true;
    }

    /** `handleAudioChunk` when its transcription call settles (or reading the
        chunk failed): the accumulator takes the text, the displayed transcript
        follows it, and the transcription flag clears; nothing else changes. */
    method TranscriptionSettled(reply: Settled<string>)
      requires Valid()
      modifies this
      ensures Valid()
      ensures fullTranscript == Appended(old(fullTranscript), reply)
      ensures Snapshot() == old(Snapshot()).(transcript := fullTranscript, fullTranscript := fullTranscript,
                                               loading := old(loading).(transcribe := false))
    {
      if reply.Resolved? && reply.value != "" {
        fullTranscript := fullTranscript + reply.value + " ";
        transcript := fullTranscript;
      }
      loading := loading.(transcribe := false);
    }

    /** `analyzeFinalTranscript`. */
    method AnalyzeFinalTranscript(identify: Identifier, suggest: Suggester, format: Formatter)
      returns (issued: seq<Request>)
      requires Valid()
      modifies this
      ensures Valid()
      ensures FinalAnalysis(old(Snapshot()), Snapshot(), identify, suggest, format, issued)
    {
      issued := [];
      if |Trim(fullTranscript)| == 0 {
        return;
      }
      loading := loading.(qa := true, suggest := true, document := true);
      // The try block: a rejected call leaves it, skipping every later step.
      label attempt: {
        var identifyInput := IdentifyInput(fullTranscript);
        issued := issued + [Identify(identifyInput)];
        var qaResult := identify(identifyInput);
        if qaResult.Rejected? {
          break attempt;
        }
        qaPairs := qaResult.value;

        var suggestInput := SuggestInput(fullTranscript, Questions(qaResult.value), ScreeningSection);
        issued := issued + [Suggest(suggestInput)];
        var suggestionsResult := suggest(suggestInput);
        if suggestionsResult.Rejected? {
          break attempt;
        }
        suggestions := suggestionsResult.value;

        if |qaResult.value| > 0 {
          var formatInput := FormatInput(InterviewFormat.InterviewData(qaResult.value));
          issued := issued + [Format(formatInput)];
          var documentResult := format(formatInput);
          if documentResult.Rejected? {
            break attempt;
          }
          documentText := documentResult.value;
          isDocumentOpen := true;
        }
      }
      // The finally block.
      loading := AllClear;
    }

    /** `handleStopRecording`: stop recording, then run the final analysis. */
    method StopRecording(identify: Identifier, suggest: Suggester, format: Formatter)
      returns (issued: seq<Request>)
      requires Valid()
      modifies this
      ensures Valid()
      ensures FinalAnalysis(old(Snapshot()).(isRecording := false), Snapshot(), identify, suggest, format, issued)
    {
      isRecording := false;
      issued := AnalyzeFinalTranscript(identify, suggest, format);
    }

    /** The document dialog's `onOpenChange`. */
    method SetDocumentOpen(open: bool)
      requires Valid()
      modifies this
      ensures Valid()
      ensures Snapshot() == old(Snapshot()).(isDocumentOpen := open)
    {
      isDocumentOpen := open;
    }
  }

  // ---------------------------------------------------------------------------
  // Properties

  /** One settlement only ever adds at the end of the accumulator. */
  lemma AppendedExtends(acc: string, reply: Settled<string>)
    ensures Appended(acc, reply) == acc + Appended("", reply)
  {
    if reply.Resolved? && reply.value != "" {
      assert acc + reply.value + " " == acc + ("" + reply.value + " ");
    }
  }

  /** Settlements are taken in completion order: the accumulator ends as it
      was, followed by each non-empty transcription and a space, in the order
      the calls settled. */
  lemma {:induction false} ReplayAppendsInCompletionOrder(acc: string, replies: seq<Settled<string>>)
    ensures Replay(acc, replies) == acc + Contributed(replies)
    decreases |replies|
  {
    if replies != [] {
      var next := Appended(acc, replies[0]);
      ReplayAppendsInCompletionOrder(next, replies[1..]);
      AppendedExtends(acc, replies[0]);
      assert Contributed(replies) == Appended("", replies[0]) + Contributed(replies[1..]);
      assert Replay(acc, replies) == Replay(next, replies[1..]);
      calc {
        Replay(acc, replies);
        Replay(next, replies[1..]);
        next + Contributed(replies[1..]);
        (acc + Appended("", replies[0])) + Contributed(replies[1..]);
        acc + (Appended("", replies[0]) + Contributed(replies[1..]));
        acc + Contributed(replies);
      }
    }
  }

  /** Two chunks whose transcriptions settle in the opposite order to their
      capture give a different transcript: nothing restores capture order. */
  lemma CompletionOrderIsVisible()
    ensures Replay("", [Resolved("prima"), Resolved("dopo")]) == "prima dopo "
    ensures Replay("", [Resolved("dopo"), Resolved("prima")]) == "dopo prima "
  {
  }

  /** Once a transcription with a visible character has been taken, the final
      analysis is no longer skipped, whatever settles afterwards. */
  lemma {:induction false} VisibleTranscriptionEnablesAnalysis(acc: string, text: string, i: nat, later: seq<Settled<string>>)
    requires i < |text| && !IsWhitespace(text[i])
    ensures !IsBlank(Replay(acc, [Resolved(text)] + later))
  {
    var replies := [Resolved(text)] + later;
    assert replies[1..] == later;
    ReplayAppendsInCompletionOrder(Appended(acc, Resolved(text)), later);
    assert Replay(acc, replies) == acc + text + (" " + Contributed(later));
    VisibleTextIsNotBlank(acc, text, " " + Contributed(later), i);
  }

  /** The final analysis keeps the displayed transcript equal to the
      accumulator, and leaves both (and the recording flag) untouched. */
  lemma AnalysisKeepsTranscript(before: State, after: State, identify: Identifier, suggest: Suggester,
                                format: Formatter, issued: seq<Request>)
    requires FinalAnalysis(before, after, identify, suggest, format, issued)
    ensures after.transcript == before.transcript && after.fullTranscript == before.fullTranscript
    ensures after.isRecording == before.isRecording
    ensures |issued| <= 3
    ensures issued == [] <==> IsBlank(before.fullTranscript)
    ensures after.loading == (if IsBlank(before.fullTranscript) then before.loading else AllClear)
  {
  }

  /** The formatting request, when issued, carries every extracted question and
      answer in extraction order (read back from its payload when no field spans
      lines), and nothing of the categories. */
  lemma FormatPayloadCarriesPairs(before: State, after: State, identify: Identifier, suggest: Suggester,
                                  format: Formatter, issued: seq<Request>)
    requires FinalAnalysis(before, after, identify, suggest, format, issued)
    requires |issued| == 3
    requires InterviewFormat.SingleLineFields(after.qaPairs)
    ensures issued[2].Format?
    ensures after.qaPairs != []
    ensures InterviewFormat.Parse(issued[2].formatInput.interviewData)
         == InterviewFormat.Some(InterviewFormat.Exchanges(after.qaPairs))
  {
    InterviewFormat.ParseInterviewData(after.qaPairs);
  }

  /** At the end of a final analysis whose extraction resolved, the QA panel
      (fed with `loading.qa`) shows one section per key of the pairs found, or
      the empty message when none were found. While the later calls are still
      pending, `loading.qa` is true, so an empty extraction shows the skeleton
      until then; the atomic model has no state in between. */
  lemma PanelAfterExtraction(before: State, after: State, identify: Identifier, suggest: Suggester,
                             format: Formatter, issued: seq<Request>)
    requires FinalAnalysis(before, after, identify, suggest, format, issued)
    requires |issued| >= 2
    ensures issued[0].Identify? && identify(issued[0].identifyInput).Resolved?
    ensures var found := identify(issued[0].identifyInput).value;
            var view := QaPanel.SelectView(after.qaPairs, after.loading.qa);
            after.qaPairs == found
            && (found == [] <==> view == QaPanel.EmptyMessage)
            && (view.Accordion? ==> |view.sections| == |QaPanel.Categories(found)|)
  {
  }

  /** A short session: start, one chunk transcribed as `text`, stop. A
      transcription with a visible character is enough for the final analysis
      to run, and the extraction call receives the accumulated text. */
  method OneChunkSession(text: string, i: nat, identify: Identifier, suggest: Suggester, format: Formatter)
    returns (issued: seq<Request>)
    requires i < |text| && !IsWhitespace(text[i])
    ensures |issued| >= 1
    ensures issued[0] == Identify(IdentifyInput(text + " "))
  {
    var session := new Session();
    session.StartRecording();
    var accepted := session.AudioChunkArrived();
    assert accepted;
    session.TranscriptionSettled(Resolved(text));
    var ft := session.fullTranscript;
    assert ft == "" + text + " ";
    assert !IsBlank(ft) by {
      VisibleTextIsNotBlank("", text, " ", i);
    }
    issued := session.StopRecording(identify, suggest, format);
    assert issued[0] == Identify(IdentifyInput(ft));
    assert !session.isRecording && session.loading == AllClear;
  }
}
