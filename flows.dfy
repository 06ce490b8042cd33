/**
 The request/response contracts of the four hosted-model services the session
 page calls (transcription, question/answer extraction, follow-up suggestion,
 document formatting). The services themselves are opaque: the model sees each
 one as an oracle that either resolves with a value of the declared output
 shape or rejects.
 */
module Flows {

  /** One extracted exchange: the doctor's question, the patient's answer and a
      free-text screening category chosen by the extraction service. */
  datatype QaPair = QaPair(question: string, answer: string, category: string)

  /** How an awaited service call settles: it resolves with a value or it rejects. */
  datatype Settled<+T> = Resolved(value: T) | Rejected

  /** Input of identifyQuestionsAndAnswers. */
  datatype IdentifyInput = IdentifyInput(transcription: string)

  /** Input of suggestAdditionalQuestions. */
  datatype SuggestInput = SuggestInput(transcript: string, answeredQuestions: seq<string>, screeningSection: string)

  /** Input of formatMedicalDocument. */
  datatype FormatInput = FormatInput(interviewData: string)

  /** A call issued to one of the analysis services, with the exact payload sent. */
  datatype Request =
    | Identify(identifyInput: IdentifyInput)
    | Suggest(suggestInput: SuggestInput)
    | Format(formatInput: FormatInput)

  /** The services as oracles: for a given payload each resolves or rejects. */
  type Identifier = IdentifyInput -> Settled<seq<QaPair>>
  type Suggester = SuggestInput -> Settled<seq<string>>
  type Formatter = FormatInput -> Settled<string>

  /** `qaResult.map((qa) => qa.question)`: the questions, in extraction order. */
  function Questions(pairs: seq<QaPair>): (qs: seq<string>)
    ensures |qs| == |pairs|
    ensures forall i :: 0 <= i < |pairs| ==> qs[i] == pairs[i].question
  {
    seq(|pairs|, i requires 0 <= i < |pairs| => pairs[i].question)
  }
}
