/**
 The interview-data serialiser of the final analysis: each extracted pair is
 rendered as a question line `D: …` followed by an answer line `R: …`, and the
 rendered pairs are joined with a blank line. This text is the whole payload of
 the document-formatting call.

 The module also gives the inverse reading (split into lines, then read the
 line pattern back), used to prove that the payload carries every question and
 answer, in extraction order, and nothing else.
 */
module InterviewFormat {
  import opened Flows

  const QuestionPrefix: string := "D: "
  const AnswerPrefix: string := "R: "
  const PairSeparator: string := "\n\n"

  /** `D: ${qa.question}\nR: ${qa.answer}` */
  function Render(qa: QaPair): (text: string)
    ensures QuestionPrefix + qa.question <= text
    ensures |text| == |QuestionPrefix| + |qa.question| + 1 + |AnswerPrefix| + |qa.answer|
  {
    QuestionPrefix + qa.question + "\n" + AnswerPrefix + qa.answer
  }

  /** `Array.prototype.join`: the parts with `sep` between neighbours; "" for no parts. */
  function Join(parts: seq<string>, sep: string): (joined: string)
    ensures parts == [] ==> joined == ""
    ensures parts != [] ==> parts[0] <= joined
  {
    if |parts| == 0 then ""
    else if |parts| == 1 then parts[0]
    else parts[0] + sep + Join(parts[1..], sep)
  }

  /** `qaResult.map(render)`. */
  function RenderAll(pairs: seq<QaPair>): (rs: seq<string>)
    ensures |rs| == |pairs|
  {
    seq(|pairs|, i requires 0 <= i < |pairs| => Render(pairs[i]))
  }

  /** The `interviewData` payload sent to the formatting service. */
  function InterviewData(pairs: seq<QaPair>): (data: string)
    ensures pairs != [] ==> Render(pairs[0]) <= data
  {
    Join(RenderAll(pairs), PairSeparator)
  }

  /** What a reader of the payload can recover from one pair. */
  datatype Exchange = Exchange(question: string, answer: string)

  function Exchanges(pairs: seq<QaPair>): (es: seq<Exchange>)
    ensures |es| == |pairs|
  {
    seq(|pairs|, i requires 0 <= i < |pairs| => Exchange(pairs[i].question, pairs[i].answer))
  }

  predicate NewlineFree(s: string) {
    '\n' !in s
  }

  /** Every question and answer fits on one line. */
  predicate SingleLineFields(pairs: seq<QaPair>) {
    forall qa :: qa in pairs ==> NewlineFree(qa.question) && NewlineFree(qa.answer)
  }

  /** `s.split("\n")`: always at least one line. */
  function Lines(s: string): (ls: seq<string>)
    ensures |ls| >= 1
  {
    if s == [] then [""]
    else if s[0] == '\n' then [""] + Lines(s[1..])
    else
      var rest := Lines(s[1..]);
      [[s[0]] + rest[0]] + rest[1..]
  }

  datatype Option<+T> = None | Some(value: T)

  function StripPrefix(prefix: string, line: string): Option<string> {
    if prefix <= line then Some(line[|prefix|..]) else None
  }

  /** Reads the line pattern `D: q`, `R: a`, then either the end or a blank line
      and more pairs. */
  function ParseLines(ls: seq<string>): Option<seq<Exchange>>
    decreases |ls|
  {
    if |ls| < 2 then None
    else match (StripPrefix(QuestionPrefix, ls[0]), StripPrefix(AnswerPrefix, ls[1]))
      case (Some(q), Some(a)) =>
        if |ls| == 2 then Some([Exchange(q, a)])
        else if ls[2] != "" then None
        else (match ParseLines(ls[3..])
              case None => None
              case Some(rest) => Some([Exchange(q, a)] + rest))
      case _ => None
  }

  /** The inverse reading of an interview-data payload. */
  function Parse(data: string): Option<seq<Exchange>> {
    if data == "" then Some([]) else ParseLines(Lines(data))
  }

  /** A line without a line break splits into itself. */
  lemma {:induction false} LinesOfOneLine(x: string)
    requires NewlineFree(x)
    ensures Lines(x) == [x]
  {
    if x != [] {
      assert '\n' !in x[1..];
      LinesOfOneLine(x[1..]);
      assert [x[0]] + x[1..] == x;
    }
  }

  /** A line followed by a line break contributes exactly that line. */
  lemma {:induction false} LinesAfterOneLine(x: string, y: string)
    requires NewlineFree(x)
    ensures Lines(x + "\n" + y) == [x] + Lines(y)
  {
    if x == [] {
      assert x + "\n" + y == ['\n'] + y;
      assert (['\n'] + y)[1..] == y;
    } else {
      var s := x + "\n" + y;
      assert s[0] == x[0] && s[1..] == x[1..] + "\n" + y;
      assert '\n' !in x[1..];
      LinesAfterOneLine(x[1..], y);
      assert [x[0]] + x[1..] == x;
    }
  }

  /** The payload is empty exactly when there is nothing to format. */
  lemma InterviewDataEmptyIff(pairs: seq<QaPair>)
    ensures InterviewData(pairs) == "" <==> pairs == []
  {
    if pairs != [] {
      var rs := RenderAll(pairs);
      assert |rs[0]| >= |QuestionPrefix|;
      if |pairs| >= 2 {
        assert |Join(rs, PairSeparator)| >= |rs[0]|;
      }
    }
  }

  /** The payload of two or more pairs is the first rendered pair, a blank line,
      then the payload of the rest. */
  lemma InterviewDataCons(pairs: seq<QaPair>)
    requires |pairs| >= 2
    ensures InterviewData(pairs) == Render(pairs[0]) + PairSeparator + InterviewData(pairs[1..])
  {
    assert RenderAll(pairs)[1..] == RenderAll(pairs[1..]);
  }

  /** The lines of one rendered pair whose fields do not span lines. */
  lemma LinesOfRender(qa: QaPair, tail: string)
    requires NewlineFree(qa.question) && NewlineFree(qa.answer)
    ensures Lines(Render(qa)) == [QuestionPrefix + qa.question, AnswerPrefix + qa.answer]
    ensures Lines(Render(qa) + PairSeparator + tail) == [QuestionPrefix + qa.question, AnswerPrefix + qa.answer, ""] + Lines(tail)
  {
    var qLine := QuestionPrefix + qa.question;
    var aLine := AnswerPrefix + qa.answer;
    assert NewlineFree(qLine) && NewlineFree(aLine);
    assert Render(qa) == qLine + "\n" + aLine;
    LinesAfterOneLine(qLine, aLine);
    LinesOfOneLine(aLine);
    assert Render(qa) + PairSeparator + tail == qLine + "\n" + (aLine + "\n" + ("" + "\n" + tail));
    LinesAfterOneLine(qLine, aLine + "\n" + ("" + "\n" + tail));
    LinesAfterOneLine(aLine, "" + "\n" + tail);
    LinesAfterOneLine("", tail);
  }

  /** Reading the line pattern of one pair, then a blank line and more lines. */
  lemma ParseLinesCons(qa: QaPair, more: seq<string>)
    ensures ParseLines([QuestionPrefix + qa.question, AnswerPrefix + qa.answer])
         == Some([Exchange(qa.question, qa.answer)])
    ensures ParseLines([QuestionPrefix + qa.question, AnswerPrefix + qa.answer, ""] + more)
         == match ParseLines(more)
            case None => None
            case Some(rest) => Some([Exchange(qa.question, qa.answer)] + rest)
  {
    var qLine := QuestionPrefix + qa.question;
    var aLine := AnswerPrefix + qa.answer;
    assert qLine[|QuestionPrefix|..] == qa.question;
    assert aLine[|AnswerPrefix|..] == qa.answer;
    assert ([qLine, aLine, ""] + more)[3..] == more;
  }

  /** Round trip: when no field spans lines, reading the payload back yields
      every pair's question and answer in extraction order (the category is not
      part of the payload). */
  lemma {:induction false} ParseInterviewData(pairs: seq<QaPair>)
    requires SingleLineFields(pairs)
    ensures Parse(InterviewData(pairs)) == Some(Exchanges(pairs))
  {
    if pairs != [] {
      var qa := pairs[0];
      assert qa in pairs;
      InterviewDataEmptyIff(pairs);
      ParseLinesCons(qa, []);
      if |pairs| == 1 {
        LinesOfRender(qa, "");
        assert Exchanges(pairs) == [Exchange(qa.question, qa.answer)];
      } else {
        var rest := pairs[1..];
        InterviewDataCons(pairs);
        assert SingleLineFields(rest) by {
          forall p | p in rest ensures p in pairs { }
        }
        ParseInterviewData(rest);
        InterviewDataEmptyIff(rest);
        LinesOfRender(qa, InterviewData(rest));
        ParseLinesCons(qa, Lines(InterviewData(rest)));
        assert Exchanges(pairs) == [Exchange(qa.question, qa.answer)] + Exchanges(rest);
      }
    }
  }

  /** The two-pair example: questions "A?" and "C?" with answers "B" and "D". */
  lemma TwoPairExample(c1: string, c2: string)
    ensures InterviewData([QaPair("A?", "B", c1), QaPair("C?", "D", c2)]) == "D: A?\nR: B\n\nD: C?\nR: D"
  {
    var pairs := [QaPair("A?", "B", c1), QaPair("C?", "D", c2)];
    InterviewDataCons(pairs);
    assert pairs[1..] == [pairs[1]];
  }
}
