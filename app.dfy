/**
 * The author-analysis form of the frontend: `handleSubmit` posts the tweet, reads the NDJSON
 * response chunk by chunk, shows each record's `explanation` as it arrives and keeps the last
 * record whose `streaming` flag is false as the final response.
 */
module App {
  import opened Wrappers
  import opened Strings
  import opened Ndjson

  /** What the read loop has built so far: the shown explanation and `accumulatedResponse`. */
  datatype Progress = Progress(explanation: Option<string>, accumulated: Record)

  /** The state right after submitting: an empty explanation and `{}` accumulated. */
  const Start: Progress := Progress(Some(""), EmptyObject)

  /** JavaScript's string conversion of a possibly undefined string. */
  function JsText(v: Option<string>): string {
    if v.Some? then v.value else "undefined"
  }

  /** The note appended to the explanation when a line does not parse. */
  function ParseErrorNote(message: string): string {
    "\nError processing data: " + message
  }

  /** A non-blank line that parses to a record whose `streaming` flag is false. */
  predicate IsFinal(parse: string -> Result<Record>, line: string) {
    !IsBlank(line) && parse(line).Success? && !parse(line).value.streaming
  }

  /** The body of the inner `for` loop, for one line. */
  function ApplyLine(parse: string -> Result<Record>, p: Progress, line: string): Progress {
    if IsBlank(line) then p
    else match parse(line)
      case Success(d) => Progress(d.explanation, if !d.streaming then d else p.accumulated)
      case Failure(message) => Progress(Some(JsText(p.explanation) + ParseErrorNote(message)), p.accumulated)
  }

  /** The lines, applied in order. */
  function ApplyLines(parse: string -> Result<Record>, p: Progress, lines: seq<string>): Progress {
    if lines == [] then p else ApplyLine(parse, ApplyLines(parse, p, lines[..|lines| - 1]), lines[|lines| - 1])
  }

  /** The note a line appends to the explanation: none unless it is non-blank and fails to parse. */
  function LineNote(parse: string -> Result<Record>, line: string): string {
    if !IsBlank(line) && parse(line).Failure? then ParseErrorNote(parse(line).message) else ""
  }

  /** The notes that the parse failures among `lines` append, in order. */
  function ErrorNotes(parse: string -> Result<Record>, lines: seq<string>): string {
    if lines == [] then "" else ErrorNotes(parse, lines[..|lines| - 1]) + LineNote(parse, lines[|lines| - 1])
  }

  /** The `setResponse` value of the `catch` block: a failure shown as an ERROR attribution. */
  function TransportErrorResponse(message: string): (r: Record)
    ensures r.predictedAuthor == Some("ERROR") && !r.streaming
    ensures r.explanation == Some("An error occurred: " + message)
    ensures r.confidence == Some(0.0) && r.topic == Some("N/A") && r.topicConfidence == Some(0.0)
  {
    Record(false, Some("An error occurred: " + message), Some("ERROR"), Some(0.0), Some("N/A"), Some(0.0), None, None)
  }

  /** What the form shows once `handleSubmit` has finished. */
  datatype Outcome = Outcome(explanation: Option<string>, response: Record)

  /**
   * The outcome of one exchange. The status is not consulted: the body of any response is read.
   * Only lines ended by `'\n'` are processed; a read that rejects replaces the response with the
   * error record but keeps the explanation reached so far.
   */
  function AnalysisOutcome(parse: string -> Result<Record>, ex: Exchange): Outcome {
    match ex
    case FetchFailed(message) => Outcome(Some(""), TransportErrorResponse(message))
    case Responded(_, chunks, readError) =>
      var p := ApplyLines(parse, Start, CompleteLines(Concat(chunks)));
      Outcome(p.explanation, if readError.Some? then TransportErrorResponse(readError.value) else p.accumulated)
  }

  // ---------------------------------------------------------------- properties of the line loop

  lemma {:induction false} ApplyLinesAppend(parse: string -> Result<Record>, p: Progress, a: seq<string>, b: seq<string>)
    ensures ApplyLines(parse, p, a + b) == ApplyLines(parse, ApplyLines(parse, p, a), b)
    decreases |b|
  {
    if b == [] {
      assert a + b == a;
    } else {
      assert (a + b)[..|a + b| - 1] == a + b[..|b| - 1];
      ApplyLinesAppend(parse, p, a, b[..|b| - 1]);
    }
  }

  /** Blank lines (JavaScript `trim()` gives `''`) change nothing. */
  lemma {:induction false} BlankLinesIgnored(parse: string -> Result<Record>, p: Progress, lines: seq<string>)
    requires forall j :: 0 <= j < |lines| ==> IsBlank(lines[j])
    ensures ApplyLines(parse, p, lines) == p
    decreases |lines|
  {
    if lines != [] {
      BlankLinesIgnored(parse, p, lines[..|lines| - 1]);
    }
  }

  /** Without a final record among the lines, the accumulated response is left as it was. */
  lemma {:induction false} NoFinalKeepsAccumulated(parse: string -> Result<Record>, p: Progress, lines: seq<string>)
    requires forall j :: 0 <= j < |lines| ==> !IsFinal(parse, lines[j])
    ensures ApplyLines(parse, p, lines).accumulated == p.accumulated
    decreases |lines|
  {
    if lines != [] {
      NoFinalKeepsAccumulated(parse, p, lines[..|lines| - 1]);
    }
  }

  /** The accumulated response is the record of the last final line. */
  lemma LastFinalWins(parse: string -> Result<Record>, p: Progress, lines: seq<string>, k: nat)
    requires k < |lines| && IsFinal(parse, lines[k])
    requires forall j :: k < j < |lines| ==> !IsFinal(parse, lines[j])
    ensures ApplyLines(parse, p, lines).accumulated == parse(lines[k]).value
  {
    var front, back := lines[..k + 1], lines[k + 1..];
    assert lines == front + back;
    assert front[..k] == lines[..k];
    ApplyLinesAppend(parse, p, front, back);
    forall j | 0 <= j < |back| ensures !IsFinal(parse, back[j]) {
      assert back[j] == lines[k + 1 + j];
    }
    NoFinalKeepsAccumulated(parse, ApplyLines(parse, p, front), back);
  }

  /**
   * Lines that are blank or fail to parse leave the explanation as it was, followed by one note
   * per failure; `undefined` is spelt out when a note is appended to an absent explanation.
   */
  lemma {:induction false} ExplanationTrail(parse: string -> Result<Record>, p: Progress, lines: seq<string>)
    requires forall j :: 0 <= j < |lines| ==> IsBlank(lines[j]) || parse(lines[j]).Failure?
    ensures ApplyLines(parse, p, lines).explanation == Trailed(p.explanation, ErrorNotes(parse, lines))
    decreases |lines|
  {
    if lines != [] {
      var init, last := lines[..|lines| - 1], lines[|lines| - 1];
      ExplanationTrail(parse, p, init);
      ExplanationStep(parse, ApplyLines(parse, p, init), last, p.explanation, ErrorNotes(parse, init));
    }
  }

  /** An explanation followed by notes; with no notes it is left as it was, even when absent. */
  function Trailed(explanation: Option<string>, notes: string): Option<string> {
    if notes == "" then explanation else Some(JsText(explanation) + notes)
  }

  lemma ExplanationStep(parse: string -> Result<Record>, prev: Progress, line: string, base: Option<string>, notes: string)
    requires prev.explanation == Trailed(base, notes)
    requires IsBlank(line) || parse(line).Failure?
    ensures ApplyLine(parse, prev, line).explanation == Trailed(base, notes + LineNote(parse, line))
  {
    if !IsBlank(line) {
      var note := ParseErrorNote(parse(line).message);
      assert LineNote(parse, line) == note;
      assert note[0] == '\n';
      TrailedExtend(prev.explanation, base, notes, note);
    } else {
      assert notes + LineNote(parse, line) == notes;
    }
  }

  /** Appending a non-empty note to a trailed explanation trails it by one note more. */
  lemma TrailedExtend(explanation: Option<string>, base: Option<string>, notes: string, note: string)
    requires explanation == Trailed(base, notes) && note != ""
    ensures Some(JsText(explanation) + note) == Trailed(base, notes + note)
  {
    if notes == "" {
      assert notes + note == note;
    } else {
      assert JsText(base) + notes + note == JsText(base) + (notes + note);
    }
  }

  /**
   * The explanation shown is that of the last line that parsed, followed by a note for each later
   * line that failed to parse.
   */
  lemma ExplanationFromLastParsed(parse: string -> Result<Record>, p: Progress, lines: seq<string>, k: nat)
    requires k < |lines| && !IsBlank(lines[k]) && parse(lines[k]).Success?
    requires forall j :: k < j < |lines| ==> IsBlank(lines[j]) || parse(lines[j]).Failure?
    ensures ApplyLines(parse, p, lines).explanation == Trailed(parse(lines[k]).value.explanation, ErrorNotes(parse, lines[k + 1..]))
  {
    var front, back := lines[..k + 1], lines[k + 1..];
    assert lines == front + back;
    assert front[..k] == lines[..k];
    ApplyLinesAppend(parse, p, front, back);
    forall j | 0 <= j < |back| ensures IsBlank(back[j]) || parse(back[j]).Failure? {
      assert back[j] == lines[k + 1 + j];
    }
    ExplanationTrail(parse, ApplyLines(parse, p, front), back);
  }

  /** A last line not ended by `'\n'` is never processed: it stays in the buffer when the stream ends. */
  lemma ResidualIgnored(parse: string -> Result<Record>, status: nat, chunks: seq<string>, tail: string, readError: Option<string>)
    requires NoNewline(tail)
    ensures AnalysisOutcome(parse, Responded(status, chunks + [tail], readError))
         == AnalysisOutcome(parse, Responded(status, chunks, readError))
  {
    assert (chunks + [tail])[..|chunks|] == chunks;
    UnterminatedTail(Concat(chunks), tail);
  }

  // ---------------------------------------------------------------- the component

  /** The state of the `App` component that `handleSubmit` drives. */
  class AnalysisForm {
    var tweet: string
    var loading: bool
    var response: Option<Record>
    var currentExplanation: Option<string>

    constructor ()
      ensures tweet == "" && !loading && response == None && currentExplanation == Some("")
    {
      tweet, loading, response, currentExplanation := "", false, None, Some("");
    }

    /**
     * Submits the tweet and reads the answer: `ex` is what the network and the body reader
     * deliver, `parse` is `JSON.parse` followed by the property reads of the loop body.
     */
    method HandleSubmit(parse: string -> Result<Record>, ex: Exchange)
      modifies this
      ensures !loading && tweet == old(tweet)
      ensures response == Some(AnalysisOutcome(parse, ex).response)
      ensures currentExplanation == AnalysisOutcome(parse, ex).explanation
    {
      loading := true;
      response := None;
      currentExplanation := Some("");
      match ex {
        case FetchFailed(message) =>
          response := Some(TransportErrorResponse(message));
        case Responded(_, chunks, readError) =>
          var accumulated := ReadStream(parse, chunks);
          if readError.Some? {
            response := Some(TransportErrorResponse(readError.value));
          } else {
            response := Some(accumulated);
          }
      }
      loading := false;
    }

    /** The read loop: every chunk read is framed into lines and each complete line applied. */
    method ReadStream(parse: string -> Result<Record>, chunks: seq<string>) returns (accumulated: Record)
      requires currentExplanation == Some("")
      modifies this
      ensures Progress(currentExplanation, accumulated) == ApplyLines(parse, Start, CompleteLines(Concat(chunks)))
      ensures tweet == old(tweet) && loading == old(loading) && response == old(response)
    {
      var framer := new LineFramer();
      accumulated := EmptyObject;
      FramingUnique([], "", "");
      var i := 0;
      while i < |chunks|
        invariant 0 <= i <= |chunks|
        invariant fresh(framer) && framer.Valid() && framer.received == Concat(chunks[..i])
        invariant framer.lines == CompleteLines(framer.received)
        invariant Progress(currentExplanation, accumulated) == ApplyLines(parse, Start, framer.lines)
        invariant tweet == old(tweet) && loading == old(loading) && response == old(response)
      {
        ghost var before := framer.lines;
        var lines := framer.Feed(chunks[i]);
        assert framer.received == Concat(chunks[..i + 1]) by {
          assert chunks[..i + 1][..i] == chunks[..i];
        }
        accumulated := ProcessLines(parse, lines, accumulated);
        assert Progress(currentExplanation, accumulated) == ApplyLines(parse, Start, framer.lines) by {
          ApplyLinesAppend(parse, Start, before, lines);
        }
        i := i + 1;
      }
      assert chunks[..i] == chunks;
    }

    /** The `for (const line of lines)` loop of one chunk. */
    method ProcessLines(parse: string -> Result<Record>, lines: seq<string>, accumulated: Record) returns (next: Record)
      modifies this
      ensures Progress(currentExplanation, next) == ApplyLines(parse, Progress(old(currentExplanation), accumulated), lines)
      ensures tweet == old(tweet) && loading == old(loading) && response == old(response)
    {
      ghost var start := Progress(currentExplanation, accumulated);
      next := accumulated;
      var j := 0;
      while j < |lines|
        invariant 0 <= j <= |lines|
        invariant Progress(currentExplanation, next) == ApplyLines(parse, start, lines[..j])
        invariant tweet == old(tweet) && loading == old(loading) && response == old(response)
      {
        var line := lines[j];
        assert lines[..j + 1][..j] == lines[..j];
        if !IsBlank(line) {
          match parse(line) {
            case Success(data) =>
              currentExplanation := data.explanation;
              if !data.streaming {
                next := data;
              }
            case Failure(message) =>
              currentExplanation := Some(JsText(currentExplanation) + ParseErrorNote(message));
          }
        }
        j := j + 1;
      }
      assert lines[..j] == lines;
    }
  }
}
