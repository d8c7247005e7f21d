/**
 * The backend's streams as the frontend reads them: whatever chunks the transport delivers, the
 * frontend frames the emitted text back into exactly the serialised records, so the analysis form
 * ends with the stream's last record and the generation panel with its last non-empty tweet. The
 * 404 bodies, sent without a line end, show nothing in the form and an HTTP error in the panel.
 */
module EndToEnd {
  import opened Wrappers
  import opened Strings
  import opened Ndjson
  import Backend
  import App
  import LlmTweetGenerator

  // ---------------------------------------------------------------- framing the wire

  /**
   * Text made of the emitted lines frames into exactly the serialised records, in order, with
   * nothing left in the buffer, however it was chunked.
   */
  lemma WireFraming(parse: string -> Result<Record>, dumps: Record -> string, records: seq<Record>, received: seq<string>)
    requires LawfulOn(parse, dumps, records)
    requires Concat(received) == Concat(Backend.Emit(dumps, records))
    ensures CompleteLines(Concat(received)) == Backend.Serialized(dumps, records)
    ensures Pending(Concat(received)) == ""
    ensures Flatten(FrameChunks(received).groups) == Backend.Serialized(dumps, records)
  {
    var lines := Backend.Serialized(dumps, records);
    Backend.EmitTerminated(dumps, records);
    Backend.SerializedOneLine(parse, dumps, records);
    assert Terminated(lines) + "" == Concat(received);
    FramingUnique(lines, "", Concat(received));
  }

  // ---------------------------------------------------------------- the analysis form

  /**
   * `/analyze` followed by `handleSubmit`: the form shows the explanation of the stream's last
   * record and keeps that record as the response. The last record is the error record of the first
   * model chunk containing "ERROR" or, without one, the full text with its attributed author.
   */
  lemma AnalysisEndToEnd(parse: string -> Result<Record>, dumps: Record -> string, chunks: seq<string>,
                         topic: string, topicConfidence: real, status: nat, received: seq<string>)
    requires LawfulOn(parse, dumps, Backend.AnalysisRecords(chunks, topic, topicConfidence))
    requires Concat(received) == Concat(Backend.Emit(dumps, Backend.AnalysisRecords(chunks, topic, topicConfidence)))
    ensures var outcome := App.AnalysisOutcome(parse, Responded(status, received, None));
      match Backend.FirstError(chunks)
      case Some(k) =>
        outcome == App.Outcome(Some(chunks[k]), Backend.AnalysisFailure(chunks[k], topic, topicConfidence))
      case None =>
        outcome == App.Outcome(Some(Concat(chunks)), Backend.AnalysisResult(Concat(chunks), topic, topicConfidence))
  {
    var rs := Backend.AnalysisRecords(chunks, topic, topicConfidence);
    var lines := Backend.Serialized(dumps, rs);
    WireFraming(parse, dumps, rs, received);
    Backend.SerializedOneLine(parse, dumps, rs);
    Backend.AnalysisStreamShape(chunks, topic, topicConfidence);
    Backend.AnalysisStreamEnd(chunks, topic, topicConfidence);
    var k := |lines| - 1;
    assert lines[k] == dumps(rs[k]);
    assert parse(lines[k]) == Success(rs[k]) && !IsBlank(lines[k]);
    App.LastFinalWins(parse, App.Start, lines, k);
    App.ExplanationFromLastParsed(parse, App.Start, lines, k);
    assert lines[k + 1..] == [];
  }

  /**
   * The 404 body of `/analyze` is one JSON object with no line end: it completes no line, so the
   * form keeps the empty explanation and the response is `{}`, whatever the status.
   */
  lemma AnalysisNotFoundShowsNothing(parse: string -> Result<Record>, render: Record -> string,
                                     topic: string, topicConfidence: real, status: nat, received: seq<string>)
    requires NoNewline(render(Backend.AnalysisNotFound(topic, topicConfidence)))
    requires Concat(received) == render(Backend.AnalysisNotFound(topic, topicConfidence))
    ensures App.AnalysisOutcome(parse, Responded(status, received, None)) == App.Outcome(Some(""), EmptyObject)
  {
    assert Terminated([]) + Concat(received) == Concat(received);
    FramingUnique([], Concat(received), Concat(received));
  }

  // ---------------------------------------------------------------- the generation panel

  /** A line that does not end its chunk: blank, or a record without an error. */
  predicate Calm(parse: string -> Result<Record>, line: string) {
    IsBlank(line) || (parse(line).Success? && !Truthy(parse(line).value.error))
  }

  /** The panel's state after each of the lines in turn, with no line ending a chunk early. */
  function Replay(parse: string -> Result<Record>, g: LlmTweetGenerator.Generation, lines: seq<string>): LlmTweetGenerator.Generation {
    if lines == [] then g
    else LlmTweetGenerator.GenerateLine(parse, Replay(parse, g, lines[..|lines| - 1]), lines[|lines| - 1]).state
  }

  lemma {:induction false} ReplayAppend(parse: string -> Result<Record>, g: LlmTweetGenerator.Generation, a: seq<string>, b: seq<string>)
    ensures Replay(parse, g, a + b) == Replay(parse, Replay(parse, g, a), b)
    decreases |b|
  {
    if b == [] {
      assert a + b == a;
    } else {
      assert (a + b)[..|a + b| - 1] == a + b[..|b| - 1];
      ReplayAppend(parse, g, a, b[..|b| - 1]);
    }
  }

  /** Over calm lines the chunk's `for` loop runs to the end. */
  lemma {:induction false} CalmChunkRun(parse: string -> Result<Record>, g: LlmTweetGenerator.Generation, lines: seq<string>)
    requires forall j :: 0 <= j < |lines| ==> Calm(parse, lines[j])
    ensures LlmTweetGenerator.ChunkRun(parse, g, lines) == LlmTweetGenerator.Step(Replay(parse, g, lines), false)
    decreases |lines|
  {
    if lines != [] {
      var init, last := lines[..|lines| - 1], lines[|lines| - 1];
      CalmChunkRun(parse, g, init);
      assert lines == init + [last];
      LlmTweetGenerator.ChunkRunAppend(parse, g, init, [last]);
      assert [last][1..] == [];
      assert Calm(parse, last);
    }
  }

  /** Over calm lines, where the chunks fall does not matter: the read loop replays all the lines. */
  lemma {:induction false} CalmChunks(parse: string -> Result<Record>, g: LlmTweetGenerator.Generation, groups: seq<seq<string>>)
    requires forall j :: 0 <= j < |Flatten(groups)| ==> Calm(parse, Flatten(groups)[j])
    ensures LlmTweetGenerator.GenerateChunks(parse, g, groups) == Replay(parse, g, Flatten(groups))
    decreases |groups|
  {
    if groups != [] {
      var init, last := groups[..|groups| - 1], groups[|groups| - 1];
      var all := Flatten(groups);
      assert all == Flatten(init) + last;
      forall j | 0 <= j < |Flatten(init)| ensures Calm(parse, Flatten(init)[j]) {
        assert all[j] == Flatten(init)[j];
      }
      forall j | 0 <= j < |last| ensures Calm(parse, last[j]) {
        assert all[|Flatten(init)| + j] == last[j];
      }
      CalmChunks(parse, g, init);
      CalmChunkRun(parse, LlmTweetGenerator.GenerateChunks(parse, g, init), last);
      ReplayAppend(parse, g, Flatten(init), last);
    }
  }

  /** The last non-empty `generated_tweet` among the records, or `""`. */
  function ShownTweet(records: seq<Record>): string {
    if records == [] then ""
    else if Truthy(records[|records| - 1].generatedTweet) then records[|records| - 1].generatedTweet.value
    else ShownTweet(records[..|records| - 1])
  }

  /** Records without an error, read in order from a cleared panel, show their last non-empty tweet. */
  lemma {:induction false} ReplayRecords(parse: string -> Result<Record>, dumps: Record -> string, records: seq<Record>)
    requires LawfulOn(parse, dumps, records)
    requires forall i :: 0 <= i < |records| ==> !Truthy(records[i].error)
    ensures Replay(parse, LlmTweetGenerator.Cleared, Backend.Serialized(dumps, records))
         == LlmTweetGenerator.Generation(ShownTweet(records), None)
    decreases |records|
  {
    if records != [] {
      var init, last := records[..|records| - 1], records[|records| - 1];
      assert LawfulOn(parse, dumps, init) by {
        forall i | 0 <= i < |init| ensures init[i] == records[i] {}
      }
      ReplayRecords(parse, dumps, init);
      var lines := Backend.Serialized(dumps, records);
      assert lines[..|lines| - 1] == Backend.Serialized(dumps, init);
      assert parse(dumps(last)) == Success(last) && !IsBlank(dumps(last));
    }
  }

  /** Records whose tweets are all absent or empty show nothing. */
  lemma {:induction false} ShownTweetBlank(records: seq<Record>)
    requires forall i :: 0 <= i < |records| ==> !Truthy(records[i].generatedTweet)
    ensures ShownTweet(records) == ""
    decreases |records|
  {
    if records != [] {
      ShownTweetBlank(records[..|records| - 1]);
    }
  }

  /** Before the final record, the panel shows the raw text, or nothing when there is none. */
  lemma ShownBeforeFinal(chunks: seq<string>)
    ensures ShownTweet([Backend.GenerationStart] + Backend.GenerationProgresses(chunks, |chunks|)) == Concat(chunks)
  {
    var front := [Backend.GenerationStart] + Backend.GenerationProgresses(chunks, |chunks|);
    var n := |chunks|;
    if n == 0 {
      assert front[..0] == [];
    } else {
      Backend.GenerationProgressAt(chunks, n, n - 1);
      assert chunks[..n] == chunks;
      assert front[n] == Backend.GenerationProgress(Concat(chunks));
      if Concat(chunks) == "" {
        forall i | 0 <= i < |front| ensures !Truthy(front[i].generatedTweet) {
          if i > 0 {
            Backend.GenerationProgressAt(chunks, n, i - 1);
            assert front[i] == Backend.GenerationProgress(Concat(chunks[..i]));
            Backend.ConcatPrefix(chunks, i, n);
          }
        }
        ShownTweetBlank(front);
      }
    }
  }

  /**
   * The generation stream shows the stripped tweet at the end, unless stripping leaves nothing:
   * then the empty final record is not shown and the last partial record, the raw text, stays.
   */
  lemma GenerationShownTweet(chunks: seq<string>)
    ensures var full := Concat(chunks);
      ShownTweet(Backend.GenerationRecords(chunks)) == if Backend.StripQuotes(full) != "" then Backend.StripQuotes(full) else full
  {
    var front := [Backend.GenerationStart] + Backend.GenerationProgresses(chunks, |chunks|);
    var stripped := Backend.StripQuotes(Concat(chunks));
    var rs := front + [Backend.GenerationResult(stripped)];
    assert rs == Backend.GenerationRecords(chunks);
    assert rs[..|rs| - 1] == front;
    ShownBeforeFinal(chunks);
  }

  /** Every record of the generation stream is without an error. */
  lemma GenerationRecordsNoError(chunks: seq<string>)
    ensures var rs := Backend.GenerationRecords(chunks);
      forall i :: 0 <= i < |rs| ==> !Truthy(rs[i].error)
  {
    var ps := Backend.GenerationProgresses(chunks, |chunks|);
    var rs := [Backend.GenerationStart] + ps + [Backend.GenerationResult(Backend.StripQuotes(Concat(chunks)))];
    assert rs == Backend.GenerationRecords(chunks);
    forall i | 0 <= i < |rs| ensures rs[i].error == None {
      if 1 <= i <= |ps| {
        assert rs[i] == ps[i - 1];
        Backend.GenerationProgressAt(chunks, |chunks|, i - 1);
      }
    }
  }

  /** Every line of the generation stream is calm. */
  lemma GenerationRecordsCalm(parse: string -> Result<Record>, dumps: Record -> string, chunks: seq<string>)
    requires LawfulOn(parse, dumps, Backend.GenerationRecords(chunks))
    ensures var lines := Backend.Serialized(dumps, Backend.GenerationRecords(chunks));
      forall j :: 0 <= j < |lines| ==> Calm(parse, lines[j])
  {
    var rs := Backend.GenerationRecords(chunks);
    GenerationRecordsNoError(chunks);
    Backend.SerializedOneLine(parse, dumps, rs);
  }

  /** The read loop over the framed generation stream replays its lines, chunk boundaries aside. */
  lemma FramedReplay(parse: string -> Result<Record>, dumps: Record -> string, chunks: seq<string>, groups: seq<seq<string>>)
    requires LawfulOn(parse, dumps, Backend.GenerationRecords(chunks))
    requires Flatten(groups) == Backend.Serialized(dumps, Backend.GenerationRecords(chunks))
    ensures LlmTweetGenerator.GenerateChunks(parse, LlmTweetGenerator.Cleared, groups)
         == Replay(parse, LlmTweetGenerator.Cleared, Flatten(groups))
  {
    GenerationRecordsCalm(parse, dumps, chunks);
    CalmChunks(parse, LlmTweetGenerator.Cleared, groups);
  }

  /**
   * `/generate_tweet` with an ok status followed by `handleGenerateTweet`: no error, and the panel
   * shows the stripped tweet, or the raw text when stripping leaves nothing, however the stream was
   * chunked.
   */
  lemma GenerationEndToEnd(parse: string -> Result<Record>, dumps: Record -> string, chunks: seq<string>,
                           status: nat, received: seq<string>)
    requires LawfulOn(parse, dumps, Backend.GenerationRecords(chunks)) && IsOk(status)
    requires Concat(received) == Concat(Backend.Emit(dumps, Backend.GenerationRecords(chunks)))
    ensures var full := Concat(chunks);
      LlmTweetGenerator.GenerationOutcome(parse, Responded(status, received, None))
        == LlmTweetGenerator.Generation(if Backend.StripQuotes(full) != "" then Backend.StripQuotes(full) else full, None)
  {
    var rs := Backend.GenerationRecords(chunks);
    var lines := Backend.Serialized(dumps, rs);
    var groups := FrameChunks(received).groups;
    assert LlmTweetGenerator.GenerationOutcome(parse, Responded(status, received, None))
        == LlmTweetGenerator.GenerateChunks(parse, LlmTweetGenerator.Cleared, groups);
    assert Flatten(groups) == lines by {
      WireFraming(parse, dumps, rs, received);
    }
    FramedReplay(parse, dumps, chunks, groups);
    assert Replay(parse, LlmTweetGenerator.Cleared, lines) == LlmTweetGenerator.Generation(ShownTweet(rs), None) by {
      GenerationRecordsNoError(chunks);
      ReplayRecords(parse, dumps, rs);
    }
    GenerationShownTweet(chunks);
  }

  lemma ShowNat404()
    ensures ShowNat(404) == "404"
  {
    assert ShowNat(4) == "4";
    assert ShowNat(40) == "40";
  }

  /** The 404 of `/generate_tweet` is reported as an HTTP error before its body is read. */
  lemma GenerationNotFoundReported(parse: string -> Result<Record>, received: seq<string>, readError: Option<string>)
    ensures LlmTweetGenerator.GenerationOutcome(parse, Responded(404, received, readError))
         == LlmTweetGenerator.Generation("", Some(LlmTweetGenerator.CatchMessage("HTTP error! status: 404")))
  {
    ShowNat404();
    assert LlmTweetGenerator.HttpErrorMessage(404) == "HTTP error! status: 404";
  }
}
