/**
 * The tweet-generation panel of the frontend: the topic list loaded for the selected author, and
 * `handleGenerateTweet`, which reads the NDJSON generation stream and shows the latest tweet text
 * or an error. A parse failure or an `error` record ends the processing of the current chunk's
 * lines (`break` leaves the `for` loop only); the read loop goes on with the next chunk.
 */
module LlmTweetGenerator {
  import opened Wrappers
  import opened Strings
  import opened Ndjson

  /** `generatedTweet` and `errorGeneration`. */
  datatype Generation = Generation(tweet: string, error: Option<string>)

  /** The state right after the button is pressed. */
  const Cleared: Generation := Generation("", None)

  /** The state after one line, and whether that line ended the chunk (`break`). */
  datatype Step = Step(state: Generation, stopped: bool)

  function StreamErrorMessage(message: string): string {
    "Error processing streamed data: " + message
  }

  function CatchMessage(message: string): string {
    "An error occurred: " + message + ". Please check the backend."
  }

  function HttpErrorMessage(status: nat): string {
    "HTTP error! status: " + ShowNat(status)
  }

  function TopicsErrorMessage(message: string): string {
    "Failed to load topics: " + message + ". Make sure the backend is running."
  }

  /** The body of the inner `for` loop, for one line. */
  function GenerateLine(parse: string -> Result<Record>, g: Generation, line: string): Step {
    if IsBlank(line) then Step(g, false)
    else match parse(line)
      case Failure(message) => Step(Generation(g.tweet, Some(StreamErrorMessage(message))), true)
      case Success(d) =>
        if Truthy(d.error) then Step(Generation("", d.error), true)
        else Step(Generation(if Truthy(d.generatedTweet) then d.generatedTweet.value else g.tweet, g.error), false)
  }

  /** The `for` loop over one chunk's lines, up to and including the line that breaks out of it. */
  function ChunkRun(parse: string -> Result<Record>, g: Generation, lines: seq<string>): Step
    decreases |lines|
  {
    if lines == [] then Step(g, false)
    else
      var s := GenerateLine(parse, g, lines[0]);
      if s.stopped then s else ChunkRun(parse, s.state, lines[1..])
  }

  /** The `while` read loop: every chunk's lines, one chunk after the other. */
  function GenerateChunks(parse: string -> Result<Record>, g: Generation, groups: seq<seq<string>>): Generation {
    if groups == [] then g
    else ChunkRun(parse, GenerateChunks(parse, g, groups[..|groups| - 1]), groups[|groups| - 1]).state
  }

  /**
   * The panel's tweet and error once `handleGenerateTweet` has finished. A non-ok status throws
   * before the body is read; a thrown error clears the tweet.
   */
  function GenerationOutcome(parse: string -> Result<Record>, ex: Exchange): Generation {
    match ex
    case FetchFailed(message) => Generation("", Some(CatchMessage(message)))
    case Responded(status, chunks, readError) =>
      if !IsOk(status) then Generation("", Some(CatchMessage(HttpErrorMessage(status))))
      else if readError.Some? then Generation("", Some(CatchMessage(readError.value)))
      else GenerateChunks(parse, Cleared, FrameChunks(chunks).groups)
  }

  /** `data.topics[0] || ''`. */
  function DefaultTopic(topics: seq<string>): string {
    if topics != [] then topics[0] else ""
  }

  /** The answer to the topic request: rejected, or a status and either the list or the message thrown reading it. */
  datatype TopicsReply =
    | TopicsFetchFailed(message: string)
    | TopicsReplied(status: nat, topics: Result<seq<string>>)

  // ---------------------------------------------------------------- properties of the read loop

  /** Lines after the one that breaks out are never looked at; otherwise the run goes on. */
  lemma {:induction false} ChunkRunAppend(parse: string -> Result<Record>, g: Generation, a: seq<string>, b: seq<string>)
    ensures var first := ChunkRun(parse, g, a);
      ChunkRun(parse, g, a + b) == if first.stopped then first else ChunkRun(parse, first.state, b)
    decreases |a|
  {
    if a != [] {
      assert (a + b)[0] == a[0] && (a + b)[1..] == a[1..] + b;
      var s := GenerateLine(parse, g, a[0]);
      if !s.stopped {
        ChunkRunAppend(parse, s.state, a[1..], b);
      }
    } else {
      assert a + b == b;
    }
  }

  /**
   * An `error` record reached in a chunk sets the error, clears the tweet (even one the same record
   * carried) and ends the chunk.
   */
  lemma ErrorRecordEndsChunk(parse: string -> Result<Record>, g: Generation, lines: seq<string>, k: nat)
    requires k < |lines| && !ChunkRun(parse, g, lines[..k]).stopped
    requires !IsBlank(lines[k]) && parse(lines[k]).Success? && Truthy(parse(lines[k]).value.error)
    ensures ChunkRun(parse, g, lines) == Step(Generation("", parse(lines[k]).value.error), true)
  {
    assert lines == lines[..k] + lines[k..];
    ChunkRunAppend(parse, g, lines[..k], lines[k..]);
    var reached := ChunkRun(parse, g, lines[..k]).state;
    assert lines[k..][0] == lines[k];
    assert GenerateLine(parse, reached, lines[k]).stopped;
    assert ChunkRun(parse, reached, lines[k..]) == GenerateLine(parse, reached, lines[k]);
  }

  /** A line that fails to parse, reached in a chunk, sets the error, keeps the tweet and ends the chunk. */
  lemma ParseFailureEndsChunk(parse: string -> Result<Record>, g: Generation, lines: seq<string>, k: nat)
    requires k < |lines| && !ChunkRun(parse, g, lines[..k]).stopped
    requires !IsBlank(lines[k]) && parse(lines[k]).Failure?
    ensures var reached := ChunkRun(parse, g, lines[..k]).state;
      ChunkRun(parse, g, lines) == Step(Generation(reached.tweet, Some(StreamErrorMessage(parse(lines[k]).message))), true)
  {
    assert lines == lines[..k] + lines[k..];
    ChunkRunAppend(parse, g, lines[..k], lines[k..]);
    var reached := ChunkRun(parse, g, lines[..k]).state;
    assert lines[k..][0] == lines[k];
    assert GenerateLine(parse, reached, lines[k]).stopped;
    assert ChunkRun(parse, reached, lines[k..]) == GenerateLine(parse, reached, lines[k]);
  }

  /** A tweet shown after a line is its own, the one shown before, or cleared by an error. */
  predicate FromLines(parse: string -> Result<Record>, tweet: string, before: string, lines: seq<string>) {
    tweet == before || tweet == ""
    || exists j :: 0 <= j < |lines| && !IsBlank(lines[j]) && parse(lines[j]).Success?
         && parse(lines[j]).value.generatedTweet == Some(tweet)
  }

  /** The tweet shown after a chunk comes from one of its lines or is the one shown before it. */
  lemma {:induction false} ChunkTweetProvenance(parse: string -> Result<Record>, g: Generation, lines: seq<string>)
    ensures FromLines(parse, ChunkRun(parse, g, lines).state.tweet, g.tweet, lines)
    decreases |lines|
  {
    if lines != [] {
      var s := GenerateLine(parse, g, lines[0]);
      if !s.stopped {
        ChunkTweetProvenance(parse, s.state, lines[1..]);
        var t := ChunkRun(parse, g, lines).state.tweet;
        if t != s.state.tweet && t != "" && t != g.tweet {
          var j :| 0 <= j < |lines[1..]| && !IsBlank(lines[1..][j]) && parse(lines[1..][j]).Success?
            && parse(lines[1..][j]).value.generatedTweet == Some(t);
          assert lines[1..][j] == lines[j + 1];
        } else if t == s.state.tweet && t != g.tweet && t != "" {
          assert parse(lines[0]).value.generatedTweet == Some(t);
        }
      }
    }
  }

  /**
   * The tweet shown once the stream has been read is empty or the `generated_tweet` of a record of
   * the stream: it never comes from anywhere else.
   */
  lemma {:induction false} TweetProvenance(parse: string -> Result<Record>, groups: seq<seq<string>>)
    ensures FromLines(parse, GenerateChunks(parse, Cleared, groups).tweet, "", Flatten(groups))
    decreases |groups|
  {
    if groups != [] {
      var init, last := groups[..|groups| - 1], groups[|groups| - 1];
      TweetProvenance(parse, init);
      var before := GenerateChunks(parse, Cleared, init);
      ChunkTweetProvenance(parse, before, last);
      var t := GenerateChunks(parse, Cleared, groups).tweet;
      var all := Flatten(groups);
      assert all == Flatten(init) + last;
      if t != "" {
        if t == before.tweet {
          var j :| 0 <= j < |Flatten(init)| && !IsBlank(Flatten(init)[j]) && parse(Flatten(init)[j]).Success?
            && parse(Flatten(init)[j]).value.generatedTweet == Some(t);
          assert all[j] == Flatten(init)[j];
        } else {
          var j :| 0 <= j < |last| && !IsBlank(last[j]) && parse(last[j]).Success?
            && parse(last[j]).value.generatedTweet == Some(t);
          assert all[|Flatten(init)| + j] == last[j];
        }
      }
    }
  }

  // ---------------------------------------------------------------- where the chunks fall matters

  const ErrorLine: string := "E"
  const TweetLine: string := "T"
  const ErrorRecord: Record := Record(true, None, None, None, None, None, None, Some("boom"))
  const TweetRecord: Record := Record(true, None, None, None, None, None, Some("hi"), None)

  /** A parser that knows the two lines of the example below. */
  function ExampleParse(line: string): Result<Record> {
    if line == ErrorLine then Success(ErrorRecord) else if line == TweetLine then Success(TweetRecord) else Failure("bad")
  }

  /**
   * The same two lines, an `error` record then a tweet, give different outcomes depending on where
   * the chunk boundary falls: in one chunk the tweet line is skipped by `break`; in two chunks the
   * tweet is shown next to the error, because the read loop does not stop.
   */
  lemma ChunkingMatters()
    ensures GenerationOutcome(ExampleParse, Responded(200, ["E\nT\n"], None)) == Generation("", Some("boom"))
    ensures GenerationOutcome(ExampleParse, Responded(200, ["E\n", "T\n"], None)) == Generation("hi", Some("boom"))
  {
    ExampleOneChunk();
    ExampleTwoChunks();
    ExampleRuns();
  }

  lemma ExampleRuns()
    ensures GenerateChunks(ExampleParse, Cleared, [[ErrorLine, TweetLine]]) == Generation("", Some("boom"))
    ensures GenerateChunks(ExampleParse, Cleared, [[ErrorLine], [TweetLine]]) == Generation("hi", Some("boom"))
  {
    assert !IsBlank(ErrorLine) && !IsBlank(TweetLine);
    var errStep := GenerateLine(ExampleParse, Cleared, ErrorLine);
    assert errStep == Step(Generation("", Some("boom")), true);
    var tweetStep := GenerateLine(ExampleParse, errStep.state, TweetLine);
    assert tweetStep == Step(Generation("hi", Some("boom")), false);
    assert [[ErrorLine, TweetLine]][..0] == [] && [[ErrorLine]][..0] == [];
    assert ChunkRun(ExampleParse, Cleared, [ErrorLine, TweetLine]) == errStep;
    assert ChunkRun(ExampleParse, Cleared, [ErrorLine]) == errStep;
    assert [[ErrorLine], [TweetLine]][..1] == [[ErrorLine]];
    assert [TweetLine][1..] == [];
    assert ChunkRun(ExampleParse, errStep.state, [TweetLine]) == tweetStep;
  }

  lemma ExampleOneChunk()
    ensures FrameChunks(["E\nT\n"]).groups == [[ErrorLine, TweetLine]]
  {
    assert "E\nT\n" == ErrorLine + "\n" + (TweetLine + "\n");
    TwoLinesOneChunk(ErrorLine, TweetLine);
  }

  lemma ExampleTwoChunks()
    ensures FrameChunks(["E\n", "T\n"]).groups == [[ErrorLine], [TweetLine]]
  {
    assert "E\n" == ErrorLine + "\n" && "T\n" == TweetLine + "\n";
    TwoLinesTwoChunks(ErrorLine, TweetLine);
  }

  lemma TwoLinesOneChunk(x: string, y: string)
    requires NoNewline(x) && NoNewline(y)
    ensures FrameChunks([x + "\n" + (y + "\n")]).groups == [[x, y]]
  {
    var both := x + "\n" + (y + "\n");
    assert [both][..0] == [];
    assert Concat([both]) == both;
    FramingUnique([x, y], "", both) by {
      assert [x, y][..1] == [x] && [x][..0] == [];
      assert Terminated([x]) == x + "\n";
      assert Terminated([x, y]) == x + "\n" + y + "\n";
    }
    assert FrameChunks([both]).groups == [FrameChunks([both]).groups[0]];
  }

  lemma TwoLinesTwoChunks(x: string, y: string)
    requires NoNewline(x) && NoNewline(y)
    ensures FrameChunks([x + "\n", y + "\n"]).groups == [[x], [y]]
  {
    var a := [x + "\n", y + "\n"];
    assert FrameChunks(a[..1]) == Framing([[x]], "") by {
      assert a[..0] == [];
      assert FrameChunks([]) == Framing([], "");
      FrameChunksStep(a, 0);
      OneLine(x);
    }
    FrameChunksStep(a, 1);
    OneLine(y);
    assert a[..2] == a;
  }

  /** A newline-free text and a `'\n'` are one complete line and nothing pending. */
  lemma OneLine(line: string)
    requires NoNewline(line)
    ensures CompleteLines("" + (line + "\n")) == [line] && Pending("" + (line + "\n")) == ""
  {
    assert [line][..0] == [];
    assert "" + (line + "\n") == Terminated([line]) + "";
    FramingUnique([line], "", "" + (line + "\n"));
  }

  // ---------------------------------------------------------------- the component

  /** The state of the `LLM_TweetGenerator` component. */
  class TweetGenerator {
    var selectedAuthor: string
    var topics: seq<string>
    var selectedTopic: string
    var generatedTweet: string
    var loadingGeneration: bool
    var errorGeneration: Option<string>

    constructor ()
      ensures selectedAuthor == "Obama" && topics == [] && selectedTopic == ""
      ensures generatedTweet == "" && !loadingGeneration && errorGeneration == None
    {
      selectedAuthor, topics, selectedTopic := "Obama", [], "";
      generatedTweet, loadingGeneration, errorGeneration := "", false, None;
    }

    /**
     * The effect that loads the topics of the selected author (nothing happens when no author is
     * selected). The first topic becomes the selected one, or `''` when there is none; a failure
     * empties the list and shows a message.
     */
    method LoadTopics(reply: TopicsReply)
      modifies this
      ensures selectedAuthor == old(selectedAuthor) && generatedTweet == old(generatedTweet)
      ensures old(selectedAuthor) == "" ==>
        topics == old(topics) && selectedTopic == old(selectedTopic)
        && loadingGeneration == old(loadingGeneration) && errorGeneration == old(errorGeneration)
      ensures old(selectedAuthor) != "" ==> !loadingGeneration
      ensures old(selectedAuthor) != "" && reply.TopicsReplied? && IsOk(reply.status) && reply.topics.Success? ==>
        topics == reply.topics.value && selectedTopic == DefaultTopic(reply.topics.value) && errorGeneration == None
      ensures old(selectedAuthor) != "" && reply.TopicsFetchFailed? ==>
        topics == [] && selectedTopic == "" && errorGeneration == Some(TopicsErrorMessage(reply.message))
      ensures old(selectedAuthor) != "" && reply.TopicsReplied? && !IsOk(reply.status) ==>
        topics == [] && selectedTopic == ""
        && errorGeneration == Some(TopicsErrorMessage(HttpErrorMessage(reply.status)))
      ensures old(selectedAuthor) != "" && reply.TopicsReplied? && IsOk(reply.status) && reply.topics.Failure? ==>
        topics == [] && selectedTopic == "" && errorGeneration == Some(TopicsErrorMessage(reply.topics.message))
    {
      if selectedAuthor != "" {
        loadingGeneration := true;
        errorGeneration := None;
        var failure: Option<string> := None;
        match reply {
          case TopicsFetchFailed(message) =>
            failure := Some(message);
          case TopicsReplied(status, body) =>
            if !IsOk(status) {
              failure := Some(HttpErrorMessage(status));
            } else if body.Failure? {
              failure := Some(body.message);
            } else {
              topics := body.value;
              selectedTopic := DefaultTopic(body.value);
              loadingGeneration := false;
            }
        }
        if failure.Some? {
          errorGeneration := Some(TopicsErrorMessage(failure.value));
          topics := [];
          selectedTopic := "";
          loadingGeneration := false;
        }
      }
    }

    /**
     * Requests a tweet for the selected author and topic and reads the stream: `ex` is what the
     * network and the body reader deliver, `parse` is `JSON.parse` with the property reads after it.
     */
    method HandleGenerateTweet(parse: string -> Result<Record>, ex: Exchange)
      modifies this
      ensures !loadingGeneration
      ensures generatedTweet == GenerationOutcome(parse, ex).tweet
      ensures errorGeneration == GenerationOutcome(parse, ex).error
      ensures selectedAuthor == old(selectedAuthor) && topics == old(topics) && selectedTopic == old(selectedTopic)
    {
      loadingGeneration := true;
      generatedTweet := "";
      errorGeneration := None;
      match ex {
        case FetchFailed(message) =>
          errorGeneration := Some(CatchMessage(message));
          generatedTweet := "";
        case Responded(status, chunks, readError) =>
          if !IsOk(status) {
            errorGeneration := Some(CatchMessage(HttpErrorMessage(status)));
            generatedTweet := "";
          } else {
            var framer := new LineFramer();
            var i := 0;
            while i < |chunks|
              invariant 0 <= i <= |chunks|
              invariant fresh(framer) && framer.Valid() && framer.buffer == FrameChunks(chunks[..i]).buffer
              invariant Generation(generatedTweet, errorGeneration) == GenerateChunks(parse, Cleared, FrameChunks(chunks[..i]).groups)
              invariant selectedAuthor == old(selectedAuthor) && topics == old(topics) && selectedTopic == old(selectedTopic)
            {
              var lines := framer.Feed(chunks[i]);
              FrameChunksStep(chunks, i);
              ProcessChunk(parse, lines);
              i := i + 1;
            }
            assert chunks[..i] == chunks;
            if readError.Some? {
              errorGeneration := Some(CatchMessage(readError.value));
              generatedTweet := "";
            }
          }
      }
      loadingGeneration := false;
    }

    /** The `for (const line of lines)` loop of one chunk, with its two `break`s. */
    method ProcessChunk(parse: string -> Result<Record>, lines: seq<string>)
      modifies this
      ensures Generation(generatedTweet, errorGeneration)
        == ChunkRun(parse, Generation(old(generatedTweet), old(errorGeneration)), lines).state
      ensures selectedAuthor == old(selectedAuthor) && topics == old(topics) && selectedTopic == old(selectedTopic)
      ensures loadingGeneration == old(loadingGeneration)
    {
      ghost var run := ChunkRun(parse, Generation(generatedTweet, errorGeneration), lines);
      var j := 0;
      while j < |lines|
        invariant 0 <= j <= |lines|
        invariant run == ChunkRun(parse, Generation(generatedTweet, errorGeneration), lines[j..])
        invariant selectedAuthor == old(selectedAuthor) && topics == old(topics) && selectedTopic == old(selectedTopic)
        invariant loadingGeneration == old(loadingGeneration)
      {
        var line := lines[j];
        assert lines[j..][0] == line && lines[j..][1..] == lines[j + 1..];
        if !IsBlank(line) {
          match parse(line) {
            case Success(data) =>
              if Truthy(data.generatedTweet) {
                generatedTweet := data.generatedTweet.value;
              }
              if Truthy(data.error) {
                errorGeneration := data.error;
                generatedTweet := "";
                assert run.state == Generation(generatedTweet, errorGeneration);
                break;
              }
            case Failure(message) =>
              errorGeneration := Some(StreamErrorMessage(message));
              assert run.state == Generation(generatedTweet, errorGeneration);
              break;
          }
        }
        j := j + 1;
      }
    }
  }
}
