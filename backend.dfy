/**
 * The two NDJSON producers of the backend (`generate_llm_response` behind `/analyze` and
 * `generate_response_stream` behind `/generate_tweet`), the author rule applied to the finished
 * explanation, the quote stripping applied to the finished tweet, and the 404 bodies the two
 * endpoints send when the database has no tweets to work from.
 */
module Backend {
  import opened Wrappers
  import opened Strings
  import opened Ndjson

  // ---------------------------------------------------------------- the records sent

  /** `{"explanation": "", "streaming": True}`. */
  const AnalysisStart: Record := Record(true, Some(""), None, None, None, None, None, None)

  /** `{"explanation": full_explanation, "streaming": True}`. */
  function AnalysisProgress(explanation: string): Record {
    Record(true, Some(explanation), None, None, None, None, None, None)
  }

  /** The record sent for the first text chunk that contains "ERROR". */
  function AnalysisFailure(chunk: string, topic: string, topicConfidence: real): Record {
    Record(false, Some(chunk), Some("ERROR"), Some(0.0), Some(topic), Some(topicConfidence), None, None)
  }

  /** The record sent once the model's text has ended. */
  function AnalysisResult(explanation: string, topic: string, topicConfidence: real): Record {
    Record(false, Some(explanation), Some(AttributeAuthor(explanation)), Some(100.0), Some(topic), Some(topicConfidence), None, None)
  }

  /** `{"generated_tweet": "", "streaming": True}`. */
  const GenerationStart: Record := Record(true, None, None, None, None, None, Some(""), None)

  function GenerationProgress(tweet: string): Record {
    Record(true, None, None, None, None, None, Some(tweet), None)
  }

  function GenerationResult(tweet: string): Record {
    Record(false, None, None, None, None, None, Some(tweet), None)
  }

  /** The 404 body of `/analyze` when no tweet has the classified topic. */
  function AnalysisNotFound(topic: string, topicConfidence: real): Record {
    Record(false, Some("No tweets found for this topic. Please try a different tweet."), Some("ERROR"), Some(0.0),
           Some(topic), Some(topicConfidence), None, None)
  }

  // ---------------------------------------------------------------- the two rules

  /**
   * The author named by the finished explanation, matched case-insensitively: "obama" wins, then
   * "musk" or "elon", else "neither".
   */
  function AttributeAuthor(explanation: string): string {
    var lowered := Lower(explanation);
    if Contains(lowered, "obama") then "Obama"
    else if Contains(lowered, "musk") || Contains(lowered, "elon") then "Musk"
    else "neither"
  }

  /**
   * The finished tweet: stripped of Python white space and, when it is then wrapped in double
   * quotes, of one outer pair and the white space inside it.
   */
  function StripQuotes(text: string): (r: string)
    ensures |r| <= |text|
    ensures r != "" ==> !IsSpace(PySpace, r[0]) && !IsSpace(PySpace, r[|r| - 1])
  {
    var t := Trim(PySpace, text);
    TrimEdges(PySpace, text);
    if t != "" && t[0] == '"' && t[|t| - 1] == '"' then
      var inner := if |t| >= 2 then t[1..|t| - 1] else "";
      TrimEdges(PySpace, inner);
      Trim(PySpace, inner)
    else t
  }

  /** Where the first text chunk containing "ERROR" is, if any. */
  function FirstError(chunks: seq<string>): (k: Option<nat>)
    ensures k.Some? ==> k.value < |chunks| && Contains(chunks[k.value], "ERROR")
    ensures k.Some? ==> forall j :: 0 <= j < k.value ==> !Contains(chunks[j], "ERROR")
    ensures k.None? ==> forall j :: 0 <= j < |chunks| ==> !Contains(chunks[j], "ERROR")
  {
    if chunks == [] then None
    else if Contains(chunks[0], "ERROR") then Some(0)
    else match FirstError(chunks[1..])
      case None => None
      case Some(k) => Some(k + 1)
  }

  // ---------------------------------------------------------------- the two streams

  /** The partial records for the first `n` chunks: each explanation is the text so far. */
  function AnalysisProgresses(chunks: seq<string>, n: nat): (rs: seq<Record>)
    requires n <= |chunks|
    ensures |rs| == n
  {
    if n == 0 then [] else AnalysisProgresses(chunks, n - 1) + [AnalysisProgress(Concat(chunks[..n]))]
  }

  lemma {:induction false} AnalysisProgressAt(chunks: seq<string>, n: nat, i: nat)
    requires i < n <= |chunks|
    ensures AnalysisProgresses(chunks, n)[i] == AnalysisProgress(Concat(chunks[..i + 1]))
    decreases n
  {
    if i < n - 1 {
      AnalysisProgressAt(chunks, n - 1, i);
    }
  }

  /** The records `generate_llm_response` yields for the model's text chunks. */
  function AnalysisRecords(chunks: seq<string>, topic: string, topicConfidence: real): seq<Record> {
    match FirstError(chunks)
    case Some(k) => [AnalysisStart] + AnalysisProgresses(chunks, k) + [AnalysisFailure(chunks[k], topic, topicConfidence)]
    case None => [AnalysisStart] + AnalysisProgresses(chunks, |chunks|) + [AnalysisResult(Concat(chunks), topic, topicConfidence)]
  }

  function GenerationProgresses(chunks: seq<string>, n: nat): (rs: seq<Record>)
    requires n <= |chunks|
    ensures |rs| == n
  {
    if n == 0 then [] else GenerationProgresses(chunks, n - 1) + [GenerationProgress(Concat(chunks[..n]))]
  }

  lemma {:induction false} GenerationProgressAt(chunks: seq<string>, n: nat, i: nat)
    requires i < n <= |chunks|
    ensures GenerationProgresses(chunks, n)[i] == GenerationProgress(Concat(chunks[..i + 1]))
    decreases n
  {
    if i < n - 1 {
      GenerationProgressAt(chunks, n - 1, i);
    }
  }

  /** The records `generate_response_stream` yields for the model's text chunks. */
  function GenerationRecords(chunks: seq<string>): seq<Record> {
    [GenerationStart] + GenerationProgresses(chunks, |chunks|) + [GenerationResult(StripQuotes(Concat(chunks)))]
  }

  /** The serialised records, one per line: `json.dumps(record) + "\n"` for each. */
  function Emit(dumps: Record -> string, records: seq<Record>): seq<string> {
    if records == [] then [] else Emit(dumps, records[..|records| - 1]) + [dumps(records[|records| - 1]) + "\n"]
  }

  /** The serialised records without their line ends. */
  function Serialized(dumps: Record -> string, records: seq<Record>): seq<string> {
    if records == [] then [] else Serialized(dumps, records[..|records| - 1]) + [dumps(records[|records| - 1])]
  }

  lemma EmitAppend(dumps: Record -> string, records: seq<Record>, r: Record)
    ensures Emit(dumps, records + [r]) == Emit(dumps, records) + [dumps(r) + "\n"]
  {
    assert (records + [r])[..|records|] == records;
  }

  /** The body a stream delivers is its serialised records, each ended by `"\n"`. */
  lemma {:induction false} EmitTerminated(dumps: Record -> string, records: seq<Record>)
    ensures Concat(Emit(dumps, records)) == Terminated(Serialized(dumps, records))
    decreases |records|
  {
    if records != [] {
      var init := records[..|records| - 1];
      EmitTerminated(dumps, init);
      var lines := Emit(dumps, records);
      assert lines[..|lines| - 1] == Emit(dumps, init);
      var ser := Serialized(dumps, records);
      assert ser[..|ser| - 1] == Serialized(dumps, init);
    }
  }

  /** Every serialised record fits on one line when the serialiser escapes newlines. */
  lemma {:induction false} SerializedOneLine(parse: string -> Result<Record>, dumps: Record -> string, records: seq<Record>)
    requires LawfulOn(parse, dumps, records)
    ensures |Serialized(dumps, records)| == |records|
    ensures AllNoNewline(Serialized(dumps, records))
    ensures forall i :: 0 <= i < |records| ==> Serialized(dumps, records)[i] == dumps(records[i])
    decreases |records|
  {
    if records != [] {
      var init := records[..|records| - 1];
      assert LawfulOn(parse, dumps, init) by {
        forall i | 0 <= i < |init| ensures init[i] == records[i] {}
      }
      SerializedOneLine(parse, dumps, init);
      var ser := Serialized(dumps, records);
      assert NoNewline(dumps(records[|records| - 1]));
      forall i | 0 <= i < |records| ensures ser[i] == dumps(records[i]) {
        if i < |init| { assert ser[i] == Serialized(dumps, init)[i]; }
      }
    }
  }

  // ---------------------------------------------------------------- the generators

  /**
   * `generate_llm_response`: the lines yielded, in order, for the model's text chunks. A chunk
   * containing "ERROR" ends the stream with an error record.
   */
  method GenerateLlmResponse(dumps: Record -> string, chunks: seq<string>, topic: string, topicConfidence: real)
    returns (out: seq<string>)
    ensures out == Emit(dumps, AnalysisRecords(chunks, topic, topicConfidence))
  {
    var fullExplanation := "";
    out := [dumps(AnalysisStart) + "\n"];
    assert out == Emit(dumps, [AnalysisStart]) by { assert [AnalysisStart][..0] == []; }
    var i := 0;
    while i < |chunks|
      invariant 0 <= i <= |chunks|
      invariant forall j :: 0 <= j < i ==> !Contains(chunks[j], "ERROR")
      invariant fullExplanation == Concat(chunks[..i])
      invariant out == Emit(dumps, [AnalysisStart] + AnalysisProgresses(chunks, i))
    {
      var textChunk := chunks[i];
      if Contains(textChunk, "ERROR") {
        var finalErrorData := AnalysisFailure(textChunk, topic, topicConfidence);
        ghost var sent := [AnalysisStart] + AnalysisProgresses(chunks, i);
        out := out + [dumps(finalErrorData) + "\n"];
        assert out == Emit(dumps, AnalysisRecords(chunks, topic, topicConfidence)) by {
          EmitAppend(dumps, sent, finalErrorData);
          AnalysisOnError(chunks, i, topic, topicConfidence);
        }
        return;
      }
      ghost var sent := [AnalysisStart] + AnalysisProgresses(chunks, i);
      fullExplanation := fullExplanation + textChunk;
      var partialData := AnalysisProgress(fullExplanation);
      out := out + [dumps(partialData) + "\n"];
      assert fullExplanation == Concat(chunks[..i + 1])
          && out == Emit(dumps, [AnalysisStart] + AnalysisProgresses(chunks, i + 1)) by {
        ProgressStep(chunks, i);
        EmitAppend(dumps, sent, partialData);
      }
      i := i + 1;
    }
    var finalPredictedAuthor := AttributeAuthor(fullExplanation);
    var finalData := Record(false, Some(fullExplanation), Some(finalPredictedAuthor), Some(100.0), Some(topic), Some(topicConfidence), None, None);
    ghost var sent := [AnalysisStart] + AnalysisProgresses(chunks, i);
    out := out + [dumps(finalData) + "\n"];
    assert out == Emit(dumps, AnalysisRecords(chunks, topic, topicConfidence)) by {
      AnalysisNoError(chunks, topic, topicConfidence);
      assert finalData == AnalysisResult(Concat(chunks), topic, topicConfidence);
      EmitAppend(dumps, sent, finalData);
    }
  }

  lemma ProgressStep(chunks: seq<string>, i: nat)
    requires i < |chunks|
    ensures Concat(chunks[..i + 1]) == Concat(chunks[..i]) + chunks[i]
    ensures [AnalysisStart] + AnalysisProgresses(chunks, i + 1)
         == [AnalysisStart] + AnalysisProgresses(chunks, i) + [AnalysisProgress(Concat(chunks[..i + 1]))]
  {
    assert chunks[..i + 1][..i] == chunks[..i];
  }

  lemma AnalysisOnError(chunks: seq<string>, k: nat, topic: string, topicConfidence: real)
    requires k < |chunks| && Contains(chunks[k], "ERROR")
    requires forall j :: 0 <= j < k ==> !Contains(chunks[j], "ERROR")
    ensures AnalysisRecords(chunks, topic, topicConfidence)
         == [AnalysisStart] + AnalysisProgresses(chunks, k) + [AnalysisFailure(chunks[k], topic, topicConfidence)]
  {
    FirstErrorAt(chunks, k);
  }

  lemma AnalysisNoError(chunks: seq<string>, topic: string, topicConfidence: real)
    requires forall j :: 0 <= j < |chunks| ==> !Contains(chunks[j], "ERROR")
    ensures Concat(chunks[..|chunks|]) == Concat(chunks)
    ensures AnalysisRecords(chunks, topic, topicConfidence)
         == [AnalysisStart] + AnalysisProgresses(chunks, |chunks|) + [AnalysisResult(Concat(chunks), topic, topicConfidence)]
  {
    assert chunks[..|chunks|] == chunks;
  }

  lemma FirstErrorAt(chunks: seq<string>, k: nat)
    requires k < |chunks| && Contains(chunks[k], "ERROR")
    requires forall j :: 0 <= j < k ==> !Contains(chunks[j], "ERROR")
    ensures FirstError(chunks) == Some(k)
  {
  }

  /** `generate_response_stream`: the lines yielded, in order, for the model's text chunks. */
  method GenerateResponseStream(dumps: Record -> string, chunks: seq<string>) returns (out: seq<string>)
    ensures out == Emit(dumps, GenerationRecords(chunks))
  {
    out := [dumps(GenerationStart) + "\n"];
    assert out == Emit(dumps, [GenerationStart]) by { assert [GenerationStart][..0] == []; }
    var fullGeneratedTweet := "";
    var i := 0;
    while i < |chunks|
      invariant 0 <= i <= |chunks|
      invariant fullGeneratedTweet == Concat(chunks[..i])
      invariant out == Emit(dumps, [GenerationStart] + GenerationProgresses(chunks, i))
    {
      assert chunks[..i + 1][..i] == chunks[..i];
      fullGeneratedTweet := fullGeneratedTweet + chunks[i];
      var partial := GenerationProgress(fullGeneratedTweet);
      assert [GenerationStart] + GenerationProgresses(chunks, i + 1) == [GenerationStart] + GenerationProgresses(chunks, i) + [partial];
      EmitAppend(dumps, [GenerationStart] + GenerationProgresses(chunks, i), partial);
      out := out + [dumps(partial) + "\n"];
      i := i + 1;
    }
    assert chunks[..i] == chunks;
    fullGeneratedTweet := StripQuotes(fullGeneratedTweet);
    EmitAppend(dumps, [GenerationStart] + GenerationProgresses(chunks, i), GenerationResult(fullGeneratedTweet));
    out := out + [dumps(GenerationResult(fullGeneratedTweet)) + "\n"];
  }

  // ---------------------------------------------------------------- properties of the streams

  /**
   * The analysis stream starts with the empty explanation and ends with the one record whose
   * `streaming` is false: every record before the last is a streaming one.
   */
  lemma AnalysisStreamShape(chunks: seq<string>, topic: string, topicConfidence: real)
    ensures var rs := AnalysisRecords(chunks, topic, topicConfidence);
      && |rs| >= 2 && rs[0] == AnalysisStart
      && !rs[|rs| - 1].streaming
      && forall i :: 0 <= i < |rs| - 1 ==> rs[i].streaming
  {
    var rs := AnalysisRecords(chunks, topic, topicConfidence);
    var k := if FirstError(chunks).Some? then FirstError(chunks).value else |chunks|;
    assert |rs| == k + 2;
    forall i | 0 < i < |rs| - 1 ensures rs[i].streaming {
      assert rs[i] == AnalysisProgresses(chunks, k)[i - 1];
      AnalysisProgressAt(chunks, k, i - 1);
    }
  }

  /**
   * The partial records carry the text so far: the i-th one holds the first i chunks, so each
   * explanation extends the one before it.
   */
  lemma AnalysisPrefixes(chunks: seq<string>, topic: string, topicConfidence: real, i: nat, j: nat)
    requires var rs := AnalysisRecords(chunks, topic, topicConfidence); 1 <= i <= j < |rs| - 1
    ensures var rs := AnalysisRecords(chunks, topic, topicConfidence);
      && rs[i].explanation == Some(Concat(chunks[..i])) && rs[j].explanation == Some(Concat(chunks[..j]))
      && rs[i].explanation.value <= rs[j].explanation.value
  {
    AnalysisRecordAt(chunks, topic, topicConfidence, i);
    AnalysisRecordAt(chunks, topic, topicConfidence, j);
    ConcatPrefix(chunks, i, j);
  }

  lemma AnalysisRecordAt(chunks: seq<string>, topic: string, topicConfidence: real, i: nat)
    requires 1 <= i < |AnalysisRecords(chunks, topic, topicConfidence)| - 1
    ensures AnalysisRecords(chunks, topic, topicConfidence)[i].explanation == Some(Concat(chunks[..i]))
  {
    match FirstError(chunks)
    case Some(k) =>
      Inner(AnalysisStart, AnalysisProgresses(chunks, k), AnalysisFailure(chunks[k], topic, topicConfidence), i);
      AnalysisProgressAt(chunks, k, i - 1);
    case None =>
      Inner(AnalysisStart, AnalysisProgresses(chunks, |chunks|), AnalysisResult(Concat(chunks), topic, topicConfidence), i);
      AnalysisProgressAt(chunks, |chunks|, i - 1);
  }

  /** The inner elements of a stream framed by a first and a last record. */
  lemma Inner(first: Record, ps: seq<Record>, last: Record, i: nat)
    requires 1 <= i <= |ps|
    ensures ([first] + ps + [last])[i] == ps[i - 1]
  {
  }

  /** The text of the first i chunks is a prefix of the text of the first j, for i <= j. */
  lemma ConcatPrefix(chunks: seq<string>, i: nat, j: nat)
    requires i <= j <= |chunks|
    ensures Concat(chunks[..i]) <= Concat(chunks[..j])
  {
    assert chunks[..j] == chunks[..i] + chunks[i..j];
    ConcatAppend(chunks[..i], chunks[i..j]);
  }

  /**
   * The stream ends at the first chunk containing "ERROR": one error record with that chunk, and
   * nothing after it; without such a chunk it ends with the full text and its author.
   */
  lemma AnalysisStreamEnd(chunks: seq<string>, topic: string, topicConfidence: real)
    ensures var rs := AnalysisRecords(chunks, topic, topicConfidence);
      match FirstError(chunks)
      case Some(k) => |rs| == k + 2 && rs[k + 1] == AnalysisFailure(chunks[k], topic, topicConfidence)
      case None => (|rs| == |chunks| + 2
        && rs[|chunks| + 1] == AnalysisResult(Concat(chunks), topic, topicConfidence)
        && rs[|chunks| + 1].predictedAuthor == Some(AttributeAuthor(Concat(chunks))))
  {
  }

  /**
   * The generation stream: one opening record with an empty tweet, one partial record per chunk
   * with the text so far, and a last record, the only one not streaming, with the stripped text.
   */
  lemma GenerationStreamShape(chunks: seq<string>)
    ensures var rs := GenerationRecords(chunks);
      && |rs| == |chunks| + 2 && rs[0] == GenerationStart
      && (forall i :: 1 <= i <= |chunks| ==> rs[i] == GenerationProgress(Concat(chunks[..i])))
      && (forall i :: 0 <= i < |rs| - 1 ==> rs[i].streaming)
      && rs[|rs| - 1] == GenerationResult(StripQuotes(Concat(chunks))) && !rs[|rs| - 1].streaming
  {
    var rs := GenerationRecords(chunks);
    forall i | 1 <= i <= |chunks| ensures rs[i] == GenerationProgress(Concat(chunks[..i])) {
      GenerationRecordAt(chunks, i);
    }
    forall i | 0 <= i < |rs| - 1 ensures rs[i].streaming {
      if i > 0 {
        GenerationRecordAt(chunks, i);
      }
    }
  }

  lemma GenerationRecordAt(chunks: seq<string>, i: nat)
    requires 1 <= i <= |chunks|
    ensures GenerationRecords(chunks)[i] == GenerationProgress(Concat(chunks[..i]))
  {
    var ps := GenerationProgresses(chunks, |chunks|);
    var last := GenerationResult(StripQuotes(Concat(chunks)));
    assert GenerationRecords(chunks)[i] == ps[i - 1] by {
      assert GenerationRecords(chunks) == [GenerationStart] + ps + [last];
      Inner(GenerationStart, ps, last, i);
    }
    assert ps[i - 1] == GenerationProgress(Concat(chunks[..i])) by {
      GenerationProgressAt(chunks, |chunks|, i - 1);
    }
  }

  // ---------------------------------------------------------------- properties of the rules

  /** The rule ignores case. */
  lemma AuthorIgnoresCase(explanation: string)
    ensures AttributeAuthor(Lower(explanation)) == AttributeAuthor(explanation)
  {
    LowerIdempotent(explanation);
  }

  /** Once the text names Obama, more text on either side does not change the attribution. */
  lemma ObamaSticks(explanation: string, more: string)
    requires AttributeAuthor(explanation) == "Obama"
    ensures AttributeAuthor(explanation + more) == "Obama" && AttributeAuthor(more + explanation) == "Obama"
  {
    LowerAppend(explanation, more);
    LowerAppend(more, explanation);
    ContainsAppend(Lower(explanation), Lower(more), "obama");
  }

  /** More text can turn a Musk attribution into Obama, but never back into "neither". */
  lemma MuskStaysNamed(explanation: string, more: string)
    requires AttributeAuthor(explanation) == "Musk"
    ensures AttributeAuthor(explanation + more) in {"Musk", "Obama"}
  {
    LowerAppend(explanation, more);
    ContainsAppend(Lower(explanation), Lower(more), "musk");
    ContainsAppend(Lower(explanation), Lower(more), "elon");
  }

  /** Text that is not wrapped in quotes after stripping is only stripped. */
  lemma StripUnquoted(text: string)
    requires var t := Trim(PySpace, text); !(t != "" && t[0] == '"' && t[|t| - 1] == '"')
    ensures StripQuotes(text) == Trim(PySpace, text)
  {
  }

  /** Exactly one outer pair of quotes goes, with the white space just inside it. */
  lemma StripOnePair(text: string, inner: string)
    requires Trim(PySpace, text) == "\"" + inner + "\""
    ensures StripQuotes(text) == Trim(PySpace, inner)
  {
    var t := Trim(PySpace, text);
    assert t[1..|t| - 1] == inner;
  }

  /** With no white space or quote at its ends, the text is sent unchanged. */
  lemma StripClean(text: string)
    requires text != "" ==> !IsSpace(PySpace, text[0]) && !IsSpace(PySpace, text[|text| - 1]) && text[0] != '"'
    ensures StripQuotes(text) == text
  {
    if text != "" {
      assert TrimStart(PySpace, text) == text;
      assert TrimEnd(PySpace, text) == text;
    }
  }
}
