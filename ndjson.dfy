/**
 * The newline-delimited JSON (NDJSON) protocol shared by the backend's two streaming endpoints
 * and the frontend's two readers: the record shape, the HTTP exchange as the frontend sees it,
 * and the framing of decoded text into complete lines.
 */
module Ndjson {
  import opened Wrappers
  import opened Strings

  /**
   * A parsed JSON object, reduced to the fields the code reads or writes. `None` is an absent
   * field; `streaming` holds the truthiness of the field, so an absent one reads as false.
   */
  datatype Record = Record(
    streaming: bool,
    explanation: Option<string>,
    predictedAuthor: Option<string>,
    confidence: Option<real>,
    topic: Option<string>,
    topicConfidence: Option<real>,
    generatedTweet: Option<string>,
    error: Option<string>)

  /** The JavaScript value `{}`. */
  const EmptyObject: Record := Record(false, None, None, None, None, None, None, None)

  /** JavaScript truthiness of an optional string field: present and not `''`. */
  predicate Truthy(v: Option<string>) {
    v.Some? && v.value != ""
  }

  /**
   * One request as the frontend observes it: `fetch` rejected, or a response arrived with a status
   * and a body whose decoded chunks were read one by one, the last read either signalling the end
   * of the stream (`readError == None`) or rejecting with a message.
   */
  datatype Exchange =
    | FetchFailed(message: string)
    | Responded(status: nat, chunks: seq<string>, readError: Option<string>)

  /** `res.ok`. */
  predicate IsOk(status: nat) {
    200 <= status <= 299
  }

  /**
   * The serialiser and parser agree on the records sent: each serialised record fits on one
   * non-blank line and parses back to itself. JSON escapes a newline inside a string (section 7 of
   * RFC 8259), and a serialised object starts with `{`.
   */
  ghost predicate LawfulOn(parse: string -> Result<Record>, dumps: Record -> string, records: seq<Record>) {
    forall i :: 0 <= i < |records| ==>
      NoNewline(dumps(records[i])) && !IsBlank(dumps(records[i])) && parse(dumps(records[i])) == Success(records[i])
  }

  /** Where a record first occurs among the records, or `|records|` when it does not occur. */
  function IndexIn(records: seq<Record>, r: Record): (k: nat)
    ensures k <= |records|
    ensures k < |records| <==> r in records
    ensures k < |records| ==> records[k] == r
  {
    if records == [] then 0
    else if records[0] == r then 0
    else 1 + IndexIn(records[1..], r)
  }

  /** A serialiser for a given stream: a record becomes `{`, its position in decimal, then `}`. */
  function SlotDumps(records: seq<Record>, r: Record): string {
    "{" + ShowNat(IndexIn(records, r)) + "}"
  }

  /** The parser matching `SlotDumps`: it reads the position back and yields the record there. */
  function SlotParse(records: seq<Record>, s: string): Result<Record> {
    if |s| >= 2 && s[0] == '{' && s[|s| - 1] == '}' then
      match ParseInt(s[1..|s| - 1])
      case Some(k) => if 0 <= k < |records| then Success(records[k]) else Failure("unknown record")
      case None => Failure("not a record")
    else Failure("not a record")
  }

  /** For any records sent there is a serialiser and parser that agree on them. */
  lemma LawfulOnSatisfiable(records: seq<Record>)
    ensures LawfulOn(s => SlotParse(records, s), r => SlotDumps(records, r), records)
  {
    forall i | 0 <= i < |records|
      ensures var s := SlotDumps(records, records[i]);
        NoNewline(s) && !IsBlank(s) && SlotParse(records, s) == Success(records[i])
    {
      SlotLine(records, records[i]);
    }
  }

  /** A record sent is written on one non-blank line that `SlotParse` reads back. */
  lemma SlotLine(records: seq<Record>, r: Record)
    requires r in records
    ensures var s := SlotDumps(records, r);
      NoNewline(s) && !IsBlank(s) && SlotParse(records, s) == Success(r)
  {
    var k := IndexIn(records, r);
    SlotParseBack(records, k);
    BracedOneLine(ShowNat(k));
  }

  lemma SlotParseBack(records: seq<Record>, k: nat)
    requires k < |records|
    ensures SlotParse(records, "{" + ShowNat(k) + "}") == Success(records[k])
  {
    var d := ShowNat(k);
    var s := "{" + d + "}";
    assert s[1..|s| - 1] == d;
    ParseIntShowNat(k);
  }

  lemma BracedOneLine(d: string)
    requires AllDigits(d)
    ensures NoNewline("{" + d + "}") && !IsBlank("{" + d + "}")
  {
    var s := "{" + d + "}";
    forall j | 0 <= j < |s| ensures s[j] != '\n' {
      if 0 < j < |s| - 1 { assert s[j] == d[j - 1]; }
    }
    assert !IsSpace(JsSpace, s[0]);
  }

  // ---------------------------------------------------------------- text and lines

  predicate NoNewline(s: string) {
    '\n' !in s
  }

  predicate AllNoNewline(lines: seq<string>) {
    forall i :: 0 <= i < |lines| ==> NoNewline(lines[i])
  }

  /** All decoded chunks, in order. */
  function Concat(chunks: seq<string>): string {
    if chunks == [] then "" else Concat(chunks[..|chunks| - 1]) + chunks[|chunks| - 1]
  }

  /** Each line followed by `'\n'`, in order. */
  function Terminated(lines: seq<string>): string {
    if lines == [] then "" else Terminated(lines[..|lines| - 1]) + lines[|lines| - 1] + "\n"
  }

  /** The lines of a list of line groups, in order. */
  function Flatten(groups: seq<seq<string>>): seq<string> {
    if groups == [] then [] else Flatten(groups[..|groups| - 1]) + groups[|groups| - 1]
  }

  /** The complete lines of `text`: every `'\n'`-separated piece but the last. */
  function CompleteLines(text: string): seq<string> {
    var parts := Split(text, '\n');
    parts[..|parts| - 1]
  }

  /** The text after the last `'\n'` of `text` (all of it when there is none). */
  function Pending(text: string): string {
    var parts := Split(text, '\n');
    parts[|parts| - 1]
  }

  lemma {:induction false} TerminatedAppend(a: seq<string>, b: seq<string>)
    ensures Terminated(a + b) == Terminated(a) + Terminated(b)
    decreases |b|
  {
    if b == [] {
      assert a + b == a;
    } else {
      assert (a + b)[..|a + b| - 1] == a + b[..|b| - 1];
      TerminatedAppend(a, b[..|b| - 1]);
    }
  }

  lemma {:induction false} ConcatAppend(a: seq<string>, b: seq<string>)
    ensures Concat(a + b) == Concat(a) + Concat(b)
    decreases |b|
  {
    if b == [] {
      assert a + b == a;
    } else {
      var front, x := b[..|b| - 1], b[|b| - 1];
      assert (a + b)[..|a + b| - 1] == a + front && (a + b)[|a + b| - 1] == x;
      ConcatAppend(a, front);
      assert Concat(a) + Concat(front) + x == Concat(a) + (Concat(front) + x);
    }
  }

  /** Joining lines and a final piece with `'\n'` is terminating the lines and appending the piece. */
  lemma {:induction false} JoinIsTerminated(lines: seq<string>, rest: string)
    ensures Join(lines + [rest], '\n') == Terminated(lines) + rest
    decreases |lines|
  {
    if lines != [] {
      assert lines + [rest] == [lines[0]] + (lines[1..] + [rest]);
      JoinIsTerminated(lines[1..], rest);
      TerminatedAppend([lines[0]], lines[1..]);
      assert Terminated([lines[0]]) == lines[0] + "\n" by {
        assert [lines[0]][..0] == [];
      }
      assert [lines[0]] + lines[1..] == lines;
    }
  }

  /** Splitting into complete lines and a pending rest loses and invents nothing. */
  lemma FramingSound(text: string)
    ensures AllNoNewline(CompleteLines(text)) && NoNewline(Pending(text))
    ensures Terminated(CompleteLines(text)) + Pending(text) == text
  {
    var parts := Split(text, '\n');
    assert parts == CompleteLines(text) + [Pending(text)];
    JoinIsTerminated(CompleteLines(text), Pending(text));
  }

  /**
   * Lines are cut only at `'\n'`: any newline-free lines and newline-free rest that make up `text`
   * are exactly its complete lines and its pending text.
   */
  lemma FramingUnique(lines: seq<string>, rest: string, text: string)
    requires AllNoNewline(lines) && NoNewline(rest)
    requires Terminated(lines) + rest == text
    ensures lines == CompleteLines(text) && rest == Pending(text)
  {
    JoinIsTerminated(lines, rest);
    SplitJoin(lines + [rest], '\n');
    assert Split(text, '\n') == lines + [rest];
  }

  /**
   * Framing `text + more` is framing `text`, then framing its pending rest followed by `more`:
   * where the text is cut into chunks does not change the lines.
   */
  lemma FramingIncremental(text: string, more: string)
    ensures CompleteLines(text + more) == CompleteLines(text) + CompleteLines(Pending(text) + more)
    ensures Pending(text + more) == Pending(Pending(text) + more)
  {
    var l1, b1 := CompleteLines(text), Pending(text);
    var l2, b2 := CompleteLines(b1 + more), Pending(b1 + more);
    FramingSound(text);
    FramingSound(b1 + more);
    TerminatedChain(l1, b1, text, l2, b2, more);
    AllNoNewlineAppend(l1, l2);
    FramingUnique(l1 + l2, b2, text + more);
  }

  lemma TerminatedChain(l1: seq<string>, b1: string, text: string, l2: seq<string>, b2: string, more: string)
    requires Terminated(l1) + b1 == text && Terminated(l2) + b2 == b1 + more
    ensures Terminated(l1 + l2) + b2 == text + more
  {
    TerminatedAppend(l1, l2);
    calc {
      Terminated(l1 + l2) + b2;
      Terminated(l1) + (Terminated(l2) + b2);
      Terminated(l1) + b1 + more;
    }
  }

  lemma AllNoNewlineAppend(a: seq<string>, b: seq<string>)
    requires AllNoNewline(a) && AllNoNewline(b)
    ensures AllNoNewline(a + b)
  {
    forall i | 0 <= i < |a + b| ensures NoNewline((a + b)[i]) {
      if i >= |a| { assert (a + b)[i] == b[i - |a|]; }
    }
  }

  /** Text without `'\n'` added at the end completes no line: it only grows the pending text. */
  lemma UnterminatedTail(text: string, tail: string)
    requires NoNewline(tail)
    ensures CompleteLines(text + tail) == CompleteLines(text)
    ensures Pending(text + tail) == Pending(text) + tail
  {
    FramingIncremental(text, tail);
    FramingSound(text);
    assert Split(Pending(text) + tail, '\n') == [Pending(text) + tail];
    assert CompleteLines(text) + [] == CompleteLines(text);
  }

  /** The lines each chunk completes, and the text still buffered after the last chunk. */
  datatype Framing = Framing(groups: seq<seq<string>>, buffer: string)

  /**
   * The read loops' framing, chunk after chunk: append the chunk to the buffer, split on `'\n'`,
   * keep the last piece as the new buffer. Together the groups are the complete lines of all the
   * text, however it was chunked.
   */
  function FrameChunks(chunks: seq<string>): (f: Framing)
    ensures |f.groups| == |chunks|
    ensures Flatten(f.groups) == CompleteLines(Concat(chunks))
    ensures f.buffer == Pending(Concat(chunks))
  {
    if chunks == [] then
      assert Split("", '\n') == [""];
      Framing([], "")
    else
      var prev := FrameChunks(chunks[..|chunks| - 1]);
      var parts := Split(prev.buffer + chunks[|chunks| - 1], '\n');
      FramingIncremental(Concat(chunks[..|chunks| - 1]), chunks[|chunks| - 1]);
      var f := Framing(prev.groups + [parts[..|parts| - 1]], parts[|parts| - 1]);
      assert f.groups[..|f.groups| - 1] == prev.groups;
      f
  }

  /** Framing one more chunk: its lines are those it completes after the buffered text. */
  lemma FrameChunksStep(chunks: seq<string>, i: nat)
    requires i < |chunks|
    ensures var prev := FrameChunks(chunks[..i]);
      FrameChunks(chunks[..i + 1])
        == Framing(prev.groups + [CompleteLines(prev.buffer + chunks[i])], Pending(prev.buffer + chunks[i]))
  {
    assert chunks[..i + 1][..i] == chunks[..i];
  }

  // ---------------------------------------------------------------- the framer

  /** One step of the framer: a valid state fed `text` is again valid, and again the framing of all text. */
  lemma FeedStep(lines: seq<string>, buffer: string, received: string, text: string)
    requires AllNoNewline(lines) && NoNewline(buffer) && Terminated(lines) + buffer == received
    ensures NoNewline(Pending(buffer + text))
    ensures AllNoNewline(lines + CompleteLines(buffer + text))
    ensures Terminated(lines + CompleteLines(buffer + text)) + Pending(buffer + text) == received + text
    ensures lines + CompleteLines(buffer + text) == CompleteLines(received + text)
    ensures Pending(buffer + text) == Pending(received + text)
  {
    FramingUnique(lines, buffer, received);
    FramingIncremental(received, text);
    FramingSound(received + text);
  }

  /**
   * The `buffer` variable of the frontend read loops together with the `split('\n')` and
   * `lines.pop()` that advance it. `received` and `lines` record everything fed and handed out.
   */
  class LineFramer {
    var buffer: string
    ghost var received: string
    ghost var lines: seq<string>

    ghost predicate Valid()
      reads this
    {
      NoNewline(buffer) && AllNoNewline(lines) && Terminated(lines) + buffer == received
    }

    constructor ()
      ensures Valid()
      ensures buffer == "" && received == "" && lines == []
    {
      buffer, received, lines := "", "", [];
    }

    /**
     * Appends decoded text and returns the lines it completes. The new buffer is the text after
     * the last `'\n'`; the lines handed out so far are the complete lines of all text received.
     */
    method Feed(text: string) returns (complete: seq<string>)
      requires Valid()
      modifies this
      ensures Valid()
      ensures received == old(received) + text && lines == old(lines) + complete
      ensures complete == CompleteLines(old(buffer) + text) && buffer == Pending(old(buffer) + text)
      ensures lines == CompleteLines(received) && buffer == Pending(received)
    {
      FeedStep(lines, buffer, received, text);
      complete := CompleteLines(buffer + text);
      buffer, received, lines := Pending(buffer + text), received + text, lines + complete;
    }
  }
}
