/**
 * Turning the service's reply into display text: `extract_content` and the
 * streaming accumulation loop for an event-stream reply, and the `.get` chain
 * for a single JSON reply.
 */
module StreamDecoder {
  import opened Optional
  import opened PyJson
  import opened PyStr

  /** The field marker that precedes the JSON payload of an event-stream line. */
  const Marker: string := "data: "

  /** Piece [1] of `line.split("data: ")`, or None where that index is out of range. */
  function Segment(line: string): (r: Option<string>)
    ensures r.None? <==> !Contains(line, Marker)
    ensures r.Some? ==> IsSecondPiece(line, Marker, r.value)
  {
    SplitSecondPiece(line, Marker);
    var pieces := Split(line, Marker);
    if |pieces| < 2 then None else Some(pieces[1])
  }

  /** For a line `data: <payload>`, json.loads receives the payload up to its
      own first `data: `, if it has one, and the whole payload otherwise. */
  lemma {:induction false} SegmentOfDataLine(payload: string)
    ensures Segment(Marker + payload) ==
      Some(match Find(payload, Marker) case None => payload case Some(e) => payload[..e])
  {
    var line := Marker + payload;
    assert line[..|Marker|] == Marker;
    assert Find(line, Marker) == Some(0);
    assert line[|Marker|..] == payload;
    assert Split(line, Marker) == [line[..0]] + Split(payload, Marker);
  }

  /** A frame `data: <payload>` whose payload parses to a document of the
      expected shape yields exactly choices[0].delta.content. */
  lemma WellFormedFrame(payload: string, parse: string -> Option<Json>)
    requires !Contains(payload, Marker)
    requires parse(payload).Some? && HasDeltaContent(parse(payload).value)
    ensures ExtractContent(Marker + payload, parse) == Content(DeltaOf(parse(payload).value))
  {
    SegmentOfDataLine(payload);
  }

  /** The JSON document a line carries, when it has a marker and its segment parses. */
  function Document(line: string, parse: string -> Option<Json>): Option<Json>
  {
    match Segment(line)
    case None => None
    case Some(seg) => parse(seg)
  }

  /** `doc` has the shape `{"choices": [{"delta": {"content": ...}}, ...]}`. */
  predicate HasDeltaContent(doc: Json)
  {
    && doc.JObj? && "choices" in doc.fields
    && var choices := doc.fields["choices"];
    && choices.JList? && |choices.items| > 0 && choices.items[0].JObj?
    && "delta" in choices.items[0].fields
    && var delta := choices.items[0].fields["delta"];
    && delta.JObj? && "content" in delta.fields
  }

  /** The value at choices[0].delta.content of a document of that shape. */
  function DeltaOf(doc: Json): Json
    requires HasDeltaContent(doc)
  {
    doc.fields["choices"].items[0].fields["delta"].fields["content"]
  }

  /** `parsed_data['choices'][0]['delta']['content']`: succeeds exactly on
      documents of the expected shape, and raises otherwise. */
  function DeltaContent(doc: Json): (r: Result<Json>)
    ensures r.Ok? <==> HasDeltaContent(doc)
    ensures r.Ok? ==> r.value == DeltaOf(doc)
  {
    match Subscript(doc, "choices")
    case Raise(e) => Raise(e)
    case Ok(choices) =>
      match Index0(choices)
      case Raise(e) => Raise(e)
      case Ok(choice) =>
        match Subscript(choice, "delta")
        case Raise(e) => Raise(e)
        case Ok(delta) => Subscript(delta, "content")
  }

  /** What `extract_content` does with one line: returns a JSON value, returns
      "" after a JSON decode error, or lets another exception escape. */
  datatype Extracted = Content(value: Json) | ParseSkip | Fault(error: PyError)

  /** `extract_content(chunk)` for an already-decoded line; `parse` stands for
      `json.loads`, with None for a JSONDecodeError. */
  function ExtractContent(line: string, parse: string -> Option<Json>): (r: Extracted)
    ensures !Contains(line, Marker) ==> r == Fault(IndexError)
    ensures r == ParseSkip <==> Contains(line, Marker) && Document(line, parse).None?
    ensures r.Content? <==> Document(line, parse).Some? && HasDeltaContent(Document(line, parse).value)
    ensures r.Content? ==> r.value == DeltaOf(Document(line, parse).value)
    ensures Document(line, parse).Some? && !HasDeltaContent(Document(line, parse).value) ==> r.Fault?
  {
    match Segment(line)
    case None => Fault(IndexError)
    case Some(seg) =>
      match parse(seg)
      case None => ParseSkip
      case Some(doc) =>
        match DeltaContent(doc)
        case Ok(content) => Content(content)
        case Raise(e) => Fault(e)
  }

  /** `content += extract_content(chunk)`: what one non-empty line appends to
      the accumulated text, or the exception that ends the loop. Adding a
      non-string (null included) to a str raises TypeError. */
  function Fragment(line: string, parse: string -> Option<Json>): (r: Result<string>)
    ensures r.Ok? <==> ExtractContent(line, parse) == ParseSkip || (ExtractContent(line, parse).Content? && ExtractContent(line, parse).value.JStr?)
    ensures ExtractContent(line, parse) == ParseSkip ==> r == Ok("")
    ensures r.Ok? && ExtractContent(line, parse).Content? ==> ExtractContent(line, parse).value == JStr(r.value)
    ensures ExtractContent(line, parse).Content? && !ExtractContent(line, parse).value.JStr? ==> r == Raise(TypeError)
    ensures ExtractContent(line, parse).Fault? ==> r == Raise(ExtractContent(line, parse).error)
  {
    match ExtractContent(line, parse)
    case ParseSkip => Ok("")
    case Content(JStr(t)) => Ok(t)
    case Content(_) => Raise(TypeError)
    case Fault(e) => Raise(e)
  }

  /** The state of the streaming loop: the accumulated text, every text the
      response container was rendered with, and the exception that ended the
      loop, if any. */
  datatype Stream = Stream(content: string, shown: seq<string>, raised: Option<PyError>)

  /** The loop's state after it has been offered `lines`, one line at a time. */
  function Consume(lines: seq<string>, parse: string -> Option<Json>): (st: Stream)
    ensures |st.shown| <= |lines|
    ensures st.shown == [] ==> st.content == ""
    ensures st.shown != [] ==> st.shown[|st.shown| - 1] == st.content
    ensures forall k :: 0 <= k < |st.shown| - 1 ==> st.shown[k] <= st.shown[k + 1]
    decreases |lines|
  {
    if lines == [] then Stream("", [], None)
    else
      var prev := Consume(lines[..|lines| - 1], parse);
      var line := lines[|lines| - 1];
      if prev.raised.Some? || |line| == 0 then prev
      else
        match Fragment(line, parse)
        case Ok(t) => Stream(prev.content + t, prev.shown + [prev.content + t], None)
        case Raise(e) => prev.(raised := Some(e))
  }

  /** Once an exception has escaped, later lines change nothing. */
  lemma {:induction false} ConsumeStops(lines: seq<string>, k: nat, parse: string -> Option<Json>)
    requires k <= |lines|
    requires Consume(lines[..k], parse).raised.Some?
    ensures Consume(lines, parse) == Consume(lines[..k], parse)
    decreases |lines|
  {
    if k < |lines| {
      var init := lines[..|lines| - 1];
      assert init[..k] == lines[..k];
      ConsumeStops(init, k, parse);
    } else {
      assert lines[..k] == lines;
    }
  }

  /** The streaming loop of `main`: for each line, skip it when it is empty,
      otherwise append its fragment to `content` and render `content`. An
      exception from a line ends the loop. */
  method StreamResponse(lines: seq<string>, parse: string -> Option<Json>)
    returns (content: string, shown: seq<string>, raised: Option<PyError>)
    ensures Stream(content, shown, raised) == Consume(lines, parse)
  {
    content, shown, raised := "", [], None;
    var i := 0;
    while i < |lines|
      invariant 0 <= i <= |lines|
      invariant Stream(content, shown, None) == Consume(lines[..i], parse)
    {
      var chunk := lines[i];
      assert lines[..i + 1][..i] == lines[..i];
      if |chunk| > 0 {
        match Fragment(chunk, parse)
        case Raise(e) =>
          raised := Some(e);
          ConsumeStops(lines, i + 1, parse);
          return;
        case Ok(t) =>
          content := content + t;
          shown := shown + [content];
      }
      i := i + 1;
    }
    assert lines[..i] == lines;
  }

  /** Reference reading of the loop, line by line from the front: the
      fragments of the non-empty lines in arrival order, or the first
      exception. */
  function Fragments(lines: seq<string>, parse: string -> Option<Json>): Result<seq<string>>
  {
    if lines == [] then Ok([])
    else if |lines[0]| == 0 then Fragments(lines[1..], parse)
    else
      match Fragment(lines[0], parse)
      case Raise(e) => Raise(e)
      case Ok(t) =>
        match Fragments(lines[1..], parse)
        case Raise(e) => Raise(e)
        case Ok(ts) => Ok([t] + ts)
  }

  /** The texts joined in order. */
  function Concat(ts: seq<string>): string
  {
    if ts == [] then "" else ts[0] + Concat(ts[1..])
  }

  lemma {:induction false} ConcatSnoc(ts: seq<string>, t: string)
    ensures Concat(ts + [t]) == Concat(ts) + t
  {
    if ts == [] {
      assert [] + [t] == [t];
    } else {
      assert (ts + [t])[1..] == ts[1..] + [t];
      ConcatSnoc(ts[1..], t);
    }
  }

  /** The fragments so far, extended by what one more line contributes. */
  function Extend(acc: Result<seq<string>>, line: string, parse: string -> Option<Json>): Result<seq<string>>
  {
    if acc.Raise? || |line| == 0 then acc
    else
      match Fragment(line, parse)
      case Raise(e) => Raise(e)
      case Ok(t) => Ok(acc.value + [t])
  }

  /** Reading from the front agrees with extending at the back. */
  lemma {:induction false} FragmentsSnoc(lines: seq<string>, line: string, parse: string -> Option<Json>)
    ensures Fragments(lines + [line], parse) == Extend(Fragments(lines, parse), line, parse)
    decreases |lines|
  {
    if lines == [] {
      assert [] + [line] == [line];
      assert [line][1..] == [];
      if |line| > 0 && Fragment(line, parse).Ok? {
        var t := Fragment(line, parse).value;
        assert [t] + [] == [] + [t];
      }
    } else {
      var rest := lines[1..];
      assert (lines + [line])[0] == lines[0];
      assert (lines + [line])[1..] == rest + [line];
      FragmentsSnoc(rest, line, parse);
      if |lines[0]| > 0 && Fragment(lines[0], parse).Ok? && Fragments(rest, parse).Ok? && |line| > 0 && Fragment(line, parse).Ok? {
        var t0, ts, t := Fragment(lines[0], parse).value, Fragments(rest, parse).value, Fragment(line, parse).value;
        assert [t0] + (ts + [t]) == ([t0] + ts) + [t];
      }
    }
  }

  /** The loop is lossless and order-preserving: when no line raises, the text
      is the in-order concatenation of the fragments of the non-empty lines,
      and the k-th render shows the first k+1 fragments; otherwise the loop
      ends with the first exception a line raises. */
  lemma {:induction false} ConsumeIsOrderedConcatenation(lines: seq<string>, parse: string -> Option<Json>)
    ensures Fragments(lines, parse).Raise? ==>
      Consume(lines, parse).raised == Some(Fragments(lines, parse).error)
    ensures Fragments(lines, parse).Ok? ==>
      var ts := Fragments(lines, parse).value;
      var st := Consume(lines, parse);
      && st.raised.None? && st.content == Concat(ts) && |st.shown| == |ts|
      && forall k :: 0 <= k < |ts| ==> st.shown[k] == Concat(ts[..k + 1])
    decreases |lines|
  {
    if lines != [] {
      var init, line := lines[..|lines| - 1], lines[|lines| - 1];
      assert lines == init + [line];
      ConsumeIsOrderedConcatenation(init, parse);
      FragmentsSnoc(init, line, parse);
      var prev := Consume(init, parse);
      if Fragments(init, parse).Ok? && |line| > 0 && Fragment(line, parse).Ok? {
        var ts, t := Fragments(init, parse).value, Fragment(line, parse).value;
        ConcatSnoc(ts, t);
        var st := Consume(lines, parse);
        forall k | 0 <= k < |ts| + 1
          ensures st.shown[k] == Concat((ts + [t])[..k + 1])
        {
          if k < |ts| {
            assert (ts + [t])[..k + 1] == ts[..k + 1];
          } else {
            assert (ts + [t])[..k + 1] == ts + [t];
          }
        }
      }
    }
  }

  /** What the non-streaming branch of `main` does with the reply: displays
      the value it found, or reports the exception caught around it. */
  datatype Reply = Displayed(content: Json) | Reported(error: PyError)

  /** The value at `key` of an object, if the value is an object holding it. */
  function Field(v: Json, key: string): Option<Json>
  {
    if v.JObj? && key in v.fields then Some(v.fields[key]) else None
  }

  /** The first element of the reply's `choices` list, when there is one. */
  function FirstChoice(body: Option<Json>): Option<Json>
  {
    if body.None? then None
    else match Field(body.value, "choices")
      case Some(JList(items)) => if |items| > 0 then Some(items[0]) else None
      case _ => None
  }

  /** The `message` of the first choice, when it has one. */
  function FirstMessage(body: Option<Json>): Option<Json>
  {
    if FirstChoice(body).None? then None else Field(FirstChoice(body).value, "message")
  }

  /** `response.json().get('choices', [{}])[0].get('message', {}).get('content', '')`
      inside `try ... except Exception`; `body` is the parsed reply, None when
      `response.json()` raises. */
  function NonStreamingReply(body: Option<Json>): (r: Reply)
    ensures body.None? ==> r == Reported(JSONDecodeError)
    ensures body.Some? && !body.value.JObj? ==> r == Reported(AttributeError)
    ensures body.Some? && body.value.JObj? && Field(body.value, "choices").None? ==> r == Displayed(JStr(""))
    ensures body.Some? && Field(body.value, "choices") == Some(JList([])) ==> r == Reported(IndexError)
    ensures body.Some? && Field(body.value, "choices").Some? && !Field(body.value, "choices").value.JList? ==> r.Reported?
    ensures FirstChoice(body).Some? && !FirstChoice(body).value.JObj? ==> r == Reported(AttributeError)
    ensures FirstChoice(body).Some? && FirstChoice(body).value.JObj? && FirstMessage(body).None? ==> r == Displayed(JStr(""))
    ensures FirstMessage(body).Some? && !FirstMessage(body).value.JObj? ==> r == Reported(AttributeError)
    ensures FirstMessage(body).Some? && FirstMessage(body).value.JObj? && Field(FirstMessage(body).value, "content").None? ==> r == Displayed(JStr(""))
    ensures FirstMessage(body).Some? && Field(FirstMessage(body).value, "content").Some? ==> r == Displayed(Field(FirstMessage(body).value, "content").value)
  {
    match body
    case None => Reported(JSONDecodeError)
    case Some(doc) =>
      match Get(doc, "choices", JList([JObj(map[])]))
      case Raise(e) => Reported(e)
      case Ok(choices) =>
        match Index0(choices)
        case Raise(e) => Reported(e)
        case Ok(choice) =>
          match Get(choice, "message", JObj(map[]))
          case Raise(e) => Reported(e)
          case Ok(message) =>
            match Get(message, "content", JStr(""))
            case Raise(e) => Reported(e)
            case Ok(content) => Displayed(content)
  }
}
