# Multimodal image analysis front-end: response-handling core

The application is a small web page that sends one uploaded image and one
analysis instruction to a remote vision-language model and shows the reply.
This project models the part of `app.py` that has behaviour of its own:

- the **guard and request construction** run when "Generate Response" is
  clicked. No image or an empty task shows an error and sends nothing.
  Otherwise exactly one POST is built: the `Accept` header, the payload
  (model, one user message, `max_tokens` 512, the `stream` flag) and the user
  message `task <img src="data:image/png;base64,…" />`;
- **`extract_content`**, the decoder for one event-stream line. It takes
  piece `[1]` of `line.split("data: ")`, parses it with `json.loads`, and
  returns `choices[0].delta.content`. Only a JSON decode error is caught, and
  it becomes `""`. A missing marker or a missing key raises out of the
  function;
- the **streaming loop**. It skips empty lines, appends each fragment to
  `content` in arrival order, and re-renders `content` after each one. An
  exception from a line (including `content += None`) ends the loop;
- the **non-streaming `.get` chain** over `response.json()`. It runs inside a
  `try` that reports any exception as "An error occurred".

Python semantics are written out where the code relies on them:
- `str.split` is in module `PyStr`, built on `Find`, the leftmost search
  for the separator that `split` performs;
- subscripting with `v[key]` and `v[0]`, and `dict.get`, are in module `PyJson`.
  They raise `KeyError`, `IndexError`, `TypeError` or `AttributeError` as
  Python does.

`json.loads` is a parameter `parse: string -> Option<Json>`, where `None`
stands for a `JSONDecodeError`. The service's reply is given as input: a
sequence of lines, or the parsed body.

Modules:
- `Optional`: the Option type;
- `PyJson`: JSON values and Python subscript semantics;
- `PyStr`: find and split;
- `StreamDecoder`: `extract_content`, the loop, and the `.get` chain;
- `RequestBuilder`: the guard and the request;
- `App`: the branch in `main` that ties them together.

## Behaviour worth knowing

- `extract_content` passes `json.loads` only the text between the first
  and the second `data: `. `StreamDecoder.SegmentOfDataLine` proves two
  things. For `data: <payload>` the parsed text is the whole payload when the
  payload has no `data: ` of its own. Otherwise the payload is cut at that
  point.
- Per-frame tolerance is narrower than a uniform "empty fragment for any
  malformed frame" policy: the code catches only the JSON decode error. A
  frame without the marker, or a JSON frame without
  `choices[0].delta.content`, raises and ends the stream. So does a `null` or
  other non-string content, at `content += …`.

## Model

| member | source | states |
|---|---|---|
| PyStr.Find | app.py:22 | The leftmost search `split` performs for the separator: the index returned is an occurrence of the separator with none before it. None means the separator does not occur. |
| PyJson.Subscript | app.py:24 | `v['key']` yields the value exactly when `v` is an object holding the key. A missing key raises `KeyError`; any non-object raises `TypeError`. |
| PyJson.Index0 | app.py:24 | `v[0]` yields the first element of a non-empty list, or the first character of a non-empty string. An empty list or string raises `IndexError`, an object `KeyError`, anything else `TypeError`. |
| PyJson.Get | app.py:130 | `v.get(key, default)` raises `AttributeError` exactly when `v` is not an object. Otherwise it yields the value at the key, or the default when the key is absent. |
| PyStr.Split | app.py:22 | `str.split` yields at least one piece, and no piece contains the separator. |
| PyStr.JoinSplit | app.py:22 | Splitting loses nothing: joining the pieces with the separator gives back the string. |
| PyStr.SplitSecondPiece | app.py:22 | Piece `[1]` exists exactly when the separator occurs. It is the text between the first and the second occurrence, or to the end. |
| StreamDecoder.Segment | app.py:22 | The text handed to `json.loads` is absent exactly when the line has no `data: `. Otherwise it is the text between the first two markers. |
| StreamDecoder.SegmentOfDataLine | app.py:22 | For `data: <payload>` that text is the whole payload, or the payload cut at its own first `data: `. |
| StreamDecoder.DeltaContent | app.py:24 | `['choices'][0]['delta']['content']` succeeds exactly on documents of that shape and yields the value found there. Any other document raises. |
| StreamDecoder.ExtractContent | app.py:19-28 | No marker raises `IndexError`. The result is `""` (ParseSkip) exactly when the segment is not JSON. It is the content value exactly when the document has that shape. Any other parsed document is a fault, not `""`. |
| StreamDecoder.WellFormedFrame | app.py:22-25 | A frame `data: <json>` of the expected shape yields exactly `choices[0].delta.content`. |
| StreamDecoder.Fragment | app.py:124 | `content += extract_content(chunk)` appends a string fragment, or `""` after a decode error. Any non-string content (`null`, number, boolean, list, object) raises `TypeError`, and escaped faults propagate. |
| StreamDecoder.Consume | app.py:119-125 | There are at most as many renders as lines. Each render is a prefix of the next. The last render is the accumulated text, which is `""` before anything is rendered. |
| StreamDecoder.ConsumeStops | app.py:121-125 | Once a line has raised, later lines change nothing: the loop is over. |
| StreamDecoder.StreamResponse | app.py:118-125 | The loop's text, renders and escaping exception are those of `Consume` over all lines. |
| StreamDecoder.ConsumeIsOrderedConcatenation | app.py:119-125 | When no line raises, the text is the in-order concatenation of the non-empty lines' fragments, and render k shows the first k+1 of them. Otherwise the loop ends with the first exception. |
| StreamDecoder.NonStreamingReply | app.py:128-136 | A missing `choices`, `message` or `content` key gives `""`, and a present content value is shown unchanged. These are reported as errors: an empty `choices` list, a non-list `choices`, a non-object choice or message, a non-object body, and an undecodable body. |
| RequestBuilder.Generate | app.py:80-103 | It is an error, with no request, exactly when the image is missing or the task is `""`. Otherwise: `Accept` is `text/event-stream` iff streaming, `application/json` iff not. The payload's `stream` equals the flag and `max_tokens` is 512. The single user message is the task, a space, then the image tag. |
| RequestBuilder.Prompt | app.py:96 | The user message is the task, a space, the opening `<img src="data:image/png;base64,`, the image text, then `" />`. |
| RequestBuilder.Bearer | app.py:86 | The authorization value is `Bearer ` followed by the key, or by `None` when no key is set. |
| RequestBuilder.PromptRoundTrip | app.py:96 | The task and the base64 image can be read back unchanged from the user message. |
| App.OnGenerate | app.py:76-136 | It is rejected with no POST exactly when input is missing. It is streamed exactly when sent with the flag on. The request sent is the one built, and the reply is decoded by the matching path. |

## Left out

- Streamlit rendering is left out because it is presentation: the title, the expander, the uploader, the image preview, the select box, the checkbox, the spinner, `st.error`, `st.success`, `st.write` and `markdown`. Renders are kept only as the sequence of texts shown.
- The session-state streaming flag is a plain boolean input.
- The ten task strings of the select box are left out: the task is any string. The box never yields `""`, so that half of the guard cannot trigger from the page.
- `requests.post`, `iter_lines`, `response.text` and `response.json` are network I/O. The reply is given as a sequence of lines or as an optional parsed body. A transport failure is not modelled.
- `os.getenv` is left out: the key is an optional input, formatted as `Bearer None` when absent.
- `encode_image` is never called and reads a file, so it is left out.
- The base64 encoding of the upload is a library call. The upload is modelled as its base64 text, so the base64 round trip of the bytes is not stated.
- UTF-8 decoding of each chunk is left out: lines are already-decoded strings. A `UnicodeDecodeError`, which would escape, is not modelled.
- `json.loads` internals are left out; parsing is the `parse` parameter. JSON numbers are integers, because floats are never inspected.
- `temperature` and `top_p` are left out: they are floating-point constants that are only passed through.
- The `print` debugging output is left out.
- StreamDecoder.NonStreamingReply: a content value that is not a string is displayed through Python's `str()`. The model keeps the JSON value and does not render that text.
- App.OnGenerate: what Streamlit does with an exception escaping the streaming loop is not modelled. The exception is returned as `raised`.
