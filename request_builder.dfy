/**
 * The "Generate Response" guard and the construction of the one POST request
 * sent to the inference endpoint.
 */
module RequestBuilder {
  import opened Optional

  const ModelId: string := "meta/llama-3.2-90b-vision-instruct"
  const InvokeUrl: string := "https://ai.api.nvidia.com/v1/gr/meta/llama-3.2-90b-vision-instruct/chat/completions"
  const MaxTokens: nat := 512
  const EventStream: string := "text/event-stream"
  const ApplicationJson: string := "application/json"
  const MissingInput: string := "Please upload an image and select a task."

  /** The image tag that carries the image as a base64 data URL. */
  const ImgOpen: string := "<img src=\"data:image/png;base64,"
  const ImgClose: string := "\" />"

  datatype Message = Message(role: string, content: string)

  /** The JSON body; temperature and top_p are left out (floating point). */
  datatype Payload = Payload(model: string, messages: seq<Message>, maxTokens: nat, stream: bool)

  datatype Headers = Headers(authorization: string, accept: string)

  /** `requests.post(url, headers=..., json=payload, stream=stream)`. */
  datatype Post = Post(url: string, headers: Headers, payload: Payload, stream: bool)

  /** What a click on "Generate Response" leads to: an error message and no
      request, or exactly one POST. */
  datatype Action = ShowError(message: string) | Send(post: Post)

  /** The user message: the task text, a space, then the image tag. */
  function Prompt(task: string, image: string): (r: string)
    ensures |r| == |task| + 1 + |ImgOpen| + |image| + |ImgClose|
    ensures r[..|task|] == task && r[|task|] == ' '
    ensures r[|task| + 1..|task| + 1 + |ImgOpen|] == ImgOpen
    ensures r[|task| + 1 + |ImgOpen|..|r| - |ImgClose|] == image
    ensures r[|r| - |ImgClose|..] == ImgClose
  {
    task + " " + ImgOpen + image + ImgClose
  }

  /** `f"Bearer {api_key}"`, where a missing key formats as "None". */
  function Bearer(apiKey: Option<string>): (r: string)
    ensures |r| >= 7 && r[..7] == "Bearer "
    ensures apiKey.Some? ==> r[7..] == apiKey.value
    ensures apiKey.None? ==> r[7..] == "None"
  {
    "Bearer " + (match apiKey case Some(k) => k case None => "None")
  }

  /** The guard and the request: `upload` is the base64 text of the uploaded
      image (None when nothing is uploaded), `task` the selected instruction,
      `stream` the streaming flag, `apiKey` the credential from the environment. */
  function Generate(upload: Option<string>, task: string, stream: bool, apiKey: Option<string>): (r: Action)
    ensures r.ShowError? <==> upload.None? || task == ""
    ensures r.ShowError? ==> r.message == MissingInput
    ensures r.Send? ==> r.post.url == InvokeUrl && r.post.stream == stream
    ensures r.Send? ==> (r.post.headers.accept == EventStream <==> stream)
    ensures r.Send? ==> (r.post.headers.accept == ApplicationJson <==> !stream)
    ensures r.Send? ==> r.post.headers.authorization == Bearer(apiKey)
    ensures r.Send? ==> r.post.payload.stream == stream && r.post.payload.maxTokens == 512
    ensures r.Send? ==> r.post.payload.model == ModelId
    ensures r.Send? ==> r.post.payload.messages == [Message("user", Prompt(task, upload.value))]
  {
    if upload.None? || task == "" then ShowError(MissingInput)
    else
      var headers := Headers(Bearer(apiKey), if stream then EventStream else ApplicationJson);
      var payload := Payload(ModelId, [Message("user", Prompt(task, upload.value))], MaxTokens, stream);
      Send(Post(InvokeUrl, headers, payload, stream))
  }

  /** A character of the base64 alphabet of section 4 of RFC 4648, padding included. */
  predicate IsBase64Char(ch: char)
  {
    ('A' <= ch <= 'Z') || ('a' <= ch <= 'z') || ('0' <= ch <= '9') || ch == '+' || ch == '/' || ch == '='
  }

  predicate IsBase64Text(s: string)
  {
    forall k :: 0 <= k < |s| ==> IsBase64Char(s[k])
  }

  /** The index of the last occurrence of `ch` in `s`. */
  function LastIndexOf(s: string, ch: char): (r: Option<nat>)
    ensures r.Some? ==> r.value < |s| && s[r.value] == ch && forall j :: r.value < j < |s| ==> s[j] != ch
    ensures r.None? ==> forall j :: 0 <= j < |s| ==> s[j] != ch
  {
    if s == [] then None
    else if s[|s| - 1] == ch then Some(|s| - 1)
    else LastIndexOf(s[..|s| - 1], ch)
  }

  /** Reads a user message back into its task text and its image: the image
      tag starts at the last '<'. */
  function ParsePrompt(content: string): Option<(string, string)>
  {
    match LastIndexOf(content, '<')
    case None => None
    case Some(i) =>
      if 1 <= i && content[i - 1] == ' ' && i + |ImgOpen| + |ImgClose| <= |content|
         && content[i..i + |ImgOpen|] == ImgOpen && content[|content| - |ImgClose|..] == ImgClose
      then Some((content[..i - 1], content[i + |ImgOpen|..|content| - |ImgClose|]))
      else None
  }

  /** An occurrence of `ch` with none after it is what LastIndexOf finds. */
  lemma LastIndexIs(s: string, ch: char, i: nat)
    requires i < |s| && s[i] == ch
    requires forall j :: i < j < |s| ==> s[j] != ch
    ensures LastIndexOf(s, ch) == Some(i)
  {
  }

  /** The tag's opening holds one '<', at its start; its closing holds none. */
  lemma TagAngles()
    ensures ImgOpen[0] == '<' && forall k :: 1 <= k < |ImgOpen| ==> ImgOpen[k] != '<'
    ensures forall k :: 0 <= k < |ImgClose| ==> ImgClose[k] != '<'
  {
  }

  /** The image tag holds one '<', at its start, and base64 text holds none:
      the last '<' of a prompt opens its image tag. */
  lemma TagOpensAtLastAngle(task: string, image: string)
    requires IsBase64Text(image)
    ensures LastIndexOf(Prompt(task, image), '<') == Some(|task| + 1)
  {
    var c := Prompt(task, image);
    var i := |task| + 1;
    TagAngles();
    assert c[i] == ImgOpen[0];
    forall j | i < j < |c|
      ensures c[j] != '<'
    {
      if j < i + |ImgOpen| {
        assert c[j] == ImgOpen[j - i];
      } else if j < i + |ImgOpen| + |image| {
        assert c[j] == image[j - i - |ImgOpen|];
        assert IsBase64Char(image[j - i - |ImgOpen|]);
      } else {
        assert c[j] == ImgClose[j - i - |ImgOpen| - |image|];
      }
    }
    LastIndexIs(c, '<', i);
  }

  /** The prompt loses nothing: task and image can be read back from it,
      provided the image is base64 text (which never contains '<'). */
  lemma PromptRoundTrip(task: string, image: string)
    requires IsBase64Text(image)
    ensures ParsePrompt(Prompt(task, image)) == Some((task, image))
  {
    var c := Prompt(task, image);
    var i := |task| + 1;
    TagOpensAtLastAngle(task, image);
    assert c[i - 1] == ' ';
    assert c[..i - 1] == task;
    assert c[i..i + |ImgOpen|] == ImgOpen;
    assert c[|c| - |ImgClose|..] == ImgClose;
    assert c[i + |ImgOpen|..|c| - |ImgClose|] == image;
  }
}
