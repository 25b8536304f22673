/**
 * What a click on "Generate Response" does in `main`: the guard, the one
 * request, and the branch on the streaming flag. The service's reply is given
 * as a parameter: `lines` for an event-stream reply, `body` for a JSON reply.
 */
module App {
  import opened Optional
  import opened PyJson
  import opened StreamDecoder
  import opened RequestBuilder

  /** Rejected: the error was shown and nothing was sent. Streamed and
      Answered carry the one request that was sent and what became of the reply. */
  datatype Outcome =
    | Rejected(message: string)
    | Streamed(post: Post, stream: Stream)
    | Answered(post: Post, reply: Reply)

  method OnGenerate(upload: Option<string>, task: string, stream: bool, apiKey: Option<string>,
                    lines: seq<string>, body: Option<Json>, parse: string -> Option<Json>)
    returns (o: Outcome)
    ensures o.Rejected? <==> upload.None? || task == ""
    ensures o.Rejected? ==> o.message == MissingInput
    ensures o.Streamed? <==> !o.Rejected? && stream
    ensures !o.Rejected? ==> Generate(upload, task, stream, apiKey) == Send(o.post)
    ensures o.Streamed? ==> o.stream == Consume(lines, parse)
    ensures o.Answered? ==> o.reply == NonStreamingReply(body)
  {
    var action := Generate(upload, task, stream, apiKey);
    match action
    case ShowError(message) =>
      o := Rejected(message);
    case Send(post) =>
      if stream {
        var content, shown, raised := StreamResponse(lines, parse);
        o := Streamed(post, Stream(content, shown, raised));
      } else {
        o := Answered(post, NonStreamingReply(body));
      }
  }
}
