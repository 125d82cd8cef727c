/** The request records written, one per line, to a batch input file. */
module BatchTasks {
  import opened Wrappers

  const PostMethod := "POST"
  const CompletionsEndpoint := "/v1/chat/completions"

  datatype Message = Message(role: string, content: string)

  /** The chat-completion request; the sampling fields are absent when the caller does not set them. */
  datatype RequestBody = RequestBody(
    model: string,
    temperature: Option<int>,
    maxCompletionTokens: Option<int>,
    messages: seq<Message>)

  /** What the bot attaches to a task so that a result can be traced back to its issue. */
  datatype Metadata = Metadata(issueUrl: string, title: string)

  datatype Task = Task(
    customId: string,
    httpMethod: string,
    url: string,
    body: RequestBody,
    metadata: Option<Metadata>)
}
