/** The records the bot receives from, and keeps about, the issue tracker. */
module Github {
  import opened Wrappers

  /** A label record of a webhook payload: `{"name": ...}`. */
  datatype LabelRecord = LabelRecord(name: string)

  /** The `"issue"` (or `"pull_request"`) record of a payload. */
  datatype IssueRecord = IssueRecord(number: int, labels: seq<LabelRecord>)

  /** A comment event as the webhook delivers it: the comment's body, the
      login of the sender, and the `"issue"` and `"pull_request"` entries,
      either of which may be absent. */
  datatype CommentPayload = CommentPayload(
    body: string,
    sender: string,
    issue: Option<IssueRecord>,
    pullRequest: Option<IssueRecord>)

  /** A comment stored on an issue: its body and its author's login. */
  datatype Comment = Comment(body: string, author: string)

  /** The names of a list of label records, in order. */
  function LabelNames(labels: seq<LabelRecord>): (names: seq<string>)
    ensures |names| == |labels|
    ensures forall i :: 0 <= i < |labels| ==> names[i] == labels[i].name
  {
    seq(|labels|, i requires 0 <= i < |labels| => labels[i].name)
  }
}
