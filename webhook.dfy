/** `webhook.Webhook._process_comment`: which comment events reach the command
    handler. */
module Webhook {
  import opened Wrappers
  import opened Github

  /** Where a comment event ends: dropped by one of the guards, the `KeyError`
      of a payload with neither an `"issue"` nor a `"pull_request"` entry, or
      handed to `handle_comment` with the payload unchanged. */
  datatype Decision =
    | IgnoredOwnComment
    | MissingIssueRecord
    | IgnoredNotProposal
    | IgnoredNotTeamMember
    | Dispatched(payload: CommentPayload)

  /** `_issue_has_label`: scan the label records from the first, stopping at
      the first whose name is `labelName`. */
  function HasLabel(labels: seq<LabelRecord>, labelName: string): (r: bool)
    ensures r <==> exists i :: 0 <= i < |labels| && labels[i].name == labelName
  {
    if |labels| == 0 then false
    else if labels[0].name == labelName then true
    else
      var r := HasLabel(labels[1..], labelName);
      assert forall i :: 1 <= i < |labels| ==> labels[i] == labels[1..][i - 1];
      r
  }

  function IssueHasLabel(issue: IssueRecord, labelName: string): (r: bool)
    ensures r <==> labelName in LabelNames(issue.labels)
  {
    LabelNameFound(issue.labels, labelName);
    HasLabel(issue.labels, labelName)
  }

  lemma LabelNameFound(labels: seq<LabelRecord>, labelName: string)
    ensures labelName in LabelNames(labels) <==> exists i :: 0 <= i < |labels| && labels[i].name == labelName
  {
    if labelName in LabelNames(labels) {
      var i :| 0 <= i < |labels| && LabelNames(labels)[i] == labelName;
      assert labels[i].name == labelName;
    }
  }

  /** `_comment_belongs_to_team_member`: scan the team's logins from the
      first, stopping at the first that is the sender's. */
  function IsMember(team: seq<string>, login: string): (r: bool)
    ensures r <==> login in team
  {
    if |team| == 0 then false
    else if team[0] == login then true
    else IsMember(team[1..], login)
  }

  function CommentBelongsToTeamMember(payload: CommentPayload, team: seq<string>): (r: bool)
    ensures r <==> payload.sender in team
  {
    IsMember(team, payload.sender)
  }

  /** The issue record of an event: `"issue"` when present, otherwise
      `"pull_request"` (a review comment). */
  function IssueOf(payload: CommentPayload): (r: Option<IssueRecord>)
    ensures payload.issue.Some? ==> r == payload.issue
    ensures payload.issue.None? ==> r == payload.pullRequest
  {
    if payload.issue.Some? then payload.issue else payload.pullRequest
  }

  /** `_process_comment`: drop the bot's own comments first, then comments on
      issues without the proposal label, then comments by anyone outside the
      team, and hand every other event to the command handler. */
  function ProcessComment(payload: CommentPayload, botLogin: string, proposalLabel: string,
                          team: seq<string>): (d: Decision)
    ensures payload.sender == botLogin ==> d == IgnoredOwnComment
    ensures d == MissingIssueRecord <==>
      payload.sender != botLogin && payload.issue.None? && payload.pullRequest.None?
    ensures d == IgnoredNotProposal <==>
      && payload.sender != botLogin && IssueOf(payload).Some?
      && proposalLabel !in LabelNames(IssueOf(payload).value.labels)
    ensures d == IgnoredNotTeamMember <==>
      && payload.sender != botLogin && IssueOf(payload).Some?
      && proposalLabel in LabelNames(IssueOf(payload).value.labels)
      && payload.sender !in team
    ensures d.Dispatched? <==>
      && payload.sender != botLogin && IssueOf(payload).Some?
      && proposalLabel in LabelNames(IssueOf(payload).value.labels)
      && payload.sender in team
    ensures d.Dispatched? ==> d.payload == payload
  {
    if payload.sender == botLogin then IgnoredOwnComment
    else
      match IssueOf(payload)
      case None => MissingIssueRecord
      case Some(issue) =>
        if !IssueHasLabel(issue, proposalLabel) then IgnoredNotProposal
        else if !CommentBelongsToTeamMember(payload, team) then IgnoredNotTeamMember
        else Dispatched(payload)
  }

  /** The bot's login is never treated as a team member's: its comments are
      dropped even when it is on the roster and the issue is a proposal. */
  lemma OwnCommentsNeverDispatched(payload: CommentPayload, botLogin: string, proposalLabel: string,
                                   team: seq<string>)
    requires payload.sender == botLogin
    ensures !ProcessComment(payload, botLogin, proposalLabel, team).Dispatched?
  {
  }

  /** Only the issue record the event carries decides: a `"pull_request"`
      entry beside an `"issue"` entry is never looked at. */
  lemma PullRequestIgnoredBesideIssue(payload: CommentPayload, pr: Option<IssueRecord>,
                                      botLogin: string, proposalLabel: string, team: seq<string>)
    requires payload.issue.Some?
    ensures ProcessComment(payload.(pullRequest := pr), botLogin, proposalLabel, team).Dispatched? ==
      ProcessComment(payload, botLogin, proposalLabel, team).Dispatched?
  {
  }
}
