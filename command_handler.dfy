/** `CommandHandler`: runs the commands of one comment against the proposal it
    was posted on, and writes the proposal's labels back when they changed. */
module CommandHandling {
  import opened Wrappers
  import opened Text
  import opened Github
  import opened CommandParser

  /** The configuration values the handler reads. */
  datatype Config = Config(botLogin: string, fcpLabel: string, fcpProposedLabel: string)

  /** The four handlers of the dispatch table. Only `fcp` has a body; the
      `review`, `concern` and `resolve` handlers do nothing. */
  datatype Handler = FcpHandler | ReviewHandler | ConcernHandler | ResolveHandler

  /** One entry of the dispatch table: a group of alias names and their handler. */
  datatype Entry = Entry(names: seq<string>, handler: Handler)

  /** The dispatch table, in declaration order. */
  function CommandTable(): seq<Entry> {
    [ Entry(["fcp"], FcpHandler),
      Entry(["review", "reviewed"], ReviewHandler),
      Entry(["concern"], ConcernHandler),
      Entry(["resolve", "resolved"], ResolveHandler) ]
  }

  /** The handler a command name runs, as the table's groups intend it:
      aliases share one handler, and any other name has none. */
  function Lookup(name: string): Option<Handler> {
    if name == "fcp" then Some(FcpHandler)
    else if name == "review" || name == "reviewed" then Some(ReviewHandler)
    else if name == "concern" then Some(ConcernHandler)
    else if name == "resolve" || name == "resolved" then Some(ResolveHandler)
    else None
  }

  /** A comment posted on an issue through the API. */
  datatype Post = Post(issue: int, text: string)

  /** A `set_labels` call: the issue and its new label list. */
  datatype LabelWrite = LabelWrite(issue: int, labels: seq<string>)

  /** The exceptions that end the handling of a comment. */
  datatype Failure =
    | ParseFailure(line: nat, error: LineError) // IndexError in the command parser
    | MissingIssue                              // KeyError: the payload has no "issue"
    | MissingDisposition                        // IndexError: `fcp` without a parameter
    | UnfinishedDisposition(disposition: string)  // the unwritten rest of _attempt_disposition

  datatype Outcome = Completed | Raised(failure: Failure)

  const NotInFcpMessage := "This proposal is not in FCP."
  const AlreadyInFcpMessage := "This proposal is already in FCP."
  const AlreadyProposedMessage :=
    "This proposal has already had a FCP proposed. Please cancel the current one first."

  function UnknownDispositionMessage(disposition: string): string {
    "Unknown disposition '" + disposition + "'"
  }

  /** The dispositions an `fcp` command may propose. */
  predicate IsDisposition(d: string) {
    d == "merge" || d == "postpone" || d == "close"
  }

  /** What one event has done so far: the current label list, every comment
      posted, and the exception raised, if any. */
  datatype EventState = EventState(labels: seq<string>, posts: seq<Post>, failure: Option<Failure>)

  function Posting(st: EventState, issue: int, text: string): EventState {
    st.(posts := st.posts + [Post(issue, text)])
  }

  function Raising(st: EventState, f: Failure): EventState {
    st.(failure := Some(f))
  }

  /** `_attempt_to_cancel_fcp_on_proposal`: complains unless the proposal is in FCP. */
  function CancelStep(cfg: Config, st: EventState, issue: int): EventState {
    if cfg.fcpLabel in st.labels then st else Posting(st, issue, NotInFcpMessage)
  }

  /** The guards of `_attempt_disposition`; past them the source is unfinished. */
  function DispositionStep(cfg: Config, st: EventState, issue: int, d: string): EventState {
    if cfg.fcpLabel in st.labels then Posting(st, issue, AlreadyInFcpMessage)
    else if cfg.fcpProposedLabel in st.labels then Posting(st, issue, AlreadyProposedMessage)
    else Raising(st, UnfinishedDisposition(d))
  }

  /** `_command_fcp`: the first parameter is `cancel` or a disposition. */
  function FcpStep(cfg: Config, st: EventState, issue: int, params: seq<string>): EventState {
    if |params| == 0 then Raising(st, MissingDisposition)
    else
      var d := params[0];
      if d == "cancel" then
        if cfg.fcpLabel !in st.labels then Posting(st, issue, NotInFcpMessage)
        else CancelStep(cfg, st, issue)
      else if !IsDisposition(d) then Posting(st, issue, UnknownDispositionMessage(d))
      else DispositionStep(cfg, st, issue, d)
  }

  function HandlerStep(cfg: Config, h: Handler, st: EventState, issue: int, params: seq<string>): EventState {
    match h
    case FcpHandler => FcpStep(cfg, st, issue, params)
    case _ => st
  }

  /** One command against the entries of the table, in order: every entry
      whose group holds the name runs its handler, until one raises. */
  function RunEntries(cfg: Config, entries: seq<Entry>, st: EventState, issue: int, cmd: Command): EventState {
    if |entries| == 0 then st
    else
      var n := |entries| - 1;
      var s := RunEntries(cfg, entries[..n], st, issue, cmd);
      if s.failure.Some? then s
      else if cmd.name in entries[n].names then HandlerStep(cfg, entries[n].handler, s, issue, cmd.params)
      else s
  }

  /** The commands of a comment, in order, until one raises. */
  function RunCommands(cfg: Config, st: EventState, issue: int, cmds: seq<Command>): EventState {
    if |cmds| == 0 then st
    else
      var n := |cmds| - 1;
      var s := RunCommands(cfg, st, issue, cmds[..n]);
      if s.failure.Some? then s else RunEntries(cfg, CommandTable(), s, issue, cmds[n])
  }

  /** A command is run by the handler `Lookup` gives for its name, and by no
      other; a name without a handler is ignored. */
  lemma DispatchFollowsLookup(cfg: Config, st: EventState, issue: int, cmd: Command)
    requires st.failure.None?
    ensures RunEntries(cfg, CommandTable(), st, issue, cmd) ==
      match Lookup(cmd.name)
      case None => st
      case Some(h) => HandlerStep(cfg, h, st, issue, cmd.params)
  {
    var t := CommandTable();
    var name := cmd.name;
    assert t[..1][..0] == [] && t[..2][..1] == t[..1] && t[..3][..2] == t[..2] && t[..4][..3] == t[..3];
    assert t[..4] == t;
    var r0 := RunEntries(cfg, t[..0], st, issue, cmd);
    assert r0 == st;
    var r1 := RunEntries(cfg, t[..1], st, issue, cmd);
    assert r1 == if name == "fcp" then HandlerStep(cfg, FcpHandler, st, issue, cmd.params) else st;
    var r2 := RunEntries(cfg, t[..2], st, issue, cmd);
    assert r2 == r1;
    var r3 := RunEntries(cfg, t[..3], st, issue, cmd);
    assert r3 == r1;
    var r4 := RunEntries(cfg, t[..4], st, issue, cmd);
    assert r4 == r1;
  }

  /** Once a command has raised, the later commands do not run. */
  lemma {:induction false} RunCommandsStopsAtFailure(cfg: Config, st: EventState, issue: int, cmds: seq<Command>, k: nat)
    requires k <= |cmds|
    requires RunCommands(cfg, st, issue, cmds[..k]).failure.Some?
    ensures RunCommands(cfg, st, issue, cmds) == RunCommands(cfg, st, issue, cmds[..k])
  {
    if k < |cmds| {
      var n := |cmds| - 1;
      assert cmds[..n][..k] == cmds[..k];
      RunCommandsStopsAtFailure(cfg, st, issue, cmds[..n], k);
    } else {
      assert cmds[..k] == cmds;
    }
  }

  /** Once a handler has raised, the later entries do not run. */
  lemma {:induction false} RunEntriesStopsAtFailure(cfg: Config, entries: seq<Entry>, st: EventState, issue: int, cmd: Command, k: nat)
    requires k <= |entries|
    requires RunEntries(cfg, entries[..k], st, issue, cmd).failure.Some?
    ensures RunEntries(cfg, entries, st, issue, cmd) == RunEntries(cfg, entries[..k], st, issue, cmd)
  {
    if k < |entries| {
      var n := |entries| - 1;
      assert entries[..n][..k] == entries[..k];
      RunEntriesStopsAtFailure(cfg, entries[..n], st, issue, cmd, k);
    } else {
      assert entries[..k] == entries;
    }
  }

  /** Running two batches of commands one after the other is running their
      concatenation. */
  lemma {:induction false} RunCommandsAppend(cfg: Config, st: EventState, issue: int, a: seq<Command>, b: seq<Command>)
    ensures RunCommands(cfg, st, issue, a + b) ==
      var s := RunCommands(cfg, st, issue, a);
      if s.failure.Some? then s else RunCommands(cfg, s, issue, b)
  {
    if |b| == 0 {
      assert a + b == a;
    } else {
      var n := |b| - 1;
      assert (a + b)[..|a| + n] == a + b[..n];
      RunCommandsAppend(cfg, st, issue, a, b[..n]);
    }
  }

  /** No reachable handler edits the label list, and every handler only adds
      comments after those already posted. */
  lemma {:induction false} RunCommandsKeepsLabels(cfg: Config, st: EventState, issue: int, cmds: seq<Command>)
    requires st.failure.None?
    ensures RunCommands(cfg, st, issue, cmds).labels == st.labels
    ensures st.posts <= RunCommands(cfg, st, issue, cmds).posts
  {
    if |cmds| > 0 {
      var n := |cmds| - 1;
      RunCommandsKeepsLabels(cfg, st, issue, cmds[..n]);
      var s := RunCommands(cfg, st, issue, cmds[..n]);
      if s.failure.None? {
        DispatchFollowsLookup(cfg, s, issue, cmds[n]);
      }
    }
  }

  /** Commands whose names have no handler are silently ignored. */
  lemma {:induction false} UnknownCommandsIgnored(cfg: Config, st: EventState, issue: int, cmds: seq<Command>)
    requires st.failure.None?
    requires forall k :: 0 <= k < |cmds| ==> Lookup(cmds[k].name).None?
    ensures RunCommands(cfg, st, issue, cmds) == st
  {
    if |cmds| > 0 {
      var n := |cmds| - 1;
      UnknownCommandsIgnored(cfg, st, issue, cmds[..n]);
      DispatchFollowsLookup(cfg, st, issue, cmds[n]);
    }
  }

  /** Only the handler a name maps to matters: two command lists with the same
      handlers and parameters, position by position (such as `review` and
      `reviewed`), have the same effect. */
  lemma {:induction false} AliasesActAlike(cfg: Config, st: EventState, issue: int, c1: seq<Command>, c2: seq<Command>)
    requires st.failure.None?
    requires |c1| == |c2|
    requires forall k :: 0 <= k < |c1| ==> Lookup(c1[k].name) == Lookup(c2[k].name) && c1[k].params == c2[k].params
    ensures RunCommands(cfg, st, issue, c1) == RunCommands(cfg, st, issue, c2)
  {
    if |c1| > 0 {
      var n := |c1| - 1;
      AliasesActAlike(cfg, st, issue, c1[..n], c2[..n]);
      var s := RunCommands(cfg, st, issue, c1[..n]);
      if s.failure.None? {
        DispatchFollowsLookup(cfg, s, issue, c1[n]);
        DispatchFollowsLookup(cfg, s, issue, c2[n]);
      }
    }
  }

  /** `fcp cancel` on a proposal without the FCP label posts "This proposal
      is not in FCP." and nothing else. */
  lemma CancelOutsideFcp(cfg: Config, st: EventState, issue: int, rest: seq<string>)
    requires st.failure.None? && cfg.fcpLabel !in st.labels
    ensures RunCommands(cfg, st, issue, [Command("fcp", ["cancel"] + rest)]) == Posting(st, issue, NotInFcpMessage)
  {
    var cmds := [Command("fcp", ["cancel"] + rest)];
    assert cmds[..0] == [];
    DispatchFollowsLookup(cfg, st, issue, cmds[0]);
  }

  /** `fcp cancel` on a proposal in FCP does nothing: the cancellation itself is
      not written in the source. */
  lemma CancelInsideFcp(cfg: Config, st: EventState, issue: int, rest: seq<string>)
    requires st.failure.None? && cfg.fcpLabel in st.labels
    ensures RunCommands(cfg, st, issue, [Command("fcp", ["cancel"] + rest)]) == st
  {
    var cmds := [Command("fcp", ["cancel"] + rest)];
    assert cmds[..0] == [];
    DispatchFollowsLookup(cfg, st, issue, cmds[0]);
  }

  /** An `fcp` command with an unknown disposition posts
      "Unknown disposition '<d>'" and changes no label. */
  lemma UnknownDispositionRefused(cfg: Config, st: EventState, issue: int, d: string, rest: seq<string>)
    requires st.failure.None? && d != "cancel" && !IsDisposition(d)
    ensures RunCommands(cfg, st, issue, [Command("fcp", [d] + rest)]) ==
      Posting(st, issue, UnknownDispositionMessage(d))
  {
    var cmds := [Command("fcp", [d] + rest)];
    assert cmds[..0] == [];
    DispatchFollowsLookup(cfg, st, issue, cmds[0]);
  }

  /** A disposition is refused first when the proposal is in FCP, then when an
      FCP is already proposed; either refusal leaves the labels as they were.
      Past both guards the handler reaches its unfinished part. */
  lemma DispositionGuards(cfg: Config, st: EventState, issue: int, d: string, rest: seq<string>)
    requires st.failure.None? && IsDisposition(d)
    ensures RunCommands(cfg, st, issue, [Command("fcp", [d] + rest)]) ==
      if cfg.fcpLabel in st.labels then Posting(st, issue, AlreadyInFcpMessage)
      else if cfg.fcpProposedLabel in st.labels then Posting(st, issue, AlreadyProposedMessage)
      else Raising(st, UnfinishedDisposition(d))
  {
    var cmds := [Command("fcp", [d] + rest)];
    assert cmds[..0] == [];
    DispatchFollowsLookup(cfg, st, issue, cmds[0]);
  }

  /** `fcp` without a parameter raises before posting anything. */
  lemma FcpWithoutParameter(cfg: Config, st: EventState, issue: int)
    requires st.failure.None?
    ensures RunCommands(cfg, st, issue, [Command("fcp", [])]) == Raising(st, MissingDisposition)
  {
    var cmds := [Command("fcp", [])];
    assert cmds[..0] == [];
    DispatchFollowsLookup(cfg, st, issue, cmds[0]);
  }

  /** One entry of the inner loop of `handle_comment`, after no handler has raised. */
  lemma EntryStep(cfg: Config, before: EventState, issue: int, cmd: Command, j: nat, mid: EventState, after: EventState)
    requires j < |CommandTable()|
    requires mid == RunEntries(cfg, CommandTable()[..j], before, issue, cmd) && mid.failure.None?
    requires after == if cmd.name in CommandTable()[j].names
      then HandlerStep(cfg, CommandTable()[j].handler, mid, issue, cmd.params) else mid
    ensures RunEntries(cfg, CommandTable()[..j + 1], before, issue, cmd) == after
  {
    assert CommandTable()[..j + 1][..j] == CommandTable()[..j];
  }

  /** One command of the outer loop of `handle_comment`, after no command has raised. */
  lemma CommandStep(cfg: Config, start: EventState, issue: int, cmds: seq<Command>, i: nat, after: EventState)
    requires i < |cmds| && RunCommands(cfg, start, issue, cmds[..i]).failure.None?
    requires after == RunEntries(cfg, CommandTable(), RunCommands(cfg, start, issue, cmds[..i]), issue, cmds[i])
    ensures RunCommands(cfg, start, issue, cmds[..i + 1]) == after
  {
    assert cmds[..i + 1][..i] == cmds[..i];
  }

  /** The commands of a comment, for the bot's login. */
  function CommentCommands(cfg: Config, payload: CommentPayload): ParseResult {
    ParseLines(Split(payload.body, '\n'), Handle(cfg.botLogin))
  }

  /** `handle_comment` gets past its early exits: the body parses, holds at
      least one command, and the payload has an `"issue"` entry. */
  predicate ReachesProposal(cfg: Config, payload: CommentPayload) {
    CommentCommands(cfg, payload).Parsed? && CommentCommands(cfg, payload).commands != []
    && payload.issue.Some?
  }

  /** How `handle_comment` ends at an early exit. */
  function EarlyOutcome(cfg: Config, payload: CommentPayload): Outcome {
    var parse := CommentCommands(cfg, payload);
    if parse.Failed? then Raised(ParseFailure(parse.line, parse.error))
    else if parse.commands == [] then Completed
    else Raised(MissingIssue)
  }

  /** The state the command loop leaves, from the issue's labels and the
      comments `posts` posted before the event. */
  function EventOf(cfg: Config, payload: CommentPayload, posts: seq<Post>): EventState
    requires ReachesProposal(cfg, payload)
  {
    var issue := payload.issue.value;
    RunCommands(cfg, EventState(LabelNames(issue.labels), posts, None), issue.number,
                CommentCommands(cfg, payload).commands)
  }

  /** The `set_labels` call the event ends with: one when no command raised
      and the labels differ from the issue's, none otherwise. */
  function LabelWriteOf(cfg: Config, payload: CommentPayload, posts: seq<Post>): seq<LabelWrite>
    requires ReachesProposal(cfg, payload)
  {
    var done := EventOf(cfg, payload, posts);
    if done.failure.None? && done.labels != LabelNames(payload.issue.value.labels)
    then [LabelWrite(payload.issue.value.number, done.labels)] else []
  }

  /** As written, no reachable handler changes the label list, so the event
      never ends with a `set_labels` call. */
  lemma LabelsNeverWritten(cfg: Config, payload: CommentPayload, posts: seq<Post>)
    requires ReachesProposal(cfg, payload)
    ensures LabelWriteOf(cfg, payload, posts) == []
  {
    var issue := payload.issue.value;
    RunCommandsKeepsLabels(cfg, EventState(LabelNames(issue.labels), posts, None), issue.number,
                           CommentCommands(cfg, payload).commands);
  }

  /** The handler object. Between events its fields keep the last event's
      proposal, comment and labels; `posted`, `labelWrites` and `fetched`
      record the calls made on the issue tracker, oldest first. */
  class CommandHandler {
    const config: Config
    var proposal: Option<int>
    var comment: Option<CommentPayload>
    var proposalLabels: seq<string>
    var posted: seq<Post>
    var labelWrites: seq<LabelWrite>
    var fetched: seq<int>

    constructor (config: Config)
      ensures this.config == config
      ensures proposal == None && comment == None && proposalLabels == []
      ensures posted == [] && labelWrites == [] && fetched == []
    {
      this.config := config;
      proposal, comment, proposalLabels := None, None, [];
      posted, labelWrites, fetched := [], [], [];
    }

    /** `_post_comment`: create a comment on the current proposal. */
    method PostComment(text: string)
      requires proposal.Some?
      modifies this`posted
      ensures posted == old(posted) + [Post(proposal.value, text)]
    {
      posted := posted + [Post(proposal.value, text)];
    }

    method AttemptToCancelFcpOnProposal()
      requires proposal.Some?
      modifies this`posted
      ensures EventState(proposalLabels, posted, None) ==
        CancelStep(config, EventState(proposalLabels, old(posted), None), proposal.value)
    {
      if config.fcpLabel !in proposalLabels {
        PostComment(NotInFcpMessage);
      }
    }

    method AttemptDisposition(disposition: string) returns (failure: Option<Failure>)
      requires proposal.Some?
      modifies this`posted
      ensures EventState(proposalLabels, posted, failure) ==
        DispositionStep(config, EventState(proposalLabels, old(posted), None), proposal.value, disposition)
    {
      failure := None;
      if config.fcpLabel in proposalLabels {
        PostComment(AlreadyInFcpMessage);
        return;
      }
      if config.fcpProposedLabel in proposalLabels {
        PostComment(AlreadyProposedMessage);
        return;
      }
      failure := Some(UnfinishedDisposition(disposition));
    }

    method CommandFcp(parameters: seq<string>) returns (failure: Option<Failure>)
      requires proposal.Some?
      modifies this`posted
      ensures EventState(proposalLabels, posted, failure) ==
        FcpStep(config, EventState(proposalLabels, old(posted), None), proposal.value, parameters)
    {
      failure := None;
      if |parameters| == 0 {
        failure := Some(MissingDisposition);
        return;
      }
      var disposition := parameters[0];
      if disposition == "cancel" {
        if config.fcpLabel !in proposalLabels {
          PostComment(NotInFcpMessage);
          return;
        }
        AttemptToCancelFcpOnProposal();
        return;
      }
      if !IsDisposition(disposition) {
        PostComment(UnknownDispositionMessage(disposition));
        return;
      }
      failure := AttemptDisposition(disposition);
    }

    method RunHandler(h: Handler, parameters: seq<string>) returns (failure: Option<Failure>)
      requires proposal.Some?
      modifies this`posted
      ensures EventState(proposalLabels, posted, failure) ==
        HandlerStep(config, h, EventState(proposalLabels, old(posted), None), proposal.value, parameters)
    {
      match h
      case FcpHandler =>
        failure := CommandFcp(parameters);
      case _ =>
        failure := None;
    }

    /** The inner loop of `handle_comment`: every entry of the table whose
        group holds the command's name runs its handler with the command's
        parameters, until one raises. */
    method RunCommand(cmd: Command) returns (failure: Option<Failure>)
      requires proposal.Some?
      modifies this`posted
      ensures EventState(proposalLabels, posted, failure) ==
        RunEntries(config, CommandTable(), EventState(proposalLabels, old(posted), None), proposal.value, cmd)
    {
      var name, parameters := cmd.name, cmd.params;
      ghost var before := EventState(proposalLabels, posted, None);
      var entries := CommandTable();
      var j := 0;
      while j < |entries|
        invariant 0 <= j <= |entries|
        invariant EventState(proposalLabels, posted, None) == RunEntries(config, entries[..j], before, proposal.value, cmd)
      {
        ghost var mid := EventState(proposalLabels, posted, None);
        if name in entries[j].names {
          failure := RunHandler(entries[j].handler, parameters);
          if failure.Some? {
            EntryStep(config, before, proposal.value, cmd, j, mid, EventState(proposalLabels, posted, failure));
            RunEntriesStopsAtFailure(config, entries, before, proposal.value, cmd, j + 1);
            return;
          }
        }
        EntryStep(config, before, proposal.value, cmd, j, mid, EventState(proposalLabels, posted, None));
        j := j + 1;
      }
      assert entries[..j] == entries;
      failure := None;
    }

    /** `handle_comment`: parse the commands of the comment; with none, stop
        before fetching the issue. Otherwise fetch the issue, snapshot its
        labels, run each command through the table, and call `set_labels`
        once if the labels differ from the snapshot. An exception ends the
        event where it is raised, before any label write. */
    method HandleComment(payload: CommentPayload) returns (outcome: Outcome)
      modifies this`proposal, this`comment, this`proposalLabels, this`posted, this`labelWrites, this`fetched
      ensures !ReachesProposal(config, payload) ==>
        && outcome == EarlyOutcome(config, payload)
        && proposal == old(proposal) && comment == old(comment)
        && proposalLabels == old(proposalLabels) && posted == old(posted)
        && labelWrites == old(labelWrites) && fetched == old(fetched)
      ensures ReachesProposal(config, payload) ==>
        && proposal == Some(payload.issue.value.number) && comment == Some(payload)
        && fetched == old(fetched) + [payload.issue.value.number]
      ensures ReachesProposal(config, payload) ==>
        var done := EventOf(config, payload, old(posted));
        && proposalLabels == done.labels && posted == done.posts
        && outcome == (if done.failure.Some? then Raised(done.failure.value) else Completed)
        && labelWrites == old(labelWrites) + LabelWriteOf(config, payload, old(posted))
    {
      var parse := ParseCommandsFromText(payload.body, config.botLogin);
      if parse.Failed? {
        return Raised(ParseFailure(parse.line, parse.error));
      }
      var commands := parse.commands;
      if |commands| == 0 {
        assert parse.commands == [];
        return Completed;
      }
      if payload.issue.None? {
        return Raised(MissingIssue);
      }
      var issue := payload.issue.value;
      proposal := Some(issue.number);
      fetched := fetched + [issue.number];
      proposalLabels := LabelNames(issue.labels);
      var originalLabels := proposalLabels;
      comment := Some(payload);
      ghost var start := EventState(originalLabels, posted, None);
      ghost var done := EventOf(config, payload, old(posted));
      assert done == RunCommands(config, start, issue.number, commands);

      var i := 0;
      while i < |commands|
        invariant 0 <= i <= |commands|
        invariant proposal == Some(issue.number) && comment == Some(payload)
        invariant fetched == old(fetched) + [issue.number] && labelWrites == old(labelWrites)
        invariant EventState(proposalLabels, posted, None) == RunCommands(config, start, issue.number, commands[..i])
      {
        var failure := RunCommand(commands[i]);
        CommandStep(config, start, issue.number, commands, i, EventState(proposalLabels, posted, failure));
        if failure.Some? {
          RunCommandsStopsAtFailure(config, start, issue.number, commands, i + 1);
          assert done == EventState(proposalLabels, posted, failure);
          return Raised(failure.value);
        }
        i := i + 1;
      }
      assert commands[..i] == commands;
      assert done == EventState(proposalLabels, posted, None);

      if proposalLabels != originalLabels {
        labelWrites := labelWrites + [LabelWrite(issue.number, proposalLabels)];
      }
      outcome := Completed;
    }
  }
}
