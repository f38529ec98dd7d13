# mscbot-python: the FCP command core, modelled in Dafny

mscbot is a bot for a proposal process. Proposals are tracked as issues on
a code-hosting platform, and each one goes through a "Final Comment Period"
(FCP) before it is accepted. The model covers four pieces of the bot:

- **Webhook gating.** The webhook drops a comment event when the bot sent
  it, when the issue lacks the proposal label, or when the sender is not
  on the team. Every other event goes to the command handler. A payload
  that carries neither `"issue"` nor `"pull_request"` raises `KeyError`
  when the issue is looked up (webhook.py:80); the model ends it as
  `MissingIssueRecord`. (`webhook.py`, module `Webhook`, pure functions.)
- **Command extraction and dispatch.** A command line is a line whose first
  word is `@<bot login>`. The handler reads the command lines of a comment
  and runs each command through an alias table (`fcp`, `review`/`reviewed`,
  `concern`, `resolve`/`resolved`). The `fcp` command checks its guards and
  posts an error message when one fails. At the end, the handler writes the
  labels back if the list changed. (`command_handler.py`, modules
  `CommandParser` and `CommandHandling`; the handler is a class with
  fields.)
- **The concern list.** `_format_concerns` renders the list in the status
  comment (module `ConcernFormat`). The maintenance script decodes the list
  back (`scripts/add_unresolved_concerns_to_proposals.py`, module
  `StatusComment`). The same script finds the latest status comment and
  decides whether a proposal gets the `unresolved-concerns` label.
- **The FCP timer table.** `fcp_timers.py`, class `FcpTimers`. It maps
  proposal numbers to scheduler jobs, mirrors the table into a saved
  `{number: timestamp}` object, can be reloaded from that object, and
  removes a timer before calling the callback when the timer fires.

The following loops of the source are each a `method` with a `while` loop,
proved against a specification function:

- the command parser;
- both dispatch loops of `handle_comment`;
- the sort and the accumulating loop of `_format_concerns`, over an `array`;
- the status-comment decoder;
- the search for the latest status comment;
- the script's labelling loop;
- the timer table's save and reload loops.

The properties the source promises are proved about those specification
functions, as lemmas. The early-exit searches of `webhook.py` (97-101,
103-110) and the list comprehension of the script (121) are recursive
functions with `exists` and membership contracts, and the label loop of
`_is_proposal_in_fcp` (230-232) is a membership test on the label names.

Supporting modules: `Wrappers` (`Option`) and `Github` (payload and label
records). `Text` models Python's `str.split("\n")`, `str.split()` with the
exact `str.isspace` set, `startswith` and `join`, with the round-trip
lemmas between `split` and `join`.

Three points where the code's own text and its behaviour part ways. The
model follows the behaviour:

- The docstring of `_format_concerns` (command_handler.py:184-190) lists the
  unresolved concern first, but the sort at 196 uses `reverse=True`, so
  resolved concerns come first.
- A blank line (84-85), a line holding only the bot's handle (87) and `fcp`
  with no parameter (95) raise `IndexError`; no error message is posted.
- `_command_review`, `_command_concern` and `_command_resolve` (114-130) are
  empty, so those commands do nothing.

As given, `command_handler.py` does not even parse: line 172,
`proposal.remove_from_labels(# Get label obj)`, never closes its
parenthesis, because the comment takes the rest of the line. So the module
cannot be imported, and `webhook.py` cannot import it either. Throughout
this README and the model, "as written" means what each function's own text
does once that one line is repaired. Even then, some of the module cannot
run as written. The model takes the evident intent in these places:

- The alias table uses lists as dictionary keys (34-39). It is modelled as
  a fixed table of alias groups, searched in declaration order.
- `_is_proposal_in_fcp` is called with no argument (99). It is modelled as
  "the FCP label is in the current label list", compared by label name.
- `_attempt_to_cancel_fcp_on_proposal` is also called without its argument
  (105). It is modelled the same way.
- The guards of `_attempt_disposition` (135, 140) test a label name with
  `in` against `self.proposal_labels`, which holds the label records of the
  payload (55). As written, a string is never equal to a record, so both
  guards are always false and every disposition gets past them. The model
  compares the label names, so the guards refuse as their messages say.

## Model

| member | source | states |
|---|---|---|
| Github.LabelNames | command_handler.py:55 | the label names of the issue record, one per record and in order; the handler compares labels by these names |
| Text.Split | command_handler.py:80 | `text.split("\n")`: the pieces between newlines, including empty ones at either end; never an empty list |
| Text.IsSpace | command_handler.py:84 | the characters Python's `str.isspace` accepts, on which `line.split()` breaks a line |
| Text.SplitPiecesLackSeparator | command_handler.py:80 | no piece of `text.split("\n")` holds a newline |
| Text.JoinSplit | scripts/add_unresolved_concerns_to_proposals.py:54 | joining the pieces of a split with the separator gives back the original text |
| Text.SplitJoin | scripts/add_unresolved_concerns_to_proposals.py:54 | splitting a join of newline-free pieces gives back exactly those pieces |
| Text.Words | command_handler.py:84 | `line.split()` yields non-empty words that hold no whitespace character |
| Text.WordsEmptyIffBlank | command_handler.py:84-85 | `line.split()` is empty exactly when the line is empty or all whitespace, which is when `words.pop(0)` raises |
| Text.WordsKeepAllText | command_handler.py:84 | the words, concatenated, are the line with its whitespace removed: no other character is dropped or reordered |
| Text.WordsOfWord | command_handler.py:84 | a non-empty run of non-whitespace characters is a single word |
| Text.WordsSplitAtSpace | command_handler.py:84 | a whitespace character separates words: the words of `a + [sp] + b` are those of `a` then those of `b`; with `WordsOfWord` this fixes `split()` as the maximal non-whitespace runs |
| Text.WordsOfTwoWords | command_handler.py:84-87 | two words with whitespace between them split into exactly those two, so `words.pop(0)` is the first and `words[0]` the second |
| CommandParser.Handle | command_handler.py:86 | the handle a command line must start with, `"@" + login` |
| CommandParser.ParseLines | command_handler.py:83-89 | the parse of the lines from the first: each line adds its command, nothing, or stops the parse with its index and error |
| CommandParser.ParseLine | command_handler.py:84-88 | a blank line raises; a line that is only the handle raises; a line whose first word is the handle and that has a second word yields the command (second word, remaining words); any other line yields nothing. Each case is stated as an if-and-only-if |
| CommandParser.CommandLinesExact | command_handler.py:80-89 | the command lines are exactly the lines whose first word is the handle and that name a command, in increasing line order |
| CommandParser.ParseCommandsFromText | command_handler.py:73-91 | the parser loop, with its `pop(0)` and `words[0]` errors, returns the line-by-line parse of `text.split("\n")` |
| CommandParser.FailureSticks | command_handler.py:84-87 | once a line raises, no later line changes the result, and the commands found so far are discarded |
| CommandParser.ParseFailsAtFirstBadLine | command_handler.py:84-87 | the parse fails if and only if some line is blank or holds only the handle, and it then reports the first such line and its error |
| CommandParser.ParsedCommandsFollowCommandLines | command_handler.py:80-89 | on success there is exactly one command per command line, in line order, and the k-th command is the name and parameters of the k-th command line |
| CommandParser.ParsedCommandsAtMostLines | command_handler.py:79-89 | a comment never yields more commands than it has lines |
| CommandHandling.CommandTable | command_handler.py:34-39 | the alias groups of `COMMANDS` with their handlers, in declaration order |
| CommandHandling.Lookup | command_handler.py:34-39 | the handler of a name's alias group, or none for any other name |
| CommandHandling.CancelStep | command_handler.py:236-243 | `_attempt_to_cancel_fcp_on_proposal`: posts "This proposal is not in FCP." unless the FCP label is present |
| CommandHandling.DispositionStep | command_handler.py:132-143 | the two guards of `_attempt_disposition` with their messages, then the unfinished part |
| CommandHandling.IsDisposition | command_handler.py:108 | the dispositions `fcp` accepts: `merge`, `postpone` and `close` |
| CommandHandling.FcpStep | command_handler.py:93-112 | `_command_fcp`: no parameter raises; `cancel`; an unknown disposition; a known disposition |
| CommandHandling.HandlerStep | command_handler.py:93-130 | the handler a table entry names: `fcp` runs `FcpStep`; `review`, `concern` and `resolve` are empty and leave the state as it is |
| CommandHandling.RunEntries | command_handler.py:63-66 | one command against the table entries in order, each entry whose group holds the name running its handler, until one raises |
| CommandHandling.RunCommands | command_handler.py:61-66 | the commands of a comment in order, until one raises |
| CommandHandling.EventOf | command_handler.py:54-66 | the state the command loop leaves, from the issue's label names and the comments posted before |
| CommandHandling.LabelWriteOf | command_handler.py:69-71 | one `set_labels` call when no command raised and the labels differ from the snapshot, none otherwise |
| CommandHandling.DispatchFollowsLookup | command_handler.py:34-39 | running one command through the table in order is running the one handler of the command's alias group, or nothing for an unknown name |
| CommandHandling.RunCommandsStopsAtFailure | command_handler.py:61-66 | after a command raises, no later command runs |
| CommandHandling.RunEntriesStopsAtFailure | command_handler.py:63-66 | after a handler raises, no later table entry runs |
| CommandHandling.RunCommandsAppend | command_handler.py:61-66 | running two batches of commands one after the other is running their concatenation |
| CommandHandling.RunCommandsKeepsLabels | command_handler.py:61-66 | no reachable handler edits the label list, and handlers only add comments after those already posted |
| CommandHandling.UnknownCommandsIgnored | command_handler.py:62-66 | commands whose names are in no alias group change nothing |
| CommandHandling.AliasesActAlike | command_handler.py:34-39 | two command lists with the same handlers and parameters, position by position (such as `review` and `reviewed`), have the same effect |
| CommandHandling.CancelOutsideFcp | command_handler.py:97-103 | `fcp cancel` on a proposal without the FCP label posts "This proposal is not in FCP." and nothing else |
| CommandHandling.CancelInsideFcp | command_handler.py:105-106 | `fcp cancel` on a proposal in FCP posts nothing and changes nothing (`_attempt_to_cancel_fcp_on_proposal` only complains when the label is absent) |
| CommandHandling.UnknownDispositionRefused | command_handler.py:108-110 | a disposition other than `cancel`, `merge`, `postpone` or `close` posts "Unknown disposition '<d>'" and changes no label |
| CommandHandling.DispositionGuards | command_handler.py:135-143 | a disposition is refused first when the FCP label is present, then when the FCP-proposed label is present, with the matching message; past both guards the handler reaches its unfinished part |
| CommandHandling.FcpWithoutParameter | command_handler.py:95 | `fcp` with no parameter raises at `parameters.pop(0)` before posting anything |
| CommandHandling.LabelsNeverWritten | command_handler.py:69-71 | as written, no reachable handler changes the labels, so any event that reaches the command loop ends with no `set_labels` call |
| CommandHandling.CommentCommands | command_handler.py:49 | the parse of the comment body with the bot's handle, split on newlines |
| CommandHandling.ReachesProposal | command_handler.py:49-54 | `handle_comment` gets past its early exits: the body parses, holds a command, and the payload has `"issue"` |
| CommandHandling.EarlyOutcome | command_handler.py:49-54 | the early end: a raising line is a parse failure, no command returns normally, and a missing `"issue"` raises `KeyError` |
| CommandHandling.CommandHandler.constructor | command_handler.py:30-45 | a new handler has no proposal, no comment, an empty label list, and has made no calls to the tracker |
| CommandHandling.CommandHandler.PostComment | command_handler.py:251-262 | appends one comment with the given text to the current proposal |
| CommandHandling.CommandHandler.AttemptToCancelFcpOnProposal | command_handler.py:236-243 | posts "This proposal is not in FCP." exactly when the FCP label is absent |
| CommandHandling.CommandHandler.AttemptDisposition | command_handler.py:132-143 | the two guards of `_attempt_disposition`, in order, with their messages; otherwise it stops with the unfinished-disposition failure |
| CommandHandling.CommandHandler.CommandFcp | command_handler.py:93-112 | `_command_fcp`: no parameter raises; `cancel` checks the FCP label; an unknown disposition is refused; any other disposition goes to `_attempt_disposition` |
| CommandHandling.CommandHandler.RunHandler | command_handler.py:34-39 | the `fcp` handler runs `_command_fcp`; the `review`, `concern` and `resolve` handlers do nothing |
| CommandHandling.CommandHandler.RunCommand | command_handler.py:62-66 | the inner loop: every table entry whose alias group holds the name runs its handler with the parameters, until one raises |
| CommandHandling.CommandHandler.HandleComment | command_handler.py:47-71 | if the body fails to parse or holds no command, no field changes and no issue is fetched. Otherwise the issue is fetched once, the command loop's posts and labels are those of `RunCommands`, an exception ends the event, and `set_labels` is called at most once, only when the labels differ from the snapshot |
| ConcernFormat.ResolvedFirst | command_handler.py:196 | the order `sort(key=resolved, reverse=True)` leaves: resolved concerns, then unresolved ones, each in original order |
| ConcernFormat.PercentFrom | command_handler.py:205 | Python's `fmt % arg` for one string argument: `%s` takes the argument once, `%%` is one `%`, and the errors for a second `%s`, an unused argument, a trailing `%` and other directives |
| ConcernFormat.Percent | command_handler.py:205 | `text % concern`, from the start of the text with the argument unused |
| ConcernFormat.Placeholder | command_handler.py:200-203 | the piece appended per concern as written: `* %s` for a resolved concern, `* ~~%s~~` for an unresolved one |
| ConcernFormat.Header | command_handler.py:198 | the text the loop starts from, `"Concerns:\n\n"` |
| ConcernFormat.AccumulateAsWritten | command_handler.py:198-205 | the loop: start from `"Concerns:\n\n"`, append each concern's piece and apply `%` with its text to the whole text, stopping at the first error |
| ConcernFormat.FormatAsWritten | command_handler.py:192-207 | `_format_concerns`: `""` for no concerns, otherwise the loop over the resolved-first order |
| ConcernFormat.WithFlagsArePermutation | command_handler.py:196 | the resolved and the unresolved concerns together are a permutation of the list |
| ConcernFormat.ResolvedFirstIsStableSort | command_handler.py:196 | `sort(key=resolved, reverse=True)` is a permutation that puts every resolved concern before every unresolved one and keeps the original order within each class |
| ConcernFormat.SortByResolved | command_handler.py:196 | the in-place sort leaves the array equal to the stable resolved-first order of its old contents |
| ConcernFormat.PercentSubstitutesOnce | command_handler.py:205 | with no other `%` in the text, `text % arg` replaces the one `%s` by the argument |
| ConcernFormat.PercentEscape | command_handler.py:205 | `%%` renders as one `%` |
| ConcernFormat.PercentSecondArgument | command_handler.py:205 | a second `%s` raises "not enough arguments" |
| ConcernFormat.AccumulateStopsAtFailure | command_handler.py:199-205 | once `%` raises on a prefix of the list, the whole call raises the same error |
| ConcernFormat.FormatConcerns | command_handler.py:183-207 | `_format_concerns` returns the as-written rendering of the old list (empty for no concerns, or the `%` error) and leaves its argument sorted resolved-first |
| ConcernFormat.BulletAsWritten | command_handler.py:199-205 | one concern's bullet when `%` changes nothing: `* X` if resolved, `* ~~X~~` if not |
| ConcernFormat.BulletsAsWritten | command_handler.py:199-205 | the bullets of the concerns in order, run together with no separator |
| ConcernFormat.FormatWithoutPercent | command_handler.py:192-205 | when no concern text holds a `%`, the result is `"Concerns:\n\n"` followed by the bullets of the resolved-first order, with no separator: resolved concerns plain, unresolved ones struck through |
| ConcernFormat.FormatOne | command_handler.py:198-205 | one concern without `%` renders as the header and its bullet |
| ConcernFormat.FormatOneResolved | command_handler.py:198-205 | one resolved concern renders as the header and `* ` followed by its text, whatever the text holds |
| ConcernFormat.FormatTwoUnresolved | command_handler.py:198-205 | two unresolved concerns without `%` render as the header and their two bullets run together |
| ConcernFormat.StrikeThroughInverted | command_handler.py:200-203 | finding: the resolved concern `a` renders as `* a`, which the decoder reads back as unresolved |
| ConcernFormat.ReadAsUnresolved | command_handler.py:184-190 | for every one-line text that does not start with `~~`, the resolved concern renders as a plain bullet that decodes as unresolved |
| ConcernFormat.BulletsRunTogether | command_handler.py:199-205 | finding: the unresolved concerns `a` and `b` render on one line and decode as the single resolved concern `a~~* ~~b` |
| ConcernFormat.RunTogether | command_handler.py:199-205 | for every pair of one-line, `%`-free texts, two unresolved concerns decode as one resolved concern joining both texts |
| ConcernFormat.PercentReapplied | command_handler.py:205 | finding: a resolved `50%%` followed by `b` renders as `* 50%* b`, because `%` is applied to the whole text again at every step |
| ConcernFormat.EscapeReapplied | command_handler.py:205 | for all `%`-free texts, an escaped `%%` in the first concern is undone by the second step |
| ConcernFormat.PercentReappliedRaises | command_handler.py:205 | a first concern `%s` makes the second step raise "not enough arguments" |
| ConcernFormat.DecodeHeaderLine | command_handler.py:198 | the header followed by one line decodes to what that line yields |
| ConcernFormat.DecodeLines | scripts/add_unresolved_concerns_to_proposals.py:54-79 | a body of the marker line, a blank line and more lines decodes to the concerns of the lines after the blank one |
| ConcernFormat.BulletReadsBack | scripts/add_unresolved_concerns_to_proposals.py:62-79 | each bullet in the docstring's form (struck through when resolved) decodes back to its concern |
| ConcernFormat.BulletLinesReadBack | scripts/add_unresolved_concerns_to_proposals.py:62-79 | a list of such bullets decodes back to the list of concerns |
| ConcernFormat.RenderIntended | command_handler.py:184-190 | corrected renderer: empty for no concerns, otherwise one bullet per line; its output decodes back to the concerns, unresolved first |
| ConcernFormat.IntendedReadsBack | command_handler.py:184-190 | the round trip of the corrected renderer through the decoder |
| StatusComment.Lower | scripts/add_unresolved_concerns_to_proposals.py:56 | `line.lower()` for the marker test, of the same length as the line |
| StatusComment.IsMarker | scripts/add_unresolved_concerns_to_proposals.py:56 | `line.lower().startswith("concerns:")` |
| StatusComment.DecodeFrom | scripts/add_unresolved_concerns_to_proposals.py:53-79 | the concerns of the lines, the marker line setting the flag before it is examined and only lines with the flag set contributing |
| StatusComment.DecodeConcerns | scripts/add_unresolved_concerns_to_proposals.py:49-81 | the concerns of a body: its `split("\n")` lines decoded with the flag initially false |
| StatusComment.IsStatusComment | scripts/add_unresolved_concerns_to_proposals.py:32-35 | the body starts with "Team member @" and the author is the bot |
| StatusComment.NeedsUnresolvedLabel | scripts/add_unresolved_concerns_to_proposals.py:114-125 | the latest status comment exists and decodes to at least one unresolved concern |
| StatusComment.MatchEnd | scripts/add_unresolved_concerns_to_proposals.py:66 | where the pattern's `.` stops: at the first newline, or at the end of the line |
| StatusComment.StrikePrefix | scripts/add_unresolved_concerns_to_proposals.py:66 | the prefix the pattern demands: a star, a vertical bar or a hyphen (the bracket class), then a space and `~~` |
| StatusComment.LastTildes | scripts/add_unresolved_concerns_to_proposals.py:66 | the last `~~` in a range of the line, or none in that range |
| StatusComment.StrikeMatch | scripts/add_unresolved_concerns_to_proposals.py:66 | `re.match(r"^[*|-] ~~(.+)~~.*", line)` matches exactly when the prefix fits and a `~~` starts at position 5 or later on the first line; the group ends before the last such `~~` and is never empty |
| StatusComment.IsBullet | scripts/add_unresolved_concerns_to_proposals.py:62 | the line starts with `* ` or `- ` |
| StatusComment.IsStruckBullet | scripts/add_unresolved_concerns_to_proposals.py:64 | the line starts with `* ~~` or `- ~~` |
| StatusComment.ConcernOfLine | scripts/add_unresolved_concerns_to_proposals.py:62-79 | only bullets yield a concern, and the marker line never does; a struck bullet yields the regular expression's group as resolved, or nothing when the match fails; any other bullet yields `line[2:]` as unresolved |
| StatusComment.ParseConcernsFromStatusCommentBody | scripts/add_unresolved_concerns_to_proposals.py:41-81 | the loop, with its `continue`s and its marker flag, returns the line-by-line decoding of the body |
| StatusComment.Advance | scripts/add_unresolved_concerns_to_proposals.py:54-60 | one line of the loop: what it adds and how the marker flag moves |
| StatusComment.NothingBeforeMarker | scripts/add_unresolved_concerns_to_proposals.py:53-60 | lines before the first marker yield no concern |
| StatusComment.MarkerStaysInForce | scripts/add_unresolved_concerns_to_proposals.py:56-60 | once the marker is seen, every later line is read as a possible concern |
| StatusComment.DecodeAfterFirstMarker | scripts/add_unresolved_concerns_to_proposals.py:53-79 | a body's concerns are those of the lines after its first marker line, in line order |
| StatusComment.EveryLineConcernsAppend | scripts/add_unresolved_concerns_to_proposals.py:54-79 | line order is kept across blocks of lines |
| StatusComment.AtMostOneConcernPerLine | scripts/add_unresolved_concerns_to_proposals.py:54-79 | there are never more concerns than lines |
| StatusComment.IsLatestStatus | scripts/add_unresolved_concerns_to_proposals.py:31-36 | comment `i` is a status comment and no later comment is one |
| StatusComment.GetStatusComment | scripts/add_unresolved_concerns_to_proposals.py:19-38 | returns the most recent comment that starts with "Team member @" and was written by the bot, or none exactly when no comment qualifies |
| StatusComment.Unresolved | scripts/add_unresolved_concerns_to_proposals.py:121 | keeps exactly the concerns whose resolved flag is false |
| StatusComment.ShouldAddUnresolvedLabel | scripts/add_unresolved_concerns_to_proposals.py:114-125 | the label is added if and only if the latest status comment decodes to at least one unresolved concern |
| StatusComment.LabelledNumbers | scripts/add_unresolved_concerns_to_proposals.py:112-125 | the numbers of the proposals that need the label, in proposal order |
| StatusComment.LabelProposals | scripts/add_unresolved_concerns_to_proposals.py:112-128 | the script's loop labels exactly the proposals that need the label, in order |
| FcpTimers.DiskImage | fcp_timers.py:104-106 | the saved object has the table's keys, each mapped to its job's run time |
| FcpTimers.DiskImageOfOverwrite | fcp_timers.py:81-84 | overwriting a timer changes only its own entry in the saved object |
| FcpTimers.DiskImageOfRemoval | fcp_timers.py:98-99 | removing a timer removes exactly its entry from the saved object |
| FcpTimers.FcpTimers.constructor | fcp_timers.py:43-72 | with no file, the table is empty and `{}` is written; otherwise there is one timer per stored entry, with its stored time, and the file is unchanged; in both cases the scheduler holds exactly one job per timer and nothing else; the table invariant holds |
| FcpTimers.FcpTimers.NewTimer | fcp_timers.py:74-84 | schedules a fresh job, overwrites the entry for the number and leaves the others untouched; the replaced job stays scheduled; the file gains or changes exactly that entry |
| FcpTimers.FcpTimers.CancelTimerForProposalNum | fcp_timers.py:86-99 | raises `ProposalNotInFCP` exactly when the number has no timer, and then changes nothing; otherwise it removes exactly that timer and its job and saves |
| FcpTimers.FcpTimers.SaveTimersToDisk | fcp_timers.py:101-110 | the file becomes the saved object of the current table |
| FcpTimers.FcpTimers.RunCallback | fcp_timers.py:112-115 | cancels first, then calls the callback with the number, at a moment when the file no longer holds it; when the cancel raises, no callback runs |
| FcpTimers.FcpTimers.Fire | fcp_timers.py:77-78 | a fired job leaves the scheduler and runs `_run_callback` with its proposal number; when that run raises, nothing but the scheduler changes |
| FcpTimers.OverwrittenJobEndsCurrentTimer | fcp_timers.py:77-81 | a timer overwritten by `new_timer` keeps its job; when that earlier job fires, it ends the timer that replaced it |
| Webhook.HasLabel | webhook.py:95-101 | true exactly when some label record's name equals the label name |
| Webhook.IssueHasLabel | webhook.py:95-101 | `_issue_has_label` is membership of the label name among the issue's label names |
| Webhook.IsMember | webhook.py:103-110 | true exactly when the login is on the roster |
| Webhook.CommentBelongsToTeamMember | webhook.py:103-110 | true exactly when the sender is on the team |
| Webhook.IssueOf | webhook.py:80 | the `"issue"` entry when present, otherwise `"pull_request"` |
| Webhook.ProcessComment | webhook.py:68-93 | the bot's own comments are dropped first. An event with neither record raises. Otherwise the event is dropped without the proposal label, then dropped for a sender off the team, and dispatched unchanged exactly when all checks pass |
| Webhook.OwnCommentsNeverDispatched | webhook.py:71-77 | the bot's own comments are never dispatched, even when the bot is on the roster |
| Webhook.PullRequestIgnoredBesideIssue | webhook.py:80 | a `"pull_request"` entry next to an `"issue"` entry never affects the decision |

## Left out

- The empty handlers `_command_review`, `_command_concern` and `_command_resolve` are modelled as doing nothing. `_parse_status_comment`, `_post_or_update_status_comment` and `_is_proposal_in_fcp_proposed` are not modelled: nothing in the core calls them. `_get_concerns_for_proposal` is called at line 150 without its `proposal` argument, so that call raises `TypeError`; its body, which returns `[]`, is therefore never reached. The call comes after the point where the model stops.
- `_attempt_disposition` after its two guards (147-172) refers to undefined names (`comment_author`, `team_votes`, `proposal`) and renders a Jinja2 template. The model ends the event there with the `UnfinishedDisposition` failure. Votes, thresholds, automatic FCP start and disposition labels do not exist in the code and are not invented.
- GitHub API calls (`get_issue`, `create_comment`, `set_labels`, `add_to_labels`, `get_comments`, `get_members`) are recorded in logs on the handler object (`fetched`, `posted`, `labelWrites`) or returned as values. The network is not modelled.
- `handle_comment` reads the body from `comment["comment"]["body"]`. The model's payload carries that body directly. A payload without `"issue"` is the `MissingIssue` failure. The webhook also forwards review comments that carry only `"pull_request"`. Those that hold a command end in `MissingIssue`; those with no command return before `comment["issue"]` is read (`Completed`), and those with a blank line raise first (`ParseFailure`).
- `self.proposal_labels` holds label records in the source. The model keeps only their names, and membership tests compare names. As written, the `in` tests at command_handler.py:135 and :140 compare a string with records and are always false; the model does not reproduce that, so it does not capture that every disposition passes both guards.
- CommandHandling.CommandHandler.CommandFcp: `parameters.pop(0)` also removes the first parameter from the caller's list. The model reads the first parameter and does not model that mutation, because nothing reads the list afterwards.
- Logging (`log.debug`, `log.info`, `log.error`) and the truncated text that `_post_comment` logs are left out.
- ConcernFormat.PercentFrom: Python `%` directives other than `%s` and `%%` are one `OtherDirective` error rather than each conversion's real behaviour.
- StatusComment.Lower lower-cases ASCII letters only. No other character lower-cases to a letter of `concerns:`, so the marker test is unaffected.
- FcpTimers.FcpTimers.constructor: the reloaded timers are visited in any order, by picking any remaining key. Python dictionaries and `json.loads` keep the order of the file, so this over-approximates the source's order. Only the final table is specified, not the order of the job identifiers.
- FcpTimers: the scheduler's background thread, real firing times, `datetime.fromtimestamp` and `.timestamp()` floats are all left out. Times are whole seconds (`int`), and a job fires only when the model calls `Fire`. Job identifiers are a counter rather than UUIDs. File I/O and malformed JSON are left out; the file is a ghost map. Reloaded JSON keys are strings in the source but integers in the model.
- FcpTimers.FcpTimers.Fire: the model does not track what the callback itself does.
- FcpTimers.FcpTimers.constructor: crashes are not modelled. During a reload, each `new_timer` call (57-64) saves the partly rebuilt table, and the constructor's loop invariant states that the file then holds only the entries visited so far. A crash part-way through a reload would therefore lose the entries not yet visited; the model states the invariant but not the crash.
- The Flask/waitress server and webhook signature handling in `webhook.py` (41-66) are left out, and so is the script's `main` environment: login, progress bar and prints.
- `github_scraper.py`, `storage.py`, `config.py`, `mscbot.py`, `setup.py`, `github_bot.py` and `errors.py` are not part of this model. They hold database I/O, configuration bootstrap, packaging, empty stubs and exception classes.

## Findings

All three rows are about the text of `_format_concerns` (192-206). They are
latent. No code path reaches that function: its only caller is line 151 in
`_attempt_disposition`, and control never gets there, since the call at 150
raises `TypeError` and the module does not parse because of line 172. Each
row describes what the function's text does when it is called directly.

| source | as written | input that shows it | evidently intended | confidence | as-written member | corrected member |
|---|---|---|---|---|---|---|
| command_handler.py:200-203 | resolved concerns render as `* X` and unresolved ones as `* ~~X~~` | `[("a", True)]` renders `* a`, which the script decodes as `("a", False)` | resolved concerns are struck through, as the docstring (184-190) and the decoder say | not executed | ConcernFormat.StrikeThroughInverted | ConcernFormat.RenderIntended |
| command_handler.py:199-205 | no newline between bullets | `[("a", False), ("b", False)]` renders `* ~~a~~* ~~b~~` on one line, which decodes as `("a~~* ~~b", True)` | one bullet per line | not executed | ConcernFormat.BulletsRunTogether | ConcernFormat.RenderIntended |
| command_handler.py:205 | `%` is applied to the whole accumulated text at every step | `[("50%%", True), ("b", True)]` renders `* 50%* b`; `[("%s", True), ("b", True)]` raises "not enough arguments" | each concern text is substituted once, verbatim | not executed | ConcernFormat.PercentReapplied | ConcernFormat.RenderIntended |
