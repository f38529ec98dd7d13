/** Extraction of bot commands from the text of a comment
    (`CommandHandler._parse_commands_from_text`). */
module CommandParser {
  import opened Text

  /** One command addressed to the bot: its name and its parameters. */
  datatype Command = Command(name: string, params: seq<string>)

  /** The two ways a line makes the parser raise `IndexError`: a blank line
      leaves nothing for `words.pop(0)`, and a line holding only the bot's
      handle leaves nothing for `words[0]`. */
  datatype LineError = BlankLine | MissingCommandName

  /** The parse of a whole comment: its commands, or the index of the line
      that raised and why. The exception discards every command found so far. */
  datatype ParseResult = Parsed(commands: seq<Command>) | Failed(line: nat, error: LineError)

  /** What a single line contributes. */
  datatype LineOutcome = NoCommand | OneCommand(command: Command) | LineFails(error: LineError)

  /** The handle a command line starts with: `"@" + login`. */
  function Handle(botLogin: string): string {
    "@" + botLogin
  }

  /** One line of the comment: split on whitespace, compare the first word
      with the handle, and take the second word as the name and the rest as
      parameters. */
  function ParseLine(line: string, handle: string): (o: LineOutcome)
    ensures o == LineFails(BlankLine) <==> IsBlank(line)
    ensures o == LineFails(MissingCommandName) <==> Words(line) == [handle]
    ensures o.OneCommand? <==> |Words(line)| >= 2 && Words(line)[0] == handle
    ensures o.OneCommand? ==> o.command == Command(Words(line)[1], Words(line)[2..])
  {
    var words := Words(line);
    WordsEmptyIffBlank(line);
    if |words| == 0 then LineFails(BlankLine)
    else if words[0] == handle then
      if |words| == 1 then LineFails(MissingCommandName)
      else OneCommand(Command(words[1], words[2..]))
    else NoCommand
  }

  /** The parse of a list of lines, line by line from the first. */
  function ParseLines(lines: seq<string>, handle: string): ParseResult
  {
    if |lines| == 0 then Parsed([])
    else
      var n := |lines| - 1;
      match ParseLines(lines[..n], handle)
      case Failed(i, e) => Failed(i, e)
      case Parsed(cs) =>
        match ParseLine(lines[n], handle)
        case NoCommand => Parsed(cs)
        case OneCommand(c) => Parsed(cs + [c])
        case LineFails(e) => Failed(n, e)
  }

  /** The indices of the lines that carry a command, in increasing order. */
  function CommandLines(lines: seq<string>, handle: string): seq<nat>
  {
    if |lines| == 0 then []
    else
      var n := |lines| - 1;
      CommandLines(lines[..n], handle) + if ParseLine(lines[n], handle).OneCommand? then [n] else []
  }

  /** The command lines are exactly the lines whose first word is the
      handle and that name a command, listed in increasing order. */
  lemma {:induction false} CommandLinesExact(lines: seq<string>, handle: string)
    ensures forall k :: 0 <= k < |CommandLines(lines, handle)| ==>
      CommandLines(lines, handle)[k] < |lines| && ParseLine(lines[CommandLines(lines, handle)[k]], handle).OneCommand?
    ensures forall k, l :: 0 <= k < l < |CommandLines(lines, handle)| ==>
      CommandLines(lines, handle)[k] < CommandLines(lines, handle)[l]
    ensures forall i :: 0 <= i < |lines| && ParseLine(lines[i], handle).OneCommand? ==> i in CommandLines(lines, handle)
  {
    if |lines| > 0 {
      var n := |lines| - 1;
      var pre := lines[..n];
      CommandLinesExact(pre, handle);
      var prefix := CommandLines(pre, handle);
      var idx := CommandLines(lines, handle);
      assert idx == prefix + if ParseLine(lines[n], handle).OneCommand? then [n] else [];
      forall k | 0 <= k < |prefix|
        ensures idx[k] == prefix[k] < n && lines[prefix[k]] == pre[prefix[k]]
      {
      }
      forall i | 0 <= i < n
        ensures lines[i] == pre[i]
      {
      }
    }
  }

  /** `_parse_commands_from_text`: the lines are `text.split("\n")`; a line
      whose first word is the handle yields `(second word, remaining words)`,
      any other non-blank line yields nothing, and a blank or handle-only
      line raises. */
  method ParseCommandsFromText(text: string, botLogin: string) returns (r: ParseResult)
    ensures r == ParseLines(Split(text, '\n'), Handle(botLogin))
  {
    var handle := Handle(botLogin);
    var lines := Split(text, '\n');
    var commands: seq<Command> := [];
    var i := 0;
    while i < |lines|
      invariant 0 <= i <= |lines|
      invariant ParseLines(lines[..i], handle) == Parsed(commands)
    {
      assert lines[..i + 1][..i] == lines[..i];
      var words := Words(lines[i]);
      if |words| == 0 {
        FailureSticks(lines, i + 1, handle);
        return Failed(i, BlankLine);
      }
      var firstWord := words[0];
      words := words[1..];
      if firstWord == handle {
        if |words| == 0 {
          FailureSticks(lines, i + 1, handle);
          return Failed(i, MissingCommandName);
        }
        commands := commands + [Command(words[0], words[1..])];
      }
      i := i + 1;
    }
    assert lines[..i] == lines;
    r := Parsed(commands);
  }

  /** Once a prefix of the lines has raised, no later line matters. */
  lemma {:induction false} FailureSticks(lines: seq<string>, k: nat, handle: string)
    requires k <= |lines|
    requires ParseLines(lines[..k], handle).Failed?
    ensures ParseLines(lines, handle) == ParseLines(lines[..k], handle)
  {
    if k < |lines| {
      var n := |lines| - 1;
      assert lines[..n][..k] == lines[..k];
      FailureSticks(lines[..n], k, handle);
    } else {
      assert lines[..k] == lines;
    }
  }

  /** The parse fails exactly when some line is blank or holds only the
      handle, and then it reports the first such line. */
  lemma {:induction false} ParseFailsAtFirstBadLine(lines: seq<string>, handle: string)
    ensures ParseLines(lines, handle).Failed? <==>
      exists i :: 0 <= i < |lines| && ParseLine(lines[i], handle).LineFails?
    ensures ParseLines(lines, handle).Failed? ==>
      var i := ParseLines(lines, handle).line;
      && i < |lines|
      && ParseLine(lines[i], handle) == LineFails(ParseLines(lines, handle).error)
      && forall j :: 0 <= j < i ==> !ParseLine(lines[j], handle).LineFails?
  {
    if |lines| > 0 {
      var n := |lines| - 1;
      ParseFailsAtFirstBadLine(lines[..n], handle);
      assert forall j :: 0 <= j < n ==> lines[j] == lines[..n][j];
    }
  }

  /** On success there is exactly one command per command line, in line order:
      the k-th command comes from the k-th line whose first word is the handle. */
  lemma {:induction false} ParsedCommandsFollowCommandLines(lines: seq<string>, handle: string)
    requires ParseLines(lines, handle).Parsed?
    ensures |ParseLines(lines, handle).commands| == |CommandLines(lines, handle)|
    ensures forall k :: 0 <= k < |CommandLines(lines, handle)| ==>
      CommandLines(lines, handle)[k] < |lines| &&
      ParseLine(lines[CommandLines(lines, handle)[k]], handle) == OneCommand(ParseLines(lines, handle).commands[k])
  {
    if |lines| > 0 {
      var n := |lines| - 1;
      var pre := lines[..n];
      ParsedCommandsFollowCommandLines(pre, handle);
      var cs0 := ParseLines(pre, handle).commands;
      var idx0 := CommandLines(pre, handle);
      var cs := ParseLines(lines, handle).commands;
      var idx := CommandLines(lines, handle);
      match ParseLine(lines[n], handle)
      case NoCommand =>
        assert cs == cs0 && idx == idx0;
        forall k | 0 <= k < |idx|
          ensures idx[k] < |lines| && ParseLine(lines[idx[k]], handle) == OneCommand(cs[k])
        {
          assert lines[idx0[k]] == pre[idx0[k]];
        }
      case OneCommand(c) =>
        assert cs == cs0 + [c] && idx == idx0 + [n];
        forall k | 0 <= k < |idx|
          ensures idx[k] < |lines| && ParseLine(lines[idx[k]], handle) == OneCommand(cs[k])
        {
          if k < |idx0| {
            assert idx[k] == idx0[k] && cs[k] == cs0[k];
            assert lines[idx0[k]] == pre[idx0[k]];
          }
        }
    }
  }

  /** A comment never yields more commands than it has lines. */
  lemma ParsedCommandsAtMostLines(lines: seq<string>, handle: string)
    requires ParseLines(lines, handle).Parsed?
    ensures |ParseLines(lines, handle).commands| <= |lines|
  {
    ParsedCommandsFollowCommandLines(lines, handle);
    CommandLinesExact(lines, handle);
    var idx := CommandLines(lines, handle);
    StrictlyIncreasingBounded(idx, |lines|);
  }

  lemma {:induction false} StrictlyIncreasingBounded(idx: seq<nat>, n: nat)
    requires forall k :: 0 <= k < |idx| ==> idx[k] < n
    requires forall k, l :: 0 <= k < l < |idx| ==> idx[k] < idx[l]
    ensures |idx| <= n
  {
    if |idx| > 0 {
      var m := |idx| - 1;
      StrictlyIncreasingBounded(idx[..m], idx[m]);
    }
  }
}
