/** Reading the bot's status comment (`scripts/add_unresolved_concerns_to_proposals.py`):
    finding the latest status comment of a proposal, decoding its concern
    list, and deciding whether the proposal gets the `unresolved-concerns`
    label. */
module StatusComment {
  import opened Wrappers
  import opened Text
  import opened Github

  /** A concern of a status comment: its text and whether it is resolved. */
  datatype Concern = Concern(text: string, resolved: bool)

  /** ASCII lower-casing of one character. */
  function LowerChar(c: char): char {
    if 'A' <= c <= 'Z' then (c as int + 32) as char else c
  }

  /** `s.lower()`, for the characters that can decide the marker test below:
      no character outside ASCII lower-cases to one of the letters of
      `concerns:`, so non-ASCII characters are kept as they are. */
  function Lower(s: string): (r: string)
    ensures |r| == |s|
  {
    seq(|s|, i requires 0 <= i < |s| => LowerChar(s[i]))
  }

  /** The line that opens the concern list: `line.lower().startswith("concerns:")`. */
  predicate IsMarker(line: string) {
    StartsWith(Lower(line), "concerns:")
  }

  /** A `~~` starts at position `k` of `s`. */
  predicate TildesAt(s: string, k: int) {
    0 <= k && k + 1 < |s| && s[k] == '~' && s[k + 1] == '~'
  }

  /** Where the regular expression's `.` stops matching: the first newline, or
      the end of the line. */
  function MatchEnd(s: string): (e: nat)
    ensures e <= |s| && '\n' !in s[..e]
    ensures e < |s| ==> s[e] == '\n'
  {
    if '\n' in s then IndexOf(s, '\n') else |s|
  }

  /** The largest `k` with `lo <= k <= hi` at which `~~` starts. */
  function LastTildes(s: string, lo: nat, hi: int): (r: Option<nat>)
    requires hi + 1 < |s|
    ensures r.Some? ==> lo <= r.value <= hi && TildesAt(s, r.value)
    ensures r.Some? ==> forall j :: r.value < j <= hi ==> !TildesAt(s, j)
    ensures r.None? ==> forall j :: lo <= j <= hi ==> !TildesAt(s, j)
    decreases hi - lo + 1
  {
    if hi < lo then None
    else if TildesAt(s, hi) then Some(hi)
    else LastTildes(s, lo, hi - 1)
  }

  /** The prefix the pattern `^[*|-] ~~` demands. */
  predicate StrikePrefix(line: string) {
    |line| >= 4 && (line[0] == '*' || line[0] == '|' || line[0] == '-') && line[1..4] == " ~~"
  }

  /** `re.match(r"^[*|-] ~~(.+)~~.*", line)`: group `1`, or `None` when the line
      does not match. The greedy group runs from position 4 up to the last
      `~~` that starts at position 5 or later, within the first line of `line`. */
  function StrikeMatch(line: string): (g: Option<string>)
    ensures g.Some? <==>
      StrikePrefix(line) && exists k :: 5 <= k && k + 2 <= MatchEnd(line) && TildesAt(line, k)
    ensures g.Some? ==>
      exists k :: 5 <= k && k + 2 <= MatchEnd(line) && TildesAt(line, k) && g.value == line[4..k]
        && forall j :: k < j && j + 2 <= MatchEnd(line) ==> !TildesAt(line, j)
    ensures g.Some? ==> |g.value| >= 1
  {
    if !StrikePrefix(line) then None
    else
      var e := MatchEnd(line);
      if e < 7 then
        None
      else
        match LastTildes(line, 5, e - 2)
        case None => None
        case Some(k) => Some(line[4..k])
  }

  /** `line.startswith("* ") or line.startswith("- ")` */
  predicate IsBullet(line: string) {
    StartsWith(line, "* ") || StartsWith(line, "- ")
  }

  /** `line.startswith("* ~~") or line.startswith("- ~~")` */
  predicate IsStruckBullet(line: string) {
    StartsWith(line, "* ~~") || StartsWith(line, "- ~~")
  }

  /** The concern a line after the marker yields: a struck-through bullet gives
      the regular expression's group as a resolved concern (nothing when the
      expression fails), any other bullet its text after the two-character
      prefix as an unresolved one, and a line that is no bullet nothing. */
  function ConcernOfLine(line: string): (c: Option<Concern>)
    ensures c.Some? ==> IsBullet(line)
    ensures IsMarker(line) ==> c.None?
    ensures IsStruckBullet(line) ==>
      c == match StrikeMatch(line) case None => None case Some(t) => Some(Concern(t, true))
    ensures IsBullet(line) && !IsStruckBullet(line) ==> c == Some(Concern(line[2..], false))
  {
    assert IsMarker(line) ==> Lower(line)[0] == 'c';
    if IsBullet(line) then
      if IsStruckBullet(line) then
        match StrikeMatch(line)
        case None => None
        case Some(t) => Some(Concern(t, true))
      else
        Some(Concern(line[2..], false))
    else
      None
  }

  function Contribution(c: Option<Concern>): seq<Concern> {
    match c case None => [] case Some(x) => [x]
  }

  /** The concerns of `lines`, with `past` telling whether the marker was seen
      before them; the marker line itself sets the flag before it is examined. */
  function DecodeFrom(lines: seq<string>, past: bool): seq<Concern> {
    if |lines| == 0 then []
    else LineConcerns(lines[0], past) + DecodeFrom(lines[1..], past || IsMarker(lines[0]))
  }

  /** What one line adds, with `past` telling whether the marker was seen
      before it. */
  function LineConcerns(line: string, past: bool): seq<Concern> {
    if past || IsMarker(line) then Contribution(ConcernOfLine(line)) else []
  }

  /** The concern list a status comment body encodes. */
  function DecodeConcerns(body: string): seq<Concern> {
    DecodeFrom(Split(body, '\n'), false)
  }

  /** The concerns of every line, in line order, taken as all being after the marker. */
  function EveryLineConcerns(lines: seq<string>): seq<Concern> {
    if |lines| == 0 then [] else Contribution(ConcernOfLine(lines[0])) + EveryLineConcerns(lines[1..])
  }

  /** `_parse_concerns_from_status_comment_body`. */
  method ParseConcernsFromStatusCommentBody(body: string) returns (concerns: seq<Concern>)
    ensures concerns == DecodeConcerns(body)
  {
    var lines := Split(body, '\n');
    concerns := [];
    var pastTaggedPeopleList := false;
    var i := 0;
    while i < |lines|
      invariant 0 <= i <= |lines|
      invariant DecodeFrom(lines, false) == concerns + DecodeFrom(lines[i..], pastTaggedPeopleList)
    {
      var line := lines[i];
      ghost var before, past := concerns, pastTaggedPeopleList;
      if IsMarker(line) {
        pastTaggedPeopleList := true;
      }
      if !pastTaggedPeopleList {
        Advance(lines, i, past, before, concerns);
        i := i + 1;
        continue;
      }
      if IsBullet(line) {
        if IsStruckBullet(line) {
          var m := StrikeMatch(line);
          if m.None? {
            Advance(lines, i, past, before, concerns);
            i := i + 1;
            continue;
          }
          concerns := concerns + [Concern(m.value, true)];
        } else {
          concerns := concerns + [Concern(line[2..], false)];
        }
      }
      Advance(lines, i, past, before, concerns);
      i := i + 1;
    }
    assert lines[i..] == [];
  }

  /** One step of the loop above: the concerns found so far grow by what the
      line adds. */
  lemma Advance(lines: seq<string>, i: nat, past: bool, before: seq<Concern>, after: seq<Concern>)
    requires i < |lines|
    requires DecodeFrom(lines, false) == before + DecodeFrom(lines[i..], past)
    requires after == before + LineConcerns(lines[i], past)
    ensures DecodeFrom(lines, false) == after + DecodeFrom(lines[i + 1..], past || IsMarker(lines[i]))
  {
    assert lines[i..][1..] == lines[i + 1..];
  }

  /** A line before the first marker never yields a concern. */
  lemma {:induction false} NothingBeforeMarker(pre: seq<string>, post: seq<string>)
    requires forall k :: 0 <= k < |pre| ==> !IsMarker(pre[k])
    ensures DecodeFrom(pre + post, false) == DecodeFrom(post, false)
  {
    if |pre| > 0 {
      assert (pre + post)[1..] == pre[1..] + post;
      NothingBeforeMarker(pre[1..], post);
    } else {
      assert pre + post == post;
    }
  }

  /** Once the marker is seen it stays in force: every later line is read as
      a possible concern, whatever it holds. */
  lemma {:induction false} MarkerStaysInForce(lines: seq<string>)
    ensures DecodeFrom(lines, true) == EveryLineConcerns(lines)
  {
    if |lines| > 0 {
      MarkerStaysInForce(lines[1..]);
    }
  }

  /** The concerns of a body are those of the lines after its first marker,
      in line order. */
  lemma DecodeAfterFirstMarker(pre: seq<string>, marker: string, post: seq<string>)
    requires forall k :: 0 <= k < |pre| ==> !IsMarker(pre[k])
    requires IsMarker(marker)
    ensures DecodeFrom(pre + [marker] + post, false) == EveryLineConcerns(post)
  {
    assert pre + [marker] + post == pre + ([marker] + post);
    NothingBeforeMarker(pre, [marker] + post);
    assert ([marker] + post)[1..] == post;
    MarkerStaysInForce(post);
  }

  /** Line order is kept: the concerns of two blocks of lines are those of
      the first block followed by those of the second. */
  lemma {:induction false} EveryLineConcernsAppend(a: seq<string>, b: seq<string>)
    ensures EveryLineConcerns(a + b) == EveryLineConcerns(a) + EveryLineConcerns(b)
  {
    if |a| > 0 {
      assert (a + b)[1..] == a[1..] + b;
      EveryLineConcernsAppend(a[1..], b);
    } else {
      assert a + b == b;
    }
  }

  /** At most one concern per line. */
  lemma {:induction false} AtMostOneConcernPerLine(lines: seq<string>, past: bool)
    ensures |DecodeFrom(lines, past)| <= |lines|
  {
    if |lines| > 0 {
      AtMostOneConcernPerLine(lines[1..], past || IsMarker(lines[0]));
    }
  }

  /** The preamble every status comment starts with. */
  const StatusPreamble := "Team member @"

  /** A comment is a status comment when it starts with the preamble and the
      bot wrote it. */
  predicate IsStatusComment(c: Comment, botLogin: string) {
    StartsWith(c.body, StatusPreamble) && c.author == botLogin
  }

  /** Comment `i` is the most recent status comment of the list. */
  predicate IsLatestStatus(comments: seq<Comment>, botLogin: string, i: int) {
    0 <= i < |comments| && IsStatusComment(comments[i], botLogin)
    && forall j :: i < j < |comments| ==> !IsStatusComment(comments[j], botLogin)
  }

  /** `_get_status_comment`: the position of the most recent status comment,
      searching from the newest comment back, or `None` if there is none. */
  method GetStatusComment(comments: seq<Comment>, botLogin: string) returns (r: Option<nat>)
    ensures r.Some? ==> IsLatestStatus(comments, botLogin, r.value)
    ensures r.None? <==> forall j :: 0 <= j < |comments| ==> !IsStatusComment(comments[j], botLogin)
  {
    var i := |comments|;
    while i > 0
      invariant 0 <= i <= |comments|
      invariant forall j :: i <= j < |comments| ==> !IsStatusComment(comments[j], botLogin)
    {
      i := i - 1;
      if IsStatusComment(comments[i], botLogin) {
        return Some(i);
      }
    }
    return None;
  }

  /** `[c for c in concerns if c[1] is False]` */
  function Unresolved(concerns: seq<Concern>): (r: seq<Concern>)
    ensures forall c :: c in r <==> c in concerns && !c.resolved
  {
    if |concerns| == 0 then []
    else (if concerns[0].resolved then [] else [concerns[0]]) + Unresolved(concerns[1..])
  }

  /** The proposal needs the `unresolved-concerns` label: its latest status
      comment decodes to at least one unresolved concern. */
  ghost predicate NeedsUnresolvedLabel(comments: seq<Comment>, botLogin: string) {
    exists i :: IsLatestStatus(comments, botLogin, i)
      && exists c :: c in DecodeConcerns(comments[i].body) && !c.resolved
  }

  /** The labelling decision of the script's `main` for one proposal. */
  method ShouldAddUnresolvedLabel(comments: seq<Comment>, botLogin: string) returns (addLabel: bool)
    ensures addLabel <==> NeedsUnresolvedLabel(comments, botLogin)
  {
    var statusComment := GetStatusComment(comments, botLogin);
    if statusComment.None? {
      return false;
    }
    var i := statusComment.value;
    var concerns := ParseConcernsFromStatusCommentBody(comments[i].body);
    var unresolvedConcerns := Unresolved(concerns);
    addLabel := |unresolvedConcerns| > 0;
    if addLabel {
      assert unresolvedConcerns[0] in unresolvedConcerns;
    }
  }

  /** A proposal as the script sees it: its number and its comments, oldest first. */
  datatype Proposal = Proposal(number: int, comments: seq<Comment>)

  /** The numbers of the proposals that get the label, in order. */
  ghost function LabelledNumbers(proposals: seq<Proposal>, botLogin: string): seq<int> {
    if |proposals| == 0 then []
    else
      var n := |proposals| - 1;
      LabelledNumbers(proposals[..n], botLogin)
        + if NeedsUnresolvedLabel(proposals[n].comments, botLogin) then [proposals[n].number] else []
  }

  /** The loop of the script's `main`: every proposal whose decision is yes
      gets the label (`add_to_labels` calls, in order). */
  method LabelProposals(proposals: seq<Proposal>, botLogin: string) returns (labelled: seq<int>)
    ensures labelled == LabelledNumbers(proposals, botLogin)
  {
    labelled := [];
    var i := 0;
    while i < |proposals|
      invariant 0 <= i <= |proposals|
      invariant labelled == LabelledNumbers(proposals[..i], botLogin)
    {
      assert proposals[..i + 1][..i] == proposals[..i];
      var addLabel := ShouldAddUnresolvedLabel(proposals[i].comments, botLogin);
      if addLabel {
        labelled := labelled + [proposals[i].number];
      }
      i := i + 1;
    }
    assert proposals[..i] == proposals;
  }
}
