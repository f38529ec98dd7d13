/** `CommandHandler._format_concerns`: the markdown list of concerns that goes
    into a status comment, as the source writes it, and the renderer its
    docstring and the status-comment decoder call for. */
module ConcernFormat {
  import opened Wrappers
  import opened Text
  import opened StatusComment

  /** The concerns with the given resolved flag, in their original order. */
  function WithFlag(cs: seq<Concern>, resolved: bool): (r: seq<Concern>)
    ensures |r| <= |cs|
    ensures forall k :: 0 <= k < |r| ==> r[k].resolved == resolved
  {
    if |cs| == 0 then []
    else
      var n := |cs| - 1;
      WithFlag(cs[..n], resolved) + if cs[n].resolved == resolved then [cs[n]] else []
  }

  /** `concerns.sort(key=lambda x: x[1], reverse=True)`: a stable sort that
      puts the resolved concerns first. */
  function ResolvedFirst(cs: seq<Concern>): seq<Concern> {
    WithFlag(cs, true) + WithFlag(cs, false)
  }

  /** The order the docstring shows: unresolved concerns first, then resolved. */
  function UnresolvedFirst(cs: seq<Concern>): seq<Concern> {
    WithFlag(cs, false) + WithFlag(cs, true)
  }

  lemma {:induction false} WithFlagAppend(a: seq<Concern>, b: seq<Concern>, resolved: bool)
    ensures WithFlag(a + b, resolved) == WithFlag(a, resolved) + WithFlag(b, resolved)
  {
    if |b| == 0 {
      assert a + b == a;
    } else {
      var n := |b| - 1;
      assert (a + b)[..|a| + n] == a + b[..n];
      WithFlagAppend(a, b[..n], resolved);
    }
  }

  lemma {:induction false} WithFlagsArePermutation(cs: seq<Concern>)
    ensures multiset(WithFlag(cs, true)) + multiset(WithFlag(cs, false)) == multiset(cs)
  {
    if |cs| > 0 {
      var n := |cs| - 1;
      var pre, c := cs[..n], cs[n];
      WithFlagsArePermutation(pre);
      assert cs == pre + [c];
      assert multiset(cs) == multiset(pre) + multiset{c};
      var t0, f0 := WithFlag(pre, true), WithFlag(pre, false);
      if c.resolved {
        assert WithFlag(cs, true) == t0 + [c] && WithFlag(cs, false) == f0 + [];
        assert multiset(t0 + [c]) == multiset(t0) + multiset{c};
        assert f0 + [] == f0;
      } else {
        assert WithFlag(cs, true) == t0 + [] && WithFlag(cs, false) == f0 + [c];
        assert multiset(f0 + [c]) == multiset(f0) + multiset{c};
        assert t0 + [] == t0;
      }
    }
  }

  lemma {:induction false} WithFlagsLength(cs: seq<Concern>)
    ensures |WithFlag(cs, true)| + |WithFlag(cs, false)| == |cs|
  {
    if |cs| > 0 {
      WithFlagsLength(cs[..|cs| - 1]);
    }
  }

  lemma {:induction false} WithFlagOfUniform(cs: seq<Concern>, resolved: bool)
    requires forall k :: 0 <= k < |cs| ==> cs[k].resolved == resolved
    ensures WithFlag(cs, resolved) == cs && WithFlag(cs, !resolved) == []
  {
    if |cs| > 0 {
      var n := |cs| - 1;
      WithFlagOfUniform(cs[..n], resolved);
      assert cs == cs[..n] + [cs[n]];
    }
  }

  /** The sort is a permutation, puts every resolved concern before every
      unresolved one, and is stable: within each class the original order
      is kept. */
  lemma ResolvedFirstIsStableSort(cs: seq<Concern>)
    ensures multiset(ResolvedFirst(cs)) == multiset(cs)
    ensures forall i, j :: 0 <= i < j < |ResolvedFirst(cs)| && !ResolvedFirst(cs)[i].resolved ==>
      !ResolvedFirst(cs)[j].resolved
    ensures WithFlag(ResolvedFirst(cs), true) == WithFlag(cs, true)
    ensures WithFlag(ResolvedFirst(cs), false) == WithFlag(cs, false)
  {
    var t, f := WithFlag(cs, true), WithFlag(cs, false);
    WithFlagsArePermutation(cs);
    WithFlagAppend(t, f, true);
    WithFlagAppend(t, f, false);
    WithFlagOfUniform(t, true);
    WithFlagOfUniform(f, false);
  }

  /** The ways Python's `%` operator fails on a format string with one string
      argument; `OtherDirective` stands for every conversion other than `%s`
      and `%%`. */
  datatype FormatError = NotEnoughArguments | NotAllConverted | IncompleteFormat | OtherDirective(c: char)

  /** A rendered text, or the exception raised while rendering it. */
  datatype Rendered = Rendered(text: string) | FormatFailed(error: FormatError)

  function Prepend(p: string, r: Rendered): Rendered {
    match r
    case Rendered(t) => Rendered(p + t)
    case FormatFailed(e) => r
  }

  /** `fmt % arg` from `fmt`'s current position on, `used` telling whether the
      one argument was already taken. */
  function PercentFrom(fmt: string, arg: string, used: bool): Rendered
    decreases |fmt|
  {
    if |fmt| == 0 then (if used then Rendered("") else FormatFailed(NotAllConverted))
    else if fmt[0] != '%' then Prepend([fmt[0]], PercentFrom(fmt[1..], arg, used))
    else if |fmt| == 1 then FormatFailed(IncompleteFormat)
    else if fmt[1] == '%' then Prepend("%", PercentFrom(fmt[2..], arg, used))
    else if fmt[1] == 's' then
      if used then FormatFailed(NotEnoughArguments) else Prepend(arg, PercentFrom(fmt[2..], arg, true))
    else FormatFailed(OtherDirective(fmt[1]))
  }

  /** `fmt % arg` for a string `arg`. */
  function Percent(fmt: string, arg: string): Rendered {
    PercentFrom(fmt, arg, false)
  }

  lemma PrependPrepend(a: string, b: string, r: Rendered)
    ensures Prepend(a, Prepend(b, r)) == Prepend(a + b, r)
  {
    if r.Rendered? {
      assert a + (b + r.text) == (a + b) + r.text;
    }
  }

  /** Text without `%` passes through the operator unchanged. */
  lemma {:induction false} PercentPlainPrefix(a: string, rest: string, arg: string, used: bool)
    requires '%' !in a
    ensures PercentFrom(a + rest, arg, used) == Prepend(a, PercentFrom(rest, arg, used))
  {
    if |a| == 0 {
      assert a + rest == rest;
    } else {
      assert (a + rest)[0] == a[0];
      assert (a + rest)[1..] == a[1..] + rest;
      PercentPlainPrefix(a[1..], rest, arg, used);
      PrependPrepend([a[0]], a[1..], PercentFrom(rest, arg, used));
      assert [a[0]] + a[1..] == a;
    }
  }

  /** With no other `%` around it, the operator replaces the one `%s` by the
      argument. */
  lemma PercentSubstitutesOnce(a: string, b: string, arg: string)
    requires '%' !in a && '%' !in b
    ensures Percent(a + "%s" + b, arg) == Rendered(a + arg + b)
  {
    Associative(a, "%s", b);
    PercentPlainPrefix(a, "%s" + b, arg, false);
    PercentTakesArgument(b, arg);
    PlainRest(b, arg);
    Associative(a, arg, b);
  }

  lemma PercentTakesArgument(r: string, arg: string)
    ensures PercentFrom("%s" + r, arg, false) == Prepend(arg, PercentFrom(r, arg, true))
  {
    assert ("%s" + r)[2..] == r;
  }

  lemma PlainRest(b: string, arg: string)
    requires '%' !in b
    ensures Prepend(arg, PercentFrom(b, arg, true)) == Rendered(arg + b)
  {
    PercentPlainPrefix(b, "", arg, true);
    assert b + "" == b;
  }

  /** The format piece the loop appends for a concern, as written: plain for a
      resolved concern, struck through for an unresolved one. */
  function Placeholder(c: Concern): string {
    if c.resolved then "* %s" else "* ~~%s~~"
  }

  const Header := "Concerns:\n\n"

  /** The loop of `_format_concerns` over `cs`: append the concern's piece to
      the text so far, then apply `%` with the concern's text to the whole. */
  function AccumulateAsWritten(cs: seq<Concern>): Rendered {
    if |cs| == 0 then Rendered(Header)
    else
      var n := |cs| - 1;
      match AccumulateAsWritten(cs[..n])
      case FormatFailed(e) => FormatFailed(e)
      case Rendered(t) => Percent(t + Placeholder(cs[n]), cs[n].text)
  }

  /** `_format_concerns` as written: empty for no concerns, otherwise the loop
      over the sorted list. */
  function FormatAsWritten(cs: seq<Concern>): Rendered {
    if |cs| == 0 then Rendered("") else AccumulateAsWritten(ResolvedFirst(cs))
  }

  lemma {:induction false} AccumulateStopsAtFailure(cs: seq<Concern>, k: nat)
    requires k <= |cs|
    requires AccumulateAsWritten(cs[..k]).FormatFailed?
    ensures AccumulateAsWritten(cs) == AccumulateAsWritten(cs[..k])
  {
    if k < |cs| {
      var n := |cs| - 1;
      assert cs[..n][..k] == cs[..k];
      AccumulateStopsAtFailure(cs[..n], k);
    } else {
      assert cs[..k] == cs;
    }
  }

  /** `concerns.sort(...)` on the caller's list. */
  method SortByResolved(a: array<Concern>)
    modifies a
    ensures a[..] == ResolvedFirst(old(a[..]))
  {
    ghost var original := a[..];
    var resolved: seq<Concern> := [];
    var unresolved: seq<Concern> := [];
    var i := 0;
    while i < a.Length
      invariant 0 <= i <= a.Length && a[..] == original
      invariant resolved == WithFlag(original[..i], true)
      invariant unresolved == WithFlag(original[..i], false)
    {
      assert original[..i + 1][..i] == original[..i];
      if a[i].resolved {
        resolved := resolved + [a[i]];
      } else {
        unresolved := unresolved + [a[i]];
      }
      i := i + 1;
    }
    assert original[..i] == original;
    var sorted := resolved + unresolved;
    WithFlagsLength(original);
    var j := 0;
    while j < a.Length
      invariant 0 <= j <= a.Length
      invariant forall k :: 0 <= k < j ==> a[k] == sorted[k]
    {
      a[j] := sorted[j];
      j := j + 1;
    }
    assert a[..] == sorted;
  }

  /** `_format_concerns`, with the side effect on its argument: the list is
      left sorted, resolved concerns first. */
  method FormatConcerns(concerns: array<Concern>) returns (r: Rendered)
    modifies concerns
    ensures r == FormatAsWritten(old(concerns[..]))
    ensures concerns[..] == if concerns.Length == 0 then old(concerns[..]) else ResolvedFirst(old(concerns[..]))
  {
    if concerns.Length == 0 {
      return Rendered("");
    }
    SortByResolved(concerns);
    var text := Header;
    var i := 0;
    while i < concerns.Length
      invariant 0 <= i <= concerns.Length
      invariant concerns[..] == ResolvedFirst(old(concerns[..]))
      invariant AccumulateAsWritten(concerns[..i]) == Rendered(text)
    {
      assert concerns[..i + 1][..i] == concerns[..i];
      var concern, resolved := concerns[i].text, concerns[i].resolved;
      if resolved {
        text := text + "* %s";
      } else {
        text := text + "* ~~%s~~";
      }
      var formatted := Percent(text, concern);
      if formatted.FormatFailed? {
        AccumulateStopsAtFailure(concerns[..], i + 1);
        assert concerns[..] == concerns[..][..concerns.Length];
        return formatted;
      }
      text := formatted.text;
      i := i + 1;
    }
    assert concerns[..i] == concerns[..];
    r := Rendered(text);
  }

  /** A concern's bullet as the loop produces it when no `%` gets in the way. */
  function BulletAsWritten(c: Concern): string {
    if c.resolved then "* " + c.text else "* ~~" + c.text + "~~"
  }

  /** The bullets of `cs`, run together without any separator. */
  function BulletsAsWritten(cs: seq<Concern>): string {
    if |cs| == 0 then ""
    else
      var n := |cs| - 1;
      BulletsAsWritten(cs[..n]) + BulletAsWritten(cs[n])
  }

  predicate PercentFree(cs: seq<Concern>) {
    forall k :: 0 <= k < |cs| ==> '%' !in cs[k].text
  }

  lemma {:induction false} BulletsWithoutPercent(cs: seq<Concern>)
    requires PercentFree(cs)
    ensures '%' !in BulletsAsWritten(cs)
  {
    if |cs| > 0 {
      BulletsWithoutPercent(cs[..|cs| - 1]);
    }
  }

  /** One step of the loop when neither the text so far nor the concern holds a `%`. */
  lemma StepWithoutPercent(t: string, c: Concern)
    requires '%' !in t && '%' !in c.text
    ensures Percent(t + Placeholder(c), c.text) == Rendered(t + BulletAsWritten(c))
  {
    if c.resolved {
      PercentSubstitutesOnce(t + "* ", "", c.text);
      assert t + "* " + "%s" + "" == t + Placeholder(c);
      assert t + "* " + c.text + "" == t + BulletAsWritten(c);
    } else {
      PercentSubstitutesOnce(t + "* ~~", "~~", c.text);
      assert t + "* ~~" + "%s" + "~~" == t + Placeholder(c);
      assert t + "* ~~" + c.text + "~~" == t + BulletAsWritten(c);
    }
  }

  lemma {:induction false} AccumulateWithoutPercent(cs: seq<Concern>)
    requires PercentFree(cs)
    ensures AccumulateAsWritten(cs) == Rendered(Header + BulletsAsWritten(cs))
  {
    if |cs| > 0 {
      var n := |cs| - 1;
      var pre, c := cs[..n], cs[n];
      assert PercentFree(pre) by {
        assert forall k :: 0 <= k < |pre| ==> pre[k] == cs[k];
      }
      AccumulateWithoutPercent(pre);
      BulletsWithoutPercent(pre);
      var b := BulletsAsWritten(pre);
      var t := Header + b;
      HeaderLacksPercent();
      assert '%' !in t;
      AccumulateStep(cs, t);
      StepWithoutPercent(t, c);
      assert BulletsAsWritten(cs) == b + BulletAsWritten(c);
      Associative(Header, b, BulletAsWritten(c));
    }
  }

  lemma Associative(a: string, b: string, c: string)
    ensures a + b + c == a + (b + c)
  {
  }

  lemma HeaderLacksPercent()
    ensures '%' !in Header
  {
  }

  /** One more concern after a prefix that rendered to `t`. */
  lemma AccumulateStep(cs: seq<Concern>, t: string)
    requires |cs| > 0 && AccumulateAsWritten(cs[..|cs| - 1]) == Rendered(t)
    ensures AccumulateAsWritten(cs) == Percent(t + Placeholder(cs[|cs| - 1]), cs[|cs| - 1].text)
  {
  }

  /** What `_format_concerns` returns when no concern text holds a `%`:
      `"Concerns:\n\n"` and then one bullet per concern with no separator,
      resolved concerns first and plain, unresolved ones after and struck
      through. */
  lemma FormatWithoutPercent(cs: seq<Concern>)
    requires |cs| > 0 && PercentFree(cs)
    ensures FormatAsWritten(cs) == Rendered(Header + BulletsAsWritten(ResolvedFirst(cs)))
  {
    ResolvedFirstIsStableSort(cs);
    var s := ResolvedFirst(cs);
    assert forall k :: 0 <= k < |s| ==> s[k] in multiset(cs);
    AccumulateWithoutPercent(s);
  }

  /** A body made of the header and one more line decodes to what that line yields. */
  lemma DecodeHeaderLine(line: string)
    requires '\n' !in line
    ensures DecodeConcerns(Header + line) == Contribution(ConcernOfLine(line))
  {
    var lines := ["Concerns:", "", line];
    JoinHeader([line]);
    assert ["Concerns:", ""] + [line] == lines;
    DecodeLines(lines);
    assert lines[2..] == [line];
  }

  lemma HeaderIsMarkerLines()
    ensures "Concerns:" + ['\n'] + ['\n'] == Header
  {
  }

  /** The header is the marker line and a blank line, each ended by a newline. */
  lemma JoinHeader(rest: seq<string>)
    requires |rest| >= 1
    ensures Join(["Concerns:", ""] + rest, '\n') == Header + Join(rest, '\n')
  {
    JoinMarkerLine(rest);
    JoinBlankLine(rest);
    HeaderIsMarkerLines();
    RegroupHeader("Concerns:", ['\n'], Join(rest, '\n'), Header);
  }

  lemma JoinMarkerLine(rest: seq<string>)
    requires |rest| >= 1
    ensures Join(["Concerns:", ""] + rest, '\n') == "Concerns:" + ['\n'] + Join([""] + rest, '\n')
  {
    var m: string := "Concerns:";
    JoinCons(m, [""] + rest, '\n');
    assert ["Concerns:", ""] + rest == [m] + ([""] + rest);
  }

  lemma JoinBlankLine(rest: seq<string>)
    requires |rest| >= 1
    ensures Join([""] + rest, '\n') == ['\n'] + Join(rest, '\n')
  {
    JoinCons("", rest, '\n');
  }

  lemma RegroupHeader(m: string, nl: string, r: string, h: string)
    requires m + nl + nl == h
    ensures m + nl + (nl + r) == h + r
  {
    Associative(m + nl, nl, r);
  }

  /** The loop on one concern, when its text holds no `%`. */
  lemma FormatOne(c: Concern)
    requires '%' !in c.text
    ensures FormatAsWritten([c]) == Rendered(Header + BulletAsWritten(c))
  {
    var cs := [c];
    WithFlagOfUniform(cs, c.resolved);
    if c.resolved {
      assert ResolvedFirst(cs) == cs + [];
    } else {
      assert ResolvedFirst(cs) == [] + cs;
    }
    assert ResolvedFirst(cs) == cs;
    assert cs[..0] == [];
    assert AccumulateAsWritten(cs[..0]) == Rendered(Header);
    HeaderLacksPercent();
    AccumulateStep(cs, Header);
    StepWithoutPercent(Header, c);
  }

  /** Finding: a resolved concern is rendered as an unresolved one. The one
      resolved concern `a` comes out as the plain bullet `* a`, which the
      status-comment decoder reads back as unresolved. */
  lemma StrikeThroughInverted()
    ensures FormatAsWritten([Concern("a", true)]) == Rendered(Header + "* a")
    ensures DecodeConcerns(Header + "* a") == [Concern("a", false)]
  {
    assert !StartsWith("a", "~~");
    ReadAsUnresolved("a");
    assert "* " + "a" == "* a";
  }

  /** One resolved concern comes out as a plain bullet, which reads back as
      an unresolved concern with the same text. */
  lemma ReadAsUnresolved(x: string)
    requires '\n' !in x && !StartsWith(x, "~~")
    ensures FormatAsWritten([Concern(x, true)]) == Rendered(Header + ("* " + x))
    ensures DecodeConcerns(Header + ("* " + x)) == [Concern(x, false)]
  {
    FormatOneResolved(x);
    var read := Concern(x, false);
    BulletReadsBack(read);
    BulletOnOneLine(read);
    DecodeHeaderLine(Bullet(read));
  }

  /** The loop on one resolved concern copies its text, whatever it holds. */
  lemma FormatOneResolved(x: string)
    ensures FormatAsWritten([Concern(x, true)]) == Rendered(Header + ("* " + x))
  {
    var cs := [Concern(x, true)];
    WithFlagOfUniform(cs, true);
    assert ResolvedFirst(cs) == cs + [];
    assert cs[..0] == [];
    AccumulateStep(cs, Header);
    FirstStep(x);
    Associative(Header, "* ", x);
  }

  /** The loop on two unresolved concerns, when their texts hold no `%`. */
  lemma FormatTwoUnresolved(c0: Concern, c1: Concern)
    requires !c0.resolved && !c1.resolved && '%' !in c0.text && '%' !in c1.text
    ensures FormatAsWritten([c0, c1]) == Rendered(Header + (BulletAsWritten(c0) + BulletAsWritten(c1)))
  {
    var cs := [c0, c1];
    UnresolvedPairInOrder(c0, c1);
    FormatWithoutPercent(cs);
    BulletsOfPair(c0, c1);
  }

  lemma UnresolvedPairInOrder(c0: Concern, c1: Concern)
    requires !c0.resolved && !c1.resolved
    ensures ResolvedFirst([c0, c1]) == [c0, c1]
  {
    WithFlagOfUniform([c0, c1], false);
    assert ResolvedFirst([c0, c1]) == [] + [c0, c1];
  }

  lemma BulletsOfPair(c0: Concern, c1: Concern)
    ensures BulletsAsWritten([c0, c1]) == BulletAsWritten(c0) + BulletAsWritten(c1)
  {
    assert [c0, c1][..1] == [c0];
    assert [c0][..0] == [];
    assert BulletsAsWritten([c0]) == "" + BulletAsWritten(c0);
  }

  /** Finding: the bullets are not separated by newlines, so two unresolved
      concerns `a` and `b` come out on one line. The greedy group of the
      strike-through expression reaches to the last `~~`, so the decoder
      reads a single resolved concern with the text `a~~* ~~b`. */
  lemma BulletsRunTogether()
    ensures FormatAsWritten([Concern("a", false), Concern("b", false)]) ==
      Rendered(Header + "* ~~a~~* ~~b~~")
    ensures DecodeConcerns(Header + "* ~~a~~* ~~b~~") == [Concern("a~~* ~~b", true)]
  {
    RunTogether("a", "b");
    RunTogetherText();
  }

  lemma RunTogetherText()
    ensures "* ~~" + "a" + "~~" + ("* ~~" + "b" + "~~") == "* ~~a~~* ~~b~~"
    ensures "a" + "~~* ~~" + "b" == "a~~* ~~b"
  {
  }

  /** Two unresolved concerns come out as one line, which reads back as one
      resolved concern whose text spans both. */
  lemma RunTogether(x: string, y: string)
    requires '%' !in x && '%' !in y && '\n' !in x && '\n' !in y
    ensures FormatAsWritten([Concern(x, false), Concern(y, false)]) ==
      Rendered(Header + ("* ~~" + x + "~~" + ("* ~~" + y + "~~")))
    ensures DecodeConcerns(Header + ("* ~~" + x + "~~" + ("* ~~" + y + "~~"))) ==
      [Concern(x + "~~* ~~" + y, true)]
  {
    FormatTwoUnresolved(Concern(x, false), Concern(y, false));
    var read := Concern(x + "~~* ~~" + y, true);
    RegroupRun(x, y);
    assert '\n' !in "~~* ~~";
    assert '\n' !in read.text;
    BulletReadsBack(read);
    BulletOnOneLine(read);
    DecodeHeaderLine(Bullet(read));
  }

  lemma RegroupRun(x: string, y: string)
    ensures "* ~~" + (x + "~~* ~~" + y) + "~~" == "* ~~" + x + "~~" + ("* ~~" + y + "~~")
  {
    assert "~~* ~~" == "~~" + "* ~~";
  }

  lemma PercentEscape(r: string, arg: string, used: bool)
    ensures PercentFrom("%%" + r, arg, used) == Prepend("%", PercentFrom(r, arg, used))
  {
    assert ("%%" + r)[2..] == r;
  }

  /** With the argument taken, a `%s` raises. */
  lemma PercentSecondArgument(r: string, arg: string)
    ensures PercentFrom("%s" + r, arg, true) == FormatFailed(NotEnoughArguments)
  {
  }

  /** The loop on two resolved concerns. */
  lemma FormatTwoResolved(x: string, y: string, t: string)
    requires Percent(Header + "* %s", x) == Rendered(t)
    ensures FormatAsWritten([Concern(x, true), Concern(y, true)]) == Percent(t + "* %s", y)
  {
    var c0, c1 := Concern(x, true), Concern(y, true);
    var cs := [c0, c1];
    ResolvedPairInOrder(c0, c1);
    AccumulatePairPrefix(c0, c1);
    AccumulateOne(c0);
    AccumulateStep(cs, t);
  }

  lemma ResolvedPairInOrder(c0: Concern, c1: Concern)
    requires c0.resolved && c1.resolved
    ensures ResolvedFirst([c0, c1]) == [c0, c1]
  {
    WithFlagOfUniform([c0, c1], true);
    assert ResolvedFirst([c0, c1]) == [c0, c1] + [];
  }

  lemma AccumulateOne(c: Concern)
    ensures AccumulateAsWritten([c]) == Percent(Header + Placeholder(c), c.text)
  {
    assert [c][..0] == [];
  }

  lemma AccumulatePairPrefix(c0: Concern, c1: Concern)
    ensures AccumulateAsWritten([c0, c1][..1]) == AccumulateAsWritten([c0])
  {
    assert [c0, c1][..1] == [c0];
  }

  /** `a % arg` where `a` ends in `%s` and has no other `%`. */
  lemma PercentSubstitutesLast(a: string, arg: string)
    requires '%' !in a
    ensures Percent(a + "%s", arg) == Rendered(a + arg)
  {
    PercentSubstitutesOnce(a, "", arg);
    assert a + "%s" + "" == a + "%s";
    assert a + arg + "" == a + arg;
  }

  /** Finding: `%` is applied to the whole text again on every step, so a
      `%%` in an earlier concern turns into `%`. */
  lemma PercentReapplied()
    ensures FormatAsWritten([Concern("50%%", true), Concern("b", true)]) == Rendered(Header + "* 50%* b")
  {
    EscapeReapplied("50", "b");
    RegroupEscape(Header, "* ", "50", "%", "* " + "b");
    ReappliedText();
  }

  lemma ReappliedText()
    ensures "50" + "%%" == "50%%"
    ensures "* " + "50" + "%" + ("* " + "b") == "* 50%* b"
  {
  }

  /** Two resolved concerns, the first ending in an escaped percent sign: the
      escape survives the first step and is undone by the second. */
  lemma EscapeReapplied(x: string, y: string)
    requires '%' !in x && '%' !in y
    ensures FormatAsWritten([Concern(x + "%%", true), Concern(y, true)]) ==
      Rendered(Header + "* " + x + ("%" + ("* " + y)))
  {
    FirstStep(x + "%%");
    Associative(Header + "* ", x, "%%");
    FormatTwoResolved(x + "%%", y, Header + "* " + x + "%%");
    BulletPrefixLacksPercent(x);
    EscapeSecondStep(Header + "* " + x, y);
  }

  lemma BulletPrefixLacksPercent(x: string)
    requires '%' !in x
    ensures '%' !in Header + "* " + x
  {
    HeaderLacksPercent();
  }

  /** The first step of the loop copies its argument, whatever it holds. */
  lemma FirstStep(x: string)
    ensures Percent(Header + "* %s", x) == Rendered(Header + "* " + x)
  {
    HeaderLacksPercent();
    var h := Header + "* ";
    assert '%' !in h;
    Associative(Header, "* ", "%s");
    assert "* " + "%s" == "* %s";
    PercentSubstitutesLast(h, x);
  }

  /** The second step reads the copied escape as one percent sign. */
  lemma EscapeSecondStep(a: string, y: string)
    requires '%' !in a
    ensures Percent(a + "%%" + "* %s", y) == Rendered(a + ("%" + ("* " + y)))
  {
    Associative(a, "%%", "* %s");
    PercentPlainPrefix(a, "%%" + "* %s", y, false);
    PercentEscape("* %s", y, false);
    PercentSubstitutesLast("* ", y);
    assert "* " + "%s" == "* %s";
    PrependPrepend(a, "%", Rendered("* " + y));
  }

  lemma RegroupEscape(h: string, b: string, x: string, p: string, t: string)
    ensures h + b + x + (p + t) == h + (b + x + p + t)
  {
  }

  lemma PercentReappliedRaises()
    ensures FormatAsWritten([Concern("%s", true), Concern("b", true)]) == FormatFailed(NotEnoughArguments)
  {
    FirstStep("%s");
    FormatTwoResolved("%s", "b", Header + "* " + "%s");
    HeaderLacksPercent();
    assert '%' !in Header + "* ";
    RaiseSecondStep(Header + "* ", "b");
  }

  /** A `%s` copied by the first step asks the second for a second argument. */
  lemma RaiseSecondStep(a: string, y: string)
    requires '%' !in a
    ensures Percent(a + "%s" + "* %s", y) == FormatFailed(NotEnoughArguments)
  {
    Associative(a, "%s", "* %s");
    PercentPlainPrefix(a, "%s" + "* %s", y, false);
    assert ("%s" + "* %s")[2..] == "* " + "%s";
    PercentPlainPrefix("* ", "%s", y, true);
    PercentSecondArgument("", y);
    assert "%s" + "" == "%s";
  }

  lemma MarkerLine()
    ensures IsMarker("Concerns:")
  {
    assert Lower("Concerns:") == "concerns:";
  }

  /** Decoding a status body made of the marker line `Concerns:`, a blank line
      and then `rest`. */
  lemma DecodeLines(lines: seq<string>)
    requires |lines| >= 2 && lines[0] == "Concerns:" && lines[1] == ""
    requires forall k :: 0 <= k < |lines| ==> '\n' !in lines[k]
    ensures DecodeConcerns(Join(lines, '\n')) == EveryLineConcerns(lines[2..])
  {
    SplitJoin(lines, '\n');
    MarkerLine();
    assert lines == [] + [lines[0]] + lines[1..];
    DecodeAfterFirstMarker([], lines[0], lines[1..]);
    assert ConcernOfLine("") == None;
    assert lines[1..][1..] == lines[2..];
  }

  /** A concern the corrected renderer can write so that it reads back: its
      text is on one line, a resolved text is not empty (the expression needs
      one character), and an unresolved text does not itself start with `~~`. */
  predicate Renderable(c: Concern) {
    '\n' !in c.text && (c.resolved ==> |c.text| > 0) && (!c.resolved ==> !StartsWith(c.text, "~~"))
  }

  /** A concern's bullet as the docstring shows it: struck through when resolved. */
  function Bullet(c: Concern): string {
    if c.resolved then "* ~~" + c.text + "~~" else "* " + c.text
  }

  function BulletLines(cs: seq<Concern>): (r: seq<string>)
    ensures |r| == |cs|
    ensures forall k :: 0 <= k < |cs| ==> r[k] == Bullet(cs[k])
  {
    if |cs| == 0 then [] else [Bullet(cs[0])] + BulletLines(cs[1..])
  }

  /** Each bullet reads back as the concern it was written from. */
  lemma BulletReadsBack(c: Concern)
    requires Renderable(c)
    ensures ConcernOfLine(Bullet(c)) == Some(c)
  {
    var line := Bullet(c);
    if c.resolved {
      assert line[..2] == "* " && line[..4] == "* ~~";
      assert line[1..4] == " ~~";
      var e := |line|;
      assert MatchEnd(line) == e by {
        assert line == "* ~~" + c.text + "~~";
        assert forall k :: 0 <= k < |line| ==> line[k] != '\n' by {
          forall k | 0 <= k < |line| ensures line[k] != '\n' {
            if 4 <= k < 4 + |c.text| {
              assert line[k] == c.text[k - 4];
            }
          }
        }
      }
      assert TildesAt(line, e - 2);
      assert LastTildes(line, 5, e - 2) == Some(e - 2);
      assert line[4..e - 2] == c.text;
    } else {
      assert line[..2] == "* ";
      assert line[2..] == c.text;
    }
  }

  lemma {:induction false} BulletLinesReadBack(cs: seq<Concern>)
    requires forall k :: 0 <= k < |cs| ==> Renderable(cs[k])
    ensures EveryLineConcerns(BulletLines(cs)) == cs
  {
    if |cs| > 0 {
      BulletReadsBack(cs[0]);
      BulletLinesReadBack(cs[1..]);
      assert BulletLines(cs)[1..] == BulletLines(cs[1..]);
    }
  }

  /** The renderer the docstring describes: `"Concerns:"`, a blank line and one
      bullet per line, unresolved concerns first and resolved ones struck
      through, each text substituted once. Its output decodes back to the
      concerns in that order. */
  function RenderIntended(cs: seq<Concern>): (r: string)
    ensures cs == [] ==> r == ""
    ensures (forall k :: 0 <= k < |cs| ==> Renderable(cs[k])) ==> DecodeConcerns(r) == UnresolvedFirst(cs)
  {
    if |cs| == 0 then ""
    else
      var u := UnresolvedFirst(cs);
      var lines := ["Concerns:", ""] + BulletLines(u);
      IntendedReadsBack(cs, lines);
      Join(lines, '\n')
  }

  lemma BulletOnOneLine(c: Concern)
    requires '\n' !in c.text
    ensures '\n' !in Bullet(c)
  {
    assert '\n' !in "* ~~" && '\n' !in "~~" && '\n' !in "* ";
  }

  lemma {:induction false} WithFlagKeepsRenderable(cs: seq<Concern>, resolved: bool)
    requires forall k :: 0 <= k < |cs| ==> Renderable(cs[k])
    ensures forall k :: 0 <= k < |WithFlag(cs, resolved)| ==> Renderable(WithFlag(cs, resolved)[k])
  {
    if |cs| > 0 {
      WithFlagKeepsRenderable(cs[..|cs| - 1], resolved);
    }
  }

  lemma IntendedReadsBack(cs: seq<Concern>, lines: seq<string>)
    requires lines == ["Concerns:", ""] + BulletLines(UnresolvedFirst(cs))
    ensures (forall k :: 0 <= k < |cs| ==> Renderable(cs[k])) ==>
      DecodeConcerns(Join(lines, '\n')) == UnresolvedFirst(cs)
  {
    var u := UnresolvedFirst(cs);
    if forall k :: 0 <= k < |cs| ==> Renderable(cs[k]) {
      WithFlagKeepsRenderable(cs, false);
      WithFlagKeepsRenderable(cs, true);
      assert forall k :: 0 <= k < |u| ==> Renderable(u[k]);
      forall k | 0 <= k < |lines| ensures '\n' !in lines[k] {
        if k >= 2 {
          BulletOnOneLine(u[k - 2]);
        }
      }
      DecodeLines(lines);
      assert lines[2..] == BulletLines(u);
      BulletLinesReadBack(u);
    }
  }
}
