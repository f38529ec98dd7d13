/** The few operations of Python's `str` type that the bot relies on:
    `split("\n")`, `split()` (split on runs of whitespace) and `startswith`. */
module Text {

  /** Python's `str.isspace()` for one code point: the characters on which an
      argument-less `str.split()` breaks a line into words. */
  predicate IsSpace(c: char) {
    var n := c as int;
    (9 <= n <= 13) || (0x1c <= n <= 0x20) || n == 0x85 || n == 0xa0 || n == 0x1680
    || (0x2000 <= n <= 0x200a) || n == 0x2028 || n == 0x2029 || n == 0x202f
    || n == 0x205f || n == 0x3000
  }

  /** `s.startswith(p)` */
  predicate StartsWith(s: string, p: string) {
    |p| <= |s| && s[..|p|] == p
  }

  /** Position of the first occurrence of `c` in `s`. */
  function IndexOf(s: string, c: char): (i: nat)
    requires c in s
    ensures i < |s| && s[i] == c && c !in s[..i]
  {
    if s[0] == c then 0 else 1 + IndexOf(s[1..], c)
  }

  /** `s.split(sep)` for a one-character separator: the pieces between
      occurrences of `sep`, including empty ones at either end. */
  function Split(s: string, sep: char): (r: seq<string>)
    ensures |r| >= 1
    decreases |s|
  {
    if sep in s then
      var i := IndexOf(s, sep);
      [s[..i]] + Split(s[i + 1..], sep)
    else
      [s]
  }

  /** `sep.join(parts)`, the inverse of `Split`. */
  function Join(parts: seq<string>, sep: char): string
    requires |parts| >= 1
  {
    if |parts| == 1 then parts[0] else parts[0] + [sep] + Join(parts[1..], sep)
  }

  lemma JoinCons(p: string, parts: seq<string>, sep: char)
    requires |parts| >= 1
    ensures Join([p] + parts, sep) == p + [sep] + Join(parts, sep)
  {
    assert ([p] + parts)[1..] == parts;
  }

  /** No piece of a split holds the separator. */
  lemma {:induction false} SplitPiecesLackSeparator(s: string, sep: char)
    ensures forall i :: 0 <= i < |Split(s, sep)| ==> sep !in Split(s, sep)[i]
    decreases |s|
  {
    if sep in s {
      var i := IndexOf(s, sep);
      SplitPiecesLackSeparator(s[i + 1..], sep);
      assert Split(s, sep) == [s[..i]] + Split(s[i + 1..], sep);
    }
  }

  /** Joining the pieces of a split gives back the text. */
  lemma {:induction false} JoinSplit(s: string, sep: char)
    ensures Join(Split(s, sep), sep) == s
    decreases |s|
  {
    if sep in s {
      var i := IndexOf(s, sep);
      var parts := Split(s[i + 1..], sep);
      assert Split(s, sep) == [s[..i]] + parts;
      JoinSplit(s[i + 1..], sep);
      JoinCons(s[..i], parts, sep);
      SplitAround(s, i, sep);
    }
  }

  lemma SplitAround(s: string, i: nat, sep: char)
    requires i < |s| && s[i] == sep
    ensures s == s[..i] + [sep] + s[i + 1..]
  {
  }

  /** Splitting a join gives back the pieces, when no piece holds the separator. */
  lemma {:induction false} SplitJoin(parts: seq<string>, sep: char)
    requires |parts| >= 1
    requires forall i :: 0 <= i < |parts| ==> sep !in parts[i]
    ensures Split(Join(parts, sep), sep) == parts
  {
    if |parts| > 1 {
      var tail := parts[1..];
      assert forall i :: 0 <= i < |tail| ==> tail[i] == parts[i + 1];
      SplitJoin(tail, sep);
      SplitAfterPiece(parts[0], sep, Join(tail, sep));
      assert parts == [parts[0]] + tail;
    }
  }

  /** A separator-free piece followed by the separator splits off first. */
  lemma SplitAfterPiece(p: string, sep: char, rest: string)
    requires sep !in p
    ensures Split(p + [sep] + rest, sep) == [p] + Split(rest, sep)
  {
    var s := p + [sep] + rest;
    assert s[|p|] == sep;
    IndexOfAfterPrefix(p, sep, rest);
    assert s[..|p|] == p;
    assert s[|p| + 1..] == rest;
  }

  /** The first separator after a separator-free prefix is the one that ends it. */
  lemma {:induction false} IndexOfAfterPrefix(p: string, sep: char, rest: string)
    requires sep !in p
    ensures IndexOf(p + [sep] + rest, sep) == |p|
  {
    if |p| > 0 {
      assert (p + [sep] + rest)[1..] == p[1..] + [sep] + rest;
      IndexOfAfterPrefix(p[1..], sep, rest);
    }
  }

  /** Length of the longest prefix of `s` without whitespace. */
  function WordLength(s: string): (n: nat)
    ensures n <= |s|
    ensures forall i :: 0 <= i < n ==> !IsSpace(s[i])
    ensures n == |s| || IsSpace(s[n])
  {
    if |s| == 0 || IsSpace(s[0]) then 0 else 1 + WordLength(s[1..])
  }

  /** `s.split()`: the maximal runs of non-whitespace characters, in order. */
  function Words(s: string): (r: seq<string>)
    ensures forall i :: 0 <= i < |r| ==> |r[i]| > 0
    ensures forall i, j :: 0 <= i < |r| && 0 <= j < |r[i]| ==> !IsSpace(r[i][j])
    decreases |s|
  {
    if |s| == 0 then []
    else if IsSpace(s[0]) then Words(s[1..])
    else
      var n := WordLength(s);
      [s[..n]] + Words(s[n..])
  }

  /** A run of non-whitespace characters is one word. */
  lemma WordsOfWord(w: string)
    requires |w| > 0
    requires forall i :: 0 <= i < |w| ==> !IsSpace(w[i])
    ensures Words(w) == [w]
  {
    assert WordLength(w) == |w|;
    assert w[..|w|] == w;
    assert w[|w|..] == [];
  }

  /** A whitespace character ends the word before it. */
  lemma {:induction false} WordLengthStopsAtSpace(a: string, sp: char, b: string)
    requires IsSpace(sp)
    ensures WordLength(a + [sp] + b) == WordLength(a)
  {
    if |a| > 0 && !IsSpace(a[0]) {
      assert (a + [sp] + b)[1..] == a[1..] + [sp] + b;
      WordLengthStopsAtSpace(a[1..], sp, b);
    }
  }

  /** `split()` skips a leading whitespace character. */
  lemma WordsSkipSpace(s: string)
    requires |s| > 0 && IsSpace(s[0])
    ensures Words(s) == Words(s[1..])
  {
  }

  /** `split()` takes the leading run of non-whitespace as its first word. */
  lemma WordsTakeWord(s: string)
    requires |s| > 0 && !IsSpace(s[0])
    ensures Words(s) == [s[..WordLength(s)]] + Words(s[WordLength(s)..])
  {
  }

  /** Whitespace separates words: the words of `a`, a whitespace character and
      `b` are the words of `a` followed by those of `b`. With `WordsOfWord`
      and `Words("") == []` this determines `Words` on every string, so the
      words are exactly the maximal non-whitespace runs. */
  lemma {:induction false} WordsSplitAtSpace(a: string, sp: char, b: string)
    requires IsSpace(sp)
    ensures Words(a + [sp] + b) == Words(a) + Words(b)
    decreases |a|
  {
    if |a| == 0 {
      assert (a + [sp] + b)[1..] == b;
      WordsSkipSpace(a + [sp] + b);
    } else if IsSpace(a[0]) {
      WordsSplitAtSpace(a[1..], sp, b);
      SplitAfterLeadingSpace(a, sp, b);
    } else {
      WordsSplitAtSpace(a[WordLength(a)..], sp, b);
      SplitAfterFirstWord(a, sp, b);
    }
  }

  /** The step of `WordsSplitAtSpace` when `a` starts with whitespace. */
  lemma SplitAfterLeadingSpace(a: string, sp: char, b: string)
    requires IsSpace(sp) && |a| > 0 && IsSpace(a[0])
    requires Words(a[1..] + [sp] + b) == Words(a[1..]) + Words(b)
    ensures Words(a + [sp] + b) == Words(a) + Words(b)
  {
    JoinAround(a, sp, b, 1);
    WordsSkipSpace(a + [sp] + b);
    WordsSkipSpace(a);
  }

  /** The step of `WordsSplitAtSpace` when `a` starts with a word. */
  lemma SplitAfterFirstWord(a: string, sp: char, b: string)
    requires IsSpace(sp) && |a| > 0 && !IsSpace(a[0])
    requires Words(a[WordLength(a)..] + [sp] + b) == Words(a[WordLength(a)..]) + Words(b)
    ensures Words(a + [sp] + b) == Words(a) + Words(b)
  {
    WordLengthStopsAtSpace(a, sp, b);
    JoinAround(a, sp, b, WordLength(a));
    WordsTakeWord(a + [sp] + b);
    WordsTakeWord(a);
  }

  /** Cutting `a + [sp] + b` inside `a`. */
  lemma JoinAround(a: string, sp: char, b: string, n: nat)
    requires n <= |a|
    ensures (a + [sp] + b)[..n] == a[..n]
    ensures (a + [sp] + b)[n..] == a[n..] + [sp] + b
  {
  }

  /** Two words with whitespace between them split into exactly those two:
      `"ab".split()` is `["ab"]`, but `"a b".split()` is `["a", "b"]`. */
  lemma WordsOfTwoWords(x: string, sp: char, y: string)
    requires |x| > 0 && |y| > 0 && IsSpace(sp)
    requires forall i :: 0 <= i < |x| ==> !IsSpace(x[i])
    requires forall i :: 0 <= i < |y| ==> !IsSpace(y[i])
    ensures Words(x + [sp] + y) == [x, y]
  {
    WordsSplitAtSpace(x, sp, y);
    WordsOfWord(x);
    WordsOfWord(y);
  }

  /** `s` holds nothing but whitespace (the empty string included). */
  predicate IsBlank(s: string) {
    forall i :: 0 <= i < |s| ==> IsSpace(s[i])
  }

  /** `s.split()` is empty exactly when `s` is blank. */
  lemma {:induction false} WordsEmptyIffBlank(s: string)
    ensures Words(s) == [] <==> IsBlank(s)
    decreases |s|
  {
    if |s| > 0 && IsSpace(s[0]) {
      WordsEmptyIffBlank(s[1..]);
      if IsBlank(s[1..]) {
        forall i | 0 <= i < |s| ensures IsSpace(s[i]) {
          if i > 0 { assert s[i] == s[1..][i - 1]; }
        }
      }
      if IsBlank(s) {
        forall i | 0 <= i < |s[1..]| ensures IsSpace(s[1..][i]) {
          assert s[1..][i] == s[i + 1];
        }
      }
    }
  }

  /** The characters of `s` that are not whitespace, in order. */
  function NonSpace(s: string): string {
    if |s| == 0 then [] else (if IsSpace(s[0]) then [] else [s[0]]) + NonSpace(s[1..])
  }

  /** Concatenation of a list of strings. */
  function Concat(ss: seq<string>): string {
    if |ss| == 0 then [] else ss[0] + Concat(ss[1..])
  }

  lemma {:induction false} NonSpaceAppend(a: string, b: string)
    ensures NonSpace(a + b) == NonSpace(a) + NonSpace(b)
  {
    if |a| > 0 {
      assert (a + b)[1..] == a[1..] + b;
      NonSpaceAppend(a[1..], b);
    } else {
      assert a + b == b;
    }
  }

  lemma {:induction false} NonSpaceOfWord(w: string)
    requires forall i :: 0 <= i < |w| ==> !IsSpace(w[i])
    ensures NonSpace(w) == w
  {
    if |w| > 0 {
      NonSpaceOfWord(w[1..]);
    }
  }

  /** The words of `s`, run together, are the non-whitespace characters of `s`:
      `split()` loses only whitespace and never reorders. */
  lemma {:induction false} WordsKeepAllText(s: string)
    ensures Concat(Words(s)) == NonSpace(s)
    decreases |s|
  {
    if |s| > 0 {
      if IsSpace(s[0]) {
        WordsKeepAllText(s[1..]);
      } else {
        var n := WordLength(s);
        WordsKeepAllText(s[n..]);
        assert s == s[..n] + s[n..];
        NonSpaceAppend(s[..n], s[n..]);
        NonSpaceOfWord(s[..n]);
      }
    }
  }
}
