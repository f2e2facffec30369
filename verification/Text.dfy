/** The parts of Rust's `str` that the patch engine relies on: trimming by the Unicode
    White_Space property, `split('\n')`, `join("\n")` and `lines()`. */
module Text {
  /** The Unicode White_Space property. */
  predicate IsSpace(c: char) {
    || '\U{9}' <= c <= '\U{d}'
    || c in {' ', '\U{85}', '\U{a0}', '\U{1680}', '\U{2028}', '\U{2029}', '\U{202f}', '\U{205f}', '\U{3000}'}
    || '\U{2000}' <= c <= '\U{200a}'
  }

  function TrimEnd(s: string): (r: string) {
    if s != [] && IsSpace(s[|s| - 1]) then TrimEnd(s[..|s| - 1]) else s
  }

  function TrimStart(s: string): (r: string) {
    if s != [] && IsSpace(s[0]) then TrimStart(s[1..]) else s
  }

  function Trim(s: string): (r: string) {
    TrimStart(TrimEnd(s))
  }

  /** Trimming the end removes exactly the longest white-space suffix. */
  lemma {:induction false} TrimEndRemovesSuffix(s: string)
    ensures TrimEnd(s) <= s
    ensures TrimEnd(s) != [] ==> !IsSpace(TrimEnd(s)[|TrimEnd(s)| - 1])
    ensures forall i :: |TrimEnd(s)| <= i < |s| ==> IsSpace(s[i])
  {
    if s != [] && IsSpace(s[|s| - 1]) {
      TrimEndRemovesSuffix(s[..|s| - 1]);
    }
  }

  /** Trimming the start removes exactly the longest white-space prefix. */
  lemma {:induction false} TrimStartRemovesPrefix(s: string)
    ensures var gone := |s| - |TrimStart(s)|;
            && 0 <= gone && TrimStart(s) == s[gone..]
            && (TrimStart(s) != [] ==> !IsSpace(TrimStart(s)[0]))
            && forall i :: 0 <= i < gone ==> IsSpace(s[i])
  {
    if s != [] && IsSpace(s[0]) {
      TrimStartRemovesPrefix(s[1..]);
    }
  }

  /** Neither end carries white space, so trimming changes nothing. */
  predicate Tight(s: string) {
    s != [] && !IsSpace(s[0]) && !IsSpace(s[|s| - 1])
  }

  /** What is between `i` and `j` is all of the line but the white space around it. */
  predicate Inside(s: string, i: nat, j: nat) {
    && i <= j <= |s|
    && (i < j ==> Tight(s[i..j]))
    && (forall k :: 0 <= k < i ==> IsSpace(s[k]))
    && forall k :: j <= k < |s| ==> IsSpace(s[k])
  }

  lemma TrimMeans(s: string) returns (i: nat, j: nat)
    ensures Inside(s, i, j) && Trim(s) == s[i..j]
  {
    TrimEndRemovesSuffix(s);
    var front := TrimEnd(s);
    TrimStartRemovesPrefix(front);
    i, j := |front| - |Trim(s)|, |front|;
    assert front == s[..j];
  }

  predicate Blank(s: string) { forall i :: 0 <= i < |s| ==> IsSpace(s[i]) }

  lemma {:induction false} TrimEndDrops(s: string, space: string)
    requires Blank(space)
    ensures TrimEnd(s + space) == TrimEnd(s)
  {
    if space == [] {
      assert s + space == s;
    } else {
      assert (s + space)[..|s + space| - 1] == s + space[..|space| - 1];
      TrimEndDrops(s, space[..|space| - 1]);
    }
  }

  lemma {:induction false} TrimStartDrops(space: string, s: string)
    requires Blank(space)
    ensures TrimStart(space + s) == TrimStart(s)
  {
    if space == [] {
      assert space + s == s;
    } else {
      assert (space + s)[1..] == space[1..] + s;
      TrimStartDrops(space[1..], s);
    }
  }

  lemma BlankTrimsAway(s: string)
    requires Blank(s)
    ensures TrimEnd(s) == ""
  {
    assert s == "" + s;
    TrimEndDrops("", s);
  }

  /** White space added around a line is trimmed away again. */
  lemma TrimDrops(before: string, s: string, after: string)
    requires Blank(before) && Blank(after)
    ensures Trim(before + s + after) == Trim(s)
  {
    hide TrimEnd, TrimStart, IsSpace;
    TrimEndDrops(before + s, after);
    TrimEndRemovesSuffix(s);
    var text := TrimEnd(s);
    if text == "" {
      assert Blank(s) && Blank(before + s);
      BlankTrimsAway(before + s);
    } else {
      assert before + s == (before + text) + s[|text|..];
      TrimEndDrops(before + text, s[|text|..]);
      TightTrims(before + text);
      TrimStartDrops(before, text);
    }
  }

  lemma {:induction false} TrimStartKeepsText(s: string, i: nat)
    requires i < |s| && !IsSpace(s[i])
    ensures TrimStart(s) != ""
  {
    if IsSpace(s[0]) {
      TrimStartKeepsText(s[1..], i - 1);
    }
  }

  /** Only white space trims to nothing. */
  lemma TrimKeepsText(s: string, i: nat)
    requires i < |s| && !IsSpace(s[i])
    ensures Trim(s) != ""
  {
    TrimEndRemovesSuffix(s);
    TrimStartKeepsText(TrimEnd(s), i);
  }

  lemma TightTrims(s: string)
    requires s != [] && !IsSpace(s[|s| - 1])
    ensures TrimEnd(s) == s
    ensures Tight(s) ==> Trim(s) == s
  {
  }

  /** `line.strip_suffix('\r')`, keeping the line when it has no such suffix. */
  function StripCR(s: string): (r: string)
    ensures r <= s
  {
    if s != [] && s[|s| - 1] == '\r' then s[..|s| - 1] else s
  }

  lemma StripCRTrims(s: string)
    ensures Trim(StripCR(s)) == Trim(s)
  {
    hide TrimStart;
  }

  function StripAll(lines: seq<string>): (r: seq<string>)
    ensures |r| == |lines| && forall i :: 0 <= i < |lines| ==> r[i] == StripCR(lines[i])
  {
    seq(|lines|, i requires 0 <= i < |lines| => StripCR(lines[i]))
  }

  predicate EndsInCR(s: string) {
    s != [] && s[|s| - 1] == '\r'
  }

  predicate AllLineFree(lines: seq<string>) {
    forall i :: 0 <= i < |lines| ==> '\n' !in lines[i]
  }

  /** `s.split('\n')`: always at least one piece. */
  function Split(s: string): (r: seq<string>)
    ensures r != [] && AllLineFree(r)
  {
    if s == [] then [""]
    else
      var rest := Split(s[1..]);
      if s[0] == '\n' then [""] + rest else [[s[0]] + rest[0]] + rest[1..]
  }

  /** `lines.join("\n")`. */
  function Join(lines: seq<string>): (r: string) {
    if lines == [] then ""
    else if |lines| == 1 then lines[0]
    else lines[0] + "\n" + Join(lines[1..])
  }

  lemma {:induction false} JoinSplit(s: string)
    ensures Join(Split(s)) == s
  {
    if s != [] {
      JoinSplit(s[1..]);
      var rest := Split(s[1..]);
      if s[0] == '\n' {
        assert ([""] + rest)[1..] == rest;
        assert "" + "\n" + s[1..] == s;
      } else {
        var whole := [[s[0]] + rest[0]] + rest[1..];
        assert |rest| > 1 ==> whole[1..] == rest[1..];
        assert [s[0]] + s[1..] == s;
      }
    }
  }

  lemma {:induction false} SplitLine(line: string)
    requires '\n' !in line
    ensures Split(line) == [line]
  {
    if line != [] {
      SplitLine(line[1..]);
      assert [line[0]] + line[1..] == line;
    }
  }

  lemma {:induction false} SplitPrepend(line: string, rest: string)
    requires '\n' !in line
    ensures Split(line + "\n" + rest) == [line] + Split(rest)
  {
    var s := line + "\n" + rest;
    if line == [] {
      assert s[1..] == rest;
    } else {
      assert s[1..] == line[1..] + "\n" + rest;
      SplitPrepend(line[1..], rest);
      assert [line[0]] + line[1..] == line;
    }
  }

  lemma {:induction false} SplitJoin(lines: seq<string>)
    requires lines != [] && AllLineFree(lines)
    ensures Split(Join(lines)) == lines
  {
    if |lines| == 1 {
      SplitLine(lines[0]);
    } else {
      SplitJoin(lines[1..]);
      SplitPrepend(lines[0], Join(lines[1..]));
      assert [lines[0]] + lines[1..] == lines;
    }
  }

  /** Appending a last line. */
  lemma {:induction false} JoinSnoc(lines: seq<string>, last: string)
    requires lines != []
    ensures Join(lines + [last]) == Join(lines) + "\n" + last
  {
    if |lines| > 1 {
      JoinSnoc(lines[1..], last);
      assert (lines + [last])[1..] == lines[1..] + [last];
    } else {
      assert (lines + [last])[1..] == [last];
    }
  }

  /** `s.lines()`: split at LF, drop the empty piece after a final LF, and strip one CR from
      every piece that a LF ended. */
  function Lines(s: string): (r: seq<string>) {
    var pieces := Split(s);
    var n := |pieces| - 1;
    var ended := seq(n, i requires 0 <= i < n => StripCR(pieces[i]));
    if pieces[n] == "" then ended else ended + [pieces[n]]
  }
}
