/** What the boundary checks on a patch's first and last line add to the streaming parser. */
module PatchBoundaries {
  import opened Text
  import opened StreamingParser
  import opened ParserInvariants
  import opened PatchText

  /** The first line begins the patch and the last one ends it. */
  predicate Bounded(lines: seq<string>) {
    lines != [] && Trim(lines[0]) == BEGIN_PATCH && Trim(lines[|lines| - 1]) == END_PATCH
  }

  /** Still wrapped in a heredoc, with a line to begin the patch and one to end it. */
  ghost predicate Wrapped(lines: seq<string>) {
    && |lines| >= 4
    && lines[0] in {"<<EOF", "<<'EOF'", "<<\"EOF\""}
    && exists rest :: lines[|lines| - 1] == rest + "EOF"
  }

  ghost function Unwrapped(lines: seq<string>): seq<string>
    requires Wrapped(lines)
  {
    lines[1..|lines| - 1]
  }

  lemma {:induction false} SplitLast(s: string)
    requires s != "" && s[|s| - 1] != '\n'
    ensures var last := Split(s)[|Split(s)| - 1]; last != "" && last[|last| - 1] == s[|s| - 1]
  {
    if |s| > 1 {
      SplitLast(s[1..]);
    }
  }

  /** The last line of trimmed text is not blank. */
  lemma LastLineHasText(patch: string)
    ensures AllLineFree(Lines(Trim(patch)))
    ensures var lines := Lines(Trim(patch)); lines != [] ==> Trim(lines[|lines| - 1]) != ""
  {
    var t := Trim(patch);
    if t == "" {
      assert Lines("") == [];
    } else {
      var i, j := TrimMeans(patch);
      assert Tight(t);
      hide Trim, IsSpace;
      assert t[|t| - 1] != '\n' by { NewlineIsSpace(); }
      SplitLast(t);
      var pieces := Split(t);
      var last := pieces[|pieces| - 1];
      assert Lines(t)[|Lines(t)| - 1] == last;
      TrimKeepsText(last, |last| - 1);
    }
  }

  lemma NewlineIsSpace()
    ensures IsSpace('\n')
  {
  }

  lemma {:induction false} BufferedLast(p: Parser, pieces: seq<string>)
    requires pieces != [] && FeedLines(p, pieces).error.None?
    ensures FeedLines(p, pieces).parser.lineBuffer == (if |pieces| == 1 then p.lineBuffer else "") + pieces[|pieces| - 1]
    decreases |pieces|
  {
    hide Step;
    if |pieces| > 1 {
      BufferedLast(CompleteLine(p.(lineBuffer := p.lineBuffer + pieces[0])).parser, pieces[1..]);
      assert "" + pieces[|pieces| - 1] == pieces[|pieces| - 1];
    }
  }

  /** Only the end marker ends a patch that is not over yet. */
  lemma EndsAtMarker(st: State, line: string, n: nat)
    requires Step(st, line, n).Ok? && Step(st, line, n).value.mode.EndedPatch? && Trim(line) != ""
    ensures Trim(line) == END_PATCH
  {
    if st.mode.InUpdateFile? && TrimEnd(line) == END_PATCH {
      assert Trim(line) == END_PATCH;
    }
    hide Trim, TrimEnd, StepBody, LeavingProblem;
  }

  /** Lines that parse, the last of them with text, are bounded unless there is only one. */
  lemma ParsedLinesAreBounded(lines: seq<string>)
    requires lines != [] && AllLineFree(lines) && Trim(lines[|lines| - 1]) != "" && ParseLines(lines).Ok?
    ensures Bounded(lines) <==> |lines| > 1
  {
    hide Trim, Step, LeavingProblem;
    var text := Join(lines);
    var fed := Feed(Fresh, text);
    var last := lines[|lines| - 1];
    SplitJoin(lines);
    FeedIsFoldOfLines(Fresh, text);
    BufferedLast(Fresh, lines);
    assert "" + last == last;
    assert last != "" by { EmptyTrim(); }
    if Trim(last) != END_PATCH {
      EndsAtMarker(fed.parser.state, last, fed.parser.lineNumber + 1);
    }
    AcceptedIsBegunIff(text);
    StripCRTrims(lines[0]);
    assert BEGIN_PATCH[4] != END_PATCH[4];
    if |lines| > 1 {
      assert text[|lines[0]|] == '\n';
    }
  }

  /** The strict check turns away nothing that parses but the bare end marker, which the streaming
      parser takes for an empty patch. Lenient mode takes all that strict mode takes, and besides it
      only a bounded patch in a heredoc; either way the patch is the one its own lines spell. */
  lemma BoundaryChecks(patch: string)
    ensures var lines, strict, lenient := Lines(Trim(patch)), Parsed(patch, Strict), Parsed(patch, Lenient);
            && (strict.Ok? <==> ParseLines(lines).Ok? && |lines| > 1)
            && (strict.Ok? ==> Bounded(lines) && strict == lenient == ParseLines(lines))
            && (lenient.Ok? && strict.Err? <==> Wrapped(lines) && Bounded(Unwrapped(lines)) && ParseLines(Unwrapped(lines)).Ok?)
            && (lenient.Ok? && strict.Err? ==> lenient == ParseLines(Unwrapped(lines)))
  {
    var lines := Lines(Trim(patch));
    LastLineHasText(patch);
    NothingDoesNotParse();
    WrappedMeans(lines);
    hide Trim, Lines, ParseLines, HeredocOpen, HeredocClose;
    if lines != [] && ParseLines(lines).Ok? {
      ParsedLinesAreBounded(lines);
    }
    if Wrapped(lines) { WrappedIsUnbounded(lines); }
  }

  lemma NothingDoesNotParse()
    ensures ParseLines([]).Err?
  {
  }

  lemma WrappedMeans(lines: seq<string>)
    ensures Wrapped(lines) <==> |lines| >= 4 && HeredocOpen(lines[0]) && HeredocClose(lines[|lines| - 1])
  {
    if lines != [] {
      var last := lines[|lines| - 1];
      if HeredocClose(last) {
        assert last == last[..|last| - 3] + "EOF";
      }
    }
  }

  lemma WrappedIsUnbounded(lines: seq<string>)
    requires Wrapped(lines)
    ensures !Bounded(lines)
  {
    assert Tight(lines[0]);
    TightTrims(lines[0]);
    assert BEGIN_PATCH[0] != lines[0][0];
  }
}
