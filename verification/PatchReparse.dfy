/** What the parser returns can always be written down, and parses back to itself unless a stored line
    ends with a carriage return. */
module PatchReparse {
  import opened Basics
  import opened Text
  import opened PatchSyntax
  import opened StreamingParser
  import opened ParserInvariants
  import opened PatchText
  import opened PatchDocument
  import opened PatchRoundTrip

  // The invariant comes in two strengths: with `bare`, no stored line ends with a carriage return.

  predicate Fits(s: string, bare: bool) { '\n' !in s && (bare ==> !EndsInCR(s)) }

  predicate AllFit(lines: seq<string>, bare: bool) { forall i :: 0 <= i < |lines| ==> Fits(lines[i], bare) }

  /** The contents of an added file are whole lines. */
  ghost predicate WholeLines(contents: string, bare: bool) {
    exists lines :: AllFit(lines, bare) && contents == Contents(lines)
  }

  predicate ChunkSoFar(c: UpdateFileChunk, bare: bool) {
    (c.changeContext.Some? ==> NameOk(c.changeContext.value)) && AllFit(c.oldLines, bare) && AllFit(c.newLines, bare)
  }

  predicate ChunksSoFar(cs: seq<UpdateFileChunk>, bare: bool) { forall i :: 0 <= i < |cs| ==> ChunkSoFar(cs[i], bare) }

  ghost predicate HunkSoFar(h: Hunk, bare: bool) {
    && NameOk(h.path)
    && (h.AddFile? ==> WholeLines(h.contents, bare))
    && (h.UpdateFile? ==> (h.movePath.Some? ==> NameOk(h.movePath.value)) && ChunksSoFar(h.chunks, bare))
  }

  ghost predicate StateSoFar(st: State, bare: bool) {
    (forall i :: 0 <= i < |st.hunks| ==> HunkSoFar(st.hunks[i], bare)) && IdOk(st.environmentId)
  }

  // ---------------------------------------------------------------- pieces of a line

  lemma TailFits(line: string, k: nat, bare: bool)
    requires Fits(line, bare) && k <= |line|
    ensures Fits(line[k..], bare)
  {
    var tail := line[k..];
    assert forall c :: c in tail ==> c in line;
    assert tail != "" ==> tail[|tail| - 1] == line[|line| - 1];
  }

  lemma {:induction false} TrimStartIsTail(s: string)
    ensures |TrimStart(s)| <= |s| && TrimStart(s) == s[|s| - |TrimStart(s)|..]
    ensures TrimStart(s) != "" ==> !IsSpace(TrimStart(s)[0])
  {
    if s != "" && IsSpace(s[0]) {
      TrimStartIsTail(s[1..]);
    }
  }

  /** Trimmed text carries no white space at the end or, trimmed on both sides, at the start. */
  lemma TrimmedIsTight(s: string)
    requires '\n' !in s
    ensures '\n' !in TrimEnd(s) && '\n' !in Trim(s)
    ensures TrimEnd(s) != "" ==> !IsSpace(TrimEnd(s)[|TrimEnd(s)| - 1])
    ensures Trim(s) != "" ==> Tight(Trim(s))
  {
    TrimEndRemovesSuffix(s);
    var t := TrimEnd(s);
    assert forall c :: c in t ==> c in s;
    TrimStartIsTail(t);
    var u := TrimStart(t);
    assert forall c :: c in u ==> c in t;
    if u != "" {
      assert u[|u| - 1] == t[|t| - 1];
    }
  }

  /** What follows a marker that ends in a space, on a line that does not, is a usable name. */
  lemma NameAfterMarker(view: string, marker: string)
    requires '\n' !in view && marker <= view && marker != "" && IsSpace(marker[|marker| - 1])
    requires !IsSpace(view[|view| - 1])
    ensures NameOk(view[|marker|..])
  {
    var name := view[|marker|..];
    assert forall c :: c in name ==> c in view;
    assert name == "" ==> view == marker;
    assert name != "" ==> name[|name| - 1] == view[|view| - 1];
  }

  lemma MarkersEndInSpace()
    ensures IsSpace(ADD_FILE[|ADD_FILE| - 1]) && IsSpace(DELETE_FILE[|DELETE_FILE| - 1])
    ensures IsSpace(UPDATE_FILE[|UPDATE_FILE| - 1]) && IsSpace(MOVE_TO[|MOVE_TO| - 1]) && IsSpace(CONTEXT[|CONTEXT| - 1])
  {
  }

  lemma HeaderName(view: string)
    requires '\n' !in view && (view != "" ==> !IsSpace(view[|view| - 1]))
    ensures HeaderOf(view).Add? || HeaderOf(view).Delete? || HeaderOf(view).Update? ==> NameOk(HeaderOf(view).path)
  {
    hide IsSpace, NameOk;
    MarkersEndInSpace();
    var h := HeaderOf(view);
    if h.Add? { NameAfterMarker(view, ADD_FILE); }
    if h.Delete? { NameAfterMarker(view, DELETE_FILE); }
    if h.Update? { NameAfterMarker(view, UPDATE_FILE); }
  }

  lemma BodyParts(line: string, bare: bool)
    requires Fits(line, bare)
    ensures var b := BodyOf(line);
            && (b.MoveTo? ==> NameOk(b.path))
            && (b.Context? && b.context.Some? ==> NameOk(b.context.value))
            && (b.Keep? || b.Insert? || b.Remove? ==> Fits(b.text, bare))
  {
    MarkersEndInSpace();
    TrimmedIsTight(line);
    hide IsSpace, NameOk, Fits, TrimEnd;
    var u := TrimEnd(line);
    if MOVE_TO <= u { NameAfterMarker(u, MOVE_TO); }
    if CONTEXT <= u { NameAfterMarker(u, CONTEXT); }
    if line == "" { EmptyFits(); } else { TailFits(line, 1, bare); }
  }

  lemma EmptyFits()
    ensures Fits("", true) && Fits("", false)
  {
  }

  // ---------------------------------------------------------------- the invariant

  lemma {:induction false} ContentsSnoc(lines: seq<string>, line: string)
    ensures Contents(lines + [line]) == Contents(lines) + line + "\n"
  {
    if lines == [] {
      assert [line][1..] == [];
    } else {
      ContentsSnoc(lines[1..], line);
      assert (lines + [line])[1..] == lines[1..] + [line];
    }
  }

  lemma OneMoreLine(contents: string, line: string, bare: bool)
    requires WholeLines(contents, bare) && Fits(line, bare)
    ensures WholeLines(contents + line + "\n", bare)
  {
    hide Fits;
    var lines :| AllFit(lines, bare) && contents == Contents(lines);
    ContentsSnoc(lines, line);
    assert AllFit(lines + [line], bare);
  }

  lemma BodySoFar(hunk: Hunk, line: string, n: nat, bare: bool)
    requires hunk.UpdateFile? && HunkSoFar(hunk, bare) && Fits(line, bare) && StepBody(hunk, line, n).Ok?
    ensures HunkSoFar(StepBody(hunk, line, n).value, bare)
  {
    BodyParts(line, bare);
    hide BodyOf, TrimEnd, NameOk, Fits, ExtendLast, ChunksSoFar;
    match BodyOf(line)
    case Keep(t) => ExtendSoFar(hunk.chunks, [t], [t], bare);
    case Insert(t) => ExtendSoFar(hunk.chunks, [], [t], bare);
    case Remove(t) => ExtendSoFar(hunk.chunks, [t], [], bare);
    case Context(c) => PushSoFar(hunk.chunks, c, bare);
    case EofMarker => SealSoFar(hunk.chunks, bare);
    case MoveTo(_) =>
    case Junk =>
  }

  lemma ExtendSoFar(cs: seq<UpdateFileChunk>, removed: seq<string>, added: seq<string>, bare: bool)
    requires ChunksSoFar(cs, bare) && AllFit(removed, bare) && AllFit(added, bare)
    ensures ChunksSoFar(ExtendLast(cs, removed, added), bare)
  {
    hide Fits, NameOk;
  }

  lemma PushSoFar(cs: seq<UpdateFileChunk>, context: Option<string>, bare: bool)
    requires ChunksSoFar(cs, bare) && (context.Some? ==> NameOk(context.value))
    ensures ChunksSoFar(cs + [NewChunk(context)], bare)
  {
    hide Fits, NameOk;
  }

  lemma SealSoFar(cs: seq<UpdateFileChunk>, bare: bool)
    requires ChunksSoFar(cs, bare)
    ensures ChunksSoFar(SealLast(cs), bare)
  {
    hide Fits, NameOk;
  }

  lemma IdSoFar(line: string)
    requires '\n' !in line && ENVIRONMENT_ID <= line && Trim(line[|ENVIRONMENT_ID|..]) != ""
    ensures IdOk(Some(Trim(line[|ENVIRONMENT_ID|..])))
  {
    var rest := line[|ENVIRONMENT_ID|..];
    assert forall c :: c in rest ==> c in line;
    TrimmedIsTight(rest);
  }

  lemma HeaderSoFar(st: State, view: string, n: nat, bare: bool)
    requires StateSoFar(st, bare) && '\n' !in view && (view != "" ==> !IsSpace(view[|view| - 1]))
    requires StepHeader(st, view, n).Ok? && StepHeader(st, view, n).value.Some?
    ensures StateSoFar(StepHeader(st, view, n).value.value, bare)
  {
    HeaderName(view);
    if st.mode.StartedPatch? && ENVIRONMENT_ID <= view && Trim(view[|ENVIRONMENT_ID|..]) != "" {
      IdSoFar(view);
    }
    hide HeaderOf, Trim, LeavingProblem, NameOk, IsSpace, IdOk;
    assert WholeLines("", bare) by { assert AllFit([], bare) && "" == Contents([]); }
  }

  lemma ContentSoFar(st: State, line: string, n: nat, bare: bool)
    requires StateSoFar(st, bare) && Fits(line, bare) && StepContent(st, line, n).Ok?
    ensures StateSoFar(StepContent(st, line, n).value, bare)
  {
    hide StepBody, NameOk, Fits, IdOk;
    var last := st.hunks[|st.hunks| - 1];
    assert HunkSoFar(last, bare);
    if st.mode.InUpdateFile? {
      BodySoFar(last, line, n, bare);
    } else {
      TailFits(line, 1, bare);
      OneMoreLine(last.contents, line[1..], bare);
    }
  }

  lemma ModeSoFar(st: State, mode: Mode, bare: bool)
    requires StateSoFar(st, bare)
    ensures StateSoFar(st.(mode := mode), bare)
  {
    hide HunkSoFar, IdOk;
  }

  lemma StepSoFar(st: State, line: string, n: nat, bare: bool)
    requires StateSoFar(st, bare) && Fits(line, bare) && Step(st, line, n).Ok?
    ensures StateSoFar(Step(st, line, n).value, bare)
  {
    TrimmedIsTight(line);
    hide StepHeader, StepContent, Trim, TrimEnd, StateSoFar, IsSpace;
    if st.mode.NotStarted? || st.mode.EndedPatch? {
      ModeSoFar(st, Step(st, line, n).value.mode, bare);
    } else {
      var view := if st.mode.InUpdateFile? then TrimEnd(line) else Trim(line);
      assert view != "" ==> !IsSpace(view[|view| - 1]);
      if StepHeader(st, view, n).value.Some? {
        HeaderSoFar(st, view, n, bare);
      } else {
        ContentSoFar(st, line, n, bare);
      }
    }
  }

  /** No complete line ends with two carriage returns. */
  predicate NoneEndsInTwo(pieces: seq<string>) { forall i :: 0 <= i < |pieces| - 1 ==> !EndsInCR(StripCR(pieces[i])) }

  lemma {:induction false} FeedSoFar(p: Parser, pieces: seq<string>, bare: bool)
    requires StateSoFar(p.state, bare) && p.lineBuffer == "" && pieces != [] && AllLineFree(pieces)
    requires bare ==> NoneEndsInTwo(pieces)
    ensures StateSoFar(FeedLines(p, pieces).parser.state, bare)
    decreases |pieces|
  {
    hide Step, StateSoFar;
    assert "" + pieces[0] == pieces[0];
    if |pieces| > 1 {
      var p' := p.(lineBuffer := pieces[0]);
      var line := CompleteLine(p');
      assert StripCR(pieces[0]) <= pieces[0];
      if line.error.None? {
        StepSoFar(p.state, StripCR(pieces[0]), p.lineNumber + 1, bare);
        FeedSoFar(line.parser, pieces[1..], bare);
      }
    }
  }

  /** An accepted end of input stores nothing more: its last line is the end marker or blank. */
  lemma FinishStoresNothing(p: Parser)
    requires StreamingParser.Finish(p).result.Ok?
    ensures StreamingParser.Finish(p).result.value == p.state.hunks
    ensures StreamingParser.Finish(p).parser.state.environmentId == p.state.environmentId
  {
    hide Trim, LeavingProblem, StepBody, TrimEnd;
  }

  // ---------------------------------------------------------------- from the text to its hunks

  lemma FinishedIsWellFormed(h: Hunk, bare: bool)
    requires HunkSoFar(h, bare) && Complete(h)
    ensures HunkWellFormed(h) && (bare ==> HunkHasNoCR(h))
  {
    hide NameOk, Hollow;
    if h.AddFile? {
      var lines :| AllFit(lines, bare) && h.contents == Contents(lines);
      SplitContents(lines);
      hide Contents, Split, AddedLines;
    }
  }

  lemma FreshSoFar(bare: bool)
    ensures StateSoFar(Fresh.state, bare)
  {
  }

  lemma {:induction false} ParsedSoFar(lines: seq<string>, bare: bool)
    requires ParseLines(lines).Ok? && (bare ==> NoneEndsInTwo(Split(Join(lines))))
    ensures var p := ParseLines(lines).value;
            AllWellFormed(p.hunks) && IdOk(p.environmentId) && (bare ==> NoStoredCR(p.hunks))
  {
    hide Feed, StreamingParser.Finish, HunkSoFar, Complete, HunkWellFormed, HunkHasNoCR, IdOk, FeedLines, Split, Join;
    var text := Join(lines);
    FreshSoFar(bare);
    FeedIsFoldOfLines(Fresh, text);
    FeedSoFar(Fresh, Split(text), bare);
    var fed := Feed(Fresh, text).parser;
    FinishStoresNothing(fed);
    FreshCoherent();
    FeedKeeps(Fresh, text);
    FinishKeeps(fed);
    var hunks := StreamingParser.Finish(fed).result.value;
    forall i | 0 <= i < |hunks| ensures HunkWellFormed(hunks[i]) && (bare ==> HunkHasNoCR(hunks[i])) {
      FinishedIsWellFormed(hunks[i], bare);
    }
  }

  /** Whatever the parser accepts is well formed, and stores no carriage return at the end of a line when
      no complete line it was given ends with two. */
  lemma ParsedLinesWellFormed(lines: seq<string>)
    requires ParseLines(lines).Ok?
    ensures var p := ParseLines(lines).value; AllWellFormed(p.hunks) && IdOk(p.environmentId)
    ensures NoneEndsInTwo(Split(Join(lines))) ==> NoStoredCR(ParseLines(lines).value.hunks)
  {
    hide ParseLines, NoStoredCR, NoneEndsInTwo, AllWellFormed, IdOk;
    ParsedSoFar(lines, false);
    if NoneEndsInTwo(Split(Join(lines))) {
      ParsedSoFar(lines, true);
    }
  }

  lemma LinesFree(s: string)
    ensures AllLineFree(Lines(s))
  {
    var pieces := Split(s);
    hide Split;
    forall i | 0 <= i < |pieces| ensures '\n' !in StripCR(pieces[i]) {
      assert StripCR(pieces[i]) <= pieces[i];
    }
  }

  /** The checks hand on the lines, all of them or those inside the heredoc. */
  lemma CheckedLines(lines: seq<string>, mode: ParseMode)
    requires AllLineFree(lines) && Checked(lines, mode).Ok?
    ensures var kept := Checked(lines, mode).value;
            kept != [] && AllLineFree(kept) && forall i :: 0 <= i < |kept| ==> kept[i] in lines
  {
    hide Trim;
  }

  /** For every text that parses: what was parsed, written out and parsed again, in either mode, is the
      same patch if and only if no stored line ends with a carriage return. None does when no line of
      the text, as split, ends with two. */
  lemma {:induction false} WriteUndoesParse(text: string, mode: ParseMode, again: ParseMode)
    requires Parsed(text, mode).Ok?
    ensures var p := Parsed(text, mode).value;
            Parsed(WritePatch(p.hunks, p.environmentId), again) == Ok(p) <==> NoStoredCR(p.hunks)
    ensures (forall line :: line in Lines(Trim(text)) ==> !EndsInCR(StripCR(line))) ==>
              NoStoredCR(Parsed(text, mode).value.hunks)
  {
    hide ParseLines, Lines, Trim, CheckStrict, CheckLenient, HunkWellFormed, WritePatch, AllWellFormed, HunkHasNoCR, IdOk;
    var lines := Lines(Trim(text));
    LinesFree(Trim(text));
    var kept := Checked(lines, mode).value;
    CheckedLines(lines, mode);
    ParsedLinesWellFormed(kept);
    SplitJoin(kept);
    var p := Parsed(text, mode).value;
    ParseUndoesWritePatch(p.hunks, p.environmentId, again);
  }
}
