/** What the streaming parser keeps over every text it can be fed. */
module ParserInvariants {
  import opened Basics
  import opened Text
  import opened PatchSyntax
  import opened StreamingParser

  /** Nothing is missing: an update hunk has chunks and every chunk has a line. */
  predicate Complete(hunk: Hunk) {
    hunk.UpdateFile? ==> hunk.chunks != [] && forall i :: 0 <= i < |hunk.chunks| ==> !Hollow(hunk.chunks[i])
  }

  /** Only the last chunk may still be waiting for lines, and never once it is sealed. */
  predicate Growing(hunk: Hunk) {
    hunk.UpdateFile? ==>
      && (forall i :: 0 <= i < |hunk.chunks| - 1 ==> !Hollow(hunk.chunks[i]))
      && (Sealed(hunk.chunks) ==> !LastHollow(hunk.chunks))
  }

  /** The mode names the kind of the last hunk, and every earlier hunk is finished. */
  predicate Coherent(st: State) {
    && (st.mode.NotStarted? ==> st.hunks == [] && st.environmentId.None?)
    && (st.mode.StartedPatch? ==> st.hunks == [])
    && (st.mode.InAddFile? ==> st.hunks != [] && st.hunks[|st.hunks| - 1].AddFile?)
    && (st.mode.InDeleteFile? ==> st.hunks != [] && st.hunks[|st.hunks| - 1].DeleteFile?)
    && (st.mode.InUpdateFile? ==> st.hunks != [] && st.hunks[|st.hunks| - 1].UpdateFile?)
    && (forall i :: 0 <= i < |st.hunks| - 1 ==> Complete(st.hunks[i]))
    && (st.hunks != [] ==> Growing(st.hunks[|st.hunks| - 1]))
    && (st.mode.EndedPatch? && st.hunks != [] ==> Complete(st.hunks[|st.hunks| - 1]))
  }

  predicate ChunkGrows(c: UpdateFileChunk, d: UpdateFileChunk) {
    && d.changeContext == c.changeContext && c.oldLines <= d.oldLines && c.newLines <= d.newLines
    && (c.isEndOfFile ==> d == c)
  }

  predicate ChunksGrow(cs: seq<UpdateFileChunk>, ds: seq<UpdateFileChunk>) {
    && |cs| <= |ds|
    && (forall i :: 0 <= i < |cs| - 1 ==> ds[i] == cs[i])
    && (cs != [] ==> ChunkGrows(cs[|cs| - 1], ds[|cs| - 1]))
  }

  predicate Grows(h: Hunk, k: Hunk) {
    match h
    case AddFile(path, contents) => k.AddFile? && k.path == path && contents <= k.contents
    case DeleteFile(_) => k == h
    case UpdateFile(path, movePath, chunks) =>
      && k.UpdateFile? && k.path == path && (movePath.Some? ==> k.movePath == movePath)
      && ChunksGrow(chunks, k.chunks)
  }

  /** Hunks before the last never change and the last only grows. */
  predicate Extends(hs: seq<Hunk>, ks: seq<Hunk>) {
    && |hs| <= |ks|
    && (forall i :: 0 <= i < |hs| - 1 ==> ks[i] == hs[i])
    && (hs != [] ==> Grows(hs[|hs| - 1], ks[|hs| - 1]))
  }

  lemma ChunksGrowTransitive(cs: seq<UpdateFileChunk>, ds: seq<UpdateFileChunk>, es: seq<UpdateFileChunk>)
    requires ChunksGrow(cs, ds) && ChunksGrow(ds, es)
    ensures ChunksGrow(cs, es)
  {
    if cs != [] && |cs| < |ds| {
      assert es[|cs| - 1] == ds[|cs| - 1];
    }
  }

  lemma ExtendsTransitive(hs: seq<Hunk>, ks: seq<Hunk>, ls: seq<Hunk>)
    requires Extends(hs, ks) && Extends(ks, ls)
    ensures Extends(hs, ls)
  {
    hide ChunksGrow;
    if hs != [] {
      var n := |hs| - 1;
      if |hs| < |ks| {
        assert ls[n] == ks[n];
      } else if hs[n].UpdateFile? {
        ChunksGrowTransitive(hs[n].chunks, ks[n].chunks, ls[n].chunks);
      }
    }
  }

  lemma GrowsReflexive(h: Hunk)
    ensures Grows(h, h)
  {
  }

  lemma BodyKeeps(hunk: Hunk, line: string, n: nat)
    requires hunk.UpdateFile? && Growing(hunk) && StepBody(hunk, line, n).Ok?
    ensures var h := StepBody(hunk, line, n).value;
            h.UpdateFile? && Growing(h) && Grows(hunk, h)
  {
    hide BodyOf, TrimEnd;
    var h := StepBody(hunk, line, n).value;
    var cs, ds := hunk.chunks, h.chunks;
    if cs != [] && ds != cs && BodyOf(line).Context? {
      assert ds[|cs| - 1] == cs[|cs| - 1];
    }
  }

  /** Leaving a hunk is only allowed when it is complete. */
  lemma LeavingIsComplete(st: State, line: string, n: nat)
    requires Coherent(st) && LeavingProblem(st, line, n).None?
    ensures st.hunks != [] ==> Complete(st.hunks[|st.hunks| - 1])
  {
    if st.hunks != [] && st.hunks[|st.hunks| - 1].UpdateFile? {
      var chunks := st.hunks[|st.hunks| - 1].chunks;
      assert st.mode.InUpdateFile? || st.mode.EndedPatch?;
      assert chunks != [] && !LastHollow(chunks);
    }
  }

  lemma PushKeeps(st: State, mode: Mode, hunk: Hunk)
    requires Coherent(st) && (st.hunks != [] ==> Complete(st.hunks[|st.hunks| - 1]))
    requires match mode
             case InAddFile => hunk.AddFile?
             case InDeleteFile => hunk.DeleteFile?
             case InUpdateFile(_) => hunk.UpdateFile? && hunk.chunks == []
             case _ => false
    ensures var st' := st.(mode := mode, hunks := st.hunks + [hunk]);
            Coherent(st') && Extends(st.hunks, st'.hunks)
  {
    if st.hunks != [] {
      GrowsReflexive(st.hunks[|st.hunks| - 1]);
    }
  }

  lemma HeaderKeeps(st: State, line: string, n: nat)
    requires Coherent(st) && !st.mode.NotStarted?
    requires StepHeader(st, line, n).Ok? && StepHeader(st, line, n).value.Some?
    ensures var st' := StepHeader(st, line, n).value.value;
            && Coherent(st') && Extends(st.hunks, st'.hunks)
            && (st.environmentId.Some? ==> st'.environmentId == st.environmentId)
  {
    hide HeaderOf, Trim, LeavingProblem, Growing, Complete, Grows;
    if st.hunks != [] {
      GrowsReflexive(st.hunks[|st.hunks| - 1]);
    }
    if !(st.mode.StartedPatch? && ENVIRONMENT_ID <= line) {
      LeavingIsComplete(st, line, n);
      match HeaderOf(line)
      case EndPatch =>
      case Add(path) => PushKeeps(st, InAddFile, AddFile(path, ""));
      case Delete(path) => PushKeeps(st, InDeleteFile, DeleteFile(path));
      case Update(path) => PushKeeps(st, InUpdateFile(n), UpdateFile(path, None, []));
      case NoHeader =>
    }
  }

  lemma ContentKeeps(st: State, line: string, n: nat)
    requires Coherent(st) && StepContent(st, line, n).Ok?
    ensures var st' := StepContent(st, line, n).value;
            Coherent(st') && Extends(st.hunks, st'.hunks) && st'.environmentId == st.environmentId
  {
    hide StepBody, Growing, Grows, Complete;
    var last := |st.hunks| - 1;
    if st.mode.InUpdateFile? {
      BodyKeeps(st.hunks[last], line, n);
    } else {
      var AddFile(path, contents) := st.hunks[last];
      AddingGrows(path, contents, contents + line[1..] + "\n");
    }
  }

  lemma AddingGrows(path: string, contents: string, longer: string)
    requires contents <= longer
    ensures Growing(AddFile(path, longer)) && Grows(AddFile(path, contents), AddFile(path, longer))
  {
  }

  /** One accepted line keeps the state coherent, and only extends the hunks. */
  lemma StepKeeps(st: State, line: string, n: nat)
    requires Coherent(st) && Step(st, line, n).Ok?
    ensures var st' := Step(st, line, n).value;
            && Coherent(st') && Extends(st.hunks, st'.hunks)
            && (st.environmentId.Some? ==> st'.environmentId == st.environmentId)
  {
    hide StepHeader, StepContent, Trim, TrimEnd, Growing, Grows, Complete;
    if st.hunks != [] {
      GrowsReflexive(st.hunks[|st.hunks| - 1]);
    }
    if !st.mode.NotStarted? && !st.mode.EndedPatch? {
      var view := if st.mode.InUpdateFile? then TrimEnd(line) else Trim(line);
      if StepHeader(st, view, n).value.Some? {
        HeaderKeeps(st, view, n);
      } else {
        ContentKeeps(st, line, n);
      }
    }
  }

  /** What any amount of text leaves in the parser. */
  ghost predicate Evolved(before: State, after: State) {
    && Coherent(after) && Extends(before.hunks, after.hunks)
    && (before.environmentId.Some? ==> after.environmentId == before.environmentId)
  }

  lemma EvolvedReflexive(st: State)
    requires Coherent(st)
    ensures Evolved(st, st)
  {
    if st.hunks != [] {
      GrowsReflexive(st.hunks[|st.hunks| - 1]);
    }
  }

  lemma {:induction false} FeedKeeps(p: Parser, text: string)
    requires Coherent(p.state)
    ensures Evolved(p.state, Feed(p, text).parser.state)
    decreases |text|
  {
    hide Step, Coherent, Extends;
    if text == [] {
      EvolvedReflexive(p.state);
    } else if text[0] == '\n' {
      var line := CompleteLine(p);
      if line.error.Some? {
        EvolvedReflexive(p.state);
      } else {
        StepKeeps(p.state, StripCR(p.lineBuffer), p.lineNumber + 1);
        FeedKeeps(line.parser, text[1..]);
        ExtendsTransitive(p.state.hunks, line.parser.state.hunks, Feed(p, text).parser.state.hunks);
      }
    } else {
      FeedKeeps(p.(lineBuffer := p.lineBuffer + [text[0]]), text[1..]);
    }
  }

  lemma {:induction false} FinishKeeps(p: Parser)
    requires Coherent(p.state)
    ensures Evolved(p.state, Finish(p).parser.state)
    ensures var r := Finish(p).result;
            r.Ok? ==> r.value == Finish(p).parser.state.hunks && forall i :: 0 <= i < |r.value| ==> Complete(r.value[i])
  {
    hide Step, Trim, LeavingProblem, Grows, Growing, Complete;
    EvolvedReflexive(p.state);
    var n := p.lineNumber + 1;
    if p.lineBuffer != "" {
      if Trim(p.lineBuffer) == END_PATCH {
        if LeavingProblem(p.state, END_PATCH, n).None? {
          LeavingIsComplete(p.state, END_PATCH, n);
        }
      } else if Step(p.state, p.lineBuffer, n).Ok? {
        StepKeeps(p.state, p.lineBuffer, n);
      }
    }
  }

  /** Whatever the deltas, what the parser shows stays coherent as it grows, and a finished patch
      has no update hunk without chunks and no chunk without lines. */
  lemma {:induction false} AcceptedPatchIsComplete(deltas: seq<string>, more: string)
    ensures var seen := FeedAll(Fresh, deltas);
            && Coherent(seen.parser.state)
            && Evolved(seen.parser.state, Feed(seen.parser, more).parser.state)
            && var done := Finish(Feed(seen.parser, more).parser).result;
               done.Ok? ==> && Extends(seen.parser.state.hunks, done.value)
                            && forall i :: 0 <= i < |done.value| ==> Complete(done.value[i])
  {
    hide Coherent, Extends, Complete, Finish, Feed;
    DeltaBoundariesDoNotMatter(Fresh, deltas);
    FreshCoherent();
    FeedKeeps(Fresh, Concat(deltas));
    var seen := FeedAll(Fresh, deltas).parser;
    FeedKeeps(seen, more);
    var fed := Feed(seen, more).parser;
    FinishKeeps(fed);
    ExtendsTransitive(seen.state.hunks, fed.state.hunks, Finish(fed).parser.state.hunks);
  }

  lemma FreshCoherent()
    ensures Coherent(Fresh.state)
  {
  }

  // ---------------------------------------------------------------- which lines are refused

  /** The line opens a hunk or ends the patch. */
  predicate MarksHunk(line: string) {
    line == END_PATCH || ADD_FILE <= line || DELETE_FILE <= line || UPDATE_FILE <= line
  }

  predicate MarksContext(line: string) { line == EMPTY_CONTEXT || CONTEXT <= line }

  /** A line of an update hunk that opens no hunk: after an end-of-file marker only blank lines and
      context markers; a move before anything else, and once; a context or end-of-file marker only when
      the chunk before it has lines; and otherwise an empty line or one that starts with ' ', '+' or '-'. */
  predicate FitsUpdate(hunk: Hunk, line: string)
    requires hunk.UpdateFile?
  {
    var u := TrimEnd(line);
    if Sealed(hunk.chunks) then u == "" || MarksContext(u)
    else if MOVE_TO <= u then hunk.chunks == [] && hunk.movePath == None
    else if MarksContext(u) || u == END_OF_FILE then !LastHollow(hunk.chunks)
    else line == "" || line[0] in {' ', '+', '-'}
  }

  /** The line can come next. */
  predicate Fits(st: State, line: string)
    requires Coherent(st)
  {
    match st.mode
    case NotStarted => Trim(line) == BEGIN_PATCH
    case StartedPatch =>
      var t := Trim(line);
      MarksHunk(t) || (ENVIRONMENT_ID <= t && st.environmentId == None && Trim(t[|ENVIRONMENT_ID|..]) != "")
    case InAddFile => MarksHunk(Trim(line)) || "+" <= line
    case InDeleteFile => MarksHunk(Trim(line))
    case InUpdateFile(_) =>
      var hunk := st.hunks[|st.hunks| - 1];
      if MarksHunk(TrimEnd(line)) then hunk.chunks != [] && !LastHollow(hunk.chunks) else FitsUpdate(hunk, line)
    case EndedPatch => Trim(line) == ""
  }

  /** The problem is one of a hunk and names its line: the line refused, or the header of an update
      hunk that ends without a chunk. */
  predicate NamesLine(st: State, error: ParseError, n: nat) {
    match error
    case InvalidPatch(_) => !st.mode.InUpdateFile? && !st.mode.InAddFile? && !st.mode.InDeleteFile?
    case InvalidHunk(problem, lineNumber) =>
      if problem.EmptyUpdateHunk? then st.mode.InUpdateFile? && lineNumber == st.mode.hunkLineNumber else lineNumber == n
  }

  lemma BodyRefusedIff(hunk: Hunk, line: string, n: nat)
    requires hunk.UpdateFile? && Growing(hunk)
    ensures StepBody(hunk, line, n).Err? <==> !FitsUpdate(hunk, line)
    ensures StepBody(hunk, line, n).Err? ==> StepBody(hunk, line, n).error.InvalidHunk? && StepBody(hunk, line, n).error.lineNumber == n
    ensures StepBody(hunk, line, n).Err? ==> !StepBody(hunk, line, n).error.problem.EmptyUpdateHunk?
  {
    TrimEndRemovesSuffix(line);
    hide TrimEnd;
    MarkersDiffer();
    if TrimEnd(line) != "" { assert line[0] == TrimEnd(line)[0]; }
  }

  lemma MarkersDiffer()
    ensures MOVE_TO[0] == END_OF_FILE[0] == '*' && MOVE_TO[4] != END_OF_FILE[4]
    ensures CONTEXT[0] == EMPTY_CONTEXT[0] == '@' && |CONTEXT| > 0
  {
  }

  lemma HeaderRefusedIff(st: State, line: string, n: nat)
    requires Coherent(st) && !st.mode.NotStarted? && !st.mode.EndedPatch?
    ensures var r := StepHeader(st, line, n);
            var environment := st.mode.StartedPatch? && ENVIRONMENT_ID <= line;
            && (r.Ok? && r.value.None? <==> !environment && !MarksHunk(line))
            && (r.Err? <==>
                if environment then st.environmentId.Some? || Trim(line[|ENVIRONMENT_ID|..]) == ""
                else MarksHunk(line) && st.mode.InUpdateFile?
                     && (st.hunks[|st.hunks| - 1].chunks == [] || LastHollow(st.hunks[|st.hunks| - 1].chunks)))
            && (r.Err? ==> NamesLine(st, r.error, n))
            && (environment ==> !MarksHunk(line))
  {
    hide Trim, Hollow, Complete;
    assert ENVIRONMENT_ID[4..6] == "En" && END_PATCH[8] != ENVIRONMENT_ID[8];
    assert ADD_FILE[4] == 'A' && DELETE_FILE[4] == 'D' && UPDATE_FILE[4] == 'U';
  }

  /** A line is refused exactly when it does not fit what was read before it, and the error names it. */
  lemma LineRefusedIff(st: State, line: string, n: nat)
    requires Coherent(st)
    ensures Step(st, line, n).Err? <==> !Fits(st, line)
    ensures Step(st, line, n).Err? ==> NamesLine(st, Step(st, line, n).error, n)
  {
    hide Trim, TrimEnd, StepHeader, StepBody, Hollow, Complete, Growing, MarksHunk, FitsUpdate;
    if !st.mode.NotStarted? && !st.mode.EndedPatch? {
      HeaderRefusedIff(st, if st.mode.InUpdateFile? then TrimEnd(line) else Trim(line), n);
      if st.mode.InUpdateFile? {
        BodyRefusedIff(st.hunks[|st.hunks| - 1], line, n);
      }
    }
  }

  /** The line number an update hunk carries is that of its header. */
  lemma UpdateKnowsItsLine(st: State, line: string, n: nat)
    requires Step(st, line, n).Ok? && Step(st, line, n).value.mode.InUpdateFile?
    ensures var after := Step(st, line, n).value;
            if |after.hunks| > |st.hunks| then after.mode == InUpdateFile(n) && UPDATE_FILE <= Trim(line)
            else after.mode == st.mode && |after.hunks| == |st.hunks|
  {
    TrimEndRemovesSuffix(line);
    if st.mode.InUpdateFile? && UPDATE_FILE <= TrimEnd(line) {
      assert !IsSpace(UPDATE_FILE[0]) && TrimEnd(line)[0] == UPDATE_FILE[0];
      assert Trim(line) == TrimEnd(line);
    }
    hide Trim, TrimEnd, StepBody, LeavingProblem;
  }

  /** The line is a marker, so white space behind it means nothing. */
  predicate Marks(line: string) { MarksHunk(line) || MOVE_TO <= line || MarksContext(line) || line == END_OF_FILE }

  /** In an update hunk an empty line means a kept empty line, as one space does; a blank line behind an
      end-of-file marker means nothing; and neither does white space behind a marker. */
  lemma BlanksInUpdate(st: State, line: string, n: nat)
    requires Coherent(st) && st.mode.InUpdateFile?
    ensures Step(st, "", n) == Step(st, " ", n)
    ensures Sealed(st.hunks[|st.hunks| - 1].chunks) && TrimEnd(line) == "" ==> Step(st, line, n) == Ok(st)
    ensures Marks(TrimEnd(line)) && Step(st, line, n).Ok? ==> Step(st, TrimEnd(line), n) == Step(st, line, n)
  {
    TrimEndRemovesSuffix(line);
    assert TrimEnd("") == "" && TrimEnd(" ") == "";
    assert TrimEnd(TrimEnd(line)) == TrimEnd(line);
    hide TrimEnd, Complete, Growing, Hollow, LeavingProblem;
    var hunk := st.hunks[|st.hunks| - 1];
    assert st.hunks[..|st.hunks| - 1] + [hunk] == st.hunks;
    MarkersDiffer();
    assert " "[1..] == "" && BodyOf("") == BodyOf(" ");
  }

  // ---------------------------------------------------------------- the unterminated end marker

  lemma EmptyTrim()
    ensures Trim("") == ""
  {
  }

  lemma CompleteCanLeave(st: State, line: string, n: nat)
    requires Coherent(st) && (st.hunks != [] ==> Complete(st.hunks[|st.hunks| - 1]))
    ensures LeavingProblem(st, line, n).None?
  {
  }

  /** At the end of the input an end marker without a newline is accepted in every mode, begun or not
      and ended or not, exactly when no hunk is left incomplete. Ended by a newline, the same line is
      rejected before the begin marker and after the end marker. */
  lemma EndMarkerInAnyMode(p: Parser)
    requires Coherent(p.state) && Trim(p.lineBuffer) == END_PATCH
    ensures var r := StreamingParser.Finish(p).result;
            && (r.Ok? <==> p.state.hunks == [] || Complete(p.state.hunks[|p.state.hunks| - 1]))
            && (r.Ok? ==> r.value == p.state.hunks)
    ensures p.state.mode.NotStarted? ==> CompleteLine(p).error == Some(InvalidPatch(FirstLineNotBegin))
    ensures p.state.mode.EndedPatch? ==> CompleteLine(p).error == Some(InvalidPatch(LastLineNotEnd))
  {
    assert p.lineBuffer != "" by { EmptyTrim(); }
    StripCRTrims(p.lineBuffer);
    assert BEGIN_PATCH[4] != END_PATCH[4];
    var st, n := p.state, p.lineNumber + 1;
    if st.hunks == [] || Complete(st.hunks[|st.hunks| - 1]) {
      CompleteCanLeave(st, END_PATCH, n);
    } else if LeavingProblem(st, END_PATCH, n).None? {
      LeavingIsComplete(st, END_PATCH, n);
    }
    hide Trim, LeavingProblem, Coherent, Complete, StripCR;
  }

  /** The text is fed whole and the input ends there, without an error. */
  predicate Accepted(text: string) {
    Feed(Fresh, text).error.None? && StreamingParser.Finish(Feed(Fresh, text).parser).result.Ok?
  }

  predicate Begun(text: string) { Trim(StripCR(Split(text)[0])) == BEGIN_PATCH }

  /** Which accepted texts were never begun: exactly those of one line without a newline, and such a
      text is accepted exactly when it is the end marker alone. */
  lemma {:induction false} AcceptedIsBegunIff(text: string)
    ensures '\n' !in text ==> (Accepted(text) <==> Trim(text) == END_PATCH)
    ensures Accepted(text) ==> (Begun(text) <==> '\n' in text)
  {
    hide Trim, StepHeader, StepContent, LeavingProblem;
    FeedIsFoldOfLines(Fresh, text);
    JoinSplit(text);
    var pieces := Split(text);
    assert "" + pieces[0] == pieces[0];
    assert BEGIN_PATCH[4] != END_PATCH[4];
    if '\n' !in text {
      SplitLine(text);
      OneLineAccepted(text);
      StripCRTrims(text);
    } else {
      assert |pieces| > 1 by { assert '\n' !in pieces[0]; }
    }
  }

  /** All of the input is one unterminated line. */
  lemma OneLineAccepted(line: string)
    ensures StreamingParser.Finish(Fresh.(lineBuffer := line)).result.Ok? <==> Trim(line) == END_PATCH
  {
    hide Trim, StepHeader, StepContent;
    EmptyTrim();
  }
}
