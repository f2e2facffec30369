/** Patches as documents in the documented grammar, and what the parser makes of their lines. */
module PatchDocument {
  import opened Basics
  import opened Text
  import opened PatchSyntax
  import opened StreamingParser

  /** One line of a chunk. A kept empty line may be written as an empty line. */
  datatype DiffLine = Kept(text: string) | KeptBlank | Added(text: string) | Removed(text: string)

  /** How a chunk begins. Only the first chunk of a hunk may go without a marker. */
  datatype Marker = NoMarker | EmptyMarker | NamedMarker(name: string)

  datatype ChunkDoc = ChunkDoc(marker: Marker, lines: seq<DiffLine>, endOfFile: bool)

  datatype HunkDoc =
    | AddDoc(path: string, lines: seq<string>)
    | DeleteDoc(path: string)
    | UpdateDoc(path: string, movePath: Option<string>, chunks: seq<ChunkDoc>)

  datatype PatchDoc = PatchDoc(environmentId: Option<string>, hunks: seq<HunkDoc>)

  // ---------------------------------------------------------------- what a document means

  function OldOf(line: DiffLine): seq<string> {
    match line case Kept(t) => [t] case KeptBlank => [""] case Added(_) => [] case Removed(t) => [t]
  }

  function NewOf(line: DiffLine): seq<string> {
    match line case Kept(t) => [t] case KeptBlank => [""] case Added(t) => [t] case Removed(_) => []
  }

  function OldLines(lines: seq<DiffLine>): seq<string> {
    if lines == [] then [] else OldOf(lines[0]) + OldLines(lines[1..])
  }

  function NewLines(lines: seq<DiffLine>): seq<string> {
    if lines == [] then [] else NewOf(lines[0]) + NewLines(lines[1..])
  }

  function ContextOf(marker: Marker): Option<string> {
    if marker.NamedMarker? then Some(marker.name) else None
  }

  function ChunkOf(doc: ChunkDoc): UpdateFileChunk {
    UpdateFileChunk(ContextOf(doc.marker), OldLines(doc.lines), NewLines(doc.lines), doc.endOfFile)
  }

  function ChunksOf(docs: seq<ChunkDoc>): seq<UpdateFileChunk> {
    if docs == [] then [] else [ChunkOf(docs[0])] + ChunksOf(docs[1..])
  }

  /** Every added line ends with a newline. */
  function Contents(lines: seq<string>): string {
    if lines == [] then "" else lines[0] + "\n" + Contents(lines[1..])
  }

  function HunkOf(doc: HunkDoc): Hunk {
    match doc
    case AddDoc(path, lines) => AddFile(path, Contents(lines))
    case DeleteDoc(path) => DeleteFile(path)
    case UpdateDoc(path, movePath, chunks) => UpdateFile(path, movePath, ChunksOf(chunks))
  }

  function HunksOf(docs: seq<HunkDoc>): seq<Hunk> {
    if docs == [] then [] else [HunkOf(docs[0])] + HunksOf(docs[1..])
  }

  // ---------------------------------------------------------------- how it is written

  function DiffText(line: DiffLine): string {
    match line
    case Kept(t) => " " + t
    case KeptBlank => ""
    case Added(t) => "+" + t
    case Removed(t) => "-" + t
  }

  function DiffTexts(lines: seq<DiffLine>): seq<string> {
    if lines == [] then [] else [DiffText(lines[0])] + DiffTexts(lines[1..])
  }

  function MarkerText(marker: Marker): seq<string> {
    match marker case NoMarker => [] case EmptyMarker => [EMPTY_CONTEXT] case NamedMarker(name) => [CONTEXT + name]
  }

  function EofText(endOfFile: bool): seq<string> { if endOfFile then [END_OF_FILE] else [] }

  function ChunkText(doc: ChunkDoc): seq<string> {
    MarkerText(doc.marker) + DiffTexts(doc.lines) + EofText(doc.endOfFile)
  }

  function ChunksText(docs: seq<ChunkDoc>): seq<string> {
    if docs == [] then [] else ChunkText(docs[0]) + ChunksText(docs[1..])
  }

  function AddedTexts(lines: seq<string>): seq<string> {
    if lines == [] then [] else ["+" + lines[0]] + AddedTexts(lines[1..])
  }

  function HunkText(doc: HunkDoc): seq<string> {
    match doc
    case AddDoc(path, lines) => [ADD_FILE + path] + AddedTexts(lines)
    case DeleteDoc(path) => [DELETE_FILE + path]
    case UpdateDoc(path, movePath, chunks) =>
      [UPDATE_FILE + path] + (if movePath.Some? then [MOVE_TO + movePath.value] else []) + ChunksText(chunks)
  }

  function HunksText(docs: seq<HunkDoc>): seq<string> {
    if docs == [] then [] else HunkText(docs[0]) + HunksText(docs[1..])
  }

  function EnvironmentText(id: Option<string>): seq<string> {
    if id.Some? then [ENVIRONMENT_ID + " " + id.value] else []
  }

  function PatchLines(doc: PatchDoc): seq<string> {
    [BEGIN_PATCH] + EnvironmentText(doc.environmentId) + HunksText(doc.hunks) + [END_PATCH]
  }

  // ---------------------------------------------------------------- which documents are well formed

  predicate NameOk(s: string) { s != "" && '\n' !in s && !IsSpace(s[|s| - 1]) }

  predicate DiffOk(line: DiffLine) { line.KeptBlank? || '\n' !in line.text }

  predicate ChunkOk(doc: ChunkDoc) {
    && (doc.marker.NamedMarker? ==> NameOk(doc.marker.name))
    && (doc.marker.NoMarker? ==> doc.lines != [])
    && forall i :: 0 <= i < |doc.lines| ==> DiffOk(doc.lines[i])
  }

  predicate ChunksOk(docs: seq<ChunkDoc>) {
    && (forall i :: 0 <= i < |docs| ==> ChunkOk(docs[i]))
    && (forall i :: 0 < i < |docs| ==> !docs[i].marker.NoMarker?)
  }

  predicate HunkOk(doc: HunkDoc) {
    && NameOk(doc.path)
    && (doc.AddDoc? ==> AllLineFree(doc.lines))
    && (doc.UpdateDoc? ==> (doc.movePath.Some? ==> NameOk(doc.movePath.value)) && ChunksOk(doc.chunks))
  }

  predicate IdOk(id: Option<string>) { id.Some? ==> Tight(id.value) && '\n' !in id.value }

  /** The document is grammatical. */
  predicate PatchOk(doc: PatchDoc) {
    IdOk(doc.environmentId) && forall i :: 0 <= i < |doc.hunks| ==> HunkOk(doc.hunks[i])
  }

  predicate AllFilled(docs: seq<ChunkDoc>) { forall i :: 0 <= i < |docs| ==> docs[i].lines != [] }

  /** The grammar lets an update go without chunks, and a chunk without lines; the parser does not. */
  predicate Full(doc: HunkDoc) { doc.UpdateDoc? ==> doc.chunks != [] && AllFilled(doc.chunks) }

  predicate AllFull(docs: seq<HunkDoc>) { forall i :: 0 <= i < |docs| ==> Full(docs[i]) }

  // ---------------------------------------------------------------- lines through the parser

  /** Lines folded through `Step`, the first of them being line `n + 1`. */
  function Run(st: State, lines: seq<string>, n: nat): Result<State, ParseError>
    decreases |lines|
  {
    if lines == [] then Ok(st)
    else
      var r := Step(st, lines[0], n + 1);
      if r.Err? then r else Run(r.value, lines[1..], n + 1)
  }

  lemma {:induction false} RunAppend(st: State, a: seq<string>, b: seq<string>, n: nat)
    requires Run(st, a, n).Ok?
    ensures Run(st, a + b, n) == Run(Run(st, a, n).value, b, n + |a|)
    decreases |a|
  {
    hide Step;
    if a == [] {
      assert a + b == b;
    } else {
      assert (a + b)[1..] == a[1..] + b;
      RunAppend(Step(st, a[0], n + 1).value, a[1..], b, n + 1);
    }
  }

  lemma RunOne(st: State, line: string, n: nat)
    ensures Run(st, [line], n) == Step(st, line, n + 1)
  {
    hide Step;
    assert [line][1..] == [];
  }

  lemma {:induction false} RunStops(st: State, a: seq<string>, b: seq<string>, n: nat)
    requires Run(st, a, n).Err?
    ensures Run(st, a + b, n).Err?
    decreases |a|
  {
    hide Step;
    assert (a + b)[1..] == a[1..] + b;
    if Step(st, a[0], n + 1).Ok? {
      RunStops(Step(st, a[0], n + 1).value, a[1..], b, n + 1);
    }
  }

  /** The parser over complete lines is the fold of its steps, each line less one carriage return. */
  lemma {:induction false} FeedLinesRuns(p: Parser, lines: seq<string>, last: string)
    requires p.lineBuffer == ""
    ensures var r, fed := Run(p.state, StripAll(lines), p.lineNumber), FeedLines(p, lines + [last]);
            if r.Ok? then fed == Fed(Parser(last, r.value, p.lineNumber + |lines|), None) else fed.error.Some?
    decreases |lines|
  {
    hide Step;
    if lines == [] {
      assert "" + last == last;
    } else {
      assert "" + lines[0] == lines[0];
      assert (lines + [last])[1..] == lines[1..] + [last];
      assert StripAll(lines)[1..] == StripAll(lines[1..]);
      var next := Step(p.state, StripCR(lines[0]), p.lineNumber + 1);
      if next.Ok? {
        FeedLinesRuns(Parser("", next.value, p.lineNumber + 1), lines[1..], last);
      }
    }
  }

  // ---------------------------------------------------------------- headers

  lemma HeadersRecognised(path: string)
    ensures HeaderOf(ADD_FILE + path) == Add(path)
    ensures HeaderOf(DELETE_FILE + path) == Delete(path)
    ensures HeaderOf(UPDATE_FILE + path) == Update(path)
    ensures !(ENVIRONMENT_ID <= ADD_FILE + path)
    ensures !(ENVIRONMENT_ID <= DELETE_FILE + path)
    ensures !(ENVIRONMENT_ID <= UPDATE_FILE + path)
  {
    var a, d, u := ADD_FILE + path, DELETE_FILE + path, UPDATE_FILE + path;
    assert a[4] == 'A' && d[4] == 'D' && u[4] == 'U';
    assert END_PATCH[4] == 'E' && ENVIRONMENT_ID[4] == 'E';
    assert ADD_FILE[4] == 'A' && DELETE_FILE[4] == 'D' && UPDATE_FILE[4] == 'U';
  }

  lemma NamedLineTight(marker: string, name: string)
    requires marker != "" && !IsSpace(marker[0]) && NameOk(name)
    ensures Trim(marker + name) == marker + name && TrimEnd(marker + name) == marker + name
  {
    TightTrims(marker + name);
  }

  /** Between hunks: the patch is open and the current hunk can be left. */
  ghost predicate Ready(st: State) {
    && !st.mode.NotStarted? && !st.mode.EndedPatch?
    && (st.hunks != [] && st.hunks[|st.hunks| - 1].UpdateFile? ==>
          var chunks := st.hunks[|st.hunks| - 1].chunks; chunks != [] && !LastHollow(chunks))
  }

  lemma ReadyCanLeave(st: State, line: string, n: nat)
    requires Ready(st)
    ensures LeavingProblem(st, line, n).None?
  {
  }

  lemma HeaderStep(st: State, line: string, n: nat)
    requires Ready(st) && Trim(line) == line && TrimEnd(line) == line && !(ENVIRONMENT_ID <= line)
    ensures HeaderOf(line).Add? ==>
              Step(st, line, n) == Ok(st.(mode := InAddFile, hunks := st.hunks + [AddFile(HeaderOf(line).path, "")]))
    ensures HeaderOf(line).Delete? ==>
              Step(st, line, n) == Ok(st.(mode := InDeleteFile, hunks := st.hunks + [DeleteFile(HeaderOf(line).path)]))
    ensures HeaderOf(line).Update? ==>
              Step(st, line, n) == Ok(st.(mode := InUpdateFile(n), hunks := st.hunks + [UpdateFile(HeaderOf(line).path, None, [])]))
  {
    hide Trim, TrimEnd, HeaderOf, LeavingProblem;
    ReadyCanLeave(st, line, n);
  }

  // ---------------------------------------------------------------- bodies of add hunks

  function Adding(hs: seq<Hunk>, path: string, contents: string, env: Option<string>): State {
    State(InAddFile, hs + [AddFile(path, contents)], env)
  }

  lemma AddedLineStep(hs: seq<Hunk>, path: string, contents: string, env: Option<string>, line: string, n: nat)
    ensures Step(Adding(hs, path, contents, env), "+" + line, n)
         == Ok(Adding(hs, path, contents + line + "\n", env))
  {
    var text := "+" + line;
    var st := Adding(hs, path, contents, env);
    assert HeaderOf(Trim(text)) == NoHeader by {
      TrimEndRemovesSuffix(text);
      var t := TrimEnd(text);
      assert !IsSpace(text[0]);
      assert t != [] && t[0] == '+';
      assert Trim(text)[0] == '+';
      assert END_PATCH[0] == ADD_FILE[0] == DELETE_FILE[0] == UPDATE_FILE[0] == '*';
    }
    hide Trim, HeaderOf;
    assert text[1..] == line;
    assert st.hunks[..|st.hunks| - 1] == hs;
  }

  lemma {:induction false} AddedLinesRun(hs: seq<Hunk>, path: string, contents: string, env: Option<string>, lines: seq<string>, n: nat)
    ensures Run(Adding(hs, path, contents, env), AddedTexts(lines), n)
         == Ok(Adding(hs, path, contents + Contents(lines), env))
    decreases |lines|
  {
    hide Step;
    if lines == [] {
      assert contents + "" == contents;
    } else {
      AddedLineStep(hs, path, contents, env, lines[0], n + 1);
      assert AddedTexts(lines)[1..] == AddedTexts(lines[1..]);
      AddedLinesRun(hs, path, contents + lines[0] + "\n", env, lines[1..], n + 1);
      assert contents + Contents(lines) == contents + lines[0] + "\n" + Contents(lines[1..]);
    }
  }

  // ---------------------------------------------------------------- bodies of update hunks

  /** Lines of an update hunk folded over the hunk alone. */
  function RunBody(hunk: Hunk, lines: seq<string>, n: nat): Result<Hunk, ParseError>
    requires hunk.UpdateFile?
    decreases |lines|
  {
    if lines == [] then Ok(hunk)
    else
      var r := StepBody(hunk, lines[0], n + 1);
      if r.Err? then r else RunBody(r.value, lines[1..], n + 1)
  }

  lemma {:induction false} RunBodyAppend(hunk: Hunk, a: seq<string>, b: seq<string>, n: nat)
    requires hunk.UpdateFile? && RunBody(hunk, a, n).Ok?
    ensures RunBody(hunk, a, n).value.UpdateFile?
    ensures RunBody(hunk, a + b, n) == RunBody(RunBody(hunk, a, n).value, b, n + |a|)
    decreases |a|
  {
    if a == [] {
      assert a + b == b;
    } else {
      assert (a + b)[1..] == a[1..] + b;
      RunBodyAppend(StepBody(hunk, a[0], n + 1).value, a[1..], b, n + 1);
    }
  }

  predicate BodyText(line: string) { HeaderOf(TrimEnd(line)).NoHeader? }

  predicate BodyTexts(lines: seq<string>) { forall i :: 0 <= i < |lines| ==> BodyText(lines[i]) }

  function Updating(at: nat, hs: seq<Hunk>, hunk: Hunk, env: Option<string>): State {
    State(InUpdateFile(at), hs + [hunk], env)
  }

  lemma {:induction false} BodyRuns(at: nat, hs: seq<Hunk>, hunk: Hunk, env: Option<string>, lines: seq<string>, n: nat)
    requires hunk.UpdateFile? && BodyTexts(lines) && RunBody(hunk, lines, n).Ok?
    ensures Run(Updating(at, hs, hunk, env), lines, n) == Ok(Updating(at, hs, RunBody(hunk, lines, n).value, env))
    decreases |lines|
  {
    hide StepBody, HeaderOf, TrimEnd;
    if lines != [] {
      var st := Updating(at, hs, hunk, env);
      assert BodyText(lines[0]);
      assert st.hunks[..|st.hunks| - 1] == hs;
      var next := StepBody(hunk, lines[0], n + 1).value;
      assert Step(st, lines[0], n + 1) == Ok(Updating(at, hs, next, env));
      assert next.UpdateFile? by { StepBodyKind(hunk, lines[0], n + 1); }
      BodyRuns(at, hs, next, env, lines[1..], n + 1);
    }
  }

  lemma {:induction false} BodyStops(at: nat, hs: seq<Hunk>, hunk: Hunk, env: Option<string>, lines: seq<string>, n: nat)
    requires hunk.UpdateFile? && BodyTexts(lines) && RunBody(hunk, lines, n).Err?
    ensures Run(Updating(at, hs, hunk, env), lines, n).Err?
    decreases |lines|
  {
    hide StepBody, HeaderOf, TrimEnd;
    var st := Updating(at, hs, hunk, env);
    assert BodyText(lines[0]);
    assert st.hunks[..|st.hunks| - 1] == hs;
    var next := StepBody(hunk, lines[0], n + 1);
    if next.Ok? {
      assert Step(st, lines[0], n + 1) == Ok(Updating(at, hs, next.value, env));
      assert next.value.UpdateFile? by { StepBodyKind(hunk, lines[0], n + 1); }
      BodyStops(at, hs, next.value, env, lines[1..], n + 1);
    }
  }

  lemma StepBodyKind(hunk: Hunk, line: string, n: nat)
    requires hunk.UpdateFile? && StepBody(hunk, line, n).Ok?
    ensures StepBody(hunk, line, n).value.UpdateFile?
  {
  }

  lemma NotStarIsBody(line: string)
    requires line == "" || line[0] != '*'
    ensures BodyText(line)
  {
    TrimEndRemovesSuffix(line);
    assert END_PATCH[0] == ADD_FILE[0] == DELETE_FILE[0] == UPDATE_FILE[0] == '*';
  }

  /** A marker whose fifth character is not that of a header. */
  lemma OtherMarkerIsBody(line: string)
    requires |line| > 8 && TrimEnd(line) == line
    requires line[4] == 'M' || (line[4] == 'E' && line[8] == 'o')
    ensures BodyText(line)
  {
    hide TrimEnd;
    assert END_PATCH[8] == 'P' && END_PATCH[4] == 'E';
    assert ADD_FILE[4] == 'A' && DELETE_FILE[4] == 'D' && UPDATE_FILE[4] == 'U';
  }

  lemma MoveIsBody(name: string)
    requires NameOk(name)
    ensures BodyText(MOVE_TO + name) && BodyOf(MOVE_TO + name) == MoveTo(name)
  {
    var line := MOVE_TO + name;
    NamedLineTight(MOVE_TO, name);
    hide TrimEnd;
    assert line[4] == 'M';
    OtherMarkerIsBody(line);
  }

  lemma ContextIsBody(name: string)
    requires NameOk(name)
    ensures BodyText(CONTEXT + name) && BodyOf(CONTEXT + name) == Context(Some(name)) && TrimEnd(CONTEXT + name) != ""
  {
    var line := CONTEXT + name;
    NamedLineTight(CONTEXT, name);
    NotStarIsBody(line);
    hide TrimEnd, HeaderOf;
    assert line[0] == '@' && MOVE_TO[0] == '*' && |line| > |EMPTY_CONTEXT|;
  }

  lemma EmptyContextIsBody()
    ensures BodyText(EMPTY_CONTEXT) && BodyOf(EMPTY_CONTEXT) == Context(None) && TrimEnd(EMPTY_CONTEXT) != ""
  {
    TightTrims(EMPTY_CONTEXT);
    NotStarIsBody(EMPTY_CONTEXT);
    hide TrimEnd, HeaderOf;
    assert MOVE_TO[0] == '*';
  }

  lemma EofIsBody()
    ensures BodyText(END_OF_FILE) && BodyOf(END_OF_FILE) == EofMarker
  {
    TightTrims(END_OF_FILE);
    hide TrimEnd, HeaderOf;
    assert END_OF_FILE[4] == 'E' && END_OF_FILE[8] == 'o';
    OtherMarkerIsBody(END_OF_FILE);
    assert MOVE_TO[4] == 'M' && END_OF_FILE[0] == '*' && CONTEXT[0] == '@' && EMPTY_CONTEXT[0] == '@';
  }

  /** A written diff line is read back as itself. */
  lemma DiffLineReadBack(line: DiffLine)
    ensures BodyText(DiffText(line))
    ensures BodyOf(DiffText(line)) == match line
                                      case Kept(t) => Keep(t)
                                      case KeptBlank => Keep("")
                                      case Added(t) => Insert(t)
                                      case Removed(t) => Remove(t)
  {
    var text := DiffText(line);
    NotStarIsBody(text);
    TrimEndRemovesSuffix(text);
    hide TrimEnd, HeaderOf, IsSpace, BodyText;
    var u := TrimEnd(text);
    assert u == "" || u[0] == text[0];
    assert MOVE_TO[0] == '*' && EMPTY_CONTEXT[0] == '@' && CONTEXT[0] == '@' && END_OF_FILE[0] == '*';
    assert !line.KeptBlank? ==> text[1..] == line.text;
  }

  function Reading(path: string, movePath: Option<string>, done: seq<UpdateFileChunk>, chunk: UpdateFileChunk): Hunk {
    UpdateFile(path, movePath, done + [chunk])
  }

  function WithLine(chunk: UpdateFileChunk, line: DiffLine): UpdateFileChunk {
    chunk.(oldLines := chunk.oldLines + OldOf(line), newLines := chunk.newLines + NewOf(line))
  }

  function WithLines(chunk: UpdateFileChunk, lines: seq<DiffLine>): UpdateFileChunk {
    chunk.(oldLines := chunk.oldLines + OldLines(lines), newLines := chunk.newLines + NewLines(lines))
  }

  lemma WithLinesCons(chunk: UpdateFileChunk, lines: seq<DiffLine>)
    ensures lines == [] ==> WithLines(chunk, lines) == chunk
    ensures lines != [] ==> WithLines(chunk, lines) == WithLines(WithLine(chunk, lines[0]), lines[1..])
  {
    hide OldOf, NewOf;
    if lines == [] {
      assert chunk.oldLines + [] == chunk.oldLines && chunk.newLines + [] == chunk.newLines;
    } else {
      var next := WithLine(chunk, lines[0]);
      assert chunk.oldLines + OldLines(lines) == next.oldLines + OldLines(lines[1..]);
      assert chunk.newLines + NewLines(lines) == next.newLines + NewLines(lines[1..]);
    }
  }

  lemma DiffLineStep(path: string, movePath: Option<string>, done: seq<UpdateFileChunk>, chunk: UpdateFileChunk, line: DiffLine, n: nat)
    requires !chunk.isEndOfFile
    ensures StepBody(Reading(path, movePath, done, chunk), DiffText(line), n)
         == Ok(Reading(path, movePath, done, WithLine(chunk, line)))
  {
    DiffLineReadBack(line);
    hide BodyOf, DiffText, TrimEnd;
    var cs := done + [chunk];
    assert cs[|cs| - 1] == chunk && cs[..|cs| - 1] == done;
    assert ExtendLast(cs, OldOf(line), NewOf(line)) == done + [WithLine(chunk, line)];
  }

  lemma {:induction false} DiffLinesRun(path: string, movePath: Option<string>, done: seq<UpdateFileChunk>, chunk: UpdateFileChunk, lines: seq<DiffLine>, n: nat)
    requires !chunk.isEndOfFile
    ensures RunBody(Reading(path, movePath, done, chunk), DiffTexts(lines), n)
         == Ok(Reading(path, movePath, done, WithLines(chunk, lines)))
    ensures BodyTexts(DiffTexts(lines))
    decreases |lines|
  {
    hide StepBody, BodyText, DiffText, WithLines, WithLine;
    WithLinesCons(chunk, lines);
    if lines != [] {
      DiffLineReadBack(lines[0]);
      DiffLineStep(path, movePath, done, chunk, lines[0], n + 1);
      var next := WithLine(chunk, lines[0]);
      assert !next.isEndOfFile by { StillOpen(chunk, lines[0]); }
      DiffLinesRun(path, movePath, done, next, lines[1..], n + 1);
      assert DiffTexts(lines)[1..] == DiffTexts(lines[1..]);
    }
  }

  lemma StillOpen(chunk: UpdateFileChunk, line: DiffLine)
    ensures WithLine(chunk, line).isEndOfFile == chunk.isEndOfFile
  {
  }

  /** A chunk with a line is not hollow. */
  lemma ChunkNotHollow(doc: ChunkDoc)
    requires doc.lines != []
    ensures !Hollow(ChunkOf(doc))
  {
  }

  lemma MarkerIsBody(marker: Marker)
    requires !marker.NoMarker? && (marker.NamedMarker? ==> NameOk(marker.name))
    ensures var line := MarkerText(marker)[0];
            MarkerText(marker) == [line] && BodyText(line) && BodyOf(line) == Context(ContextOf(marker)) && TrimEnd(line) != ""
  {
    if marker.NamedMarker? {
      ContextIsBody(marker.name);
    } else {
      EmptyContextIsBody();
    }
  }

  lemma MarkerStep(path: string, movePath: Option<string>, done: seq<UpdateFileChunk>, marker: Marker, n: nat)
    requires !marker.NoMarker? && (marker.NamedMarker? ==> NameOk(marker.name)) && !LastHollow(done)
    ensures RunBody(UpdateFile(path, movePath, done), MarkerText(marker), n)
         == Ok(Reading(path, movePath, done, NewChunk(ContextOf(marker))))
  {
    MarkerIsBody(marker);
    hide BodyOf, TrimEnd, BodyText;
    assert [MarkerText(marker)[0]][1..] == [];
  }

  /** Without a marker the first line opens the chunk. */
  lemma UnmarkedStep(path: string, movePath: Option<string>, line: DiffLine, n: nat)
    ensures StepBody(UpdateFile(path, movePath, []), DiffText(line), n)
         == StepBody(Reading(path, movePath, [], NewChunk(None)), DiffText(line), n)
  {
    DiffLineReadBack(line);
    DiffLineStep(path, movePath, [], NewChunk(None), line, n);
    hide BodyOf, DiffText, TrimEnd;
    assert ExtendLast([], OldOf(line), NewOf(line)) == [] + [WithLine(NewChunk(None), line)];
  }

  lemma UnmarkedRuns(path: string, movePath: Option<string>, lines: seq<DiffLine>, n: nat)
    requires lines != []
    ensures RunBody(UpdateFile(path, movePath, []), DiffTexts(lines), n)
         == RunBody(Reading(path, movePath, [], NewChunk(None)), DiffTexts(lines), n)
  {
    hide StepBody, DiffText, DiffTexts;
    DiffTextsFirst(lines);
    UnmarkedStep(path, movePath, lines[0], n + 1);
  }

  lemma DiffTextsFirst(lines: seq<DiffLine>)
    requires lines != []
    ensures DiffTexts(lines) != [] && DiffTexts(lines)[0] == DiffText(lines[0])
  {
  }

  lemma {:induction false} DiffTextsAreBody(lines: seq<DiffLine>)
    ensures BodyTexts(DiffTexts(lines))
  {
    hide BodyText, DiffText;
    if lines != [] {
      DiffLineReadBack(lines[0]);
      DiffTextsAreBody(lines[1..]);
    }
  }

  lemma ChunkTextIsBody(doc: ChunkDoc)
    requires ChunkOk(doc)
    ensures BodyTexts(ChunkText(doc))
  {
    hide BodyText, DiffText, BodyOf, TrimEnd, DiffTexts;
    DiffTextsAreBody(doc.lines);
    EofIsBody();
    if !doc.marker.NoMarker? { MarkerIsBody(doc.marker); }
  }

  lemma {:induction false} ChunksTextIsBody(docs: seq<ChunkDoc>)
    requires forall i :: 0 <= i < |docs| ==> ChunkOk(docs[i])
    ensures BodyTexts(ChunksText(docs))
  {
    hide BodyText, ChunkText, ChunkOk;
    if docs != [] {
      ChunkTextIsBody(docs[0]);
      ChunksTextIsBody(docs[1..]);
    }
  }

  /** The marker, if any, and the lines of a chunk. */
  lemma ChunkOpens(path: string, movePath: Option<string>, done: seq<UpdateFileChunk>, doc: ChunkDoc, n: nat)
    requires ChunkOk(doc) && doc.lines != [] && !LastHollow(done) && (doc.marker.NoMarker? ==> done == [])
    ensures RunBody(UpdateFile(path, movePath, done), MarkerText(doc.marker) + DiffTexts(doc.lines), n)
         == Ok(Reading(path, movePath, done, ChunkOf(doc).(isEndOfFile := false)))
  {
    hide StepBody, BodyText, OldLines, NewLines, DiffTexts, DiffOk, NameOk;
    var opening, middle := MarkerText(doc.marker), DiffTexts(doc.lines);
    var begun := Reading(path, movePath, done, NewChunk(ContextOf(doc.marker)));
    DiffLinesRun(path, movePath, done, NewChunk(ContextOf(doc.marker)), doc.lines, n + |opening|);
    assert [] + OldLines(doc.lines) == OldLines(doc.lines) && [] + NewLines(doc.lines) == NewLines(doc.lines);
    if doc.marker.NoMarker? {
      assert opening + middle == middle;
      UnmarkedRuns(path, movePath, doc.lines, n);
    } else {
      MarkerStep(path, movePath, done, doc.marker, n);
      RunBodyAppend(UpdateFile(path, movePath, done), opening, middle, n);
    }
  }

  lemma {:induction false} ChunkRuns(path: string, movePath: Option<string>, done: seq<UpdateFileChunk>, doc: ChunkDoc, n: nat)
    requires ChunkOk(doc) && doc.lines != [] && !LastHollow(done) && (doc.marker.NoMarker? ==> done == [])
    ensures RunBody(UpdateFile(path, movePath, done), ChunkText(doc), n) == Ok(UpdateFile(path, movePath, done + [ChunkOf(doc)]))
  {
    hide StepBody, ChunkOk, DiffTexts, MarkerText, OldLines, NewLines;
    var opening, closing := MarkerText(doc.marker) + DiffTexts(doc.lines), EofText(doc.endOfFile);
    ChunkOpens(path, movePath, done, doc, n);
    RunBodyAppend(UpdateFile(path, movePath, done), opening, closing, n);
    if doc.endOfFile {
      SealStep(path, movePath, done, doc, n + |opening| + 1);
      assert [END_OF_FILE][1..] == [];
    }
  }

  lemma SealStep(path: string, movePath: Option<string>, done: seq<UpdateFileChunk>, doc: ChunkDoc, n: nat)
    requires doc.lines != [] && doc.endOfFile
    ensures StepBody(Reading(path, movePath, done, ChunkOf(doc).(isEndOfFile := false)), END_OF_FILE, n)
         == Ok(UpdateFile(path, movePath, done + [ChunkOf(doc)]))
  {
    EofIsBody();
    ChunkNotHollow(doc);
    hide BodyOf, OldLines, NewLines;
    var cs := done + [ChunkOf(doc).(isEndOfFile := false)];
    assert cs[..|cs| - 1] == done;
    assert !Hollow(cs[|cs| - 1]);
  }

  /** Chunks that can follow those read so far. */
  predicate CanFollow(done: seq<UpdateFileChunk>, docs: seq<ChunkDoc>) {
    ChunksOk(docs) && !LastHollow(done) && (docs != [] && docs[0].marker.NoMarker? ==> done == [])
  }

  lemma FollowOn(done: seq<UpdateFileChunk>, docs: seq<ChunkDoc>)
    requires docs != [] && CanFollow(done, docs)
    ensures ChunkOk(docs[0]) && !LastHollow(done) && (docs[0].marker.NoMarker? ==> done == [])
    ensures CanFollow([], docs[1..]) && (docs[1..] != [] ==> !docs[1..][0].marker.NoMarker?)
    ensures docs[0].lines != [] ==> CanFollow(done + [ChunkOf(docs[0])], docs[1..]) && !Hollow(ChunkOf(docs[0]))
  {
    hide ChunkOk, ChunkOf;
    assert forall i :: 0 <= i < |docs[1..]| ==> docs[1..][i] == docs[i + 1];
    if docs[0].lines != [] { ChunkNotHollow(docs[0]); }
  }

  lemma {:induction false} ChunksNotHollow(docs: seq<ChunkDoc>)
    requires docs != [] && AllFilled(docs)
    ensures ChunksOf(docs) != [] && !LastHollow(ChunksOf(docs))
  {
    hide ChunkOf;
    if |docs| == 1 {
      ChunkNotHollow(docs[0]);
    } else {
      ChunksNotHollow(docs[1..]);
    }
  }

  lemma {:induction false} ChunksRun(path: string, movePath: Option<string>, done: seq<UpdateFileChunk>, docs: seq<ChunkDoc>, n: nat)
    requires CanFollow(done, docs) && AllFilled(docs)
    ensures RunBody(UpdateFile(path, movePath, done), ChunksText(docs), n) == Ok(UpdateFile(path, movePath, done + ChunksOf(docs)))
    decreases |docs|
  {
    hide ChunkOf, ChunkText, ChunkOk, CanFollow, RunBody, Hollow, LastHollow, ChunksOf, ChunksText;
    ChunksCons(done, docs);
    if docs == [] {
      RunBodyNothing(UpdateFile(path, movePath, done), n);
    } else {
      FollowOn(done, docs);
      ChunkRuns(path, movePath, done, docs[0], n);
      var text := ChunkText(docs[0]);
      RunBodyAppend(UpdateFile(path, movePath, done), text, ChunksText(docs[1..]), n);
      ChunksRun(path, movePath, done + [ChunkOf(docs[0])], docs[1..], n + |text|);
    }
  }

  lemma ChunksCons(done: seq<UpdateFileChunk>, docs: seq<ChunkDoc>)
    ensures docs == [] ==> ChunksText(docs) == [] && done + ChunksOf(docs) == done
    ensures docs != [] ==> && ChunksText(docs) == ChunkText(docs[0]) + ChunksText(docs[1..])
                           && done + ChunksOf(docs) == done + [ChunkOf(docs[0])] + ChunksOf(docs[1..])
  {
    hide ChunkOf, ChunkText;
  }

  // ---------------------------------------------------------------- updates that are not full

  /** An update hunk that cannot be left: it has no chunk, or the last has no line. */
  predicate Stuck(hunk: Hunk) { hunk.UpdateFile? && (hunk.chunks == [] || LastHollow(hunk.chunks)) }

  /** After a marker nothing but a line of the chunk will do. */
  lemma HollowRejects(path: string, movePath: Option<string>, done: seq<UpdateFileChunk>, context: Option<string>, rest: seq<string>, n: nat)
    requires rest != [] && (BodyOf(rest[0]).EofMarker? || BodyOf(rest[0]).Context?)
    ensures RunBody(Reading(path, movePath, done, NewChunk(context)), rest, n).Err?
  {
    hide BodyOf, TrimEnd;
  }

  /** What comes after a chunk without lines: the end-of-file marker, the next chunk's marker, or nothing. */
  lemma AfterHollow(docs: seq<ChunkDoc>, endOfFile: bool)
    requires CanFollow([], docs) && (docs != [] ==> !docs[0].marker.NoMarker?)
    ensures var rest := EofText(endOfFile) + ChunksText(docs);
            rest == [] || BodyOf(rest[0]).EofMarker? || BodyOf(rest[0]).Context?
  {
    EofIsBody();
    if docs != [] {
      MarkerIsBody(docs[0].marker) by { assert ChunkOk(docs[0]); }
    }
    hide BodyOf, DiffTexts, BodyText, TrimEnd;
  }

  lemma HollowText(docs: seq<ChunkDoc>)
    requires docs != [] && docs[0].lines == []
    ensures ChunksText(docs) == MarkerText(docs[0].marker) + (EofText(docs[0].endOfFile) + ChunksText(docs[1..]))
  {
    hide MarkerText, EofText;
  }

  lemma HollowSticks(path: string, movePath: Option<string>, done: seq<UpdateFileChunk>, docs: seq<ChunkDoc>, n: nat)
    requires docs != [] && docs[0].lines == [] && CanFollow(done, docs)
    ensures var r := RunBody(UpdateFile(path, movePath, done), ChunksText(docs), n); r.Err? || Stuck(r.value)
  {
    hide ChunkOk, BodyOf, ChunksText, EofText, MarkerText, NameOk, CanFollow, LastHollow, Stuck, RunBody, Reading;
    FollowOn(done, docs);
    HollowText(docs);
    var marker, after := docs[0].marker, EofText(docs[0].endOfFile) + ChunksText(docs[1..]);
    MarkerOf(docs[0]);
    AfterHollow(docs[1..], docs[0].endOfFile);
    MarkerStep(path, movePath, done, marker, n);
    RunBodyAppend(UpdateFile(path, movePath, done), MarkerText(marker), after, n);
    if after == [] {
      RunBodyNothing(Reading(path, movePath, done, NewChunk(ContextOf(marker))), n + |MarkerText(marker)|);
      HollowIsStuck(path, movePath, done, ContextOf(marker));
    } else {
      HollowRejects(path, movePath, done, ContextOf(marker), after, n + |MarkerText(marker)|);
    }
  }

  lemma RunBodyNothing(hunk: Hunk, n: nat)
    requires hunk.UpdateFile?
    ensures RunBody(hunk, [], n) == Ok(hunk)
  {
  }

  lemma {:induction false} ChunksStick(path: string, movePath: Option<string>, done: seq<UpdateFileChunk>, docs: seq<ChunkDoc>, n: nat)
    requires CanFollow(done, docs) && !AllFilled(docs)
    ensures var r := RunBody(UpdateFile(path, movePath, done), ChunksText(docs), n); r.Err? || Stuck(r.value)
    decreases |docs|
  {
    if docs[0].lines == [] {
      HollowSticks(path, movePath, done, docs, n);
    } else {
      hide ChunkOf, ChunkOk, Hollow, ChunkText, Stuck, RunBody, CanFollow, LastHollow;
      FollowOn(done, docs);
      var text := ChunkText(docs[0]);
      ChunkRuns(path, movePath, done, docs[0], n);
      RunBodyAppend(UpdateFile(path, movePath, done), text, ChunksText(docs[1..]), n);
      assert !AllFilled(docs[1..]) by { assert forall i :: 0 < i < |docs| ==> docs[i] == docs[1..][i - 1]; }
      ChunksStick(path, movePath, done + [ChunkOf(docs[0])], docs[1..], n + |text|);
    }
  }

  lemma MarkerOf(doc: ChunkDoc)
    requires ChunkOk(doc) && doc.lines == []
    ensures !doc.marker.NoMarker? && (doc.marker.NamedMarker? ==> NameOk(doc.marker.name))
  {
  }

  lemma HollowIsStuck(path: string, movePath: Option<string>, done: seq<UpdateFileChunk>, context: Option<string>)
    ensures Stuck(Reading(path, movePath, done, NewChunk(context)))
  {
  }

  // ---------------------------------------------------------------- whole hunks

  /** The lines of an update hunk after its header. */
  function UpdateText(doc: HunkDoc): seq<string>
    requires doc.UpdateDoc?
  {
    (if doc.movePath.Some? then [MOVE_TO + doc.movePath.value] else []) + ChunksText(doc.chunks)
  }

  lemma UpdateBegins(st: State, doc: HunkDoc, n: nat)
    requires Ready(st) && HunkOk(doc) && doc.UpdateDoc?
    ensures Run(st, HunkText(doc), n)
         == Run(Updating(n + 1, st.hunks, UpdateFile(doc.path, None, []), st.environmentId), UpdateText(doc), n + 1)
    ensures BodyTexts(UpdateText(doc))
    ensures RunBody(UpdateFile(doc.path, None, []), UpdateText(doc), n + 1)
         == RunBody(UpdateFile(doc.path, doc.movePath, []), ChunksText(doc.chunks), n + 1 + if doc.movePath.Some? then 1 else 0)
  {
    hide Step, StepBody, ChunksText, HeaderOf, BodyText, ChunkOk, Hollow, Trim, TrimEnd, BodyOf;
    var line := UPDATE_FILE + doc.path;
    HeadersRecognised(doc.path);
    NamedLineTight(UPDATE_FILE, doc.path);
    HeaderStep(st, line, n + 1);
    RunOne(st, line, n);
    var move := if doc.movePath.Some? then [MOVE_TO + doc.movePath.value] else [];
    assert HunkText(doc) == [line] + UpdateText(doc);
    RunAppend(st, [line], UpdateText(doc), n);
    MoveRuns(doc.path, doc.movePath, n + 1);
    RunBodyAppend(UpdateFile(doc.path, None, []), move, ChunksText(doc.chunks), n + 1);
    ChunksTextIsBody(doc.chunks);
  }

  lemma {:induction false} UpdateRuns(st: State, doc: HunkDoc, n: nat)
    requires Ready(st) && HunkOk(doc) && doc.UpdateDoc? && Full(doc)
    ensures Run(st, HunkText(doc), n) == Ok(Updating(n + 1, st.hunks, HunkOf(doc), st.environmentId))
    ensures Ready(Updating(n + 1, st.hunks, HunkOf(doc), st.environmentId))
  {
    hide Step, StepBody, ChunksOf, ChunksText, BodyText, ChunkOk, Hollow, UpdateText, HunkText, NameOk;
    var UpdateDoc(path, movePath, chunks) := doc;
    UpdateBegins(st, doc, n);
    ChunksNotHollow(chunks);
    ChunksRun(path, movePath, [], chunks, n + 1 + if movePath.Some? then 1 else 0);
    assert [] + ChunksOf(chunks) == ChunksOf(chunks);
    BodyRuns(n + 1, st.hunks, UpdateFile(path, None, []), st.environmentId, UpdateText(doc), n + 1);
  }

  /** The parser is inside a hunk it cannot leave. */
  predicate StuckState(st: State) { st.mode.InUpdateFile? && st.hunks != [] && Stuck(st.hunks[|st.hunks| - 1]) }

  lemma {:induction false} UpdateSticks(st: State, doc: HunkDoc, n: nat)
    requires Ready(st) && HunkOk(doc) && doc.UpdateDoc? && !Full(doc)
    ensures var r := Run(st, HunkText(doc), n); r.Err? || StuckState(r.value)
  {
    hide Step, StepBody, ChunksText, BodyText, ChunkOk, Hollow, UpdateText, HunkText, NameOk;
    UpdateBegins(st, doc, n);
    var begun, text := UpdateFile(doc.path, None, []), UpdateText(doc);
    if doc.chunks == [] {
      ChunksCons([], []);
    } else {
      ChunksStick(doc.path, doc.movePath, [], doc.chunks, n + 1 + if doc.movePath.Some? then 1 else 0);
    }
    var r := RunBody(begun, text, n + 1);
    if r.Ok? {
      BodyRuns(n + 1, st.hunks, begun, st.environmentId, text, n + 1);
    } else {
      BodyStops(n + 1, st.hunks, begun, st.environmentId, text, n + 1);
    }
  }

  lemma StuckProblem(st: State, line: string, n: nat)
    requires StuckState(st)
    ensures LeavingProblem(st, line, n).Some?
  {
  }

  lemma StuckRejects(st: State, line: string, n: nat)
    requires StuckState(st) && TrimEnd(line) == line && !HeaderOf(line).NoHeader?
    ensures Step(st, line, n).Err?
  {
    StuckProblem(st, line, n);
    hide TrimEnd, HeaderOf, LeavingProblem;
  }

  lemma MoveRuns(path: string, movePath: Option<string>, n: nat)
    requires movePath.Some? ==> NameOk(movePath.value)
    ensures var move := if movePath.Some? then [MOVE_TO + movePath.value] else [];
            RunBody(UpdateFile(path, None, []), move, n) == Ok(UpdateFile(path, movePath, [])) && BodyTexts(move)
  {
    if movePath.Some? {
      MoveIsBody(movePath.value);
      var move := [MOVE_TO + movePath.value];
      assert move[1..] == [];
    }
  }

  /** The run was accepted, added exactly these hunks and can go on. */
  ghost predicate Leaves(st: State, hunks: seq<Hunk>, r: Result<State, ParseError>) {
    r.Ok? && Ready(r.value) && r.value.hunks == st.hunks + hunks && r.value.environmentId == st.environmentId
  }

  lemma LeavesTransitive(st: State, a: seq<Hunk>, mid: State, b: seq<Hunk>, r: Result<State, ParseError>)
    requires Leaves(st, a, Ok(mid)) && Leaves(mid, b, r)
    ensures Leaves(st, a + b, r)
  {
    assert st.hunks + a + b == st.hunks + (a + b);
  }

  /** The lines of one hunk append that hunk and nothing else. */
  lemma {:induction false} HunkRuns(st: State, doc: HunkDoc, n: nat)
    requires Ready(st) && HunkOk(doc) && Full(doc)
    ensures Leaves(st, [HunkOf(doc)], Run(st, HunkText(doc), n))
  {
    hide Step, HeaderOf, ChunksOf, ChunksText, ChunkOk, Hollow, Trim, TrimEnd;
    HeadersRecognised(doc.path);
    match doc
    case AddDoc(path, lines) =>
      var line := ADD_FILE + path;
      NamedLineTight(ADD_FILE, path);
      HeaderStep(st, line, n + 1);
      RunOne(st, line, n);
      RunAppend(st, [line], AddedTexts(lines), n);
      AddedLinesRun(st.hunks, path, "", st.environmentId, lines, n + 1);
      assert "" + Contents(lines) == Contents(lines);
    case DeleteDoc(path) =>
      NamedLineTight(DELETE_FILE, path);
      HeaderStep(st, DELETE_FILE + path, n + 1);
      RunOne(st, DELETE_FILE + path, n);
    case UpdateDoc(_, _, _) =>
      UpdateRuns(st, doc, n);
  }

  lemma {:induction false} HunksRun(st: State, docs: seq<HunkDoc>, n: nat)
    requires Ready(st) && AllFull(docs) && forall i :: 0 <= i < |docs| ==> HunkOk(docs[i])
    ensures Leaves(st, HunksOf(docs), Run(st, HunksText(docs), n))
    decreases |docs|
  {
    hide Step, HunkOf, HunkText, HunkOk, Ready, Full;
    if docs == [] {
      assert st.hunks + [] == st.hunks;
    } else {
      HunkRuns(st, docs[0], n);
      var text := HunkText(docs[0]);
      RunAppend(st, text, HunksText(docs[1..]), n);
      var next := Run(st, text, n).value;
      HunksRun(next, docs[1..], n + |text|);
      hide Leaves;
      LeavesTransitive(st, [HunkOf(docs[0])], next, HunksOf(docs[1..]), Run(st, HunksText(docs), n));
    }
  }
  lemma FirstLineIsHeader(doc: HunkDoc)
    requires HunkOk(doc)
    ensures HunkText(doc) != [] && TrimEnd(HunkText(doc)[0]) == HunkText(doc)[0] && !HeaderOf(HunkText(doc)[0]).NoHeader?
  {
    HeadersRecognised(doc.path);
    NamedLineTight(ADD_FILE, doc.path);
    NamedLineTight(DELETE_FILE, doc.path);
    NamedLineTight(UPDATE_FILE, doc.path);
    hide HeaderOf, TrimEnd, Trim, ChunksText, AddedTexts;
  }

  /** With an update that is not full, the hunks are rejected or leave the parser stuck. */
  lemma {:induction false} HunksStick(st: State, docs: seq<HunkDoc>, n: nat)
    requires Ready(st) && !AllFull(docs) && forall i :: 0 <= i < |docs| ==> HunkOk(docs[i])
    ensures var r := Run(st, HunksText(docs), n); r.Err? || StuckState(r.value)
    decreases |docs|
  {
    hide Step, HunkOf, HunkText, HunkOk, Ready, StuckState, TrimEnd, HeaderOf;
    var doc, rest := docs[0], HunksText(docs[1..]);
    var text := HunkText(doc);
    if Full(doc) {
      hide Full;
      HunkRuns(st, doc, n);
      RunAppend(st, text, rest, n);
      assert !AllFull(docs[1..]) by { assert forall i :: 0 < i < |docs| ==> docs[i] == docs[1..][i - 1]; }
      HunksStick(Run(st, text, n).value, docs[1..], n + |text|);
    } else {
      UpdateSticks(st, doc, n);
      if Run(st, text, n).Err? {
        RunStops(st, text, rest, n);
      } else {
        RunAppend(st, text, rest, n);
        if docs[1..] != [] {
          FirstLineIsHeader(docs[1]);
          assert rest[0] == HunkText(docs[1])[0];
          StuckRejects(Run(st, text, n).value, rest[0], n + |text| + 1);
        }
      }
    }
  }
}
