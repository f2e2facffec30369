/** Writing a patch and parsing it back: which texts mean a document, and which hunks survive. */
module PatchRoundTrip {
  import opened Basics
  import opened Text
  import opened PatchSyntax
  import opened StreamingParser
  import opened PatchText
  import opened PatchDocument

  // ---------------------------------------------------------------- written lines have no newline

  lemma NamedLineFree(marker: string, name: string)
    requires '\n' !in marker && NameOk(name)
    ensures '\n' !in marker + name && !EndsInCR(marker + name)
  {
    var line := marker + name;
    assert line[|line| - 1] == name[|name| - 1];
  }

  lemma {:induction false} DiffTextsFree(lines: seq<DiffLine>)
    requires forall i :: 0 <= i < |lines| ==> DiffOk(lines[i])
    ensures AllLineFree(DiffTexts(lines))
  {
    if lines != [] {
      DiffTextsFree(lines[1..]);
      assert DiffOk(lines[0]);
    }
  }

  lemma ChunkTextFree(doc: ChunkDoc)
    requires ChunkOk(doc)
    ensures AllLineFree(ChunkText(doc))
  {
    DiffTextsFree(doc.lines);
    hide DiffTexts, DiffOk;
    if doc.marker.NamedMarker? { NamedLineFree(CONTEXT, doc.marker.name); }
  }

  lemma {:induction false} ChunksTextFree(docs: seq<ChunkDoc>)
    requires forall i :: 0 <= i < |docs| ==> ChunkOk(docs[i])
    ensures AllLineFree(ChunksText(docs))
  {
    hide ChunkOk, ChunkText;
    if docs != [] {
      ChunksTextFree(docs[1..]);
      ChunkTextFree(docs[0]);
    }
  }

  lemma {:induction false} AddedTextsFree(lines: seq<string>)
    requires AllLineFree(lines)
    ensures AllLineFree(AddedTexts(lines))
  {
    if lines != [] {
      AddedTextsFree(lines[1..]);
    }
  }

  lemma HunkTextFree(doc: HunkDoc)
    requires HunkOk(doc)
    ensures AllLineFree(HunkText(doc))
  {
    hide ChunksText, ChunkOk, AddedTexts, NameOk;
    match doc
    case AddDoc(path, lines) => NamedLineFree(ADD_FILE, path); AddedTextsFree(lines);
    case DeleteDoc(path) => NamedLineFree(DELETE_FILE, path);
    case UpdateDoc(path, movePath, chunks) =>
      NamedLineFree(UPDATE_FILE, path);
      if movePath.Some? { NamedLineFree(MOVE_TO, movePath.value); }
      ChunksTextFree(chunks);
  }

  lemma {:induction false} HunksTextFree(docs: seq<HunkDoc>)
    requires forall i :: 0 <= i < |docs| ==> HunkOk(docs[i])
    ensures AllLineFree(HunksText(docs))
  {
    hide HunkOk, HunkText;
    if docs != [] {
      HunksTextFree(docs[1..]);
      HunkTextFree(docs[0]);
    }
  }

  lemma EnvironmentTextFree(id: Option<string>)
    requires IdOk(id)
    ensures AllLineFree(EnvironmentText(id)) && (id.Some? ==> !EndsInCR(EnvironmentText(id)[0]))
  {
    if id.Some? {
      NamedLineFree(ENVIRONMENT_ID + " ", id.value);
    }
  }

  lemma PatchLinesFree(doc: PatchDoc)
    requires PatchOk(doc)
    ensures AllLineFree(PatchLines(doc))
  {
    hide HunkOk, HunksText, EnvironmentText;
    EnvironmentTextFree(doc.environmentId);
    HunksTextFree(doc.hunks);
  }

  // ---------------------------------------------------------------- the text and its lines

  predicate Blank(s: string) { forall i :: 0 <= i < |s| ==> IsSpace(s[i]) }

  /** What `lines()` makes of joined lines: all but the last lose a carriage return. */
  function Ended(lines: seq<string>): seq<string>
    requires lines != []
  {
    StripAll(lines[..|lines| - 1]) + [lines[|lines| - 1]]
  }

  lemma {:induction false} LinesOfJoin(lines: seq<string>)
    requires lines != [] && AllLineFree(lines) && lines[|lines| - 1] != ""
    ensures Lines(Join(lines)) == Ended(lines)
  {
    SplitJoin(lines);
    hide Split, Join;
    var n := |lines| - 1;
    assert StripAll(lines[..n]) == seq(n, i requires 0 <= i < n => StripCR(lines[i]));
  }

  lemma {:induction false} JoinEnds(lines: seq<string>)
    requires lines != [] && lines[0] != "" && lines[|lines| - 1] != ""
    ensures var s, last := Join(lines), lines[|lines| - 1];
            s != "" && s[0] == lines[0][0] && s[|s| - 1] == last[|last| - 1]
  {
    if |lines| > 1 {
      var init := lines[..|lines| - 1];
      assert lines == init + [lines[|lines| - 1]];
      JoinSnoc(init, lines[|lines| - 1]);
      assert Join(lines) == lines[0] + "\n" + Join(lines[1..]);
    }
  }

  lemma {:induction false} TrimTail(s: string, tail: string)
    requires Tight(s) && Blank(tail)
    ensures Trim(s + tail) == s
    decreases |tail|
  {
    if tail == "" {
      assert s + tail == s;
      TightTrims(s);
    } else {
      var t := s + tail;
      assert t[..|t| - 1] == s + tail[..|tail| - 1];
      TrimTail(s, tail[..|tail| - 1]);
      hide TrimStart;
    }
  }

  function Checked(lines: seq<string>, mode: ParseMode): Result<seq<string>, ParseError> {
    if mode.Strict? then CheckStrict(lines) else CheckLenient(lines)
  }

  /** Joined lines, with any white space behind them, reach the boundary checks less a carriage
      return each. */
  lemma {:induction false} ParsedFromLines(lines: seq<string>, tail: string, mode: ParseMode)
    requires lines != [] && AllLineFree(lines) && Blank(tail)
    requires lines[0] != "" && !IsSpace(lines[0][0]) && Tight(lines[|lines| - 1])
    ensures var checked := Checked(Ended(lines), mode);
            Parsed(Join(lines) + tail, mode) == if checked.Err? then Err(checked.error) else ParseLines(checked.value)
  {
    hide Trim, Join, ParseLines, Lines, CheckStrict, CheckLenient, Ended;
    JoinEnds(lines);
    TrimTail(Join(lines), tail);
    LinesOfJoin(lines);
  }

  // ---------------------------------------------------------------- the parser over a document

  lemma BeginStep()
    ensures Step(Fresh.state, BEGIN_PATCH, 1) == Ok(State(StartedPatch, [], None))
  {
    TightTrims(BEGIN_PATCH);
  }

  lemma EnvironmentStep(id: string, n: nat)
    requires Tight(id)
    ensures Step(State(StartedPatch, [], None), ENVIRONMENT_ID + " " + id, n) == Ok(State(StartedPatch, [], Some(id)))
  {
    var line := ENVIRONMENT_ID + " " + id;
    TightTrims(line);
    var rest := line[|ENVIRONMENT_ID|..];
    assert rest == " " + id;
    assert Trim(rest) == id by {
      TightTrims(rest);
      TightTrims(id);
      assert rest[1..] == id;
    }
    hide Trim;
    assert ENVIRONMENT_ID <= line;
  }

  /** All lines of the document but the end marker. */
  function Opening(doc: PatchDoc): seq<string> {
    [BEGIN_PATCH] + EnvironmentText(doc.environmentId) + HunksText(doc.hunks)
  }

  lemma {:induction false} DocumentRuns(doc: PatchDoc)
    requires PatchOk(doc)
    ensures var r := Run(Fresh.state, Opening(doc), 0);
            if AllFull(doc.hunks)
            then r.Ok? && Ready(r.value) && r.value.hunks == HunksOf(doc.hunks) && r.value.environmentId == doc.environmentId
            else r.Err? || StuckState(r.value)
  {
    hide Step, HunksText, HunksOf, HunkOk, AllFull, StuckState;
    var env, body := EnvironmentText(doc.environmentId), HunksText(doc.hunks);
    assert Opening(doc) == [BEGIN_PATCH] + (env + body);
    BeginStep();
    RunOne(Fresh.state, BEGIN_PATCH, 0);
    RunAppend(Fresh.state, [BEGIN_PATCH], env + body, 0);
    var started := State(StartedPatch, [], None);
    if doc.environmentId.Some? {
      EnvironmentStep(doc.environmentId.value, 2);
      RunOne(started, env[0], 1);
    }
    RunAppend(started, env, body, 1);
    var ready := State(StartedPatch, [], doc.environmentId);
    if AllFull(doc.hunks) {
      HunksRun(ready, doc.hunks, 1 + |env|);
      assert [] + HunksOf(doc.hunks) == HunksOf(doc.hunks);
    } else {
      HunksStick(ready, doc.hunks, 1 + |env|);
    }
  }

  lemma FinishReady(p: Parser)
    requires Ready(p.state) && p.lineBuffer == END_PATCH
    ensures StreamingParser.Finish(p).result == Ok(p.state.hunks)
    ensures StreamingParser.Finish(p).parser.state.environmentId == p.state.environmentId
  {
    TightTrims(END_PATCH);
    ReadyCanLeave(p.state, END_PATCH, p.lineNumber + 1);
    hide Trim, LeavingProblem;
  }

  lemma FinishStuck(p: Parser)
    requires StuckState(p.state) && p.lineBuffer == END_PATCH
    ensures StreamingParser.Finish(p).result.Err?
  {
    TightTrims(END_PATCH);
    StuckProblem(p.state, END_PATCH, p.lineNumber + 1);
    hide Trim, LeavingProblem;
  }

  /** The parse the document stands for: its hunks, unless some update is not full. */
  ghost predicate Means(doc: PatchDoc, r: Result<ParsedPatch, ParseError>) {
    if AllFull(doc.hunks) then r == Ok(ParsedPatch(HunksOf(doc.hunks), doc.environmentId)) else r.Err?
  }

  lemma {:induction false} ParseDocumentLines(doc: PatchDoc, init: seq<string>)
    requires PatchOk(doc) && AllLineFree(init) && StripAll(init) == Opening(doc)
    ensures Means(doc, ParseLines(init + [END_PATCH]))
  {
    hide Step, HunksOf, Ready, PatchOk, StreamingParser.Finish, Join, Split, Opening, AllFull, StuckState;
    var lines := init + [END_PATCH];
    DocumentRuns(doc);
    SplitJoin(lines);
    FeedIsFoldOfLines(Fresh, Join(lines));
    FeedLinesRuns(Fresh, init, END_PATCH);
    var p := Feed(Fresh, Join(lines)).parser;
    if AllFull(doc.hunks) {
      FinishReady(p);
    } else if Run(Fresh.state, Opening(doc), 0).Ok? {
      FinishStuck(p);
    }
  }

  // ---------------------------------------------------------------- texts that mean a document

  /** The lines are those of the document, each but the last with as many more carriage returns at
      its end as are dropped on the way: up to two, or exactly two when its own text ends with one. */
  predicate Renders(lines: seq<string>, doc: PatchDoc) {
    && AllLineFree(lines) && lines != [] && lines[|lines| - 1] == END_PATCH
    && StripAll(StripAll(lines[..|lines| - 1])) == Opening(doc)
  }

  lemma RenderedStart(lines: seq<string>, doc: PatchDoc)
    requires Renders(lines, doc)
    ensures lines[0] != "" && !IsSpace(lines[0][0])
    ensures CheckStrict(Ended(lines)) == Ok(Ended(lines))
  {
    hide HunksText, EnvironmentText, TrimStart, TrimEnd, AllLineFree;
    var init := lines[..|lines| - 1];
    assert Opening(doc)[0] == BEGIN_PATCH;
    assert StripCR(StripCR(init[0])) == BEGIN_PATCH;
    StripCRTrims(StripCR(init[0]));
    TightTrims(BEGIN_PATCH);
    TightTrims(END_PATCH);
  }

  /** Every text that renders a grammatical document, with any white space behind it, parses to that
      document's hunks and environment id in both modes if each of its updates has a chunk and each
      chunk a line, and is rejected otherwise. */
  lemma {:induction false} ParseUndoesWrite(doc: PatchDoc, lines: seq<string>, tail: string, mode: ParseMode)
    requires PatchOk(doc) && Renders(lines, doc) && Blank(tail)
    ensures Means(doc, Parsed(Join(lines) + tail, mode))
  {
    hide ParseLines, CheckStrict, Opening, PatchOk, Parsed, Join, Means, Blank;
    RenderedStart(lines, doc);
    ParsedFromLines(lines, tail, mode);
    var init := StripAll(lines[..|lines| - 1]);
    assert AllLineFree(init) by { StrippedFree(lines[..|lines| - 1]); }
    ParseDocumentLines(doc, init);
  }

  lemma StrippedFree(lines: seq<string>)
    requires AllLineFree(lines)
    ensures AllLineFree(StripAll(lines))
  {
    forall i | 0 <= i < |lines| ensures '\n' !in StripAll(lines)[i] {
      assert StripAll(lines)[i] <= lines[i];
    }
  }

  function CRs(n: nat): string { seq(n, _ => '\r') }

  function WithCRs(lines: seq<string>, crs: seq<nat>): seq<string>
    requires |crs| == |lines|
  {
    seq(|lines|, i requires 0 <= i < |lines| => lines[i] + CRs(crs[i]))
  }

  /** Up to two carriage returns before each newline make no difference, and exactly two protect a line
      that ends with one itself. */
  lemma {:induction false} CarriageReturnsDropped(doc: PatchDoc, crs: seq<nat>)
    requires PatchOk(doc) && |crs| == |Opening(doc)|
    requires forall i :: 0 <= i < |crs| ==> crs[i] <= 2 && (EndsInCR(Opening(doc)[i]) ==> crs[i] == 2)
    ensures Renders(WithCRs(Opening(doc), crs) + [END_PATCH], doc)
  {
    var opening := Opening(doc);
    var init := WithCRs(opening, crs);
    var lines := init + [END_PATCH];
    assert lines[..|lines| - 1] == init;
    PatchLinesFree(doc);
    assert PatchLines(doc) == opening + [END_PATCH];
    hide Opening, PatchLines;
    forall i | 0 <= i < |init| ensures '\n' !in init[i] && StripCR(StripCR(init[i])) == opening[i] {
      assert '\n' !in PatchLines(doc)[i];
      TwoDropped(opening[i], crs[i]);
    }
    assert StripAll(StripAll(init)) == opening;
  }

  lemma TwoDropped(line: string, n: nat)
    requires n <= 2 && (EndsInCR(line) ==> n == 2)
    ensures StripCR(StripCR(line + CRs(n))) == line
  {
    assert CRs(0) == "" && CRs(1) == "\r" && CRs(2) == "\r\r";
    assert (line + "\r")[..|line|] == line && (line + "\r\r")[..|line| + 1] == line + "\r";
    assert line + "" == line;
  }

  lemma OneAddition(path: string, line: string)
    ensures var doc := PatchDoc(None, [AddDoc(path, [line])]);
            Opening(doc) == [BEGIN_PATCH, ADD_FILE + path, "+" + line] && HunksOf(doc.hunks) == [AddFile(path, line + "\n")]
  {
    var docs := [AddDoc(path, [line])];
    assert docs[1..] == [] && [line][1..] == [];
    assert AddedTexts([line]) == ["+" + line] + AddedTexts([]);
    assert HunkText(docs[0]) == [ADD_FILE + path, "+" + line];
    assert HunksText(docs) == HunkText(docs[0]) + HunksText([]);
    assert Contents([line]) == line + "\n" + Contents([]);
    assert line + "\n" + "" == line + "\n";
  }

  lemma BeginHasNoCR()
    ensures !EndsInCR(BEGIN_PATCH)
  {
  }

  /** A third one is kept as part of the line. */
  lemma ThirdCarriageReturnStays(path: string, line: string, mode: ParseMode)
    requires NameOk(path) && '\n' !in line
    ensures var lines := [BEGIN_PATCH, ADD_FILE + path, "+" + line + "\r\r\r"] + [END_PATCH];
            Parsed(Join(lines), mode) == Ok(ParsedPatch([AddFile(path, line + "\r\n")], None))
  {
    var kept := line + "\r";
    var doc, crs := PatchDoc(None, [AddDoc(path, [kept])]), [0, 0, 2];
    OneAddition(path, kept);
    NamedLineFree(ADD_FILE, path);
    BeginHasNoCR();
    hide Opening, HunksOf, Parsed, Join, Renders;
    CarriageReturnsDropped(doc, crs);
    ThreeWritten(path, line);
    var lines := WithCRs(Opening(doc), crs) + [END_PATCH];
    ParseUndoesWrite(doc, lines, "", mode);
    assert Join(lines) + "" == Join(lines);
    assert kept + "\n" == line + "\r\n";
  }

  lemma ThreeWritten(path: string, line: string)
    ensures WithCRs([BEGIN_PATCH, ADD_FILE + path, "+" + (line + "\r")], [0, 0, 2])
         == [BEGIN_PATCH, ADD_FILE + path, "+" + line + "\r\r\r"]
  {
    assert CRs(0) == "" && CRs(2) == "\r\r";
    var header, kept := ADD_FILE + path, "+" + (line + "\r");
    assert BEGIN_PATCH + "" == BEGIN_PATCH && header + "" == header;
    assert kept + "\r\r" == "+" + line + "\r\r\r";
  }

  // ---------------------------------------------------------------- heredocs

  lemma LenientUnwraps(open: string, inner: seq<string>, close: string)
    requires HeredocOpen(open) && HeredocClose(close) && Trim(open) != BEGIN_PATCH
    requires |inner| >= 2 && CheckStrict(inner) == Ok(inner)
    ensures Checked([open] + inner + [close], Lenient) == Ok(inner)
  {
    hide HeredocOpen, HeredocClose, Trim;
    var lines := [open] + inner + [close];
    assert lines[0] == open && lines[|lines| - 1] == close && lines[1..|lines| - 1] == inner;
    assert CheckStrict(lines).Err?;
  }

  lemma HeredocOk(open: string)
    requires HeredocOpen(StripCR(open))
    ensures open != "" && '\n' !in open && !IsSpace(open[0])
    ensures Trim(StripCR(open)) != BEGIN_PATCH
  {
    TightTrims(StripCR(open));
    assert open == StripCR(open) || open == StripCR(open) + "\r";
    assert open[0] == '<' && BEGIN_PATCH[0] == '*';
  }

  lemma WrappedLines(open: string, inner: seq<string>, close: string)
    requires inner != [] && !EndsInCR(inner[|inner| - 1])
    ensures Ended([open] + inner + [close]) == [StripCR(open)] + Ended(inner) + [close]
  {
    var lines := [open] + inner + [close];
    var n := |lines| - 1;
    assert lines[..n] == [open] + inner;
    assert StripAll(lines[..n]) == [StripCR(open)] + StripAll(inner);
    assert StripAll(inner) == Ended(inner);
  }

  /** The same lines still wrapped in a heredoc mean the same in lenient mode. */
  lemma {:induction false} ParseUndoesHeredoc(doc: PatchDoc, open: string, inner: seq<string>, close: string, tail: string)
    requires PatchOk(doc) && Renders(inner, doc) && Blank(tail)
    requires HeredocOpen(StripCR(open)) && HeredocClose(close) && '\n' !in close && Tight(close)
    ensures Means(doc, Parsed(Join([open] + inner + [close]) + tail, Lenient))
  {
    hide Trim, ParseLines, PatchOk, Parsed, Checked, Join, HeredocOpen, HeredocClose, CheckStrict, Means, Opening, Blank, Ended;
    HeredocOk(open);
    RenderedStart(inner, doc);
    WrappedLines(open, inner, close);
    ParsedFromLines([open] + inner + [close], tail, Lenient);
    var init := inner[..|inner| - 1];
    assert Ended(inner) == StripAll(init) + [END_PATCH] by { EndedMarker(inner); }
    assert |Ended(inner)| >= 2 by { AtLeastTwo(inner, doc); }
    LenientUnwraps(StripCR(open), Ended(inner), close);
    assert AllLineFree(StripAll(init)) by { StrippedFree(init); }
    ParseDocumentLines(doc, StripAll(init));
  }

  lemma EndedMarker(lines: seq<string>)
    requires lines != [] && lines[|lines| - 1] == END_PATCH
    ensures Ended(lines) == StripAll(lines[..|lines| - 1]) + [END_PATCH]
  {
  }

  lemma AtLeastTwo(lines: seq<string>, doc: PatchDoc)
    requires Renders(lines, doc)
    ensures |Ended(lines)| >= 2
  {
    hide HunksText;
    assert |Opening(doc)| >= 1;
  }

  // ---------------------------------------------------------------- hunk lists

  /** Chunks as a parser can return them. */
  predicate ChunkWellFormed(c: UpdateFileChunk) {
    && (c.changeContext.Some? ==> NameOk(c.changeContext.value))
    && !Hollow(c) && AllLineFree(c.oldLines) && AllLineFree(c.newLines)
  }

  predicate HunkWellFormed(h: Hunk) {
    && NameOk(h.path)
    && (h.AddFile? ==> var pieces := Split(h.contents); pieces[|pieces| - 1] == "")
    && (h.UpdateFile? ==>
          && (h.movePath.Some? ==> NameOk(h.movePath.value))
          && h.chunks != [] && forall i :: 0 <= i < |h.chunks| ==> ChunkWellFormed(h.chunks[i]))
  }

  predicate AllWellFormed(hs: seq<Hunk>) { forall i :: 0 <= i < |hs| ==> HunkWellFormed(hs[i]) }

  function RemoveAll(lines: seq<string>): seq<DiffLine> {
    seq(|lines|, i requires 0 <= i < |lines| => Removed(lines[i]))
  }

  function AddAll(lines: seq<string>): seq<DiffLine> {
    seq(|lines|, i requires 0 <= i < |lines| => Added(lines[i]))
  }

  function WriteChunk(c: UpdateFileChunk): ChunkDoc {
    var marker := if c.changeContext.Some? then NamedMarker(c.changeContext.value) else EmptyMarker;
    ChunkDoc(marker, RemoveAll(c.oldLines) + AddAll(c.newLines), c.isEndOfFile)
  }

  function WriteChunks(cs: seq<UpdateFileChunk>): seq<ChunkDoc> {
    if cs == [] then [] else [WriteChunk(cs[0])] + WriteChunks(cs[1..])
  }

  function AddedLines(contents: string): seq<string> {
    var pieces := Split(contents); pieces[..|pieces| - 1]
  }

  /** One way to write a hunk: each chunk's old lines removed, then its new lines added. */
  function WriteHunk(h: Hunk): HunkDoc {
    match h
    case AddFile(path, contents) => AddDoc(path, AddedLines(contents))
    case DeleteFile(path) => DeleteDoc(path)
    case UpdateFile(path, movePath, chunks) => UpdateDoc(path, movePath, WriteChunks(chunks))
  }

  function WriteHunks(hs: seq<Hunk>): seq<HunkDoc> {
    if hs == [] then [] else [WriteHunk(hs[0])] + WriteHunks(hs[1..])
  }

  lemma {:induction false} AddAllMeans(lines: seq<string>)
    ensures OldLines(AddAll(lines)) == [] && NewLines(AddAll(lines)) == lines
  {
    if lines != [] {
      AddAllMeans(lines[1..]);
      assert AddAll(lines)[1..] == AddAll(lines[1..]);
      assert lines == [lines[0]] + lines[1..];
    }
  }

  lemma {:induction false} RemoveThenAddMeans(olds: seq<string>, news: seq<string>)
    ensures var lines := RemoveAll(olds) + AddAll(news);
            OldLines(lines) == olds && NewLines(lines) == news
  {
    var lines := RemoveAll(olds) + AddAll(news);
    if olds == [] {
      assert lines == AddAll(news);
      AddAllMeans(news);
    } else {
      RemoveThenAddMeans(olds[1..], news);
      assert lines[0] == Removed(olds[0]);
      assert lines[1..] == RemoveAll(olds[1..]) + AddAll(news);
      assert olds == [olds[0]] + olds[1..] && [] + news == news;
    }
  }

  predicate ChunkWritten(doc: ChunkDoc) { ChunkOk(doc) && doc.lines != [] && !doc.marker.NoMarker? }

  lemma WriteChunkMeans(c: UpdateFileChunk)
    requires ChunkWellFormed(c)
    ensures ChunkOf(WriteChunk(c)) == c && ChunkWritten(WriteChunk(c))
  {
    hide OldLines, NewLines, NameOk;
    RemoveThenAddMeans(c.oldLines, c.newLines);
  }

  lemma {:induction false} WriteChunksMeans(cs: seq<UpdateFileChunk>)
    requires forall i :: 0 <= i < |cs| ==> ChunkWellFormed(cs[i])
    ensures ChunksOf(WriteChunks(cs)) == cs
    ensures |WriteChunks(cs)| == |cs| && forall i :: 0 <= i < |cs| ==> ChunkWritten(WriteChunks(cs)[i])
  {
    hide WriteChunk, ChunkOf, ChunkWritten, ChunkWellFormed;
    if cs != [] {
      WriteChunksMeans(cs[1..]);
      WriteChunkMeans(cs[0]);
      assert WriteChunks(cs)[1..] == WriteChunks(cs[1..]);
      assert cs == [cs[0]] + cs[1..];
    }
  }

  lemma {:induction false} ContentsOfPieces(pieces: seq<string>)
    requires pieces != [] && pieces[|pieces| - 1] == ""
    ensures Contents(pieces[..|pieces| - 1]) == Join(pieces)
  {
    if |pieces| > 1 {
      ContentsOfPieces(pieces[1..]);
      assert pieces[..|pieces| - 1][1..] == pieces[1..][..|pieces| - 2];
    }
  }

  lemma {:induction false} SplitContents(lines: seq<string>)
    requires AllLineFree(lines)
    ensures Split(Contents(lines)) == lines + [""] && AddedLines(Contents(lines)) == lines
  {
    if lines != [] {
      SplitContents(lines[1..]);
      SplitPrepend(lines[0], Contents(lines[1..]));
      assert [lines[0]] + (lines[1..] + [""]) == lines + [""];
    }
  }

  lemma WriteHunkMeans(h: Hunk)
    requires HunkWellFormed(h)
    ensures HunkOf(WriteHunk(h)) == h && HunkOk(WriteHunk(h)) && Full(WriteHunk(h))
  {
    hide ChunkWellFormed, ChunkOk, NameOk;
    match h
    case AddFile(path, contents) =>
      ContentsOfPieces(Split(contents));
      JoinSplit(contents);
    case DeleteFile(_) =>
    case UpdateFile(_, _, chunks) => WriteChunksMeans(chunks);
  }

  lemma {:induction false} WriteHunksMeans(hs: seq<Hunk>)
    requires AllWellFormed(hs)
    ensures var docs := WriteHunks(hs);
            HunksOf(docs) == hs && |docs| == |hs| && AllFull(docs) && forall i :: 0 <= i < |docs| ==> HunkOk(docs[i])
  {
    hide HunkWellFormed, HunkOk, WriteHunk, HunkOf, Full;
    if hs != [] {
      WriteHunksMeans(hs[1..]);
      WriteHunkMeans(hs[0]);
      assert WriteHunks(hs)[1..] == WriteHunks(hs[1..]);
      assert hs == [hs[0]] + hs[1..];
    }
  }

  function WritePatch(hunks: seq<Hunk>, environmentId: Option<string>): string {
    Join(PatchLines(PatchDoc(environmentId, WriteHunks(hunks))))
  }

  // ---------------------------------------------------------------- stored carriage returns

  function StripChunk(c: UpdateFileChunk): UpdateFileChunk {
    c.(oldLines := StripAll(c.oldLines), newLines := StripAll(c.newLines))
  }

  function StripChunks(cs: seq<UpdateFileChunk>): seq<UpdateFileChunk> {
    if cs == [] then [] else [StripChunk(cs[0])] + StripChunks(cs[1..])
  }

  /** The hunk with one carriage return less at the end of each old, new or added line. */
  function StripHunk(h: Hunk): Hunk {
    match h
    case AddFile(path, contents) => AddFile(path, Contents(StripAll(AddedLines(contents))))
    case DeleteFile(path) => h
    case UpdateFile(path, movePath, chunks) => UpdateFile(path, movePath, StripChunks(chunks))
  }

  function StripHunks(hs: seq<Hunk>): seq<Hunk> {
    if hs == [] then [] else [StripHunk(hs[0])] + StripHunks(hs[1..])
  }

  predicate NoneEndsInCR(lines: seq<string>) { forall i :: 0 <= i < |lines| ==> !EndsInCR(lines[i]) }

  predicate ChunkHasNoCR(c: UpdateFileChunk) { NoneEndsInCR(c.oldLines) && NoneEndsInCR(c.newLines) }

  predicate HunkHasNoCR(h: Hunk) {
    && (h.AddFile? ==> NoneEndsInCR(AddedLines(h.contents)))
    && (h.UpdateFile? ==> forall i :: 0 <= i < |h.chunks| ==> ChunkHasNoCR(h.chunks[i]))
  }

  /** No old, new or added line ends with a carriage return. */
  predicate NoStoredCR(hs: seq<Hunk>) { forall i :: 0 <= i < |hs| ==> HunkHasNoCR(hs[i]) }

  function Prefixed(c: char, lines: seq<string>): seq<string> {
    seq(|lines|, i requires 0 <= i < |lines| => [c] + lines[i])
  }

  lemma StripPrefixed(c: char, lines: seq<string>)
    requires c != '\r'
    ensures StripAll(Prefixed(c, lines)) == Prefixed(c, StripAll(lines))
  {
    forall i | 0 <= i < |lines| ensures StripAll(Prefixed(c, lines))[i] == Prefixed(c, StripAll(lines))[i] {
      StripOne(c, lines[i]);
    }
    assert |StripAll(Prefixed(c, lines))| == |Prefixed(c, StripAll(lines))|;
  }

  lemma StripOne(c: char, line: string)
    requires c != '\r'
    ensures StripCR([c] + line) == [c] + StripCR(line)
  {
    var whole := [c] + line;
    if line != "" {
      assert whole[|whole| - 1] == line[|line| - 1];
      assert whole[..|whole| - 1] == [c] + line[..|line| - 1];
    }
  }

  lemma StripConcat(a: seq<string>, b: seq<string>)
    ensures StripAll(a + b) == StripAll(a) + StripAll(b)
  {
  }

  lemma {:induction false} WrittenAdds(lines: seq<string>)
    ensures DiffTexts(AddAll(lines)) == Prefixed('+', lines) && AddedTexts(lines) == Prefixed('+', lines)
  {
    if lines != [] {
      WrittenAdds(lines[1..]);
      assert AddAll(lines)[1..] == AddAll(lines[1..]);
      assert Prefixed('+', lines) == ["+" + lines[0]] + Prefixed('+', lines[1..]);
    }
  }

  lemma {:induction false} WrittenDiff(olds: seq<string>, news: seq<string>)
    ensures DiffTexts(RemoveAll(olds) + AddAll(news)) == Prefixed('-', olds) + Prefixed('+', news)
  {
    var lines := RemoveAll(olds) + AddAll(news);
    if olds == [] {
      assert lines == AddAll(news);
      WrittenAdds(news);
    } else {
      WrittenDiff(olds[1..], news);
      assert lines[0] == Removed(olds[0]) && lines[1..] == RemoveAll(olds[1..]) + AddAll(news);
      assert Prefixed('-', olds) == ["-" + olds[0]] + Prefixed('-', olds[1..]);
    }
  }

  lemma MarkersHaveNoCR(c: UpdateFileChunk)
    requires c.changeContext.Some? ==> NameOk(c.changeContext.value)
    ensures StripAll(MarkerText(WriteChunk(c).marker)) == MarkerText(WriteChunk(c).marker)
    ensures StripAll(EofText(c.isEndOfFile)) == EofText(c.isEndOfFile)
  {
    if c.changeContext.Some? { NamedLineFree(CONTEXT, c.changeContext.value); }
  }

  lemma StripWrittenChunk(c: UpdateFileChunk)
    requires c.changeContext.Some? ==> NameOk(c.changeContext.value)
    ensures StripAll(ChunkText(WriteChunk(c))) == ChunkText(WriteChunk(StripChunk(c)))
  {
    var d := StripChunk(c);
    WrittenDiff(c.oldLines, c.newLines);
    WrittenDiff(d.oldLines, d.newLines);
    MarkersHaveNoCR(c);
    StripPrefixed('-', c.oldLines);
    StripPrefixed('+', c.newLines);
    hide StripAll, Prefixed, DiffTexts, RemoveAll, AddAll, MarkerText, EofText;
    var marker, eof := MarkerText(WriteChunk(c).marker), EofText(c.isEndOfFile);
    var minus, plus := Prefixed('-', c.oldLines), Prefixed('+', c.newLines);
    StripConcat(marker + (minus + plus), eof);
    StripConcat(marker, minus + plus);
    StripConcat(minus, plus);
  }

  lemma {:induction false} StripWrittenChunks(cs: seq<UpdateFileChunk>)
    requires forall i :: 0 <= i < |cs| ==> ChunkWellFormed(cs[i])
    ensures StripAll(ChunksText(WriteChunks(cs))) == ChunksText(WriteChunks(StripChunks(cs)))
    ensures |StripChunks(cs)| == |cs| && forall i :: 0 <= i < |cs| ==> ChunkWellFormed(StripChunks(cs)[i])
  {
    hide StripAll, ChunkText, WriteChunk, StripChunk, ChunkWellFormed;
    if cs == [] {
      assert StripAll([]) == [] by { StripNothing(); }
    } else {
      StripWrittenChunks(cs[1..]);
      StripChunkWellFormed(cs[0]);
      StripWrittenChunk(cs[0]);
      var docs, docs' := WriteChunks(cs), WriteChunks(StripChunks(cs));
      assert docs[1..] == WriteChunks(cs[1..]);
      assert StripChunks(cs)[1..] == StripChunks(cs[1..]);
      assert docs'[1..] == WriteChunks(StripChunks(cs[1..]));
      StripConcat(ChunkText(docs[0]), ChunksText(docs[1..]));
    }
  }

  lemma StripNothing()
    ensures StripAll([]) == []
  {
  }

  lemma StripChunkWellFormed(c: UpdateFileChunk)
    requires ChunkWellFormed(c)
    ensures ChunkWellFormed(StripChunk(c)) && (c.changeContext.Some? ==> NameOk(c.changeContext.value))
  {
    StrippedFree(c.oldLines);
    StrippedFree(c.newLines);
  }

  lemma StripNamed(marker: string, name: string)
    requires '\n' !in marker && NameOk(name)
    ensures StripAll([marker + name]) == [marker + name]
  {
    NamedLineFree(marker, name);
  }

  lemma StripMove(movePath: Option<string>)
    requires movePath.Some? ==> NameOk(movePath.value)
    ensures var move := if movePath.Some? then [MOVE_TO + movePath.value] else []; StripAll(move) == move
  {
    if movePath.Some? { NamedLineFree(MOVE_TO, movePath.value); }
  }

  lemma StripWrittenAddition(path: string, contents: string)
    requires NameOk(path)
    ensures var h := AddFile(path, contents);
            StripAll(HunkText(WriteHunk(h))) == HunkText(WriteHunk(StripHunk(h))) && HunkWellFormed(StripHunk(h))
  {
    hide StripAll, NameOk, Prefixed, AddedTexts, Contents, Split;
    var lines := AddedLines(contents);
    StrippedFree(lines);
    SplitContents(StripAll(lines));
    WrittenAdds(lines);
    WrittenAdds(StripAll(lines));
    StripPrefixed('+', lines);
    StripNamed(ADD_FILE, path);
    StripConcat([ADD_FILE + path], AddedTexts(lines));
  }

  lemma {:induction false} StripWrittenHunk(h: Hunk)
    requires HunkWellFormed(h)
    ensures StripAll(HunkText(WriteHunk(h))) == HunkText(WriteHunk(StripHunk(h)))
    ensures HunkWellFormed(StripHunk(h))
  {
    hide StripAll, NameOk, ChunkWellFormed, AddedTexts, Contents, Split;
    match h
    case AddFile(path, contents) =>
      StripWrittenAddition(path, contents);
    case DeleteFile(path) => StripNamed(DELETE_FILE, path);
    case UpdateFile(path, movePath, chunks) =>
      StripWrittenChunks(chunks);
      hide ChunksText, WriteChunks;
      StripNamed(UPDATE_FILE, path);
      var move := if movePath.Some? then [MOVE_TO + movePath.value] else [];
      StripMove(movePath);
      StripConcat([UPDATE_FILE + path] + move, ChunksText(WriteChunks(chunks)));
      StripConcat([UPDATE_FILE + path], move);
  }

  lemma {:induction false} StripWrittenHunks(hs: seq<Hunk>)
    requires AllWellFormed(hs)
    ensures StripAll(HunksText(WriteHunks(hs))) == HunksText(WriteHunks(StripHunks(hs)))
    ensures |StripHunks(hs)| == |hs| && AllWellFormed(StripHunks(hs))
  {
    hide StripAll, HunkText, WriteHunk, StripHunk, HunkWellFormed;
    if hs == [] {
      StripNothing();
    } else {
      StripWrittenHunks(hs[1..]);
      StripWrittenHunk(hs[0]);
      var docs, docs' := WriteHunks(hs), WriteHunks(StripHunks(hs));
      assert docs[1..] == WriteHunks(hs[1..]);
      assert StripHunks(hs)[1..] == StripHunks(hs[1..]);
      assert docs'[1..] == WriteHunks(StripHunks(hs[1..]));
      StripConcat(HunkText(docs[0]), HunksText(docs[1..]));
    }
  }

  lemma StripOpening(hs: seq<Hunk>, id: Option<string>)
    requires AllWellFormed(hs) && IdOk(id)
    ensures StripAll(Opening(PatchDoc(id, WriteHunks(hs)))) == Opening(PatchDoc(id, WriteHunks(StripHunks(hs))))
    ensures AllWellFormed(StripHunks(hs))
  {
    StripWrittenHunks(hs);
    EnvironmentTextFree(id);
    hide HunksText, WriteHunks, AllWellFormed;
    var env, body := EnvironmentText(id), HunksText(WriteHunks(hs));
    assert StripAll([BEGIN_PATCH] + env) == [BEGIN_PATCH] + env;
    StripConcat([BEGIN_PATCH] + env, body);
  }

  lemma StripsNothingIff(lines: seq<string>)
    ensures StripAll(StripAll(lines)) == lines <==> NoneEndsInCR(lines)
    ensures NoneEndsInCR(lines) ==> StripAll(lines) == lines
  {
    if StripAll(StripAll(lines)) == lines {
      forall i | 0 <= i < |lines| ensures !EndsInCR(lines[i]) {
        assert StripCR(StripCR(lines[i])) == lines[i];
      }
    }
    if NoneEndsInCR(lines) {
      assert forall i :: 0 <= i < |lines| ==> StripCR(lines[i]) == lines[i];
    }
  }

  lemma {:induction false} StripsNoChunkIff(cs: seq<UpdateFileChunk>)
    ensures |StripChunks(cs)| == |cs|
    ensures StripChunks(StripChunks(cs)) == cs <==> forall i :: 0 <= i < |cs| ==> ChunkHasNoCR(cs[i])
  {
    hide StripAll, NoneEndsInCR;
    if cs != [] {
      var c, rest := cs[0], cs[1..];
      StripsNothingIff(c.oldLines);
      StripsNothingIff(c.newLines);
      StripsNoChunkIff(rest);
      var once := StripChunks(cs);
      assert once[1..] == StripChunks(rest);
      assert StripChunks(once) == [StripChunk(StripChunk(c))] + StripChunks(StripChunks(rest));
      assert cs == [c] + rest;
      assert (forall i :: 0 <= i < |cs| ==> ChunkHasNoCR(cs[i])) <==>
             ChunkHasNoCR(c) && forall i :: 0 <= i < |rest| ==> ChunkHasNoCR(rest[i]) by {
        hide ChunkHasNoCR;
        assert forall i :: 0 < i < |cs| ==> cs[i] == rest[i - 1];
        assert forall i :: 0 <= i < |rest| ==> rest[i] == cs[i + 1];
      }
    }
  }

  lemma StripsNoHunkIff(h: Hunk)
    requires HunkWellFormed(h)
    ensures StripHunk(StripHunk(h)) == h <==> HunkHasNoCR(h)
  {
    hide StripAll, NameOk, ChunkWellFormed, NoneEndsInCR, Contents, Split, ChunkHasNoCR;
    match h
    case AddFile(path, contents) =>
      var lines := AddedLines(contents);
      StrippedFree(lines);
      StrippedFree(StripAll(lines));
      SplitContents(StripAll(lines));
      SplitContents(StripAll(StripAll(lines)));
      StripsNothingIff(lines);
      ContentsOfPieces(Split(contents));
      JoinSplit(contents);
      assert contents == Contents(lines);
    case DeleteFile(_) =>
    case UpdateFile(_, _, chunks) => StripsNoChunkIff(chunks);
  }

  lemma {:induction false} StripsNoHunksIff(hs: seq<Hunk>)
    requires AllWellFormed(hs)
    ensures StripHunks(StripHunks(hs)) == hs <==> NoStoredCR(hs)
  {
    hide StripHunk, HunkWellFormed, HunkHasNoCR;
    if hs != [] {
      var h, rest := hs[0], hs[1..];
      StripsNoHunkIff(h);
      StripsNoHunksIff(rest);
      var once := StripHunks(hs);
      assert once[1..] == StripHunks(rest);
      assert StripHunks(once) == [StripHunk(StripHunk(h))] + StripHunks(StripHunks(rest));
      assert hs == [h] + rest;
      assert forall i :: 0 < i < |hs| ==> hs[i] == rest[i - 1];
      assert forall i :: 0 <= i < |rest| ==> rest[i] == hs[i + 1];
    }
  }

  /** Well-formed hunks, written and parsed, come back with up to two carriage returns less at the end of
      each stored line; so they come back as they were if and only if no stored line ends with one. */
  lemma {:induction false} ParseUndoesWritePatch(hunks: seq<Hunk>, environmentId: Option<string>, mode: ParseMode)
    requires AllWellFormed(hunks) && IdOk(environmentId)
    ensures var parsed := Parsed(WritePatch(hunks, environmentId), mode);
            && parsed == Ok(ParsedPatch(StripHunks(StripHunks(hunks)), environmentId))
            && (parsed == Ok(ParsedPatch(hunks, environmentId)) <==> NoStoredCR(hunks))
  {
    hide Parsed, HunkOk, WriteHunks, HunksOf, StripHunks, NoStoredCR, AllWellFormed, Join, HunksText, EnvironmentText;
    var once := StripHunks(hunks);
    var twice := StripHunks(once);
    StripOpening(hunks, environmentId);
    StripOpening(once, environmentId);
    WriteHunksMeans(hunks);
    WriteHunksMeans(twice);
    StripsNoHunksIff(hunks);
    var doc, bare := PatchDoc(environmentId, WriteHunks(hunks)), PatchDoc(environmentId, WriteHunks(twice));
    var lines := PatchLines(doc);
    PatchLinesFree(doc);
    assert lines[..|lines| - 1] == Opening(doc);
    ParseUndoesWrite(bare, lines, "", mode);
    assert Join(lines) + "" == Join(lines);
  }
}
