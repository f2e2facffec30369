/** Applying hunks to the file system while recording what was committed. */
module PatchApplier {
  import opened Basics
  import opened PatchSyntax
  import opened FileUpdate
  import opened PatchedFiles
  import opened FileSystem

  /** Joining a patch path onto the working directory, which may fail. */
  type Resolver = string -> Option<Path>

  /** The committed changes, and whether they are known to be all that happened. */
  class AppliedPatchDelta {
    var changes: seq<AppliedChange>
    var exact: bool

    constructor ()
      ensures changes == [] && exact
    {
      changes, exact := [], true;
    }
  }

  /** Patch spellings of the affected paths, for the summary. */
  datatype AffectedPaths = AffectedPaths(added: seq<string>, modified: seq<string>, deleted: seq<string>)

  /** `Hunk::path`: the destination for a rename. */
  function ShownPath(hunk: Hunk): string {
    if hunk.UpdateFile? && hunk.movePath.Some? then hunk.movePath.value else hunk.path
  }

  function ShowOne(shown: AffectedPaths, hunk: Hunk): AffectedPaths {
    match hunk
    case AddFile(_, _) => shown.(added := shown.added + [ShownPath(hunk)])
    case DeleteFile(_) => shown.(deleted := shown.deleted + [ShownPath(hunk)])
    case UpdateFile(_, _, _) => shown.(modified := shown.modified + [ShownPath(hunk)])
  }

  function AffectedBy(hunks: seq<Hunk>): AffectedPaths {
    if hunks == [] then AffectedPaths([], [], []) else ShowOne(AffectedBy(hunks[..|hunks| - 1]), hunks[|hunks| - 1])
  }

  /** The resolved paths a hunk may write or remove. */
  function Touched(hunk: Hunk, resolve: Resolver): set<Path> {
    (if resolve(hunk.path).Some? then {resolve(hunk.path).value} else {})
    + if hunk.UpdateFile? && hunk.movePath.Some? && resolve(hunk.movePath.value).Some?
      then {resolve(hunk.movePath.value).value} else {}
  }

  function AllTouched(hunks: seq<Hunk>, resolve: Resolver): set<Path> {
    if hunks == [] then {} else Touched(hunks[0], resolve) + AllTouched(hunks[1..], resolve)
  }

  /** What one hunk does to the files when no call fails; `None` when it is rejected. */
  function HunkEffect(files: Files, hunk: Hunk, resolve: Resolver): Option<Files> {
    if resolve(hunk.path).None? then None
    else
      var p := resolve(hunk.path).value;
      match hunk
      case AddFile(_, contents) => Some(files[p := TextFile(contents)])
      case DeleteFile(_) => if p in files then Some(files - {p}) else None
      case UpdateFile(_, movePath, chunks) =>
        if p !in files || !files[p].TextFile? then None
        else
          var content := NewContents(files[p].text, chunks);
          if content.Err? then None
          else if movePath.None? then Some(files[p := TextFile(content.value)])
          else if resolve(movePath.value).None? then None
          else Some(files[resolve(movePath.value).value := TextFile(content.value)] - {p})
  }

  /** Which hunks are accepted, and what each leaves: an added file holds its contents, a deleted one is
      gone, an updated one holds its new text, under its new path if it is moved; no other path changes. */
  lemma HunkEffectMeans(files: Files, hunk: Hunk, resolve: Resolver)
    ensures HunkEffect(files, hunk, resolve).Some?
       <==> && resolve(hunk.path).Some?
            && (hunk.DeleteFile? ==> resolve(hunk.path).value in files)
            && (hunk.UpdateFile? ==>
                  var p := resolve(hunk.path).value;
                  && p in files && files[p].TextFile? && NewContents(files[p].text, hunk.chunks).Ok?
                  && (hunk.movePath.Some? ==> resolve(hunk.movePath.value).Some?))
    ensures HunkEffect(files, hunk, resolve).Some? ==>
              var after, p := HunkEffect(files, hunk, resolve).value, resolve(hunk.path).value;
              && (forall q :: q !in Touched(hunk, resolve) ==> SameAt(files, after, q))
              && (hunk.AddFile? ==> Holds(after, p, Some(hunk.contents)))
              && (hunk.DeleteFile? ==> p !in after)
              && (hunk.UpdateFile? ==>
                    var text := NewContents(files[p].text, hunk.chunks).value;
                    if hunk.movePath.None? then Holds(after, p, Some(text))
                    else p !in after && (resolve(hunk.movePath.value) != Some(p) ==> Holds(after, resolve(hunk.movePath.value).value, Some(text))))
  {
    hide NewContents;
  }

  /** The patch spellings of the hunks of one kind, in order; a moved file goes by its new path. */
  function Spelled(hunks: seq<Hunk>, kind: Hunk -> bool): seq<string> {
    if hunks == [] then []
    else
      var before, h := Spelled(hunks[..|hunks| - 1], kind), hunks[|hunks| - 1];
      if !kind(h) then before
      else before + [if h.UpdateFile? && h.movePath.Some? then h.movePath.value else h.path]
  }

  lemma {:induction false} AffectedByKind(hunks: seq<Hunk>)
    ensures AffectedBy(hunks).added == Spelled(hunks, (h: Hunk) => h.AddFile?)
    ensures AffectedBy(hunks).modified == Spelled(hunks, (h: Hunk) => h.UpdateFile?)
    ensures AffectedBy(hunks).deleted == Spelled(hunks, (h: Hunk) => h.DeleteFile?)
  {
    if hunks != [] {
      AffectedByKind(hunks[..|hunks| - 1]);
    }
  }

  /** Hunks in order until one is rejected, and whether none was. */
  function PatchEffect(files: Files, hunks: seq<Hunk>, resolve: Resolver): (Files, bool)
    decreases |hunks|
  {
    if hunks == [] then (files, true)
    else
      var after := HunkEffect(files, hunks[0], resolve);
      if after.None? then (files, false) else PatchEffect(after.value, hunks[1..], resolve)
  }

  predicate SelfMove(hunk: Hunk, resolve: Resolver) {
    hunk.UpdateFile? && hunk.movePath.Some? && resolve(hunk.path).Some? && resolve(hunk.movePath.value) == resolve(hunk.path)
  }

  // ---------------------------------------------------------------- calls on the file system

  lemma FilesOfChange(nodes: map<Path, Node>, p: Path, text: string)
    ensures FilesOf(nodes[p := TextFile(text)]) == FilesOf(nodes)[p := TextFile(text)]
    ensures FilesOf(nodes - {p}) == FilesOf(nodes) - {p}
  {
  }

  lemma FilesOfSame(a: map<Path, Node>, b: map<Path, Node>, paths: set<Path>)
    requires SameExcept(a, b, paths)
    ensures SameExcept(FilesOf(a), FilesOf(b), paths)
  {
    forall q | q !in paths ensures SameAt(FilesOf(a), FilesOf(b), q) {
      assert SameAt(a, b, q);
    }
  }

  /** Nothing but `paths` differs, and no plain path turned into a link or device. */
  ghost predicate Confined(before: map<Path, Node>, after: map<Path, Node>, paths: set<Path>) {
    SameExcept(FilesOf(before), FilesOf(after), paths) && forall q :: Plain(before, q) ==> Plain(after, q)
  }

  lemma ConfinedTransitive(a: map<Path, Node>, b: map<Path, Node>, c: map<Path, Node>, p: set<Path>, q: set<Path>, r: set<Path>)
    requires Confined(a, b, p) && Confined(b, c, q) && p <= r && q <= r
    ensures Confined(a, c, r)
  {
    forall x | x !in r ensures SameAt(FilesOf(a), FilesOf(c), x) {
      assert SameAt(FilesOf(a), FilesOf(b), x) && SameAt(FilesOf(b), FilesOf(c), x);
    }
  }

  lemma ConfinedByPlain(a: map<Path, Node>, b: map<Path, Node>, p: Path)
    requires SameExcept(a, b, {p}) && (Plain(a, p) ==> Plain(b, p))
    ensures Plain(a, p) ==> Confined(a, b, {p})
  {
    FilesOfSame(a, b, {p});
    forall q | Plain(a, q) && Plain(a, p) ensures Plain(b, q) {
      if q != p { assert SameAt(a, b, q); }
    }
  }

  method NoteExistingPathDeltaSupport(fs: FileSystem, p: Path, delta: AppliedPatchDelta)
    modifies fs`faults, delta`exact
    ensures old(fs.faults) <= fs.faults
    ensures delta.exact ==> old(delta.exact) && Plain(fs.nodes, p) && (p in fs.nodes ==> p in fs.Contents())
    ensures fs.faults == old(fs.faults) && (p in fs.nodes ==> fs.nodes[p].TextFile? || fs.nodes[p].BinaryFile?) ==> delta.exact == old(delta.exact)
  {
    var r := fs.GetMetadata(p);
    if !(r.Done? && r.value.isFile && !r.value.isSymlink) && !r.NotFound? {
      delta.exact := false;
    }
  }

  method ReadOptionalFileTextForDelta(fs: FileSystem, p: Path, delta: AppliedPatchDelta) returns (text: Option<string>)
    modifies fs`faults, delta`exact
    ensures old(fs.faults) <= fs.faults
    ensures delta.exact ==> old(delta.exact) && Plain(fs.nodes, p) && Holds(fs.Contents(), p, text)
    ensures fs.faults == old(fs.faults) && (p in fs.nodes ==> fs.nodes[p].TextFile?) ==> delta.exact == old(delta.exact)
  {
    NoteExistingPathDeltaSupport(fs, p, delta);
    var r := fs.ReadFileText(p);
    match r {
      case Done(content) => text := Some(content);
      case NotFound => text := None;
      case Failed =>
        delta.exact := false;
        text := None;
    }
  }

  method EnsureNotDirectory(fs: FileSystem, p: Path) returns (ok: bool)
    modifies fs`faults
    ensures old(fs.faults) <= fs.faults
    ensures ok ==> p in fs.nodes && p in fs.Contents()
    ensures !ok ==> fs.faults > old(fs.faults) || p !in fs.Contents()
  {
    var r := fs.GetMetadata(p);
    ok := r.Done? && !r.value.isDirectory;
  }

  method RemoveFailureWasSideEffectFree(fs: FileSystem, p: Path, expected: Option<string>) returns (clean: bool)
    modifies fs`faults
    ensures old(fs.faults) <= fs.faults
    ensures clean && Plain(fs.nodes, p) ==> expected.Some? && Holds(fs.Contents(), p, expected)
    ensures fs.faults == old(fs.faults) && expected.Some? && Holds(fs.Contents(), p, expected) ==> clean
  {
    if expected.None? {
      return false;
    }
    var r := fs.ReadFileText(p);
    clean := r.Done? && r.value == expected.value;
  }

  method WriteFileWithMissingParentRetry(fs: FileSystem, p: Path, text: string) returns (ok: bool)
    modifies fs
    ensures old(fs.faults) <= fs.faults
    ensures !ok ==> fs.faults > old(fs.faults)
    ensures Plain(old(fs.nodes), p) ==> Confined(old(fs.nodes), fs.nodes, {p})
    ensures Plain(old(fs.nodes), p) && ok ==> fs.Contents() == old(fs.Contents())[p := TextFile(text)]
    ensures Plain(old(fs.nodes), p) && ok && p in old(fs.nodes) ==> !old(fs.nodes)[p].Directory?
  {
    hide Confined, SameExcept, FilesOf;
    ghost var n0 := fs.nodes;
    var r := fs.WriteFile(p, text);
    FilesOfChange(n0, p, text);
    if Plain(n0, p) {
      ConfinedByPlain(n0, fs.nodes, p);
    }
    if r.NotFound? {
      assert fs.nodes == n0;
      r := fs.CreateParents(p);
      ghost var n1 := fs.nodes;
      CreatedIsConfined(n0, n1);
      if !r.Done? {
        ok := false;
        ConfinedTransitive(n0, n1, n1, {}, {}, {p}) by { CreatedIsConfined(n1, n1); }
        return;
      }
      r := fs.WriteFile(p, text);
      FilesOfChange(n1, p, text);
      if Plain(n0, p) {
        assert Plain(n1, p) by { StaysPlain(n0, n1, {}, p); }
        ConfinedByPlain(n1, fs.nodes, p);
        ConfinedTransitive(n0, n1, fs.nodes, {}, {p}, {p});
      }
    }
    ok := r.Done?;
  }

  lemma CreatedIsConfined(a: map<Path, Node>, b: map<Path, Node>)
    requires FilesOf(a) == FilesOf(b) && forall q :: Plain(a, q) ==> Plain(b, q)
    ensures Confined(a, b, {})
  {
  }

  lemma StaysPlain(a: map<Path, Node>, b: map<Path, Node>, paths: set<Path>, p: Path)
    requires Confined(a, b, paths) && Plain(a, p)
    ensures Plain(b, p)
  {
  }

  /** Each of these paths holds a text or no file at all. */
  ghost predicate TextOrNone(files: Files, paths: set<Path>) {
    forall p :: p in paths && p in files ==> files[p].TextFile?
  }

  lemma TextAtNode(nodes: map<Path, Node>, p: Path)
    ensures TextOrNone(FilesOf(nodes), {p}) && p in nodes ==> nodes[p].TextFile? || nodes[p].Directory?
  {
  }

  // ---------------------------------------------------------------- one hunk

  method ApplyAdd(fs: FileSystem, delta: AppliedPatchDelta, p: Path, contents: string, ghost f0: Files) returns (ok: bool)
    requires delta.exact ==> Recorded(f0, delta.changes, fs.Contents())
    modifies fs, delta
    ensures old(fs.faults) <= fs.faults
    ensures delta.exact ==> old(delta.exact) && Recorded(f0, delta.changes, fs.Contents())
    ensures NoneOntoItself(old(delta.changes)) ==> NoneOntoItself(delta.changes)
    ensures !ok ==> fs.faults > old(fs.faults)
    ensures Plain(old(fs.nodes), p) ==> Confined(old(fs.nodes), fs.nodes, {p})
    ensures Plain(old(fs.nodes), p) && ok ==> fs.Contents() == old(fs.Contents())[p := TextFile(contents)]
    ensures Plain(old(fs.nodes), p) && TextOrNone(old(fs.Contents()), {p}) && fs.faults == old(fs.faults) ==> delta.exact == old(delta.exact)
  {
    hide Recorded, Confined, FilesOf;
    var overwritten := ReadOptionalFileTextForDelta(fs, p, delta);
    ghost var mid := fs.Contents();
    TextAtNode(fs.nodes, p);
    ok := WriteFileWithMissingParentRetry(fs, p, contents);
    if !ok {
      delta.exact := false;
      return;
    }
    var change := Added(p, contents, overwritten);
    if delta.exact {
      RecordedSnoc(f0, delta.changes, mid, change);
    }
    delta.changes := delta.changes + [change];
  }

  method ApplyDelete(fs: FileSystem, delta: AppliedPatchDelta, p: Path, ghost f0: Files) returns (ok: bool)
    requires delta.exact ==> Recorded(f0, delta.changes, fs.Contents())
    modifies fs, delta
    ensures old(fs.faults) <= fs.faults
    ensures delta.exact ==> old(delta.exact) && Recorded(f0, delta.changes, fs.Contents())
    ensures NoneOntoItself(old(delta.changes)) ==> NoneOntoItself(delta.changes)
    ensures Plain(old(fs.nodes), p) ==> Confined(old(fs.nodes), fs.nodes, {p})
    ensures ok ==> p in old(fs.Contents()) && fs.Contents() == old(fs.Contents()) - {p}
    ensures !ok && fs.faults == old(fs.faults) ==> p !in old(fs.Contents()) && fs.Contents() == old(fs.Contents())
    ensures TextOrNone(old(fs.Contents()), {p}) && fs.faults == old(fs.faults) ==> delta.exact == (old(delta.exact) && ok)
  {
    hide Recorded, Confined;
    ghost var n0 := fs.nodes;
    SameIsConfined(n0, p);
    NoteExistingPathDeltaSupport(fs, p, delta);
    var read := fs.ReadFileText(p);
    var content := if read.Done? then Some(read.value) else None;
    if content.None? {
      delta.exact := false;
    }
    ok := EnsureNotDirectory(fs, p);
    if !ok {
      return;
    }
    var removed := fs.Remove(p);
    ConfinedByPlain(n0, fs.nodes, p);
    FilesOfChange(n0, p, "");
    if !removed.Done? {
      var clean := RemoveFailureWasSideEffectFree(fs, p, content);
      delta.exact := delta.exact && clean;
      if delta.exact {
        assert fs.Contents() == FilesOf(n0) by { SameFiles(n0, fs.nodes, p); }
      }
      ok := false;
      return;
    }
    if content.Some? {
      var change := Deleted(p, content.value);
      if delta.exact {
        RecordedSnoc(f0, delta.changes, FilesOf(n0), change);
      }
      delta.changes := delta.changes + [change];
    }
  }

  lemma SameIsConfined(nodes: map<Path, Node>, p: Path)
    ensures Confined(nodes, nodes, {p})
  {
  }

  /** Two states that agree elsewhere and hold the same at `p` have the same files. */
  lemma SameFiles(a: map<Path, Node>, b: map<Path, Node>, p: Path)
    requires SameExcept(a, b, {p}) && SameAt(FilesOf(a), FilesOf(b), p)
    ensures FilesOf(a) == FilesOf(b)
  {
    FilesOfSame(a, b, {p});
    SameEverywhere(FilesOf(a), FilesOf(b));
  }

  lemma SameEverywhere(a: Files, b: Files)
    requires forall q :: SameAt(a, b, q)
    ensures a == b
  {
    forall q | q in a.Keys || q in b.Keys ensures q in a.Keys && q in b.Keys {
      assert SameAt(a, b, q);
    }
    forall q | q in a ensures a[q] == b[q] {
      assert SameAt(a, b, q);
    }
  }

  /** Write the destination, then remove the source. When the removal fails, the destination write
      stays recorded as an addition. `phantom` marks the one failure the check on the source cannot
      see: the file was moved onto itself, and the failed removal left its old text. */
  method ApplyMove(fs: FileSystem, delta: AppliedPatchDelta, p: Path, dest: Path, original: string, content: string, ghost f0: Files)
    returns (ok: bool, ghost phantom: bool)
    requires delta.exact ==> Recorded(f0, delta.changes, fs.Contents()) && Plain(fs.nodes, p)
    requires Plain(fs.nodes, p) ==> Holds(fs.Contents(), p, Some(original))
    modifies fs, delta
    ensures old(fs.faults) <= fs.faults
    ensures delta.exact ==> old(delta.exact)
    ensures delta.exact && !phantom ==> Recorded(f0, delta.changes, fs.Contents())
    ensures dest != p && NoneOntoItself(old(delta.changes)) ==> NoneOntoItself(delta.changes)
    ensures phantom ==> && delta.exact && !ok && dest == p
                        && Replay(f0, delta.changes) != fs.Contents() && Undo(fs.Contents(), delta.changes) == f0
    ensures Plain(old(fs.nodes), p) && Plain(old(fs.nodes), dest) ==> Confined(old(fs.nodes), fs.nodes, {p, dest})
    ensures !ok ==> fs.faults > old(fs.faults) || !Plain(old(fs.nodes), p) || !Plain(old(fs.nodes), dest)
    ensures Plain(old(fs.nodes), p) && Plain(old(fs.nodes), dest) && ok ==>
              fs.Contents() == old(fs.Contents())[dest := TextFile(content)] - {p}
    ensures Plain(old(fs.nodes), dest) && TextOrNone(old(fs.Contents()), {dest}) && fs.faults == old(fs.faults) && ok ==>
              delta.exact == old(delta.exact)
  {
    hide Recorded, Confined, FilesOf;
    phantom := false;
    ghost var n0 := fs.nodes;
    var overwritten := ReadOptionalFileTextForDelta(fs, dest, delta);
    TextAtNode(n0, dest);
    ok := WriteFileWithMissingParentRetry(fs, dest, content);
    ghost var n1 := fs.nodes;
    ghost var plain := Plain(n0, p) && Plain(n0, dest);
    if plain {
      StaysPlain(n0, n1, {dest}, p);
      SameIsConfined(n1, p);
      ConfinedTransitive(n0, n1, n1, {dest}, {p}, {p, dest});
    }
    if !ok {
      delta.exact := false;
      return;
    }
    ghost var changes := delta.changes;
    var at := |delta.changes|;
    delta.changes := delta.changes + [Added(dest, content, overwritten)];
    if delta.exact {
      RecordedSnoc(f0, changes, FilesOf(n0), Added(dest, content, overwritten));
    }
    ok := EnsureNotDirectory(fs, p);
    if !ok {
      return;
    }
    var removed := fs.Remove(p);
    if plain {
      ConfinedByPlain(n1, fs.nodes, p);
      ConfinedTransitive(n0, n1, fs.nodes, {dest}, {p}, {p, dest});
    }
    if !removed.Done? {
      var clean := RemoveFailureWasSideEffectFree(fs, p, Some(original));
      delta.exact := delta.exact && clean;
      ok := false;
      if delta.exact {
        if dest == p && content != original {
          phantom := true;
          PhantomMove(f0, changes, n0, n1, fs.nodes, p, original, content);
        } else {
          SameFiles(n1, fs.nodes, p);
        }
      }
      return;
    }
    FilesOfChange(n1, p, "");
    var change := Updated(p, Some(dest), original, overwritten, content);
    if delta.exact {
      RecordedSnoc(f0, changes, FilesOf(n0), change);
    }
    delta.changes := delta.changes[at := change];
    assert delta.changes == changes + [change];
  }

  /** What is left behind by the failure that looks clean. */
  lemma PhantomMove(f0: Files, changes: seq<AppliedChange>, n0: map<Path, Node>, n1: map<Path, Node>, n2: map<Path, Node>, p: Path, original: string, content: string)
    requires Recorded(f0, changes, FilesOf(n0)) && Holds(FilesOf(n0), p, Some(original))
    requires FilesOf(n1) == FilesOf(n0)[p := TextFile(content)] && content != original
    requires SameExcept(n1, n2, {p}) && Holds(FilesOf(n2), p, Some(original))
    ensures var recorded := changes + [Added(p, content, Some(original))];
            Replay(f0, recorded) != FilesOf(n2) && Undo(FilesOf(n2), recorded) == f0
  {
    var c := Added(p, content, Some(original));
    RecordOneMore(f0, changes, c);
    UndoLastFirst(FilesOf(n2), changes, c);
    FilesOfSame(n1, n2, {p});
    forall q ensures SameAt(UndoOne(FilesOf(n2), c), FilesOf(n0), q) {
      assert q != p ==> SameAt(FilesOf(n1), FilesOf(n2), q);
    }
    SameEverywhere(UndoOne(FilesOf(n2), c), FilesOf(n0));
    UndoInvertsReplay(f0, changes);
  }

  /** Fault-free, the hunk had exactly its effect, or was rejected and changed nothing. */
  ghost predicate Effected(before: Files, hunk: Hunk, resolve: Resolver, after: Files, ok: bool) {
    var effect := HunkEffect(before, hunk, resolve);
    ok == effect.Some? && after == if ok then effect.value else before
  }

  method ReadFileToUpdate(fs: FileSystem, p: Path) returns (text: Option<string>)
    modifies fs`faults
    ensures old(fs.faults) <= fs.faults
    ensures text.Some? ==> p in fs.nodes && (Plain(fs.nodes, p) ==> Holds(fs.Contents(), p, text))
    ensures text.None? && Plain(fs.nodes, p) ==> fs.faults > old(fs.faults) || p !in fs.Contents() || !fs.Contents()[p].TextFile?
  {
    var r := fs.ReadFileText(p);
    text := if r.Done? then Some(r.value) else None;
  }

  method ApplyUpdate(fs: FileSystem, delta: AppliedPatchDelta, hunk: Hunk, p: Path, resolve: Resolver, ghost f0: Files)
    returns (ok: bool, ghost phantom: bool)
    requires hunk.UpdateFile? && resolve(hunk.path) == Some(p)
    requires delta.exact ==> Recorded(f0, delta.changes, fs.Contents())
    modifies fs, delta
    ensures old(fs.faults) <= fs.faults
    ensures delta.exact ==> old(delta.exact)
    ensures delta.exact && !phantom ==> Recorded(f0, delta.changes, fs.Contents())
    ensures !SelfMove(hunk, resolve) && NoneOntoItself(old(delta.changes)) ==> NoneOntoItself(delta.changes)
    ensures phantom ==> && delta.exact && !ok && SelfMove(hunk, resolve)
                        && Replay(f0, delta.changes) != fs.Contents() && Undo(fs.Contents(), delta.changes) == f0
    ensures AllPlain(old(fs.nodes), Touched(hunk, resolve)) ==>
              && Confined(old(fs.nodes), fs.nodes, Touched(hunk, resolve))
              && (fs.faults == old(fs.faults) ==> Effected(old(fs.Contents()), hunk, resolve, fs.Contents(), ok))
              && (TextOrNone(old(fs.Contents()), Touched(hunk, resolve)) && fs.faults == old(fs.faults) && ok ==> delta.exact == old(delta.exact))
  {
    hide Recorded, Confined, NewContents, FilesOf;
    phantom := false;
    ghost var n0 := fs.nodes;
    ghost var touched := Touched(hunk, resolve);
    NothingIsConfined(n0, touched);
    NoteExistingPathDeltaSupport(fs, p, delta);
    var read := ReadFileToUpdate(fs, p);
    if read.None? {
      return false, phantom;
    }
    var original := read.value;
    if Plain(n0, p) { NodeOfFile(n0, p); }
    var content := DeriveNewContents(original, hunk.chunks);
    if content.Err? {
      return false, phantom;
    }
    if hunk.movePath.Some? {
      var dest := resolve(hunk.movePath.value);
      if dest.None? {
        return false, phantom;
      }
      assert touched == {p, dest.value};
      if TextOrNone(fs.Contents(), touched) { TextOrNoneSome(fs.Contents(), touched, {dest.value}); }
      hide TextOrNone;
      ok, phantom := ApplyMove(fs, delta, p, dest.value, original, content.value, f0);
    } else {
      assert touched == {p};
      ok := ApplyInPlace(fs, delta, p, original, content.value, f0);
    }
  }

  method ApplyInPlace(fs: FileSystem, delta: AppliedPatchDelta, p: Path, original: string, content: string, ghost f0: Files) returns (ok: bool)
    requires delta.exact ==> Recorded(f0, delta.changes, fs.Contents()) && Plain(fs.nodes, p)
    requires Plain(fs.nodes, p) ==> Holds(fs.Contents(), p, Some(original))
    modifies fs, delta
    ensures old(fs.faults) <= fs.faults
    ensures delta.exact ==> old(delta.exact) && Recorded(f0, delta.changes, fs.Contents())
    ensures NoneOntoItself(old(delta.changes)) ==> NoneOntoItself(delta.changes)
    ensures !ok && Plain(old(fs.nodes), p) ==> fs.faults > old(fs.faults)
    ensures ok ==> delta.exact == old(delta.exact)
    ensures Plain(old(fs.nodes), p) ==> Confined(old(fs.nodes), fs.nodes, {p})
    ensures Plain(old(fs.nodes), p) && ok ==> fs.Contents() == old(fs.Contents())[p := TextFile(content)]
  {
    hide Recorded, Confined, FilesOf;
    ghost var n0 := fs.nodes;
    if Plain(n0, p) { NodeOfFile(n0, p); }
    var written := fs.WriteFile(p, content);
    FilesOfChange(n0, p, content);
    if Plain(n0, p) {
      ConfinedByPlain(n0, fs.nodes, p);
    }
    ok := written.Done?;
    if !ok {
      delta.exact := false;
      return;
    }
    var change := Updated(p, None, original, None, content);
    if delta.exact {
      RecordedSnoc(f0, delta.changes, FilesOf(n0), change);
    }
    delta.changes := delta.changes + [change];
  }

  lemma NodeOfFile(nodes: map<Path, Node>, p: Path)
    requires p in FilesOf(nodes)
    ensures p in nodes && nodes[p] == FilesOf(nodes)[p]
  {
  }

  lemma NothingIsConfined(nodes: map<Path, Node>, paths: set<Path>)
    ensures Confined(nodes, nodes, paths)
  {
  }

  method ApplyHunk(fs: FileSystem, delta: AppliedPatchDelta, hunk: Hunk, resolve: Resolver, ghost f0: Files)
    returns (ok: bool, ghost phantom: bool)
    requires delta.exact ==> Recorded(f0, delta.changes, fs.Contents())
    modifies fs, delta
    ensures old(fs.faults) <= fs.faults
    ensures delta.exact ==> old(delta.exact)
    ensures delta.exact && !phantom ==> Recorded(f0, delta.changes, fs.Contents())
    ensures !SelfMove(hunk, resolve) && NoneOntoItself(old(delta.changes)) ==> NoneOntoItself(delta.changes)
    ensures phantom ==> && delta.exact && !ok && SelfMove(hunk, resolve)
                        && Replay(f0, delta.changes) != fs.Contents() && Undo(fs.Contents(), delta.changes) == f0
    ensures AllPlain(old(fs.nodes), Touched(hunk, resolve)) ==>
              && Confined(old(fs.nodes), fs.nodes, Touched(hunk, resolve))
              && (fs.faults == old(fs.faults) ==> Effected(old(fs.Contents()), hunk, resolve, fs.Contents(), ok))
              && (TextOrNone(old(fs.Contents()), Touched(hunk, resolve)) && fs.faults == old(fs.faults) && ok ==> delta.exact == old(delta.exact))
  {
    hide Recorded, Confined, NewContents, FilesOf;
    phantom := false;
    var path := resolve(hunk.path);
    if path.None? {
      NothingIsConfined(fs.nodes, Touched(hunk, resolve));
      return false, phantom;
    }
    var p := path.value;
    match hunk {
      case AddFile(_, contents) =>
        assert Touched(hunk, resolve) == {p};
        ok := ApplyAdd(fs, delta, p, contents, f0);
      case DeleteFile(_) =>
        assert Touched(hunk, resolve) == {p};
        ok := ApplyDelete(fs, delta, p, f0);
      case UpdateFile(_, _, _) =>
        ok, phantom := ApplyUpdate(fs, delta, hunk, p, resolve, f0);
    }
  }

  // ---------------------------------------------------------------- the whole run

  lemma {:induction false} TouchedByOne(hunks: seq<Hunk>, resolve: Resolver, i: nat)
    requires i < |hunks|
    ensures Touched(hunks[i], resolve) <= AllTouched(hunks, resolve)
  {
    if i > 0 {
      TouchedByOne(hunks[1..], resolve, i - 1);
    }
  }

  datatype ApplyError = NoFilesModified | HunkFailed(index: nat)

  /** A run over any hunks, with any calls failing.

      While the delta says it is exact, undoing its changes restores the files the run began with,
      and replaying them gives the files it ended with, except after one failure: a file moved onto
      itself whose failed removal left its old text. Files the patch does not name never change.
      And when no call failed, the run did what `PatchEffect` says. */
  method ApplyHunksToFiles(fs: FileSystem, delta: AppliedPatchDelta, hunks: seq<Hunk>, resolve: Resolver)
    returns (r: Result<AffectedPaths, ApplyError>, ghost phantom: bool)
    requires delta.changes == [] && delta.exact
    modifies fs, delta
    ensures old(fs.faults) <= fs.faults
    ensures delta.exact ==> Undo(fs.Contents(), delta.changes) == old(fs.Contents())
    ensures delta.exact ==> (Replay(old(fs.Contents()), delta.changes) == fs.Contents() <==> !phantom)
    ensures delta.exact && !phantom ==> Recorded(old(fs.Contents()), delta.changes, fs.Contents())
    ensures phantom ==> r.Err? && exists i :: 0 <= i < |hunks| && SelfMove(hunks[i], resolve)
    ensures (forall i :: 0 <= i < |hunks| ==> !SelfMove(hunks[i], resolve)) ==> NoneOntoItself(delta.changes)
    ensures AllPlain(old(fs.nodes), AllTouched(hunks, resolve)) ==>
              SameExcept(old(fs.Contents()), fs.Contents(), AllTouched(hunks, resolve))
    ensures AllPlain(old(fs.nodes), AllTouched(hunks, resolve)) && fs.faults == old(fs.faults) ==>
              (fs.Contents(), r.Ok? || hunks == []) == PatchEffect(old(fs.Contents()), hunks, resolve)
    ensures AllPlain(old(fs.nodes), AllTouched(hunks, resolve)) && fs.faults == old(fs.faults) && r.Ok? ==>
              TextOrNone(old(fs.Contents()), AllTouched(hunks, resolve)) ==> delta.exact
    ensures hunks == [] ==> r == Err(NoFilesModified) && fs.nodes == old(fs.nodes) && delta.exact
    ensures r.Err? && hunks != [] ==> r.error.HunkFailed? && r.error.index < |hunks|
    ensures r.Err? && hunks != [] && AllPlain(old(fs.nodes), AllTouched(hunks, resolve)) && fs.faults == old(fs.faults) ==>
              HunkEffect(fs.Contents(), hunks[r.error.index], resolve) == None
    ensures r.Ok? ==> r.value == AffectedBy(hunks)
  {
    hide Recorded, Confined, HunkEffect, SelfMove, FilesOf, Touched, Plain, OntoItself, TextOrNone;
    phantom := false;
    ghost var n0, f0 := fs.nodes, fs.Contents();
    ghost var touched := AllTouched(hunks, resolve);
    ghost var plain, text := AllPlain(n0, touched), TextOrNone(f0, touched);
    assert Recorded(f0, [], f0) by { RecordedNothing(f0); }
    NothingIsConfined(n0, touched);
    if hunks == [] {
      ConfinedSame(n0, fs.nodes, touched);
      return Err(NoFilesModified), phantom;
    }
    var shown := AffectedPaths([], [], []);
    assert hunks[0..] == hunks && hunks[..0] == [];
    for i := 0 to |hunks|
      invariant !phantom && old(fs.faults) <= fs.faults
      invariant delta.exact ==> Recorded(f0, delta.changes, fs.Contents())
      invariant plain ==> Confined(n0, fs.nodes, touched)
      invariant plain && fs.faults == old(fs.faults) ==> PatchEffect(f0, hunks, resolve) == PatchEffect(fs.Contents(), hunks[i..], resolve)
      invariant plain && text && fs.faults == old(fs.faults) ==> delta.exact && TextOrNone(fs.Contents(), touched)
      invariant shown == AffectedBy(hunks[..i])
      invariant (forall j :: 0 <= j < |hunks| ==> !SelfMove(hunks[j], resolve)) ==> NoneOntoItself(delta.changes)
    {
      ghost var n1 := fs.nodes;
      TouchedByOne(hunks, resolve, i);
      if plain {
        PlainStays(n0, n1, touched, Touched(hunks[i], resolve));
      }
      var ok;
      ghost var f1 := fs.Contents();
      if plain && text && fs.faults == old(fs.faults) { TextOrNoneSome(f1, touched, Touched(hunks[i], resolve)); }
      ok, phantom := ApplyHunk(fs, delta, hunks[i], resolve, f0);
      if plain && text && fs.faults == old(fs.faults) && ok { EffectKeepsText(f1, hunks[i], resolve, touched); }
      assert hunks[i..][0] == hunks[i] && hunks[i..][1..] == hunks[i + 1..];
      if plain {
        ConfinedTransitive(n0, n1, fs.nodes, touched, Touched(hunks[i], resolve), touched);
        ConfinedSame(n0, fs.nodes, touched);
      }
      if !ok {
        if delta.exact && !phantom {
          RecordedMeans(f0, delta.changes, fs.Contents());
        }
        return Err(HunkFailed(i)), phantom;
      }
      shown := ShowOne(shown, hunks[i]);
      assert hunks[..i + 1][..i] == hunks[..i];
    }
    assert hunks[..|hunks|] == hunks;
    if delta.exact {
      RecordedMeans(f0, delta.changes, fs.Contents());
    }
    ConfinedSameIf(n0, fs.nodes, touched);
    r := Ok(shown);
  }

  lemma TextOrNoneSome(files: Files, paths: set<Path>, some: set<Path>)
    requires TextOrNone(files, paths) && some <= paths
    ensures TextOrNone(files, some)
  {
  }

  lemma EffectKeepsText(files: Files, hunk: Hunk, resolve: Resolver, paths: set<Path>)
    requires TextOrNone(files, paths) && HunkEffect(files, hunk, resolve).Some?
    ensures TextOrNone(HunkEffect(files, hunk, resolve).value, paths)
  {
    hide NewContents;
  }

  lemma RecordedNothing(f: Files)
    ensures Recorded(f, [], f)
  {
  }

  lemma RecordedMeans(f0: Files, changes: seq<AppliedChange>, f: Files)
    requires Recorded(f0, changes, f)
    ensures Replay(f0, changes) == f && Undo(f, changes) == f0
  {
    UndoInvertsReplay(f0, changes);
  }

  lemma ConfinedSame(a: map<Path, Node>, b: map<Path, Node>, paths: set<Path>)
    requires Confined(a, b, paths)
    ensures SameExcept(FilesOf(a), FilesOf(b), paths)
  {
  }

  lemma ConfinedSameIf(a: map<Path, Node>, b: map<Path, Node>, paths: set<Path>)
    ensures Confined(a, b, paths) ==> SameExcept(FilesOf(a), FilesOf(b), paths)
  {
  }

  lemma PlainStays(a: map<Path, Node>, b: map<Path, Node>, paths: set<Path>, some: set<Path>)
    requires Confined(a, b, paths) && AllPlain(a, paths) && some <= paths
    ensures AllPlain(b, some)
  {
  }
}
