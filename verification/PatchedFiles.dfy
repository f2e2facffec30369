/** The textual changes a patch commits, and what replaying and undoing them means. */
module PatchedFiles {
  import opened Basics

  /** A resolved path. Resolved paths are opaque and do not alias. */
  type Path = string

  datatype Node = TextFile(text: string) | BinaryFile(bytes: nat) | Directory | Symlink | Special

  /** What is stored at each path that is not a directory. */
  type Files = map<Path, Node>

  function FilesOf(nodes: map<Path, Node>): Files {
    map p | p in nodes && nodes[p] != Directory :: nodes[p]
  }

  /** A committed change with the text it replaced. */
  datatype AppliedChange =
    | Added(path: Path, content: string, overwritten: Option<string>)
    | Deleted(path: Path, content: string)
    | Updated(path: Path, movePath: Option<Path>, oldContent: string, overwrittenMove: Option<string>, newContent: string)

  function ReplayOne(files: Files, c: AppliedChange): Files {
    match c
    case Added(p, content, _) => files[p := TextFile(content)]
    case Deleted(p, _) => files - {p}
    case Updated(p, dest, _, _, content) =>
      if dest.None? then files[p := TextFile(content)] else files[dest.value := TextFile(content)] - {p}
  }

  function Replay(files: Files, changes: seq<AppliedChange>): Files
    decreases |changes|
  {
    if changes == [] then files else Replay(ReplayOne(files, changes[0]), changes[1..])
  }

  /** Put back what was at a path: a text, or nothing. */
  function Restore(files: Files, p: Path, text: Option<string>): Files {
    if text.Some? then files[p := TextFile(text.value)] else files - {p}
  }

  function UndoOne(files: Files, c: AppliedChange): Files {
    match c
    case Added(p, _, overwritten) => Restore(files, p, overwritten)
    case Deleted(p, content) => files[p := TextFile(content)]
    case Updated(p, dest, content, overwrittenMove, _) =>
      var back := files[p := TextFile(content)];
      if dest.None? then back else Restore(back, dest.value, overwrittenMove)
  }

  /** The last change first. */
  function Undo(files: Files, changes: seq<AppliedChange>): Files {
    if changes == [] then files else UndoOne(Undo(files, changes[1..]), changes[0])
  }

  /** The text recorded for a path is what is there. */
  predicate Holds(files: Files, p: Path, text: Option<string>) {
    if text.Some? then p in files && files[p] == TextFile(text.value) else p !in files
  }

  /** The change recorded the texts it replaced truthfully. */
  predicate Faithful(files: Files, c: AppliedChange) {
    match c
    case Added(p, _, overwritten) => Holds(files, p, overwritten)
    case Deleted(p, content) => Holds(files, p, Some(content))
    case Updated(p, dest, content, overwrittenMove, _) =>
      Holds(files, p, Some(content)) && (dest.Some? ==> Holds(files, dest.value, overwrittenMove))
  }

  predicate AllFaithful(files: Files, changes: seq<AppliedChange>)
    decreases |changes|
  {
    changes == [] || (Faithful(files, changes[0]) && AllFaithful(ReplayOne(files, changes[0]), changes[1..]))
  }

  predicate OntoItself(c: AppliedChange) {
    c.Updated? && c.movePath == Some(c.path)
  }

  predicate NoneOntoItself(changes: seq<AppliedChange>) {
    forall i :: 0 <= i < |changes| ==> !OntoItself(changes[i])
  }

  lemma UndoOneInverts(files: Files, c: AppliedChange)
    requires Faithful(files, c)
    ensures UndoOne(ReplayOne(files, c), c) == files
  {
  }

  /** Truthfully recorded changes can be undone in reverse order, from the state they led to. */
  lemma {:induction false} UndoInvertsReplay(files: Files, changes: seq<AppliedChange>)
    requires AllFaithful(files, changes)
    ensures Undo(Replay(files, changes), changes) == files
    decreases |changes|
  {
    if changes != [] {
      UndoInvertsReplay(ReplayOne(files, changes[0]), changes[1..]);
      UndoOneInverts(files, changes[0]);
    }
  }

  lemma {:induction false} RecordOneMore(files: Files, changes: seq<AppliedChange>, c: AppliedChange)
    ensures Replay(files, changes + [c]) == ReplayOne(Replay(files, changes), c)
    ensures AllFaithful(files, changes + [c]) <==> AllFaithful(files, changes) && Faithful(Replay(files, changes), c)
    decreases |changes|
  {
    hide ReplayOne, Faithful;
    if changes == [] {
      assert [c][1..] == [];
    } else {
      assert (changes + [c])[1..] == changes[1..] + [c];
      RecordOneMore(ReplayOne(files, changes[0]), changes[1..], c);
    }
  }

  lemma {:induction false} UndoLastFirst(files: Files, changes: seq<AppliedChange>, c: AppliedChange)
    ensures Undo(files, changes + [c]) == Undo(UndoOne(files, c), changes)
    decreases |changes|
  {
    hide UndoOne;
    if changes == [] {
      assert [c][1..] == [];
    } else {
      assert (changes + [c])[1..] == changes[1..] + [c];
      UndoLastFirst(files, changes[1..], c);
    }
  }

  /** The changes account for everything between two states: each recorded truthfully, and
      together leading from the first to the second. */
  ghost predicate Recorded(before: Files, changes: seq<AppliedChange>, after: Files) {
    AllFaithful(before, changes) && Replay(before, changes) == after
  }

  lemma RecordedSnoc(before: Files, changes: seq<AppliedChange>, mid: Files, c: AppliedChange)
    requires Recorded(before, changes, mid) && Faithful(mid, c)
    ensures Recorded(before, changes + [c], ReplayOne(mid, c))
  {
    RecordOneMore(before, changes, c);
  }
}
