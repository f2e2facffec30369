/** Editing a configuration tree at a key path. */
module ConfigTree {
  import opened Basics

  datatype Toml =
    | String(text: string)
    | Integer(number: int)
    | Float(value: real)
    | Boolean(flag: bool)
    | Datetime(stamp: string)
    | Array(items: seq<Toml>)
    | Table(entries: map<string, Toml>)

  const EmptyTable := Table(map[])

  type Path = seq<string>

  datatype MergeError = EmptyKeyPath | NonTableParent

  // ---------------------------------------------------------------- reading

  predicate AllDigits(s: string) { forall i :: 0 <= i < |s| ==> '0' <= s[i] <= '9' }

  const MAX_INDEX := 0x7fff_ffff_ffff_ffff

  /** A decimal number within `i64`, not negative: how a segment indexes an array. */
  function ParseIndex(segment: string): Option<nat> {
    var signed := segment != "" && (segment[0] == '+' || segment[0] == '-');
    var digits := if signed then segment[1..] else segment;
    if digits == "" || !AllDigits(digits) then None
    else
      var n := DigitsValue(digits);
      if n > MAX_INDEX || (signed && segment[0] == '-' && n > 0) then None else Some(n)
  }

  function DigitsValue(digits: string): nat
    requires AllDigits(digits)
  {
    if digits == "" then 0
    else 10 * DigitsValue(digits[..|digits| - 1]) + (digits[|digits| - 1] as int - '0' as int)
  }

  function Child(node: Toml, segment: string): Option<Toml> {
    match node
    case Table(entries) => if segment in entries then Some(entries[segment]) else None
    case Array(items) =>
      var i := ParseIndex(segment);
      if i.Some? && i.value < |items| then Some(items[i.value]) else None
    case String(_) => None
    case Integer(_) => None
    case Float(_) => None
    case Boolean(_) => None
    case Datetime(_) => None
  }

  function Digit(n: nat): char
    requires n < 10
  {
    "0123456789"[n]
  }

  /** The decimal spelling of a number. */
  function Decimal(n: nat): string {
    if n < 10 then [Digit(n)] else Decimal(n / 10) + [Digit(n % 10)]
  }

  lemma {:induction false} DecimalReadsBack(n: nat)
    ensures Decimal(n) != "" && AllDigits(Decimal(n)) && DigitsValue(Decimal(n)) == n
  {
    if n < 10 {
      assert Decimal(n)[..0] == "";
    } else {
      DecimalReadsBack(n / 10);
      var s := Decimal(n);
      assert s[..|s| - 1] == Decimal(n / 10);
    }
  }

  lemma {:induction false} LeadingZero(digits: string)
    requires AllDigits(digits)
    ensures AllDigits("0" + digits) && DigitsValue("0" + digits) == DigitsValue(digits)
  {
    var s := "0" + digits;
    if digits == "" {
      assert s[..0] == "";
    } else {
      LeadingZero(digits[..|digits| - 1]);
      assert s[..|s| - 1] == "0" + digits[..|digits| - 1];
    }
  }

  /** Digits, perhaps behind a sign, are an index if they fit and are not negative. */
  lemma DigitsAreIndex(digits: string)
    requires digits != "" && AllDigits(digits)
    ensures var n := DigitsValue(digits);
            && ParseIndex(digits) == (if n <= MAX_INDEX then Some(n) else None)
            && ParseIndex("+" + digits) == (if n <= MAX_INDEX then Some(n) else None)
            && ParseIndex("-" + digits) == (if n == 0 then Some(0) else None)
  {
    assert '0' <= digits[0] <= '9';
    assert ("+" + digits)[1..] == digits && ("-" + digits)[1..] == digits;
  }

  /** Nothing else is. */
  lemma NotAnIndex(segment: string)
    requires var digits := if segment != "" && (segment[0] == '+' || segment[0] == '-') then segment[1..] else segment;
             digits == "" || !AllDigits(digits)
    ensures ParseIndex(segment) == None
  {
  }

  /** The spelling of `i`, with or without a plus sign or a leading zero, reads the element at `i` of an array; of a number
      too large it reads nothing. */
  lemma IndexReads(items: seq<Toml>, i: nat)
    requires |items| <= MAX_INDEX
    ensures Child(Array(items), Decimal(i)) == if i < |items| then Some(items[i]) else None
    ensures Child(Array(items), "+" + Decimal(i)) == if i < |items| then Some(items[i]) else None
    ensures Child(Array(items), "0" + Decimal(i)) == if i < |items| then Some(items[i]) else None
    ensures Child(Array(items), "-" + Decimal(i)) == if i == 0 < |items| then Some(items[0]) else None
  {
    DecimalReadsBack(i);
    DigitsAreIndex(Decimal(i));
    LeadingZero(Decimal(i));
    DigitsAreIndex("0" + Decimal(i));
    hide ParseIndex, Decimal, DigitsValue, AllDigits;
  }

  function ValueAt(root: Toml, path: Path): Option<Toml>
    decreases |path|
  {
    if path == [] then Some(root)
    else
      var child := Child(root, path[0]);
      if child.None? then None else ValueAt(child.value, path[1..])
  }

  method ValueAtPath(root: Toml, segments: Path) returns (r: Option<Toml>)
    ensures r == ValueAt(root, segments)
  {
    hide Child;
    var current := root;
    assert segments[0..] == segments;
    for i := 0 to |segments|
      invariant ValueAt(root, segments) == ValueAt(current, segments[i..])
    {
      assert segments[i..][0] == segments[i] && segments[i..][1..] == segments[i + 1..];
      var child := Child(current, segments[i]);
      if child.None? {
        return None;
      }
      current := child.value;
    }
    return Some(current);
  }

  // ---------------------------------------------------------------- setting and clearing, as functions

  /** The table to go through: the node itself, or an empty one in place of anything else. */
  function EntriesOf(node: Toml): map<string, Toml> {
    if node.Table? then node.entries else map[]
  }

  function EntryOr(entries: map<string, Toml>, segment: string): Toml {
    if segment in entries then entries[segment] else EmptyTable
  }

  function Set(root: Toml, path: Path, value: Toml): (r: Result<Toml, MergeError>)
    decreases |path|
  {
    if path == [] then Err(EmptyKeyPath)
    else if |path| == 1 then
      if root.Table? then Ok(Table(root.entries[path[0] := value])) else Err(NonTableParent)
    else
      var entries := EntriesOf(root);
      var child := Set(EntryOr(entries, path[0]), path[1..], value);
      if child.Err? then child else Ok(Table(entries[path[0] := child.value]))
  }

  /** The tree after clearing, and whether anything was removed. */
  function Clear(root: Toml, path: Path): (r: (Toml, bool))
    decreases |path|
  {
    if path == [] || !root.Table? || path[0] !in root.entries then (root, false)
    else if |path| == 1 then (Table(root.entries - {path[0]}), true)
    else
      var (child, removed) := Clear(root.entries[path[0]], path[1..]);
      (Table(root.entries[path[0] := child]), removed)
  }

  // ---------------------------------------------------------------- laws of setting

  /** The paths part ways: neither is a prefix of the other. */
  predicate Diverge(p: Path, q: Path) {
    p != [] && q != [] && (p[0] != q[0] || Diverge(p[1..], q[1..]))
  }

  lemma {:induction false} SetThenGet(root: Toml, path: Path, value: Toml)
    requires Set(root, path, value).Ok?
    ensures ValueAt(Set(root, path, value).value, path) == Some(value)
    decreases |path|
  {
    if |path| == 1 {
      assert path[1..] == [];
    } else {
      SetThenGet(EntryOr(EntriesOf(root), path[0]), path[1..], value);
    }
  }

  /** A path can be set unless it is empty or its parent is there and is no table. */
  lemma {:induction false} SetFailsIff(root: Toml, path: Path, value: Toml)
    requires path != []
    ensures var parents := path[..|path| - 1];
            Set(root, path, value) == Err(NonTableParent) <==> TablePath(root, parents) && !Node(root, parents).Table?
    ensures Set(root, path, value).Err? ==> Set(root, path, value) == Err(NonTableParent)
    decreases |path|
  {
    if |path| > 1 {
      SetFailsIff(EntryOr(EntriesOf(root), path[0]), path[1..], value);
      assert path[1..][..|path| - 2] == path[..|path| - 1][1..];
    }
  }

  /** Something other than a table lies on the stretch the two paths share. */
  predicate Blocked(root: Toml, p: Path, q: Path)
    decreases |p|
  {
    !root.Table? ||
    (p != [] && q != [] && p[0] == q[0] && p[0] in root.entries && Blocked(root.entries[p[0]], p[1..], q[1..]))
  }

  /** Setting one path: a diverging path reads as before, or as nothing when a non-table it shared
      with the set path had to give way to a table. */
  lemma {:induction false} SetThenGetElsewhere(root: Toml, p: Path, value: Toml, q: Path)
    requires Diverge(p, q) && Set(root, p, value).Ok?
    ensures ValueAt(Set(root, p, value).value, q) == if Blocked(root, p, q) then None else ValueAt(root, q)
    decreases |p|
  {
    if p[0] == q[0] {
      var child := EntryOr(EntriesOf(root), p[0]);
      SetThenGetElsewhere(child, p[1..], value, q[1..]);
      if !root.Table? || p[0] !in root.entries {
        EmptyTableReadsNothing(p[1..], q[1..]);
      }
    }
  }

  lemma EmptyTableReadsNothing(p: Path, q: Path)
    requires Diverge(p, q)
    ensures ValueAt(EmptyTable, q) == None && !Blocked(EmptyTable, p, q)
  {
  }

  /** So a diverging path keeps its value exactly when it had none to lose on the blocked stretch. */
  lemma {:induction false} SetKeepsElsewhereIff(root: Toml, p: Path, value: Toml, q: Path)
    requires Diverge(p, q) && Set(root, p, value).Ok?
    ensures ValueAt(Set(root, p, value).value, q) == ValueAt(root, q)
       <==> !(Blocked(root, p, q) && ValueAt(root, q).Some?)
  {
    SetThenGetElsewhere(root, p, value, q);
  }

  /** The last write wins. */
  lemma {:induction false} SetTwice(root: Toml, path: Path, first: Toml, second: Toml)
    requires Set(root, path, first).Ok?
    ensures Set(Set(root, path, first).value, path, second) == Set(root, path, second)
    decreases |path|
  {
    if |path| == 1 {
      assert root.entries[path[0] := first][path[0] := second] == root.entries[path[0] := second];
    } else {
      var entries := EntriesOf(root);
      var child := EntryOr(entries, path[0]);
      SetTwice(child, path[1..], first, second);
      SetAccepts(child, path[1..], first, second);
      var c1, c2 := Set(child, path[1..], first).value, Set(child, path[1..], second).value;
      assert entries[path[0] := c1][path[0] := c2] == entries[path[0] := c2];
    }
  }

  /** Whether a path can be set does not depend on the value. */
  lemma {:induction false} SetAccepts(root: Toml, path: Path, first: Toml, second: Toml)
    ensures Set(root, path, first).Ok? <==> Set(root, path, second).Ok?
    decreases |path|
  {
    if |path| > 1 {
      SetAccepts(EntryOr(EntriesOf(root), path[0]), path[1..], first, second);
    }
  }

  /** The node a chain of tables leads to. */
  predicate TablePath(root: Toml, path: Path)
    decreases |path|
  {
    path == [] || (root.Table? && path[0] in root.entries && TablePath(root.entries[path[0]], path[1..]))
  }

  function Node(root: Toml, path: Path): Toml
    requires TablePath(root, path)
    decreases |path|
  {
    if path == [] then root else Node(root.entries[path[0]], path[1..])
  }

  function Put(root: Toml, path: Path, node: Toml): Toml
    requires TablePath(root, path)
    decreases |path|
  {
    if path == [] then node else Table(root.entries[path[0] := Put(root.entries[path[0]], path[1..], node)])
  }

  /** Writing back what is there through tables changes nothing, and is the only such write. */
  lemma {:induction false} SetUnchangedIff(root: Toml, path: Path, value: Toml)
    requires Set(root, path, value).Ok?
    ensures Set(root, path, value).value == root <==> TablePath(root, path) && Node(root, path) == value
    decreases |path|
  {
    var p := path[0];
    if |path| == 1 {
      assert path[1..] == [];
      if p in root.entries && root.entries[p] == value {
        assert root.entries[p := value] == root.entries;
      }
    } else {
      var child := EntryOr(EntriesOf(root), p);
      SetUnchangedIff(child, path[1..], value);
      var written := Set(child, path[1..], value).value;
      if root.Table? && p in root.entries {
        if written == child {
          assert root.entries[p := written] == root.entries;
        } else {
          assert root.entries[p := written][p] != root.entries[p];
        }
      }
    }
  }

  // ---------------------------------------------------------------- laws of clearing

  /** Clearing removes what a chain of tables leads to, and reports exactly that. */
  lemma {:induction false} ClearRemoves(root: Toml, path: Path)
    requires path != []
    ensures var (after, removed) := Clear(root, path);
            && (removed <==> TablePath(root, path))
            && (removed <==> after != root)
            && ValueAt(after, path) == if removed then None else ValueAt(root, path)
    decreases |path|
  {
    var p := path[0];
    if root.Table? && p in root.entries {
      if |path| == 1 {
        assert path[1..] == [];
        assert p !in (root.entries - {p});
      } else {
        ClearRemoves(root.entries[p], path[1..]);
        var (child, removed) := Clear(root.entries[p], path[1..]);
        if !removed {
          assert root.entries[p := child] == root.entries;
        } else {
          assert root.entries[p := child][p] != root.entries[p];
        }
      }
    }
  }

  /** A path that still reads something after a clear led through an array. */
  lemma {:induction false} ClearMissesOnlyArrays(root: Toml, path: Path)
    requires path != [] && ValueAt(Clear(root, path).0, path).Some?
    ensures exists k :: 0 <= k < |path| && TablePath(root, path[..k]) && Node(root, path[..k]).Array?
    decreases |path|
  {
    ClearRemoves(root, path);
    if root.Array? {
      assert TablePath(root, path[..0]) && Node(root, path[..0]).Array?;
    } else if |path| > 1 {
      var child, rest := root.entries[path[0]], path[1..];
      ClearRemoves(child, rest);
      ClearMissesOnlyArrays(child, rest);
      var k :| 0 <= k < |rest| && TablePath(child, rest[..k]) && Node(child, rest[..k]).Array?;
      assert path[..k + 1][1..] == rest[..k];
      assert TablePath(root, path[..k + 1]) && Node(root, path[..k + 1]).Array?;
    }
  }

  /** A diverging path never notices a clear. */
  lemma {:induction false} ClearKeepsElsewhere(root: Toml, p: Path, q: Path)
    requires Diverge(p, q)
    ensures ValueAt(Clear(root, p).0, q) == ValueAt(root, q)
    decreases |p|
  {
    if root.Table? && p[0] in root.entries && |p| > 1 && p[0] == q[0] {
      ClearKeepsElsewhere(root.entries[p[0]], p[1..], q[1..]);
    }
  }

  /** Clearing a value that was added beside others restores the tree. */
  lemma {:induction false} ClearUndoesSet(root: Toml, path: Path, value: Toml)
    requires path != [] && TablePath(root, path[..|path| - 1])
    requires Node(root, path[..|path| - 1]).Table? && path[|path| - 1] !in Node(root, path[..|path| - 1]).entries
    ensures Set(root, path, value).Ok? && Clear(Set(root, path, value).value, path) == (root, true)
    decreases |path|
  {
    var p := path[0];
    if |path| == 1 {
      assert path[..0] == [];
      assert root.entries[p := value] - {p} == root.entries;
    } else {
      var parents := path[..|path| - 1];
      assert parents[1..] == path[1..][..|path| - 2];
      ClearUndoesSet(root.entries[p], path[1..], value);
      var written := Set(root.entries[p], path[1..], value).value;
      assert root.entries[p := written][p := root.entries[p]] == root.entries;
    }
  }

  // ---------------------------------------------------------------- sparse overlays

  function SparseOverlay(path: Path, value: Toml): Toml
    decreases |path|
  {
    if path == [] then value else Table(map[path[0] := SparseOverlay(path[1..], value)])
  }

  /** An overlay is the value set in an otherwise empty tree. */
  lemma {:induction false} SparseOverlayIsSet(path: Path, value: Toml)
    requires path != []
    ensures Set(EmptyTable, path, value) == Ok(SparseOverlay(path, value))
    decreases |path|
  {
    if |path| == 1 {
      assert path[1..] == [];
      assert map[][path[0] := value] == map[path[0] := value];
    } else {
      SparseOverlayIsSet(path[1..], value);
    }
  }

  // ---------------------------------------------------------------- setting as a walk

  /** The tree once the walk has made a table of everything it went through. */
  function Walked(root: Toml, parents: Path): Toml
    decreases |parents|
  {
    if parents == [] then root
    else
      var entries := EntriesOf(root);
      Table(entries[parents[0] := Walked(EntryOr(entries, parents[0]), parents[1..])])
  }

  lemma {:induction false} WalkedIsTablePath(root: Toml, parents: Path)
    ensures TablePath(Walked(root, parents), parents)
    decreases |parents|
  {
    if parents != [] {
      WalkedIsTablePath(EntryOr(EntriesOf(root), parents[0]), parents[1..]);
    }
  }

  /** Setting is walking and then writing at the end of the walk, which fails only when that end was
      there already and is no table; then the walk has changed nothing. */
  lemma {:induction false} SetIsWalkAndPut(root: Toml, path: Path, value: Toml)
    requires path != []
    ensures var parents, last := path[..|path| - 1], path[|path| - 1];
            && TablePath(Walked(root, parents), parents)
            && var end := Node(Walked(root, parents), parents);
               if end.Table? then Set(root, path, value) == Ok(Put(Walked(root, parents), parents, Table(end.entries[last := value])))
               else Set(root, path, value) == Err(NonTableParent) && Walked(root, parents) == root
    decreases |path|
  {
    var parents := path[..|path| - 1];
    WalkedIsTablePath(root, parents);
    if |path| > 1 {
      var p, entries := path[0], EntriesOf(root);
      var child := EntryOr(entries, p);
      assert parents[1..] == path[1..][..|path| - 2];
      SetIsWalkAndPut(child, path[1..], value);
      var walked := Walked(root, parents);
      assert walked.entries[p] == Walked(child, parents[1..]);
      var end := Node(walked, parents);
      if end.Table? {
        var put := Put(Walked(child, parents[1..]), parents[1..], Table(end.entries[path[|path| - 1] := value]));
        assert walked.entries[p := put] == entries[p := put];
      } else {
        assert root.Table? && p in entries by { FreshEndIsTable(parents[1..]); }
        assert entries[p := child] == entries;
      }
    }
  }

  lemma {:induction false} FreshEndIsTable(parents: Path)
    ensures TablePath(Walked(EmptyTable, parents), parents) && Node(Walked(EmptyTable, parents), parents).Table?
    decreases |parents|
  {
    if parents != [] {
      FreshEndIsTable(parents[1..]);
    }
  }

  lemma {:induction false} PutExtends(root: Toml, path: Path, entries: map<string, Toml>, segment: string, node: Toml)
    requires TablePath(root, path) && segment in entries
    ensures var root' := Put(root, path, Table(entries));
            && TablePath(root', path + [segment]) && Node(root', path + [segment]) == entries[segment]
            && Put(root', path + [segment], node) == Put(root, path, Table(entries[segment := node]))
    decreases |path|
  {
    if path == [] {
      assert (path + [segment])[1..] == [];
    } else {
      assert (path + [segment])[1..] == path[1..] + [segment];
      PutExtends(root.entries[path[0]], path[1..], entries, segment, node);
      var p := path[0];
      var child := Put(root.entries[p], path[1..], Table(entries));
      var deeper := Put(child, path[1..] + [segment], node);
      assert root.entries[p := child][p := deeper] == root.entries[p := deeper];
    }
  }

  /** The table the walk leaves at a node on its way through `segment`. */
  function Opened(node: Toml, segment: string): map<string, Toml> {
    EntriesOf(node)[segment := EntryOr(EntriesOf(node), segment)]
  }

  lemma {:induction false} WalkStep(root: Toml, path: Path, segment: string, rest: Path)
    requires TablePath(root, path)
    ensures var entries := Opened(Node(root, path), segment);
            var root' := Put(root, path, Table(entries));
            && TablePath(root', path + [segment]) && Node(root', path + [segment]) == entries[segment]
            && Put(root', path + [segment], Walked(entries[segment], rest)) == Put(root, path, Walked(Node(root, path), [segment] + rest))
  {
    var node := Node(root, path);
    var entries := Opened(node, segment);
    var deeper := Walked(entries[segment], rest);
    PutExtends(root, path, entries, segment, deeper);
    assert ([segment] + rest)[1..] == rest;
    assert EntriesOf(node)[segment := deeper] == entries[segment := deeper];
  }

  lemma AtRoot(root: Toml, node: Toml)
    ensures TablePath(root, []) && Node(root, []) == root && Put(root, [], node) == node
  {
  }

  lemma {:induction false} PutNodeBack(root: Toml, path: Path)
    requires TablePath(root, path)
    ensures Put(root, path, Node(root, path)) == root
    decreases |path|
  {
    if path != [] {
      PutNodeBack(root.entries[path[0]], path[1..]);
      assert root.entries[path[0] := root.entries[path[0]]] == root.entries;
    }
  }

  lemma {:induction false} NodeExtends(root: Toml, path: Path, segment: string, node: Toml)
    requires TablePath(root, path) && Node(root, path).Table? && segment in Node(root, path).entries
    ensures TablePath(root, path + [segment]) && Node(root, path + [segment]) == Node(root, path).entries[segment]
    ensures Put(root, path + [segment], node) == Put(root, path, Table(Node(root, path).entries[segment := node]))
    decreases |path|
  {
    if path == [] {
      assert (path + [segment])[1..] == [];
    } else {
      assert (path + [segment])[1..] == path[1..] + [segment];
      NodeExtends(root.entries[path[0]], path[1..], segment, node);
    }
  }

  /** The reported change, read off the last table, is a change of the tree. */
  lemma {:induction false} ChangedMeans(root: Toml, path: Path, value: Toml)
    requires Set(root, path, value).Ok? && path != []
    ensures var parents, last := path[..|path| - 1], path[|path| - 1];
            && TablePath(Walked(root, parents), parents) && Node(Walked(root, parents), parents).Table?
            && var end := Node(Walked(root, parents), parents);
               Set(root, path, value).value != root <==> last !in end.entries || end.entries[last] != value
    decreases |path|
  {
    var parents := path[..|path| - 1];
    SetIsWalkAndPut(root, path, value);
    SetUnchangedIff(root, path, value);
    if |path| == 1 {
      assert path[1..] == [];
    } else {
      var child := EntryOr(EntriesOf(root), path[0]);
      assert parents[1..] == path[1..][..|path| - 2];
      ChangedMeans(child, path[1..], value);
      SetUnchangedIff(child, path[1..], value);
    }
  }
}
