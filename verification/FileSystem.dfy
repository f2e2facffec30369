/** The executor's file system as the patch engine meets it. Any call may fail. A read or metadata
    call that answers tells the truth; a write or remove that fails may have had any effect on its
    own path. */
module FileSystem {
  import opened PatchedFiles

  /** An I/O result; `NotFound` is the one error kind the engine tells apart. */
  datatype IoResult<+T> = Done(value: T) | NotFound | Failed

  datatype Metadata = Metadata(isDirectory: bool, isFile: bool, isSymlink: bool)

  /** Neither a link nor a device: writing it changes this path and no other. */
  predicate Plain(nodes: map<Path, Node>, p: Path) {
    p in nodes ==> nodes[p].TextFile? || nodes[p].BinaryFile? || nodes[p].Directory?
  }

  predicate AllPlain(nodes: map<Path, Node>, paths: set<Path>) {
    forall p :: p in paths ==> Plain(nodes, p)
  }

  predicate SameAt(a: map<Path, Node>, b: map<Path, Node>, p: Path) {
    (p in a <==> p in b) && (p in a ==> a[p] == b[p])
  }

  ghost predicate SameExcept(a: map<Path, Node>, b: map<Path, Node>, paths: set<Path>) {
    forall p :: p !in paths ==> SameAt(a, b, p)
  }

  class FileSystem {
    var nodes: map<Path, Node>
    /** Paths whose parent directory has been created. */
    var ready: set<Path>
    /** How many calls have failed other than by finding nothing there. A read that fails because of what
        its path holds is not counted. */
    ghost var faults: nat

    function Contents(): Files
      reads this
    {
      FilesOf(nodes)
    }

    method GetMetadata(p: Path) returns (r: IoResult<Metadata>)
      modifies this`faults
      ensures old(faults) <= faults
      ensures r.NotFound? ==> p !in nodes
      ensures r.Failed? ==> faults > old(faults)
      ensures r.Done? ==> && p in nodes
                          && r.value.isDirectory == nodes[p].Directory?
                          && r.value.isSymlink == nodes[p].Symlink?
                          && (r.value.isFile && !r.value.isSymlink <==> nodes[p].TextFile? || nodes[p].BinaryFile?)
    {
      if * {
        faults := faults + 1;
        return Failed;
      }
      if p !in nodes {
        return NotFound;
      }
      var linkToFile: bool := *;
      r := Done(Metadata(nodes[p].Directory?, nodes[p].TextFile? || nodes[p].BinaryFile? || (nodes[p].Symlink? && linkToFile),
                         nodes[p].Symlink?));
    }

    method ReadFileText(p: Path) returns (r: IoResult<string>)
      modifies this`faults
      ensures old(faults) <= faults
      ensures r.NotFound? ==> p !in nodes || nodes[p].Symlink?
      ensures r.Failed? ==> faults > old(faults) || (p in nodes && !nodes[p].TextFile?)
      ensures r.Done? ==> p in nodes && (Plain(nodes, p) ==> nodes[p] == TextFile(r.value))
    {
      if * {
        faults := faults + 1;
        return Failed;
      }
      if p !in nodes {
        return NotFound;
      }
      match nodes[p] {
        case TextFile(text) => return Done(text);
        case BinaryFile(_) => return Failed;
        case Directory => return Failed;
        case Symlink =>
          if * { return NotFound; }
          if * { return Failed; }
          var text: string := *;
          return Done(text);
        case Special =>
          if * { return Failed; }
          var text: string := *;
          return Done(text);
      }
    }

    /** After a failed call on a plain path, that path may be gone or hold anything. */
    method Damage(p: Path)
      modifies this`nodes
      ensures SameExcept(old(nodes), nodes, {p})
      ensures Plain(old(nodes), p) ==> Plain(nodes, p)
    {
      if * {
        nodes := nodes - {p};
      } else if * {
        var text: string := *;
        nodes := nodes[p := TextFile(text)];
      } else if * {
        var bytes: nat := *;
        nodes := nodes[p := BinaryFile(bytes)];
      }
    }

    method WriteFile(p: Path, text: string) returns (r: IoResult<()>)
      modifies this`nodes, this`faults
      ensures old(faults) <= faults
      ensures r.NotFound? ==> nodes == old(nodes) && p !in ready && p !in nodes
      ensures r.Failed? ==> faults > old(faults)
      ensures r.Done? && Plain(old(nodes), p) ==>
                nodes == old(nodes)[p := TextFile(text)] && (p in old(nodes) ==> !old(nodes)[p].Directory?)
      ensures Plain(old(nodes), p) ==> SameExcept(old(nodes), nodes, {p}) && Plain(nodes, p)
    {
      if p !in nodes && p !in ready {
        if * { return NotFound; }
      }
      if !Plain(nodes, p) {
        // Through a link or into a device: some other path may change.
        nodes := *;
        if * { return Done(()); }
        faults := faults + 1;
        return Failed;
      }
      if p !in nodes || !nodes[p].Directory? {
        if * {
          nodes := nodes[p := TextFile(text)];
          return Done(());
        }
        Damage(p);
      }
      faults := faults + 1;
      return Failed;
    }

    /** Create the missing parent directories of `p`. */
    method CreateParents(p: Path) returns (r: IoResult<()>)
      modifies this`nodes, this`ready, this`faults
      ensures old(faults) <= faults
      ensures Contents() == old(Contents())
      ensures forall q :: Plain(old(nodes), q) ==> Plain(nodes, q)
      ensures r.Done? ==> p in ready
      ensures !r.Done? ==> faults > old(faults)
    {
      var created: set<Path> := *;
      nodes := nodes + map q | q in created && q !in nodes :: Directory;
      if * {
        ready := ready + {p};
        return Done(());
      }
      faults := faults + 1;
      return Failed;
    }

    method Remove(p: Path) returns (r: IoResult<()>)
      modifies this`nodes, this`faults
      ensures old(faults) <= faults
      ensures r.NotFound? ==> nodes == old(nodes) && p !in nodes
      ensures r.Failed? ==> faults > old(faults)
      ensures r.Done? ==> nodes == old(nodes) - {p}
      ensures SameExcept(old(nodes), nodes, {p})
      ensures Plain(old(nodes), p) ==> Plain(nodes, p)
    {
      if p !in nodes {
        return NotFound;
      }
      if * {
        nodes := nodes - {p};
        return Done(());
      }
      Damage(p);
      faults := faults + 1;
      return Failed;
    }
  }
}
