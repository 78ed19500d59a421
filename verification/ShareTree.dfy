/**
 Directories and files of a share, and the recursive operations on them. A path is the sequence of its
 segments; the empty path is the root of the share, which always exists. Any call may fail with an I/O
 error, which changes nothing and is remembered in `faulted`.
 */
module ShareTree {
  import opened Storage

  type Path = seq<string>

  datatype Node = Dir | File(data: seq<byte>, modTime: int)

  type Nodes = map<Path, Node>

  /** Whatever lies in a share lies in a directory of the share. */
  ghost predicate IsTree(nodes: Nodes) {
    [] !in nodes && forall p {:trigger InDir(nodes, p)} :: p in nodes ==> InDir(nodes, p)
  }

  predicate InDir(nodes: Nodes, p: Path) {
    |p| > 1 ==> p[..|p| - 1] in nodes && nodes[p[..|p| - 1]].Dir?
  }

  predicate IsDir(nodes: Nodes, p: Path) {
    p == [] || (p in nodes && nodes[p].Dir?)
  }

  predicate IsFile(nodes: Nodes, p: Path) {
    p in nodes && nodes[p].File?
  }

  /** `p` is `q` or an ancestor of it. */
  predicate UpTo(p: Path, q: Path) { p <= q }

  predicate Above(p: Path, q: Path) { UpTo(p, q) && p != q }

  /** Everything at or below `root`. */
  function Below(nodes: Nodes, root: Path): set<Path> {
    set p | p in nodes && UpTo(root, p)
  }

  /** `dir` and what lies above it, the root left out. */
  function Prefixes(dir: Path): set<Path> {
    set i | 0 < i <= |dir| :: dir[..i]
  }

  /** The share after every missing directory on the way to `dir` has been made. */
  function WithDirs(nodes: Nodes, dir: Path): Nodes {
    map p | p in nodes.Keys + Prefixes(dir) :: if p in nodes then nodes[p] else Dir
  }

  ghost predicate FileAbove(nodes: Nodes, dir: Path) {
    exists p :: IsFile(nodes, p) && Above(p, dir)
  }

  datatype DirEntry = DirEntry(name: string, isDir: bool)

  predicate IsChild(dir: Path, p: Path) {
    |p| == |dir| + 1 && UpTo(dir, p)
  }

  predicate Named(entries: seq<DirEntry>, name: string) {
    exists i :: 0 <= i < |entries| && entries[i].name == name
  }

  /** `entries` are things in `dir`, of the kind they say, no two with one name. */
  predicate EntriesOf(nodes: Nodes, dir: Path, entries: seq<DirEntry>) {
    && (forall i :: 0 <= i < |entries| ==>
          dir + [entries[i].name] in nodes && entries[i].isDir == nodes[dir + [entries[i].name]].Dir?)
    && forall i, j :: 0 <= i < j < |entries| ==> entries[i].name != entries[j].name
  }

  /** `entries` is all there is in `dir`. */
  ghost predicate Lists(nodes: Nodes, dir: Path, entries: seq<DirEntry>) {
    EntriesOf(nodes, dir, entries) && forall name :: dir + [name] in nodes ==> Named(entries, name)
  }

  function AddEntry(nodes: Nodes, dir: Path, entries: seq<DirEntry>, name: string): (longer: seq<DirEntry>)
    requires EntriesOf(nodes, dir, entries) && dir + [name] in nodes && !Named(entries, name)
    ensures EntriesOf(nodes, dir, longer)
    ensures forall other :: Named(longer, other) <==> Named(entries, other) || other == name
  {
    var longer := entries + [DirEntry(name, nodes[dir + [name]].Dir?)];
    assert longer[|entries|].name == name;
    assert forall other :: Named(entries, other) ==> Named(longer, other) by {
      assert forall i :: 0 <= i < |entries| ==> longer[i] == entries[i];
    }
    longer
  }

  class Share {
    var nodes: Nodes
    ghost var faulted: bool

    constructor (nodes: Nodes)
      ensures this.nodes == nodes && !faulted
    {
      this.nodes, faulted := nodes, false;
    }

    /** Perhaps an I/O error. */
    method Fault() returns (error: Option<Error>)
      modifies this`faulted
      ensures error == None || error == Some(Io(0))
      ensures faulted <==> old(faulted) || error.Some?
    {
      var broken: bool := *;
      error := if broken then Some(Io(0)) else None;
      faulted := faulted || broken;
    }

    /** Remembers what went wrong with a handle. */
    ghost method Note(broken: bool)
      modifies this`faulted
      ensures faulted <==> old(faulted) || broken
    {
      faulted := faulted || broken;
    }

    method Stat(p: Path) returns (r: Result<Node>)
      modifies this`faulted
      ensures r.Ok? ==> faulted == old(faulted) && (if p == [] then r.value == Dir else p in nodes && r.value == nodes[p])
      ensures r == Err(NotFound) ==> faulted == old(faulted) && p != [] && p !in nodes
      ensures r.Ok? || r == Err(NotFound) || (r == Err(Io(0)) && faulted)
    {
      var error := Fault();
      if error.Some? {
        return Err(error.value);
      }
      if p == [] {
        return Ok(Dir);
      }
      return if p in nodes then Ok(nodes[p]) else Err(NotFound);
    }

    /** Makes one directory; the name must be free, whatever it names, and the parent a directory. */
    method Mkdir(p: Path) returns (error: Option<Error>)
      requires p != []
      modifies this
      ensures error.None? ==> p !in old(nodes) && IsDir(old(nodes), p[..|p| - 1]) && nodes == old(nodes)[p := Dir]
      ensures error.None? ==> faulted == old(faulted)
      ensures error.Some? ==> nodes == old(nodes)
      ensures error == Some(Conflict) ==> p in nodes && faulted == old(faulted)
      ensures error.Some? && error.value != Conflict && !faulted ==> p !in nodes && !IsDir(nodes, p[..|p| - 1])
      ensures old(faulted) ==> faulted
    {
      error := Fault();
      if error.Some? {
        return;
      }
      if p in nodes {
        return Some(Conflict);
      }
      if !IsDir(nodes, p[..|p| - 1]) {
        return Some(NotFound);
      }
      nodes := nodes[p := Dir];
    }

    /** Removes a file or an empty directory. */
    method Remove(p: Path) returns (error: Option<Error>)
      requires p != []
      modifies this
      ensures error.None? ==> p in old(nodes) && Below(old(nodes), p) == {p} && nodes == old(nodes) - {p}
      ensures error.None? ==> faulted == old(faulted)
      ensures error.Some? ==> nodes == old(nodes) && (faulted || p !in nodes || Below(nodes, p) != {p})
      ensures old(faulted) ==> faulted
    {
      error := Fault();
      if error.Some? {
        return;
      }
      if p !in nodes {
        return Some(NotFound);
      }
      if Below(nodes, p) != {p} {
        return Some(NotEmpty);
      }
      nodes := nodes - {p};
    }

    method Open(p: Path) returns (r: Result<seq<byte>>)
      modifies this`faulted
      ensures r.Ok? ==> faulted == old(faulted) && IsFile(nodes, p) && r.value == nodes[p].data
      ensures r.Err? ==> faulted || !IsFile(nodes, p)
      ensures old(faulted) ==> faulted
    {
      var error := Fault();
      if error.Some? {
        return Err(error.value);
      }
      return if p !in nodes then Err(NotFound) else if nodes[p].Dir? then Err(InvalidInput) else Ok(nodes[p].data);
    }

    /** Creates a file, or empties the one that is there. */
    method Create(p: Path) returns (error: Option<Error>)
      requires p != []
      modifies this
      ensures error.None? ==> IsDir(old(nodes), p[..|p| - 1]) && !IsDir(old(nodes), p) && faulted == old(faulted)
      ensures error.None? ==> exists stamp :: nodes == old(nodes)[p := File([], stamp)]
      ensures error.Some? ==> nodes == old(nodes) && (faulted || !IsDir(nodes, p[..|p| - 1]) || IsDir(nodes, p))
      ensures old(faulted) ==> faulted
    {
      error := Fault();
      if error.Some? {
        return;
      }
      if !IsDir(nodes, p[..|p| - 1]) || IsDir(nodes, p) {
        return Some(InvalidInput);
      }
      var stamp: int := *;
      nodes := nodes[p := File([], stamp)];
    }

    /** What a handle has written: the file now holds `data`, and the share's clock has stamped it. */
    method Store(p: Path, data: seq<byte>) returns (ghost stamp: int)
      requires p in nodes
      modifies this`nodes
      ensures nodes == old(nodes)[p := File(data, stamp)]
    {
      var now: int := *;
      stamp := now;
      nodes := nodes[p := File(data, now)];
    }

    /** A handle that removes its file instead of leaving it unfinished; this may fail. */
    method Discard(p: Path)
      modifies this`nodes
      ensures nodes == old(nodes) || nodes == old(nodes) - {p}
    {
      var done: bool := *;
      if done {
        nodes := nodes - {p};
      }
    }

    /** What is in a directory, each entry once, in any order. */
    method ReadDir(dir: Path) returns (r: Result<seq<DirEntry>>)
      modifies this`faulted
      ensures r.Ok? ==> faulted == old(faulted) && IsDir(nodes, dir) && Lists(nodes, dir, r.value)
      ensures r.Err? ==> faulted || !IsDir(nodes, dir)
      ensures old(faulted) ==> faulted
    {
      var error := Fault();
      if error.Some? {
        return Err(error.value);
      }
      if !IsDir(nodes, dir) {
        return Err(NotFound);
      }
      var left := set p | p in nodes && IsChild(dir, p);
      var entries: seq<DirEntry> := [];
      while left != {}
        invariant forall p :: p in left ==> p in nodes && IsChild(dir, p) && !Named(entries, p[|dir|])
        invariant forall p :: p in nodes && IsChild(dir, p) ==> p in left || Named(entries, p[|dir|])
        invariant EntriesOf(nodes, dir, entries)
        decreases left
      {
        var p :| p in left;
        assert p == dir + [p[|dir|]];
        left := left - {p};
        entries := AddEntry(nodes, dir, entries, p[|dir|]);
        forall q | q in left
          ensures q[|dir|] != p[|dir|]
        {
          assert q == dir + [q[|dir|]];
        }
      }
      forall name | dir + [name] in nodes
        ensures Named(entries, name)
      {
        assert IsChild(dir, dir + [name]) && (dir + [name])[|dir|] == name;
      }
      return Ok(entries);
    }
  }

  /* ---------- Making directories ---------- */

  lemma InPrefixes(dir: Path, p: Path)
    ensures p in Prefixes(dir) <==> p != [] && UpTo(p, dir)
  {
    if p != [] && UpTo(p, dir) {
      assert p == dir[..|p|];
    }
  }

  lemma UpToStep(p: Path, dir: Path, name: string)
    ensures UpTo(p, dir + [name]) <==> UpTo(p, dir) || p == dir + [name]
    ensures Above(p, dir + [name]) <==> UpTo(p, dir)
  {
    if UpTo(p, dir + [name]) && p != dir + [name] {
      assert p == (dir + [name])[..|p|] == dir[..|p|];
    }
  }

  /** Whatever exists has all its ancestors, as directories. */
  lemma {:induction false} AncestorIsDir(nodes: Nodes, p: Path, above: Path)
    requires IsTree(nodes) && p in nodes && Above(above, p)
    ensures IsDir(nodes, above)
    decreases |p|
  {
    assert InDir(nodes, p);
    var parent := p[..|p| - 1];
    if above != [] && above != parent {
      AncestorIsDir(nodes, parent, above);
    }
  }

  /** `nodes` is `start` with all directories on the way to `dir` made, and no file was in the way. */
  ghost predicate Made(start: Nodes, nodes: Nodes, dir: Path) {
    nodes == WithDirs(start, dir) && !FileAbove(start, dir)
  }

  /** On the way to something that exists nothing is missing. */
  lemma MadeAlready(nodes: Nodes, dir: Path)
    requires IsTree(nodes) && (dir == [] || dir in nodes)
    ensures Made(nodes, nodes, dir)
  {
    forall p | Above(p, dir)
      ensures IsDir(nodes, p)
    {
      AncestorIsDir(nodes, dir, p);
    }
    forall p | p in Prefixes(dir)
      ensures p in nodes
    {
      InPrefixes(dir, p);
      assert p == dir || Above(p, dir);
    }
  }

  lemma MadeOld(start: Nodes, nodes: Nodes, dir: Path, name: string)
    requires IsTree(start) && Made(start, nodes, dir) && dir + [name] in nodes
    ensures Made(start, nodes, dir + [name]) && dir + [name] in start && nodes == start
  {
    InPrefixes(dir, dir + [name]);
    MadeAlready(start, dir + [name]);
    UpToStep(dir, dir, name);
    assert dir != [] ==> dir in start by { AncestorIsDir(start, dir + [name], dir); }
    MadeAlready(start, dir);
  }

  lemma MadeNew(start: Nodes, nodes: Nodes, dir: Path, name: string)
    requires IsTree(start) && Made(start, nodes, dir) && dir + [name] !in nodes && IsDir(nodes, dir)
    ensures Made(start, nodes[dir + [name] := Dir], dir + [name])
  {
    forall p
      ensures p in Prefixes(dir + [name]) <==> p in Prefixes(dir) || p == dir + [name]
    {
      InPrefixes(dir, p);
      InPrefixes(dir + [name], p);
      UpToStep(p, dir, name);
    }
    assert nodes[dir + [name] := Dir] == WithDirs(start, dir + [name]);
    forall p | Above(p, dir + [name])
      ensures !IsFile(start, p)
    {
      UpToStep(p, dir, name);
      if p == dir && p in start {
        assert nodes[p] == start[p];
      }
    }
  }

  /** Where the parent is not a directory, nothing has been made yet, and a file is in the way. */
  lemma MadeBlocked(start: Nodes, nodes: Nodes, dir: Path, name: string)
    requires IsTree(start) && Made(start, nodes, dir) && !IsDir(nodes, dir)
    ensures nodes == start && FileAbove(start, dir + [name])
  {
    InPrefixes(dir, dir);
    UpToStep(dir, dir, name);
    MadeAlready(start, dir);
    assert IsFile(start, dir);
  }

  lemma FileAboveMonotone(nodes: Nodes, above: Path, dir: Path)
    requires UpTo(above, dir) && FileAbove(nodes, above)
    ensures FileAbove(nodes, dir)
  {
    var p :| IsFile(nodes, p) && Above(p, above);
    assert Above(p, dir);
  }

  /** Some of the directories on the way to `dir` have been made, from the top, and nothing else has changed. */
  ghost predicate PartlyMade(start: Nodes, nodes: Nodes, dir: Path) {
    exists made :: UpTo(made, dir) && Made(start, nodes, made)
  }

  /**
   The SMB backend's way: make each prefix, ignoring that it exists. It fails exactly when something above
   `dir` is a file (or on an I/O error), changes nothing then, and otherwise makes the missing directories.
   */
  method MkdirAll(share: Share, dir: Path) returns (error: Option<Error>)
    requires IsTree(share.nodes)
    modifies share
    ensures error.None? ==> Made(old(share.nodes), share.nodes, dir)
    ensures error.Some? ==> share.faulted || FileAbove(old(share.nodes), dir)
    ensures error.Some? && !share.faulted ==> share.nodes == old(share.nodes)
    ensures error != Some(Conflict)
    ensures PartlyMade(old(share.nodes), share.nodes, dir)
    ensures old(share.faulted) ==> share.faulted
  {
    ghost var start := share.nodes;
    var current: Path := [];
    MadeAlready(start, current);
    for i := 0 to |dir|
      invariant current == dir[..i] && Made(start, share.nodes, current)
      invariant old(share.faulted) ==> share.faulted
    {
      current := dir[..i + 1];
      error := MkdirNext(share, start, dir[..i], dir[i]);
      assert dir[..i] + [dir[i]] == current;
      assert UpTo(dir[..i], dir) && UpTo(current, dir);
      if error.Some? {
        if !share.faulted {
          FileAboveMonotone(start, current, dir);
        }
        return;
      }
    }
    assert current == dir && UpTo(dir, dir);
    error := None;
  }

  /** One round of that loop: `dir` is made, and the directory `name` in it comes next. */
  method MkdirNext(share: Share, ghost start: Nodes, dir: Path, name: string) returns (error: Option<Error>)
    requires IsTree(start) && Made(start, share.nodes, dir)
    modifies share
    ensures error.None? ==> Made(start, share.nodes, dir + [name])
    ensures error.Some? ==> share.nodes == old(share.nodes)
    ensures error.Some? && !share.faulted ==> share.nodes == start && FileAbove(start, dir + [name])
    ensures error != Some(Conflict)
    ensures old(share.faulted) ==> share.faulted
  {
    var current := dir + [name];
    assert current[..|current| - 1] == dir;
    ghost var before := share.nodes;
    error := share.Mkdir(current);
    if error.None? {
      MadeNew(start, before, dir, name);
      return;
    }
    if error.value != Conflict {
      var info := share.Stat(current);
      if !(info.Ok? && info.value.Dir?) {
        if !share.faulted {
          MadeBlocked(start, before, dir, name);
        }
        return;
      }
    }
    MadeOld(start, before, dir, name);
    error := None;
  }

  /**
   After MkdirAll reports success, every prefix is a directory exactly when `dir` itself was not a file;
   nothing else has changed.
   */
  lemma MkdirAllMeans(start: Nodes, nodes: Nodes, dir: Path)
    requires IsTree(start) && dir != [] && Made(start, nodes, dir)
    ensures (forall p :: UpTo(p, dir) ==> IsDir(nodes, p)) <==> !IsFile(start, dir)
    ensures forall p :: p in start ==> p in nodes && nodes[p] == start[p]
    ensures forall p :: p in nodes && p !in start ==> UpTo(p, dir) && nodes[p] == Dir
    ensures IsTree(nodes)
  {
    forall p
      ensures p in Prefixes(dir) <==> p != [] && UpTo(p, dir)
    {
      InPrefixes(dir, p);
    }
    forall p | UpTo(p, dir) && !IsFile(start, dir)
      ensures IsDir(nodes, p)
    {
      assert p == dir || Above(p, dir);
    }
    assert UpTo(dir, dir);
    forall p | p in nodes
      ensures InDir(nodes, p)
    {
      assert p in start ==> InDir(start, p);
      if p !in start && |p| > 1 {
        assert Above(p[..|p| - 1], dir);
        assert p[..|p| - 1] in Prefixes(dir);
      }
    }
  }

  /** An instance: the call reports success, and the path is still a file. */
  lemma MkdirAllAcceptsFile()
    ensures var nodes: Nodes := map[["a"] := File([], 0)];
      IsTree(nodes) && Made(nodes, nodes, ["a"]) && !IsDir(nodes, ["a"])
  {
    var nodes: Nodes := map[["a"] := File([], 0)];
    MadeAlready(nodes, ["a"]);
  }

  /* ---------- Removing a tree ---------- */

  /** `nodes` is `start` with some things at or below `target` gone. */
  predicate OnlyBelow(start: Nodes, nodes: Nodes, target: Path) {
    && nodes.Keys <= start.Keys
    && forall p :: p in start ==>
      (p in nodes ==> nodes[p] == start[p]) && (!UpTo(target, p) ==> p in nodes)
  }

  lemma WithoutBelow(nodes: Nodes, target: Path)
    requires IsTree(nodes)
    ensures IsTree(nodes - Below(nodes, target)) && OnlyBelow(nodes, nodes - Below(nodes, target), target)
  {
    var rest := nodes - Below(nodes, target);
    forall p | p in rest
      ensures InDir(rest, p)
    {
      assert InDir(nodes, p);
      assert |p| > 1 && UpTo(target, p[..|p| - 1]) ==> UpTo(target, p);
    }
  }

  lemma ChildrenApart(dir: Path, name: string, other: string)
    ensures UpTo(dir, dir + [name]) && !UpTo(dir + [name], dir)
    ensures UpTo(dir + [name], dir + [other]) ==> name == other
  {
    if UpTo(dir + [name], dir + [other]) {
      assert (dir + [name])[|dir|] == (dir + [other])[|dir|];
    }
  }

  /** After `done` of its entries have been removed with all below them, the others are still there. */
  ghost predicate Cleared(start: Nodes, nodes: Nodes, dir: Path, entries: seq<DirEntry>, done: nat) {
    && IsTree(nodes) && OnlyBelow(start, nodes, dir) && dir in nodes && nodes[dir].Dir?
    && (forall i :: 0 <= i < done && i < |entries| ==> dir + [entries[i].name] !in nodes)
    && forall i :: done <= i < |entries| ==>
         dir + [entries[i].name] in nodes && entries[i].isDir == nodes[dir + [entries[i].name]].Dir?
  }

  lemma ClearedMore(start: Nodes, nodes: Nodes, dir: Path, entries: seq<DirEntry>, done: nat)
    requires EntriesOf(start, dir, entries) && done < |entries| && Cleared(start, nodes, dir, entries, done)
    ensures Cleared(start, nodes - Below(nodes, dir + [entries[done].name]), dir, entries, done + 1)
  {
    var child := dir + [entries[done].name];
    var rest := nodes - Below(nodes, child);
    WithoutBelow(nodes, child);
    assert forall p :: UpTo(child, p) ==> UpTo(dir, p);
    ChildrenApart(dir, entries[done].name, "");
    forall i | done < i < |entries|
      ensures dir + [entries[i].name] in rest
    {
      ChildrenApart(dir, entries[done].name, entries[i].name);
    }
    assert UpTo(child, child);
  }

  /** Nothing is left below a directory whose entries have all been removed. */
  lemma ClearedAll(start: Nodes, nodes: Nodes, dir: Path, entries: seq<DirEntry>)
    requires Lists(start, dir, entries) && Cleared(start, nodes, dir, entries, |entries|)
    ensures Below(nodes, dir) == {dir}
    ensures nodes - {dir} == start - Below(start, dir)
  {
    forall p | p in Below(nodes, dir)
      ensures p == dir
    {
      if p != dir {
        var name := p[|dir|];
        var child := dir + [name];
        assert child == p[..|dir| + 1];
        if child != p {
          AncestorIsDir(nodes, p, child);
        }
        assert false;
      }
    }
    assert UpTo(dir, dir);
  }

  /**
   Removes a directory after everything in it, or a single file. The call ends, however deep the tree.
   Success means exactly the target's subtree is gone. Failure means the target was missing or an I/O
   error came up, so no directory was ever asked to go while something was in it. Whatever happens,
   nothing outside the subtree changes and nothing is left without its directory.
   */
  method RemoveAll(share: Share, target: Path) returns (error: Option<Error>)
    requires IsTree(share.nodes) && target != []
    modifies share
    ensures error.None? ==> target in old(share.nodes)
    ensures error.None? ==> share.nodes == old(share.nodes) - Below(old(share.nodes), target)
    ensures error.Some? ==> share.faulted || target !in old(share.nodes)
    ensures OnlyBelow(old(share.nodes), share.nodes, target) && IsTree(share.nodes)
    ensures old(share.faulted) ==> share.faulted
    decreases Below(share.nodes, target)
  {
    ghost var start := share.nodes;
    var info := share.Stat(target);
    if info.Err? {
      return Some(info.error);
    }
    WithoutBelow(start, target);
    if !info.value.Dir? {
      FileIsLeaf(start, target);
      error := share.Remove(target);
      return;
    }
    var listed := share.ReadDir(target);
    if listed.Err? {
      return Some(listed.error);
    }
    var entries := listed.value;
    for i := 0 to |entries|
      invariant Cleared(start, share.nodes, target, entries, i)
      invariant old(share.faulted) ==> share.faulted
    {
      ghost var before := share.nodes;
      var child := target + [entries[i].name];
      BelowChild(start, before, target, entries[i].name);
      ClearedMore(start, before, target, entries, i);
      if entries[i].isDir {
        error := RemoveAll(share, child);
      } else {
        FileIsLeaf(before, child);
        error := share.Remove(child);
      }
      if error.Some? {
        OnlyBelowChild(start, before, share.nodes, target, entries[i].name);
        return;
      }
    }
    ClearedAll(start, share.nodes, target, entries);
    error := share.Remove(target);
  }

  /** When a removal is refused, and how. */
  function RemoveVerdict(nodes: Nodes, target: Path, recursive: bool): Option<Error> {
    if target == [] then Some(InvalidInput)
    else if target !in nodes then Some(NotFound)
    else if !recursive && Below(nodes, target) != {target} then Some(NotEmpty)
    else None
  }

  /** What the SMB backend offers: the root stays, and a directory with something in it goes only on request. */
  method RemoveTarget(share: Share, target: Path, recursive: bool) returns (error: Option<Error>)
    requires IsTree(share.nodes)
    modifies share
    ensures !share.faulted ==> error == RemoveVerdict(old(share.nodes), target, recursive)
    ensures error.None? ==> share.nodes == old(share.nodes) - Below(old(share.nodes), target)
    ensures error.Some? && !share.faulted ==> share.nodes == old(share.nodes)
    ensures OnlyBelow(old(share.nodes), share.nodes, target) && IsTree(share.nodes)
  {
    if target == [] {
      return Some(InvalidInput);
    }
    WithoutBelow(share.nodes, target);
    var info := share.Stat(target);
    if info.Err? {
      return Some(info.error);
    }
    if info.value.Dir? {
      if recursive {
        error := RemoveAll(share, target);
        return;
      }
      var entries := share.ReadDir(target);
      if entries.Err? {
        return Some(entries.error);
      }
      if |entries.value| > 0 {
        BelowChild(share.nodes, share.nodes, target, entries.value[0].name);
        ChildrenApart(target, entries.value[0].name, "");
        return Some(NotEmpty);
      }
      ClearedAll(share.nodes, share.nodes, target, entries.value);
    } else {
      FileIsLeaf(share.nodes, target);
    }
    error := share.Remove(target);
  }

  lemma FileIsLeaf(nodes: Nodes, p: Path)
    requires IsTree(nodes) && IsFile(nodes, p)
    ensures Below(nodes, p) == {p}
  {
    assert p != [];
    forall q | q in Below(nodes, p)
      ensures q == p
    {
      if q != p {
        AncestorIsDir(nodes, q, p);
        assert false;
      }
    }
    assert UpTo(p, p);
  }

  lemma BelowChild(start: Nodes, nodes: Nodes, dir: Path, name: string)
    requires dir in start && nodes.Keys <= start.Keys
    ensures Below(nodes, dir + [name]) < Below(start, dir)
  {
    assert forall p :: UpTo(dir + [name], p) ==> UpTo(dir, p);
    ChildrenApart(dir, name, name);
    assert dir in Below(start, dir) && dir !in Below(nodes, dir + [name]);
  }

  lemma OnlyBelowChild(start: Nodes, middle: Nodes, nodes: Nodes, dir: Path, name: string)
    requires OnlyBelow(start, middle, dir) && OnlyBelow(middle, nodes, dir + [name])
    ensures OnlyBelow(start, nodes, dir)
  {
    assert forall p :: UpTo(dir + [name], p) ==> UpTo(dir, p);
  }
}
