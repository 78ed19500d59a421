/**
 Listing a tree of files through a backend. Each directory is asked for by the path under which it was found,
 and the backend cleans that path first; where it leads elsewhere, something else is listed.
 */
module Listings {
  import opened Storage
  import opened ShareTree
  import opened Backends
  import Paths
  import Text

  datatype Listed = Listed(path: Path, size: nat, modTime: int)

  function ListedAs(nodes: Nodes, p: Path): Listed
    requires IsFile(nodes, p)
  {
    Listed(p, |nodes[p].data|, nodes[p].modTime)
  }

  predicate HasPath(files: seq<Listed>, p: Path) {
    exists i :: 0 <= i < |files| && files[i].path == p
  }

  /** Every entry of `files` is a file of the share, as it is, and no file occurs twice. */
  predicate Genuine(nodes: Nodes, files: seq<Listed>) {
    && (forall i :: 0 <= i < |files| ==> IsFile(nodes, files[i].path) && files[i] == ListedAs(nodes, files[i].path))
    && forall i, j :: 0 <= i < j < |files| ==> files[i].path != files[j].path
  }

  /** `files` are the files at or below `dir`, each once. */
  ghost predicate FilesBelow(nodes: Nodes, dir: Path, files: seq<Listed>) {
    && Genuine(nodes, files)
    && (forall i :: 0 <= i < |files| ==> UpTo(dir, files[i].path))
    && forall p :: IsFile(nodes, p) && UpTo(dir, p) ==> HasPath(files, p)
  }

  /** `p` lies below `dir`, in one of the named entries. */
  predicate Within(dir: Path, entries: seq<DirEntry>, p: Path) {
    UpTo(dir, p) && |p| > |dir| && Named(entries, p[|dir|])
  }

  /** `files` are the files in or below the given entries of `dir`, each once. */
  ghost predicate Collected(nodes: Nodes, dir: Path, entries: seq<DirEntry>, files: seq<Listed>) {
    && Genuine(nodes, files)
    && (forall i :: 0 <= i < |files| ==> Within(dir, entries, files[i].path))
    && forall p :: IsFile(nodes, p) && Within(dir, entries, p) ==> HasPath(files, p)
  }

  lemma HasPathAppend(a: seq<Listed>, b: seq<Listed>, p: Path)
    ensures HasPath(a + b, p) <==> HasPath(a, p) || HasPath(b, p)
  {
    if HasPath(a, p) {
      var i :| 0 <= i < |a| && a[i].path == p;
      assert (a + b)[i].path == p;
    }
    if HasPath(b, p) {
      var i :| 0 <= i < |b| && b[i].path == p;
      assert (a + b)[|a| + i].path == p;
    }
  }

  lemma WithinOne(dir: Path, name: string, p: Path)
    ensures UpTo(dir + [name], p) <==> UpTo(dir, p) && |p| > |dir| && p[|dir|] == name
  {
    if UpTo(dir, p) && |p| > |dir| && p[|dir|] == name {
      assert p[..|dir| + 1] == dir + [name];
    }
  }

  lemma NamedAppend(entries: seq<DirEntry>, entry: DirEntry, name: string)
    ensures Named(entries + [entry], name) <==> Named(entries, name) || name == entry.name
  {
    if Named(entries, name) {
      var i :| 0 <= i < |entries| && entries[i].name == name;
      assert (entries + [entry])[i].name == name;
    }
    assert (entries + [entry])[|entries|] == entry;
  }

  lemma CollectMore(nodes: Nodes, dir: Path, entries: seq<DirEntry>, files: seq<Listed>,
                    entry: DirEntry, more: seq<Listed>)
    requires Collected(nodes, dir, entries, files) && !Named(entries, entry.name)
    requires FilesBelow(nodes, dir + [entry.name], more)
    ensures Collected(nodes, dir, entries + [entry], files + more)
  {
    forall p
      ensures Within(dir, entries + [entry], p) <==> Within(dir, entries, p) || UpTo(dir + [entry.name], p)
      ensures !(Within(dir, entries, p) && UpTo(dir + [entry.name], p))
      ensures HasPath(files + more, p) <==> HasPath(files, p) || HasPath(more, p)
    {
      WithinOne(dir, entry.name, p);
      HasPathAppend(files, more, p);
      if |p| > |dir| {
        NamedAppend(entries, entry, p[|dir|]);
      }
    }
    forall i | 0 <= i < |files + more|
      ensures i < |files| ==> (files + more)[i] == files[i]
      ensures i >= |files| ==> (files + more)[i] == more[i - |files|]
    {
    }
  }

  lemma CollectedAll(nodes: Nodes, dir: Path, entries: seq<DirEntry>, files: seq<Listed>)
    requires IsTree(nodes) && IsDir(nodes, dir) && Lists(nodes, dir, entries)
    requires Collected(nodes, dir, entries, files)
    ensures FilesBelow(nodes, dir, files)
  {
    forall p | IsFile(nodes, p) && UpTo(dir, p)
      ensures Within(dir, entries, p)
    {
      assert p != dir;
      var child := dir + [p[|dir|]];
      WithinOne(dir, p[|dir|], p);
      if child != p {
        AncestorIsDir(nodes, p, child);
      }
      assert child in nodes;
    }
  }

  lemma OneFile(nodes: Nodes, p: Path)
    requires IsTree(nodes) && IsFile(nodes, p)
    ensures FilesBelow(nodes, p, [ListedAs(nodes, p)])
  {
    FileIsLeaf(nodes, p);
    assert [ListedAs(nodes, p)][0].path == p && UpTo(p, p);
    forall q | IsFile(nodes, q) && UpTo(p, q)
      ensures q == p
    {
      assert q in Below(nodes, p);
    }
  }

  lemma EntryIsNew(nodes: Nodes, dir: Path, entries: seq<DirEntry>, i: nat)
    requires EntriesOf(nodes, dir, entries) && i < |entries|
    ensures !Named(entries[..i], entries[i].name) && entries[..i] + [entries[i]] == entries[..i + 1]
    ensures dir + [entries[i].name] in nodes
    ensures entries[i].isDir <==> nodes[dir + [entries[i].name]].Dir?
  {
  }

  /** Every directory below `dir` is found again under the path that the listing gives it. */
  ghost predicate DirsKept(nodes: Nodes, dir: Path) {
    forall p {:trigger Kept(p)} :: p in nodes && nodes[p].Dir? && UpTo(dir, p) && p != dir ==> Kept(p)
  }

  lemma DirIsKept(nodes: Nodes, dir: Path, p: Path)
    requires DirsKept(nodes, dir) && p in nodes && nodes[p].Dir? && UpTo(dir, p) && p != dir
    ensures Kept(p)
  {
    assert Kept(p);
  }

  lemma DirsKeptBelow(nodes: Nodes, dir: Path, name: string)
    requires DirsKept(nodes, dir) && dir + [name] in nodes && nodes[dir + [name]].Dir?
    ensures KeyOf(Paths.Rel(dir + [name])) == Ok(dir + [name]) && DirsKept(nodes, dir + [name])
  {
    ChildrenApart(dir, name, name);
    assert Kept(dir + [name]);
    forall p | UpTo(dir + [name], p)
      ensures UpTo(dir, p) && p != dir
    {
      WithinOne(dir, name, p);
    }
  }

  /* ---------- Which calls a listing makes ---------- */

  /** There is a directory `name` in `key`, and the path under which it is listed leads to `next`. */
  predicate LeadsBy(nodes: Nodes, key: Path, name: string, next: Path) {
    IsSub(nodes, key, name) && KeyOf(Paths.Rel(key + [name])) == Ok(next)
  }

  predicate IsSub(nodes: Nodes, key: Path, name: string) {
    key + [name] in nodes && nodes[key + [name]].Dir?
  }

  /** Listing the directory `key` leads to a call that lists `next`. */
  ghost predicate Leads(nodes: Nodes, key: Path, next: Path) {
    IsDir(nodes, key) && exists name :: LeadsBy(nodes, key, name, next)
  }

  /** Calls, each made by the one before it, by what they list. */
  ghost predicate Chain(nodes: Nodes, keys: seq<Path>) {
    keys != [] && forall i :: 0 <= i < |keys| - 1 ==> Linked(nodes, keys, i)
  }

  ghost predicate Linked(nodes: Nodes, keys: seq<Path>, i: nat)
    requires i < |keys| - 1
  {
    Leads(nodes, keys[i], keys[i + 1])
  }

  predicate Distinct(keys: seq<Path>) {
    forall i, j :: 0 <= i < j < |keys| ==> keys[i] != keys[j]
  }

  ghost predicate ChainFrom(nodes: Nodes, key: Path, keys: seq<Path>) {
    Chain(nodes, keys) && keys[0] == key
  }

  /** No call comes to what a call around it lists. */
  ghost predicate Ends(nodes: Nodes, key: Path) {
    forall keys :: ChainFrom(nodes, key, keys) ==> Distinct(keys)
  }

  lemma {:induction false} DistinctFits(keys: seq<Path>, all: set<Path>)
    requires Distinct(keys) && forall i :: 0 <= i < |keys| ==> keys[i] in all
    ensures |keys| <= |all|
  {
    if keys != [] {
      var last := keys[|keys| - 1];
      DistinctFits(keys[..|keys| - 1], all - {last});
    }
  }

  /** Then calls do not nest deeper than there are directories. */
  lemma EndsSoon(nodes: Nodes, key: Path, keys: seq<Path>)
    requires Ends(nodes, key) && ChainFrom(nodes, key, keys)
    ensures |keys| <= |nodes.Keys| + 2
  {
    var init, all := keys[..|keys| - 1], nodes.Keys + {[]};
    forall i | 0 <= i < |init|
      ensures init[i] in all
    {
      ChainStep(nodes, keys, i);
    }
    DistinctFits(init, all);
  }

  lemma ChainStep(nodes: Nodes, keys: seq<Path>, i: nat)
    requires Chain(nodes, keys) && i + 1 < |keys|
    ensures Leads(nodes, keys[i], keys[i + 1])
  {
    assert Linked(nodes, keys, i);
  }

  lemma ChainPart(nodes: Nodes, keys: seq<Path>, lo: nat, hi: nat)
    requires Chain(nodes, keys) && lo < hi <= |keys|
    ensures Chain(nodes, keys[lo..hi])
  {
    var part := keys[lo..hi];
    forall i | 0 <= i < |part| - 1
      ensures Linked(nodes, part, i)
    {
      ChainStep(nodes, keys, lo + i);
    }
  }

  lemma ChainJoin(nodes: Nodes, a: seq<Path>, b: seq<Path>)
    requires Chain(nodes, a) && Chain(nodes, b) && Leads(nodes, a[|a| - 1], b[0])
    ensures Chain(nodes, a + b)
  {
    var keys := a + b;
    forall i | 0 <= i < |keys| - 1
      ensures Linked(nodes, keys, i)
    {
      if i + 1 < |a| {
        ChainStep(nodes, a, i);
      } else if i >= |a| {
        ChainStep(nodes, b, i - |a|);
      }
    }
  }

  /** The calls between two that list the same. */
  lemma ChainBack(nodes: Nodes, keys: seq<Path>, i: nat, j: nat) returns (base: seq<Path>, back: seq<Path>)
    requires Chain(nodes, keys) && i < j < |keys| && keys[i] == keys[j]
    ensures Chain(nodes, base) && base[0] == keys[0] && base[|base| - 1] == keys[j]
    ensures Chain(nodes, back) && back[|back| - 1] == keys[j] && Leads(nodes, keys[j], back[0])
  {
    base, back := keys[0..i + 1], keys[i + 1..j + 1];
    ChainPart(nodes, keys, 0, i + 1);
    ChainPart(nodes, keys, i + 1, j + 1);
    ChainStep(nodes, keys, i);
  }

  /** Calls that come back go on for ever: what leads back can be repeated. */
  lemma {:induction false} Repeat(nodes: Nodes, base: seq<Path>, back: seq<Path>, n: nat) returns (longer: seq<Path>)
    requires Chain(nodes, base) && Chain(nodes, back) && base[|base| - 1] == back[|back| - 1]
    requires Leads(nodes, back[|back| - 1], back[0])
    ensures Chain(nodes, longer) && longer[0] == base[0] && longer[|longer| - 1] == back[|back| - 1] && |longer| > n
  {
    longer := base;
    if n > 0 {
      longer := Repeat(nodes, base, back, n - 1);
      ChainJoin(nodes, longer, back);
      longer := longer + back;
    }
  }

  /** Calls nest no deeper than some bound. */
  ghost predicate Bounded(nodes: Nodes, key: Path, bound: nat) {
    forall keys :: ChainFrom(nodes, key, keys) ==> |keys| <= bound
  }

  /** So that is just when a listing ends. */
  lemma EndsIff(nodes: Nodes, key: Path)
    ensures Ends(nodes, key) <==> exists bound: nat :: Bounded(nodes, key, bound)
  {
    if Ends(nodes, key) {
      forall keys | ChainFrom(nodes, key, keys)
        ensures |keys| <= |nodes.Keys| + 2
      {
        EndsSoon(nodes, key, keys);
      }
      assert Bounded(nodes, key, |nodes.Keys| + 2);
    }
    if bound: nat :| Bounded(nodes, key, bound) {
      forall keys | ChainFrom(nodes, key, keys)
        ensures Distinct(keys)
      {
        if i, j :| 0 <= i < j < |keys| && keys[i] == keys[j] {
          var base, back := ChainBack(nodes, keys, i, j);
          var longer := Repeat(nodes, base, back, bound);
          assert ChainFrom(nodes, key, longer);
          assert false;
        }
      }
    }
  }

  lemma ChainSnoc(nodes: Nodes, keys: seq<Path>, next: Path)
    requires Chain(nodes, keys) && Leads(nodes, keys[|keys| - 1], next)
    ensures Chain(nodes, keys + [next])
  {
    assert Chain(nodes, [next]);
    ChainJoin(nodes, keys, [next]);
  }

  /* ---------- What a listing comes to ---------- */

  /** Listing `key` comes to list `dir`. */
  ghost predicate Reached(nodes: Nodes, key: Path, dir: Path) {
    exists keys :: ChainFrom(nodes, key, keys) && keys[|keys| - 1] == dir
  }

  lemma ReachedSelf(nodes: Nodes, key: Path)
    ensures Reached(nodes, key, key)
  {
    assert ChainFrom(nodes, key, [key]) && [key][|[key]| - 1] == key;
  }

  /** From `key` one comes to itself and to what one comes to from where it leads. */
  lemma ReachedStep(nodes: Nodes, key: Path, dir: Path)
    ensures Reached(nodes, key, dir) <==>
      dir == key || exists next :: Leads(nodes, key, next) && Reached(nodes, next, dir)
  {
    ReachedSelf(nodes, key);
    if dir != key && Reached(nodes, key, dir) {
      var keys :| ChainFrom(nodes, key, keys) && keys[|keys| - 1] == dir;
      var rest := keys[1..];
      ChainStep(nodes, keys, 0);
      ChainPart(nodes, keys, 1, |keys|);
      assert keys[1..|keys|] == rest;
      assert ChainFrom(nodes, keys[1], rest) && rest[|rest| - 1] == dir;
    }
    if next :| Leads(nodes, key, next) && Reached(nodes, next, dir) {
      ReachedBy(nodes, key, next, dir);
    }
  }

  lemma ReachedSnoc(nodes: Nodes, key: Path, dir: Path, next: Path)
    requires Reached(nodes, key, dir) && Leads(nodes, dir, next)
    ensures Reached(nodes, key, next)
  {
    var keys :| ChainFrom(nodes, key, keys) && keys[|keys| - 1] == dir;
    ChainSnoc(nodes, keys, next);
    assert ChainFrom(nodes, key, keys + [next]) && (keys + [next])[|keys|] == next;
  }

  lemma ReachedBy(nodes: Nodes, key: Path, next: Path, dir: Path)
    requires Leads(nodes, key, next) && Reached(nodes, next, dir)
    ensures Reached(nodes, key, dir)
  {
    var rest :| ChainFrom(nodes, next, rest) && rest[|rest| - 1] == dir;
    var keys := [key] + rest;
    assert Chain(nodes, [key]);
    ChainJoin(nodes, [key], rest);
    assert ChainFrom(nodes, key, keys) && keys[|keys| - 1] == dir;
  }

  /** `p` is a file in a directory that the listing of `key` comes to. */
  ghost predicate FileReached(nodes: Nodes, key: Path, p: Path) {
    IsFile(nodes, p) && p != [] && Reached(nodes, key, p[..|p| - 1])
  }

  /** `files` are the files that the listing comes to, as they are. */
  ghost predicate ListsReached(nodes: Nodes, key: Path, files: seq<Listed>) {
    && (forall i :: 0 <= i < |files| ==>
          FileReached(nodes, key, files[i].path) && files[i] == ListedAs(nodes, files[i].path))
    && forall p :: FileReached(nodes, key, p) ==> HasPath(files, p)
  }

  /** What is found by way of the entry `name` of `key`: itself, or what the listing of it comes to. */
  ghost predicate ByEntry(nodes: Nodes, key: Path, name: string, p: Path) {
    || (IsFile(nodes, p) && p == key + [name])
    || (IsSub(nodes, key, name) && KeyOf(Paths.Rel(key + [name])).Ok? &&
          FileReached(nodes, KeyOf(Paths.Rel(key + [name])).value, p))
  }

  ghost predicate ByEntries(nodes: Nodes, key: Path, entries: seq<DirEntry>, p: Path) {
    exists i :: 0 <= i < |entries| && ByEntry(nodes, key, entries[i].name, p)
  }

  /** `files` are what is found by way of the given entries. */
  ghost predicate Gathered(nodes: Nodes, key: Path, entries: seq<DirEntry>, files: seq<Listed>) {
    && (forall i :: 0 <= i < |files| ==>
          IsFile(nodes, files[i].path) && files[i] == ListedAs(nodes, files[i].path) &&
          ByEntries(nodes, key, entries, files[i].path))
    && forall p :: ByEntries(nodes, key, entries, p) ==> HasPath(files, p)
  }

  ghost predicate GatheredOne(nodes: Nodes, key: Path, name: string, files: seq<Listed>) {
    && (forall i :: 0 <= i < |files| ==>
          IsFile(nodes, files[i].path) && files[i] == ListedAs(nodes, files[i].path) &&
          ByEntry(nodes, key, name, files[i].path))
    && forall p :: ByEntry(nodes, key, name, p) ==> HasPath(files, p)
  }

  lemma ByEntriesSnoc(nodes: Nodes, key: Path, entries: seq<DirEntry>, entry: DirEntry, p: Path)
    ensures ByEntries(nodes, key, entries + [entry], p) <==>
      ByEntries(nodes, key, entries, p) || ByEntry(nodes, key, entry.name, p)
  {
    var more := entries + [entry];
    assert more[|entries|] == entry;
    if ByEntries(nodes, key, entries, p) {
      var i :| 0 <= i < |entries| && ByEntry(nodes, key, entries[i].name, p);
      assert more[i] == entries[i];
    }
  }

  lemma GatherMore(nodes: Nodes, key: Path, entries: seq<DirEntry>, files: seq<Listed>, entry: DirEntry,
                   more: seq<Listed>)
    requires Gathered(nodes, key, entries, files) && GatheredOne(nodes, key, entry.name, more)
    ensures Gathered(nodes, key, entries + [entry], files + more)
  {
    forall p
      ensures ByEntries(nodes, key, entries + [entry], p) <==>
        ByEntries(nodes, key, entries, p) || ByEntry(nodes, key, entry.name, p)
      ensures HasPath(files + more, p) <==> HasPath(files, p) || HasPath(more, p)
    {
      ByEntriesSnoc(nodes, key, entries, entry, p);
      HasPathAppend(files, more, p);
    }
    forall i | 0 <= i < |files + more|
      ensures i < |files| ==> (files + more)[i] == files[i]
      ensures i >= |files| ==> (files + more)[i] == more[i - |files|]
    {
    }
  }

  /** All entries of a directory together give what its listing comes to. */
  lemma ByAllEntries(nodes: Nodes, key: Path, entries: seq<DirEntry>, p: Path)
    requires IsTree(nodes) && IsDir(nodes, key) && Lists(nodes, key, entries)
    ensures ByEntries(nodes, key, entries, p) <==> FileReached(nodes, key, p)
  {
    if i :| 0 <= i < |entries| && ByEntry(nodes, key, entries[i].name, p) {
      EntryReaches(nodes, key, entries[i].name, p);
    }
    if FileReached(nodes, key, p) {
      ReachedByEntry(nodes, key, entries, p);
    }
  }

  lemma EntryReaches(nodes: Nodes, key: Path, name: string, p: Path)
    requires IsDir(nodes, key) && ByEntry(nodes, key, name, p)
    ensures FileReached(nodes, key, p)
  {
    if IsFile(nodes, p) && p == key + [name] {
      ReachedSelf(nodes, key);
      assert p[..|p| - 1] == key;
    } else {
      var next := KeyOf(Paths.Rel(key + [name])).value;
      assert LeadsBy(nodes, key, name, next);
      ReachedBy(nodes, key, next, p[..|p| - 1]);
    }
  }

  lemma ReachedByEntry(nodes: Nodes, key: Path, entries: seq<DirEntry>, p: Path)
    requires IsDir(nodes, key) && Lists(nodes, key, entries) && FileReached(nodes, key, p)
    ensures ByEntries(nodes, key, entries, p)
  {
    var dir := p[..|p| - 1];
    ReachedStep(nodes, key, dir);
    var name;
    if dir == key {
      name := p[|p| - 1];
      assert p == key + [name];
    } else {
      var next :| Leads(nodes, key, next) && Reached(nodes, next, dir);
      name :| LeadsBy(nodes, key, name, next);
    }
    assert ByEntry(nodes, key, name, p) && Named(entries, name);
    var i :| 0 <= i < |entries| && entries[i].name == name;
  }

  lemma GatheredAll(nodes: Nodes, key: Path, entries: seq<DirEntry>, files: seq<Listed>)
    requires IsTree(nodes) && IsDir(nodes, key) && Lists(nodes, key, entries) && Gathered(nodes, key, entries, files)
    ensures ListsReached(nodes, key, files)
  {
    forall p
      ensures ByEntries(nodes, key, entries, p) <==> FileReached(nodes, key, p)
    {
      ByAllEntries(nodes, key, entries, p);
    }
  }

  lemma GatherFile(nodes: Nodes, key: Path, name: string)
    requires IsFile(nodes, key + [name])
    ensures GatheredOne(nodes, key, name, [ListedAs(nodes, key + [name])])
  {
    assert [ListedAs(nodes, key + [name])][0].path == key + [name];
  }

  lemma GatherNested(nodes: Nodes, key: Path, name: string, files: seq<Listed>)
    requires IsSub(nodes, key, name) && KeyOf(Paths.Rel(key + [name])).Ok?
    requires ListsReached(nodes, KeyOf(Paths.Rel(key + [name])).value, files)
    ensures GatheredOne(nodes, key, name, files)
  {
  }

  /** Everything that the listing comes to can be listed. */
  ghost predicate AllListable(nodes: Nodes, key: Path) {
    forall dir :: Reached(nodes, key, dir) ==> Listable(nodes, dir)
  }

  ghost predicate Listable(nodes: Nodes, dir: Path) {
    IsDir(nodes, dir) && forall name :: IsSub(nodes, dir, name) ==> KeyOf(Paths.Rel(dir + [name])).Ok?
  }

  /** The entry can be listed with all that this comes to, if it is a directory. */
  ghost predicate SubListable(nodes: Nodes, key: Path, entry: DirEntry) {
    entry.isDir ==>
      KeyOf(Paths.Rel(key + [entry.name])).Ok? && AllListable(nodes, KeyOf(Paths.Rel(key + [entry.name])).value)
  }

  ghost predicate SubsListable(nodes: Nodes, key: Path, entries: seq<DirEntry>, n: nat)
    requires n <= |entries|
  {
    forall i :: 0 <= i < n ==> SubListable(nodes, key, entries[i])
  }

  lemma AllSubsListable(nodes: Nodes, key: Path, entries: seq<DirEntry>)
    requires IsDir(nodes, key) && Lists(nodes, key, entries) && SubsListable(nodes, key, entries, |entries|)
    ensures AllListable(nodes, key)
  {
    forall name | IsSub(nodes, key, name)
      ensures KeyOf(Paths.Rel(key + [name])).Ok? && AllListable(nodes, KeyOf(Paths.Rel(key + [name])).value)
    {
      assert Named(entries, name);
      var i :| 0 <= i < |entries| && entries[i].name == name;
      assert SubListable(nodes, key, entries[i]);
    }
    forall dir | Reached(nodes, key, dir)
      ensures Listable(nodes, dir)
    {
      ReachedStep(nodes, key, dir);
      if dir != key {
        var next :| Leads(nodes, key, next) && Reached(nodes, next, dir);
        var name :| LeadsBy(nodes, key, name, next);
      }
    }
  }

  /** Nothing is come to from a file. */
  lemma FileReachesNothing(nodes: Nodes, key: Path, p: Path)
    requires IsTree(nodes) && IsFile(nodes, key)
    ensures !FileReached(nodes, key, p)
  {
    if p in nodes && p != [] {
      assert InDir(nodes, p);
      ReachedStep(nodes, key, p[..|p| - 1]);
    }
  }

  lemma ListableBelow(nodes: Nodes, key: Path, name: string, next: Path)
    requires AllListable(nodes, key) && LeadsBy(nodes, key, name, next)
    ensures AllListable(nodes, next)
  {
    ReachedSelf(nodes, key);
    assert Listable(nodes, key) && Leads(nodes, key, next);
    forall dir | Reached(nodes, next, dir)
      ensures Listable(nodes, dir)
    {
      ReachedBy(nodes, key, next, dir);
    }
  }

  /* ---------- Listing ---------- */

  /** What the first `n` entries have given. */
  ghost predicate SoFar(nodes: Nodes, key: Path, entries: seq<DirEntry>, n: nat, files: seq<Listed>)
    requires n <= |entries|
  {
    && Gathered(nodes, key, entries[..n], files) && SubsListable(nodes, key, entries, n)
    && (DirsKept(nodes, key) ==> Collected(nodes, key, entries[..n], files))
  }

  lemma SoFarMore(nodes: Nodes, key: Path, entries: seq<DirEntry>, n: nat, files: seq<Listed>, more: seq<Listed>)
    requires n < |entries| && EntriesOf(nodes, key, entries) && SoFar(nodes, key, entries, n, files)
    requires GatheredOne(nodes, key, entries[n].name, more) && SubListable(nodes, key, entries[n])
    requires DirsKept(nodes, key) ==> FilesBelow(nodes, key + [entries[n].name], more)
    ensures SoFar(nodes, key, entries, n + 1, files + more)
  {
    EntryIsNew(nodes, key, entries, n);
    GatherMore(nodes, key, entries[..n], files, entries[n], more);
    if DirsKept(nodes, key) {
      CollectMore(nodes, key, entries[..n], files, entries[n], more);
    }
  }

  lemma SoFarAll(nodes: Nodes, key: Path, entries: seq<DirEntry>, files: seq<Listed>)
    requires IsTree(nodes) && IsDir(nodes, key) && Lists(nodes, key, entries)
    requires SoFar(nodes, key, entries, |entries|, files)
    ensures ListsReached(nodes, key, files) && AllListable(nodes, key)
    ensures DirsKept(nodes, key) ==> FilesBelow(nodes, key, files)
  {
    assert entries[..|entries|] == entries;
    GatheredAll(nodes, key, entries, files);
    AllSubsListable(nodes, key, entries);
    if DirsKept(nodes, key) {
      CollectedAll(nodes, key, entries, files);
    }
  }

  /** The calls so far, the last one for `key`, are the start of a listing that ends. */
  ghost predicate InTime(nodes: Nodes, around: seq<Path>, key: Path) {
    Chain(nodes, around + [key]) && Ends(nodes, (around + [key])[0])
  }

  /**
   Lists the files of a directory and of all that it comes to. The call ends where no call comes to what a call
   around it lists; success then means all files come to, and where every directory below is found under its own
   path, the files below, each once.
   */
  method ListFilesRecursive(share: Share, dir: string, ghost around: seq<Path>) returns (r: Result<seq<Listed>>)
    requires IsTree(share.nodes)
    requires KeyOf(dir).Ok? ==> InTime(share.nodes, around, KeyOf(dir).value)
    modifies share`faulted
    ensures r.Ok? ==> KeyOf(dir).Ok? && IsDir(share.nodes, KeyOf(dir).value)
    ensures r.Ok? ==> ListsReached(share.nodes, KeyOf(dir).value, r.value) && AllListable(share.nodes, KeyOf(dir).value)
    ensures r.Ok? && DirsKept(share.nodes, KeyOf(dir).value) ==> FilesBelow(share.nodes, KeyOf(dir).value, r.value)
    ensures r.Err? ==> share.faulted || KeyOf(dir).Err? || !AllListable(share.nodes, KeyOf(dir).value)
    ensures old(share.faulted) ==> share.faulted
    decreases |share.nodes.Keys| + 2 - |around|, 3
  {
    var key := Locate(dir);
    if key.Err? {
      return Err(InvalidInput);
    }
    r := ListKey(share, key.value, around);
  }

  /** The same, once the path has been cleaned. */
  method ListKey(share: Share, key: Path, ghost around: seq<Path>) returns (r: Result<seq<Listed>>)
    requires IsTree(share.nodes) && InTime(share.nodes, around, key)
    modifies share`faulted
    ensures r.Ok? ==> IsDir(share.nodes, key) && ListsReached(share.nodes, key, r.value) && AllListable(share.nodes, key)
    ensures r.Ok? && DirsKept(share.nodes, key) ==> FilesBelow(share.nodes, key, r.value)
    ensures r.Err? ==> share.faulted || !AllListable(share.nodes, key)
    ensures old(share.faulted) ==> share.faulted
    decreases |share.nodes.Keys| + 2 - |around|, 2
  {
    ReachedSelf(share.nodes, key);
    var listed := share.ReadDir(key);
    if listed.Err? {
      return Err(listed.error);
    }
    var entries := listed.value;
    var files: seq<Listed> := [];
    for i := 0 to |entries|
      invariant SoFar(share.nodes, key, entries, i, files)
      invariant old(share.faulted) ==> share.faulted
    {
      var longer := ListNext(share, key, entries, i, files, around);
      if longer.Err? {
        return longer;
      }
      files := longer.value;
    }
    SoFarAll(share.nodes, key, entries, files);
    return Ok(files);
  }

  /** One turn of that loop. */
  method ListNext(share: Share, key: Path, entries: seq<DirEntry>, i: nat, files: seq<Listed>, ghost around: seq<Path>)
    returns (r: Result<seq<Listed>>)
    requires IsTree(share.nodes) && InTime(share.nodes, around, key) && IsDir(share.nodes, key)
    requires i < |entries| && EntriesOf(share.nodes, key, entries) && SoFar(share.nodes, key, entries, i, files)
    modifies share`faulted
    ensures r.Ok? ==> SoFar(share.nodes, key, entries, i + 1, r.value)
    ensures r.Err? ==> share.faulted || !AllListable(share.nodes, key)
    ensures old(share.faulted) ==> share.faulted
    decreases |share.nodes.Keys| + 2 - |around|, 1
  {
    EntryIsNew(share.nodes, key, entries, i);
    var more := ListEntry(share, key, entries[i], around);
    if more.Err? {
      return more;
    }
    SoFarMore(share.nodes, key, entries, i, files, more.value);
    return Ok(files + more.value);
  }

  /** One entry: a file is listed, a directory is gone into. */
  method ListEntry(share: Share, key: Path, entry: DirEntry, ghost around: seq<Path>) returns (r: Result<seq<Listed>>)
    requires IsTree(share.nodes) && InTime(share.nodes, around, key) && IsDir(share.nodes, key)
    requires key + [entry.name] in share.nodes && (entry.isDir <==> share.nodes[key + [entry.name]].Dir?)
    modifies share`faulted
    ensures r.Ok? ==> GatheredOne(share.nodes, key, entry.name, r.value) && SubListable(share.nodes, key, entry)
    ensures r.Ok? && DirsKept(share.nodes, key) ==> FilesBelow(share.nodes, key + [entry.name], r.value)
    ensures r.Err? ==> share.faulted || !AllListable(share.nodes, key)
    ensures old(share.faulted) ==> share.faulted
    decreases |share.nodes.Keys| + 2 - |around|, 0
  {
    var child := key + [entry.name];
    if !entry.isDir {
      OneFile(share.nodes, child);
      GatherFile(share.nodes, key, entry.name);
      return Ok([ListedAs(share.nodes, child)]);
    }
    GoOn(share.nodes, around, key, entry.name);
    r := ListFilesRecursive(share, Paths.Rel(child), around + [key]);
    if r.Ok? {
      GatherNested(share.nodes, key, entry.name, r.value);
    }
    if DirsKept(share.nodes, key) {
      DirsKeptBelow(share.nodes, key, entry.name);
    }
  }

  /** The call for a directory in `key` is one more in the chain. */
  lemma GoOn(nodes: Nodes, around: seq<Path>, key: Path, name: string)
    requires InTime(nodes, around, key) && IsDir(nodes, key) && IsSub(nodes, key, name)
    ensures |around| < |nodes.Keys| + 2
    ensures KeyOf(Paths.Rel(key + [name])).Ok? ==> InTime(nodes, around + [key], KeyOf(Paths.Rel(key + [name])).value)
    ensures AllListable(nodes, key) ==>
      KeyOf(Paths.Rel(key + [name])).Ok? && AllListable(nodes, KeyOf(Paths.Rel(key + [name])).value)
  {
    var keys := around + [key];
    assert ChainFrom(nodes, keys[0], keys);
    EndsSoon(nodes, keys[0], keys);
    if KeyOf(Paths.Rel(key + [name])).Ok? {
      var next := KeyOf(Paths.Rel(key + [name])).value;
      assert LeadsBy(nodes, key, name, next);
      ChainSnoc(nodes, keys, next);
      if AllListable(nodes, key) {
        ListableBelow(nodes, key, name, next);
      }
    } else {
      ReachedSelf(nodes, key);
      assert AllListable(nodes, key) ==> Listable(nodes, key);
    }
  }

  /** At the first call there is none around it. */
  lemma FirstCall(nodes: Nodes, key: Path)
    requires Ends(nodes, key)
    ensures InTime(nodes, [], key)
  {
    assert [] + [key] == [key];
  }

  /* ---------- Where every directory is found again ---------- */

  /** Then calls go down only, one directory at a time. */
  lemma KeptLeadsDown(nodes: Nodes, top: Path, key: Path, next: Path)
    requires DirsKept(nodes, top) && UpTo(top, key) && Leads(nodes, key, next)
    ensures |next| == |key| + 1 && UpTo(key, next) && UpTo(top, next) && next in nodes && nodes[next].Dir?
  {
    var name :| LeadsBy(nodes, key, name, next);
    assert UpTo(top, key + [name]) && key + [name] != top;
    assert Kept(key + [name]);
  }

  lemma {:induction false} KeptChain(nodes: Nodes, top: Path, keys: seq<Path>, i: nat, j: nat)
    requires DirsKept(nodes, top) && ChainFrom(nodes, top, keys) && i <= j < |keys|
    ensures UpTo(top, keys[j]) && |keys[j]| == |keys[i]| + (j - i)
    ensures j > 0 ==> keys[j] in nodes && nodes[keys[j]].Dir?
    decreases j
  {
    if j > 0 {
      KeptChain(nodes, top, keys, if i < j then i else j - 1, j - 1);
      ChainStep(nodes, keys, j - 1);
      KeptLeadsDown(nodes, top, keys[j - 1], keys[j]);
    }
  }

  /** So the listing ends. */
  lemma KeptEnds(nodes: Nodes, key: Path)
    requires DirsKept(nodes, key)
    ensures Ends(nodes, key)
  {
    forall keys | ChainFrom(nodes, key, keys)
      ensures Distinct(keys)
    {
      forall i, j | 0 <= i < j < |keys|
        ensures keys[i] != keys[j]
      {
        KeptChain(nodes, key, keys, i, j);
      }
    }
  }

  lemma KeptReaches(nodes: Nodes, key: Path, dir: Path)
    requires IsTree(nodes) && DirsKept(nodes, key) && IsDir(nodes, key)
    ensures Reached(nodes, key, dir) <==> UpTo(key, dir) && IsDir(nodes, dir)
  {
    if Reached(nodes, key, dir) {
      var keys :| ChainFrom(nodes, key, keys) && keys[|keys| - 1] == dir;
      KeptChain(nodes, key, keys, 0, |keys| - 1);
    }
    if UpTo(key, dir) && IsDir(nodes, dir) {
      KeptComesTo(nodes, key, dir);
    }
  }

  lemma {:induction false} KeptComesTo(nodes: Nodes, key: Path, dir: Path)
    requires IsTree(nodes) && DirsKept(nodes, key) && UpTo(key, dir) && IsDir(nodes, key) && IsDir(nodes, dir)
    ensures Reached(nodes, key, dir)
    decreases |dir|
  {
    ReachedSelf(nodes, key);
    if dir != key {
      var parent := dir[..|dir| - 1];
      assert InDir(nodes, dir);
      KeptComesTo(nodes, key, parent);
      KeptLeads(nodes, key, dir);
      ReachedSnoc(nodes, key, parent, dir);
    }
  }

  lemma KeptLeads(nodes: Nodes, key: Path, dir: Path)
    requires IsTree(nodes) && DirsKept(nodes, key) && Above(key, dir) && dir in nodes && nodes[dir].Dir?
    ensures Leads(nodes, dir[..|dir| - 1], dir)
  {
    var parent, name := dir[..|dir| - 1], dir[|dir| - 1];
    assert InDir(nodes, dir) && parent + [name] == dir && Kept(dir);
    assert LeadsBy(nodes, parent, name, dir);
  }

  /** And it comes to all files below, and to nothing else. */
  lemma KeptFilesReached(nodes: Nodes, key: Path, p: Path)
    requires IsTree(nodes) && DirsKept(nodes, key) && IsDir(nodes, key)
    ensures FileReached(nodes, key, p) <==> IsFile(nodes, p) && UpTo(key, p)
  {
    if IsFile(nodes, p) {
      var parent := p[..|p| - 1];
      KeptReaches(nodes, key, parent);
      assert InDir(nodes, p) && parent + [p[|p| - 1]] == p;
      UpToStep(key, parent, p[|p| - 1]);
    }
  }

  lemma KeptAllListable(nodes: Nodes, key: Path)
    requires IsTree(nodes) && DirsKept(nodes, key) && IsDir(nodes, key)
    ensures AllListable(nodes, key)
  {
    forall dir | Reached(nodes, key, dir)
      ensures Listable(nodes, dir)
    {
      KeptReaches(nodes, key, dir);
      forall name | IsSub(nodes, dir, name)
        ensures KeyOf(Paths.Rel(dir + [name])).Ok?
      {
        assert UpTo(key, dir + [name]) && dir + [name] != key;
        assert Kept(dir + [name]);
      }
    }
  }

  /* ---------- Where the listing does not end ---------- */

  /** One directory that leads back to what it lies in is enough. */
  lemma ReturningNeverEnds(nodes: Nodes, key: Path, dir: Path, name: string)
    requires Reached(nodes, key, dir) && IsDir(nodes, dir) && LeadsBy(nodes, dir, name, dir)
    ensures !Ends(nodes, key)
  {
    var keys :| ChainFrom(nodes, key, keys) && keys[|keys| - 1] == dir;
    assert Leads(nodes, dir, dir);
    ChainSnoc(nodes, keys, dir);
    var longer := keys + [dir];
    assert ChainFrom(nodes, key, longer) && longer[|keys| - 1] == longer[|keys|];
  }

  /** A path that does not begin with white space, and has no backslash: what is trimmed or cut off is at its end. */
  predicate Steady(key: Path) {
    && Paths.AreNames(key) && key != [] && !Text.IsSpace(key[0][0])
    && forall i :: 0 <= i < |key| ==> '\\' !in key[i]
  }

  lemma SteadyIff(key: Path)
    requires Paths.AreNames(key) && key != []
    ensures Steady(key) <==> '\\' !in Paths.Rel(key) && !Text.IsSpace(Paths.Rel(key)[0])
  {
    Paths.RelEdges(key);
    if Steady(key) {
      Paths.NoBackslash(key);
    } else if '\\' !in Paths.Rel(key) {
      Paths.NamesFree(key);
      Text.SplitJoin(key, '/');
      Paths.SplitChars(Paths.Rel(key), '\\');
    }
  }

  function TrimEnd(s: string): string {
    if s != "" && Text.IsSpace(s[|s| - 1]) then TrimEnd(s[..|s| - 1]) else s
  }

  lemma {:induction false} TrimOnlyEnd(head: string, s: string)
    requires head != "" && !Text.IsSpace(head[0]) && !Text.IsSpace(head[|head| - 1])
    ensures Text.TrimSpace(head + s) == head + TrimEnd(s)
    decreases |s|
  {
    if s == "" {
      assert head + s == head;
    } else if Text.IsSpace(s[|s| - 1]) {
      assert (head + s)[..|head + s| - 1] == head + s[..|s| - 1];
      TrimOnlyEnd(head, s[..|s| - 1]);
    }
  }

  /** The names that an entry's name is taken for, behind such a path. */
  function EntryNames(name: string): seq<string> {
    Paths.Real(Text.Split(TrimEnd(Paths.Slashes(name)), '/'))
  }

  lemma SlashesJoin(a: string, b: string)
    requires '\\' !in a
    ensures Paths.Slashes(a + "/" + b) == a + "/" + Paths.Slashes(b)
  {
  }

  /** What is left of the text of an entry's path. */
  lemma SteadyText(key: Path, name: string)
    requires Steady(key)
    ensures Text.TrimSpace(Paths.Slashes(Paths.Rel(key + [name]))) == Paths.Rel(key) + "/" + TrimEnd(Paths.Slashes(name))
  {
    var text := Paths.Rel(key);
    SteadyIff(key);
    Paths.RelEdges(key);
    Text.JoinAppend(key, [name], '/');
    assert Paths.Rel(key + [name]) == text + "/" + name;
    SlashesJoin(text, name);
    TrimOnlyEnd(text + "/", Paths.Slashes(name));
    assert (text + "/") + Paths.Slashes(name) == text + "/" + Paths.Slashes(name);
  }

  lemma SteadyParts(key: Path, rest: string)
    requires Steady(key)
    ensures Text.Split(Paths.Rel(key) + "/" + rest, '/') == key + Text.Split(rest, '/')
    ensures Paths.Real(key + Text.Split(rest, '/')) == key + Paths.Real(Text.Split(rest, '/'))
  {
    var text := Paths.Rel(key);
    assert text + "/" + rest == text + ['/'] + rest;
    Text.SplitConcat(text, rest, '/');
    Paths.NamesFree(key);
    Text.SplitJoin(key, '/');
    Paths.RealAppend(key, Text.Split(rest, '/'));
    Paths.RealOfNames(key);
  }

  /** Where an entry of such a directory leads: below it, or back to it when its name is all dots and slashes. */
  lemma SteadyKey(key: Path, name: string)
    requires Steady(key)
    ensures var next := KeyOf(Paths.Rel(key + [name])); next.Ok? ==> next.value == key + EntryNames(name)
    ensures EntryNames(name) == [] ==> KeyOf(Paths.Rel(key + [name])) == Ok(key)
  {
    var rest := TrimEnd(Paths.Slashes(name));
    SteadyText(key, name);
    SteadyParts(key, rest);
    Paths.NamesFree(key);
    if ".." !in key + Text.Split(rest, '/') {
      SteadyAccepted(key, rest);
    } else {
      RealKeepsDots(Text.Split(rest, '/'));
    }
    assert key + [] == key;
  }

  lemma {:induction false} RealKeepsDots(parts: seq<string>)
    requires ".." in parts
    ensures Paths.Real(parts) != []
  {
    if parts[0] != ".." {
      RealKeepsDots(parts[1..]);
    }
  }

  lemma SteadyAccepted(key: Path, rest: string)
    requires Steady(key) && ".." !in key + Text.Split(rest, '/')
    requires Text.Split(Paths.Rel(key) + "/" + rest, '/') == key + Text.Split(rest, '/')
    requires Paths.Real(key + Text.Split(rest, '/')) == key + Paths.Real(Text.Split(rest, '/'))
    ensures Paths.RelativeOfText(Paths.Rel(key) + "/" + rest) == Ok(Paths.Rel(key + Paths.Real(Text.Split(rest, '/'))))
    ensures Paths.Names(Paths.Rel(key + Paths.Real(Text.Split(rest, '/')))) == key + Paths.Real(Text.Split(rest, '/'))
  {
    var text := Paths.Rel(key) + "/" + rest;
    Text.SplitFree(rest, '/');
    Paths.RealNames(Text.Split(rest, '/'));
    Paths.NamesOfRel(key + Paths.Real(Text.Split(rest, '/')));
    Paths.RelEdges(key);
    assert text != "" && text != "." by {
      assert |text| > |Paths.Rel(key)| >= 1;
    }
  }

  /** What it leads to is such a path again. */
  lemma SteadyNext(key: Path, name: string, next: Path)
    requires Steady(key) && KeyOf(Paths.Rel(key + [name])) == Ok(next)
    ensures Steady(next) && UpTo(key, next) && (next == key <==> EntryNames(name) == [])
  {
    SteadyKey(key, name);
    KeyHasNames(Paths.Rel(key + [name]));
    Paths.AcceptedIsNormal(Paths.Rel(key + [name]));
    Paths.AcceptedHasNoBackslash(Paths.Rel(key + [name]));
    assert next[0] == key[0];
    Paths.RelEdges(key);
    Paths.RelEdges(next);
    SteadyIff(key);
    SteadyIff(next);
  }

  /** Such a path, at or below `top`. */
  predicate SteadyBelow(top: Path, key: Path) { Steady(key) && UpTo(top, key) }

  lemma SteadyLeads(nodes: Nodes, top: Path, key: Path, next: Path)
    requires SteadyBelow(top, key) && Leads(nodes, key, next)
    ensures SteadyBelow(top, next)
  {
    var name :| LeadsBy(nodes, key, name, next);
    SteadyNext(key, name, next);
    UpToTransitive(top, key, next);
  }

  lemma {:induction false} SteadyChain(nodes: Nodes, keys: seq<Path>, i: nat, j: nat)
    requires Chain(nodes, keys) && i <= j < |keys| && SteadyBelow(keys[i], keys[i])
    ensures SteadyBelow(keys[i], keys[j])
    decreases j
  {
    if i < j {
      SteadyChain(nodes, keys, i, j - 1);
      ChainStep(nodes, keys, j - 1);
      SteadyLeads(nodes, keys[i], keys[j - 1], keys[j]);
    }
  }

  /** There is a directory `name` in `dir` whose name is all dots, slashes and backslashes, with white space behind. */
  predicate HasReturn(nodes: Nodes, dir: Path, name: string) {
    IsSub(nodes, dir, name) && EntryNames(name) == []
  }

  ghost predicate NoReturn(nodes: Nodes, key: Path) {
    forall dir, name :: Reached(nodes, key, dir) && IsDir(nodes, dir) ==> !HasReturn(nodes, dir, name)
  }

  /**
   For a directory that is found under its own path, the listing ends exactly when no directory that it comes to
   has one in it whose name is taken for no name.
   */
  lemma EndsIffNoReturn(nodes: Nodes, key: Path)
    requires Kept(key) && key != []
    ensures Ends(nodes, key) <==> NoReturn(nodes, key)
  {
    KeptIff(key);
    Paths.RelEdges(key);
    SteadyIff(key);
    if dir, name :| Reached(nodes, key, dir) && IsDir(nodes, dir) && HasReturn(nodes, dir, name) {
      SteadyReached(nodes, key, dir);
      SteadyKey(dir, name);
      ReturningNeverEnds(nodes, key, dir, name);
    }
    if NoReturn(nodes, key) {
      NoReturnEnds(nodes, key);
    }
  }

  lemma SteadyReached(nodes: Nodes, key: Path, dir: Path)
    requires Steady(key) && Reached(nodes, key, dir)
    ensures Steady(dir)
  {
    var keys :| ChainFrom(nodes, key, keys) && keys[|keys| - 1] == dir;
    SteadyChain(nodes, keys, 0, |keys| - 1);
  }

  lemma NoReturnEnds(nodes: Nodes, key: Path)
    requires Steady(key) && NoReturn(nodes, key)
    ensures Ends(nodes, key)
  {
    forall keys | ChainFrom(nodes, key, keys)
      ensures Distinct(keys)
    {
      forall i, j | 0 <= i < j < |keys|
        ensures keys[i] != keys[j]
      {
        NoReturnDistinct(nodes, key, keys, i, j);
      }
    }
  }

  lemma ReachedAt(nodes: Nodes, key: Path, keys: seq<Path>, i: nat)
    requires ChainFrom(nodes, key, keys) && i < |keys|
    ensures Reached(nodes, key, keys[i])
  {
    var part := keys[0..i + 1];
    ChainPart(nodes, keys, 0, i + 1);
    assert ChainFrom(nodes, key, part) && part[|part| - 1] == keys[i];
  }

  lemma NoReturnDistinct(nodes: Nodes, key: Path, keys: seq<Path>, i: nat, j: nat)
    requires Steady(key) && NoReturn(nodes, key) && ChainFrom(nodes, key, keys) && i < j < |keys|
    ensures keys[i] != keys[j]
  {
    ReachedAt(nodes, key, keys, i);
    SteadyReached(nodes, key, keys[i]);
    ChainStep(nodes, keys, i);
    LeadsLower(nodes, key, keys[i], keys[i + 1]);
    SteadyChain(nodes, keys, i + 1, j);
  }

  lemma LeadsLower(nodes: Nodes, key: Path, dir: Path, next: Path)
    requires Steady(dir) && NoReturn(nodes, key) && Reached(nodes, key, dir) && Leads(nodes, dir, next)
    ensures Steady(next) && |next| > |dir|
  {
    var name :| LeadsBy(nodes, dir, name, next);
    SteadyNext(dir, name, next);
    assert !HasReturn(nodes, dir, name);
  }

  /** Blank names are like that, and so are a backslash and a dot with a space. */
  lemma SomeReturn(name: string)
    requires IsBlank(name) || name == "\\" || name == ". "
    ensures EntryNames(name) == []
  {
    if IsBlank(name) {
      assert Paths.Slashes(name) == name;
      TrimEndBlank(name);
      assert Text.Split("", '/') == [""];
      assert Paths.Real([""]) == [];
    } else if name == "\\" {
      assert Paths.Slashes(name) == "/" && TrimEnd("/") == "/";
      assert "/"[1..] == "" && Text.Split("", '/') == [""];
      assert Text.Split("/", '/') == ["", ""];
      assert ["", ""][1..] == [""] && [""][1..] == [];
    } else {
      assert Paths.Slashes(name) == ". " && ". "[..1] == ".";
      assert TrimEnd(". ") == TrimEnd(".") == ".";
      Text.SplitNoSep(".", '/');
      assert ["."][1..] == [];
    }
  }

  predicate IsBlank(name: string) {
    name != "" && forall i :: 0 <= i < |name| ==> Text.IsSpace(name[i])
  }

  lemma {:induction false} TrimEndBlank(name: string)
    requires forall i :: 0 <= i < |name| ==> Text.IsSpace(name[i])
    ensures TrimEnd(name) == ""
  {
    if name != "" {
      TrimEndBlank(name[..|name| - 1]);
    }
  }

  lemma {:induction false} TrimAllBlank(name: string)
    requires forall i :: 0 <= i < |name| ==> Text.IsSpace(name[i])
    ensures Text.TrimSpace(name) == ""
  {
    if name != "" {
      TrimAllBlank(name[1..]);
    }
  }

  /** In the root, a directory with a blank name is enough too. */
  lemma BlankInRootNeverEnds(nodes: Nodes, name: string)
    requires IsBlank(name) && IsSub(nodes, [], name)
    ensures !Ends(nodes, [])
  {
    assert [] + [name] == [name] && Paths.Rel([name]) == name && Paths.Slashes(name) == name;
    TrimAllBlank(name);
    ReachedSelf(nodes, []);
    ReturningNeverEnds(nodes, [], [], name);
  }

  /* ---------- What a source names ---------- */

  /** The files to mirror: those below a directory, or the one file that the source names. */
  method CollectSourceFiles(share: Share, source: Path) returns (r: Result<seq<Listed>>)
    requires IsTree(share.nodes) && Kept(source) && Ends(share.nodes, source)
    modifies share`faulted
    ensures r.Ok? ==> IsFile(share.nodes, source) || IsDir(share.nodes, source)
    ensures r.Ok? && IsFile(share.nodes, source) ==> r.value == [ListedAs(share.nodes, source)]
    ensures r.Ok? && !IsFile(share.nodes, source) ==> ListsReached(share.nodes, source, r.value)
    ensures r.Ok? && DirsKept(share.nodes, source) ==> FilesBelow(share.nodes, source, r.value)
    ensures r.Err? ==>
      share.faulted || Lookup(share.nodes, source) == Err(NotFound) ||
      (IsDir(share.nodes, source) && !AllListable(share.nodes, source))
    ensures old(share.faulted) ==> share.faulted
  {
    var text := Paths.Rel(source);
    FirstCall(share.nodes, source);
    if source == [] {
      r := ListFilesRecursive(share, "", []);
      return;
    }
    var entry := Stat(share, text);
    if entry.Err? {
      return Err(entry.error);
    }
    if !entry.value.Dir? {
      OneFile(share.nodes, source);
      return Ok([Listed(source, |entry.value.data|, entry.value.modTime)]);
    }
    r := ListFilesRecursive(share, text, []);
  }
}
