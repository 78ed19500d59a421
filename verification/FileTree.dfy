/**
 The tree that the web interface shows of a torrent's files: built from the files' paths, sorted, and read
 back as the files' indexes. Nodes are values here; the interface builds them in place.
 */
module FileTrees {
  import opened Text

  datatype BTFile = BTFile(index: int, path: string)

  datatype Node =
    | Directory(name: string, path: string, children: seq<Node>)
    | File(name: string, path: string, file: BTFile)

  /** A file by where it is and its index. */
  datatype Entry = Entry(place: seq<string>, index: int)

  function Slashed(path: string): string { ReplaceAll(path, '\\', '/') }

  function NonEmpty(parts: seq<string>): seq<string> {
    if parts == [] then []
    else if parts[0] == "" then NonEmpty(parts[1..])
    else [parts[0]] + NonEmpty(parts[1..])
  }

  function Parts(file: BTFile): seq<string> { PartsOf(file.path) }

  /** The names on a path, whichever slashes are between them, and however many. */
  function PartsOf(path: string): seq<string> { NonEmpty(Split(Slashed(path), '/')) }

  lemma {:induction false} NonEmptyConcat(a: seq<string>, b: seq<string>)
    ensures NonEmpty(a + b) == NonEmpty(a) + NonEmpty(b)
  {
    if a == [] {
      assert a + b == b;
    } else {
      assert (a + b)[1..] == a[1..] + b;
      NonEmptyConcat(a[1..], b);
    }
  }

  /** A path is taken apart at both kinds of slash, and a name without any is its only part. */
  lemma PartsConcat(a: string, b: string, slash: char)
    requires slash == '/' || slash == '\\'
    ensures PartsOf(a + [slash] + b) == PartsOf(a) + PartsOf(b)
    ensures '/' !in a && '\\' !in a ==> PartsOf(a) == if a == "" then [] else [a]
  {
    assert Slashed(a + [slash] + b) == Slashed(a) + ['/'] + Slashed(b);
    SplitConcat(Slashed(a), Slashed(b), '/');
    NonEmptyConcat(Split(Slashed(a), '/'), Split(Slashed(b), '/'));
    if '/' !in a && '\\' !in a {
      assert Slashed(a) == a;
      SplitNoSep(a, '/');
      assert [a][1..] == [];
    }
  }

  function Below(prefix: string, part: string): string {
    if prefix == "" then part else prefix + "/" + part
  }

  /* ---------- Building ---------- */

  /** The first directory of this name, or the number of children if there is none. */
  function Find(children: seq<Node>, name: string): (k: nat)
    ensures k <= |children|
    ensures k < |children| ==> children[k].Directory? && children[k].name == name
    ensures forall i :: 0 <= i < k ==> !(children[i].Directory? && children[i].name == name)
  {
    if children == [] then 0
    else if children[0].Directory? && children[0].name == name then 0
    else 1 + Find(children[1..], name)
  }

  function Insert(children: seq<Node>, prefix: string, parts: seq<string>, file: BTFile): seq<Node>
    requires parts != []
    decreases |parts|
  {
    if |parts| == 1 then children + [File(parts[0], Slashed(file.path), file)]
    else
      var path, k := Below(prefix, parts[0]), Find(children, parts[0]);
      if k < |children| then
        children[k := children[k].(children := Insert(children[k].children, path, parts[1..], file))]
      else
        children + [Directory(parts[0], path, Insert([], path, parts[1..], file))]
  }

  function InsertFile(children: seq<Node>, file: BTFile): seq<Node> {
    if Parts(file) == [] then children else Insert(children, "", Parts(file), file)
  }

  function Build(files: seq<BTFile>): seq<Node> {
    if files == [] then [] else InsertFile(Build(files[..|files| - 1]), files[|files| - 1])
  }

  /* ---------- Reading back ---------- */

  function CollectFileIndexes(node: Node): seq<int>
    decreases node, 1
  {
    match node
    case File(_, _, file) => [file.index]
    case Directory(_, _, children) => CollectAll(children)
  }

  function CollectAll(children: seq<Node>): seq<int>
    decreases children, 0
  {
    if children == [] then [] else CollectFileIndexes(children[0]) + CollectAll(children[1..])
  }

  /** The files of a tree, each under the names of the directories above it and its own. */
  function Entries(children: seq<Node>, above: seq<string>): seq<Entry>
    decreases children
  {
    if children == [] then []
    else EntriesOf(children[0], above) + Entries(children[1..], above)
  }

  function EntriesOf(node: Node, above: seq<string>): seq<Entry>
    decreases node
  {
    match node
    case File(name, _, file) => [Entry(above + [name], file.index)]
    case Directory(name, _, children) => Entries(children, above + [name])
  }

  /** Sibling directories have different names, and each directory's path is its parent's with its name. */
  predicate WellFormed(children: seq<Node>, prefix: string)
    decreases children
  {
    && (forall i, j :: 0 <= i < j < |children| && children[i].Directory? && children[j].Directory? ==>
          children[i].name != children[j].name)
    && forall i :: 0 <= i < |children| ==> NodeOk(children[i], prefix)
  }

  predicate NodeOk(node: Node, prefix: string)
    decreases node
  {
    match node
    case File(_, path, file) => path == Slashed(file.path)
    case Directory(name, path, children) =>
      name != "" && path == Below(prefix, name) && children != [] && WellFormed(children, path)
  }

  /* ---------- What building keeps ---------- */

  /** The entries without their order. */
  ghost function Bag(children: seq<Node>, above: seq<string>): multiset<Entry>
    decreases children
  {
    if children == [] then multiset{} else BagOf(children[0], above) + Bag(children[1..], above)
  }

  ghost function BagOf(node: Node, above: seq<string>): multiset<Entry>
    decreases node
  {
    match node
    case File(name, _, file) => multiset{Entry(above + [name], file.index)}
    case Directory(name, _, children) => Bag(children, above + [name])
  }

  lemma {:induction false} BagIsEntries(children: seq<Node>, above: seq<string>)
    ensures Bag(children, above) == multiset(Entries(children, above))
    decreases children
  {
    if children != [] {
      BagOfIsEntries(children[0], above);
      BagIsEntries(children[1..], above);
    }
  }

  lemma {:induction false} BagOfIsEntries(node: Node, above: seq<string>)
    ensures BagOf(node, above) == multiset(EntriesOf(node, above))
    decreases node
  {
    match node {
      case File(_, _, _) =>
      case Directory(name, _, children) => BagIsEntries(children, above + [name]);
    }
  }

  lemma {:induction false} BagAt(before: seq<Node>, node: Node, after: seq<Node>, above: seq<string>)
    ensures Bag(before + [node] + after, above) == Bag(before + after, above) + BagOf(node, above)
  {
    if before == [] {
      assert before + [node] + after == [node] + after && before + after == after;
      assert ([node] + after)[1..] == after;
    } else {
      var rest := before[1..];
      assert (before + [node] + after)[1..] == rest + [node] + after && (before + after)[1..] == rest + after;
      BagAt(rest, node, after, above);
    }
  }

  lemma BagSnoc(children: seq<Node>, node: Node, above: seq<string>)
    ensures Bag(children + [node], above) == Bag(children, above) + BagOf(node, above)
  {
    BagAt(children, node, [], above);
    assert children + [node] + [] == children + [node] && children + [] == children;
  }

  /** A node that gains an entry gains it for the whole list. */
  lemma BagGrows(children: seq<Node>, k: nat, node: Node, above: seq<string>, entry: Entry)
    requires k < |children| && BagOf(node, above) == BagOf(children[k], above) + multiset{entry}
    ensures Bag(children[k := node], above) == Bag(children, above) + multiset{entry}
  {
    var before, after := children[..k], children[k + 1..];
    assert children == before + [children[k]] + after && children[k := node] == before + [node] + after;
    BagAt(before, children[k], after, above);
    BagAt(before, node, after, above);
  }

  /** Inserting a file adds one entry, at the file's own place, and moves no other. */
  lemma {:induction false} InsertAddsEntry(children: seq<Node>, prefix: string, parts: seq<string>, file: BTFile,
                                           above: seq<string>)
    requires parts != []
    ensures Bag(Insert(children, prefix, parts, file), above)
         == Bag(children, above) + multiset{Entry(above + parts, file.index)}
    decreases |parts|
  {
    var name, rest := parts[0], parts[1..];
    if |parts| == 1 {
      assert above + [name] == above + parts;
      BagSnoc(children, File(name, Slashed(file.path), file), above);
    } else {
      assert above + [name] + rest == above + parts;
      var path, k := Below(prefix, name), Find(children, name);
      if k < |children| {
        InsertAddsEntry(children[k].children, path, rest, file, above + [name]);
        var node := children[k].(children := Insert(children[k].children, path, rest, file));
        BagGrows(children, k, node, above, Entry(above + parts, file.index));
      } else {
        InsertAddsEntry([], path, rest, file, above + [name]);
        BagSnoc(children, Directory(name, path, Insert([], path, rest, file)), above);
      }
    }
  }

  /** Paths stay in step with places, and no directory gets a twin. */
  lemma {:induction false} InsertKeepsForm(children: seq<Node>, prefix: string, parts: seq<string>, file: BTFile)
    requires WellFormed(children, prefix) && parts != [] && "" !in parts
    ensures WellFormed(Insert(children, prefix, parts, file), prefix) && Insert(children, prefix, parts, file) != []
    decreases |parts|
  {
    if |parts| > 1 {
      var path, k := Below(prefix, parts[0]), Find(children, parts[0]);
      if k < |children| {
        assert NodeOk(children[k], prefix);
        InsertKeepsForm(children[k].children, path, parts[1..], file);
      } else {
        InsertKeepsForm([], path, parts[1..], file);
      }
    }
  }

  lemma {:induction false} NoEmptyParts(parts: seq<string>)
    ensures "" !in NonEmpty(parts)
  {
    if parts != [] {
      NoEmptyParts(parts[1..]);
    }
  }

  /** The files that have a place in the tree, in the order given. */
  function Placed(files: seq<BTFile>): seq<Entry> {
    if files == [] then []
    else
      var init, last := files[..|files| - 1], files[|files| - 1];
      Placed(init) + if Parts(last) == [] then [] else [Entry(Parts(last), last.index)]
  }

  lemma {:induction false} BuildKeepsFiles(files: seq<BTFile>)
    ensures Bag(Build(files), []) == multiset(Placed(files))
    ensures WellFormed(Build(files), "")
  {
    if files != [] {
      var init, last := files[..|files| - 1], files[|files| - 1];
      BuildKeepsFiles(init);
      if Parts(last) != [] {
        NoEmptyParts(Split(Slashed(last.path), '/'));
        InsertAddsEntry(Build(init), "", Parts(last), last, []);
        InsertKeepsForm(Build(init), "", Parts(last), last);
        assert [] + Parts(last) == Parts(last);
      }
    }
  }

  /* ---------- Sorting ---------- */

  /** `rank` orders names as the browser's collation does, where different names may rank the same. */
  predicate ComesBefore(rank: string -> real, left: Node, right: Node) {
    if left.Directory? != right.Directory? then left.Directory? else rank(left.name) < rank(right.name)
  }

  function PlaceIn(rank: string -> real, sorted: seq<Node>, node: Node): seq<Node> {
    if sorted == [] then [node]
    else if ComesBefore(rank, node, sorted[0]) then [node] + sorted
    else [sorted[0]] + PlaceIn(rank, sorted[1..], node)
  }

  /** A stable sort of the children and of all below them. */
  function SortTree(rank: string -> real, children: seq<Node>): seq<Node>
    decreases children
  {
    if children == [] then []
    else
      var last := children[|children| - 1];
      PlaceIn(rank, SortTree(rank, children[..|children| - 1]), SortNode(rank, last))
  }

  function SortNode(rank: string -> real, node: Node): Node
    decreases node
  {
    match node
    case File(_, _, _) => node
    case Directory(name, path, children) => Directory(name, path, SortTree(rank, children))
  }

  /** No node comes before one that stands left of it, here and below. */
  predicate IsSorted(rank: string -> real, children: seq<Node>)
    decreases children
  {
    && (forall i, j :: 0 <= i < j < |children| ==> !ComesBefore(rank, children[j], children[i]))
    && forall i :: 0 <= i < |children| && children[i].Directory? ==> IsSorted(rank, children[i].children)
  }

  lemma {:induction false} PlaceInAt(rank: string -> real, sorted: seq<Node>, node: Node) returns (k: nat)
    ensures k <= |sorted| && PlaceIn(rank, sorted, node) == sorted[..k] + [node] + sorted[k..]
    ensures forall i :: 0 <= i < k ==> !ComesBefore(rank, node, sorted[i])
    ensures k < |sorted| ==> ComesBefore(rank, node, sorted[k])
  {
    if sorted == [] || ComesBefore(rank, node, sorted[0]) {
      k := 0;
    } else {
      var j := PlaceInAt(rank, sorted[1..], node);
      k := j + 1;
      assert sorted[..k] == [sorted[0]] + sorted[1..][..j] && sorted[k..] == sorted[1..][j..];
    }
  }

  lemma BagPlaced(rank: string -> real, sorted: seq<Node>, node: Node, above: seq<string>)
    ensures Bag(PlaceIn(rank, sorted, node), above) == Bag(sorted, above) + BagOf(node, above)
  {
    var k := PlaceInAt(rank, sorted, node);
    BagAt(sorted[..k], node, sorted[k..], above);
    assert sorted[..k] + sorted[k..] == sorted;
  }

  lemma SortStepKeepsBag(rank: string -> real, init: seq<Node>, last: Node, sorted: seq<Node>, node: Node,
                         above: seq<string>)
    requires Bag(sorted, above) == Bag(init, above) && BagOf(node, above) == BagOf(last, above)
    ensures Bag(PlaceIn(rank, sorted, node), above) == Bag(init + [last], above)
  {
    BagPlaced(rank, sorted, node, above);
    BagSnoc(init, last, above);
  }

  lemma SortTreeStep(rank: string -> real, children: seq<Node>)
    requires children != []
    ensures var init, last := children[..|children| - 1], children[|children| - 1];
      && SortTree(rank, children) == PlaceIn(rank, SortTree(rank, init), SortNode(rank, last))
      && init + [last] == children
  {
  }

  /** Sorting moves no file to another place. */
  lemma {:induction false} SortKeepsBag(rank: string -> real, children: seq<Node>, above: seq<string>)
    ensures Bag(SortTree(rank, children), above) == Bag(children, above)
    decreases children
  {
    if children != [] {
      var init, last := children[..|children| - 1], children[|children| - 1];
      SortKeepsBag(rank, init, above);
      SortNodeKeepsBag(rank, last, above);
      SortStepKeepsBag(rank, init, last, SortTree(rank, init), SortNode(rank, last), above);
      SortTreeStep(rank, children);
    }
  }

  lemma {:induction false} SortNodeKeepsBag(rank: string -> real, node: Node, above: seq<string>)
    ensures BagOf(SortNode(rank, node), above) == BagOf(node, above)
    decreases node
  {
    match node {
      case File(_, _, _) =>
      case Directory(name, _, children) => SortKeepsBag(rank, children, above + [name]);
    }
  }

  /** No directory in the list has this name. */
  predicate NoDirectory(children: seq<Node>, name: string) {
    forall i :: 0 <= i < |children| && children[i].Directory? ==> children[i].name != name
  }

  lemma PlaceInKeepsForm(rank: string -> real, sorted: seq<Node>, node: Node, prefix: string)
    requires WellFormed(sorted, prefix) && NodeOk(node, prefix)
    requires node.Directory? ==> NoDirectory(sorted, node.name)
    ensures WellFormed(PlaceIn(rank, sorted, node), prefix)
  {
    var k := PlaceInAt(rank, sorted, node);
    var placed := PlaceIn(rank, sorted, node);
    forall i | 0 <= i < |placed|
      ensures placed[i] == if i < k then sorted[i] else if i == k then node else sorted[i - 1]
    {
    }
  }

  lemma PlaceInNoDirectory(rank: string -> real, sorted: seq<Node>, node: Node, name: string)
    requires NoDirectory(sorted, name) && (node.Directory? ==> node.name != name)
    ensures NoDirectory(PlaceIn(rank, sorted, node), name)
  {
    var k := PlaceInAt(rank, sorted, node);
  }

  lemma {:induction false} SortNoDirectory(rank: string -> real, children: seq<Node>, name: string)
    requires NoDirectory(children, name)
    ensures NoDirectory(SortTree(rank, children), name)
  {
    if children != [] {
      var init, last := children[..|children| - 1], children[|children| - 1];
      SortNoDirectory(rank, init, name);
      PlaceInNoDirectory(rank, SortTree(rank, init), SortNode(rank, last), name);
    }
  }

  /** Sorting keeps directories unique and paths in step. */
  lemma {:induction false} SortKeepsForm(rank: string -> real, children: seq<Node>, prefix: string)
    requires WellFormed(children, prefix)
    ensures WellFormed(SortTree(rank, children), prefix)
    decreases children
  {
    if children != [] {
      var init, last := children[..|children| - 1], children[|children| - 1];
      SortKeepsForm(rank, init, prefix);
      assert NodeOk(last, prefix);
      SortNodeKeepsForm(rank, last, prefix);
      if last.Directory? {
        SortNoDirectory(rank, init, last.name);
      }
      PlaceInKeepsForm(rank, SortTree(rank, init), SortNode(rank, last), prefix);
    }
  }

  lemma {:induction false} SortNodeKeepsForm(rank: string -> real, node: Node, prefix: string)
    requires NodeOk(node, prefix)
    ensures NodeOk(SortNode(rank, node), prefix)
    decreases node
  {
    match node {
      case File(_, _, _) =>
      case Directory(_, path, children) =>
        SortKeepsForm(rank, children, path);
        SortNotEmpty(rank, children);
    }
  }

  lemma SortNotEmpty(rank: string -> real, children: seq<Node>)
    requires children != []
    ensures SortTree(rank, children) != []
  {
  }

  lemma PlaceInSorts(rank: string -> real, sorted: seq<Node>, node: Node)
    requires IsSorted(rank, sorted) && (node.Directory? ==> IsSorted(rank, node.children))
    ensures IsSorted(rank, PlaceIn(rank, sorted, node))
  {
    var k := PlaceInAt(rank, sorted, node);
    var placed := PlaceIn(rank, sorted, node);
    forall i | 0 <= i < |placed|
      ensures placed[i] == if i < k then sorted[i] else if i == k then node else sorted[i - 1]
    {
    }
  }

  lemma {:induction false} SortSorts(rank: string -> real, children: seq<Node>)
    ensures IsSorted(rank, SortTree(rank, children))
    decreases children
  {
    if children != [] {
      var init, last := children[..|children| - 1], children[|children| - 1];
      SortSorts(rank, init);
      SortNodeSorts(rank, last);
      PlaceInSorts(rank, SortTree(rank, init), SortNode(rank, last));
    }
  }

  lemma {:induction false} SortNodeSorts(rank: string -> real, node: Node)
    ensures node.Directory? ==> IsSorted(rank, SortNode(rank, node).children)
    decreases node
  {
    match node {
      case File(_, _, _) =>
      case Directory(_, _, children) => SortSorts(rank, children);
    }
  }

  /* ---------- The whole ---------- */

  function Indexes(entries: seq<Entry>): seq<int> {
    if entries == [] then [] else [entries[0].index] + Indexes(entries[1..])
  }

  lemma {:induction false} IndexesAppend(a: seq<Entry>, b: seq<Entry>)
    ensures Indexes(a + b) == Indexes(a) + Indexes(b)
  {
    if a == [] {
      assert a + b == b;
    } else {
      assert (a + b)[1..] == a[1..] + b;
      IndexesAppend(a[1..], b);
    }
  }

  lemma {:induction false} CollectIsIndexes(children: seq<Node>, above: seq<string>)
    ensures CollectAll(children) == Indexes(Entries(children, above))
    decreases children
  {
    if children != [] {
      CollectNodeIsIndexes(children[0], above);
      CollectIsIndexes(children[1..], above);
      IndexesAppend(EntriesOf(children[0], above), Entries(children[1..], above));
    }
  }

  lemma {:induction false} CollectNodeIsIndexes(node: Node, above: seq<string>)
    ensures CollectFileIndexes(node) == Indexes(EntriesOf(node, above))
    decreases node
  {
    match node {
      case File(name, _, file) => assert [Entry(above + [name], file.index)][1..] == [];
      case Directory(name, _, children) => CollectIsIndexes(children, above + [name]);
    }
  }

  lemma MultisetAround<T>(before: seq<T>, x: T, after: seq<T>)
    ensures multiset(before + [x] + after) == multiset(before + after) + multiset{x}
  {
  }

  lemma IndexesAround(before: seq<Entry>, entry: Entry, after: seq<Entry>)
    ensures Indexes(before + [entry] + after) == Indexes(before) + [entry.index] + Indexes(after)
  {
    IndexesAppend(before + [entry], after);
    IndexesAppend(before, [entry]);
    assert [entry][1..] == [];
  }

  lemma IndexBagAround(before: seq<Entry>, entry: Entry, after: seq<Entry>)
    ensures multiset(Indexes(before + [entry] + after)) == multiset(Indexes(before + after)) + multiset{entry.index}
  {
    IndexesAround(before, entry, after);
    IndexesAppend(before, after);
    MultisetAround(Indexes(before), entry.index, Indexes(after));
  }

  lemma SplitAt<T>(s: seq<T>, k: nat)
    requires k < |s|
    ensures s == s[..k] + [s[k]] + s[k + 1..]
  {
  }

  lemma BagCancel(a: multiset<Entry>, b: multiset<Entry>, entry: Entry)
    requires a + multiset{entry} == b + multiset{entry}
    ensures a == b
  {
    forall e: Entry
      ensures a[e] == b[e]
    {
      assert (a + multiset{entry})[e] == (b + multiset{entry})[e];
    }
  }

  lemma {:induction false} SameBagSameIndexes(a: seq<Entry>, b: seq<Entry>)
    requires multiset(a) == multiset(b)
    ensures multiset(Indexes(a)) == multiset(Indexes(b))
  {
    if a == [] {
      assert |multiset(b)| == 0;
    } else {
      assert a == [a[0]] + a[1..] && a[0] in multiset(a);
      var k :| 0 <= k < |b| && b[k] == a[0];
      SplitAt(b, k);
      SameBagStep(a, a[0], a[1..], b, b[..k], b[k + 1..]);
      SameBagSameIndexes(a[1..], b[..k] + b[k + 1..]);
    }
  }

  /** Taking one entry away on both sides. */
  lemma SameBagStep(a: seq<Entry>, entry: Entry, rest: seq<Entry>, b: seq<Entry>, before: seq<Entry>, after: seq<Entry>)
    requires a == [entry] + rest && b == before + [entry] + after && multiset(a) == multiset(b)
    ensures multiset(rest) == multiset(before + after)
    ensures multiset(Indexes(a)) == multiset(Indexes(rest)) + multiset{entry.index}
    ensures multiset(Indexes(b)) == multiset(Indexes(before + after)) + multiset{entry.index}
  {
    assert a == [] + [entry] + rest && [] + rest == rest;
    MultisetAround([], entry, rest);
    MultisetAround(before, entry, after);
    IndexBagAround([], entry, rest);
    IndexBagAround(before, entry, after);
    BagCancel(multiset(rest), multiset(before + after), entry);
  }

  /**
   The tree of a list of files holds exactly the files with a name, each at the place its path gives; its
   directories are unique among their siblings and carry their own paths; it is sorted at every level; and
   the indexes collected from it are those of these files.
   */
  method BuildFileTree(rank: string -> real, files: seq<BTFile>) returns (root: Node)
    ensures root.Directory? && root.name == "" && root.path == ""
    ensures multiset(Entries(root.children, [])) == multiset(Placed(files))
    ensures WellFormed(root.children, "") && IsSorted(rank, root.children)
    ensures multiset(CollectFileIndexes(root)) == multiset(Indexes(Placed(files)))
  {
    var children: seq<Node> := [];
    for i := 0 to |files|
      invariant children == Build(files[..i])
    {
      assert files[..i + 1][..i] == files[..i];
      children := InsertFile(children, files[i]);
    }
    assert files[..|files|] == files;
    BuildKeepsFiles(files);
    SortKeepsBag(rank, children, []);
    SortKeepsForm(rank, children, "");
    SortSorts(rank, children);
    children := SortTree(rank, children);
    BagIsEntries(children, []);
    SameBagSameIndexes(Entries(children, []), Placed(files));
    CollectIsIndexes(children, []);
    root := Directory("", "", children);
  }
}
