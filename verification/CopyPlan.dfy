/**
 The plan of a copy job: the files that its items name, each with its target and its size, and no pair of
 paths twice.
 */
module CopyPlans {
  import opened Storage
  import opened ShareTree
  import opened Backends
  import opened Listings
  import Paths
  import Text

  datatype SyncItem = SyncItem(sourcePath: string, destPath: string)

  /** Paths are given as texts in normal form. */
  datatype Step = Step(sourcePath: string, destPath: string, size: nat)

  /* ---------- Repetitions ---------- */

  function SumSizes(steps: seq<Step>): nat {
    if steps == [] then 0 else SumSizes(steps[..|steps| - 1]) + steps[|steps| - 1].size
  }

  predicate SamePair(a: Step, b: Step) {
    a.sourcePath == b.sourcePath && a.destPath == b.destPath
  }

  predicate HasPair(steps: seq<Step>, step: Step) {
    exists i :: 0 <= i < |steps| && SamePair(steps[i], step)
  }

  /** The steps whose pair of paths occurs for the first time. */
  function Dedupe(steps: seq<Step>): seq<Step> {
    if steps == [] then []
    else
      var init, last := steps[..|steps| - 1], steps[|steps| - 1];
      if HasPair(init, last) then Dedupe(init) else Dedupe(init) + [last]
  }

  /** No NUL in a source path; the targets may have any. */
  predicate NulFree(steps: seq<Step>) {
    forall i :: 0 <= i < |steps| ==> '\0' !in steps[i].sourcePath
  }

  function PairKey(step: Step): string {
    step.sourcePath + ['\0'] + step.destPath
  }

  lemma PairKeyInjective(a: Step, b: Step)
    requires '\0' !in a.sourcePath && '\0' !in b.sourcePath
    ensures PairKey(a) == PairKey(b) <==> SamePair(a, b)
  {
    if PairKey(a) == PairKey(b) {
      FirstNul(a, b);
      FirstNul(b, a);
      assert a.sourcePath == PairKey(a)[..|a.sourcePath|] && b.sourcePath == PairKey(b)[..|b.sourcePath|];
      assert a.destPath == PairKey(a)[|a.sourcePath| + 1..] && b.destPath == PairKey(b)[|b.sourcePath| + 1..];
    }
  }

  lemma FirstNul(a: Step, b: Step)
    requires '\0' !in b.sourcePath && PairKey(a) == PairKey(b)
    ensures |b.sourcePath| <= |a.sourcePath|
  {
    var i := |a.sourcePath|;
    assert PairKey(a)[i] == '\0';
    assert b.sourcePath == PairKey(b)[..|b.sourcePath|];
  }

  predicate HasKey(steps: seq<Step>, step: Step) {
    exists i :: 0 <= i < |steps| && PairKey(steps[i]) == PairKey(step)
  }

  /** The steps whose key occurs for the first time. */
  function DedupeKeys(steps: seq<Step>): seq<Step> {
    if steps == [] then []
    else
      var init, last := steps[..|steps| - 1], steps[|steps| - 1];
      if HasKey(init, last) then DedupeKeys(init) else DedupeKeys(init) + [last]
  }

  /** Without NULs in the source paths keys stand for pairs; a NUL in a target does no harm. */
  lemma {:induction false} KeysArePairs(steps: seq<Step>)
    requires NulFree(steps)
    ensures DedupeKeys(steps) == Dedupe(steps)
  {
    if steps != [] {
      var init, last := steps[..|steps| - 1], steps[|steps| - 1];
      KeysArePairs(init);
      forall k | 0 <= k < |init|
        ensures PairKey(init[k]) == PairKey(last) <==> SamePair(init[k], last)
      {
        PairKeyInjective(init[k], last);
      }
    }
  }

  method DedupeCopySteps(steps: seq<Step>) returns (result: seq<Step>)
    ensures result == DedupeKeys(steps)
    ensures NulFree(steps) ==> result == Dedupe(steps)
  {
    if NulFree(steps) {
      KeysArePairs(steps);
    }
    if |steps| < 2 {
      assert |steps| == 1 ==> steps[..0] == [] && steps == [steps[0]];
      return steps;
    }
    var seen: set<string> := {};
    result := [];
    for i := 0 to |steps|
      invariant result == DedupeKeys(steps[..i])
      invariant seen == set k | 0 <= k < i :: PairKey(steps[k])
    {
      var key := PairKey(steps[i]);
      assert steps[..i + 1][..i] == steps[..i];
      assert key in seen <==> HasKey(steps[..i], steps[i]) by {
        assert forall k :: 0 <= k < i ==> steps[..i][k] == steps[k];
      }
      if key in seen {
        continue;
      }
      seen := seen + {key};
      result := result + [steps[i]];
    }
    assert steps[..|steps|] == steps;
  }

  lemma {:induction false} DedupeFrom(steps: seq<Step>)
    ensures |Dedupe(steps)| <= |steps|
    ensures forall j :: 0 <= j < |Dedupe(steps)| ==> Dedupe(steps)[j] in steps
  {
    if steps != [] {
      DedupeFrom(steps[..|steps| - 1]);
    }
  }

  lemma {:induction false} DedupeCovers(steps: seq<Step>, i: nat)
    requires i < |steps|
    ensures HasPair(Dedupe(steps), steps[i])
    decreases |steps|
  {
    var init, last := steps[..|steps| - 1], steps[|steps| - 1];
    var kept := Dedupe(init);
    if i < |init| {
      DedupeCovers(init, i);
      var j :| 0 <= j < |kept| && SamePair(kept[j], init[i]);
      assert SamePair(Dedupe(steps)[j], steps[i]);
    } else if HasPair(init, last) {
      var k :| 0 <= k < |init| && SamePair(init[k], last);
      DedupeCovers(init, k);
      var j :| 0 <= j < |kept| && SamePair(kept[j], init[k]);
      assert SamePair(Dedupe(steps)[j], steps[i]);
    } else {
      assert SamePair(Dedupe(steps)[|kept|], steps[i]);
    }
  }

  lemma {:induction false} DedupeDistinct(steps: seq<Step>, j: nat, k: nat)
    requires j < k < |Dedupe(steps)|
    ensures !SamePair(Dedupe(steps)[j], Dedupe(steps)[k])
    decreases |steps|
  {
    var init, last := steps[..|steps| - 1], steps[|steps| - 1];
    if k < |Dedupe(init)| {
      DedupeDistinct(init, j, k);
    } else {
      DedupeFrom(init);
      var m :| 0 <= m < |init| && init[m] == Dedupe(init)[j];
    }
  }

  /** Deduplication keeps every pair of paths, once, and adds nothing. */
  lemma DedupeKeepsPairs(steps: seq<Step>)
    ensures forall i :: 0 <= i < |steps| ==> HasPair(Dedupe(steps), steps[i])
    ensures forall j :: 0 <= j < |Dedupe(steps)| ==> Dedupe(steps)[j] in steps
    ensures forall j, k :: 0 <= j < k < |Dedupe(steps)| ==> !SamePair(Dedupe(steps)[j], Dedupe(steps)[k])
  {
    DedupeFrom(steps);
    forall i | 0 <= i < |steps| ensures HasPair(Dedupe(steps), steps[i]) { DedupeCovers(steps, i); }
    forall j, k | 0 <= j < k < |Dedupe(steps)| ensures !SamePair(Dedupe(steps)[j], Dedupe(steps)[k]) {
      DedupeDistinct(steps, j, k);
    }
  }

  /* ---------- What an item names ---------- */

  predicate Accepted(raw: string) { Paths.RelativeForm(raw).Ok? }

  /** The segments of an item's path, as it is accepted. */
  function Asked(raw: string): Path {
    if Accepted(raw) then Paths.Names(Paths.RelativeForm(raw).value) else []
  }

  lemma AskedText(raw: string)
    requires Accepted(raw)
    ensures Paths.AreNames(Asked(raw)) && Paths.Rel(Asked(raw)) == Paths.RelativeForm(raw).value
  {
    Paths.AcceptedIsNormal(raw);
  }

  /** Where the backend looks for it; it cleans the accepted text again. */
  function Found(item: SyncItem): Result<Path> {
    if Accepted(item.sourcePath) then KeyOf(Paths.Rel(Asked(item.sourcePath))) else Err(InvalidInput)
  }

  /** An item that can be planned for: it names a file, or a directory that can be listed with all below it. */
  ghost predicate Plannable(nodes: Nodes, item: SyncItem) {
    && Accepted(item.sourcePath) && Accepted(item.destPath)
    && Found(item).Ok? && Lookup(nodes, Found(item).value).Ok?
    && (IsDir(nodes, Found(item).value) ==> AllListable(nodes, Found(item).value))
  }

  /** `p` is the file that the item names, or one that the listing of the directory comes to. */
  ghost predicate Includes(nodes: Nodes, item: SyncItem, p: Path) {
    Found(item).Ok? && IsFile(nodes, p) && (Found(item) == Ok(p) || FileReached(nodes, Found(item).value, p))
  }

  /** Where directories are found under their own paths, those are the files at or below the item's source. */
  lemma IncludesBelow(nodes: Nodes, item: SyncItem, p: Path)
    requires IsTree(nodes) && Found(item).Ok? && DirsKept(nodes, Found(item).value)
    requires Lookup(nodes, Found(item).value).Ok?
    ensures Includes(nodes, item, p) <==> IsFile(nodes, p) && UpTo(Found(item).value, p)
  {
    var key := Found(item).value;
    if IsDir(nodes, key) {
      KeptFilesReached(nodes, key, p);
    } else {
      OnlyItself(nodes, item, key);
      FileIsLeaf(nodes, key);
      assert IsFile(nodes, p) && UpTo(key, p) ==> p in Below(nodes, key);
    }
  }

  /** What of the path `p` is repeated at the destination, when `asked` was asked for: without it, the last name. */
  function Tail(asked: Path, p: Path): Path
    requires p != []
  {
    if UpTo(asked, p) then p[|asked|..] else [p[|p| - 1]]
  }

  /** The step that copies the file `p`, found at or below the item's source. */
  ghost function StepFor(nodes: Nodes, item: SyncItem, p: Path): Step
    requires IsTree(nodes) && Includes(nodes, item, p)
  {
    var asked, dest := Asked(item.sourcePath), Asked(item.destPath);
    if Found(item).value == p then Step(Paths.Rel(asked), Paths.Rel(dest), |nodes[p].data|)
    else Step(Paths.Rel(p), Paths.Rel(dest + Tail(asked, p)), |nodes[p].data|)
  }

  /** The step is that of some file named by one of the items. */
  ghost predicate Wanted(nodes: Nodes, items: seq<SyncItem>, step: Step)
    requires IsTree(nodes)
  {
    exists i, p :: 0 <= i < |items| && Includes(nodes, items[i], p) && step == StepFor(nodes, items[i], p)
  }

  /** The plan has the steps of all files named by the items, and no others. */
  ghost predicate Covers(nodes: Nodes, items: seq<SyncItem>, plan: seq<Step>)
    requires IsTree(nodes)
  {
    forall step :: step in plan <==> Wanted(nodes, items, step)
  }

  ghost predicate FromItem(nodes: Nodes, item: SyncItem, step: Step)
    requires IsTree(nodes)
  {
    exists p :: Includes(nodes, item, p) && step == StepFor(nodes, item, p)
  }

  /** The same for one item. */
  ghost predicate ItemCovers(nodes: Nodes, item: SyncItem, steps: seq<Step>)
    requires IsTree(nodes)
  {
    forall step :: step in steps <==> FromItem(nodes, item, step)
  }

  lemma WantedSnoc(nodes: Nodes, items: seq<SyncItem>, item: SyncItem, step: Step)
    requires IsTree(nodes)
    ensures Wanted(nodes, items + [item], step) <==> Wanted(nodes, items, step) || FromItem(nodes, item, step)
  {
    var more := items + [item];
    assert more[|items|] == item;
    if Wanted(nodes, items, step) {
      var i, p :| 0 <= i < |items| && Includes(nodes, items[i], p) && step == StepFor(nodes, items[i], p);
      assert more[i] == items[i];
    }
  }

  lemma CoversMore(nodes: Nodes, items: seq<SyncItem>, plan: seq<Step>, item: SyncItem, more: seq<Step>)
    requires IsTree(nodes) && Covers(nodes, items, plan) && ItemCovers(nodes, item, more)
    ensures Covers(nodes, items + [item], plan + more)
  {
    forall step
      ensures step in plan + more <==> Wanted(nodes, items + [item], step)
    {
      WantedSnoc(nodes, items, item, step);
    }
  }

  /* ---------- The texts of targets ---------- */

  lemma JoinRel(dest: Path, tail: Path)
    requires Paths.AreNames(dest) && Paths.AreNames(tail) && tail != []
    ensures Paths.JoinPath(Paths.Rel(dest), Paths.Rel(tail)) == Paths.Rel(dest + tail)
  {
    if dest != [] {
      Paths.JoinPathIs(dest, tail);
    } else {
      Paths.RelEdges(tail);
      Paths.NamesFree(tail);
      Text.SplitJoin(tail, '/');
      Paths.ResolveReal(tail, false, []);
      Paths.RealOfNames(tail);
      assert [] + tail == tail;
    }
  }

  /** One text is the start of another, up to a slash, only where that is so of the segments. */
  lemma PrefixIsAbove(asked: Path, p: Path)
    requires Paths.AreNames(asked) && Paths.AreNames(p) && asked != [] && p != []
    requires Text.HasPrefix(Paths.Rel(p), Paths.Rel(asked) + "/")
    ensures UpTo(asked, p)
  {
    var head, full := Paths.Rel(asked), Paths.Rel(p);
    var rest := full[|head| + 1..];
    assert full == head + ['/'] + rest;
    Text.SplitConcat(head, rest, '/');
    Paths.NamesFree(asked);
    Paths.NamesFree(p);
    Text.SplitJoin(asked, '/');
    Text.SplitJoin(p, '/');
    assert p[..|asked|] == asked;
  }

  lemma BaseOfRel(p: Path)
    requires Paths.AreNames(p) && p != []
    ensures Paths.Base(Paths.Rel(p)) == p[|p| - 1]
  {
    Paths.RelEdges(p);
    Paths.NamesFree(p);
    Text.SplitJoin(p, '/');
    assert Paths.IsName(p[|p| - 1]);
  }

  lemma RelativeUnderTail(asked: Path, p: Path)
    requires Paths.AreNames(asked) && Paths.AreNames(p) && p != []
    ensures Paths.AreNames(Tail(asked, p))
    ensures Paths.RelativeUnder(Paths.Rel(asked), Paths.Rel(p)) == Paths.Rel(Tail(asked, p))
  {
    if UpTo(asked, p) {
      var tail := p[|asked|..];
      assert asked + tail == p;
      Paths.RelativeUnderIs(asked, tail);
    } else {
      Paths.TrimSlashOfRel(asked);
      Paths.TrimSlashOfRel(p);
      Paths.NamesOfRel(asked);
      Paths.NamesOfRel(p);
      if Text.HasPrefix(Paths.Rel(p), Paths.Rel(asked) + "/") {
        PrefixIsAbove(asked, p);
      }
      BaseOfRel(p);
    }
  }

  lemma StepTarget(asked: Path, dest: Path, p: Path)
    requires Paths.AreNames(asked) && Paths.AreNames(dest) && Paths.AreNames(p) && p != []
    ensures var rel := Paths.RelativeUnder(Paths.Rel(asked), Paths.Rel(p));
      Paths.Rel(dest + Tail(asked, p)) == if rel != "" then Paths.JoinPath(Paths.Rel(dest), rel) else Paths.Rel(dest)
  {
    var tail := Tail(asked, p);
    RelativeUnderTail(asked, p);
    Paths.NamesOfRel(tail);
    if tail != [] {
      JoinRel(dest, tail);
    } else {
      assert dest + tail == dest;
    }
  }

  /* ---------- The plan ---------- */

  /** Names as file systems have them. */
  ghost predicate ProperNames(nodes: Nodes) {
    forall p :: p in nodes ==> Paths.AreNames(p) && '\0' !in Paths.Rel(p)
  }

  /** A directory that an item names can be listed to the end. */
  ghost predicate CanList(nodes: Nodes, item: SyncItem) {
    Found(item).Ok? ==> Ends(nodes, Found(item).value)
  }

  ghost predicate CanListAll(nodes: Nodes, items: seq<SyncItem>) {
    forall i :: 0 <= i < |items| ==> CanList(nodes, items[i])
  }

  /** The first `n` items can be planned for. */
  ghost predicate AllPlannable(nodes: Nodes, items: seq<SyncItem>, n: nat)
    requires n <= |items|
  {
    forall i :: 0 <= i < n ==> Plannable(nodes, items[i])
  }

  /** The steps of one item. */
  method PlanItem(share: Share, item: SyncItem) returns (r: Result<seq<Step>>)
    requires IsTree(share.nodes) && ProperNames(share.nodes) && CanList(share.nodes, item)
    modifies share`faulted
    ensures r.Ok? ==> Plannable(share.nodes, item) && ItemCovers(share.nodes, item, r.value)
    ensures r.Err? ==> share.faulted || !Plannable(share.nodes, item)
    ensures old(share.faulted) ==> share.faulted
  {
    var sourcePath := Paths.CleanRelativePath(item.sourcePath);
    if sourcePath.Err? {
      return Err(sourcePath.error);
    }
    var destPath := Paths.CleanRelativePath(item.destPath);
    if destPath.Err? {
      return Err(destPath.error);
    }
    AskedText(item.sourcePath);
    AskedText(item.destPath);
    var entry := Stat(share, sourcePath.value);
    if entry.Err? {
      return Err(entry.error);
    }
    if !entry.value.Dir? {
      FileItem(share.nodes, item, Found(item).value);
      return Ok([Step(sourcePath.value, destPath.value, |entry.value.data|)]);
    }
    r := PlanDirectory(share, item, sourcePath.value, destPath.value);
  }

  /** The steps of an item that names a directory. */
  method PlanDirectory(share: Share, item: SyncItem, sourcePath: string, destPath: string)
    returns (r: Result<seq<Step>>)
    requires IsTree(share.nodes) && ProperNames(share.nodes) && CanList(share.nodes, item)
    requires Paths.RelativeForm(item.sourcePath) == Ok(sourcePath) && Paths.RelativeForm(item.destPath) == Ok(destPath)
    requires Found(item).Ok? && IsDir(share.nodes, Found(item).value)
    modifies share`faulted
    ensures r.Ok? ==> ItemCovers(share.nodes, item, r.value)
    ensures r.Ok? ==> AllListable(share.nodes, Found(item).value)
    ensures r.Err? ==> share.faulted || !AllListable(share.nodes, Found(item).value)
    ensures old(share.faulted) ==> share.faulted
  {
    AskedText(item.sourcePath);
    FirstCall(share.nodes, Found(item).value);
    var listed := ListFilesRecursive(share, sourcePath, []);
    if listed.Err? {
      return Err(listed.error);
    }
    ghost var make := file => StepText(sourcePath, destPath, file);
    var steps := StepsOf(sourcePath, destPath, listed.value, make);
    ListedSteps(share.nodes, item, make, listed.value);
    StepsOfListing(share.nodes, item, listed.value, steps);
    return Ok(steps);
  }

  /** `p` is a file found below the directory that the item names. */
  ghost predicate InItem(nodes: Nodes, item: SyncItem, p: Path) {
    Includes(nodes, item, p) && Found(item).value != p && p != []
  }

  /** The step of a listed file, as its texts give it. */
  function StepText(sourcePath: string, destPath: string, file: Listed): Step {
    var rel := Paths.RelativeUnder(sourcePath, Paths.Rel(file.path));
    Step(Paths.Rel(file.path), if rel != "" then Paths.JoinPath(destPath, rel) else destPath, file.size)
  }

  /** The steps of all files of a list, for any way of making a step. */
  function Steps(make: Listed -> Step, files: seq<Listed>): seq<Step> {
    if files == [] then [] else Steps(make, files[..|files| - 1]) + [make(files[|files| - 1])]
  }

  lemma {:induction false} StepsAt(make: Listed -> Step, files: seq<Listed>)
    ensures |Steps(make, files)| == |files|
    ensures forall j :: 0 <= j < |files| ==> Steps(make, files)[j] == make(files[j])
  {
    if files != [] {
      StepsAt(make, files[..|files| - 1]);
    }
  }

  method StepsOf(sourcePath: string, destPath: string, files: seq<Listed>, ghost make: Listed -> Step)
    returns (steps: seq<Step>)
    requires forall file :: make(file) == StepText(sourcePath, destPath, file)
    ensures steps == Steps(make, files)
  {
    steps := [];
    for i := 0 to |files|
      invariant steps == Steps(make, files[..i])
    {
      var rel := Paths.RelativeUnder(sourcePath, Paths.Rel(files[i].path));
      var target := if rel != "" then Paths.JoinPath(destPath, rel) else destPath;
      assert files[..i + 1][..i] == files[..i];
      assert make(files[i]) == StepText(sourcePath, destPath, files[i]);
      steps := steps + [Step(Paths.Rel(files[i].path), target, files[i].size)];
    }
    assert files[..|files|] == files;
  }

  ghost predicate IsStepOf(nodes: Nodes, item: SyncItem, p: Path, step: Step)
    requires IsTree(nodes)
  {
    InItem(nodes, item, p) && step == StepFor(nodes, item, p)
  }

  lemma ListedIsInItem(nodes: Nodes, item: SyncItem, files: seq<Listed>, i: nat)
    requires Found(item).Ok? && IsDir(nodes, Found(item).value) && [] !in nodes
    requires ListsReached(nodes, Found(item).value, files) && i < |files|
    ensures InItem(nodes, item, files[i].path) && files[i] == ListedAs(nodes, files[i].path)
  {
  }

  /** The step that the texts of a listed file come to. */
  lemma ListedStep(nodes: Nodes, item: SyncItem, files: seq<Listed>, i: nat)
    requires IsTree(nodes) && ProperNames(nodes) && Accepted(item.sourcePath) && Accepted(item.destPath)
    requires Found(item).Ok? && IsDir(nodes, Found(item).value)
    requires ListsReached(nodes, Found(item).value, files) && i < |files|
    ensures var s, d := Paths.RelativeForm(item.sourcePath).value, Paths.RelativeForm(item.destPath).value;
      IsStepOf(nodes, item, files[i].path, StepText(s, d, files[i]))
  {
    ListedIsInItem(nodes, item, files, i);
    AskedText(item.sourcePath);
    AskedText(item.destPath);
    StepTarget(Asked(item.sourcePath), Asked(item.destPath), files[i].path);
  }

  /** So the steps are those of the files that the listing comes to. */
  lemma ListedSteps(nodes: Nodes, item: SyncItem, make: Listed -> Step, files: seq<Listed>)
    requires IsTree(nodes) && ProperNames(nodes) && Accepted(item.sourcePath) && Accepted(item.destPath)
    requires Found(item).Ok? && IsDir(nodes, Found(item).value) && ListsReached(nodes, Found(item).value, files)
    requires var s, d := Paths.RelativeForm(item.sourcePath).value, Paths.RelativeForm(item.destPath).value;
      forall file :: make(file) == StepText(s, d, file)
    ensures |Steps(make, files)| == |files|
    ensures forall j :: 0 <= j < |files| ==> IsStepOf(nodes, item, files[j].path, Steps(make, files)[j])
  {
    StepsAt(make, files);
    forall j | 0 <= j < |files|
      ensures IsStepOf(nodes, item, files[j].path, Steps(make, files)[j])
    {
      ListedStep(nodes, item, files, j);
    }
  }

  lemma OnlyItself(nodes: Nodes, item: SyncItem, p: Path)
    requires IsTree(nodes) && IsFile(nodes, p) && Found(item) == Ok(p)
    ensures forall q :: Includes(nodes, item, q) <==> q == p
  {
    forall q
      ensures Includes(nodes, item, q) <==> q == p
    {
      FileReachesNothing(nodes, p, q);
    }
  }

  lemma FileItem(nodes: Nodes, item: SyncItem, p: Path)
    requires IsTree(nodes) && IsFile(nodes, p) && Found(item) == Ok(p)
    ensures ItemCovers(nodes, item,
      [Step(Paths.Rel(Asked(item.sourcePath)), Paths.Rel(Asked(item.destPath)), |nodes[p].data|)])
  {
    OnlyItself(nodes, item, p);
    var only := StepFor(nodes, item, p);
    forall step
      ensures step in [only] <==> FromItem(nodes, item, step)
    {
      assert step == only ==> Includes(nodes, item, p);
    }
  }

  lemma StepsOfListing(nodes: Nodes, item: SyncItem, files: seq<Listed>, steps: seq<Step>)
    requires IsTree(nodes) && Found(item).Ok? && IsDir(nodes, Found(item).value)
    requires ListsReached(nodes, Found(item).value, files) && |steps| == |files|
    requires forall j :: 0 <= j < |files| ==> IsStepOf(nodes, item, files[j].path, steps[j])
    ensures ItemCovers(nodes, item, steps)
  {
    forall step
      ensures step in steps <==> FromItem(nodes, item, step)
    {
      if step in steps {
        var j :| 0 <= j < |steps| && steps[j] == step;
        assert Includes(nodes, item, files[j].path);
      }
      if p :| Includes(nodes, item, p) && step == StepFor(nodes, item, p) {
        assert HasPath(files, p);
        var j :| 0 <= j < |files| && files[j].path == p;
        assert steps[j] == step;
      }
    }
  }

  /**
   The plan of all items: success means that each of them names something, and that the plan has a step for
   every file they name, and no other step. It fails only otherwise, or for an I/O error.
   */
  method BuildCopyPlan(share: Share, items: seq<SyncItem>) returns (r: Result<seq<Step>>)
    requires IsTree(share.nodes) && ProperNames(share.nodes)
    requires CanListAll(share.nodes, items)
    modifies share`faulted
    ensures r.Ok? ==> AllPlannable(share.nodes, items, |items|) && Covers(share.nodes, items, r.value)
    ensures r.Err? ==> share.faulted || !AllPlannable(share.nodes, items, |items|)
    ensures old(share.faulted) ==> share.faulted
  {
    ghost var nodes := share.nodes;
    var steps: seq<Step> := [];
    for i := 0 to |items|
      invariant share.nodes == nodes && Covers(nodes, items[..i], steps)
      invariant AllPlannable(nodes, items, i)
      invariant old(share.faulted) ==> share.faulted
    {
      var more := PlanItem(share, items[i]);
      if more.Err? {
        return more;
      }
      CoversMore(nodes, items[..i], steps, items[i], more.value);
      assert items[..i + 1] == items[..i] + [items[i]];
      steps := steps + more.value;
    }
    assert items[..|items|] == items;
    return Ok(steps);
  }

  /* ---------- What the steps of a plan are like ---------- */

  predicate IsForm(text: string) {
    Paths.AreNames(Paths.Names(text)) && Paths.Rel(Paths.Names(text)) == text
  }

  /** Both paths are in normal form, and that of the source has no NUL. */
  predicate StepFine(step: Step) {
    IsForm(step.sourcePath) && IsForm(step.destPath) && '\0' !in step.sourcePath
  }

  lemma AskedHasNoNul(asked: Path, key: Path)
    requires KeyOf(Paths.Rel(asked)) == Ok(key) && '\0' !in Paths.Rel(key)
    ensures '\0' !in Paths.Rel(asked)
  {
    if '\0' in Paths.Rel(asked) {
      KeyKeepsChar(Paths.Rel(asked), '\0');
    }
  }

  lemma TailIsForm(asked: Path, dest: Path, p: Path)
    requires Paths.AreNames(asked) && Paths.AreNames(dest) && Paths.AreNames(p) && p != []
    ensures IsForm(Paths.Rel(p)) && IsForm(Paths.Rel(dest + Tail(asked, p)))
  {
    RelativeUnderTail(asked, p);
    Paths.NamesOfRel(p);
    Paths.NamesOfRel(dest + Tail(asked, p));
  }

  lemma StepIsFine(nodes: Nodes, item: SyncItem, p: Path)
    requires IsTree(nodes) && ProperNames(nodes) && Plannable(nodes, item) && Includes(nodes, item, p)
    ensures StepFine(StepFor(nodes, item, p))
  {
    var asked, dest := Asked(item.sourcePath), Asked(item.destPath);
    AskedText(item.sourcePath);
    AskedText(item.destPath);
    if Found(item).value == p {
      Paths.NamesOfRel(asked);
      Paths.NamesOfRel(dest);
      AskedHasNoNul(asked, p);
    } else {
      TailIsForm(asked, dest, p);
    }
  }

  predicate AllFine(plan: seq<Step>) {
    forall i :: 0 <= i < |plan| ==> StepFine(plan[i])
  }

  lemma PlanIsFine(nodes: Nodes, items: seq<SyncItem>, plan: seq<Step>)
    requires IsTree(nodes) && ProperNames(nodes) && AllPlannable(nodes, items, |items|) && Covers(nodes, items, plan)
    ensures AllFine(plan) && AllFine(Dedupe(plan)) && NulFree(plan)
  {
    forall j | 0 <= j < |plan|
      ensures StepFine(plan[j])
    {
      assert plan[j] in plan && Wanted(nodes, items, plan[j]);
      var i, p :| 0 <= i < |items| && Includes(nodes, items[i], p) && plan[j] == StepFor(nodes, items[i], p);
      assert Plannable(nodes, items[i]);
      StepIsFine(nodes, items[i], p);
    }
    DedupeFrom(plan);
    forall j | 0 <= j < |Dedupe(plan)|
      ensures StepFine(Dedupe(plan)[j])
    {
      var k :| 0 <= k < |plan| && plan[k] == Dedupe(plan)[j];
    }
  }

  /** The step's source leads to a file of the step's size, if to a file. */
  ghost predicate Sized(nodes: Nodes, step: Step) {
    var key := KeyOf(step.sourcePath);
    key.Ok? && IsFile(nodes, key.value) ==> |nodes[key.value].data| == step.size
  }

  /** A step's source leads to the file that it was made for, if that is the item's own or is kept. */
  lemma StepLeadsBack(nodes: Nodes, item: SyncItem, p: Path)
    requires IsTree(nodes) && Includes(nodes, item, p) && (Found(item) == Ok(p) || Kept(p))
    ensures KeyOf(StepFor(nodes, item, p).sourcePath) == Ok(p) && Sized(nodes, StepFor(nodes, item, p))
  {
  }

  /** Every file that an item names is the item's own or is found again under its path. */
  ghost predicate FilesKept(nodes: Nodes, items: seq<SyncItem>) {
    forall i, p :: 0 <= i < |items| && Includes(nodes, items[i], p) ==> Found(items[i]) == Ok(p) || Kept(p)
  }

  ghost predicate AllSized(nodes: Nodes, plan: seq<Step>) {
    forall i :: 0 <= i < |plan| ==> Sized(nodes, plan[i])
  }

  lemma PlanIsSized(nodes: Nodes, items: seq<SyncItem>, plan: seq<Step>)
    requires IsTree(nodes) && FilesKept(nodes, items) && Covers(nodes, items, plan)
    ensures AllSized(nodes, Dedupe(plan))
  {
    DedupeFrom(plan);
    forall j | 0 <= j < |Dedupe(plan)|
      ensures Sized(nodes, Dedupe(plan)[j])
    {
      assert Dedupe(plan)[j] in plan && Wanted(nodes, items, Dedupe(plan)[j]);
      var i, p :| 0 <= i < |items| && Includes(nodes, items[i], p) && Dedupe(plan)[j] == StepFor(nodes, items[i], p);
      StepLeadsBack(nodes, items[i], p);
    }
  }

  /** Below a source that is found under its own path, files go to the same place below the destination. */
  lemma KeptItemKeepsPlaces(nodes: Nodes, item: SyncItem, p: Path)
    requires IsTree(nodes) && Accepted(item.sourcePath) && Includes(nodes, item, p) && Kept(Asked(item.sourcePath))
    requires UpTo(Asked(item.sourcePath), p)
    ensures Found(item) == Ok(Asked(item.sourcePath))
    ensures var asked, dest := Asked(item.sourcePath), Asked(item.destPath);
      StepFor(nodes, item, p) == Step(Paths.Rel(p), Paths.Rel(dest + p[|asked|..]), |nodes[p].data|)
  {
    assert Asked(item.destPath) + p[|p|..] == Asked(item.destPath);
  }

  /** The directories below what the item names are found under their own paths. */
  ghost predicate DirsFound(nodes: Nodes, item: SyncItem) {
    && Found(item).Ok? && DirsKept(nodes, Found(item).value) && Lookup(nodes, Found(item).value).Ok?
  }

  /** The item's source is found under another path than the accepted one. */
  predicate Astray(item: SyncItem) {
    Found(item).Ok? && Found(item).value != Asked(item.sourcePath)
  }

  lemma SpacedNames(p: Path) returns (names: Path)
    requires Kept(p) && p != []
    ensures Paths.AreNames(names) && names != p && names != []
    ensures Paths.Rel(names) == Paths.Rel(p) + " " && '\\' !in Paths.Rel(names)
  {
    var init, last := p[..|p| - 1], p[|p| - 1];
    names := init + [last + " "];
    assert p == init + [last];
    SpacedText(init, last);
    KeptIff(p);
    assert Paths.IsName(last) && (last + " ")[|last|] == ' ';
    assert |names[|p| - 1]| == |p[|p| - 1]| + 1;
  }

  /** There are such items for every source that has a name: one more space behind it does it. */
  lemma StrayItem(p: Path, destPath: string) returns (item: SyncItem)
    requires Kept(p) && p != []
    ensures Astray(item) && Found(item) == Ok(p) && item.destPath == destPath
  {
    var names := SpacedNames(p);
    item := SyncItem(Paths.Shielded(names), destPath);
    Paths.EveryFormComesUp(names);
    TrailingSpaceIsDropped(p);
    Paths.NamesOfRel(names);
  }

  /**
   A source that is found under another path loses its directories: every file goes right into the destination
   under its own name, wherever below the source it was.
   */
  lemma OtherItemIsFlattened(nodes: Nodes, item: SyncItem, p: Path)
    requires IsTree(nodes) && ProperNames(nodes) && DirsFound(nodes, item) && Includes(nodes, item, p)
    requires Astray(item) && p != Found(item).value && p != Asked(item.sourcePath)
    ensures StepFor(nodes, item, p).destPath == Paths.Rel(Asked(item.destPath) + [p[|p| - 1]])
  {
    IncludesBelow(nodes, item, p);
    AskedText(item.sourcePath);
    AskedIsNotAbove(nodes, Asked(item.sourcePath), Found(item).value, p);
  }

  lemma AskedIsNotAbove(nodes: Nodes, asked: Path, key: Path, p: Path)
    requires IsTree(nodes) && DirsKept(nodes, key) && IsFile(nodes, p) && UpTo(key, p)
    requires KeyOf(Paths.Rel(asked)) == Ok(key) && key != asked && p != asked
    ensures !UpTo(asked, p)
  {
    if UpTo(asked, p) {
      assert |asked| <= |key| ==> asked == p[..|asked|] == key[..|asked|];
      assert |key| <= |asked| ==> key == p[..|key|] == asked[..|key|];
      KeyHasNames(Paths.Rel(asked));
      if UpTo(key, asked) {
        AncestorIsDir(nodes, p, asked);
        DirIsKept(nodes, key, asked);
      } else {
        KeyShrinks(asked);
        ShorterText(asked, key);
      }
      assert false;
    }
  }

  lemma ShorterText(a: Path, b: Path)
    requires Above(a, b) && Paths.AreNames(b)
    ensures |Paths.Rel(a)| < |Paths.Rel(b)|
  {
    assert b == a + b[|a|..];
    Paths.NamesOfRel(b);
    if a != [] {
      Text.JoinAppend(a, b[|a|..], '/');
    }
  }

  /** So two files of one name have one target there. */
  lemma FlattenedFilesCollide(nodes: Nodes, item: SyncItem, p: Path, q: Path)
    requires IsTree(nodes) && ProperNames(nodes) && DirsFound(nodes, item)
    requires Includes(nodes, item, p) && Includes(nodes, item, q) && p[|p| - 1] == q[|q| - 1]
    requires Astray(item) && Found(item).value !in [p, q] && Asked(item.sourcePath) !in [p, q]
    ensures StepFor(nodes, item, p).destPath == StepFor(nodes, item, q).destPath
  {
    OtherItemIsFlattened(nodes, item, p);
    OtherItemIsFlattened(nodes, item, q);
  }

  /**
   After the plan is freed of repetitions it still copies every file that the items name to every target
   that they give it, once.
   */
  lemma DedupedPlanCovers(nodes: Nodes, items: seq<SyncItem>, plan: seq<Step>, i: nat, p: Path)
    requires IsTree(nodes) && Covers(nodes, items, plan) && i < |items| && Includes(nodes, items[i], p)
    ensures HasPair(Dedupe(plan), StepFor(nodes, items[i], p))
    ensures forall step :: step in Dedupe(plan) ==> Wanted(nodes, items, step)
    ensures forall j, k :: 0 <= j < k < |Dedupe(plan)| ==> !SamePair(Dedupe(plan)[j], Dedupe(plan)[k])
  {
    DedupeKeepsPairs(plan);
    assert Wanted(nodes, items, StepFor(nodes, items[i], p));
    var j :| 0 <= j < |plan| && plan[j] == StepFor(nodes, items[i], p);
    assert HasPair(Dedupe(plan), plan[j]);
  }
}
