/**
 Mirrors whose source and destination lie on one share. A rule may ask for any two different paths there, and
 what a run copies can then be part of what the next one lists.
 */
module OneShareMirrors {
  import opened Storage
  import opened ShareTree
  import opened Backends
  import opened Listings
  import opened FileCopy
  import opened Incremental
  import Paths
  import Text

  /** A complete run within one share. */
  ghost predicate RunsWithin(m: Mirror, end: Nodes) {
    m.setting.other.None? && Mirrored(m, end)
  }

  /** No file of the source is mirrored to a place at or below the source. */
  ghost predicate TargetsOutside(nodes: Nodes, source: Path, dest: Path) {
    forall p :: InSource(nodes, source, p) ==> !UpTo(source, TargetOf(source, dest, p))
  }

  predicate Apart(source: Path, dest: Path) { !UpTo(source, dest) && !UpTo(dest, source) }

  /** That is so on every share if neither path lies below the other. */
  lemma ApartIsOutside(nodes: Nodes, source: Path, dest: Path)
    requires Apart(source, dest)
    ensures TargetsOutside(nodes, source, dest)
  {
    forall p | InSource(nodes, source, p)
      ensures !UpTo(source, TargetOf(source, dest, p))
    {
      assert TargetOf(source, dest, p) == dest + p[|source|..];
    }
  }

  /** Then a run reads all files as they were listed, and leaves its source as it was. */
  lemma OutsideKeepsSource(m: Mirror, end: Nodes)
    requires RunsWithin(m, end) && TargetsOutside(m.start, m.source, m.dest)
    ensures SameBelow(m.start, end, m.source)
    ensures forall i :: 0 <= i < |m.files| ==> ReadAsListed(m, i)
  {
    var tasks := Tasks(m.source, m.dest, m.files);
    forall k | 0 <= k < |tasks|
      ensures !UpTo(m.source, tasks[k].target)
    {
      assert InSource(m.start, m.source, m.files[k].path);
    }
    forall p | UpTo(m.source, p) && (IsFile(m.start, p) || IsFile(end, p))
      ensures p in m.start && p in end && m.start[p] == end[p]
    {
      OthersUntouched(m.start, tasks, m.events, p);
    }
  }

  /** So convergence holds within one share too, when no file of the source is mirrored into it. */
  lemma SecondRunWithin(m: Mirror, middle: Nodes, m2: Mirror, end: Nodes, result: IncrementalResult)
    requires RunsWithin(m, middle) && Smooth(m) && TargetsOutside(m.start, m.source, m.dest)
    requires RunsWithin(m2, end) && m2.start == middle && m2.source == m.source && m2.dest == m.dest
    requires CountsAre(result, m2.files, m2.events)
    ensures end == middle
    ensures result.copied == 0 && result.skipped == result.scanned && result.bytes == 0
  {
    OutsideKeepsSource(m, middle);
    SettledAfter(m, middle, middle);
    NothingCopiedIff(m2, end);
    NoneCopied(m2.files, m2.events);
  }

  /**
   Where files are mirrored into the source, the next run has nothing to do exactly when none of the copies that
   were put there needs one in turn.
   */
  lemma SettledIffCopiesAre(m: Mirror, end: Nodes)
    requires RunsWithin(m, end) && Smooth(m)
    ensures Settled(end, end, m.source, m.dest) <==> forall i :: 0 <= i < |m.files| ==> CopySettled(m, end, i)
  {
    var tasks := Tasks(m.source, m.dest, m.files);
    if Settled(end, end, m.source, m.dest) {
      forall i | 0 <= i < |m.files|
        ensures CopySettled(m, end, i)
      {
        if m.events[i].Copied? {
          CopiedHolds(m.start, tasks, m.events, i);
          assert UpTo(m.source, tasks[i].target) ==> NeedsNone(end, end, m.source, m.dest, tasks[i].target);
        }
      }
    }
    if forall i :: 0 <= i < |m.files| ==> CopySettled(m, end, i) {
      forall p | InSource(end, m.source, p)
        ensures NeedsNone(end, end, m.source, m.dest, p)
      {
        FileSettled(m, end, p);
      }
    }
  }

  /** The file that was copied for `i`, if it lies in the source, needs no copy. */
  ghost predicate CopySettled(m: Mirror, end: Nodes, i: nat)
    requires AllBelow(m.source, m.files) && i < |m.files| == |m.events|
  {
    var copy := TargetOf(m.source, m.dest, m.files[i].path);
    m.events[i].Copied? && InSource(end, m.source, copy) ==> NeedsNone(end, end, m.source, m.dest, copy)
  }

  lemma FileSettled(m: Mirror, end: Nodes, p: Path)
    requires RunsWithin(m, end) && Smooth(m) && InSource(end, m.source, p)
    requires forall i :: 0 <= i < |m.files| ==> CopySettled(m, end, i)
    ensures NeedsNone(end, end, m.source, m.dest, p)
  {
    var tasks := Tasks(m.source, m.dest, m.files);
    if k :| 0 <= k < |m.files| && m.events[k].Copied? && tasks[k].target == p {
      assert CopySettled(m, end, k);
    } else {
      FileKeeps(m.start, tasks, m.events, |m.events|, p);
      assert HasPath(m.files, p);
      var i :| 0 <= i < |m.files| && m.files[i].path == p;
      assert ReadAsListed(m, i);
      MirrorIsFaithful(m, end, i);
    }
  }

  /* ---------- Which rules converge ---------- */

  /** After any smooth run within a share, the next one has nothing to do. */
  ghost predicate Converges(source: Path, dest: Path) {
    forall m: Mirror, end: Nodes ::
      RunsWithin(m, end) && Smooth(m) && m.source == source && m.dest == dest ==> Settled(end, end, source, dest)
  }

  /** Names that no cleaning touches, wherever they stand in a path. */
  predicate IsPlain(name: string) {
    Paths.IsName(name) && '\\' !in name && Paths.NoEdgeSpace(name)
  }

  predicate ArePlain(p: Path) {
    forall i :: 0 <= i < |p| ==> IsPlain(p[i])
  }

  /** A share with one file; its target lies in the source, and the target of that is no file. */
  predicate LeadsOn(source: Path, dest: Path, p: Path) {
    && p != [] && UpTo(source, p)
    && var copy := TargetOf(source, dest, p);
       && copy != [] && UpTo(source, copy) && !UpTo(copy, p) && !UpTo(p, copy)
       && TargetOf(source, dest, copy) != p && TargetOf(source, dest, copy) != copy
  }

  lemma OnlyFile(p: Path)
    requires p != []
    ensures var nodes := Placed(map[], p, [1], 0);
      && IsTree(nodes) && IsFile(nodes, p) && nodes[p] == File([1], 0)
      && (forall q :: IsFile(nodes, q) ==> q == p) && (forall q :: q in nodes ==> UpTo(q, p))
  {
    assert IsTree(map[]) && !FileAbove(map[], p);
    PlacedTouches(map[], p, [1], 0);
  }

  lemma OnlyListed(source: Path, p: Path)
    requires p != [] && UpTo(source, p)
    ensures var start := Placed(map[], p, [1], 0); var files := [ListedAs(start, p)];
      IsTree(start) && IsFile(start, p) && FilesBelow(start, source, files) && AllBelow(source, files)
  {
    var start := Placed(map[], p, [1], 0);
    OnlyFile(p);
    var files := [ListedAs(start, p)];
    assert files[0].path == p && HasPath(files, p);
  }

  lemma CopyOfOnlyFile(setting: Setting, p: Path, task: Task, e: Event)
    requires setting.other.None? && setting.reserved == {} && e == Copied([1], 0) && p != []
    requires var start := Placed(map[], p, [1], 0); IsFile(start, p) && task.file == ListedAs(start, p)
    requires task.target != [] && !UpTo(task.target, p) && !UpTo(p, task.target)
    ensures Allowed(setting, Placed(map[], p, [1], 0), task, e)
  {
    var start := Placed(map[], p, [1], 0);
    OnlyFile(p);
    LeftAloneIff(task.file, start, task.target);
    assert [1][..1] == [1];
  }

  lemma OneTask(setting: Setting, start: Nodes, tasks: seq<Task>, e: Event)
    requires TasksOk(tasks) && |tasks| == 1 && Allowed(setting, start, tasks[0], e)
    ensures RunOk(setting, start, tasks, [e]) && After(start, tasks, [e], 1) == Apply(start, tasks[0], e)
  {
    assert After(start, tasks, [e], 0) == start;
    assert StepOk(setting, start, tasks, [e], 0);
  }

  /** One run over such a share copies the file, smoothly, and leaves another one to be copied. */
  lemma LeadsOnFails(source: Path, dest: Path, p: Path, setting: Setting) returns (m: Mirror, end: Nodes)
    requires LeadsOn(source, dest, p) && setting.other.None? && setting.reserved == {}
    ensures m.source == source && m.dest == dest && m.start == Placed(map[], p, [1], 0) && m.setting == setting
    ensures RunsWithin(m, end) && Smooth(m) && !Settled(end, end, source, dest)
  {
    var start, copy := Placed(map[], p, [1], 0), TargetOf(source, dest, p);
    OnlyFile(p);
    var files, e := [ListedAs(start, p)], Copied([1], 0);
    m := Mirror(setting, start, source, dest, files, [e]);
    OnlyListed(source, p);
    var tasks := Tasks(source, dest, files);
    end := Apply(start, tasks[0], e);
    assert m.Src() == start && Listing(m);
    CopyOfOnlyFile(setting, p, tasks[0], e);
    OneTask(setting, start, tasks, e);
    CopyUnsettled(source, dest, p);
  }

  /** The copy is a file of the source, and its own target is missing. */
  lemma CopyUnsettled(source: Path, dest: Path, p: Path)
    requires LeadsOn(source, dest, p)
    ensures var end := Placed(Placed(map[], p, [1], 0), TargetOf(source, dest, p), [1], 0);
      !Settled(end, end, source, dest)
  {
    var start, copy := Placed(map[], p, [1], 0), TargetOf(source, dest, p);
    var end := Placed(start, copy, [1], 0);
    OnlyFile(p);
    CopyIsLast(start, copy, TargetOf(source, dest, copy));
    LeftAloneIff(ListedAs(end, copy), end, TargetOf(source, dest, copy));
    assert InSource(end, source, copy) && !NeedsNone(end, end, source, dest, copy);
  }

  lemma CopyIsLast(start: Nodes, copy: Path, next: Path)
    requires copy != [] && next != copy && !IsFile(start, next)
    ensures var end := Placed(start, copy, [1], 0); IsFile(end, copy) && !IsFile(end, next)
  {
  }

  lemma LongerIsPlain(name: string)
    ensures IsPlain(name) ==> IsPlain(name + "x")
  {
    assert (name + "x")[|name|] == 'x';
  }

  /** With the destination below the source, any file of the source but one above the destination will do. */
  lemma BelowLeadsOn(source: Path, dest: Path) returns (p: Path)
    requires Above(source, dest)
    ensures LeadsOn(source, dest, p) && (ArePlain(source) && ArePlain(dest) ==> ArePlain(p))
  {
    var more := dest[|source|..];
    var name := more[0] + "x";
    p := source + [name];
    LongerIsPlain(more[0]);
    assert dest == source + more && p[|source|..] == [name];
    var copy := TargetOf(source, dest, p);
    assert copy == dest + [name];
    assert copy[|source|..] == more + [name];
    assert TargetOf(source, dest, copy) == dest + (more + [name]);
    assert copy[|source|] == more[0] != name == p[|source|];
  }

  /** With the destination above the source, one that repeats the way from there to the source. */
  lemma AboveLeadsOn(source: Path, dest: Path) returns (p: Path)
    requires Above(dest, source)
    ensures LeadsOn(source, dest, p) && (ArePlain(source) && ArePlain(dest) ==> ArePlain(p))
  {
    var more := source[|dest|..];
    var name := more[0] + "x";
    p := source + (more + [name]);
    LongerIsPlain(more[0]);
    assert source == dest + more && p[|source|..] == more + [name];
    var copy := TargetOf(source, dest, p);
    assert copy == dest + (more + [name]) == source + [name];
    assert copy[|source|..] == [name];
    assert TargetOf(source, dest, copy) == dest + [name];
    assert p[|source|] == more[0] != name == copy[|source|];
  }

  /**
   A rule for two different paths of one share converges, whatever the share holds, exactly when neither path
   lies below the other.
   */
  lemma ConvergesIff(source: Path, dest: Path)
    requires source != dest
    ensures Converges(source, dest) <==> Apart(source, dest)
  {
    if Apart(source, dest) {
      forall m: Mirror, end: Nodes | RunsWithin(m, end) && Smooth(m) && m.source == source && m.dest == dest
        ensures Settled(end, end, source, dest)
      {
        ApartIsOutside(m.start, source, dest);
        OutsideKeepsSource(m, end);
        SettledAfter(m, end, end);
      }
    } else {
      var p;
      if UpTo(source, dest) {
        p := BelowLeadsOn(source, dest);
      } else {
        p := AboveLeadsOn(source, dest);
      }
      var m, end := LeadsOnFails(source, dest, p, Setting(None, false, "", "", {}));
    }
  }

  lemma PlainIsKept(p: Path)
    requires ArePlain(p)
    ensures Kept(p)
  {
    assert Paths.AreNames(p);
    Paths.NoBackslash(p);
    if p != [] {
      PlainEdges(p);
    }
    KeptIff(p);
  }

  lemma PlainEdges(p: Path)
    requires ArePlain(p) && p != []
    ensures Paths.NoEdgeSpace(Paths.Rel(p))
  {
    Paths.RelEdges(p);
    assert IsPlain(p[0]) && IsPlain(p[|p| - 1]);
    if |p| > 1 {
      var init, last := p[..|p| - 1], p[|p| - 1];
      Text.JoinAppend(init, [last], '/');
      assert init + [last] == p;
      assert Paths.Rel([last]) == last;
    }
  }

  lemma PlainLands(target: Path)
    requires ArePlain(target) && target != []
    ensures Lands(target)
  {
    forall k | 0 < k <= |target|
      ensures Kept(target[..k])
    {
      PlainIsKept(target[..k]);
    }
    KeptPrefixesLand(target);
  }

  lemma OnlyFileIsKept(p: Path)
    requires ArePlain(p) && p != []
    ensures forall q :: q in Placed(map[], p, [1], 0) ==> Kept(q)
  {
    OnlyFile(p);
    forall q | q in Placed(map[], p, [1], 0)
      ensures Kept(q)
    {
      assert ArePlain(q);
      PlainIsKept(q);
    }
  }

  /** With plain names a share that leads on is one that the mirror takes. */
  lemma LeadsOnIsReady(source: Path, dest: Path, p: Path)
    requires LeadsOn(source, dest, p) && ArePlain(source) && ArePlain(dest) && ArePlain(p)
    ensures Ready(Placed(map[], p, [1], 0), source, dest)
  {
    PlainIsKept(source);
    PlainIsKept(p);
    OnlyFile(p);
    OnlyFileIsKept(p);
    PlainLands(TargetOf(source, dest, p));
    assert FileReady(source, dest, p);
  }

  /** So where one path lies below the other, a run that the service makes can leave work for the next one. */
  lemma NestedLeavesWork(source: Path, dest: Path, setting: Setting) returns (m: Mirror, end: Nodes)
    requires setting.other.None? && setting.reserved == {}
    requires source != dest && !Apart(source, dest) && ArePlain(source) && ArePlain(dest)
    ensures m.source == source && m.dest == dest && m.setting == setting && Ready(m.start, source, dest)
    ensures RunsWithin(m, end) && Smooth(m) && !Settled(end, end, source, dest)
  {
    var p;
    if UpTo(source, dest) {
      p := BelowLeadsOn(source, dest);
    } else {
      p := AboveLeadsOn(source, dest);
    }
    LeadsOnIsReady(source, dest, p);
    m, end := LeadsOnFails(source, dest, p, setting);
  }

  /* ---------- A destination below the source ---------- */

  /**
   The first run, into a destination without files, leaves copies that lie below the source and that the second
   run finds missing in turn.
   */
  lemma SecondRunCopiesTheCopies(m: Mirror, end: Nodes, i: nat)
    requires RunsWithin(m, end) && Above(m.source, m.dest)
    requires forall p :: IsFile(m.start, p) ==> !UpTo(m.dest, p)
    requires i < |m.files| && m.events[i].Copied?
    ensures var copy := TargetOf(m.source, m.dest, m.files[i].path);
      && InSource(end, m.source, copy) && !IsFile(end, TargetOf(m.source, m.dest, copy))
      && !NeedsNone(end, end, m.source, m.dest, copy)
  {
    var source, dest, tasks := m.source, m.dest, Tasks(m.source, m.dest, m.files);
    var copy := tasks[i].target;
    CopiedHolds(m.start, tasks, m.events, i);
    assert copy == dest + m.files[i].path[|source|..];
    UpToTransitive(source, dest, copy);
    var next := TargetOf(source, dest, copy);
    assert next == dest + copy[|source|..];
    forall k | 0 <= k < |m.events|
      ensures tasks[k].target != next
    {
      assert tasks[k].target == dest + m.files[k].path[|source|..];
      assert UpTo(dest, copy) && m.files[k].path == source + m.files[k].path[|source|..];
      assert m.files[k].path != copy == source + copy[|source|..];
      if tasks[k].target == next {
        SameTail(dest, m.files[k].path[|source|..], copy[|source|..]);
        assert false;
      }
    }
    OthersUntouched(m.start, tasks, m.events, next);
    assert UpTo(dest, next);
    LeftAloneIff(ListedAs(end, copy), end, next);
  }

  lemma {:induction false} Longest(paths: set<Path>) returns (p: Path)
    requires paths != {}
    ensures p in paths && forall q :: q in paths ==> |q| <= |p|
  {
    p :| p in paths;
    if paths != {p} {
      var q := Longest(paths - {p});
      p := if |p| < |q| then q else p;
    }
  }

  /** Such a mirror never settles: whatever runs have made of the share, some file below the source has no copy. */
  lemma NestedNeverSettles(nodes: Nodes, source: Path, dest: Path, some: Path) returns (p: Path)
    requires Above(source, dest) && InSource(nodes, source, some)
    ensures InSource(nodes, source, p) && !IsFile(nodes, TargetOf(source, dest, p))
    ensures !NeedsNone(nodes, nodes, source, dest, p)
  {
    var files := set q | q in nodes && InSource(nodes, source, q);
    assert some in files;
    p := Longest(files);
    var target := TargetOf(source, dest, p);
    assert target == dest + p[|source|..];
    UpToTransitive(source, dest, target);
    LeftAloneIff(ListedAs(nodes, p), nodes, target);
  }
}
