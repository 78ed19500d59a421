/**
 The incremental mirror: list the files below the source, copy those that are missing, differ in size or
 are newer, and leave the rest alone.
 */
module Incremental {
  import opened Storage
  import opened ShareTree
  import opened Backends
  import opened Listings
  import opened FileCopy
  import CopyIO
  import FailedCopies
  import ParallelCopy
  import Paths
  import TransferLocks

  /* ---------- What needs copying ---------- */

  datatype Reason = Missing | DestIsDir | SizeDiffers | Newer

  /** A time of zero is an unknown time. */
  predicate NotOlder(destTime: int, sourceTime: int) {
    sourceTime == 0 || destTime == 0 || sourceTime <= destTime
  }

  function IncrementalCopyReason(file: Listed, dest: Result<Node>): Option<Reason> {
    if dest.Err? then
      if dest.error.NotFound? then Some(Missing) else None
    else if dest.value.Dir? then Some(DestIsDir)
    else if file.size != |dest.value.data| then Some(SizeDiffers)
    else if file.modTime != 0 && dest.value.modTime != 0 && file.modTime > dest.value.modTime then Some(Newer)
    else None
  }

  /** A file is left alone exactly when its target is a file of its size that is not known to be older. */
  lemma LeftAloneIff(file: Listed, nodes: Nodes, target: Path)
    requires target != []
    ensures IncrementalCopyReason(file, Lookup(nodes, target)) == None <==>
      IsFile(nodes, target) && |nodes[target].data| == file.size && NotOlder(nodes[target].modTime, file.modTime)
  {
  }

  /* ---------- What becomes of a failed copy ---------- */

  /**
   What a failed ranged copy has left is left alone by the next run exactly when the last byte had been
   written, or there was none to write, and the file is not stamped earlier than its source.
   */
  lemma FailedCopyIsLeftIff(c: ParallelCopy.Config, workers: nat, actions: seq<ParallelCopy.Action>,
                            t: ParallelCopy.State, file: Listed, nodes: Nodes, target: Path, stamp: int)
    requires c.Valid() && workers > 0 && ParallelCopy.Run(c, ParallelCopy.Init(c, workers), actions, t)
    requires ParallelCopy.Terminal(t) && ParallelCopy.Outcome(t).Some?
    requires file.size == c.size && target in nodes && nodes[target] == File(t.file, stamp) && target != []
    ensures |t.written| == c.size
    ensures IncrementalCopyReason(file, Lookup(nodes, target)) == None <==>
      (c.size == 0 || t.written[c.size - 1] == 1) && NotOlder(stamp, file.modTime)
  {
    FailedCopies.WhatTheFileHolds(c, workers, actions, t);
    LeftAloneIff(file, nodes, target);
  }

  /** A run of the engine's ranged copy ends with an error, and what it leaves is wrong and is left alone. */
  ghost predicate WrongAndLeft(content: seq<byte>, size: nat, cores: int, file: Listed, nodes: Nodes, target: Path,
                               stamp: int, actions: seq<ParallelCopy.Action>, t: ParallelCopy.State)
    requires size >= ParallelCopy.MIN_SIZE
  {
    var c := ParallelCopy.EngineConfig(content, size, CopyIO.BUFFER_SIZE, cores);
    && FailedCopies.EndsWrong(c, ParallelCopy.WorkerCount(size, cores), actions, t)
    && IncrementalCopyReason(file, Lookup(nodes[target := File(t.file, stamp)], target)) == None
  }

  /**
   So a wrong file can stay, exactly when there is a second core, the source is as long as was listed, some byte
   before its last chunk is not zero, and the time of the failed copy is not before that of the source.
   */
  lemma HolesAreNotNoticedIff(content: seq<byte>, size: nat, cores: int, file: Listed, nodes: Nodes, target: Path,
                              stamp: int)
    requires size >= ParallelCopy.MIN_SIZE && file.size == size && target != []
    ensures (exists actions, t :: WrongAndLeft(content, size, cores, file, nodes, target, stamp, actions, t)) <==>
      cores >= 2 && size <= |content| && NotOlder(stamp, file.modTime) &&
      FailedCopies.HasByteBeforeLast(ParallelCopy.EngineConfig(content, size, CopyIO.BUFFER_SIZE, cores))
  {
    var c := ParallelCopy.EngineConfig(content, size, CopyIO.BUFFER_SIZE, cores);
    var workers := ParallelCopy.WorkerCount(size, cores);
    FailedCopies.EngineLeavesWrongIff(content, size, CopyIO.BUFFER_SIZE, cores);
    if actions, t :| WrongAndLeft(content, size, cores, file, nodes, target, stamp, actions, t) {
      assert FailedCopies.EndsWrong(c, workers, actions, t);
      LeftAloneIff(file, nodes[target := File(t.file, stamp)], target);
    }
    if actions, t :| FailedCopies.EndsWrong(c, workers, actions, t) {
      LeftAloneIff(file, nodes[target := File(t.file, stamp)], target);
      assert NotOlder(stamp, file.modTime) ==>
        WrongAndLeft(content, size, cores, file, nodes, target, stamp, actions, t);
    }
  }

  /* ---------- Runs over a list of tasks ---------- */

  /** A file to mirror: what was listed, and where it belongs. */
  datatype Task = Task(file: Listed, target: Path)

  predicate TasksOk(tasks: seq<Task>) {
    && (forall i :: 0 <= i < |tasks| ==> tasks[i].target != [])
    && forall i, j :: 0 <= i < j < |tasks| ==> tasks[i].target != tasks[j].target
  }

  predicate UpToDate(nodes: Nodes, task: Task) {
    IncrementalCopyReason(task.file, Lookup(nodes, task.target)) == None
  }

  /** What became of a task; of a copy also what it carried over, and the time that the destination gave it. */
  datatype Event = Current | InFlight | Copied(data: seq<byte>, stamp: int)

  function Apply(nodes: Nodes, task: Task, e: Event): Nodes
    requires task.target != []
  {
    match e
    case Copied(data, stamp) => Placed(nodes, task.target, data, stamp)
    case _ => nodes
  }

  /**
   Under what a run is made. Copies read on another share, which stands still, or on the destination itself;
   `ranged` says whether in ranges. `reserved` are the keys of the transfers that are in flight elsewhere.
   */
  datatype Setting = Setting(other: Option<Nodes>, ranged: bool, srcName: string, dstName: string, reserved: set<string>)
  {
    function Now(nodes: Nodes): Nodes {
      if other.Some? then other.value else nodes
    }

    predicate Reserves(task: Task) {
      TransferKey(srcName, dstName, task.file.path, task.target) in reserved
    }
  }

  /** The file is there, and `data` is what a copy of it carries over. */
  ghost predicate Taken(nodes: Nodes, file: Listed, ranged: bool, data: seq<byte>) {
    && IsFile(nodes, file.path) && data == Carried(nodes[file.path].data, file.size, ranged)
    && (ranged && file.size >= ParallelCopy.MIN_SIZE ==> file.size <= |nodes[file.path].data|)
  }

  /** No copy can be made: a directory or, above it, a file is in the way of the target, or the source is not as listed. */
  ghost predicate TaskBlocked(o: Setting, nodes: Nodes, task: Task) {
    || IsDir(nodes, task.target) || FileAbove(nodes, task.target)
    || !IsFile(o.Now(nodes), task.file.path)
    || (o.ranged && task.file.size >= ParallelCopy.MIN_SIZE && task.file.size > |o.Now(nodes)[task.file.path].data|)
  }

  /** What is up to date is left, what is in flight elsewhere is left to that, and all else is copied. */
  ghost predicate Allowed(o: Setting, nodes: Nodes, task: Task, e: Event) {
    && (e.Current? <==> UpToDate(nodes, task))
    && (e.InFlight? <==> !UpToDate(nodes, task) && o.Reserves(task))
    && (e.Copied? ==> !TaskBlocked(o, nodes, task) && Taken(o.Now(nodes), task.file, o.ranged, e.data))
  }

  /** The destination after the first `n` tasks. */
  function After(start: Nodes, tasks: seq<Task>, events: seq<Event>, n: nat): Nodes
    requires TasksOk(tasks) && n <= |events| <= |tasks|
  {
    if n == 0 then start else Apply(After(start, tasks, events, n - 1), tasks[n - 1], events[n - 1])
  }

  ghost predicate StepOk(o: Setting, start: Nodes, tasks: seq<Task>, events: seq<Event>, i: nat)
    requires TasksOk(tasks) && i < |events| <= |tasks|
  {
    Allowed(o, After(start, tasks, events, i), tasks[i], events[i])
  }

  ghost predicate RunOk(o: Setting, start: Nodes, tasks: seq<Task>, events: seq<Event>)
    requires TasksOk(tasks)
  {
    |events| <= |tasks| && forall i :: 0 <= i < |events| ==> StepOk(o, start, tasks, events, i)
  }

  /** One task changes nothing but its target and missing directories above it. */
  lemma ApplyFrame(nodes: Nodes, task: Task, e: Event, p: Path)
    requires task.target != [] && p != task.target
    ensures p in nodes ==> p in Apply(nodes, task, e) && Apply(nodes, task, e)[p] == nodes[p]
    ensures p !in nodes && p in Apply(nodes, task, e) ==> Apply(nodes, task, e)[p] == Dir && UpTo(p, task.target)
  {
    InPrefixes(Parent(task.target), p);
    if UpTo(p, Parent(task.target)) {
      assert UpTo(Parent(task.target), task.target);
      UpToTransitive(p, Parent(task.target), task.target);
    }
  }

  /** From task `i` on, what is at `p` stays, unless `p` is the target of one of them. */
  lemma {:induction false} Stays(start: Nodes, tasks: seq<Task>, events: seq<Event>, i: nat, n: nat, p: Path)
    requires TasksOk(tasks) && i <= n <= |events| <= |tasks|
    requires forall k :: i <= k < n ==> tasks[k].target != p
    ensures p in After(start, tasks, events, i) ==>
      p in After(start, tasks, events, n) && After(start, tasks, events, n)[p] == After(start, tasks, events, i)[p]
    ensures p !in After(start, tasks, events, i) && p in After(start, tasks, events, n) ==>
      After(start, tasks, events, n)[p] == Dir && exists k :: i <= k < n && UpTo(p, tasks[k].target)
    decreases n - i
  {
    if i < n {
      Stays(start, tasks, events, i, n - 1, p);
      ApplyFrame(After(start, tasks, events, n - 1), tasks[n - 1], events[n - 1], p);
    }
  }

  /** A copied target holds what was copied to it, to the end of the run. */
  lemma CopiedHolds(start: Nodes, tasks: seq<Task>, events: seq<Event>, i: nat)
    requires TasksOk(tasks) && |events| <= |tasks| && i < |events| && events[i].Copied?
    ensures var end := After(start, tasks, events, |events|);
      tasks[i].target in end && end[tasks[i].target] == File(events[i].data, events[i].stamp)
  {
    Stays(start, tasks, events, i + 1, |events|, tasks[i].target);
    assert After(start, tasks, events, i + 1) == Apply(After(start, tasks, events, i), tasks[i], events[i]);
  }

  /** Where no task goes, the files are the same ones later on. */
  lemma FileStays(start: Nodes, tasks: seq<Task>, events: seq<Event>, i: nat, n: nat, p: Path)
    requires TasksOk(tasks) && i <= n <= |events| <= |tasks|
    requires forall k :: i <= k < n ==> tasks[k].target != p
    ensures IsFile(After(start, tasks, events, n), p) <==> IsFile(After(start, tasks, events, i), p)
    ensures IsFile(After(start, tasks, events, n), p) ==>
      After(start, tasks, events, n)[p] == After(start, tasks, events, i)[p]
  {
    Stays(start, tasks, events, i, n, p);
  }

  /** A target that was current is the file it was at the start. */
  lemma CurrentHolds(o: Setting, start: Nodes, tasks: seq<Task>, events: seq<Event>, i: nat)
    requires TasksOk(tasks) && RunOk(o, start, tasks, events) && i < |events| && events[i].Current?
    ensures UpToDate(start, tasks[i]) && IsFile(start, tasks[i].target)
    ensures var end := After(start, tasks, events, |events|);
      IsFile(end, tasks[i].target) && end[tasks[i].target] == start[tasks[i].target]
  {
    assert StepOk(o, start, tasks, events, i);
    var target := tasks[i].target;
    LeftAloneIff(tasks[i].file, After(start, tasks, events, i), target);
    FileStays(start, tasks, events, 0, i, target);
    assert After(start, tasks, events, i + 1) == After(start, tasks, events, i);
    FileStays(start, tasks, events, i + 1, |events|, target);
    LeftAloneIff(tasks[i].file, start, target);
  }

  /**
   At the end of a run, a file that was not found in flight needs no copy, except when it was copied and the copy
   is of another size than was listed, or the destination's clock stamped it earlier than the source.
   */
  lemma SettledIff(o: Setting, start: Nodes, tasks: seq<Task>, events: seq<Event>, i: nat)
    requires TasksOk(tasks) && RunOk(o, start, tasks, events) && i < |events| && !events[i].InFlight?
    ensures UpToDate(After(start, tasks, events, |events|), tasks[i]) <==>
      (events[i].Copied? ==> |events[i].data| == tasks[i].file.size && NotOlder(events[i].stamp, tasks[i].file.modTime))
  {
    LeftAloneIff(tasks[i].file, After(start, tasks, events, |events|), tasks[i].target);
    if events[i].Copied? {
      CopiedHolds(start, tasks, events, i);
    } else {
      CurrentHolds(o, start, tasks, events, i);
      LeftAloneIff(tasks[i].file, start, tasks[i].target);
    }
  }

  /** All that is not a target is as before, but for new directories above targets. */
  lemma OthersUntouched(start: Nodes, tasks: seq<Task>, events: seq<Event>, p: Path)
    requires TasksOk(tasks) && |events| <= |tasks|
    requires forall k :: 0 <= k < |events| ==> tasks[k].target != p
    ensures var end := After(start, tasks, events, |events|);
      && (p in start ==> p in end && end[p] == start[p])
      && (p !in start && p in end ==> end[p] == Dir && exists k :: 0 <= k < |events| && UpTo(p, tasks[k].target))
  {
    Stays(start, tasks, events, 0, |events|, p);
  }

  /** A run over tasks none of which needs copying finds them all current and changes nothing. */
  lemma {:induction false} NothingToDo(o: Setting, start: Nodes, tasks: seq<Task>, events: seq<Event>, n: nat)
    requires TasksOk(tasks) && RunOk(o, start, tasks, events) && n <= |events|
    requires forall i :: 0 <= i < |tasks| ==> UpToDate(start, tasks[i])
    ensures After(start, tasks, events, n) == start
    ensures forall i :: 0 <= i < n ==> events[i].Current?
  {
    if n > 0 {
      NothingToDo(o, start, tasks, events, n - 1);
      assert StepOk(o, start, tasks, events, n - 1);
    }
  }

  /* ---------- What copies carry over ---------- */

  /** No earlier copy of the run has gone to where file `i` is read. */
  ghost predicate Unspoilt(tasks: seq<Task>, events: seq<Event>, i: nat)
    requires i <= |events| <= |tasks| && i < |tasks|
  {
    forall k :: 0 <= k < i && events[k].Copied? ==> tasks[k].target != tasks[i].file.path
  }

  /** What no copy goes to is the same file later on; `n` tasks have been dealt with. */
  lemma {:induction false} FileKeeps(start: Nodes, tasks: seq<Task>, events: seq<Event>, n: nat, p: Path)
    requires TasksOk(tasks) && n <= |events| <= |tasks|
    requires forall k :: 0 <= k < n && events[k].Copied? ==> tasks[k].target != p
    ensures IsFile(After(start, tasks, events, n), p) <==> IsFile(start, p)
    ensures IsFile(start, p) ==> After(start, tasks, events, n)[p] == start[p]
  {
    if n > 0 {
      FileKeeps(start, tasks, events, n - 1, p);
      if tasks[n - 1].target != p {
        ApplyFrame(After(start, tasks, events, n - 1), tasks[n - 1], events[n - 1], p);
      }
    }
  }

  /** A file that nothing has been copied over is copied as it was listed. */
  lemma CarriedAsListed(o: Setting, start: Nodes, tasks: seq<Task>, events: seq<Event>, i: nat)
    requires TasksOk(tasks) && RunOk(o, start, tasks, events) && i < |events| && events[i].Copied?
    requires var file := tasks[i].file; IsFile(o.Now(start), file.path) && file == ListedAs(o.Now(start), file.path)
    requires o.other.None? ==> Unspoilt(tasks, events, i)
    ensures events[i].data == o.Now(start)[tasks[i].file.path].data && |events[i].data| == tasks[i].file.size
  {
    assert StepOk(o, start, tasks, events, i);
    if o.other.None? {
      FileKeeps(start, tasks, events, i, tasks[i].file.path);
    }
  }

  /** Within one share, a file that was copied over before it was read passes on what it then held. */
  lemma CarriedFromCopy(o: Setting, start: Nodes, tasks: seq<Task>, events: seq<Event>, i: nat, k: nat)
    requires TasksOk(tasks) && RunOk(o, start, tasks, events) && k < i < |events| && o.other.None?
    requires events[i].Copied? && events[k].Copied? && tasks[k].target == tasks[i].file.path
    ensures events[i].data == Carried(events[k].data, tasks[i].file.size, o.ranged)
  {
    HeldSince(start, tasks, events, k, i);
    ReadThen(o, start, tasks, events, i);
  }

  /** What was copied to a target is there when another task comes up. */
  lemma HeldSince(start: Nodes, tasks: seq<Task>, events: seq<Event>, k: nat, n: nat)
    requires TasksOk(tasks) && k < n <= |events| <= |tasks| && events[k].Copied?
    ensures var now := After(start, tasks, events, n);
      tasks[k].target in now && now[tasks[k].target] == File(events[k].data, events[k].stamp)
  {
    assert After(start, tasks, events, k + 1) == Apply(After(start, tasks, events, k), tasks[k], events[k]);
    FileStays(start, tasks, events, k + 1, n, tasks[k].target);
  }

  lemma ReadThen(o: Setting, start: Nodes, tasks: seq<Task>, events: seq<Event>, i: nat)
    requires TasksOk(tasks) && RunOk(o, start, tasks, events) && i < |events| && events[i].Copied?
    ensures Taken(o.Now(After(start, tasks, events, i)), tasks[i].file, o.ranged, events[i].data)
  {
    assert StepOk(o, start, tasks, events, i);
  }

  /* ---------- Where files go ---------- */

  /** Where a file at or below `source` belongs under `dest`. */
  function TargetOf(source: Path, dest: Path, p: Path): Path
    requires UpTo(source, p) && p != []
  {
    Paths.TargetNames(dest, source, p[|source|..])
  }

  lemma SameTail(head: Path, a: Path, b: Path)
    requires head + a == head + b
    ensures a == b
  {
    assert a == (head + a)[|head|..] && b == (head + b)[|head|..];
  }

  lemma TargetInjective(nodes: Nodes, source: Path, dest: Path, p: Path, q: Path)
    requires IsTree(nodes) && IsFile(nodes, p) && IsFile(nodes, q) && UpTo(source, p) && UpTo(source, q)
    requires TargetOf(source, dest, p) == TargetOf(source, dest, q)
    ensures p == q
  {
    if p != q {
      assert p == source + p[|source|..] && q == source + q[|source|..];
      if p == source {
        AncestorIsDir(nodes, q, p);
      } else if q == source {
        AncestorIsDir(nodes, p, q);
      } else {
        SameTail(dest, p[|source|..], q[|source|..]);
      }
    }
  }

  predicate AllBelow(source: Path, files: seq<Listed>) {
    forall i :: 0 <= i < |files| ==> UpTo(source, files[i].path) && files[i].path != []
  }

  function Tasks(source: Path, dest: Path, files: seq<Listed>): (tasks: seq<Task>)
    requires AllBelow(source, files)
    ensures |tasks| == |files|
    ensures forall i :: 0 <= i < |files| ==> tasks[i] == Task(files[i], TargetOf(source, dest, files[i].path))
  {
    seq(|files|, i requires 0 <= i < |files| => Task(files[i], TargetOf(source, dest, files[i].path)))
  }

  lemma TasksAreOk(nodes: Nodes, source: Path, dest: Path, files: seq<Listed>)
    requires IsTree(nodes) && FilesBelow(nodes, source, files)
    ensures AllBelow(source, files) && TasksOk(Tasks(source, dest, files))
  {
    var tasks := Tasks(source, dest, files);
    forall i, j | 0 <= i < j < |files|
      ensures tasks[i].target != tasks[j].target
    {
      if tasks[i].target == tasks[j].target {
        TargetInjective(nodes, source, dest, files[i].path, files[j].path);
        assert false;
      }
    }
  }

  /* ---------- Paths that backends keep ---------- */

  /** The text computed for a target names the target. */
  lemma TargetText(source: Path, dest: Path, p: Path)
    requires Paths.AreNames(source) && Paths.AreNames(dest) && Paths.AreNames(p) && UpTo(source, p) && p != []
    ensures var text := Paths.Target(Paths.Rel(source), Paths.Rel(dest), Paths.Rel(p));
      text == Paths.Rel(TargetOf(source, dest, p)) && Paths.Names(text) == TargetOf(source, dest, p) != []
    ensures Paths.AreNames(TargetOf(source, dest, p))
  {
    var tail := p[|source|..];
    assert source + tail == p;
    Paths.TargetIs(source, dest, tail);
    Paths.NamesOfRel(TargetOf(source, dest, p));
  }

  /** What a rule needs of a file: it is found under its own path, and its target is too. */
  ghost predicate FileReady(source: Path, dest: Path, p: Path)
    requires UpTo(source, p)
  {
    p != [] && Kept(p) && Lands(TargetOf(source, dest, p))
  }

  /** The source and what lies below it are found under their own paths, and so will be the targets. */
  ghost predicate Ready(nodes: Nodes, source: Path, dest: Path) {
    && Kept(source) && Paths.AreNames(dest) && DirsKept(nodes, source)
    && forall p :: IsFile(nodes, p) && UpTo(source, p) ==> FileReady(source, dest, p)
  }

  /** A copy reads the file that it is asked for, whatever else is there, exactly if that file is found again. */
  lemma ReadsItselfIff(p: Path, dest: Path)
    requires Paths.AreNames(p) && p != []
    ensures Kept(p) <==> forall nodes: Nodes :: IsTree(nodes) && IsFile(nodes, p) ==>
      Available(nodes, false, p, dest) == nodes[p].data
  {
    if !Kept(p) {
      var nodes := Placed(map[], p, [1], 0);
      assert !FileAbove(map[], p) && IsTree(map[]);
      PlacedTouches(map[], p, [1], 0);
      assert IsFile(nodes, p) && nodes[p].data == [1];
      assert Available(nodes, false, p, dest) == [];
    }
  }

  /** A file whose name ends in a space is mistaken for the one without it. */
  lemma SpacedFileIsMistaken(nodes: Nodes, p: Path, dest: Path)
    requires Kept(p) && p != []
    ensures Available(nodes, false, Parent(p) + [p[|p| - 1] + " "], dest) == if IsFile(nodes, p) then nodes[p].data else []
  {
    assert p == Parent(p) + [p[|p| - 1]];
    SpacedText(Parent(p), p[|p| - 1]);
    TrailingSpaceIsDropped(p);
  }

  /* ---------- The mirror ---------- */

  datatype Rule = Rule(srcName: string, srcPath: string, dstName: string, dstPath: string)

  datatype IncrementalResult = IncrementalResult(scanned: nat, copied: nat, skipped: nat, bytes: nat)

  function CopiedCount(events: seq<Event>): nat {
    if events == [] then 0
    else CopiedCount(events[..|events| - 1]) + if events[|events| - 1].Copied? then 1 else 0
  }

  /** The sizes of the copied files, added up. */
  function CopiedBytes(files: seq<Listed>, events: seq<Event>): nat
    requires |events| <= |files|
  {
    if events == [] then 0
    else
      var n := |events| - 1;
      CopiedBytes(files, events[..n]) + if events[n].Copied? then files[n].size else 0
  }

  /** The counters after some of the files. */
  predicate CountsAre(result: IncrementalResult, files: seq<Listed>, events: seq<Event>) {
    && |events| <= |files| == result.scanned
    && result.copied == CopiedCount(events) && result.copied + result.skipped == |events|
    && result.bytes == CopiedBytes(files, events)
  }

  lemma CountsSnoc(files: seq<Listed>, events: seq<Event>, e: Event)
    requires |events| < |files|
    ensures CopiedCount(events + [e]) == CopiedCount(events) + if e.Copied? then 1 else 0
    ensures CopiedBytes(files, events + [e]) == CopiedBytes(files, events) + if e.Copied? then files[|events|].size else 0
  {
    assert (events + [e])[..|events|] == events;
  }

  lemma {:induction false} AfterPrefix(start: Nodes, tasks: seq<Task>, events: seq<Event>, e: Event, n: nat)
    requires TasksOk(tasks) && n <= |events| < |tasks|
    ensures After(start, tasks, events + [e], n) == After(start, tasks, events, n)
  {
    if n > 0 {
      AfterPrefix(start, tasks, events, e, n - 1);
    }
  }

  lemma RunSnoc(o: Setting, start: Nodes, tasks: seq<Task>, events: seq<Event>, e: Event)
    requires TasksOk(tasks) && RunOk(o, start, tasks, events) && |events| < |tasks|
    requires Allowed(o, After(start, tasks, events, |events|), tasks[|events|], e)
    ensures RunOk(o, start, tasks, events + [e])
    ensures After(start, tasks, events + [e], |events| + 1)
         == Apply(After(start, tasks, events, |events|), tasks[|events|], e)
  {
    AfterPrefix(start, tasks, events, e, |events|);
    forall i | 0 <= i < |events|
      ensures StepOk(o, start, tasks, events + [e], i)
    {
      StepStays(o, start, tasks, events, e, i);
    }
  }

  lemma StepStays(o: Setting, start: Nodes, tasks: seq<Task>, events: seq<Event>, e: Event, i: nat)
    requires TasksOk(tasks) && i < |events| < |tasks| && StepOk(o, start, tasks, events, i)
    ensures StepOk(o, start, tasks, events + [e], i)
  {
    AfterPrefix(start, tasks, events, e, i);
  }

  /** The destination is as after the tasks that have events. */
  ghost predicate Progress(o: Setting, start: Nodes, nodes: Nodes, tasks: seq<Task>, events: seq<Event>) {
    TasksOk(tasks) && RunOk(o, start, tasks, events) && nodes == After(start, tasks, events, |events|)
  }

  /** The tasks that have events are done, and at most the next target is half done. */
  ghost predicate Stopped(o: Setting, start: Nodes, nodes: Nodes, tasks: seq<Task>, events: seq<Event>) {
    && TasksOk(tasks) && RunOk(o, start, tasks, events) && |events| < |tasks|
    && OnlyTouches(After(start, tasks, events, |events|), nodes, tasks[|events|].target)
  }

  /** A run of the mirror: what it started from, what it listed, and what became of the files, as far as it came. */
  datatype Mirror = Mirror(setting: Setting, start: Nodes, source: Path, dest: Path, files: seq<Listed>, events: seq<Event>)
  {
    /** What the files were listed from. */
    function Src(): Nodes { setting.Now(start) }
  }

  /** The files listed are those at or below the source. */
  ghost predicate Listing(m: Mirror) {
    IsTree(m.Src()) && FilesBelow(m.Src(), m.source, m.files) && AllBelow(m.source, m.files)
  }

  /** A complete run, that has come to `end`: everything below the source was listed, and every file was dealt with. */
  ghost predicate Mirrored(m: Mirror, end: Nodes) {
    Listing(m) && |m.events| == |m.files| &&
    Progress(m.setting, m.start, end, Tasks(m.source, m.dest, m.files), m.events)
  }

  /** A run that ended because a file could not be copied. */
  ghost predicate StuckIn(m: Mirror) {
    Listing(m) && StuckAt(m.setting, m.start, Tasks(m.source, m.dest, m.files), m.events)
  }

  /** A run that ended early: one file may be half done, and those before it are as in a complete run. */
  ghost predicate Interrupted(m: Mirror, end: Nodes) {
    Listing(m) && Stopped(m.setting, m.start, end, Tasks(m.source, m.dest, m.files), m.events)
  }

  /** Where a backend looks when a rule names a path. */
  function PathOf(raw: string): Path {
    if KeyOf(raw).Ok? then KeyOf(raw).value else []
  }

  predicate Accepts(rule: Rule) { KeyOf(rule.srcPath).Ok? && KeyOf(rule.dstPath).Ok? }

  lemma PathOfHasNames(raw: string)
    ensures Paths.AreNames(PathOf(raw))
  {
    if KeyOf(raw).Ok? {
      KeyHasNames(raw);
    }
  }

  /** The task of mirroring `file`, whose path and target are found again. */
  ghost predicate IsTask(rule: Rule, file: Listed, task: Task) {
    var source, dest := PathOf(rule.srcPath), PathOf(rule.dstPath);
    UpTo(source, file.path) && FileReady(source, dest, file.path) &&
    task == Task(file, TargetOf(source, dest, file.path))
  }

  /** Under what a rule is run between two shares. */
  ghost function SettingOf(src: Share, dst: Share, ranged: bool, rule: Rule, reserved: set<string>): Setting
    reads src
  {
    Setting(if src == dst then None else Some(src.nodes), ranged, rule.srcName, rule.dstName, reserved)
  }

  /**
   Compares one file with its target, and copies it where that is called for. `ranged` says whether both
   backends can copy ranges, and `cores` bounds the workers for that. Unless the context is cancelled or a share
   reports an I/O error, it fails only for a stale file that is free to be copied and cannot be.
   */
  method SyncFile(transfers: TransferLocks.TransferLock, ctx: CopyIO.Context, src: Share, dst: Share, rule: Rule,
                  ranged: bool, cores: int, file: Listed, ghost task: Task)
    returns (error: Option<Error>, copied: bool, ghost e: Event)
    requires IsTree(dst.nodes) && IsTask(rule, file, task)
    requires src == dst && task.target == file.path ==> UpToDate(dst.nodes, task)
    modifies transfers, ctx, src`faulted, dst
    ensures transfers.active == old(transfers.active)
    ensures task.target != [] && IsTree(dst.nodes)
    ensures Sticky(old(ctx.cancelled), old(src.faulted), old(dst.faulted), ctx, src, dst)
    ensures error.None? ==> (copied <==> e.Copied?)
    ensures error.None? ==>
      Allowed(old(SettingOf(src, dst, ranged, rule, transfers.active)), old(dst.nodes), task, e)
    ensures error.None? ==> dst.nodes == Apply(old(dst.nodes), task, e)
    ensures error.Some? && !Trouble(ctx, src, dst) ==>
      Stuck(old(SettingOf(src, dst, ranged, rule, transfers.active)), old(dst.nodes), task)
    ensures OnlyTouches(old(dst.nodes), dst.nodes, task.target)
  {
    var source, dest := PathOf(rule.srcPath), PathOf(rule.dstPath);
    PathOfHasNames(rule.srcPath);
    PathOfHasNames(rule.dstPath);
    var target := Paths.Target(Paths.Rel(source), Paths.Rel(dest), Paths.Rel(file.path));
    TargetText(source, dest, file.path);
    e := Current;
    copied := false;
    var destEntry := Stat(dst, target);
    if destEntry.Err? && destEntry.error != NotFound {
      error := Some(destEntry.error);
      return;
    }
    assert destEntry == Lookup(dst.nodes, task.target);
    var reason := IncrementalCopyReason(file, destEntry);
    if reason.None? {
      error := None;
      return;
    }
    error, copied, e := CopyTask(transfers, ctx, src, dst, rule, Paths.Names(target), ranged, cores, file, task);
  }

  /** The file is stale and not in flight, and cannot be copied. */
  ghost predicate Stuck(o: Setting, nodes: Nodes, task: Task) {
    !UpToDate(nodes, task) && !o.Reserves(task) && TaskBlocked(o, nodes, task)
  }

  /** The copy of a task, overwriting what is there. */
  method CopyTask(transfers: TransferLocks.TransferLock, ctx: CopyIO.Context, src: Share, dst: Share, rule: Rule,
                  target: Path, ranged: bool, cores: int, file: Listed, ghost task: Task)
    returns (error: Option<Error>, copied: bool, ghost e: Event)
    requires IsTree(dst.nodes) && task == Task(file, target) && Lands(target) && Kept(file.path)
    requires (src == dst ==> target != file.path) && !UpToDate(dst.nodes, task)
    modifies transfers, ctx, src`faulted, dst
    ensures transfers.active == old(transfers.active) && IsTree(dst.nodes)
    ensures Sticky(old(ctx.cancelled), old(src.faulted), old(dst.faulted), ctx, src, dst)
    ensures error.None? ==> (copied <==> e.Copied?)
    ensures error.None? ==>
      Allowed(old(SettingOf(src, dst, ranged, rule, transfers.active)), old(dst.nodes), task, e)
    ensures error.None? ==> dst.nodes == Apply(old(dst.nodes), task, e)
    ensures error.Some? && !Trouble(ctx, src, dst) ==>
      Stuck(old(SettingOf(src, dst, ranged, rule, transfers.active)), old(dst.nodes), task)
    ensures OnlyTouches(old(dst.nodes), dst.nodes, target)
  {
    ghost var start, before, o := dst.nodes, src.nodes, SettingOf(src, dst, ranged, rule, transfers.active);
    var outcome, data, stamp := CopyOneFile(transfers, ctx, src, dst, rule.srcName, rule.dstName, file.path, target,
                                            file.size, true, ranged, cores, null);
    copied := outcome.Done?;
    e := if outcome.Done? then Copied(data, stamp) else Event.InFlight;
    error := if outcome.Failed? then Some(outcome.error) else None;
    TaskBlockedIs(o, before, start, src == dst, task);
    if outcome.Done? {
      TakenFrom(before, src == dst, file, target, ranged, data);
      DeliveredWhereItLands(start, dst.nodes, target, data, stamp);
    }
  }

  /** For paths that are found again, what stands in the way of the task is what stands in the way of the copy. */
  lemma TaskBlockedIs(o: Setting, srcNodes: Nodes, nodes: Nodes, oneShare: bool, task: Task)
    requires IsTree(nodes) && Kept(task.file.path) && Lands(task.target) && (oneShare ==> task.target != task.file.path)
    requires srcNodes == o.Now(nodes)
    ensures Blocked(srcNodes, nodes, oneShare, task.file.path, task.target, task.file.size, true, o.ranged) <==>
      TaskBlocked(o, nodes, task)
  {
    var target := task.target;
    if |target| > 1 {
      LandingApproach(nodes, target);
    }
  }

  /** The approach to a target that lands fails only on a file above it, and is none of the target's business else. */
  lemma LandingApproach(nodes: Nodes, target: Path)
    requires IsTree(nodes) && Lands(target) && |target| > 1
    ensures Approached(nodes, target).None? ==> FileAbove(nodes, target)
    ensures Approached(nodes, target).Some? ==>
      var mid := Approached(nodes, target).value;
      (FileAbove(mid, target) <==> FileAbove(nodes, target)) && (IsDir(mid, target) <==> IsDir(nodes, target))
  {
    var keys := PrefixKeys(KeyOf(Paths.Rel(Parent(target))).value);
    EnsuredGrows(nodes, keys, |keys|, Parent(target));
    if Approached(nodes, target).None? {
      var p :| IsFile(nodes, p) && UpTo(p, Parent(target));
      assert Above(p, target);
    } else {
      var mid := Approached(nodes, target).value;
      assert !UpTo(target, Parent(target));
      assert forall p :: IsFile(nodes, p) <==> IsFile(mid, p);
    }
  }

  /** What the copy of one file reads, for a path that is found again and is not the target. */
  lemma TakenFrom(nodes: Nodes, oneShare: bool, file: Listed, target: Path, ranged: bool, data: seq<byte>)
    requires Kept(file.path) && Kept(target) && (oneShare ==> target != file.path)
    requires Read(nodes, oneShare, file.path, target, file.size, ranged, data)
    ensures Taken(nodes, file, ranged, data)
  {
  }

  lemma ProgressSnoc(o: Setting, start: Nodes, before: Nodes, after: Nodes, tasks: seq<Task>, events: seq<Event>, e: Event)
    requires Progress(o, start, before, tasks, events) && |events| < |tasks|
    requires Allowed(o, before, tasks[|events|], e) && after == Apply(before, tasks[|events|], e)
    ensures Progress(o, start, after, tasks, events + [e])
  {
    RunSnoc(o, start, tasks, events, e);
  }

  lemma StoppedAfter(o: Setting, start: Nodes, before: Nodes, after: Nodes, tasks: seq<Task>, events: seq<Event>)
    requires Progress(o, start, before, tasks, events) && |events| < |tasks|
    requires OnlyTouches(before, after, tasks[|events|].target)
    ensures Stopped(o, start, after, tasks, events)
  {
  }

  /** The tasks of mirroring the files. */
  ghost predicate AreTasks(rule: Rule, files: seq<Listed>, tasks: seq<Task>) {
    TasksOk(tasks) && |tasks| == |files| && forall i :: 0 <= i < |files| ==> IsTask(rule, files[i], tasks[i])
  }

  /** A file whose target is its own place was listed as it is, so it is current. */
  ghost predicate SelvesCurrent(nodes: Nodes, tasks: seq<Task>) {
    forall i :: 0 <= i < |tasks| && tasks[i].target == tasks[i].file.path ==> UpToDate(nodes, tasks[i])
  }

  /** And stays so, because no other file goes there. */
  lemma SelfIsCurrent(start: Nodes, tasks: seq<Task>, events: seq<Event>)
    requires TasksOk(tasks) && |events| < |tasks| && SelvesCurrent(start, tasks)
    ensures var task := tasks[|events|];
      task.target == task.file.path ==> UpToDate(After(start, tasks, events, |events|), task)
  {
    var i := |events|;
    FileStays(start, tasks, events, 0, i, tasks[i].target);
    LeftAloneIff(tasks[i].file, start, tasks[i].target);
    LeftAloneIff(tasks[i].file, After(start, tasks, events, i), tasks[i].target);
  }

  lemma ListedAreCurrent(nodes: Nodes, tasks: seq<Task>)
    requires TasksOk(tasks)
    requires forall i :: 0 <= i < |tasks| ==>
      IsFile(nodes, tasks[i].file.path) && tasks[i].file == ListedAs(nodes, tasks[i].file.path)
    ensures SelvesCurrent(nodes, tasks)
  {
  }

  /** Where the loop over the files stands: the destination and the counters are those of the events so far. */
  ghost predicate Underway(o: Setting, start: Nodes, nodes: Nodes, tasks: seq<Task>, events: seq<Event>,
                           files: seq<Listed>, result: IncrementalResult)
  {
    IsTree(nodes) && Progress(o, start, nodes, tasks, events) && CountsAre(result, files, events)
  }

  lemma NothingDone(o: Setting, start: Nodes, tasks: seq<Task>, files: seq<Listed>)
    requires IsTree(start) && TasksOk(tasks)
    ensures Underway(o, start, start, tasks, [], files, IncrementalResult(|files|, 0, 0, 0))
  {
  }

  lemma StoppedHere(o: Setting, start: Nodes, nodes: Nodes, tasks: seq<Task>, events: seq<Event>, files: seq<Listed>,
                    result: IncrementalResult)
    requires Underway(o, start, nodes, tasks, events, files, result) && |events| < |tasks|
    ensures Ended(o, start, nodes, tasks, events, true)
  {
  }

  /** The loop has come to an early end, with some trouble or at a file that is stuck. */
  ghost predicate Ended(o: Setting, start: Nodes, nodes: Nodes, tasks: seq<Task>, events: seq<Event>, trouble: bool) {
    Stopped(o, start, nodes, tasks, events) && (trouble || StuckAt(o, start, tasks, events))
  }

  /** One turn of the loop over the files: file `i` is compared, perhaps copied, and counted. */
  method SyncNext(transfers: TransferLocks.TransferLock, ctx: CopyIO.Context, src: Share, dst: Share,
                  rule: Rule, ranged: bool, cores: int, files: seq<Listed>, i: nat, result: IncrementalResult,
                  ghost tasks: seq<Task>, ghost start: Nodes, ghost events: seq<Event>, ghost o: Setting)
    returns (next: IncrementalResult, error: Option<Error>, ghost e: Event)
    requires AreTasks(rule, files, tasks) && (src == dst ==> SelvesCurrent(start, tasks)) && |events| == i < |files|
    requires SettingOf(src, dst, ranged, rule, transfers.active) == o
    requires Underway(o, start, dst.nodes, tasks, events, files, result)
    modifies transfers, ctx, src`faulted, dst
    ensures transfers.active == old(transfers.active) && IsTree(dst.nodes)
    ensures error.None? ==> Underway(o, start, dst.nodes, tasks, events + [e], files, next)
    ensures error.Some? ==> next == result && Ended(o, start, dst.nodes, tasks, events, Trouble(ctx, src, dst))
  {
    ghost var before := dst.nodes;
    if src == dst {
      SelfIsCurrent(start, tasks, events);
    }
    var copied: bool;
    error, copied, e := SyncFile(transfers, ctx, src, dst, rule, ranged, cores, files[i], tasks[i]);
    if error.Some? {
      StoppedAfter(o, start, before, dst.nodes, tasks, events);
      return result, error, e;
    }
    ProgressSnoc(o, start, before, dst.nodes, tasks, events, e);
    next := CountFile(files, i, result, copied, events, e);
  }

  /** The same after a look at the context. */
  method SyncTurn(transfers: TransferLocks.TransferLock, ctx: CopyIO.Context, src: Share, dst: Share,
                  rule: Rule, ranged: bool, cores: int, files: seq<Listed>, i: nat, result: IncrementalResult,
                  ghost tasks: seq<Task>, ghost start: Nodes, ghost before: seq<Event>, ghost o: Setting)
    returns (next: IncrementalResult, error: Option<Error>, ghost events: seq<Event>)
    requires AreTasks(rule, files, tasks) && (src == dst ==> SelvesCurrent(start, tasks)) && |before| == i < |files|
    requires SettingOf(src, dst, ranged, rule, transfers.active) == o
    requires Underway(o, start, dst.nodes, tasks, before, files, result)
    modifies transfers, ctx, src`faulted, dst
    ensures transfers.active == old(transfers.active) && IsTree(dst.nodes)
    ensures error.None? ==> |events| == i + 1 && Underway(o, start, dst.nodes, tasks, events, files, next)
    ensures error.Some? ==> next == result && events == before
    ensures error.Some? ==> Ended(o, start, dst.nodes, tasks, events, Trouble(ctx, src, dst))
    ensures old(ctx.cancelled) ==> ctx.cancelled && error == Some(Error.Canceled)
  {
    next, events := result, before;
    error := ctx.Err();
    if error.Some? {
      StoppedHere(o, start, dst.nodes, tasks, before, files, result);
      return;
    }
    ghost var e := Current;
    next, error, e :=
      SyncNext(transfers, ctx, src, dst, rule, ranged, cores, files, i, result, tasks, start, before, o);
    if error.None? {
      events := before + [e];
    }
  }

  /** The file that comes next is stuck. */
  ghost predicate StuckAt(o: Setting, start: Nodes, tasks: seq<Task>, events: seq<Event>) {
    && TasksOk(tasks) && |events| < |tasks|
    && Stuck(o, After(start, tasks, events, |events|), tasks[|events|])
  }

  method CountFile(files: seq<Listed>, i: nat, result: IncrementalResult, copied: bool, ghost events: seq<Event>,
                   ghost e: Event)
    returns (next: IncrementalResult)
    requires |events| == i < |files| && CountsAre(result, files, events) && (copied <==> e.Copied?)
    ensures CountsAre(next, files, events + [e])
  {
    CountsSnoc(files, events, e);
    next := if copied then result.(copied := result.copied + 1, bytes := result.bytes + files[i].size)
            else result.(skipped := result.skipped + 1);
  }

  /** The loop over the listed files. */
  method SyncFiles(transfers: TransferLocks.TransferLock, ctx: CopyIO.Context, src: Share, dst: Share,
                   rule: Rule, ranged: bool, cores: int, files: seq<Listed>, ghost tasks: seq<Task>, ghost o: Setting)
    returns (result: IncrementalResult, error: Option<Error>, ghost events: seq<Event>)
    requires SettingOf(src, dst, ranged, rule, transfers.active) == o
    requires IsTree(dst.nodes) && AreTasks(rule, files, tasks) && (src == dst ==> SelvesCurrent(dst.nodes, tasks))
    modifies transfers, ctx, src`faulted, dst
    ensures transfers.active == old(transfers.active) && IsTree(dst.nodes)
    ensures CountsAre(result, files, events)
    ensures error.None? ==> |events| == |files| && Progress(o, old(dst.nodes), dst.nodes, tasks, events)
    ensures error.Some? ==> Ended(o, old(dst.nodes), dst.nodes, tasks, events, Trouble(ctx, src, dst))
    ensures old(ctx.cancelled) && files != [] ==> error == Some(Error.Canceled) && events == []
  {
    result, events := IncrementalResult(|files|, 0, 0, 0), [];
    ghost var start := dst.nodes;
    NothingDone(o, start, tasks, files);
    for i := 0 to |files|
      invariant transfers.active == old(transfers.active) && SettingOf(src, dst, ranged, rule, transfers.active) == o
      invariant |events| == i && Underway(o, start, dst.nodes, tasks, events, files, result)
      invariant old(ctx.cancelled) ==> i == 0 && ctx.cancelled
    {
      result, error, events :=
        SyncTurn(transfers, ctx, src, dst, rule, ranged, cores, files, i, result, tasks, start, events, o);
      if error.Some? {
        return;
      }
    }
    error := None;
  }

  /** The files that a rule names as its source, in a share that is ready for it, are tasks. */
  lemma ListedAreTasks(nodes: Nodes, rule: Rule, files: seq<Listed>)
    requires IsTree(nodes) && Ready(nodes, PathOf(rule.srcPath), PathOf(rule.dstPath))
    requires FilesBelow(nodes, PathOf(rule.srcPath), files)
    ensures AllBelow(PathOf(rule.srcPath), files)
    ensures var tasks := Tasks(PathOf(rule.srcPath), PathOf(rule.dstPath), files);
      AreTasks(rule, files, tasks) && SelvesCurrent(nodes, tasks)
  {
    TasksAreOk(nodes, PathOf(rule.srcPath), PathOf(rule.dstPath), files);
    ListedAreCurrent(nodes, Tasks(PathOf(rule.srcPath), PathOf(rule.dstPath), files));
  }

  /**
   The mirror of one rule, between two shares or within one. Its counters tell what was done; a successful run
   has dealt with every file below the source, and a failed one has left at most one file half done.
   */
  method SyncIncremental(transfers: TransferLocks.TransferLock, ctx: CopyIO.Context, src: Share, dst: Share,
                         rule: Rule, ranged: bool, cores: int)
    returns (result: IncrementalResult, error: Option<Error>, ghost m: Mirror)
    requires IsTree(src.nodes) && IsTree(dst.nodes)
    requires Accepts(rule) ==> Ready(src.nodes, PathOf(rule.srcPath), PathOf(rule.dstPath))
    modifies transfers, ctx, src`faulted, dst
    ensures transfers.active == old(transfers.active) && IsTree(dst.nodes)
    ensures m.setting == old(SettingOf(src, dst, ranged, rule, transfers.active)) && m.start == old(dst.nodes)
    ensures m.source == PathOf(rule.srcPath) && m.dest == PathOf(rule.dstPath) && CountsAre(result, m.files, m.events)
    ensures error.None? ==> Accepts(rule) && Mirrored(m, dst.nodes)
    ensures error.Some? ==>
      (m.files == [] && m.events == [] && dst.nodes == old(dst.nodes)) || Interrupted(m, dst.nodes)
    ensures error.Some? && !Trouble(ctx, src, dst) && Accepts(rule) ==>
      Lookup(old(src.nodes), PathOf(rule.srcPath)) == Err(NotFound) || StuckIn(m)
    ensures old(ctx.cancelled) && error.None? ==> m.files == []
    ensures !Accepts(rule) ==> error == Some(InvalidInput)
  {
    result := IncrementalResult(0, 0, 0, 0);
    m := Mirror(SettingOf(src, dst, ranged, rule, transfers.active), dst.nodes, PathOf(rule.srcPath),
                PathOf(rule.dstPath), [], []);
    var srcPath := Locate(rule.srcPath);
    if srcPath.Err? {
      return result, Some(InvalidInput), m;
    }
    var dstPath := Locate(rule.dstPath);
    if dstPath.Err? {
      return result, Some(InvalidInput), m;
    }
    var listed := ListSource(src, srcPath.value);
    if listed.Err? {
      return result, Some(listed.error), m;
    }
    result, error, m := SyncListed(transfers, ctx, src, dst, rule, ranged, cores, listed.value, m);
  }

  /** The files to mirror, where all that the listing comes to is found again. */
  method ListSource(src: Share, source: Path) returns (r: Result<seq<Listed>>)
    requires IsTree(src.nodes) && Kept(source) && DirsKept(src.nodes, source)
    modifies src`faulted
    ensures r.Ok? ==> FilesBelow(src.nodes, source, r.value)
    ensures r.Err? ==> src.faulted || Lookup(src.nodes, source) == Err(NotFound)
    ensures old(src.faulted) ==> src.faulted
  {
    KeptEnds(src.nodes, source);
    r := CollectSourceFiles(src, source);
    if r.Err? && IsDir(src.nodes, source) {
      KeptAllListable(src.nodes, source);
    }
  }

  /** The mirror of what was listed. */
  method SyncListed(transfers: TransferLocks.TransferLock, ctx: CopyIO.Context, src: Share, dst: Share,
                    rule: Rule, ranged: bool, cores: int, files: seq<Listed>, ghost before: Mirror)
    returns (result: IncrementalResult, error: Option<Error>, ghost m: Mirror)
    requires IsTree(src.nodes) && IsTree(dst.nodes)
    requires Ready(src.nodes, PathOf(rule.srcPath), PathOf(rule.dstPath))
    requires FilesBelow(src.nodes, PathOf(rule.srcPath), files)
    requires before.setting == SettingOf(src, dst, ranged, rule, transfers.active) && before.start == dst.nodes
    requires before.source == PathOf(rule.srcPath) && before.dest == PathOf(rule.dstPath)
    modifies transfers, ctx, src`faulted, dst
    ensures transfers.active == old(transfers.active) && IsTree(dst.nodes)
    ensures m == before.(files := files, events := m.events) && CountsAre(result, m.files, m.events)
    ensures error.None? ==> Mirrored(m, dst.nodes)
    ensures error.Some? ==> Interrupted(m, dst.nodes)
    ensures error.Some? && !Trouble(ctx, src, dst) ==> StuckIn(m)
    ensures old(ctx.cancelled) && error.None? ==> files == []
  {
    ListedAreTasks(src.nodes, rule, files);
    ghost var tasks := Tasks(before.source, before.dest, files);
    ghost var events;
    result, error, events := SyncFiles(transfers, ctx, src, dst, rule, ranged, cores, files, tasks, before.setting);
    m := before.(files := files, events := events);
    assert m.Src() == before.Src();
  }

  /* ---------- What a mirror run is worth ---------- */

  /** File `i` of a run is read as it was listed: from another share, or before anything is copied over it. */
  ghost predicate ReadAsListed(m: Mirror, i: nat)
    requires AllBelow(m.source, m.files) && |m.events| == |m.files|
  {
    i < |m.files| && (m.setting.other.None? ==> Unspoilt(Tasks(m.source, m.dest, m.files), m.events, i))
  }

  /** Its target, and what the next comparison will say. */
  ghost predicate SettledAt(m: Mirror, end: Nodes, i: nat)
    requires AllBelow(m.source, m.files) && i < |m.files|
  {
    IncrementalCopyReason(m.files[i], Lookup(end, TargetOf(m.source, m.dest, m.files[i].path))) == None
  }

  /**
   After a complete run: a copied target holds what was copied, which is the source's content, if that was read
   as it was listed; a current one is as before; and a file that was not found in flight needs no copy, unless
   its copy has another size, which takes that it was not read as listed, or is stamped earlier than the source.
   */
  lemma MirrorIsFaithful(m: Mirror, end: Nodes, i: nat)
    requires Mirrored(m, end) && i < |m.files| && !m.events[i].InFlight?
    ensures var e, target := m.events[i], TargetOf(m.source, m.dest, m.files[i].path);
      && IsFile(end, target)
      && (e.Copied? ==> end[target] == File(e.data, e.stamp))
      && (e.Copied? && ReadAsListed(m, i) ==> e.data == m.Src()[m.files[i].path].data && |e.data| == m.files[i].size)
      && (e.Current? ==> IsFile(m.start, target) && end[target] == m.start[target])
      && (SettledAt(m, end, i) <==>
            (e.Copied? ==> |e.data| == m.files[i].size && NotOlder(e.stamp, m.files[i].modTime)))
  {
    var tasks := Tasks(m.source, m.dest, m.files);
    SettledIff(m.setting, m.start, tasks, m.events, i);
    if m.events[i].Copied? {
      CopiedHolds(m.start, tasks, m.events, i);
      if ReadAsListed(m, i) {
        CarriedAsListed(m.setting, m.start, tasks, m.events, i);
      }
    } else {
      CurrentHolds(m.setting, m.start, tasks, m.events, i);
    }
  }

  /**
   A complete run has copied exactly the files that were stale at the start and not in flight elsewhere; those that
   were in flight it has left, and the others were up to date.
   */
  lemma WhatIsCopied(m: Mirror, end: Nodes, i: nat)
    requires Mirrored(m, end) && i < |m.files|
    ensures var task := Task(m.files[i], TargetOf(m.source, m.dest, m.files[i].path));
      && (m.events[i].Current? <==> UpToDate(m.start, task))
      && (m.events[i].InFlight? <==> !UpToDate(m.start, task) && m.setting.Reserves(task))
      && (m.events[i].Copied? <==> !UpToDate(m.start, task) && !m.setting.Reserves(task))
  {
    var tasks := Tasks(m.source, m.dest, m.files);
    var now := After(m.start, tasks, m.events, i);
    assert StepOk(m.setting, m.start, tasks, m.events, i);
    FileStays(m.start, tasks, m.events, 0, i, tasks[i].target);
    LeftAloneIff(m.files[i], m.start, tasks[i].target);
    LeftAloneIff(m.files[i], now, tasks[i].target);
  }

  /** So where nothing else is being copied, every file is up to date or copied. */
  lemma NothingLeftOut(m: Mirror, end: Nodes)
    requires Mirrored(m, end) && m.setting.reserved == {}
    ensures forall i :: 0 <= i < |m.files| ==> m.events[i].Current? || m.events[i].Copied?
    ensures forall i :: 0 <= i < |m.files| ==> IsFile(end, TargetOf(m.source, m.dest, m.files[i].path))
  {
    forall i | 0 <= i < |m.files|
      ensures m.events[i].Current? || m.events[i].Copied?
      ensures IsFile(end, TargetOf(m.source, m.dest, m.files[i].path))
    {
      WhatIsCopied(m, end, i);
      MirrorIsFaithful(m, end, i);
    }
  }

  /**
   Within one share a file may be another one's target. What its own target gets is then decided by the order of
   the listing: what was copied over it, or what it held.
   */
  lemma ListingOrderDecides(m: Mirror, end: Nodes, i: nat, k: nat)
    requires Mirrored(m, end) && m.setting.other.None? && i < |m.files| && k < |m.files| && i != k
    requires m.events[i].Copied? && m.events[k].Copied?
    requires TargetOf(m.source, m.dest, m.files[k].path) == m.files[i].path
    ensures var target := TargetOf(m.source, m.dest, m.files[i].path);
      && IsFile(end, target)
      && end[target].data == if k < i then Carried(m.events[k].data, m.files[i].size, m.setting.ranged)
                             else m.start[m.files[i].path].data
  {
    var tasks := Tasks(m.source, m.dest, m.files);
    CopiedHolds(m.start, tasks, m.events, i);
    if k < i {
      CarriedFromCopy(m.setting, m.start, tasks, m.events, i, k);
    } else {
      assert Unspoilt(tasks, m.events, i);
      CarriedAsListed(m.setting, m.start, tasks, m.events, i);
    }
  }

  lemma MirrorLeavesTheRest(m: Mirror, end: Nodes, p: Path)
    requires Mirrored(m, end)
    requires forall q :: InSource(m.Src(), m.source, q) ==> TargetOf(m.source, m.dest, q) != p
    ensures p in m.start ==> p in end && end[p] == m.start[p]
    ensures p !in m.start && p in end ==> end[p] == Dir
  {
    forall k | 0 <= k < |m.files|
      ensures TargetOf(m.source, m.dest, m.files[k].path) != p
    {
      assert InSource(m.Src(), m.source, m.files[k].path);
    }
    OthersUntouched(m.start, Tasks(m.source, m.dest, m.files), m.events, p);
  }

  /** A file at or below the source. */
  predicate InSource(nodes: Nodes, source: Path, p: Path) {
    IsFile(nodes, p) && UpTo(source, p) && p != []
  }

  /** No file of the source needs a copy. */
  ghost predicate Settled(src: Nodes, nodes: Nodes, source: Path, dest: Path) {
    forall p :: InSource(src, source, p) ==> NeedsNone(src, nodes, source, dest, p)
  }

  ghost predicate NeedsNone(src: Nodes, nodes: Nodes, source: Path, dest: Path, p: Path)
    requires InSource(src, source, p)
  {
    IncrementalCopyReason(ListedAs(src, p), Lookup(nodes, TargetOf(source, dest, p))) == None
  }

  /** A complete run finds every file current exactly when that is so, and then it changes nothing. */
  lemma NothingCopiedIff(m: Mirror, end: Nodes)
    requires Mirrored(m, end)
    ensures Settled(m.Src(), m.start, m.source, m.dest) <==> forall i :: 0 <= i < |m.events| ==> m.events[i].Current?
    ensures Settled(m.Src(), m.start, m.source, m.dest) ==> end == m.start
  {
    var tasks := Tasks(m.source, m.dest, m.files);
    if Settled(m.Src(), m.start, m.source, m.dest) {
      forall i | 0 <= i < |tasks|
        ensures UpToDate(m.start, tasks[i])
      {
        assert NeedsNone(m.Src(), m.start, m.source, m.dest, m.files[i].path);
      }
      NothingToDo(m.setting, m.start, tasks, m.events, |m.events|);
    }
    if forall i :: 0 <= i < |m.events| ==> m.events[i].Current? {
      forall p | InSource(m.Src(), m.source, p)
        ensures NeedsNone(m.Src(), m.start, m.source, m.dest, p)
      {
        assert HasPath(m.files, p);
        var i :| 0 <= i < |m.files| && m.files[i].path == p;
        CurrentHolds(m.setting, m.start, tasks, m.events, i);
      }
    }
  }

  /** Nothing was in flight, and the destination stamped no copy earlier than its source. */
  ghost predicate Smooth(m: Mirror) {
    |m.events| == |m.files| && forall i :: 0 <= i < |m.files| ==>
      !m.events[i].InFlight? && (m.events[i].Copied? ==> NotOlder(m.events[i].stamp, m.files[i].modTime))
  }

  /** What is at or below `source` is the same: the files, and what they hold. */
  ghost predicate SameBelow(nodes: Nodes, others: Nodes, source: Path) {
    forall p :: UpTo(source, p) && (IsFile(nodes, p) || IsFile(others, p)) ==>
      p in nodes && p in others && nodes[p] == others[p]
  }

  /** After a smooth run that read its files as listed, no file needs a copy as long as the source stays the same. */
  lemma SettledAfter(m: Mirror, end: Nodes, later: Nodes)
    requires Mirrored(m, end) && Smooth(m) && SameBelow(m.Src(), later, m.source)
    requires forall i :: 0 <= i < |m.files| ==> ReadAsListed(m, i)
    ensures Settled(later, end, m.source, m.dest)
  {
    forall p | InSource(later, m.source, p)
      ensures NeedsNone(later, end, m.source, m.dest, p)
    {
      assert HasPath(m.files, p);
      var i :| 0 <= i < |m.files| && m.files[i].path == p;
      MirrorIsFaithful(m, end, i);
    }
  }

  /**
   Convergence. When nothing was in flight, the destination stamps copies no earlier than their sources, and
   the source on its other share is still what it was, the next run, listing in whatever order, copies nothing,
   skips everything and changes nothing.
   */
  lemma SecondRunCopiesNothing(m: Mirror, middle: Nodes, m2: Mirror, end: Nodes, result: IncrementalResult)
    requires Mirrored(m, middle) && m.setting.other.Some? && Smooth(m)
    requires Mirrored(m2, end) && m2.start == middle && m2.source == m.source && m2.dest == m.dest
    requires SameBelow(m.Src(), m2.Src(), m.source) && CountsAre(result, m2.files, m2.events)
    ensures end == middle
    ensures result.copied == 0 && result.skipped == result.scanned && result.bytes == 0
  {
    SettledAfter(m, middle, m2.Src());
    NothingCopiedIff(m2, end);
    NoneCopied(m2.files, m2.events);
  }

  lemma {:induction false} NoneCopied(files: seq<Listed>, events: seq<Event>)
    requires |events| <= |files| && forall i :: 0 <= i < |events| ==> events[i].Current?
    ensures CopiedCount(events) == 0 && CopiedBytes(files, events) == 0
  {
    if events != [] {
      NoneCopied(files, events[..|events| - 1]);
    }
  }
}
