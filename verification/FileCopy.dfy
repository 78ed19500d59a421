/**
 The copy of one file from a share to a share, which may be the same one: the transfer is reserved, the
 directories above the target are made, and the bytes go through the ranged copy or the sequential one. Paths
 are normal forms here; the backends that are handed their texts clean them again.
 */
module FileCopy {
  import opened Storage
  import opened ShareTree
  import opened Backends
  import CopyIO
  import Jobs
  import ParallelCopy
  import Paths
  import Text
  import TransferLocks

  datatype Outcome = Done | Busy | Failed(error: Error)

  function Parent(p: Path): Path
    requires p != []
  {
    p[..|p| - 1]
  }

  /** The share after `data` has been put at `p`, with the directories above it. */
  function Placed(nodes: Nodes, p: Path, data: seq<byte>, stamp: int): Nodes
    requires p != []
  {
    WithDirs(nodes, Parent(p))[p := File(data, stamp)]
  }

  /** The share after the directory of a target has been seen to. A target in the root has none. */
  ghost function Approached(nodes: Nodes, dest: Path): Option<Nodes> {
    if |dest| <= 1 then Some(nodes) else EnsuredText(nodes, Paths.Rel(Parent(dest)))
  }

  /** The approach takes nothing away. */
  lemma ApproachedKeeps(nodes: Nodes, dest: Path)
    requires Approached(nodes, dest).Some?
    ensures forall q :: q in nodes ==> q in Approached(nodes, dest).value && Approached(nodes, dest).value[q] == nodes[q]
  {
    if |dest| > 1 {
      var keys := PrefixKeys(KeyOf(Paths.Rel(Parent(dest))).value);
      EnsuredKeeps(nodes, keys, |keys|);
    }
  }

  /** `data` has been put at `key`, where neither a directory nor, above it, a file was in the way. */
  ghost predicate DeliveredAt(start: Nodes, nodes: Nodes, key: Path, data: seq<byte>, stamp: int) {
    key != [] && nodes == Placed(start, key, data, stamp) && !FileAbove(start, key) && !IsDir(start, key)
  }

  /** The same for a target by its text: first its directory is seen to, then the file is put where it leads. */
  ghost predicate Delivered(start: Nodes, nodes: Nodes, dest: Path, data: seq<byte>, stamp: int) {
    && Approached(start, dest).Some? && KeyOf(Paths.Rel(dest)).Ok?
    && DeliveredAt(Approached(start, dest).value, nodes, KeyOf(Paths.Rel(dest)).value, data, stamp)
  }

  /** Nothing but `key` is lost or changed, and what else is new is directories. */
  ghost predicate KeepsBut(start: Nodes, nodes: Nodes, key: Result<Path>) {
    && (forall q :: q in start && key != Ok(q) ==> q in nodes && nodes[q] == start[q])
    && (forall q :: q in nodes && q !in start && key != Ok(q) ==> nodes[q] == Dir)
  }

  /** Moreover, the new directories lie above `p`. */
  predicate OnlyTouches(start: Nodes, nodes: Nodes, p: Path) {
    && (forall q :: q in start && q != p ==> q in nodes && nodes[q] == start[q])
    && (forall q :: q in nodes && q !in start && q != p ==> UpTo(q, p) && nodes[q] == Dir)
  }

  /** A target that is found under its own text, below directories that are made on the way to it only. */
  ghost predicate Lands(dest: Path) {
    && dest != [] && Kept(dest)
    && (|dest| > 1 ==>
          && KeyOf(Paths.Rel(Parent(dest))).Ok?
          && LeadUpTo(PrefixKeys(KeyOf(Paths.Rel(Parent(dest))).value), Parent(dest)))
  }

  lemma KeptPrefixesLand(dest: Path)
    requires dest != [] && forall k :: 0 < k <= |dest| ==> Kept(dest[..k])
    ensures Lands(dest)
  {
    assert dest[..|dest|] == dest;
    if |dest| > 1 {
      var parent := Parent(dest);
      assert Kept(dest[..|dest| - 1]);
      forall k | 0 < k <= |parent|
        ensures Kept(parent[..k])
      {
        assert parent[..k] == dest[..k];
      }
      KeptPrefixesAreStraight(parent);
    }
  }

  /** Then a delivery is what one expects. */
  lemma DeliveredWhereItLands(start: Nodes, nodes: Nodes, dest: Path, data: seq<byte>, stamp: int)
    requires IsTree(start) && Lands(dest) && Delivered(start, nodes, dest, data, stamp)
    ensures DeliveredAt(start, nodes, dest, data, stamp)
  {
    if |dest| > 1 {
      var keys, mid := PrefixKeys(KeyOf(Paths.Rel(Parent(dest))).value), Approached(start, dest).value;
      EnsuredGrows(start, keys, |keys|, Parent(dest));
      SamePlaced(start, mid, dest, data, stamp);
      assert forall p :: IsFile(start, p) ==> IsFile(mid, p);
    }
  }

  lemma SamePlaced(start: Nodes, mid: Nodes, dest: Path, data: seq<byte>, stamp: int)
    requires dest != []
    requires forall q :: q in start ==> q in mid && mid[q] == start[q]
    requires forall q :: q in mid && q !in start ==> mid[q] == Dir && UpTo(q, Parent(dest)) && q != []
    ensures Placed(mid, dest, data, stamp) == Placed(start, dest, data, stamp)
  {
    forall q
      ensures q in Prefixes(Parent(dest)) <==> q != [] && UpTo(q, Parent(dest))
    {
      InPrefixes(Parent(dest), q);
    }
  }

  /* ---------- Frames ---------- */

  lemma KeepsJoin(start: Nodes, mid: Nodes, nodes: Nodes, key: Result<Path>)
    requires KeepsBut(start, mid, key) && KeepsBut(mid, nodes, key)
    ensures KeepsBut(start, nodes, key)
  {
  }

  lemma TouchesJoin(start: Nodes, mid: Nodes, nodes: Nodes, p: Path)
    requires OnlyTouches(start, mid, p) && OnlyTouches(mid, nodes, p)
    ensures OnlyTouches(start, nodes, p)
  {
  }

  lemma TouchesKeeps(start: Nodes, nodes: Nodes, key: Path)
    requires OnlyTouches(start, nodes, key)
    ensures KeepsBut(start, nodes, Ok(key))
  {
  }

  lemma PartlyMadeTouches(start: Nodes, nodes: Nodes, key: Path)
    requires IsTree(start) && key != [] && PartlyMade(start, nodes, Parent(key))
    ensures OnlyTouches(start, nodes, key) && IsTree(nodes)
  {
    var made :| UpTo(made, Parent(key)) && Made(start, nodes, made);
    WithDirsIsTree(start, made);
    forall q | UpTo(q, made)
      ensures UpTo(q, key)
    {
      UpToTransitive(made, Parent(key), key);
      UpToTransitive(q, made, key);
    }
  }

  /** A file created, and then filled, at `key`. */
  lemma PlacedTouches(start: Nodes, key: Path, data: seq<byte>, stamp: int)
    requires IsTree(start) && key != [] && !FileAbove(start, key) && !IsDir(start, key)
    ensures var nodes := Placed(start, key, data, stamp);
      && IsTree(nodes) && OnlyTouches(start, nodes, key) && IsFile(nodes, key)
      && IsTree(nodes - {key}) && OnlyTouches(start, nodes - {key}, key)
  {
    var mid, nodes := WithDirs(start, Parent(key)), Placed(start, key, data, stamp);
    assert UpTo(Parent(key), key);
    assert !FileAbove(start, Parent(key)) by {
      assert forall q :: Above(q, Parent(key)) ==> Above(q, key);
    }
    WithDirsIsTree(start, Parent(key));
    InPrefixes(Parent(key), Parent(key));
    InPrefixes(Parent(key), key);
    assert !UpTo(key, Parent(key));
    assert IsDir(mid, Parent(key)) by {
      assert Above(Parent(key), key);
    }
    assert !IsDir(mid, key);
    FileIsLeafTree(mid, key, File(data, stamp));
    assert nodes - {key} == mid - {key};
    forall q | UpTo(q, Parent(key))
      ensures UpTo(q, key)
    {
      UpToTransitive(q, Parent(key), key);
    }
  }

  /** Putting a file where no directory is, or taking it away, leaves a tree a tree. */
  lemma FileIsLeafTree(nodes: Nodes, key: Path, node: Node)
    requires IsTree(nodes) && key != [] && IsDir(nodes, Parent(key)) && !IsDir(nodes, key) && node.File?
    ensures IsTree(nodes[key := node]) && IsTree(nodes - {key})
  {
    var placed := nodes[key := node];
    forall q | q in placed
      ensures InDir(placed, q)
    {
      if q in nodes {
        assert InDir(nodes, q);
      }
    }
    forall q | q in nodes - {key}
      ensures InDir(nodes - {key}, q)
    {
      assert InDir(nodes, q);
    }
  }

  lemma PlacedAgain(start: Nodes, key: Path, stamp: int, data: seq<byte>, later: int)
    requires key != []
    ensures Placed(start, key, [], stamp)[key := File(data, later)] == Placed(start, key, data, later)
    ensures Placed(start, key, [], stamp) - {key} == Placed(start, key, data, later) - {key}
  {
  }

  /* ---------- The copy ---------- */

  /** Something went wrong outside: the context was cancelled, or a share reported an I/O error. */
  ghost predicate Trouble(ctx: CopyIO.Context, src: Share, dst: Share)
    reads ctx, src, dst
  {
    ctx.cancelled || src.faulted || dst.faulted
  }

  /** No file can be created there. */
  ghost predicate CreateBlocked(nodes: Nodes, key: Result<Path>) {
    key.Err? || key.value == [] || FileAbove(nodes, key.value) || IsDir(nodes, key.value)
  }

  /** Opens a target for writing: it is created, with what is missing above it, or emptied. */
  method Create(share: Share, text: string) returns (r: Result<Path>, ghost stamp: int)
    requires IsTree(share.nodes)
    modifies share
    ensures r.Ok? ==> r == KeyOf(text) && DeliveredAt(old(share.nodes), share.nodes, r.value, [], stamp)
    ensures KeyOf(text).Err? || KeyOf(text) == Ok([]) ==> r.Err? && share.nodes == old(share.nodes)
    ensures KeyOf(text).Ok? && KeyOf(text).value != [] ==> OnlyTouches(old(share.nodes), share.nodes, KeyOf(text).value)
    ensures r.Err? ==> share.faulted || CreateBlocked(old(share.nodes), KeyOf(text))
    ensures IsTree(share.nodes) && (old(share.faulted) ==> share.faulted)
  {
    stamp := 0;
    var key := Locate(text);
    if key.Err? || key.value == [] {
      return Err(InvalidInput), stamp;
    }
    r, stamp := CreateAt(share, key.value);
  }

  method CreateAt(share: Share, key: Path) returns (r: Result<Path>, ghost stamp: int)
    requires IsTree(share.nodes) && key != []
    modifies share
    ensures r.Ok? ==> r == Ok(key) && DeliveredAt(old(share.nodes), share.nodes, key, [], stamp)
    ensures OnlyTouches(old(share.nodes), share.nodes, key) && IsTree(share.nodes)
    ensures r.Err? ==> share.faulted || CreateBlocked(old(share.nodes), Ok(key))
    ensures old(share.faulted) ==> share.faulted
  {
    ghost var start := share.nodes;
    stamp := 0;
    if |key| > 1 {
      var made := MkdirAll(share, Parent(key));
      PartlyMadeTouches(start, share.nodes, key);
      if made.Some? {
        if !share.faulted {
          FileAboveMonotone(start, Parent(key), key);
        }
        return Err(made.value), stamp;
      }
    } else {
      MadeAlready(start, []);
      assert UpTo([], []) && Parent(key) == [];
      PartlyMadeTouches(start, share.nodes, key);
    }
    ghost var mid := share.nodes;
    assert Made(start, mid, Parent(key));
    var error := share.Create(key);
    if error.Some? {
      if !share.faulted {
        NoRoom(start, mid, key);
      }
      return Err(error.value), stamp;
    }
    stamp :| share.nodes == mid[key := File([], stamp)];
    NothingAbove(start, mid, key);
    PlacedTouches(start, key, [], stamp);
    r := Ok(key);
  }

  /** Where no directory stands after all have been made, a file stands there. */
  lemma NoRoom(start: Nodes, mid: Nodes, key: Path)
    requires IsTree(start) && key != [] && Made(start, mid, Parent(key))
    requires !IsDir(mid, Parent(key)) || IsDir(mid, key)
    ensures CreateBlocked(start, Ok(key))
  {
    InPrefixes(Parent(key), Parent(key));
    InPrefixes(Parent(key), key);
    assert Above(Parent(key), key) && !UpTo(key, Parent(key));
    if !IsDir(mid, Parent(key)) {
      assert IsFile(start, Parent(key));
    }
  }

  /** Where a directory stands, there is no file above what is in it; and `key` itself is as it was. */
  lemma NothingAbove(start: Nodes, mid: Nodes, key: Path)
    requires IsTree(start) && IsTree(mid) && key != [] && Made(start, mid, Parent(key)) && IsDir(mid, Parent(key))
    requires !IsDir(mid, key)
    ensures !FileAbove(start, key) && !IsDir(start, key)
  {
    WithDirsIsTree(start, Parent(key));
    forall q | Above(q, key)
      ensures !IsFile(start, q)
    {
      UpToStep(q, Parent(key), key[|key| - 1]);
      assert Parent(key) + [key[|key| - 1]] == key;
      if q != Parent(key) && q != [] {
        assert Above(q, Parent(key));
      }
    }
  }

  /** The bytes of a source once its target has been emptied; none, if that was the source itself. */
  ghost function SourceData(nodes: Nodes, source: Result<Path>, same: bool): seq<byte> {
    if source.Ok? && IsFile(nodes, source.value) && !same then nodes[source.value].data else []
  }

  /** Which of them a successful copy carries over. */
  function Carried(source: seq<byte>, size: nat, ranged: bool): seq<byte> {
    if ranged && size >= ParallelCopy.MIN_SIZE then source[..Min(size, |source|)] else source
  }

  /** What is read after the target has been created. */
  lemma StillThere(start: Nodes, nodes: Nodes, key: Path, source: Path)
    requires OnlyTouches(start, nodes, key) && IsFile(nodes, source) && source != key
    ensures IsFile(start, source) && nodes[source] == start[source]
  {
  }

  /** Bytes are counted as they come in, in pieces of any size. */
  method CountInPieces(job: Jobs.SyncJob?, total: nat)
    requires Jobs.Reports(job)
    modifies job
    ensures Jobs.Reports(job) && (job != null ==> Jobs.CountedAll(old(Jobs.Now(job)), Jobs.Now(job), total))
  {
    ghost var from := Jobs.Now(job);
    Jobs.CountedNothing(from);
    var left: nat := total;
    while left > 0
      invariant left <= total && Jobs.Reports(job)
      invariant job != null ==> Jobs.CountedAll(from, Jobs.Now(job), total - left)
    {
      var n := CopyIO.AnyUpTo(left);
      if n == 0 {
        n := left;
      }
      Jobs.Count(job, n, from, total - left);
      left := left - n;
    }
  }

  /** What was written replaces the empty file. */
  method Fill(share: Share, key: Path, data: seq<byte>, ghost start: Nodes, ghost was: int) returns (ghost stamp: int)
    requires IsTree(start) && DeliveredAt(start, share.nodes, key, [], was)
    modifies share`nodes
    ensures DeliveredAt(start, share.nodes, key, data, stamp)
    ensures OnlyTouches(start, share.nodes, key) && IsTree(share.nodes)
  {
    stamp := share.Store(key, data);
    PlacedAgain(start, key, was, data, stamp);
    PlacedTouches(start, key, data, stamp);
  }

  /** The two ends of a ranged copy: the target is created or emptied, and then the source is opened. */
  method OpenBoth(src: Share, dst: Share, source: string, dest: string)
    returns (key: Result<Path>, content: seq<byte>, ghost stamp: int)
    requires IsTree(dst.nodes)
    modifies src`faulted, dst
    ensures key.Ok? ==> key == KeyOf(dest) && DeliveredAt(old(dst.nodes), dst.nodes, key.value, [], stamp)
    ensures key.Ok? ==>
      KeyOf(source).Ok? && content == SourceData(old(src.nodes), KeyOf(source), src == dst && KeyOf(source) == KeyOf(dest))
    ensures key.Ok? && content != [] ==> IsFile(old(src.nodes), KeyOf(source).value)
    ensures key.Err? && !src.faulted && !dst.faulted ==>
      CreateBlocked(old(dst.nodes), KeyOf(dest)) || !IsSource(old(src.nodes), KeyOf(source))
    ensures KeyOf(dest).Err? || KeyOf(dest) == Ok([]) ==> key.Err? && dst.nodes == old(dst.nodes)
    ensures KeyOf(dest).Ok? && KeyOf(dest).value != [] ==> OnlyTouches(old(dst.nodes), dst.nodes, KeyOf(dest).value)
    ensures IsTree(dst.nodes) && (old(src.faulted) ==> src.faulted) && (old(dst.faulted) ==> dst.faulted)
  {
    ghost var start, origin := dst.nodes, src.nodes;
    content := [];
    key, stamp := Create(dst, dest);
    if key.Err? {
      return;
    }
    var opening := Open(src, source);
    if opening.Err? {
      if src == dst {
        StillAFile(start, dst.nodes, key.value, KeyOf(source));
      }
      return Err(opening.error), content, stamp;
    }
    var error := dst.Fault();
    if error.Some? {
      return Err(error.value), content, stamp;
    }
    content := src.nodes[opening.value].data;
    if src == dst && opening.value != key.value {
      StillThere(start, dst.nodes, key.value, opening.value);
    }
  }

  /** The source is a file. */
  predicate IsSource(nodes: Nodes, source: Result<Path>) {
    source.Ok? && IsFile(nodes, source.value)
  }

  /** Creating a target takes no file away. */
  lemma StillAFile(start: Nodes, nodes: Nodes, key: Path, source: Result<Path>)
    requires OnlyTouches(start, nodes, key) && IsFile(nodes, key)
    ensures IsSource(start, source) ==> IsSource(nodes, source)
  {
  }

  /** The ranged copy: the target is emptied first, then the workers fill it. */
  method CopyRanged(ctx: CopyIO.Context, src: Share, dst: Share, source: string, dest: string, size: nat, cores: int,
                    job: Jobs.SyncJob?)
    returns (outcome: Outcome, ghost data: seq<byte>, ghost stamp: int)
    requires IsTree(dst.nodes) && Jobs.Reports(job) && size >= ParallelCopy.MIN_SIZE
    modifies ctx, src`faulted, dst, job
    ensures outcome.Done? ==> IsSource(old(src.nodes), KeyOf(source))
    ensures outcome.Done? ==> size <= |SourceData(old(src.nodes), KeyOf(source), src == dst && KeyOf(source) == KeyOf(dest))|
    ensures outcome.Done? ==>
      data == SourceData(old(src.nodes), KeyOf(source), src == dst && KeyOf(source) == KeyOf(dest))[..size]
    ensures outcome.Done? ==> KeyOf(dest).Ok? && DeliveredAt(old(dst.nodes), dst.nodes, KeyOf(dest).value, data, stamp)
    ensures outcome.Failed? && !Trouble(ctx, src, dst) && IsSource(old(src.nodes), KeyOf(source)) ==>
      CreateBlocked(old(dst.nodes), KeyOf(dest)) ||
      size > |SourceData(old(src.nodes), KeyOf(source), src == dst && KeyOf(source) == KeyOf(dest))|
    ensures Sticky(old(ctx.cancelled), old(src.faulted), old(dst.faulted), ctx, src, dst)
    ensures old(ctx.cancelled) ==> !outcome.Done?
    ensures KeyOf(dest).Err? || KeyOf(dest) == Ok([]) ==> dst.nodes == old(dst.nodes)
    ensures KeyOf(dest).Ok? && KeyOf(dest).value != [] ==> OnlyTouches(old(dst.nodes), dst.nodes, KeyOf(dest).value)
    ensures IsTree(dst.nodes) && !outcome.Busy? && Jobs.Reports(job)
    ensures job != null ==> Jobs.Counted(old(Jobs.Now(job)), Jobs.Now(job), size)
    ensures job != null && outcome.Done? ==> Jobs.CountedAll(old(Jobs.Now(job)), Jobs.Now(job), size)
  {
    data := [];
    ghost var start, from := dst.nodes, Jobs.Now(job);
    Jobs.CountedNothing(from);
    var key, content;
    key, content, stamp := OpenBoth(src, dst, source, dest);
    if job != null {
      Jobs.CountedWeaker(from, Jobs.Now(job), 0, size);
    }
    if key.Err? {
      return Failed(key.error), data, stamp;
    }
    var devices := new ParallelCopy.Devices();
    var end, failure := RunRanged(ctx, content, size, cores, job, devices);
    dst.Note(devices.faulted);
    data := end;
    stamp := Fill(dst, key.value, end, start, stamp);
    outcome := if failure.Some? then Failed(failure.value) else Done;
  }

  /** Trouble stays. */
  ghost predicate Sticky(cancelled: bool, srcFaulted: bool, dstFaulted: bool, ctx: CopyIO.Context, src: Share, dst: Share)
    reads ctx, src, dst
  {
    (cancelled ==> ctx.cancelled) && (srcFaulted ==> src.faulted) && (dstFaulted ==> dst.faulted)
  }

  /** The workers of a ranged copy, whichever way their steps fall, and what they report. */
  method RunRanged(ctx: CopyIO.Context, content: seq<byte>, size: nat, cores: int, job: Jobs.SyncJob?,
                   devices: ParallelCopy.Devices)
    returns (file: seq<byte>, failure: Option<Error>)
    requires Jobs.Reports(job) && size >= ParallelCopy.MIN_SIZE
    modifies ctx, job, devices`faulted
    ensures failure.None? ==> size <= |content| && file == content[..size]
    ensures failure.Some? ==> ctx.cancelled || devices.faulted || size > |content|
    ensures old(ctx.cancelled) ==> failure.Some? && ctx.cancelled
    ensures EngineLeaves(content, size, cores, file, failure)
    ensures Jobs.Reports(job) && (job != null ==> Jobs.Counted(old(Jobs.Now(job)), Jobs.Now(job), size))
    ensures job != null && failure.None? ==> Jobs.CountedAll(old(Jobs.Now(job)), Jobs.Now(job), size)
  {
    var workers := ParallelCopy.WorkerCount(size, cores);
    var config := ParallelCopy.EngineConfig(content, size, CopyIO.BUFFER_SIZE, cores);
    var end, actions := ParallelCopy.Execute(config, workers, ctx, devices);
    ghost var from := Jobs.Now(job);
    CountInPieces(job, end.jobBytes);
    if job != null {
      Jobs.CountedWeaker(from, Jobs.Now(job), end.jobBytes, size);
    }
    file, failure := end.file, ParallelCopy.Outcome(end);
    assert EndsAs(content, size, cores, actions, end, file, failure);
  }

  /** The file, and what is reported, are those of some run of the engine's machine. */
  ghost predicate EngineLeaves(content: seq<byte>, size: nat, cores: int, file: seq<byte>, failure: Option<Error>)
    requires size >= ParallelCopy.MIN_SIZE
  {
    exists actions, end :: EndsAs(content, size, cores, actions, end, file, failure)
  }

  ghost predicate EndsAs(content: seq<byte>, size: nat, cores: int, actions: seq<ParallelCopy.Action>,
                         end: ParallelCopy.State, file: seq<byte>, failure: Option<Error>)
    requires size >= ParallelCopy.MIN_SIZE
  {
    var c := ParallelCopy.EngineConfig(content, size, CopyIO.BUFFER_SIZE, cores);
    && ParallelCopy.Run(c, ParallelCopy.Init(c, ParallelCopy.WorkerCount(size, cores)), actions, end)
    && ParallelCopy.Terminal(end) && file == end.file && failure == ParallelCopy.Outcome(end)
  }

  /** The sequential copy. A writer that fails may leave what it has written, or remove the file. */
  method CopySequential(ctx: CopyIO.Context, src: Share, dst: Share, source: string, dest: string, job: Jobs.SyncJob?)
    returns (outcome: Outcome, ghost data: seq<byte>, ghost stamp: int)
    requires IsTree(dst.nodes) && Jobs.Reports(job)
    modifies ctx, src`faulted, dst, job
    ensures outcome.Done? ==> IsSource(old(src.nodes), KeyOf(source))
    ensures outcome.Done? ==>
      data == SourceData(old(src.nodes), KeyOf(source), src == dst && KeyOf(source) == KeyOf(dest))
    ensures outcome.Done? ==> KeyOf(dest).Ok? && DeliveredAt(old(dst.nodes), dst.nodes, KeyOf(dest).value, data, stamp)
    ensures outcome.Failed? && !Trouble(ctx, src, dst) ==>
      CreateBlocked(old(dst.nodes), KeyOf(dest)) || !IsSource(old(src.nodes), KeyOf(source))
    ensures Sticky(old(ctx.cancelled), old(src.faulted), old(dst.faulted), ctx, src, dst)
    ensures old(ctx.cancelled) ==> !outcome.Done?
    ensures KeyOf(dest).Err? || KeyOf(dest) == Ok([]) ==> dst.nodes == old(dst.nodes)
    ensures KeyOf(dest).Ok? && KeyOf(dest).value != [] ==> OnlyTouches(old(dst.nodes), dst.nodes, KeyOf(dest).value)
    ensures IsTree(dst.nodes) && !outcome.Busy? && Jobs.Reports(job)
    ensures job != null ==> Jobs.Counted(old(Jobs.Now(job)), Jobs.Now(job),
      |SourceData(old(src.nodes), KeyOf(source), src == dst && KeyOf(source) == KeyOf(dest))|)
    ensures job != null && outcome.Done? ==> Jobs.CountedAll(old(Jobs.Now(job)), Jobs.Now(job), |data|)
  {
    data, stamp := [], 0;
    ghost var start, from := dst.nodes, Jobs.Now(job);
    ghost var all := SourceData(src.nodes, KeyOf(source), src == dst && KeyOf(source) == KeyOf(dest));
    Jobs.CountedNothing(from);
    if job != null {
      Jobs.CountedWeaker(from, Jobs.Now(job), 0, |all|);
    }
    var opening := Open(src, source);
    if opening.Err? {
      return Failed(opening.error), data, stamp;
    }
    var created: Result<Path>;
    created, stamp := Create(dst, dest);
    if created.Err? {
      return Failed(created.error), data, stamp;
    }
    var key := created.value;
    assert IsFile(src.nodes, opening.value);
    var content := src.nodes[opening.value].data;
    assert content == all;
    var error;
    error, data, stamp := WriteSequential(ctx, dst, key, content, job, start, stamp);
    outcome := if error.Some? then Failed(error.value) else Done;
  }

  /** The bytes go into the file that was created. */
  method WriteSequential(ctx: CopyIO.Context, dst: Share, key: Path, content: seq<byte>, job: Jobs.SyncJob?,
                         ghost start: Nodes, ghost was: int)
    returns (error: Option<Error>, ghost data: seq<byte>, ghost stamp: int)
    requires IsTree(start) && DeliveredAt(start, dst.nodes, key, [], was) && Jobs.Reports(job)
    modifies ctx, dst, job
    ensures error.None? ==> data == content && DeliveredAt(start, dst.nodes, key, data, stamp)
    ensures error.Some? ==> ctx.cancelled || dst.faulted
    ensures (old(ctx.cancelled) ==> error.Some? && ctx.cancelled) && (old(dst.faulted) ==> dst.faulted)
    ensures OnlyTouches(start, dst.nodes, key) && IsTree(dst.nodes)
    ensures Jobs.Reports(job) && (job != null ==> Jobs.Counted(old(Jobs.Now(job)), Jobs.Now(job), |content|))
    ensures job != null && error.None? ==> Jobs.CountedAll(old(Jobs.Now(job)), Jobs.Now(job), |content|)
  {
    var written, keep;
    error, written, keep := RunSequential(ctx, dst, content, job);
    data, stamp := written, was;
    PlacedTouches(start, key, [], was);
    if error.None? || keep {
      stamp := Fill(dst, key, written, start, was);
    } else {
      dst.Discard(key);
    }
  }

  /** The read/write loop, and whether a writer that failed keeps its file; `dst` remembers what went wrong. */
  method RunSequential(ctx: CopyIO.Context, dst: Share, content: seq<byte>, job: Jobs.SyncJob?)
    returns (error: Option<Error>, written: seq<byte>, keep: bool)
    requires Jobs.Reports(job)
    modifies ctx, dst`faulted, job
    ensures error.None? ==> written == content
    ensures written <= content
    ensures error.Some? ==> ctx.cancelled || dst.faulted
    ensures (old(ctx.cancelled) ==> error.Some? && ctx.cancelled) && (old(dst.faulted) ==> dst.faulted)
    ensures Jobs.Reports(job) && (job != null ==> Jobs.Counted(old(Jobs.Now(job)), Jobs.Now(job), |content|))
    ensures job != null && error.None? ==> Jobs.CountedAll(old(Jobs.Now(job)), Jobs.Now(job), |content|)
  {
    ghost var patience: nat := *;
    var reader := new CopyIO.StreamReader(content, patience);
    var writer := new CopyIO.StreamWriter();
    var buf := new byte[CopyIO.BUFFER_SIZE];
    ghost var from := Jobs.Now(job);
    error := CopyIO.CopyStream(ctx, reader, writer, buf, job);
    if job != null {
      Jobs.CountedWeaker(from, Jobs.Now(job), |writer.content|, |content|);
    }
    dst.Note(reader.faulted || writer.faulted);
    written := writer.content;
    keep := *;
  }

  /* ---------- The whole copy ---------- */

  /** The text of a path's directory, as the path package gives it. */
  lemma DirOfRel(dest: Path)
    requires Paths.AreNames(dest)
    ensures Paths.Dir(Paths.Rel(dest)) == if |dest| <= 1 then "." else Paths.Rel(Parent(dest))
  {
    Paths.CleanedText(dest);
    if |dest| > 1 {
      var parent := Parent(dest);
      Paths.RelEdges(parent);
      assert Paths.Rel(parent) + "/" == Paths.Rel(parent) + ['/'] + "";
      Text.SplitConcat(Paths.Rel(parent), "", '/');
      Text.SplitNoSep("", '/');
      Paths.NamesOfRel(parent);
      Paths.NamesFree(parent);
      Paths.ResolveReal(parent + [""], false, []);
      Paths.RealAppend(parent, [""]);
      Paths.RealOfNames(parent);
      assert Paths.Real([""]) == [] && [] + (parent + []) == parent;
    }
  }

  /** A tree still; nothing is lost but at the target; and where the target lands, new directories lie above it. */
  ghost predicate Framed(start: Nodes, nodes: Nodes, dest: Path) {
    IsTree(nodes) && KeepsBut(start, nodes, KeyOf(Paths.Rel(dest))) && (Lands(dest) ==> OnlyTouches(start, nodes, dest))
  }

  lemma ApproachFramed(start: Nodes, nodes: Nodes, dest: Path, keys: seq<Result<Path>>)
    requires IsTree(nodes) && OnlyDirsNew(start, nodes, keys) && |dest| > 1
    requires Lands(dest) ==> LeadUpTo(keys, Parent(dest))
    ensures Framed(start, nodes, dest) && SameFiles(start, nodes)
  {
    if Lands(dest) {
      forall q | q in nodes && q !in start
        ensures UpTo(q, dest)
      {
        var k :| 0 <= k < |keys| && keys[k].Ok? && UpTo(q, keys[k].value);
        UpToTransitive(q, keys[k].value, Parent(dest));
        UpToTransitive(q, Parent(dest), dest);
      }
    }
  }

  /** The files are the same ones. */
  ghost predicate SameFiles(start: Nodes, nodes: Nodes) {
    forall q :: IsFile(start, q) || IsFile(nodes, q) ==> q in start && q in nodes && start[q] == nodes[q]
  }

  lemma NothingFramed(nodes: Nodes, dest: Path)
    requires IsTree(nodes)
    ensures Framed(nodes, nodes, dest)
  {
  }

  /** Sees to the directory of a target. */
  method Approach(dst: Share, dest: Path) returns (error: Option<Error>)
    requires IsTree(dst.nodes) && Paths.AreNames(dest)
    modifies dst
    ensures error.None? ==> Approached(old(dst.nodes), dest) == Some(dst.nodes)
    ensures error.Some? ==> dst.faulted || Approached(old(dst.nodes), dest) == None
    ensures Framed(old(dst.nodes), dst.nodes, dest) && SameFiles(old(dst.nodes), dst.nodes)
    ensures old(dst.faulted) ==> dst.faulted
  {
    ghost var start := dst.nodes;
    var parent := Paths.Dir(Paths.Rel(dest));
    DirOfRel(dest);
    if |dest| > 1 {
      Paths.RelEdges(Parent(dest));
    }
    if parent == "." || parent == "" {
      NothingFramed(start, dest);
      return None;
    }
    error := EnsureDir(dst, parent);
    if KeyOf(parent).Ok? {
      ApproachFramed(start, dst.nodes, dest, PrefixKeys(KeyOf(parent).value));
    } else {
      NothingFramed(start, dest);
    }
  }

  /** A change at the target, after the approach. */
  lemma CopyFramed(start: Nodes, mid: Nodes, nodes: Nodes, dest: Path)
    requires Framed(start, mid, dest) && PutFramed(mid, nodes, dest)
    ensures Framed(start, nodes, dest)
  {
    if nodes != mid {
      var key := KeyOf(Paths.Rel(dest)).value;
      TouchesKeeps(mid, nodes, key);
      KeepsJoin(start, mid, nodes, Ok(key));
      if Lands(dest) {
        TouchesJoin(start, mid, nodes, dest);
      }
    }
  }

  /** Source and target are one file of one share. */
  ghost predicate OneFile(oneShare: bool, source: Path, dest: Path) {
    oneShare && KeyOf(Paths.Rel(source)) == KeyOf(Paths.Rel(dest))
  }

  /** What a copy from `source` to `dest` has to carry over. */
  ghost function Available(nodes: Nodes, oneShare: bool, source: Path, dest: Path): seq<byte> {
    SourceData(nodes, KeyOf(Paths.Rel(source)), OneFile(oneShare, source, dest))
  }

  /** How many bytes a copy may count. */
  function MostBytes(available: nat, size: nat, ranged: bool): nat {
    if ranged && size >= ParallelCopy.MIN_SIZE then size else available
  }

  /** A source is there, and `data` is what a copy of it carries over. */
  ghost predicate Read(srcNodes: Nodes, oneShare: bool, source: Path, dest: Path, size: nat, ranged: bool, data: seq<byte>) {
    && KeyOf(Paths.Rel(source)).Ok? && IsFile(srcNodes, KeyOf(Paths.Rel(source)).value)
    && data == Carried(Available(srcNodes, oneShare, source, dest), size, ranged)
    && (ranged && size >= ParallelCopy.MIN_SIZE ==> size <= |Available(srcNodes, oneShare, source, dest)|)
  }

  /** The approach to a target changes no file, so it changes nothing about the source. */
  lemma SameRead(start: Nodes, mid: Nodes, oneShare: bool, source: Path, dest: Path)
    requires SameFiles(start, mid)
    ensures Available(start, oneShare, source, dest) == Available(mid, oneShare, source, dest)
    ensures forall size, ranged, data :: Read(mid, oneShare, source, dest, size, ranged, data) ==>
      Read(start, oneShare, source, dest, size, ranged, data)
  {
    var key := KeyOf(Paths.Rel(source));
    assert key.Ok? ==> (IsFile(start, key.value) <==> IsFile(mid, key.value));
  }

  /** The target's file has been put where its text leads. */
  ghost predicate PutAt(start: Nodes, nodes: Nodes, dest: Path, data: seq<byte>, stamp: int) {
    KeyOf(Paths.Rel(dest)).Ok? && DeliveredAt(start, nodes, KeyOf(Paths.Rel(dest)).value, data, stamp)
  }

  /** At most where the target's text leads anything has changed. */
  ghost predicate PutFramed(start: Nodes, nodes: Nodes, dest: Path) {
    IsTree(nodes) &&
    (nodes == start ||
      (KeyOf(Paths.Rel(dest)).Ok? && KeyOf(Paths.Rel(dest)).value != [] &&
        OnlyTouches(start, nodes, KeyOf(Paths.Rel(dest)).value)))
  }

  /** There is no room for the target, nothing to be read, or, for a ranged copy, less than was announced. */
  ghost predicate BytesBlocked(srcNodes: Nodes, nodes: Nodes, oneShare: bool, source: Path, dest: Path, size: nat,
                               ranged: bool)
  {
    || CreateBlocked(nodes, KeyOf(Paths.Rel(dest)))
    || !IsSource(srcNodes, KeyOf(Paths.Rel(source)))
    || (ranged && size >= ParallelCopy.MIN_SIZE && size > |Available(srcNodes, oneShare, source, dest)|)
  }

  /** The bytes, one way or the other. */
  method CopyBytes(ctx: CopyIO.Context, src: Share, dst: Share, source: Path, dest: Path, size: nat,
                   ranged: bool, cores: int, job: Jobs.SyncJob?)
    returns (outcome: Outcome, ghost data: seq<byte>, ghost stamp: int)
    requires IsTree(dst.nodes) && Jobs.Reports(job)
    modifies ctx, src`faulted, dst, job
    ensures outcome.Done? ==> Read(old(src.nodes), src == dst, source, dest, size, ranged, data)
    ensures outcome.Done? ==> PutAt(old(dst.nodes), dst.nodes, dest, data, stamp)
    ensures outcome.Failed? && !Trouble(ctx, src, dst) ==>
      BytesBlocked(old(src.nodes), old(dst.nodes), src == dst, source, dest, size, ranged)
    ensures Sticky(old(ctx.cancelled), old(src.faulted), old(dst.faulted), ctx, src, dst)
    ensures old(ctx.cancelled) ==> !outcome.Done?
    ensures PutFramed(old(dst.nodes), dst.nodes, dest) && !outcome.Busy? && Jobs.Reports(job)
    ensures job != null ==> Jobs.Counted(old(Jobs.Now(job)), Jobs.Now(job),
      MostBytes(|Available(old(src.nodes), src == dst, source, dest)|, size, ranged))
    ensures job != null && outcome.Done? ==> Jobs.CountedAll(old(Jobs.Now(job)), Jobs.Now(job), |data|)
  {
    if size >= ParallelCopy.MIN_SIZE && ranged {
      outcome, data, stamp := CopyRanged(ctx, src, dst, Paths.Rel(source), Paths.Rel(dest), size, cores, job);
    } else {
      outcome, data, stamp := CopySequential(ctx, src, dst, Paths.Rel(source), Paths.Rel(dest), job);
    }
  }

  /** What a copy that is done has done. */
  ghost predicate CopyDone(srcStart: Nodes, start: Nodes, nodes: Nodes, oneShare: bool, source: Path, dest: Path,
                           size: nat, ranged: bool, data: seq<byte>, stamp: int)
  {
    Read(srcStart, oneShare, source, dest, size, ranged, data) && Delivered(start, nodes, dest, data, stamp)
  }

  /**
   What stands in the way of a copy: its directory cannot be seen to, or then there is no room for the target,
   nothing to be read, too little to be read in ranges, or a target that is not to be overwritten.
   */
  ghost predicate Blocked(srcStart: Nodes, start: Nodes, oneShare: bool, source: Path, dest: Path, size: nat,
                          overwrite: bool, ranged: bool)
  {
    || Approached(start, dest).None?
    || BytesBlocked(srcStart, Approached(start, dest).value, oneShare, source, dest, size, ranged)
    || (!overwrite && IsThere(Approached(start, dest).value, dest))
  }

  /** There is something where the target's text leads. */
  ghost predicate IsThere(nodes: Nodes, dest: Path) {
    KeyOf(Paths.Rel(dest)).Ok? && Lookup(nodes, KeyOf(Paths.Rel(dest)).value).Ok?
  }

  /** The target is there, and is not to be overwritten. */
  ghost predicate Conflicts(start: Nodes, dest: Path, overwrite: bool) {
    !overwrite && Approached(start, dest).Some? && IsThere(Approached(start, dest).value, dest)
  }

  /** No file that was there is lost or changed. */
  ghost predicate FilesKept(start: Nodes, nodes: Nodes) {
    forall q :: IsFile(start, q) ==> q in nodes && nodes[q] == start[q]
  }

  lemma SameReadBlocked(start: Nodes, mid: Nodes, nodes: Nodes, oneShare: bool, source: Path, dest: Path, size: nat,
                        ranged: bool)
    requires SameFiles(start, mid) && BytesBlocked(mid, nodes, oneShare, source, dest, size, ranged)
    ensures BytesBlocked(start, nodes, oneShare, source, dest, size, ranged)
  {
    SameRead(start, mid, oneShare, source, dest);
    var key := KeyOf(Paths.Rel(source));
    assert key.Ok? ==> (IsFile(start, key.value) <==> IsFile(mid, key.value));
  }

  lemma DoneIsNotBlocked(srcStart: Nodes, start: Nodes, nodes: Nodes, oneShare: bool, source: Path, dest: Path,
                         size: nat, overwrite: bool, ranged: bool, data: seq<byte>, stamp: int)
    requires CopyDone(srcStart, start, nodes, oneShare, source, dest, size, ranged, data, stamp)
    requires !Conflicts(start, dest, overwrite)
    ensures !Blocked(srcStart, start, oneShare, source, dest, size, overwrite, ranged)
  {
  }

  /** A target that was not there is all that the copy touches. */
  lemma NewTargetKeepsFiles(start: Nodes, nodes: Nodes, dest: Path)
    requires PutFramed(start, nodes, dest) && !IsThere(start, dest)
    ensures FilesKept(start, nodes)
  {
  }

  lemma KeptSince(start: Nodes, mid: Nodes, nodes: Nodes)
    requires SameFiles(start, mid)
    ensures FilesKept(mid, nodes) ==> FilesKept(start, nodes)
  {
  }

  /**
   The copy of a transfer that is reserved. Unless the context is cancelled or a share reports an I/O error, it is
   done exactly if nothing stands in its way.
   */
  method CopyReserved(ctx: CopyIO.Context, src: Share, dst: Share, source: Path, dest: Path, size: nat,
                      overwrite: bool, ranged: bool, cores: int, job: Jobs.SyncJob?)
    returns (outcome: Outcome, ghost data: seq<byte>, ghost stamp: int)
    requires IsTree(dst.nodes) && Jobs.Reports(job) && Paths.AreNames(source) && Paths.AreNames(dest)
    modifies ctx, src`faulted, dst, job
    ensures outcome.Done? ==>
      CopyDone(old(src.nodes), old(dst.nodes), dst.nodes, src == dst, source, dest, size, ranged, data, stamp)
    ensures outcome.Done? ==>
      !Blocked(old(src.nodes), old(dst.nodes), src == dst, source, dest, size, overwrite, ranged) && !old(ctx.cancelled)
    ensures outcome.Failed? && !Trouble(ctx, src, dst) ==>
      Blocked(old(src.nodes), old(dst.nodes), src == dst, source, dest, size, overwrite, ranged)
    ensures Conflicts(old(dst.nodes), dest, overwrite) && !Trouble(ctx, src, dst) ==> outcome == Failed(Conflict)
    ensures !overwrite ==> FilesKept(old(dst.nodes), dst.nodes)
    ensures Sticky(old(ctx.cancelled), old(src.faulted), old(dst.faulted), ctx, src, dst)
    ensures Framed(old(dst.nodes), dst.nodes, dest) && !outcome.Busy? && Jobs.Reports(job)
    ensures job != null ==> Jobs.Counted(old(Jobs.Now(job)), Jobs.Now(job),
      MostBytes(|Available(old(src.nodes), src == dst, source, dest)|, size, ranged))
    ensures job != null && outcome.Done? ==> Jobs.CountedAll(old(Jobs.Now(job)), Jobs.Now(job), |data|)
  {
    data, stamp := [], 0;
    ghost var start, origin, from := dst.nodes, src.nodes, Jobs.Now(job);
    Jobs.CountedNothing(from);
    Jobs.CountedWeaker(from, from, 0, MostBytes(|Available(origin, src == dst, source, dest)|, size, ranged));
    var error := Approach(dst, dest);
    if error.Some? {
      return Failed(error.value), data, stamp;
    }
    ghost var mid, later := dst.nodes, src.nodes;
    SameRead(origin, later, src == dst, source, dest);
    outcome, data, stamp := CopyApproached(ctx, src, dst, source, dest, size, overwrite, ranged, cores, job);
    CopyFramed(start, mid, dst.nodes, dest);
    KeptSince(start, mid, dst.nodes);
    if outcome.Done? {
      DoneIsNotBlocked(origin, start, dst.nodes, src == dst, source, dest, size, overwrite, ranged, data, stamp);
    } else if BytesBlocked(later, mid, src == dst, source, dest, size, ranged) {
      SameReadBlocked(origin, later, mid, src == dst, source, dest, size, ranged);
    }
  }

  /** The same once the directory has been seen to. */
  method CopyApproached(ctx: CopyIO.Context, src: Share, dst: Share, source: Path, dest: Path, size: nat,
                        overwrite: bool, ranged: bool, cores: int, job: Jobs.SyncJob?)
    returns (outcome: Outcome, ghost data: seq<byte>, ghost stamp: int)
    requires IsTree(dst.nodes) && Jobs.Reports(job)
    modifies ctx, src`faulted, dst, job
    ensures outcome.Done? ==> Read(old(src.nodes), src == dst, source, dest, size, ranged, data)
    ensures outcome.Done? ==> PutAt(old(dst.nodes), dst.nodes, dest, data, stamp)
    ensures outcome.Done? ==> (overwrite || !IsThere(old(dst.nodes), dest)) && !old(ctx.cancelled)
    ensures outcome.Failed? && !Trouble(ctx, src, dst) && (overwrite || !IsThere(old(dst.nodes), dest)) ==>
      BytesBlocked(old(src.nodes), old(dst.nodes), src == dst, source, dest, size, ranged)
    ensures !overwrite && IsThere(old(dst.nodes), dest) && !Trouble(ctx, src, dst) ==> outcome == Failed(Conflict)
    ensures !overwrite ==> FilesKept(old(dst.nodes), dst.nodes)
    ensures Sticky(old(ctx.cancelled), old(src.faulted), old(dst.faulted), ctx, src, dst)
    ensures PutFramed(old(dst.nodes), dst.nodes, dest) && !outcome.Busy? && Jobs.Reports(job)
    ensures job != null ==> Jobs.Counted(old(Jobs.Now(job)), Jobs.Now(job),
      MostBytes(|Available(old(src.nodes), src == dst, source, dest)|, size, ranged))
    ensures job != null && outcome.Done? ==> Jobs.CountedAll(old(Jobs.Now(job)), Jobs.Now(job), |data|)
  {
    data, stamp := [], 0;
    ghost var start, from := dst.nodes, Jobs.Now(job);
    Jobs.CountedNothing(from);
    Jobs.CountedWeaker(from, from, 0, MostBytes(|Available(src.nodes, src == dst, source, dest)|, size, ranged));
    if !overwrite {
      var existing := Stat(dst, Paths.Rel(dest));
      if existing.Ok? {
        return Failed(Conflict), data, stamp;
      } else if existing.error != NotFound {
        return Failed(existing.error), data, stamp;
      }
    }
    outcome, data, stamp := CopyBytes(ctx, src, dst, source, dest, size, ranged, cores, job);
    if !overwrite {
      NewTargetKeepsFiles(start, dst.nodes, dest);
    }
  }

  /** The key under which a transfer is reserved. */
  function TransferKey(srcName: string, dstName: string, source: Path, dest: Path): string {
    TransferLocks.Key(TransferLocks.Transfer(srcName, Paths.Rel(source), dstName, Paths.Rel(dest)))
  }

  /**
   Reserves the transfer, copies, and gives the reservation back. A refused copy has changed nothing. One that
   is done has put the bytes carried over where the target leads. Whatever happens, no other file is touched, and
   none at all without leave to overwrite.
   */
  method CopyOneFile(transfers: TransferLocks.TransferLock, ctx: CopyIO.Context, src: Share, dst: Share,
                     srcName: string, dstName: string, source: Path, dest: Path, size: nat,
                     overwrite: bool, ranged: bool, cores: int, job: Jobs.SyncJob?)
    returns (outcome: Outcome, ghost data: seq<byte>, ghost stamp: int)
    requires IsTree(dst.nodes) && Jobs.Reports(job) && Paths.AreNames(source) && Paths.AreNames(dest)
    modifies transfers, ctx, src`faulted, dst, job
    ensures transfers.active == old(transfers.active)
    ensures outcome.Busy? <==> TransferKey(srcName, dstName, source, dest) in transfers.active
    ensures outcome.Busy? ==> dst.nodes == old(dst.nodes) && Jobs.Now(job) == old(Jobs.Now(job))
    ensures outcome.Done? ==>
      CopyDone(old(src.nodes), old(dst.nodes), dst.nodes, src == dst, source, dest, size, ranged, data, stamp)
    ensures outcome.Done? ==>
      !Blocked(old(src.nodes), old(dst.nodes), src == dst, source, dest, size, overwrite, ranged) && !old(ctx.cancelled)
    ensures outcome.Failed? && !Trouble(ctx, src, dst) ==>
      Blocked(old(src.nodes), old(dst.nodes), src == dst, source, dest, size, overwrite, ranged)
    ensures !outcome.Busy? && Conflicts(old(dst.nodes), dest, overwrite) && !Trouble(ctx, src, dst) ==>
      outcome == Failed(Conflict)
    ensures !overwrite ==> FilesKept(old(dst.nodes), dst.nodes)
    ensures Sticky(old(ctx.cancelled), old(src.faulted), old(dst.faulted), ctx, src, dst)
    ensures Framed(old(dst.nodes), dst.nodes, dest) && Jobs.Reports(job)
    ensures job != null ==> Jobs.Counted(old(Jobs.Now(job)), Jobs.Now(job),
      MostBytes(|Available(old(src.nodes), src == dst, source, dest)|, size, ranged))
    ensures job != null && outcome.Done? ==> Jobs.CountedAll(old(Jobs.Now(job)), Jobs.Now(job), |data|)
  {
    data, stamp := [], 0;
    var transfer := TransferLocks.Transfer(srcName, Paths.Rel(source), dstName, Paths.Rel(dest));
    var ok := transfers.TryBegin(transfer);
    if !ok {
      assert transfers.active == old(transfers.active);
      NothingFramed(dst.nodes, dest);
      Jobs.CountedNothing(Jobs.Now(job));
      Jobs.CountedWeaker(Jobs.Now(job), Jobs.Now(job), 0,
                         MostBytes(|Available(src.nodes, src == dst, source, dest)|, size, ranged));
      return Busy, data, stamp;
    }
    outcome, data, stamp := CopyReserved(ctx, src, dst, source, dest, size, overwrite, ranged, cores, job);
    transfers.Release(transfer);
  }

  /* ---------- What is carried over ---------- */

  /**
   The sequential loop carries over the whole source. The ranged copy, in every run, fails if the source is
   shorter than the caller was told, and otherwise carries over the same exactly when it is not longer either.
   */
  lemma BranchesAgreeIff(c: ParallelCopy.Config, workers: nat, actions: seq<ParallelCopy.Action>, end: ParallelCopy.State)
    requires c.Valid() && workers > 0 && c.size >= ParallelCopy.MIN_SIZE
    requires ParallelCopy.Run(c, ParallelCopy.Init(c, workers), actions, end) && ParallelCopy.Terminal(end)
    ensures c.size > |c.source| ==> ParallelCopy.Outcome(end).Some?
    ensures ParallelCopy.Outcome(end).None? ==> end.file == Carried(c.source, c.size, true)
    ensures ParallelCopy.Outcome(end).None? ==> (end.file == Carried(c.source, c.size, false) <==> c.size == |c.source|)
  {
    if ParallelCopy.Outcome(end).None? {
      ParallelCopy.SuccessMeansCopied(c, workers, actions, end);
      assert |end.file| == c.size;
    }
  }

  /** A file copied onto itself is lost: where the copy is done at all, it has emptied the file. */
  lemma CopyOntoItself(srcStart: Nodes, start: Nodes, nodes: Nodes, source: Path, dest: Path,
                       size: nat, ranged: bool, data: seq<byte>, stamp: int)
    requires CopyDone(srcStart, start, nodes, true, source, dest, size, ranged, data, stamp)
    requires OneFile(true, source, dest)
    ensures !(ranged && size >= ParallelCopy.MIN_SIZE)
    ensures IsFile(nodes, KeyOf(Paths.Rel(source)).value) && nodes[KeyOf(Paths.Rel(source)).value] == File([], stamp)
  {
  }

  lemma NoFileAbove(start: Nodes, p: Path)
    requires IsTree(start) && p in start
    ensures !FileAbove(start, p) && (p != [] ==> !FileUpTo(start, Parent(p)))
  {
    forall q | Above(q, p)
      ensures IsDir(start, q)
    {
      AncestorIsDir(start, p, q);
    }
    assert p != [] ==> forall q :: UpTo(q, Parent(p)) ==> Above(q, p);
  }

  lemma ParentIsStraight(p: Path)
    requires |p| > 1 && forall k :: 0 < k <= |p| ==> Kept(p[..k])
    ensures Kept(Parent(p)) && Straight(Parent(p))
  {
    var parent := Parent(p);
    forall k | 0 < k <= |parent|
      ensures Kept(parent[..k])
    {
      assert parent[..k] == p[..k];
    }
    assert parent == p[..|parent|];
    KeptPrefixesAreStraight(parent);
  }

  /** Where a file stands and its prefixes are kept, there is nothing to make above it. */
  lemma ApproachedAlready(start: Nodes, p: Path)
    requires IsTree(start) && IsFile(start, p) && forall k :: 0 < k <= |p| ==> Kept(p[..k])
    ensures Approached(start, p) == Some(start) && !FileAbove(start, p)
  {
    NoFileAbove(start, p);
    if |p| > 1 {
      var parent := Parent(p);
      ParentIsStraight(p);
      AncestorIsDir(start, p, parent);
      MadeAlready(start, parent);
      StraightMakesJust(start, parent);
      assert MakesJust(start, parent);
    }
  }

  /** And the sequential copy of any file onto itself can be done, if its prefixes are kept. */
  lemma CopyOntoItselfIsPossible(start: Nodes, p: Path, size: nat, stamp: int)
    requires IsTree(start) && IsFile(start, p) && forall k :: 0 < k <= |p| ==> Kept(p[..k])
    ensures OneFile(true, p, p)
    ensures CopyDone(start, start, Placed(start, p, [], stamp), true, p, p, size, false, [], stamp)
  {
    ApproachedAlready(start, p);
    assert p[..|p|] == p && p != [];
  }
}
