/** The body of a background copy job: plan, copy step by step, and report. */
module SyncJobs {
  import opened Storage
  import opened ShareTree
  import opened Backends
  import opened CopyPlans
  import opened Jobs
  import CopyIO
  import FileCopy
  import Paths
  import TransferLocks

  datatype Request = Request(sourceBackend: string, destBackend: string, items: seq<SyncItem>, overwrite: bool)

  /** What became of a step; of one that was copied also what was put at its target, and the time it was given. */
  datatype Copy = Copy(outcome: CopyOutcome, data: seq<byte>, stamp: int)

  /* ---------- What steps do to the destination ---------- */

  /** How a job copies: within one share or not, in ranges or not, for which request, and past which reservations. */
  datatype Way = Way(oneShare: bool, ranged: bool, request: Request, reserved: set<string>)
  {
    /** Another copy between the same two paths is under way. */
    ghost predicate Reserves(step: Step) {
      FileCopy.TransferKey(request.sourceBackend, request.destBackend, Paths.Names(step.sourcePath),
                           Paths.Names(step.destPath)) in reserved
    }

    /** Something stands in the way of a step, as the shares are. */
    ghost predicate Blocks(srcNow: Nodes, before: Nodes, step: Step) {
      FileCopy.Blocked(srcNow, before, oneShare, Paths.Names(step.sourcePath), Paths.Names(step.destPath), step.size,
                       request.overwrite, ranged)
    }
  }

  /** One step, carried out. It is refused exactly if another copy of it is under way. */
  ghost predicate StepDone(srcNow: Nodes, before: Nodes, after: Nodes, w: Way, step: Step,
                           copy: Copy)
  {
    && IsTree(after) && FileCopy.KeepsBut(before, after, KeyOf(step.destPath))
    && (copy.outcome == Refused <==> w.Reserves(step))
    && (copy.outcome == Refused ==> after == before)
    && (copy.outcome == Copied ==> !w.Blocks(srcNow, before, step))
    && (copy.outcome == Copied ==>
          FileCopy.CopyDone(srcNow, before, after, w.oneShare, Paths.Names(step.sourcePath),
                            Paths.Names(step.destPath), step.size, w.ranged, copy.data, copy.stamp))
    && (!w.request.overwrite ==> FileCopy.FilesKept(before, after))
  }

  /** What stops a step is trouble, or something that stands in its way. */
  ghost predicate Tried(srcNow: Nodes, before: Nodes, after: Nodes, w: Way, step: Step, copy: Copy, cancelled: bool,
                        trouble: bool)
  {
    && StepDone(srcNow, before, after, w, step, copy)
    && (copy.outcome == CopyFailed && !trouble ==> w.Blocks(srcNow, before, step))
    && (cancelled ==> copy.outcome != Copied)
  }

  /** Where the step's target leads there is the file that was put there. */
  ghost predicate Left(nodes: Nodes, step: Step, copy: Copy) {
    var key := KeyOf(step.destPath);
    key.Ok? && key.value in nodes && nodes[key.value] == File(copy.data, copy.stamp)
  }

  /** Step `k` was copied, and no later one has gone to where its target leads. */
  ghost predicate LastThere(plan: seq<Step>, copies: seq<Copy>, k: nat)
    requires |copies| <= |plan|
  {
    && k < |copies| && copies[k].outcome == Copied
    && forall m :: k < m < |copies| && copies[m].outcome != Refused ==> KeyOf(plan[m].destPath) != KeyOf(plan[k].destPath)
  }

  ghost predicate AllLeft(nodes: Nodes, plan: seq<Step>, copies: seq<Copy>)
    requires |copies| <= |plan|
  {
    forall k :: 0 <= k < |copies| && LastThere(plan, copies, k) ==> Left(nodes, plan[k], copies[k])
  }

  lemma CopiedIsLeft(srcNow: Nodes, before: Nodes, after: Nodes, w: Way, step: Step, copy: Copy)
    requires StepDone(srcNow, before, after, w, step, copy) && StepFine(step) && copy.outcome == Copied
    ensures Left(after, step, copy)
  {
  }

  lemma LeftMore(srcNow: Nodes, before: Nodes, after: Nodes, w: Way, plan: seq<Step>, copies: seq<Copy>, copy: Copy)
    requires |copies| < |plan| && AllFine(plan) && AllLeft(before, plan, copies)
    requires StepDone(srcNow, before, after, w, plan[|copies|], copy)
    ensures AllLeft(after, plan, copies + [copy])
  {
    var i, more := |copies|, copies + [copy];
    forall k | 0 <= k < |more| && LastThere(plan, more, k)
      ensures Left(after, plan[k], more[k])
    {
      if k == i {
        CopiedIsLeft(srcNow, before, after, w, plan[i], copy);
      } else {
        StillLast(plan, copies, copy, k);
        assert Left(before, plan[k], copies[k]);
        assert more[i] == copy;
      }
    }
  }

  lemma StillLast(plan: seq<Step>, copies: seq<Copy>, copy: Copy, k: nat)
    requires |copies| < |plan| && k < |copies| && LastThere(plan, copies + [copy], k)
    ensures LastThere(plan, copies, k)
  {
    var more := copies + [copy];
    forall m | k < m < |copies| && copies[m].outcome != Refused
      ensures KeyOf(plan[m].destPath) != KeyOf(plan[k].destPath)
    {
      assert more[m] == copies[m];
    }
  }

  /** Nothing is lost or changed but where some target leads, and what else is new is directories. */
  ghost predicate OnlyTargets(start: Nodes, nodes: Nodes, plan: seq<Step>) {
    && (forall q :: q in start && NoTarget(plan, q) ==> q in nodes && nodes[q] == start[q])
    && (forall q :: q in nodes && q !in start && NoTarget(plan, q) ==> nodes[q] == Dir)
  }

  ghost predicate NoTarget(plan: seq<Step>, q: Path) {
    forall i :: 0 <= i < |plan| ==> KeyOf(plan[i].destPath) != Ok(q)
  }

  lemma OnlyTargetsMore(start: Nodes, before: Nodes, after: Nodes, plan: seq<Step>, i: nat)
    requires i < |plan| && OnlyTargets(start, before, plan)
    requires FileCopy.KeepsBut(before, after, KeyOf(plan[i].destPath))
    ensures OnlyTargets(start, after, plan)
  {
  }

  /* ---------- A job's course, step by step ---------- */

  /** How a request is carried out. */
  function WayOf(oneShare: bool, request: Request, ranged: bool, reserved: set<string>): Way {
    Way(oneShare, ranged, request, reserved)
  }

  /** A job under way: how the shares were, its plan, what became of the steps, and the destination before and after them. */
  datatype Run = Run(w: Way, source: Nodes, plan: seq<Step>, copies: seq<Copy>, states: seq<Nodes>)
  {
    ghost predicate Counts() { |copies| <= |plan| && |states| == |copies| + 1 }

    ghost function Start(): Nodes requires Counts() { states[0] }

    ghost function End(): Nodes requires Counts() { states[|copies|] }

    /** What the source held before step `k`. */
    ghost function SourceAt(k: nat): Nodes
      requires k < |states|
    {
      if w.oneShare then states[k] else source
    }

    /** Step `k` was carried out, and has taken the destination from one state to the next. */
    ghost predicate Did(k: nat)
      requires Counts() && k < |copies|
    {
      StepDone(SourceAt(k), states[k], states[k + 1], w, plan[k], copies[k])
    }

    ghost predicate DidAll() {
      Counts() && forall k :: 0 <= k < |copies| ==> Did(k)
    }

    /** Something stood in the way of step `k` when it was its turn. */
    ghost predicate BlockedAt(k: nat)
      requires Counts() && k < |copies|
    {
      !w.Reserves(plan[k]) && w.Blocks(SourceAt(k), states[k], plan[k])
    }

    /** The last step that was tried is one that something stood in the way of. */
    ghost predicate StoppedByLast() {
      Counts() && copies != [] && BlockedAt(|copies| - 1)
    }

    ghost function After(copy: Copy, nodes: Nodes): Run {
      this.(copies := copies + [copy], states := states + [nodes])
    }
  }

  /** Each step was carried out in its turn, and together they have kept what a job has to keep. */
  ghost predicate Course(run: Run) {
    && run.DidAll() && run.source == run.SourceAt(0)
    && OnlyTargets(run.Start(), run.End(), run.plan)
    && (!run.w.request.overwrite ==> FileCopy.FilesKept(run.Start(), run.End()))
  }

  lemma AfterIs(run: Run, copy: Copy, nodes: Nodes)
    requires run.Counts() && |run.copies| < |run.plan|
    ensures var next := run.After(copy, nodes);
      && next.Counts() && next.Start() == run.Start() && next.End() == nodes
      && next.copies[|run.copies|] == copy && next.states[|run.copies|] == run.End()
      && next.SourceAt(|run.copies|) == run.SourceAt(|run.copies|)
      && next.copies[..|run.copies|] == run.copies && next.states[..|run.states|] == run.states
  {
  }

  lemma DidStill(run: Run, copy: Copy, nodes: Nodes, k: nat)
    requires run.Counts() && |run.copies| < |run.plan| && k < |run.copies| && run.Did(k)
    ensures run.After(copy, nodes).Did(k)
  {
    var next, i := run.After(copy, nodes), |run.copies|;
    AfterIs(run, copy, nodes);
    assert next.copies[k] == next.copies[..i][k];
    assert next.states[k] == next.states[..i + 1][k] && next.states[k + 1] == next.states[..i + 1][k + 1];
  }

  lemma DidNow(run: Run, copy: Copy, nodes: Nodes)
    requires run.Counts() && |run.copies| < |run.plan|
    requires StepDone(run.SourceAt(|run.copies|), run.End(), nodes, run.w, run.plan[|run.copies|], copy)
    ensures run.After(copy, nodes).Did(|run.copies|)
  {
    AfterIs(run, copy, nodes);
  }

  lemma DidEarlier(run: Run, copy: Copy, nodes: Nodes)
    requires run.DidAll() && |run.copies| < |run.plan|
    ensures run.After(copy, nodes).Counts()
    ensures forall k :: 0 <= k < |run.copies| ==> run.After(copy, nodes).Did(k)
  {
    AfterIs(run, copy, nodes);
    forall k | 0 <= k < |run.copies|
      ensures run.After(copy, nodes).Did(k)
    {
      DidStill(run, copy, nodes, k);
    }
  }

  lemma DidOneMore(next: Run, n: nat)
    requires next.Counts() && |next.copies| == n + 1
    requires next.Did(n) && forall k :: 0 <= k < n ==> next.Did(k)
    ensures next.DidAll()
  {
    forall k | 0 <= k < |next.copies|
      ensures next.Did(k)
    {
      assert k == n || 0 <= k < n;
    }
  }

  /** What a step does at most. */
  lemma StepFrames(srcNow: Nodes, before: Nodes, after: Nodes, w: Way, step: Step, copy: Copy)
    requires StepDone(srcNow, before, after, w, step, copy)
    ensures FileCopy.KeepsBut(before, after, KeyOf(step.destPath))
    ensures !w.request.overwrite ==> FileCopy.FilesKept(before, after)
  {
  }

  lemma CourseMore(run: Run, copy: Copy, nodes: Nodes)
    requires Course(run) && |run.copies| < |run.plan|
    requires StepDone(run.SourceAt(|run.copies|), run.End(), nodes, run.w, run.plan[|run.copies|], copy)
    ensures Course(run.After(copy, nodes))
  {
    DidEarlier(run, copy, nodes);
    DidNow(run, copy, nodes);
    DidOneMore(run.After(copy, nodes), |run.copies|);
    StepFrames(run.SourceAt(|run.copies|), run.End(), nodes, run.w, run.plan[|run.copies|], copy);
    OnlyTargetsMore(run.Start(), run.End(), nodes, run.plan, |run.copies|);
  }

  /* ---------- What sources hold meanwhile ---------- */

  /** No target leads to where a source leads. */
  ghost predicate Aside(plan: seq<Step>) {
    forall i, j :: 0 <= i < |plan| && 0 <= j < |plan| && KeyOf(plan[j].sourcePath).Ok? ==>
      KeyOf(plan[i].destPath) != KeyOf(plan[j].sourcePath)
  }

  /** The source of a step is the file that it was, if it was or is one. */
  ghost predicate SourceStays(start: Nodes, nodes: Nodes, step: Step) {
    var key := KeyOf(step.sourcePath);
    key.Ok? && (IsFile(start, key.value) || IsFile(nodes, key.value)) ==>
      key.value in start && key.value in nodes && start[key.value] == nodes[key.value]
  }

  ghost predicate SourcesStay(start: Nodes, nodes: Nodes, plan: seq<Step>) {
    forall j :: 0 <= j < |plan| ==> SourceStays(start, nodes, plan[j])
  }

  lemma StepKeepsSources(start: Nodes, before: Nodes, after: Nodes, plan: seq<Step>, i: nat)
    requires i < |plan| && Aside(plan) && SourcesStay(start, before, plan)
    requires FileCopy.KeepsBut(before, after, KeyOf(plan[i].destPath))
    ensures SourcesStay(start, after, plan)
  {
    forall j | 0 <= j < |plan|
      ensures SourceStays(start, after, plan[j])
    {
      assert SourceStays(start, before, plan[j]);
      var key := KeyOf(plan[j].sourcePath);
      assert key.Ok? ==> KeyOf(plan[i].destPath) != key;
    }
  }

  /** What there was to copy for a step, at the start. */
  ghost function SourceOf(start: Nodes, step: Step): seq<byte> {
    FileCopy.SourceData(start, KeyOf(step.sourcePath), false)
  }

  /** The step was copied from a file, and what it carried over comes from what that held at the start. */
  ghost predicate FromStart(start: Nodes, step: Step, ranged: bool, copy: Copy) {
    && KeyOf(step.sourcePath).Ok? && IsFile(start, KeyOf(step.sourcePath).value)
    && copy.data == FileCopy.Carried(SourceOf(start, step), step.size, ranged)
  }

  ghost predicate AllFromStart(start: Nodes, plan: seq<Step>, copies: seq<Copy>, ranged: bool)
    requires |copies| <= |plan|
  {
    forall k :: 0 <= k < |copies| && copies[k].outcome == Copied ==> FromStart(start, plan[k], ranged, copies[k])
  }

  lemma CopiedFromStart(start: Nodes, srcNow: Nodes, before: Nodes, after: Nodes, w: Way, step: Step, copy: Copy)
    requires StepDone(srcNow, before, after, w, step, copy) && StepFine(step) && copy.outcome == Copied
    requires SourceStays(start, srcNow, step)
    requires w.oneShare ==> KeyOf(step.destPath) != KeyOf(step.sourcePath)
    ensures FromStart(start, step, w.ranged, copy)
  {
  }

  /** A copy of a file that has the planned size is that file. */
  lemma WholeFile(start: Nodes, step: Step, ranged: bool, copy: Copy)
    requires FromStart(start, step, ranged, copy) && Sized(start, step)
    ensures copy.data == start[KeyOf(step.sourcePath).value].data && |copy.data| == step.size
  {
  }

  /* ---------- What the job reports ---------- */

  /** How many of the copies came out like that. */
  function Tally(copies: seq<Copy>, outcome: CopyOutcome): nat {
    if copies == [] then 0
    else Tally(copies[..|copies| - 1], outcome) + if copies[|copies| - 1].outcome == outcome then 1 else 0
  }

  /** The bytes of the copies that were done. */
  function BytesOf(copies: seq<Copy>): nat {
    if copies == [] then 0
    else
      var last := copies[|copies| - 1];
      BytesOf(copies[..|copies| - 1]) + if last.outcome == Copied then |last.data| else 0
  }

  lemma TallySnoc(copies: seq<Copy>, copy: Copy)
    ensures forall o :: Tally(copies + [copy], o) == Tally(copies, o) + if copy.outcome == o then 1 else 0
  {
    assert (copies + [copy])[..|copies|] == copies;
  }

  lemma BytesSnoc(copies: seq<Copy>, copy: Copy)
    ensures BytesOf(copies + [copy]) == BytesOf(copies) + if copy.outcome == Copied then |copy.data| else 0
  {
    assert (copies + [copy])[..|copies|] == copies;
  }

  lemma {:induction false} TallySum(copies: seq<Copy>)
    ensures Tally(copies, Copied) + Tally(copies, Refused) + Tally(copies, CopyFailed) == |copies|
  {
    if copies != [] {
      TallySum(copies[..|copies| - 1]);
    }
  }

  lemma {:induction false} SumSizesMonotone(steps: seq<Step>, i: nat)
    requires i < |steps|
    ensures SumSizes(steps[..i]) + steps[i].size <= SumSizes(steps)
    ensures SumSizes(steps[..i + 1]) == SumSizes(steps[..i]) + steps[i].size
    decreases |steps|
  {
    assert steps[..i + 1][..i] == steps[..i];
    if i < |steps| - 1 {
      SumSizesMonotone(steps[..|steps| - 1], i);
      assert steps[..|steps| - 1][..i] == steps[..i];
    } else {
      assert steps[..i + 1] == steps;
    }
  }

  /** The job's counters tell what has come of the plan; only the last copy can have failed. */
  ghost predicate Progress(view: Snapshot, plan: seq<Step>, copies: seq<Copy>) {
    && view.totalFiles == |plan| && view.totalBytes == SumSizes(plan) && |copies| <= |plan|
    && view.copiedFiles == Tally(copies, Copied) && view.skippedFiles == Tally(copies, Refused)
    && view.failedFiles == Tally(copies, CopyFailed) <= 1
    && (view.failedFiles == 1 ==> copies != [] && copies[|copies| - 1].outcome == CopyFailed)
    && (view.failedFiles == 0 ==> view.copiedBytes == BytesOf(copies))
  }

  function CountOne(view: Snapshot, outcome: CopyOutcome): Snapshot {
    match outcome
    case Copied => view.(copiedFiles := view.copiedFiles + 1)
    case Refused => view.(skippedFiles := view.skippedFiles + 1)
    case CopyFailed => view.(failedFiles := view.failedFiles + 1)
  }

  lemma ProgressSnoc(before: Snapshot, after: Snapshot, plan: seq<Step>, copies: seq<Copy>, copy: Copy)
    requires Progress(before, plan, copies) && before.failedFiles == 0 && |copies| < |plan|
    requires after == CountOne(before.(currentPath := after.currentPath, copiedBytes := after.copiedBytes), copy.outcome)
    requires copy.outcome != CopyFailed ==>
      after.copiedBytes == before.copiedBytes + if copy.outcome == Copied then |copy.data| else 0
    ensures Progress(after, plan, copies + [copy])
  {
    TallySnoc(copies, copy);
    BytesSnoc(copies, copy);
  }

  /** Never more bytes copied than there were to copy. */
  predicate WithinTotals(history: seq<Snapshot>) {
    forall i :: 0 <= i < |history| ==> history[i].copiedBytes <= history[i].totalBytes
  }

  /** From one history to a longer one, totals stay and bytes stay within a bound. */
  ghost predicate BytesUpTo(earlier: seq<Snapshot>, later: seq<Snapshot>, total: nat, high: nat) {
    && earlier <= later
    && forall i :: |earlier| <= i < |later| ==> later[i].totalBytes == total && later[i].copiedBytes <= high
  }

  lemma StillWithin(earlier: seq<Snapshot>, later: seq<Snapshot>, total: nat, high: nat)
    requires WithinTotals(earlier) && BytesUpTo(earlier, later, total, high) && high <= total
    ensures WithinTotals(later)
  {
  }

  /** The copies in `copies` have not counted more than was planned for them. */
  ghost predicate AsPlanned(plan: seq<Step>, copies: seq<Copy>)
    requires |copies| <= |plan|
  {
    BytesOf(copies) <= SumSizes(plan[..|copies|])
  }

  /** How many bytes the copy of a step may count, at most. */
  ghost function Most(srcNow: Nodes, w: Way, step: Step): nat {
    FileCopy.MostBytes(
      |FileCopy.Available(srcNow, w.oneShare, Paths.Names(step.sourcePath), Paths.Names(step.destPath))|, step.size,
      w.ranged)
  }

  lemma MostIsPlanned(start: Nodes, srcNow: Nodes, w: Way, step: Step)
    requires StepFine(step) && SourceStays(start, srcNow, step) && Sized(start, step)
    ensures Most(srcNow, w, step) <= step.size
  {
  }

  /** The copy of one step, as far as it concerns the shares, and the bytes that the job counts for it. */
  method CopyFile(job: SyncJob, transfers: TransferLocks.TransferLock, ctx: CopyIO.Context, src: Share, dst: Share,
                  request: Request, ranged: bool, cores: int, step: Step, ghost w: Way)
    returns (ghost copy: Copy, outcome: CopyOutcome)
    requires job.Valid() && job.status == Running && IsTree(dst.nodes) && StepFine(step)
    requires w == WayOf(src == dst, request, ranged, transfers.active)
    modifies job, transfers, ctx, src`faulted, dst
    ensures transfers.active == old(transfers.active) && outcome == copy.outcome
    ensures Tried(old(src.nodes), old(dst.nodes), dst.nodes, w, step, copy, old(ctx.cancelled),
                  FileCopy.Trouble(ctx, src, dst))
    ensures Reports(job) && Counted(old(Now(job)), Now(job), Most(old(src.nodes), w, step))
    ensures copy.outcome == Copied ==> CountedAll(old(Now(job)), Now(job), |copy.data|)
    ensures copy.outcome == Refused ==> Now(job) == old(Now(job))
  {
    var result, data, stamp := FileCopy.CopyOneFile(transfers, ctx, src, dst, request.sourceBackend,
      request.destBackend, Paths.Names(step.sourcePath), Paths.Names(step.destPath), step.size, request.overwrite,
      ranged, cores, job);
    outcome := if result.Done? then Copied else if result.Busy? then Refused else CopyFailed;
    copy := Copy(outcome, data, stamp);
  }

  /** What the job reports about a step: its target, its outcome, and at most so many bytes. */
  ghost predicate Reported(from: Moment, to: Moment, step: Step, copy: Copy, most: nat) {
    && to.view == CountOne(from.view.(currentPath := step.destPath, copiedBytes := to.view.copiedBytes), copy.outcome)
    && (copy.outcome == Copied ==> to.view.copiedBytes == from.view.copiedBytes + |copy.data|)
    && (copy.outcome == Refused ==> to.view.copiedBytes == from.view.copiedBytes)
    && BytesUpTo(from.history, to.history, from.view.totalBytes, from.view.copiedBytes + most)
  }

  /** Before the copy and after it the job adds one moment each. */
  lemma AroundTheCopy(from: Moment, before: Moment, middle: Moment, to: Moment, step: Step, copy: Copy, most: nat)
    requires before.view == from.view.(currentPath := step.destPath) && before.history == from.history + [before.view]
    requires Counted(before, middle, most) && (copy.outcome == Copied ==> CountedAll(before, middle, |copy.data|))
    requires copy.outcome == Refused ==> middle == before
    requires to.view == CountOne(middle.view, copy.outcome) && to.history == middle.history + [to.view]
    ensures Reported(from, to, step, copy, most)
  {
    assert middle.history[..|before.history|] == before.history && before.history[..|from.history|] == from.history;
    forall i | |from.history| <= i < |middle.history|
      ensures middle.history[i].totalBytes == from.view.totalBytes
      ensures middle.history[i].copiedBytes <= from.view.copiedBytes + most
    {
      assert i < |before.history| ==> middle.history[i] == middle.history[..|before.history|][i] == before.view;
    }
  }

  /** The step is over. */
  method CountStep(job: SyncJob, outcome: CopyOutcome, ghost from: Moment, ghost before: Moment, ghost step: Step,
                   ghost copy: Copy, ghost most: nat)
    requires job.Valid() && job.status == Running && outcome == copy.outcome
    requires job.failedFiles == 0 && job.copiedFiles + job.skippedFiles < job.totalFiles
    requires before.view == from.view.(currentPath := step.destPath) && before.history == from.history + [before.view]
    requires Counted(before, Now(job), most)
    requires copy.outcome == Copied ==> CountedAll(before, Now(job), |copy.data|)
    requires copy.outcome == Refused ==> Now(job) == before
    modifies job
    ensures job.Valid() && Reported(from, Now(job), step, copy, most)
  {
    ghost var middle := Now(job);
    job.CountFile(outcome);
    AroundTheCopy(from, before, middle, Now(job), step, copy, most);
  }

  /** The copy of one step, and all that the job reports about it. */
  method CopyStep(job: SyncJob, transfers: TransferLocks.TransferLock, ctx: CopyIO.Context, src: Share, dst: Share,
                  request: Request, ranged: bool, cores: int, step: Step, ghost w: Way)
    returns (ghost copy: Copy, outcome: CopyOutcome)
    requires job.Valid() && job.status == Running && IsTree(dst.nodes) && StepFine(step)
    requires job.failedFiles == 0 && job.copiedFiles + job.skippedFiles < job.totalFiles
    requires w == WayOf(src == dst, request, ranged, transfers.active)
    modifies job, transfers, ctx, src`faulted, dst
    ensures transfers.active == old(transfers.active) && outcome == copy.outcome
    ensures Tried(old(src.nodes), old(dst.nodes), dst.nodes, w, step, copy, old(ctx.cancelled),
                  FileCopy.Trouble(ctx, src, dst))
    ensures job.Valid() && Reported(old(Now(job)), Now(job), step, copy, Most(old(src.nodes), w, step))
  {
    ghost var from, most := Now(job), Most(src.nodes, w, step);
    job.SetCurrent(step.destPath);
    ghost var before := Now(job);
    copy, outcome := CopyFile(job, transfers, ctx, src, dst, request, ranged, cores, step, w);
    CountStep(job, outcome, from, before, step, copy, most);
  }

  /** What a job knows about the sources: they stay as they were when the plan was made. */
  ghost predicate Undisturbed(w: Way, plan: seq<Step>) {
    w.oneShare ==> Aside(plan)
  }

  /** Under way through a plan: what the destination holds, what the job says, and what it has said so far. */
  ghost predicate Underway(start: Nodes, srcNow: Nodes, dstNow: Nodes, w: Way, plan: seq<Step>,
                           copies: seq<Copy>, view: Snapshot, history: seq<Snapshot>)
  {
    && Progress(view, plan, copies) && IsTree(dstNow) && AllLeft(dstNow, plan, copies)
    && (Undisturbed(w, plan) ==>
          AllFromStart(start, plan, copies, w.ranged) && SourcesStay(start, srcNow, plan))
    && (Undisturbed(w, plan) && AllSized(start, plan) ==>
          WithinTotals(history) && AsPlanned(plan, copies))
  }

  /** A step that has not failed leaves the bytes within what was planned up to it. */
  lemma PlannedMore(start: Nodes, plan: seq<Step>, copies: seq<Copy>, ranged: bool, copy: Copy)
    requires |copies| < |plan| && AsPlanned(plan, copies) && AllSized(start, plan)
    requires copy.outcome == Copied ==> FromStart(start, plan[|copies|], ranged, copy)
    ensures AsPlanned(plan, copies + [copy])
  {
    var i := |copies|;
    BytesSnoc(copies, copy);
    SumSizesMonotone(plan, i);
    if copy.outcome == Copied {
      assert Sized(start, plan[i]);
      WholeFile(start, plan[i], ranged, copy);
    }
  }

  lemma FromStartMore(start: Nodes, plan: seq<Step>, copies: seq<Copy>, ranged: bool, copy: Copy)
    requires |copies| < |plan| && AllFromStart(start, plan, copies, ranged)
    requires copy.outcome == Copied ==> FromStart(start, plan[|copies|], ranged, copy)
    ensures AllFromStart(start, plan, copies + [copy], ranged)
  {
  }

  /** What a step adds, where the sources are left alone. */
  lemma UndisturbedMore(start: Nodes, srcBefore: Nodes, srcAfter: Nodes, before: Nodes, after: Nodes, w: Way,
                        plan: seq<Step>, copies: seq<Copy>, copy: Copy)
    requires |copies| < |plan| && AllFine(plan) && Undisturbed(w, plan)
    requires AllFromStart(start, plan, copies, w.ranged) && SourcesStay(start, srcBefore, plan)
    requires StepDone(srcBefore, before, after, w, plan[|copies|], copy)
    requires if w.oneShare then srcBefore == before && srcAfter == after else srcAfter == srcBefore
    ensures AllFromStart(start, plan, copies + [copy], w.ranged) && SourcesStay(start, srcAfter, plan)
    ensures copy.outcome == Copied ==> FromStart(start, plan[|copies|], w.ranged, copy)
  {
    var step := plan[|copies|];
    assert SourceStays(start, srcBefore, step);
    if copy.outcome == Copied {
      if KeyOf(step.sourcePath).Ok? {
        CopiedFromStart(start, srcBefore, before, after, w, step, copy);
      }
    }
    FromStartMore(start, plan, copies, w.ranged, copy);
    if w.oneShare {
      StepKeepsSources(start, before, after, plan, |copies|);
    }
  }

  /** And the bytes it reports. */
  lemma HistoryMore(start: Nodes, srcBefore: Nodes, w: Way, plan: seq<Step>, copies: seq<Copy>,
                    view: Snapshot, earlier: seq<Snapshot>, later: seq<Snapshot>)
    requires |copies| < |plan| && AllFine(plan) && AllSized(start, plan) && SourcesStay(start, srcBefore, plan)
    requires AsPlanned(plan, copies) && WithinTotals(earlier)
    requires view.totalBytes == SumSizes(plan) && view.copiedBytes == BytesOf(copies)
    requires BytesUpTo(earlier, later, view.totalBytes,
                       view.copiedBytes + Most(srcBefore, w, plan[|copies|]))
    ensures WithinTotals(later)
  {
    var i := |copies|;
    assert SourceStays(start, srcBefore, plan[i]) && Sized(start, plan[i]);
    MostIsPlanned(start, srcBefore, w, plan[i]);
    SumSizesMonotone(plan, i);
    StillWithin(earlier, later, view.totalBytes, view.copiedBytes + Most(srcBefore, w, plan[i]));
  }

  lemma UnderwayMore(start: Nodes, srcBefore: Nodes, srcAfter: Nodes, before: Nodes, after: Nodes, w: Way,
                     plan: seq<Step>, copies: seq<Copy>, copy: Copy, from: Moment, to: Moment)
    requires |copies| < |plan| && AllFine(plan) && from.view.failedFiles == 0
    requires Underway(start, srcBefore, before, w, plan, copies, from.view, from.history)
    requires StepDone(srcBefore, before, after, w, plan[|copies|], copy)
    requires if w.oneShare then srcBefore == before && srcAfter == after else srcAfter == srcBefore
    requires Reported(from, to, plan[|copies|], copy, Most(srcBefore, w, plan[|copies|]))
    ensures Underway(start, srcAfter, after, w, plan, copies + [copy], to.view, to.history)
  {
    ProgressSnoc(from.view, to.view, plan, copies, copy);
    LeftMore(srcBefore, before, after, w, plan, copies, copy);
    if Undisturbed(w, plan) {
      UndisturbedMore(start, srcBefore, srcAfter, before, after, w, plan, copies, copy);
      if AllSized(start, plan) {
        HistoryMore(start, srcBefore, w, plan, copies, from.view, from.history, to.history);
        PlannedMore(start, plan, copies, w.ranged, copy);
      }
    }
  }

  /** A job between two turns of its loop. */
  ghost predicate Midway(run: Run, view: Snapshot, history: seq<Snapshot>) {
    && Course(run)
    && Underway(run.source, run.SourceAt(|run.copies|), run.End(), run.w, run.plan, run.copies, view, history)
  }

  lemma MidwayMore(run: Run, copy: Copy, nodes: Nodes, from: Moment, to: Moment)
    requires Midway(run, from.view, from.history) && |run.copies| < |run.plan| && AllFine(run.plan)
    requires from.view.failedFiles == 0
    requires StepDone(run.SourceAt(|run.copies|), run.End(), nodes, run.w, run.plan[|run.copies|], copy)
    requires Reported(from, to, run.plan[|run.copies|], copy,
                      Most(run.SourceAt(|run.copies|), run.w, run.plan[|run.copies|]))
    ensures Midway(run.After(copy, nodes), to.view, to.history)
  {
    var next := run.After(copy, nodes);
    CourseMore(run, copy, nodes);
    UnderwayMore(run.source, run.SourceAt(|run.copies|), next.SourceAt(|next.copies|), run.End(), nodes, run.w, run.plan,
                 run.copies, copy, from, to);
  }

  /** The shares are as the run has left them. */
  ghost predicate Stands(run: Run, src: Share, dst: Share)
    requires run.Counts()
    reads src, dst
  {
    run.w.oneShare == (src == dst) && src.nodes == run.SourceAt(|run.copies|) && dst.nodes == run.End()
  }

  /** One turn of the copy loop, after the context has been checked. */
  method CopyNext(job: SyncJob, transfers: TransferLocks.TransferLock, ctx: CopyIO.Context, src: Share, dst: Share,
                  request: Request, ranged: bool, cores: int, plan: seq<Step>, i: nat, ghost run: Run)
    returns (outcome: CopyOutcome, ghost next: Run)
    requires job.Valid() && job.status == Running && job.failedFiles == 0 && AllFine(plan) && plan == run.plan
    requires i == |run.copies| < |plan| && run.w == WayOf(src == dst, request, ranged, transfers.active)
    requires Midway(run, job.View(), job.history) && Stands(run, src, dst)
    modifies job, transfers, ctx, src`faulted, dst
    ensures transfers.active == old(transfers.active)
    ensures |next.copies| == i + 1 && next == run.(copies := next.copies, states := next.states)
    ensures next.Counts() && next.Start() == run.Start()
    ensures Midway(next, job.View(), job.history) && Stands(next, src, dst)
    ensures outcome == CopyFailed && !FileCopy.Trouble(ctx, src, dst) ==> next.StoppedByLast()
    ensures job.Valid() && job.status == Running && old(job.history) <= job.history
    ensures job.failedFiles == if outcome == CopyFailed then 1 else 0
  {
    ghost var from, copy := Now(job), Copy(CopyFailed, [], 0);
    TallySum(run.copies);
    copy, outcome := CopyStep(job, transfers, ctx, src, dst, request, ranged, cores, plan[i], run.w);
    next := run.After(copy, dst.nodes);
    MidwayMore(run, copy, dst.nodes, from, Now(job));
  }

  /** The job is over, as its copies have come out. */
  ghost predicate Over(view: Snapshot, plan: seq<Step>, copies: seq<Copy>) {
    view.status == StatusOf(Tally(copies, CopyFailed), |copies|, |plan|)
  }

  lemma NothingUnderway(run: Run, view: Snapshot, history: seq<Snapshot>)
    requires run.copies == [] && |run.states| == 1 && run.source == run.SourceAt(0) && IsTree(run.End())
    requires Progress(view, run.plan, []) && WithinTotals(history)
    ensures Midway(run, view, history)
  {
  }

  /** The last change of status. */
  method Finish(job: SyncJob, status: Status, ghost run: Run)
    requires job.Valid() && job.status == Running && status.Terminal() && Midway(run, job.View(), job.history)
    requires status == StatusOf(job.failedFiles, |run.copies|, |run.plan|)
    modifies job
    ensures job.Valid() && old(job.history) <= job.history && job.status == status
    ensures Midway(run, job.View(), job.history) && Over(job.View(), run.plan, run.copies)
  {
    TallySum(run.copies);
    job.SetStatus(status);
  }

  /** How a job ends. */
  function StatusOf(failed: nat, tried: nat, planned: nat): Status {
    if failed > 0 then Failed else if tried == planned then Completed else Status.Canceled
  }

  /** A job that is cancelled before its first step does nothing. */
  ghost predicate NotBegun(run: Run, status: Status) {
    run.plan != [] ==> status == Status.Canceled && run.copies == []
  }

  /**
   The copy loop of a job; `status` is how it ends, and `run` tells of its steps. Unless there is trouble, only a step
   that something stands in the way of stops it.
   */
  method CopySteps(job: SyncJob, transfers: TransferLocks.TransferLock, ctx: CopyIO.Context, src: Share, dst: Share,
                   request: Request, ranged: bool, cores: int, plan: seq<Step>)
    returns (status: Status, ghost run: Run)
    requires job.Valid() && job.status == Running && AllFine(plan) && IsTree(dst.nodes) && job.failedFiles == 0
    requires Progress(job.View(), plan, []) && WithinTotals(job.history)
    modifies job, transfers, ctx, src`faulted, dst
    ensures transfers.active == old(transfers.active)
    ensures run.w == old(WayOf(src == dst, request, ranged, transfers.active)) && run.plan == plan
    ensures Midway(run, job.View(), job.history) && Stands(run, src, dst)
    ensures run.source == old(src.nodes) && run.Start() == old(dst.nodes)
    ensures job.Valid() && job.status == Running && old(job.history) <= job.history
    ensures status == StatusOf(job.failedFiles, |run.copies|, |plan|) && (status == Status.Canceled ==> ctx.cancelled)
    ensures status == Failed && !FileCopy.Trouble(ctx, src, dst) ==> run.StoppedByLast()
    ensures old(ctx.cancelled) ==> NotBegun(run, status)
  {
    run := Run(WayOf(src == dst, request, ranged, transfers.active), src.nodes, plan, [], [dst.nodes]);
    ghost var first := run;
    NothingUnderway(run, job.View(), job.history);
    for i := 0 to |plan|
      invariant transfers.active == old(transfers.active) && |run.copies| == i && job.failedFiles == 0
      invariant job.Valid() && job.status == Running && old(job.history) <= job.history
      invariant run == first.(copies := run.copies, states := run.states)
      invariant Midway(run, job.View(), job.history) && Stands(run, src, dst) && run.Start() == first.Start()
      invariant old(ctx.cancelled) ==> i == 0 && ctx.cancelled
    {
      var canceled := ctx.Err();
      if canceled.Some? {
        return Status.Canceled, run;
      }
      var outcome;
      outcome, run := CopyNext(job, transfers, ctx, src, dst, request, ranged, cores, plan, i, run);
      if outcome == CopyFailed {
        return Failed, run;
      }
    }
    status := Completed;
  }

  /* ---------- The job ---------- */

  /** The totals of a plan. */
  method ReportTotals(job: SyncJob, plan: seq<Step>)
    requires job.Valid() && job.status == Running && NothingCounted(job) && WithinTotals(job.history)
    modifies job
    ensures job.Valid() && job.history == old(job.history) + [job.View()]
    ensures job.View() == old(job.View()).(totalFiles := |plan|, totalBytes := SumSizes(plan))
    ensures Progress(job.View(), plan, []) && WithinTotals(job.history)
  {
    var totalBytes := 0;
    for i := 0 to |plan|
      invariant totalBytes == SumSizes(plan[..i])
    {
      assert plan[..i + 1][..i] == plan[..i];
      totalBytes := totalBytes + plan[i].size;
    }
    assert plan[..|plan|] == plan;
    job.SetTotals(|plan|, totalBytes);
  }

  /** A job that has just been queued. */
  ghost predicate New(job: SyncJob)
    reads job
  {
    job.Valid() && job.status == Queued && job.history == [job.View()] && NothingCounted(job)
  }

  ghost predicate NothingCounted(job: SyncJob)
    reads job
  {
    job.copiedFiles == job.skippedFiles == job.failedFiles == job.copiedBytes == job.totalBytes == job.totalFiles == 0
  }

  /** The plan, freed of repetitions; `planned` is how it was before that. */
  method MakePlan(src: Share, items: seq<SyncItem>) returns (plan: Result<seq<Step>>, ghost planned: Option<seq<Step>>)
    requires IsTree(src.nodes) && ProperNames(src.nodes) && CanListAll(src.nodes, items)
    modifies src`faulted
    ensures plan.Ok? <==> planned.Some?
    ensures plan.Ok? ==> plan.value == Dedupe(planned.value) && AllFine(plan.value)
    ensures plan.Ok? ==> AllPlannable(src.nodes, items, |items|) && Covers(src.nodes, items, planned.value)
    ensures plan.Err? ==> src.faulted || !AllPlannable(src.nodes, items, |items|)
  {
    plan := BuildCopyPlan(src, items);
    if plan.Err? {
      return plan, None;
    }
    PlanIsFine(src.nodes, items, plan.value);
    planned := Some(plan.value);
    var steps := DedupeCopySteps(plan.value);
    plan := Ok(steps);
  }

  /** What a job that made a plan has come to; `planned` is its plan before repetitions were dropped. */
  ghost predicate Ended(run: Run, items: seq<SyncItem>, planned: seq<Step>, view: Snapshot, history: seq<Snapshot>) {
    && IsTree(run.source) && AllPlannable(run.source, items, |items|) && Covers(run.source, items, planned)
    && run.plan == Dedupe(planned) && Midway(run, view, history) && Over(view, run.plan, run.copies)
  }

  /** A job that has a plan. */
  method RunPlan(job: SyncJob, transfers: TransferLocks.TransferLock, ctx: CopyIO.Context, src: Share, dst: Share,
                 request: Request, ranged: bool, cores: int, plan: seq<Step>, ghost planned: seq<Step>)
    returns (ghost run: Run)
    requires job.Valid() && job.status == Running && NothingCounted(job) && WithinTotals(job.history)
    requires IsTree(src.nodes) && IsTree(dst.nodes) && AllFine(plan) && plan == Dedupe(planned)
    requires AllPlannable(src.nodes, request.items, |request.items|) && Covers(src.nodes, request.items, planned)
    modifies job, transfers, ctx, src`faulted, dst
    ensures transfers.active == old(transfers.active)
    ensures run.w == old(WayOf(src == dst, request, ranged, transfers.active))
    ensures run.Counts() && Stands(run, src, dst) && run.source == old(src.nodes) && run.Start() == old(dst.nodes)
    ensures Ended(run, request.items, planned, job.View(), job.history)
    ensures job.Valid() && job.status.Terminal() && old(job.history) <= job.history
    ensures job.status == Status.Canceled ==> ctx.cancelled
    ensures job.status == Failed && !FileCopy.Trouble(ctx, src, dst) ==> run.StoppedByLast()
    ensures old(ctx.cancelled) ==> NotBegun(run, job.status)
  {
    ghost var source := src.nodes;
    ReportTotals(job, plan);
    run := RunSteps(job, transfers, ctx, src, dst, request, ranged, cores, plan);
    EndedAfter(run, source, request.items, planned, job.View(), job.history);
  }

  lemma EndedAfter(run: Run, source: Nodes, items: seq<SyncItem>, planned: seq<Step>, view: Snapshot,
                   history: seq<Snapshot>)
    requires IsTree(source) && AllPlannable(source, items, |items|) && Covers(source, items, planned)
    requires run.source == source && run.plan == Dedupe(planned)
    requires Midway(run, view, history) && Over(view, run.plan, run.copies)
    ensures Ended(run, items, planned, view, history)
  {
  }

  /** The copy loop, and the last change of status. */
  method RunSteps(job: SyncJob, transfers: TransferLocks.TransferLock, ctx: CopyIO.Context, src: Share, dst: Share,
                  request: Request, ranged: bool, cores: int, plan: seq<Step>)
    returns (ghost run: Run)
    requires job.Valid() && job.status == Running && AllFine(plan) && IsTree(dst.nodes) && job.failedFiles == 0
    requires Progress(job.View(), plan, []) && WithinTotals(job.history)
    modifies job, transfers, ctx, src`faulted, dst
    ensures transfers.active == old(transfers.active)
    ensures run.w == old(WayOf(src == dst, request, ranged, transfers.active)) && run.plan == plan
    ensures Midway(run, job.View(), job.history) && Stands(run, src, dst) && Over(job.View(), run.plan, run.copies)
    ensures run.source == old(src.nodes) && run.Start() == old(dst.nodes)
    ensures job.Valid() && job.status.Terminal() && old(job.history) <= job.history
    ensures job.status == Status.Canceled ==> ctx.cancelled
    ensures job.status == Failed && !FileCopy.Trouble(ctx, src, dst) ==> run.StoppedByLast()
    ensures old(ctx.cancelled) ==> NotBegun(run, job.status)
  {
    var status;
    status, run := CopySteps(job, transfers, ctx, src, dst, request, ranged, cores, plan);
    Finish(job, status, run);
  }

  /** A job that could open both backends. */
  method RunOpened(job: SyncJob, transfers: TransferLocks.TransferLock, ctx: CopyIO.Context, src: Share, dst: Share,
                   request: Request, ranged: bool, cores: int)
    returns (ghost planned: Option<seq<Step>>, ghost run: Run)
    requires job.Valid() && job.status == Running && NothingCounted(job) && WithinTotals(job.history)
    requires IsTree(src.nodes) && IsTree(dst.nodes) && ProperNames(src.nodes) && CanListAll(src.nodes, request.items)
    modifies job, transfers, ctx, src`faulted, dst
    ensures transfers.active == old(transfers.active)
    ensures job.Valid() && old(job.history) <= job.history && job.status.Terminal()
    ensures planned.None? ==> job.status == Failed && dst.nodes == old(dst.nodes) && job.totalFiles == 0
    ensures planned.None? ==> src.faulted || !AllPlannable(old(src.nodes), request.items, |request.items|)
    ensures run.w == old(WayOf(src == dst, request, ranged, transfers.active))
    ensures run.Counts() && Stands(run, src, dst) && run.source == old(src.nodes) && run.Start() == old(dst.nodes)
    ensures planned.Some? ==> Ended(run, request.items, planned.value, job.View(), job.history)
    ensures planned.Some? && job.status == Failed && !FileCopy.Trouble(ctx, src, dst) ==> run.StoppedByLast()
    ensures job.status == Status.Canceled ==> ctx.cancelled
    ensures planned.Some? && old(ctx.cancelled) ==> NotBegun(run, job.status)
  {
    var plan;
    plan, planned := MakePlan(src, request.items);
    if plan.Err? {
      run := Unplanned(src, dst, request, ranged, transfers.active);
      job.SetStatus(Failed);
      return;
    }
    run := RunPlan(job, transfers, ctx, src, dst, request, ranged, cores, plan.value, planned.value);
  }

  /** A job that has no plan. */
  ghost function Unplanned(src: Share, dst: Share, request: Request, ranged: bool, reserved: set<string>): Run
    reads src, dst
  {
    Run(WayOf(src == dst, request, ranged, reserved), src.nodes, [], [], [dst.nodes])
  }

  /**
   The body of a job. `reachable` says whether both backends could be opened; whatever else may go wrong does so in
   the calls. The job ends in a final state and has kept every promise at every moment. Either it has made no
   plan, and touched nothing, or its copies are those of its plan, as far as it came, and are still there. What
   stopped it is trouble, or something that stood in the way of its last step. Without leave to overwrite no file
   is lost.
   */
  method RunJob(job: SyncJob, transfers: TransferLocks.TransferLock, ctx: CopyIO.Context, src: Share, dst: Share,
                request: Request, ranged: bool, cores: int, reachable: bool)
    returns (ghost planned: Option<seq<Step>>, ghost run: Run)
    requires New(job) && IsTree(src.nodes) && IsTree(dst.nodes)
    requires ProperNames(src.nodes) && CanListAll(src.nodes, request.items)
    modifies job, transfers, ctx, src`faulted, dst
    ensures transfers.active == old(transfers.active)
    ensures job.Valid() && old(job.history) <= job.history && job.status.Terminal()
    ensures planned.None? ==> job.status == Failed && dst.nodes == old(dst.nodes) && job.totalFiles == 0
    ensures planned.None? ==> !reachable || src.faulted || !AllPlannable(old(src.nodes), request.items, |request.items|)
    ensures run.w == old(WayOf(src == dst, request, ranged, transfers.active))
    ensures run.Counts() && Stands(run, src, dst) && run.source == old(src.nodes) && run.Start() == old(dst.nodes)
    ensures planned.Some? ==> reachable && Ended(run, request.items, planned.value, job.View(), job.history)
    ensures planned.Some? && job.status == Failed && !FileCopy.Trouble(ctx, src, dst) ==> run.StoppedByLast()
    ensures !request.overwrite ==> FileCopy.FilesKept(old(dst.nodes), dst.nodes)
    ensures job.status == Status.Canceled ==> ctx.cancelled
    ensures planned.Some? && old(ctx.cancelled) ==> NotBegun(run, job.status)
  {
    planned, run := None, Unplanned(src, dst, request, ranged, transfers.active);
    job.SetStatus(Running);
    if !reachable {
      job.SetStatus(Failed);
      return;
    }
    planned, run := RunOpened(job, transfers, ctx, src, dst, request, ranged, cores);
  }

  /** A request to cancel reaches the job's context only while the job is not yet over. */
  method Cancel(job: SyncJob, ctx: CopyIO.Context)
    modifies ctx
    ensures ctx.cancelled <==> old(ctx.cancelled) || !job.status.Terminal()
  {
    if job.status == Queued || job.status == Running {
      ctx.cancelled := true;
    }
  }

  /* ---------- What a job is worth ---------- */

  /**
   A job that met no trouble has failed exactly if something stood in the way of a step that it tried; else it has
   copied every file of its plan, but for those that were reserved.
   */
  lemma JobFailsIff(run: Run, items: seq<SyncItem>, planned: seq<Step>, view: Snapshot, history: seq<Snapshot>)
    requires Ended(run, items, planned, view, history) && view.status != Status.Canceled
    requires view.status == Failed ==> run.StoppedByLast()
    ensures view.status == Failed <==> exists k :: 0 <= k < |run.copies| && run.BlockedAt(k)
    ensures view.status == Completed ==> |run.copies| == |run.plan|
    ensures view.status == Completed ==>
      forall k :: 0 <= k < |run.copies| ==> run.copies[k].outcome == if run.w.Reserves(run.plan[k]) then Refused else Copied
  {
    if view.status == Completed {
      forall k | 0 <= k < |run.copies|
        ensures !run.BlockedAt(k)
        ensures run.copies[k].outcome == if run.w.Reserves(run.plan[k]) then Refused else Copied
      {
        NoneFailed(run.copies, k);
        UnfailedStep(run, k);
      }
    } else {
      assert run.BlockedAt(|run.copies| - 1);
    }
  }

  lemma UnfailedStep(run: Run, k: nat)
    requires run.DidAll() && k < |run.copies| && run.copies[k].outcome != CopyFailed
    ensures !run.BlockedAt(k)
    ensures run.copies[k].outcome == if run.w.Reserves(run.plan[k]) then Refused else Copied
  {
    assert run.Did(k);
  }

  lemma {:induction false} FilesKeptTo(run: Run, k: nat)
    requires run.DidAll() && k <= |run.copies| && !run.w.request.overwrite
    ensures FileCopy.FilesKept(run.Start(), run.states[k])
  {
    if k > 0 {
      FilesKeptTo(run, k - 1);
      assert run.Did(k - 1);
      StepFrames(run.SourceAt(k - 1), run.states[k - 1], run.states[k], run.w, run.plan[k - 1], run.copies[k - 1]);
    }
  }

  /** Without leave to overwrite, what a job copies goes to places where there was no file when it began. */
  lemma CopiedToFreePlaces(run: Run, k: nat)
    requires Course(run) && k < |run.copies| && run.copies[k].outcome == Copied && !run.w.request.overwrite
    ensures var key := KeyOf(Paths.Rel(Paths.Names(run.plan[k].destPath)));
      key.Ok? && !IsFile(run.Start(), key.value)
  {
    FilesKeptTo(run, k);
    assert run.Did(k);
    FileCopy.ApproachedKeeps(run.states[k], Paths.Names(run.plan[k].destPath));
  }

  /**
   A completed job has tried the step of every file that its items name, once, and none has failed. Where the
   targets are not among the sources, and files are found under their own paths, a file that was copied is at its
   target, whole, if no later step went to the same place.
   */
  lemma CompletedJobCovers(run: Run, items: seq<SyncItem>, planned: seq<Step>, view: Snapshot, history: seq<Snapshot>,
                           i: nat, p: Path)
    returns (k: nat)
    requires Ended(run, items, planned, view, history)
    requires view.status == Completed && i < |items| && Includes(run.source, items[i], p)
    ensures k < |run.copies| == |run.plan| && SamePair(run.plan[k], StepFor(run.source, items[i], p))
    ensures run.copies[k].outcome == if run.w.Reserves(run.plan[k]) then Refused else Copied
    ensures Undisturbed(run.w, run.plan) && FilesKept(run.source, items) && LastThere(run.plan, run.copies, k) ==>
      HoldsFile(run.End(), StepFor(run.source, items[i], p), run.source, p)
  {
    var start, step, w := run.source, StepFor(run.source, items[i], p), run.w;
    DedupedPlanCovers(start, items, planned, i, p);
    k :| 0 <= k < |run.plan| && SamePair(run.plan[k], step);
    NoneFailed(run.copies, k);
    UnfailedStep(run, k);
    if Undisturbed(w, run.plan) && FilesKept(start, items) && LastThere(run.plan, run.copies, k) {
      PlanIsSized(start, items, planned);
      StepLeadsBack(start, items[i], p);
      assert FromStart(start, run.plan[k], w.ranged, run.copies[k]) && Sized(start, run.plan[k]);
      assert Left(run.End(), run.plan[k], run.copies[k]);
      CopiedIsThere(start, run.End(), run.plan[k], step, w.ranged, run.copies[k], p);
    }
  }

  lemma CopiedIsThere(start: Nodes, dstNow: Nodes, planned: Step, step: Step, ranged: bool, copy: Copy, p: Path)
    requires FromStart(start, planned, ranged, copy) && Sized(start, planned) && Left(dstNow, planned, copy)
    requires SamePair(planned, step) && KeyOf(step.sourcePath) == Ok(p) && IsFile(start, p)
    ensures HoldsFile(dstNow, step, start, p)
  {
    WholeFile(start, planned, ranged, copy);
  }

  /** Where the step's target leads there is a file that holds what `p` held at the start. */
  ghost predicate HoldsFile(nodes: Nodes, step: Step, start: Nodes, p: Path)
    requires IsFile(start, p)
  {
    var key := KeyOf(step.destPath);
    key.Ok? && IsFile(nodes, key.value) && nodes[key.value].data == start[p].data
  }

  lemma {:induction false} NoneFailed(copies: seq<Copy>, k: nat)
    requires Tally(copies, CopyFailed) == 0 && k < |copies|
    ensures copies[k].outcome != CopyFailed
    decreases |copies|
  {
    if k < |copies| - 1 {
      NoneFailed(copies[..|copies| - 1], k);
    }
  }

  /** A completed job that met no other copy of its files has counted the bytes that it announced. */
  lemma CompletedJobCountsAll(run: Run, items: seq<SyncItem>, planned: seq<Step>, view: Snapshot, history: seq<Snapshot>)
    requires Ended(run, items, planned, view, history) && view.status == Completed && view.skippedFiles == 0
    requires Undisturbed(run.w, run.plan) && AllSized(run.source, run.plan)
    ensures view.copiedBytes == view.totalBytes
  {
    AllBytesAreSizes(run.source, run.plan, run.copies, run.w.ranged);
  }

  lemma AllBytesAreSizes(start: Nodes, plan: seq<Step>, copies: seq<Copy>, ranged: bool)
    requires |copies| == |plan| && AllFromStart(start, plan, copies, ranged) && AllSized(start, plan)
    requires Tally(copies, CopyFailed) == 0 && Tally(copies, Refused) == 0
    ensures BytesOf(copies) == SumSizes(plan)
  {
    assert copies[..|copies|] == copies && plan[..|plan|] == plan;
    BytesAreSizes(start, plan, copies, ranged, |copies|);
  }

  lemma {:induction false} BytesAreSizes(start: Nodes, plan: seq<Step>, copies: seq<Copy>, ranged: bool, n: nat)
    requires n <= |copies| <= |plan| && AllFromStart(start, plan, copies, ranged) && AllSized(start, plan)
    requires Tally(copies[..n], CopyFailed) == 0 && Tally(copies[..n], Refused) == 0
    ensures BytesOf(copies[..n]) == SumSizes(plan[..n])
  {
    if n > 0 {
      assert copies[..n][..n - 1] == copies[..n - 1] && plan[..n][..n - 1] == plan[..n - 1];
      BytesAreSizes(start, plan, copies, ranged, n - 1);
      assert copies[n - 1].outcome == Copied;
      WholeFile(start, plan[n - 1], ranged, copies[n - 1]);
    }
  }

  /** Over a whole run the status passes through Queued and Running into one final state and stays there. */
  lemma StatusMovesForward(history: seq<Snapshot>, i: nat, j: nat)
    requires HistoryOk(history) && i <= j < |history|
    ensures history[i].status.Rank() <= history[j].status.Rank()
    ensures history[i].status.Terminal() ==> history[j] == history[i]
    ensures history[i].copiedBytes <= history[j].copiedBytes
    ensures history[j].copiedFiles + history[j].skippedFiles + history[j].failedFiles <= history[j].totalFiles
  {
    FollowsInHistory(history, i, j);
    assert SnapshotOk(history[j]);
  }
}
