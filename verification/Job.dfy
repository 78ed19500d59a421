/**
 The state of a background copy job: its status and its counters. Every section of code that changes the job
 under its mutex ends by recording what an observer would then see, so that claims about `history` are
 claims about every moment at which the job can be inspected.
 */
module Jobs {
  datatype Status = Queued | Running | Completed | Failed | Canceled
  {
    predicate Terminal() { Completed? || Failed? || Canceled? }

    function Rank(): nat {
      match this
      case Queued => 0
      case Running => 1
      case _ => 2
    }
  }

  datatype Snapshot = Snapshot(
    status: Status,
    totalFiles: nat,
    copiedFiles: nat,
    skippedFiles: nat,
    failedFiles: nat,
    totalBytes: nat,
    copiedBytes: nat,
    currentPath: string)

  /** What every snapshot of a job promises. */
  predicate SnapshotOk(s: Snapshot) {
    && s.copiedFiles + s.skippedFiles + s.failedFiles <= s.totalFiles
    && s.failedFiles <= 1
    && (s.status.Queued? ==> s.totalFiles == 0)
    && (s.status.Completed? ==> s.copiedFiles + s.skippedFiles == s.totalFiles && s.failedFiles == 0)
    && (s.status.Canceled? ==> s.failedFiles == 0 && s.copiedFiles + s.skippedFiles < s.totalFiles)
    && (s.status.Terminal() ==> s.currentPath == "")
  }

  /** How a job may change between two moments: it moves on, counts up, and never leaves a final state. */
  predicate Follows(a: Snapshot, b: Snapshot) {
    && a.status.Rank() <= b.status.Rank()
    && (a.status.Terminal() ==> a == b)
    && a.copiedFiles <= b.copiedFiles && a.skippedFiles <= b.skippedFiles && a.failedFiles <= b.failedFiles
    && a.copiedBytes <= b.copiedBytes
    && (a.totalFiles > 0 ==> a.totalFiles == b.totalFiles && a.totalBytes == b.totalBytes)
  }

  predicate HistoryOk(history: seq<Snapshot>) {
    && (forall i :: 0 <= i < |history| ==> SnapshotOk(history[i]))
    && (forall i :: 0 <= i < |history| - 1 ==> Follows(history[i], history[i + 1]))
  }

  lemma {:induction false} FollowsInHistory(history: seq<Snapshot>, i: nat, j: nat)
    requires HistoryOk(history) && i <= j < |history|
    ensures Follows(history[i], history[j])
    decreases j - i
  {
    if i < j {
      FollowsInHistory(history, i, j - 1);
      assert Follows(history[j - 1], history[j - 1 + 1]);
    }
  }

  /** A copy is done, is refused because the same one is in flight, or fails. */
  datatype CopyOutcome = Copied | Refused | CopyFailed

  /**
   `later` goes on from `earlier` with moments that look like `base` but for the bytes copied, of which there
   are from `low` to `high`.
   */
  ghost predicate OnlyBytes(earlier: seq<Snapshot>, later: seq<Snapshot>, base: Snapshot, low: nat, high: nat) {
    && |earlier| <= |later| && later[..|earlier|] == earlier
    && forall i :: |earlier| <= i < |later| ==>
      later[i] == base.(copiedBytes := later[i].copiedBytes) && low <= later[i].copiedBytes <= high
  }

  lemma OnlyBytesSnoc(h0: seq<Snapshot>, h1: seq<Snapshot>, base: Snapshot, low: nat, high: nat, bytes: nat)
    requires OnlyBytes(h0, h1, base, low, high) && low <= bytes && high <= bytes
    ensures OnlyBytes(h0, h1 + [base.(copiedBytes := bytes)], base, low, bytes)
  {
    var h2 := h1 + [base.(copiedBytes := bytes)];
    assert h2[..|h0|] == h1[..|h0|];
  }

  class SyncJob {
    var status: Status
    var totalFiles: nat
    var copiedFiles: nat
    var skippedFiles: nat
    var failedFiles: nat
    var totalBytes: nat
    var copiedBytes: nat
    var currentPath: string
    ghost var history: seq<Snapshot>

    constructor ()
      ensures Valid() && status == Queued && history == [View()]
      ensures totalFiles == copiedFiles == skippedFiles == failedFiles == copiedBytes == totalBytes == 0
    {
      status, currentPath := Queued, "";
      totalFiles, copiedFiles, skippedFiles, failedFiles, totalBytes, copiedBytes := 0, 0, 0, 0, 0, 0;
      history := [Snapshot(Queued, 0, 0, 0, 0, 0, 0, "")];
    }

    function View(): Snapshot
      reads this
    {
      Snapshot(status, totalFiles, copiedFiles, skippedFiles, failedFiles, totalBytes, copiedBytes, currentPath)
    }

    ghost predicate Valid()
      reads this
    {
      history != [] && history[|history| - 1] == View() && HistoryOk(history)
    }

    ghost method Record()
      requires history != [] && HistoryOk(history)
      requires SnapshotOk(View()) && Follows(history[|history| - 1], View())
      modifies this`history
      ensures Valid() && history == old(history) + [View()]
    {
      history := history + [View()];
    }

    method SetStatus(next: Status)
      requires Valid() && !status.Terminal() && status.Rank() <= next.Rank()
      requires SnapshotOk(View().(status := next, currentPath := if next.Terminal() then "" else currentPath))
      modifies this
      ensures Valid() && history == old(history) + [View()]
      ensures View() == old(View()).(status := next, currentPath := if next.Terminal() then "" else old(currentPath))
    {
      status := next;
      if next == Completed || next == Failed || next == Canceled {
        currentPath := "";
      }
      Record();
    }

    method SetTotals(files: nat, bytes: nat)
      requires Valid() && status == Running && totalFiles == 0
      modifies this
      ensures Valid() && history == old(history) + [View()]
      ensures View() == old(View()).(totalFiles := files, totalBytes := bytes)
    {
      totalFiles, totalBytes := files, bytes;
      Record();
    }

    method SetCurrent(path: string)
      requires Valid() && status == Running
      modifies this
      ensures Valid() && history == old(history) + [View()]
      ensures View() == old(View()).(currentPath := path)
    {
      currentPath := path;
      Record();
    }

    /** Adds to the bytes copied, however many the plan had foreseen. */
    method AddBytes(n: nat)
      requires Valid() && status == Running
      modifies this
      ensures Valid() && history == old(history) + [View()]
      ensures View() == old(View()).(copiedBytes := old(copiedBytes) + n)
    {
      copiedBytes := copiedBytes + n;
      Record();
    }

    /** Counts one file as copied, refused or failed. */
    method CountFile(outcome: CopyOutcome)
      requires Valid() && status == Running && failedFiles == 0 && copiedFiles + skippedFiles < totalFiles
      modifies this
      ensures Valid() && history == old(history) + [View()]
      ensures View() == match outcome
                        case Copied => old(View()).(copiedFiles := old(copiedFiles) + 1)
                        case Refused => old(View()).(skippedFiles := old(skippedFiles) + 1)
                        case CopyFailed => old(View()).(failedFiles := old(failedFiles) + 1)
    {
      match outcome {
        case Copied => copiedFiles := copiedFiles + 1;
        case Refused => skippedFiles := skippedFiles + 1;
        case CopyFailed => failedFiles := failedFiles + 1;
      }
      Record();
    }
  }

  /** A job that a copy reports to, if there is one, is under way. */
  ghost predicate Reports(job: SyncJob?)
    reads job
  {
    job != null ==> job.Valid() && job.status == Running
  }

  /** A job as it was at some moment. */
  datatype Moment = Moment(history: seq<Snapshot>, view: Snapshot)

  ghost function Now(job: SyncJob?): Moment
    reads job
  {
    if job == null then Moment([], Snapshot(Queued, 0, 0, 0, 0, 0, 0, "")) else Moment(job.history, job.View())
  }

  /** From one moment to another bytes were counted, at most `most` of them, and nothing else was seen to change. */
  ghost predicate Counted(from: Moment, to: Moment, most: nat) {
    var low := from.view.copiedBytes;
    && to.view == from.view.(copiedBytes := to.view.copiedBytes)
    && OnlyBytes(from.history, to.history, from.view, low, low + most)
    && low <= to.view.copiedBytes <= low + most
  }

  /** And exactly so many. */
  ghost predicate CountedAll(from: Moment, to: Moment, bytes: nat) {
    Counted(from, to, bytes) && to.view.copiedBytes == from.view.copiedBytes + bytes
  }

  lemma CountedNothing(from: Moment)
    ensures CountedAll(from, from, 0)
  {
  }

  lemma CountedWeaker(from: Moment, to: Moment, most: nat, more: nat)
    requires Counted(from, to, most) && most <= more
    ensures Counted(from, to, more)
  {
  }

  /** Counts bytes for a job, if there is one. */
  method Count(job: SyncJob?, n: nat, ghost from: Moment, ghost sofar: nat)
    requires Reports(job) && (job != null ==> CountedAll(from, Now(job), sofar))
    modifies job
    ensures Reports(job) && (job != null ==> CountedAll(from, Now(job), sofar + n))
  {
    if job != null {
      ghost var before := Now(job);
      job.AddBytes(n);
      OnlyBytesSnoc(from.history, before.history, from.view, from.view.copiedBytes,
                    from.view.copiedBytes + sofar, job.copiedBytes);
    }
  }
}
