/**
 The producer and the workers of a ranged file copy, as a state machine. One step is one channel
 operation, one context check, one ranged read, one `WriteAt` call (which may write part of its buffer,
 and may fail after doing so) or one update of the job's byte counter; steps of the producer, of all
 workers and of an outside cancellation interleave freely.
 */
module ParallelCopy {
  import opened Storage
  import CopyIO

  const MIN_SIZE: nat := 8 * 1024 * 1024
  const MAX_WORKERS: nat := 16
  const CHUNK_SIZE: nat := 1024 * 1024

  /** `source` is the content of the source file, `size` the length that the caller asked to copy. */
  datatype Config = Config(source: seq<byte>, size: nat, chunkSize: nat, bufferSize: nat, capacity: nat)
  {
    predicate Valid() {
      chunkSize > 0 && bufferSize > 0 && capacity > 0
    }
  }

  datatype Chunk = Chunk(offset: nat, length: nat)

  datatype Producer =
    | AtCheck   // about to test the loop condition and the context
    | AtSelect  // inside the select statement
    | Closed    // the loop has ended and the channel is closed

  datatype Worker =
    | Ready                                                      // receiving from the channel
    | Received(chunk: Chunk)                                     // about to test the context
    | LoopHead(chunk: Chunk, done: nat)                          // head of the loop that copies a chunk
    | Reading(chunk: Chunk, done: nat)
    | Writing(chunk: Chunk, done: nat, buffer: seq<byte>, total: nat)
    | Counting(chunk: Chunk, done: nat, n: nat)
    | Exited

  /**
   `written`, `dropped` and `lost` record the past: how often each byte of the file was written, how
   often a worker gave it up, and how many bytes were given up before they were counted.
   */
  datatype State = State(
    offset: nat,
    producer: Producer,
    queue: seq<Chunk>,
    workers: seq<Worker>,
    file: seq<byte>,
    cancelled: bool,
    copyErr: Option<Error>,
    jobBytes: nat,
    written: seq<nat>,
    dropped: seq<nat>,
    lost: nat)

  /** `error` is what the call reports; a `Read` reads one whole buffer, a `Write` writes `n` bytes. */
  datatype Action =
    | CancelParent
    | Check
    | Send
    | SelectDone
    | Receive(i: nat)
    | TestContext(i: nat)
    | EnterLoop(i: nat)
    | Read(i: nat, error: Option<Error>)
    | Write(i: nat, n: nat, error: Option<Error>)
    | Count(i: nat)

  /* ---------- Steps ---------- */

  function Init(c: Config, workers: nat): State {
    State(0, AtCheck, [], seq(workers, _ => Ready), [], false, None, 0,
          seq(c.size, _ => 0), seq(c.size, _ => 0), 0)
  }

  function NextChunk(c: Config, s: State): Chunk
    requires s.offset < c.size
  {
    Chunk(s.offset, if s.offset + c.chunkSize > c.size then c.size - s.offset else c.chunkSize)
  }

  function PieceSize(c: Config, chunk: Chunk, done: nat): nat
    requires done <= chunk.length
  {
    Min(chunk.length - done, c.bufferSize)
  }

  predicate Enabled(c: Config, s: State, a: Action) {
    match a
    case CancelParent => !s.cancelled
    case Check => s.producer.AtCheck?
    case Send => s.producer.AtSelect? && |s.queue| < c.capacity && s.offset < c.size
    case SelectDone => s.producer.AtSelect? && s.cancelled
    case Receive(i) =>
      i < |s.workers| && s.workers[i].Ready? && (s.queue != [] || s.producer.Closed?)
    case TestContext(i) => i < |s.workers| && s.workers[i].Received?
    case EnterLoop(i) => i < |s.workers| && s.workers[i].LoopHead?
    case Read(i, error) =>
      && i < |s.workers| && s.workers[i].Reading?
      && var w := s.workers[i];
      && w.done < w.chunk.length
      && (error.None? ==> w.chunk.offset + w.done + PieceSize(c, w.chunk, w.done) <= |c.source|)
    case Write(i, n, _) =>
      && i < |s.workers| && s.workers[i].Writing?
      && s.workers[i].total + n <= |s.workers[i].buffer|
    case Count(i) => i < |s.workers| && s.workers[i].Counting?
  }

  function Apply(c: Config, s: State, a: Action): State
    requires Enabled(c, s, a)
  {
    match a
    case CancelParent => s.(cancelled := true)
    case Check =>
      if s.offset >= c.size || s.cancelled then s.(producer := Closed) else s.(producer := AtSelect)
    case Send =>
      var chunk := NextChunk(c, s);
      s.(queue := s.queue + [chunk], offset := s.offset + chunk.length, producer := AtCheck)
    case SelectDone => s.(producer := AtCheck)
    case Receive(i) =>
      if s.queue == [] then Leave(s, i)
      else SetWorker(s.(queue := s.queue[1..]), i, Received(s.queue[0]))
    case TestContext(i) =>
      if s.cancelled then Leave(s, i) else SetWorker(s, i, LoopHead(s.workers[i].chunk, 0))
    case EnterLoop(i) =>
      var w := s.workers[i];
      if w.done >= w.chunk.length then SetWorker(s, i, Ready)
      else if s.cancelled then Fail(s, i, Canceled)
      else SetWorker(s, i, Reading(w.chunk, w.done))
    case Read(i, error) =>
      var w := s.workers[i];
      if error.Some? then Fail(s, i, error.value)
      else
        var at := w.chunk.offset + w.done;
        SetWorker(s, i, Writing(w.chunk, w.done, c.source[at..at + PieceSize(c, w.chunk, w.done)], 0))
    case Write(i, n, error) =>
      var s' := WritePiece(s, i, n);
      var w := s'.workers[i];
      if error.Some? then Fail(s', i, error.value)
      else if n == 0 then Fail(s', i, ShortWrite)
      else if w.total == |w.buffer| then SetWorker(s', i, Counting(w.chunk, w.done, w.total))
      else s'
    case Count(i) =>
      var w := s.workers[i];
      SetWorker(s.(jobBytes := s.jobBytes + w.n), i, LoopHead(w.chunk, w.done + w.n))
  }

  function SetWorker(s: State, i: nat, w: Worker): State
    requires i < |s.workers|
  {
    s.(workers := s.workers[i := w])
  }

  /** Writes the next `n` bytes of worker `i`'s buffer to the file. */
  function WritePiece(s: State, i: nat, n: nat): State
    requires i < |s.workers| && s.workers[i].Writing?
    requires s.workers[i].total + n <= |s.workers[i].buffer|
  {
    var w := s.workers[i];
    var at := w.chunk.offset + w.done + w.total;
    s.(workers := s.workers[i := w.(total := w.total + n)],
       file := WriteAt(s.file, at, w.buffer[w.total..w.total + n]),
       written := Bump(s.written, at, at + n))
  }

  /** Worker `i` returns; whatever it still held is dropped. */
  function Leave(s: State, i: nat): State
    requires i < |s.workers|
  {
    var w := s.workers[i];
    s.(workers := s.workers[i := Exited],
       dropped := Bump(s.dropped, Lo(w), Hi(w)),
       lost := s.lost + Uncounted(w))
  }

  /** Worker `i` reports an error (only the first one is kept), cancels the context and returns. */
  function Fail(s: State, i: nat, error: Error): State
    requires i < |s.workers|
  {
    Leave(s, i).(cancelled := true, copyErr := if s.copyErr.None? then Some(error) else s.copyErr)
  }

  predicate Terminal(s: State) {
    s.producer.Closed? && forall i :: 0 <= i < |s.workers| ==> s.workers[i].Exited?
  }

  /** What the copy returns once the producer and all workers have ended. */
  function Outcome(s: State): Option<Error> {
    if s.copyErr.Some? then s.copyErr else if s.cancelled then Some(Canceled) else None
  }

  /** `actions` is an interleaving that leads from `s` to `t`. */
  ghost predicate Run(c: Config, s: State, actions: seq<Action>, t: State)
    decreases |actions|
  {
    if actions == [] then s == t
    else Enabled(c, s, actions[0]) && Run(c, Apply(c, s, actions[0]), actions[1..], t)
  }

  /** Steps that cancel the shared context: an outside cancellation, or an I/O call that goes wrong. */
  predicate IsFault(a: Action) {
    || a.CancelParent?
    || (a.Read? && a.error.Some?)
    || (a.Write? && (a.error.Some? || a.n == 0))
  }

  /* ---------- Where each byte is ---------- */

  /** [Lo, Hi) is the part of the file that a worker holds and has not yet written. */
  function Lo(w: Worker): nat {
    match w
    case Ready => 0
    case Received(k) => k.offset
    case LoopHead(k, done) => k.offset + done
    case Reading(k, done) => k.offset + done
    case Writing(k, done, _, total) => k.offset + done + total
    case Counting(k, done, n) => k.offset + done + n
    case Exited => 0
  }

  function Hi(w: Worker): nat {
    if w.Ready? || w.Exited? then 0 else w.chunk.offset + w.chunk.length
  }

  function Within(lo: nat, hi: nat, p: nat): nat {
    if lo <= p < hi then 1 else 0
  }

  function InQueue(queue: seq<Chunk>, p: nat): nat {
    if queue == [] then 0
    else Within(queue[0].offset, queue[0].offset + queue[0].length, p) + InQueue(queue[1..], p)
  }

  function InHand(workers: seq<Worker>, p: nat): nat {
    if workers == [] then 0 else Within(Lo(workers[0]), Hi(workers[0]), p) + InHand(workers[1..], p)
  }

  function Bump(counts: seq<nat>, lo: nat, hi: nat): (result: seq<nat>)
    ensures |result| == |counts|
    ensures forall p :: 0 <= p < |counts| ==> result[p] == counts[p] + Within(lo, hi, p)
  {
    seq(|counts|, p requires 0 <= p < |counts| => counts[p] + Within(lo, hi, p))
  }

  /** Bytes of a worker's chunk that the job's counter does not yet include. */
  function Uncounted(w: Worker): nat {
    match w
    case Ready => 0
    case Received(k) => k.length
    case LoopHead(k, done) => if done <= k.length then k.length - done else 0
    case Reading(k, done) => if done <= k.length then k.length - done else 0
    case Writing(k, done, _, _) => if done <= k.length then k.length - done else 0
    case Counting(k, done, _) => if done <= k.length then k.length - done else 0
    case Exited => 0
  }

  function QueueBytes(queue: seq<Chunk>): nat {
    if queue == [] then 0 else queue[0].length + QueueBytes(queue[1..])
  }

  function HandBytes(workers: seq<Worker>): nat {
    if workers == [] then 0 else Uncounted(workers[0]) + HandBytes(workers[1..])
  }

  /* ---------- Invariant ---------- */

  predicate ChunkOk(s: State, k: Chunk) {
    k.length > 0 && k.offset + k.length <= s.offset
  }

  predicate WorkerOk(c: Config, s: State, w: Worker) {
    match w
    case Ready => true
    case Received(k) => ChunkOk(s, k)
    case LoopHead(k, done) => ChunkOk(s, k) && done <= k.length
    case Reading(k, done) => ChunkOk(s, k) && done < k.length
    case Writing(k, done, buffer, total) =>
      && ChunkOk(s, k) && done < k.length
      && total <= |buffer| == PieceSize(c, k, done)
      && k.offset + done + |buffer| <= |c.source|
      && buffer == c.source[k.offset + done..k.offset + done + |buffer|]
    case Counting(k, done, n) => ChunkOk(s, k) && 0 < n <= k.length - done
    case Exited => s.cancelled || (s.producer.Closed? && s.queue == [])
  }

  predicate Shape(c: Config, s: State) {
    && c.Valid()
    && s.offset <= c.size
    && |s.written| == |s.dropped| == c.size
    && |s.file| <= c.size
    && |s.queue| <= c.capacity
    && |s.workers| > 0
    && (s.producer.AtSelect? ==> s.offset < c.size)
    && (s.producer.Closed? ==> s.offset == c.size || s.cancelled)
    && (s.copyErr.Some? ==> s.cancelled)
    && (forall k :: 0 <= k < |s.queue| ==> ChunkOk(s, s.queue[k]))
    && (forall i :: 0 <= i < |s.workers| ==> WorkerOk(c, s, s.workers[i]))
  }

  /** Every byte of the file is in exactly one place, exactly once. */
  predicate BytesTiled(c: Config, s: State)
    requires |s.written| == |s.dropped| == c.size
  {
    forall p :: 0 <= p < c.size ==> Places(s, p) == 1
  }

  function Places(s: State, p: nat): nat
    requires p < |s.written| == |s.dropped|
  {
    (if p >= s.offset then 1 else 0) + InQueue(s.queue, p) + InHand(s.workers, p) + s.written[p] + s.dropped[p]
  }

  predicate ContentOk(c: Config, s: State)
    requires |s.written| == |s.dropped| == c.size
  {
    && (forall p :: 0 <= p < c.size && s.written[p] > 0 ==>
          p < |s.file| && p < |c.source| && s.file[p] == c.source[p])
    && (forall p :: 0 <= p < c.size && s.dropped[p] > 0 ==> s.cancelled)
    && (s.lost > 0 ==> s.cancelled)
  }

  predicate BytesCounted(s: State) {
    s.jobBytes + QueueBytes(s.queue) + HandBytes(s.workers) + s.lost == s.offset
  }

  predicate Inv(c: Config, s: State) {
    Shape(c, s) && BytesTiled(c, s) && ContentOk(c, s) && BytesCounted(s)
  }

  /* ---------- Sums over the queue and the workers ---------- */

  lemma {:induction false} QueueSnoc(queue: seq<Chunk>, k: Chunk, p: nat)
    ensures InQueue(queue + [k], p) == InQueue(queue, p) + Within(k.offset, k.offset + k.length, p)
    ensures QueueBytes(queue + [k]) == QueueBytes(queue) + k.length
  {
    if queue == [] {
      assert queue + [k] == [k];
    } else {
      assert (queue + [k])[1..] == queue[1..] + [k];
      QueueSnoc(queue[1..], k, p);
    }
  }

  lemma {:induction false} HandUpdate(workers: seq<Worker>, i: nat, w: Worker, p: nat)
    requires i < |workers|
    ensures InHand(workers[i := w], p) + Within(Lo(workers[i]), Hi(workers[i]), p)
         == InHand(workers, p) + Within(Lo(w), Hi(w), p)
    ensures HandBytes(workers[i := w]) + Uncounted(workers[i]) == HandBytes(workers) + Uncounted(w)
  {
    if i == 0 {
      assert workers[i := w][1..] == workers[1..];
    } else {
      assert workers[i := w][1..] == workers[1..][i - 1 := w];
      HandUpdate(workers[1..], i - 1, w, p);
    }
  }

  lemma {:induction false} HandIdle(workers: seq<Worker>, p: nat)
    requires forall i :: 0 <= i < |workers| ==> workers[i].Ready? || workers[i].Exited?
    ensures InHand(workers, p) == 0 && HandBytes(workers) == 0
  {
    if workers != [] {
      HandIdle(workers[1..], p);
    }
  }

  /* ---------- Every step keeps the invariant ---------- */

  /** Replacing worker `i` by one that holds the same bytes, uncounted by `counted` fewer. */
  lemma SetWorkerKeeps(c: Config, s: State, i: nat, w: Worker)
    requires |s.written| == |s.dropped| == c.size && i < |s.workers|
    requires forall p: nat :: Within(Lo(w), Hi(w), p) == Within(Lo(s.workers[i]), Hi(s.workers[i]), p)
    requires BytesTiled(c, s)
    ensures BytesTiled(c, SetWorker(s, i, w))
    ensures HandBytes(SetWorker(s, i, w).workers) + Uncounted(s.workers[i]) == HandBytes(s.workers) + Uncounted(w)
  {
    var t := SetWorker(s, i, w);
    HandUpdate(s.workers, i, w, 0);
    forall p | 0 <= p < c.size
      ensures Places(t, p) == 1
    {
      assert Places(s, p) == 1;
      HandUpdate(s.workers, i, w, p);
    }
  }

  lemma LeaveKeeps(c: Config, s: State, i: nat)
    requires |s.written| == |s.dropped| == c.size && i < |s.workers|
    requires BytesTiled(c, s)
    ensures BytesTiled(c, Leave(s, i))
    ensures BytesCounted(s) ==> BytesCounted(Leave(s, i))
  {
    var t := Leave(s, i);
    HandUpdate(s.workers, i, Exited, 0);
    forall p | 0 <= p < c.size
      ensures Places(t, p) == 1
    {
      assert Places(s, p) == 1;
      HandUpdate(s.workers, i, Exited, p);
    }
  }

  /** What part of a buffer does to the bytes' places, leaving aside what it does to their contents. */
  lemma WritePieceTiled(c: Config, s: State, i: nat, n: nat)
    requires Shape(c, s) && BytesTiled(c, s) && i < |s.workers| && s.workers[i].Writing?
    requires s.workers[i].total + n <= |s.workers[i].buffer|
    ensures BytesTiled(c, WritePiece(s, i, n))
    ensures HandBytes(WritePiece(s, i, n).workers) == HandBytes(s.workers)
  {
    var t := WritePiece(s, i, n);
    assert WorkerOk(c, s, s.workers[i]);
    HandUpdate(s.workers, i, t.workers[i], 0);
    forall p | 0 <= p < c.size
      ensures Places(t, p) == 1
    {
      assert Places(s, p) == 1;
      HandUpdate(s.workers, i, t.workers[i], p);
    }
  }

  lemma WritePieceContent(c: Config, s: State, i: nat, n: nat)
    requires Shape(c, s) && ContentOk(c, s) && i < |s.workers| && s.workers[i].Writing?
    requires s.workers[i].total + n <= |s.workers[i].buffer|
    ensures ContentOk(c, WritePiece(s, i, n)) && |WritePiece(s, i, n).file| <= c.size
  {
    var t := WritePiece(s, i, n);
    var w := s.workers[i];
    var at := w.chunk.offset + w.done + w.total;
    assert WorkerOk(c, s, w);
    forall p | 0 <= p < c.size && t.written[p] > 0
      ensures p < |t.file| && p < |c.source| && t.file[p] == c.source[p]
    {
      if at <= p < at + n {
        assert w.buffer[w.total..w.total + n][p - at] == w.buffer[w.total + (p - at)];
      } else {
        assert s.written[p] > 0;
      }
    }
  }

  lemma WritePieceKeeps(c: Config, s: State, i: nat, n: nat)
    requires Inv(c, s) && i < |s.workers| && s.workers[i].Writing?
    requires s.workers[i].total + n <= |s.workers[i].buffer|
    ensures Inv(c, WritePiece(s, i, n))
  {
    assert WorkerOk(c, s, s.workers[i]);
    WritePieceTiled(c, s, i, n);
    WritePieceContent(c, s, i, n);
    OthersStayOk(c, s, WritePiece(s, i, n), i);
  }

  lemma ProducerStepKeeps(c: Config, s: State, a: Action)
    requires Inv(c, s) && Enabled(c, s, a)
    requires a.CancelParent? || a.Check? || a.Send? || a.SelectDone?
    ensures Inv(c, Apply(c, s, a))
  {
    var t := Apply(c, s, a);
    forall p | 0 <= p < c.size
      ensures Places(t, p) == 1
    {
      assert Places(s, p) == 1;
      if a.Send? {
        QueueSnoc(s.queue, NextChunk(c, s), p);
      }
    }
    if a.Send? {
      QueueSnoc(s.queue, NextChunk(c, s), 0);
    }
    forall i | 0 <= i < |t.workers|
      ensures WorkerOk(c, t, t.workers[i])
    {
      assert WorkerOk(c, s, s.workers[i]);
    }
  }

  lemma ReceiveKeeps(c: Config, s: State, i: nat)
    requires Inv(c, s) && Enabled(c, s, Receive(i))
    ensures Inv(c, Apply(c, s, Receive(i)))
  {
    var t := Apply(c, s, Receive(i));
    if s.queue == [] {
      LeaveKeeps(c, s, i);
    } else {
      HandUpdate(s.workers, i, Received(s.queue[0]), 0);
      forall p | 0 <= p < c.size
        ensures Places(t, p) == 1
      {
        assert Places(s, p) == 1;
        HandUpdate(s.workers, i, Received(s.queue[0]), p);
      }
    }
    OthersStayOk(c, s, t, i);
  }

  /** A step that changes worker `i` only leaves every other worker well formed. */
  lemma OthersStayOk(c: Config, s: State, t: State, i: nat)
    requires Shape(c, s) && i < |s.workers|
    requires |t.workers| == |s.workers| && t.workers == s.workers[i := t.workers[i]]
    requires t.offset == s.offset && t.producer == s.producer
    requires s.cancelled ==> t.cancelled
    requires t.queue == s.queue || (s.queue != [] && t.queue == s.queue[1..])
    requires WorkerOk(c, t, t.workers[i])
    ensures forall j :: 0 <= j < |t.workers| ==> WorkerOk(c, t, t.workers[j])
  {
    forall j | 0 <= j < |t.workers|
      ensures WorkerOk(c, t, t.workers[j])
    {
      assert WorkerOk(c, s, s.workers[j]);
    }
  }

  lemma FailKeeps(c: Config, s: State, i: nat, error: Error)
    requires Inv(c, s) && i < |s.workers|
    ensures Inv(c, Fail(s, i, error))
  {
    LeaveKeeps(c, s, i);
    var l, t := Leave(s, i), Fail(s, i, error);
    forall p | 0 <= p < c.size
      ensures Places(t, p) == 1
    {
      assert Places(l, p) == 1;
    }
    OthersStayOk(c, s, t, i);
  }

  lemma TestContextKeeps(c: Config, s: State, i: nat)
    requires Inv(c, s) && Enabled(c, s, TestContext(i))
    ensures Inv(c, Apply(c, s, TestContext(i)))
  {
    var t := Apply(c, s, TestContext(i));
    assert WorkerOk(c, s, s.workers[i]);
    if s.cancelled {
      LeaveKeeps(c, s, i);
    } else {
      SetWorkerKeeps(c, s, i, LoopHead(s.workers[i].chunk, 0));
    }
    OthersStayOk(c, s, t, i);
  }

  lemma EnterLoopKeeps(c: Config, s: State, i: nat)
    requires Inv(c, s) && Enabled(c, s, EnterLoop(i))
    ensures Inv(c, Apply(c, s, EnterLoop(i)))
  {
    var t := Apply(c, s, EnterLoop(i));
    var w := s.workers[i];
    assert WorkerOk(c, s, w);
    if w.done >= w.chunk.length {
      SetWorkerKeeps(c, s, i, Ready);
    } else if s.cancelled {
      FailKeeps(c, s, i, Canceled);
    } else {
      SetWorkerKeeps(c, s, i, Reading(w.chunk, w.done));
    }
    OthersStayOk(c, s, t, i);
  }

  lemma ReadKeeps(c: Config, s: State, i: nat, error: Option<Error>)
    requires Inv(c, s) && Enabled(c, s, Read(i, error))
    ensures Inv(c, Apply(c, s, Read(i, error)))
  {
    var t := Apply(c, s, Read(i, error));
    var w := s.workers[i];
    assert WorkerOk(c, s, w);
    if error.Some? {
      FailKeeps(c, s, i, error.value);
    } else {
      SetWorkerKeeps(c, s, i, t.workers[i]);
    }
    OthersStayOk(c, s, t, i);
  }

  /** Once its whole buffer is written, the worker goes on to count it. */
  lemma WrittenKeeps(c: Config, s: State, i: nat)
    requires Inv(c, s) && i < |s.workers| && s.workers[i].Writing?
    requires s.workers[i].total == |s.workers[i].buffer|
    ensures var w := s.workers[i]; Inv(c, SetWorker(s, i, Counting(w.chunk, w.done, w.total)))
  {
    var w := s.workers[i];
    assert WorkerOk(c, s, w);
    SetWorkerKeeps(c, s, i, Counting(w.chunk, w.done, w.total));
    OthersStayOk(c, s, SetWorker(s, i, Counting(w.chunk, w.done, w.total)), i);
  }

  lemma WriteKeeps(c: Config, s: State, i: nat, n: nat, error: Option<Error>)
    requires Inv(c, s) && Enabled(c, s, Write(i, n, error))
    ensures Inv(c, Apply(c, s, Write(i, n, error)))
  {
    var m := WritePiece(s, i, n);
    WritePieceKeeps(c, s, i, n);
    if error.Some? {
      FailKeeps(c, m, i, error.value);
    } else if n == 0 {
      FailKeeps(c, m, i, ShortWrite);
    } else if m.workers[i].total == |m.workers[i].buffer| {
      WrittenKeeps(c, m, i);
    }
  }

  lemma CountKeeps(c: Config, s: State, i: nat)
    requires Inv(c, s) && Enabled(c, s, Count(i))
    ensures Inv(c, Apply(c, s, Count(i)))
  {
    var t := Apply(c, s, Count(i));
    var w := s.workers[i];
    assert WorkerOk(c, s, w);
    var m := s.(jobBytes := s.jobBytes + w.n);
    assert forall p :: 0 <= p < c.size ==> Places(m, p) == Places(s, p);
    SetWorkerKeeps(c, m, i, t.workers[i]);
    OthersStayOk(c, s, t, i);
  }

  lemma StepKeeps(c: Config, s: State, a: Action)
    requires Inv(c, s) && Enabled(c, s, a)
    ensures Inv(c, Apply(c, s, a))
  {
    match a
    case Receive(i) => ReceiveKeeps(c, s, i);
    case TestContext(i) => TestContextKeeps(c, s, i);
    case EnterLoop(i) => EnterLoopKeeps(c, s, i);
    case Read(i, error) => ReadKeeps(c, s, i, error);
    case Write(i, n, error) => WriteKeeps(c, s, i, n, error);
    case Count(i) => CountKeeps(c, s, i);
    case _ => ProducerStepKeeps(c, s, a);
  }

  lemma InitInv(c: Config, workers: nat)
    requires c.Valid() && workers > 0
    ensures Inv(c, Init(c, workers))
  {
    var s := Init(c, workers);
    HandIdle(s.workers, 0);
    forall p | 0 <= p < c.size
      ensures Places(s, p) == 1
    {
      HandIdle(s.workers, p);
    }
  }

  lemma {:induction false} RunKeeps(c: Config, s: State, actions: seq<Action>, t: State)
    requires Inv(c, s) && Run(c, s, actions, t)
    ensures Inv(c, t)
    decreases |actions|
  {
    if actions != [] {
      StepKeeps(c, s, actions[0]);
      RunKeeps(c, Apply(c, s, actions[0]), actions[1..], t);
    }
  }

  /* ---------- No deadlock, and a bound on every run ---------- */

  /** A step that some goroutine of the copy, not the outside world, can take now. */
  function NextStep(c: Config, s: State): (a: Action)
    requires Inv(c, s) && !Terminal(s)
    ensures Enabled(c, s, a) && !a.CancelParent?
  {
    if s.producer.AtCheck? then Check
    else if s.producer.AtSelect? && s.cancelled then SelectDone
    else if s.producer.AtSelect? && |s.queue| < c.capacity then Send
    else
      ghost var live := exists i :: 0 <= i < |s.workers| && !s.workers[i].Exited?;
      assert live by {
        if s.producer.AtSelect? {
          assert WorkerOk(c, s, s.workers[0]);
        }
      }
      var i := FirstLive(s.workers);
      assert WorkerOk(c, s, s.workers[i]);
      match s.workers[i]
      case Ready => Receive(i)
      case Received(_) => TestContext(i)
      case LoopHead(_, _) => EnterLoop(i)
      case Reading(k, done) => Read(i, if Readable(c, k, done) then None else Some(UnexpectedEof))
      case Writing(_, _, buffer, total) => Write(i, |buffer| - total, None)
      case Counting(_, _, _) => Count(i)
  }

  /** The next piece of a chunk is there to be read. */
  predicate Readable(c: Config, chunk: Chunk, done: nat)
    requires done <= chunk.length
  {
    chunk.offset + done + PieceSize(c, chunk, done) <= |c.source|
  }

  function FirstLive(workers: seq<Worker>): (i: nat)
    requires exists i :: 0 <= i < |workers| && !workers[i].Exited?
    ensures i < |workers| && !workers[i].Exited?
  {
    if !workers[0].Exited? then 0 else 1 + FirstLive(workers[1..])
  }

  function Weight(w: Worker): nat {
    match w
    case Ready => 1
    case Received(k) => 4 * k.length + 3
    case LoopHead(_, _) => 4 * Uncounted(w) + 2
    case Reading(_, _) => 4 * Uncounted(w) + 1
    case Writing(_, _, _, total) => Max(4 * Uncounted(w) - total, 0)
    case Counting(_, _, n) => Max(4 * (Uncounted(w) - n) + 3, 0)
    case Exited => 0
  }

  function QueueWeight(queue: seq<Chunk>): nat {
    if queue == [] then 0 else 4 * queue[0].length + 5 + QueueWeight(queue[1..])
  }

  function HandWeight(workers: seq<Worker>): nat {
    if workers == [] then 0 else Weight(workers[0]) + HandWeight(workers[1..])
  }

  function ProducerWeight(s: State): nat {
    match s.producer
    case Closed => 0
    case AtCheck => if s.cancelled then 1 else 2
    case AtSelect => if s.cancelled then 2 else 1
  }

  /** Work still ahead: unsent, queued and in-hand bytes, and the moves left to the producer. */
  function Measure(c: Config, s: State): nat
    requires s.offset <= c.size
  {
    11 * (c.size - s.offset) + QueueWeight(s.queue) + HandWeight(s.workers) + ProducerWeight(s)
    + if s.cancelled then 0 else 2
  }

  lemma {:induction false} QueueWeightSnoc(queue: seq<Chunk>, k: Chunk)
    ensures QueueWeight(queue + [k]) == QueueWeight(queue) + 4 * k.length + 5
  {
    if queue == [] {
      assert queue + [k] == [k];
    } else {
      assert (queue + [k])[1..] == queue[1..] + [k];
      QueueWeightSnoc(queue[1..], k);
    }
  }

  lemma {:induction false} HandWeightUpdate(workers: seq<Worker>, i: nat, w: Worker)
    requires i < |workers|
    ensures HandWeight(workers[i := w]) + Weight(workers[i]) == HandWeight(workers) + Weight(w)
  {
    if i == 0 {
      assert workers[i := w][1..] == workers[1..];
    } else {
      assert workers[i := w][1..] == workers[1..][i - 1 := w];
      HandWeightUpdate(workers[1..], i - 1, w);
    }
  }

  /** What a step of worker `i` does to the measure: its own weight falls by more than the queue's grows. */
  lemma WorkerStepDecreases(c: Config, s: State, t: State, i: nat)
    requires Inv(c, s) && i < |s.workers| && |t.workers| == |s.workers|
    requires t.workers == s.workers[i := t.workers[i]]
    requires t.offset == s.offset && t.producer == s.producer && (s.cancelled ==> t.cancelled)
    requires QueueWeight(t.queue) + Weight(t.workers[i]) < QueueWeight(s.queue) + Weight(s.workers[i])
    ensures Measure(c, t) < Measure(c, s)
  {
    HandWeightUpdate(s.workers, i, t.workers[i]);
  }

  lemma WriteDecreases(c: Config, s: State, i: nat, n: nat, error: Option<Error>)
    requires Inv(c, s) && Enabled(c, s, Write(i, n, error))
    ensures Measure(c, Apply(c, s, Write(i, n, error))) < Measure(c, s)
  {
    var t := Apply(c, s, Write(i, n, error));
    assert WorkerOk(c, s, s.workers[i]);
    WorkerStepDecreases(c, s, t, i);
  }

  lemma ReadDecreases(c: Config, s: State, i: nat, error: Option<Error>)
    requires Inv(c, s) && Enabled(c, s, Read(i, error))
    ensures Measure(c, Apply(c, s, Read(i, error))) < Measure(c, s)
  {
    assert WorkerOk(c, s, s.workers[i]);
    WorkerStepDecreases(c, s, Apply(c, s, Read(i, error)), i);
  }

  lemma LoopDecreases(c: Config, s: State, a: Action)
    requires a.TestContext? || a.EnterLoop? || a.Count?
    requires Inv(c, s) && Enabled(c, s, a)
    ensures Measure(c, Apply(c, s, a)) < Measure(c, s)
  {
    assert WorkerOk(c, s, s.workers[a.i]);
    WorkerStepDecreases(c, s, Apply(c, s, a), a.i);
  }

  lemma ReceiveDecreases(c: Config, s: State, i: nat)
    requires Inv(c, s) && Enabled(c, s, Receive(i))
    ensures Measure(c, Apply(c, s, Receive(i))) < Measure(c, s)
  {
    WorkerStepDecreases(c, s, Apply(c, s, Receive(i)), i);
  }

  lemma SendDecreases(c: Config, s: State)
    requires Inv(c, s) && Enabled(c, s, Send)
    ensures Apply(c, s, Send).offset <= c.size
    ensures Measure(c, Apply(c, s, Send)) < Measure(c, s)
  {
    QueueWeightSnoc(s.queue, NextChunk(c, s));
  }

  lemma StepDecreases(c: Config, s: State, a: Action)
    requires Inv(c, s) && Enabled(c, s, a)
    ensures Apply(c, s, a).offset <= c.size
    ensures Measure(c, Apply(c, s, a)) < Measure(c, s)
  {
    match a
    case CancelParent =>
    case Check =>
    case SelectDone =>
    case Send => SendDecreases(c, s);
    case Receive(i) => ReceiveDecreases(c, s, i);
    case Read(i, error) => ReadDecreases(c, s, i, error);
    case Write(i, n, error) => WriteDecreases(c, s, i, n, error);
    case _ => LoopDecreases(c, s, a);
  }

  lemma {:induction false} RunShortens(c: Config, s: State, actions: seq<Action>, t: State)
    requires Inv(c, s) && Run(c, s, actions, t)
    ensures t.offset <= c.size && |actions| + Measure(c, t) <= Measure(c, s)
    decreases |actions|
  {
    if actions != [] {
      StepDecreases(c, s, actions[0]);
      StepKeeps(c, s, actions[0]);
      RunShortens(c, Apply(c, s, actions[0]), actions[1..], t);
    }
  }

  lemma {:induction false} HandWeightInit(workers: nat)
    ensures HandWeight(seq(workers, _ => Ready)) == workers
  {
    if workers > 0 {
      assert seq(workers, _ => Ready)[1..] == seq(workers - 1, _ => Ready);
      HandWeightInit(workers - 1);
    }
  }

  /* ---------- Main results ---------- */

  /**
   In every interleaving, a copy that reports no error has copied exactly the first `size` bytes: no
   hole, no extra byte, each byte written once and counted once.
   */
  lemma SuccessMeansCopied(c: Config, workers: nat, actions: seq<Action>, t: State)
    requires c.Valid() && workers > 0
    requires Run(c, Init(c, workers), actions, t) && Terminal(t) && Outcome(t) == None
    ensures c.size <= |c.source| && t.file == c.source[..c.size]
    ensures t.jobBytes == c.size
    ensures |t.written| == c.size && forall p :: 0 <= p < c.size ==> t.written[p] == 1
  {
    InitInv(c, workers);
    RunKeeps(c, Init(c, workers), actions, t);
    assert WorkerOk(c, t, t.workers[0]);
    HandIdle(t.workers, 0);
    forall p | 0 <= p < c.size
      ensures t.written[p] == 1
    {
      HandIdle(t.workers, p);
      assert Places(t, p) == 1;
    }
    if c.size > 0 {
      assert t.written[c.size - 1] == 1;
    }
  }

  /** At any moment of any run, no byte has been written twice and the counter has not overrun. */
  lemma NeverWritesTwice(c: Config, workers: nat, actions: seq<Action>, t: State)
    requires c.Valid() && workers > 0
    requires Run(c, Init(c, workers), actions, t)
    ensures |t.written| == c.size && forall p :: 0 <= p < c.size ==> t.written[p] <= 1
    ensures t.jobBytes <= t.offset <= c.size
    ensures |t.file| <= c.size
    ensures forall p :: 0 <= p < c.size && t.written[p] == 1 ==>
      p < |t.file| && p < |c.source| && t.file[p] == c.source[p]
  {
    InitInv(c, workers);
    RunKeeps(c, Init(c, workers), actions, t);
    forall p | 0 <= p < c.size
      ensures t.written[p] <= 1
    {
      assert Places(t, p) == 1;
    }
  }

  /**
   No run is longer than a bound linear in the file size, and a run that has not ended can always be
   continued by the copy itself; so every copy ends, whatever the interleaving.
   */
  lemma AlwaysTerminates(c: Config, workers: nat, actions: seq<Action>, t: State)
    requires c.Valid() && workers > 0
    requires Run(c, Init(c, workers), actions, t)
    ensures |actions| <= 11 * c.size + workers + 4
    ensures !Terminal(t) ==> exists a: Action :: !a.CancelParent? && Enabled(c, t, a)
  {
    InitInv(c, workers);
    RunKeeps(c, Init(c, workers), actions, t);
    RunShortens(c, Init(c, workers), actions, t);
    HandWeightInit(workers);
    if !Terminal(t) {
      var a := NextStep(c, t);
      assert Enabled(c, t, a);
    }
  }

  /** The context is cancelled exactly when some step of the run was a fault. */
  lemma {:induction false} CancelledByFault(c: Config, s: State, actions: seq<Action>, t: State)
    requires Run(c, s, actions, t)
    ensures t.cancelled <==> s.cancelled || exists k :: 0 <= k < |actions| && IsFault(actions[k])
    decreases |actions|
  {
    if actions != [] {
      var m := Apply(c, s, actions[0]);
      assert m.cancelled <==> s.cancelled || IsFault(actions[0]);
      CancelledByFault(c, m, actions[1..], t);
      if exists k :: 0 <= k < |actions| && IsFault(actions[k]) {
        var k :| 0 <= k < |actions| && IsFault(actions[k]);
        if k > 0 {
          assert IsFault(actions[1..][k - 1]);
        }
      }
      if exists k :: 0 <= k < |actions[1..]| && IsFault(actions[1..][k]) {
        var k :| 0 <= k < |actions[1..]| && IsFault(actions[1..][k]);
        assert IsFault(actions[k + 1]);
      }
    }
  }

  /** The copy reports success if and only if nothing cancelled it and no read or write went wrong. */
  lemma SucceedsIffNoFault(c: Config, workers: nat, actions: seq<Action>, t: State)
    requires c.Valid() && workers > 0
    requires Run(c, Init(c, workers), actions, t) && Terminal(t)
    ensures Outcome(t) == None <==> forall k :: 0 <= k < |actions| ==> !IsFault(actions[k])
  {
    InitInv(c, workers);
    RunKeeps(c, Init(c, workers), actions, t);
    CancelledByFault(c, Init(c, workers), actions, t);
  }

  lemma {:induction false} RunSnoc(c: Config, s: State, actions: seq<Action>, t: State, a: Action)
    requires Run(c, s, actions, t) && Enabled(c, t, a)
    ensures Run(c, s, actions + [a], Apply(c, t, a))
    decreases |actions|
  {
    if actions == [] {
      assert Run(c, Apply(c, t, a), [], Apply(c, t, a));
      assert (actions + [a])[1..] == [];
    } else {
      RunSnoc(c, Apply(c, s, actions[0]), actions[1..], t, a);
      assert (actions + [a])[1..] == actions[1..] + [a];
    }
  }

  /* ---------- Running a copy ---------- */

  /** The source and the destination of a copy; `faulted` remembers that a read or a write went wrong. */
  class Devices {
    ghost var faulted: bool

    constructor ()
      ensures !faulted
    {
      faulted := false;
    }
  }

  /** A read that fails although the bytes are there, or a write that fails or makes no headway. */
  predicate IsDeviceFault(c: Config, s: State, a: Action)
    requires Inv(c, s) && Enabled(c, s, a)
  {
    || (a.Read? && a.error.Some? && WorkerOk(c, s, s.workers[a.i]) &&
          Readable(c, s.workers[a.i].chunk, s.workers[a.i].done))
    || (a.Write? && (a.error.Some? || a.n == 0))
  }

  /**
   Any step that is possible now: the goroutine scheduler and the devices are free to choose, and a cancellation
   may come in from outside.
   */
  method ChooseStep(c: Config, s: State, ctx: CopyIO.Context, devices: Devices) returns (a: Action)
    requires Inv(c, s) && !Terminal(s)
    modifies ctx, devices`faulted
    ensures Enabled(c, s, a)
    ensures (old(ctx.cancelled) || a.CancelParent?) ==> ctx.cancelled
    ensures (old(devices.faulted) || IsDeviceFault(c, s, a)) ==> devices.faulted
  {
    a := *;
    if !Enabled(c, s, a) {
      a := NextStep(c, s);
    }
    if a.CancelParent? {
      ctx.cancelled := true;
    }
    devices.faulted := devices.faulted || IsDeviceFault(c, s, a);
  }

  /** A fault is a cancellation, a device's, or a read beyond the end of a source that is too short. */
  lemma WhoseFault(c: Config, s: State, a: Action)
    requires Inv(c, s) && Enabled(c, s, a) && IsFault(a)
    ensures a.CancelParent? || IsDeviceFault(c, s, a) || c.size > |c.source|
  {
    if a.Read? {
      assert WorkerOk(c, s, s.workers[a.i]);
    }
  }

  lemma CancelledRunFails(c: Config, workers: nat, rest: seq<Action>, t: State)
    requires c.Valid() && workers > 0 && Terminal(t)
    requires Run(c, Apply(c, Init(c, workers), CancelParent), rest, t)
    ensures Outcome(t).Some?
  {
    CancelledByFault(c, Apply(c, Init(c, workers), CancelParent), rest, t);
  }

  /** Executes one interleaving, whichever it is, to its end; a context that is cancelled counts from the start. */
  method Execute(c: Config, workers: nat, ctx: CopyIO.Context, devices: Devices)
    returns (t: State, ghost actions: seq<Action>)
    requires c.Valid() && workers > 0
    modifies ctx, devices`faulted
    ensures Run(c, Init(c, workers), actions, t) && Terminal(t)
    ensures Outcome(t) == None ==>
      c.size <= |c.source| && t.file == c.source[..c.size] && t.jobBytes == c.size
    ensures Outcome(t).Some? ==> ctx.cancelled || devices.faulted || c.size > |c.source|
    ensures old(ctx.cancelled) ==> Outcome(t).Some? && ctx.cancelled
    ensures old(devices.faulted) ==> devices.faulted
    ensures t.jobBytes <= c.size
  {
    t, actions := Init(c, workers), [];
    InitInv(c, workers);
    if ctx.cancelled {
      RunSnoc(c, t, actions, t, CancelParent);
      StepKeeps(c, t, CancelParent);
      t, actions := Apply(c, t, CancelParent), actions + [CancelParent];
    }
    while !Terminal(t)
      invariant Run(c, Init(c, workers), actions, t) && Inv(c, t)
      invariant Explained(c, actions, ctx.cancelled || devices.faulted)
      invariant old(ctx.cancelled) ==> ctx.cancelled && actions != [] && actions[0] == CancelParent
      invariant old(devices.faulted) ==> devices.faulted
      decreases Measure(c, t)
    {
      var a := ChooseStep(c, t, ctx, devices);
      RunSnoc(c, Init(c, workers), actions, t, a);
      StepKeeps(c, t, a);
      StepDecreases(c, t, a);
      if IsFault(a) {
        WhoseFault(c, t, a);
      }
      t, actions := Apply(c, t, a), actions + [a];
    }
    Explain(c, workers, actions, t, ctx.cancelled || devices.faulted);
    if Outcome(t) == None {
      SuccessMeansCopied(c, workers, actions, t);
    }
  }

  /** Every fault of the run has its reason. */
  ghost predicate Explained(c: Config, actions: seq<Action>, trouble: bool) {
    (exists k :: 0 <= k < |actions| && IsFault(actions[k])) ==> trouble || c.size > |c.source|
  }

  lemma Explain(c: Config, workers: nat, actions: seq<Action>, t: State, trouble: bool)
    requires c.Valid() && workers > 0 && Run(c, Init(c, workers), actions, t) && Terminal(t)
    requires Explained(c, actions, trouble)
    ensures Outcome(t).Some? ==> trouble || c.size > |c.source|
    ensures actions != [] && actions[0] == CancelParent ==> Outcome(t).Some?
  {
    SucceedsIffNoFault(c, workers, actions, t);
    if actions != [] && actions[0] == CancelParent {
      CancelledRunFails(c, workers, actions[1..], t);
    }
  }

  /* ---------- Number of workers ---------- */

  function WorkerLimit(cores: int): int {
    var cores := if cores < 1 then 1 else cores;
    if cores > MAX_WORKERS then MAX_WORKERS else cores
  }

  /** The number of workers for a file of `size` bytes on a machine with `cores` usable cores. */
  function WorkerCount(size: nat, cores: int): (workers: int)
    requires size >= MIN_SIZE
    ensures 1 <= workers <= MAX_WORKERS
    ensures (workers - 1) * CHUNK_SIZE < size
    ensures cores >= 1 ==> workers <= cores
  {
    var workers := WorkerLimit(cores);
    if size < CHUNK_SIZE * workers then
      var needed := (size + CHUNK_SIZE - 1) / CHUNK_SIZE;
      var needed := if needed < 1 then 1 else needed;
      if needed > MAX_WORKERS then MAX_WORKERS else needed
    else workers
  }

  /** How the copy engine runs a ranged copy. */
  function EngineConfig(content: seq<byte>, size: nat, bufferSize: nat, cores: int): Config
    requires size >= MIN_SIZE
  {
    Config(content, size, CHUNK_SIZE, bufferSize, WorkerCount(size, cores) * 2)
  }
}
