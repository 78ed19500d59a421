/**
 What a ranged copy leaves behind when it fails. A file of full length then looks like the copy that was asked
 for; this says when it is not, in terms of what a caller knows: the source, its size and the number of workers.
 */
module FailedCopies {
  import opened Storage
  import opened ParallelCopy

  /* ---------- Holes ---------- */

  /** Bytes that were never written read as zeros, and the file ends with a written byte. */
  ghost predicate HolesAreZeros(c: Config, s: State) {
    && |s.written| == c.size && |s.file| <= c.size
    && (forall p :: 0 <= p < |s.file| && s.written[p] == 0 ==> s.file[p] == 0)
    && (s.file != [] ==> s.written[|s.file| - 1] > 0)
  }

  lemma WritePieceHoles(c: Config, s: State, i: nat, n: nat)
    requires Inv(c, s) && HolesAreZeros(c, s) && i < |s.workers| && s.workers[i].Writing?
    requires s.workers[i].total + n <= |s.workers[i].buffer|
    ensures HolesAreZeros(c, WritePiece(s, i, n))
  {
    assert WorkerOk(c, s, s.workers[i]);
  }

  lemma OthersKeepFile(c: Config, s: State, a: Action)
    requires Enabled(c, s, a) && !a.Write?
    ensures Apply(c, s, a).file == s.file && Apply(c, s, a).written == s.written
  {
  }

  /** What follows a write leaves the file alone. */
  lemma WriteFile(c: Config, s: State, i: nat, n: nat, error: Option<Error>)
    requires Enabled(c, s, Write(i, n, error))
    ensures Apply(c, s, Write(i, n, error)).file == WritePiece(s, i, n).file
    ensures Apply(c, s, Write(i, n, error)).written == WritePiece(s, i, n).written
  {
  }

  lemma WriteKeepsHoles(c: Config, s: State, i: nat, n: nat, error: Option<Error>)
    requires Inv(c, s) && HolesAreZeros(c, s) && Enabled(c, s, Write(i, n, error))
    ensures HolesAreZeros(c, Apply(c, s, Write(i, n, error)))
  {
    WritePieceHoles(c, s, i, n);
    WriteFile(c, s, i, n, error);
  }

  lemma HolesStep(c: Config, s: State, a: Action)
    requires Inv(c, s) && HolesAreZeros(c, s) && Enabled(c, s, a)
    ensures HolesAreZeros(c, Apply(c, s, a))
  {
    if a.Write? {
      WriteKeepsHoles(c, s, a.i, a.n, a.error);
    } else {
      OthersKeepFile(c, s, a);
    }
  }

  lemma {:induction false} HolesRun(c: Config, s: State, actions: seq<Action>, t: State)
    requires Inv(c, s) && HolesAreZeros(c, s) && Run(c, s, actions, t)
    ensures HolesAreZeros(c, t)
    decreases |actions|
  {
    if actions != [] {
      HolesStep(c, s, actions[0]);
      StepKeeps(c, s, actions[0]);
      HolesRun(c, Apply(c, s, actions[0]), actions[1..], t);
    }
  }

  /**
   At every moment of every run the file holds the source's bytes where they were written and zeros
   elsewhere, and it has its full length exactly when its last byte was written.
   */
  lemma WhatTheFileHolds(c: Config, workers: nat, actions: seq<Action>, t: State)
    requires c.Valid() && workers > 0 && Run(c, Init(c, workers), actions, t)
    ensures |t.written| == c.size && |t.file| <= c.size
    ensures forall p :: 0 <= p < |t.file| && t.written[p] > 0 ==> p < |c.source| && t.file[p] == c.source[p]
    ensures forall p :: 0 <= p < |t.file| && t.written[p] == 0 ==> t.file[p] == 0
    ensures |t.file| == c.size <==> c.size == 0 || t.written[c.size - 1] == 1
  {
    InitInv(c, workers);
    HolesRun(c, Init(c, workers), actions, t);
    NeverWritesTwice(c, workers, actions, t);
  }

  /** A file of full length is the copy asked for exactly when all that was not written is zero in the source. */
  lemma FullLengthIsRightIff(c: Config, workers: nat, actions: seq<Action>, t: State)
    requires c.Valid() && workers > 0 && Run(c, Init(c, workers), actions, t)
    requires |t.file| == c.size <= |c.source|
    ensures |t.written| == c.size
    ensures t.file == c.source[..c.size] <==> forall p :: 0 <= p < c.size && t.written[p] == 0 ==> c.source[p] == 0
  {
    WhatTheFileHolds(c, workers, actions, t);
    if t.file == c.source[..c.size] {
      forall p | 0 <= p < c.size && t.written[p] == 0
        ensures c.source[p] == 0
      {
        assert t.file[p] == c.source[..c.size][p];
      }
    }
  }

  /* ---------- What a step does to the chunks ---------- */

  predicate Busy(w: Worker) { !w.Ready? && !w.Exited? }

  /** Worker `i` moves on: it has written `n` more bytes of its chunk, and perhaps changed its state. */
  ghost predicate Moved(s: State, t: State, i: nat, n: nat) {
    && i < |s.workers| && t.offset == s.offset && |t.written| == |s.written|
    && t.workers == s.workers[i := if i < |t.workers| then t.workers[i] else Exited]
    && WorkerMoved(s.workers[i], t.workers[i], s.queue, t.queue, n)
    && forall p :: 0 <= p < |s.written| ==>
         t.written[p] == s.written[p] + Within(Lo(s.workers[i]), Lo(s.workers[i]) + n, p)
  }

  /** It has taken the next chunk, or left, or gone on with its chunk, or is through with all of it. */
  predicate WorkerMoved(v: Worker, w: Worker, queue: seq<Chunk>, rest: seq<Chunk>, n: nat) {
    if v.Ready? then
      n == 0 && if queue == [] then w.Exited? && rest == [] else w == Received(queue[0]) && rest == queue[1..]
    else
      && rest == queue && Busy(v) && Lo(v) + n <= Hi(v)
      && (w.Exited? || (w.Ready? && n == 0 && Lo(v) == Hi(v)) || (Busy(w) && w.chunk == v.chunk && Lo(w) == Lo(v) + n))
  }

  lemma WriteMoves(c: Config, s: State, i: nat, n: nat, error: Option<Error>)
    requires Inv(c, s) && Enabled(c, s, Write(i, n, error))
    ensures Moved(s, Apply(c, s, Write(i, n, error)), i, n)
  {
    assert WorkerOk(c, s, s.workers[i]);
    var t := Apply(c, s, Write(i, n, error));
    assert t.written == WritePiece(s, i, n).written;
    assert t.workers == s.workers[i := t.workers[i]];
  }

  lemma ReceiveMoves(c: Config, s: State, i: nat)
    requires Inv(c, s) && Enabled(c, s, Receive(i))
    ensures Moved(s, Apply(c, s, Receive(i)), i, 0)
  {
    var t := Apply(c, s, Receive(i));
    assert t.workers == s.workers[i := t.workers[i]];
  }

  lemma LoopMoves(c: Config, s: State, a: Action)
    requires Inv(c, s) && Enabled(c, s, a) && (a.TestContext? || a.EnterLoop? || a.Read? || a.Count?)
    ensures Moved(s, Apply(c, s, a), a.i, 0)
  {
    assert WorkerOk(c, s, s.workers[a.i]);
    var t := Apply(c, s, a);
    assert t.workers == s.workers[a.i := t.workers[a.i]];
  }

  predicate ByProducer(a: Action) { a.CancelParent? || a.Check? || a.Send? || a.SelectDone? }

  lemma StepMoves(c: Config, s: State, a: Action) returns (n: nat)
    requires Inv(c, s) && Enabled(c, s, a) && !ByProducer(a)
    ensures Moved(s, Apply(c, s, a), a.i, n)
  {
    n := if a.Write? then a.n else 0;
    match a {
      case Receive(i) => ReceiveMoves(c, s, i);
      case Write(i, k, error) => WriteMoves(c, s, i, k, error);
      case _ => LoopMoves(c, s, a);
    }
  }

  /** The producer sends the next chunk, or changes nothing about the chunks. */
  lemma ProducerMoves(c: Config, s: State, a: Action)
    requires Inv(c, s) && Enabled(c, s, a) && ByProducer(a)
    ensures var t := Apply(c, s, a);
      && t.workers == s.workers && t.written == s.written
      && if a.Send? then s.offset < c.size && t.queue == s.queue + [NextChunk(c, s)] &&
                         t.offset == s.offset + NextChunk(c, s).length
         else t.queue == s.queue && t.offset == s.offset
  {
  }

  /* ---------- One worker ---------- */

  /** The chunks of the queue follow one another, from `lo` to `hi`. */
  predicate Contiguous(queue: seq<Chunk>, lo: nat, hi: nat) {
    if queue == [] then lo == hi else queue[0].offset == lo && Contiguous(queue[1..], lo + queue[0].length, hi)
  }

  lemma {:induction false} ContiguousSnoc(queue: seq<Chunk>, lo: nat, hi: nat, k: Chunk)
    requires Contiguous(queue, lo, hi) && k.offset == hi
    ensures Contiguous(queue + [k], lo, hi + k.length)
  {
    if queue == [] {
      assert queue + [k] == [k];
    } else {
      assert (queue + [k])[1..] == queue[1..] + [k];
      ContiguousSnoc(queue[1..], lo + queue[0].length, hi, k);
    }
  }

  /** The only worker has written all up to `done` and nothing else, and what follows is in its hands and the queue. */
  ghost predicate InOrder(c: Config, s: State, done: nat) {
    && |s.workers| == 1 && |s.written| == c.size
    && (forall p :: 0 <= p < c.size ==> (s.written[p] > 0 <==> p < done))
    && var w := s.workers[0];
       && (w.Ready? ==> Contiguous(s.queue, done, s.offset))
       && (Busy(w) ==> Lo(w) == done && Contiguous(s.queue, Hi(w), s.offset))
  }

  lemma InOrderSend(c: Config, s: State, a: Action, done: nat)
    requires Inv(c, s) && InOrder(c, s, done) && Enabled(c, s, a) && ByProducer(a)
    ensures InOrder(c, Apply(c, s, a), done)
  {
    ProducerMoves(c, s, a);
    if a.Send? && !s.workers[0].Exited? {
      ContiguousSnoc(s.queue, if s.workers[0].Ready? then done else Hi(s.workers[0]), s.offset, NextChunk(c, s));
    }
  }

  lemma InOrderMove(c: Config, s: State, t: State, i: nat, n: nat, done: nat)
    requires InOrder(c, s, done) && Moved(s, t, i, n)
    ensures InOrder(c, t, done + n)
  {
    assert i == 0 && t.workers == [t.workers[0]];
  }

  lemma InOrderStep(c: Config, s: State, a: Action, done: nat) returns (more: nat)
    requires Inv(c, s) && InOrder(c, s, done) && Enabled(c, s, a)
    ensures InOrder(c, Apply(c, s, a), more)
  {
    more := done;
    if ByProducer(a) {
      InOrderSend(c, s, a, done);
    } else {
      var n := StepMoves(c, s, a);
      InOrderMove(c, s, Apply(c, s, a), a.i, n, done);
      more := done + n;
    }
  }

  lemma {:induction false} InOrderRun(c: Config, s: State, actions: seq<Action>, t: State, done: nat) returns (more: nat)
    requires Inv(c, s) && InOrder(c, s, done) && Run(c, s, actions, t)
    ensures InOrder(c, t, more)
    decreases |actions|
  {
    more := done;
    if actions != [] {
      more := InOrderStep(c, s, actions[0], done);
      StepKeeps(c, s, actions[0]);
      more := InOrderRun(c, Apply(c, s, actions[0]), actions[1..], t, more);
    }
  }

  /** With one worker the file is the first part of the source at every moment of every run. */
  lemma OneWorkerWritesInOrder(c: Config, actions: seq<Action>, t: State)
    requires c.Valid() && Run(c, Init(c, 1), actions, t)
    ensures t.file <= c.source
  {
    InitInv(c, 1);
    var done := InOrderRun(c, Init(c, 1), actions, t, 0);
    WhatTheFileHolds(c, 1, actions, t);
    InitHoles(c, 1, actions, t);
    forall p | 0 <= p < |t.file|
      ensures p < |c.source| && t.file[p] == c.source[p]
    {
      assert t.written[|t.file| - 1] > 0;
      assert t.written[p] > 0;
    }
    if t.file != [] {
      assert t.file == c.source[..|t.file|];
    }
  }

  lemma InitHoles(c: Config, workers: nat, actions: seq<Action>, t: State)
    requires c.Valid() && workers > 0 && Run(c, Init(c, workers), actions, t)
    ensures HolesAreZeros(c, t)
  {
    InitInv(c, workers);
    HolesRun(c, Init(c, workers), actions, t);
  }

  /* ---------- The last chunk ---------- */

  /** Where the last chunk begins, if one begins at `from`. */
  function LastStart(c: Config, from: nat): (start: nat)
    requires c.Valid()
    ensures from <= start
    decreases c.size - from
  {
    if from + c.chunkSize >= c.size then from else LastStart(c, from + c.chunkSize)
  }

  /** A chunk is the last one or ends where that begins. */
  predicate Fits(last: nat, k: Chunk) { k.offset == last || k.offset + k.length <= last }

  ghost predicate WorkerFits(last: nat, w: Worker, written: seq<nat>) {
    Busy(w) ==>
      && Fits(last, w.chunk)
      && (forall p :: w.chunk.offset <= p < Lo(w) && p < |written| ==> written[p] > 0)
  }

  /** Chunks are cut off as they should be, and of the last one a first part is written. */
  ghost predicate LastInOrder(c: Config, s: State)
    requires c.Valid()
  {
    var last := LastStart(c, 0);
    && |s.written| == c.size && (s.offset < c.size ==> LastStart(c, s.offset) == last)
    && (forall k :: 0 <= k < |s.queue| ==> Fits(last, s.queue[k]))
    && (forall i :: 0 <= i < |s.workers| ==> WorkerFits(last, s.workers[i], s.written))
    && (forall p, q :: last <= q < p < c.size && s.written[p] > 0 ==> s.written[q] > 0)
  }

  lemma LastSend(c: Config, s: State, a: Action)
    requires Inv(c, s) && LastInOrder(c, s) && Enabled(c, s, a) && ByProducer(a)
    ensures LastInOrder(c, Apply(c, s, a))
  {
    ProducerMoves(c, s, a);
    var t, last := Apply(c, s, a), LastStart(c, 0);
    if a.Send? {
      assert Fits(last, NextChunk(c, s));
    }
    forall i | 0 <= i < |t.workers|
      ensures WorkerFits(last, t.workers[i], t.written)
    {
      assert WorkerFits(last, s.workers[i], s.written);
    }
  }

  lemma LastMove(c: Config, s: State, t: State, i: nat, n: nat)
    requires Inv(c, s) && LastInOrder(c, s) && Moved(s, t, i, n)
    ensures LastInOrder(c, t)
  {
    var last := LastStart(c, 0);
    assert WorkerFits(last, s.workers[i], s.written) && WorkerOk(c, s, s.workers[i]);
    forall j | 0 <= j < |t.workers|
      ensures WorkerFits(last, t.workers[j], t.written)
    {
      assert WorkerFits(last, s.workers[j], s.written);
    }
    forall p, q | last <= q < p < c.size && t.written[p] > 0
      ensures t.written[q] > 0
    {
      LastMoveAt(c, s, t, i, n, p, q);
    }
  }

  lemma LastMoveAt(c: Config, s: State, t: State, i: nat, n: nat, p: nat, q: nat)
    requires Inv(c, s) && LastInOrder(c, s) && Moved(s, t, i, n)
    requires LastStart(c, 0) <= q < p < c.size && t.written[p] > 0
    ensures t.written[q] > 0
  {
    assert WorkerFits(LastStart(c, 0), s.workers[i], s.written) && WorkerOk(c, s, s.workers[i]);
    if s.written[p] == 0 {
      var w := s.workers[i];
      assert Lo(w) <= p < Lo(w) + n && w.chunk.offset == LastStart(c, 0);
    }
  }

  lemma {:induction false} LastRun(c: Config, s: State, actions: seq<Action>, t: State)
    requires Inv(c, s) && LastInOrder(c, s) && Run(c, s, actions, t)
    ensures LastInOrder(c, t)
    decreases |actions|
  {
    if actions != [] {
      var a := actions[0];
      if ByProducer(a) {
        LastSend(c, s, a);
      } else {
        var n := StepMoves(c, s, a);
        LastMove(c, s, Apply(c, s, a), a.i, n);
      }
      StepKeeps(c, s, a);
      LastRun(c, Apply(c, s, a), actions[1..], t);
    }
  }

  /** A file of full length has its last chunk, and is wrong only if something before that was not written. */
  lemma HolesLieBeforeTheLastChunk(c: Config, workers: nat, actions: seq<Action>, t: State, p: nat)
    requires c.Valid() && workers > 0 && Run(c, Init(c, workers), actions, t)
    requires |t.file| == c.size && LastStart(c, 0) <= p < c.size
    ensures |t.written| == c.size && t.written[p] > 0
  {
    InitInv(c, workers);
    LastRun(c, Init(c, workers), actions, t);
    InitHoles(c, workers, actions, t);
  }

  /* ---------- A run with a hole ---------- */

  /** The second worker copies whatever is sent, all others wait, and nothing has gone wrong. */
  ghost predicate Calm(c: Config, s: State, workers: nat) {
    && |s.workers| == workers >= 2 && (forall i :: 1 <= i < workers ==> s.workers[i].Ready?)
    && s.queue == [] && s.producer.AtCheck? && !s.cancelled && s.copyErr.None?
    && |s.written| == c.size && s.offset <= c.size
  }

  /** The chunks fit the source. */
  predicate LongEnough(c: Config) { c.Valid() && c.size <= |c.source| }

  /** The next chunk is sent. */
  lemma SendNext(c: Config, workers: nat, before: seq<Action>, s: State) returns (actions: seq<Action>, t: State)
    requires c.Valid() && Run(c, Init(c, workers), before, s)
    requires s.offset < c.size && s.queue == [] && s.producer.AtCheck? && !s.cancelled
    ensures Run(c, Init(c, workers), actions, t)
    ensures t == s.(offset := s.offset + NextChunk(c, s).length, queue := [NextChunk(c, s)])
  {
    var s1 := Apply(c, s, Check);
    t := Apply(c, s1, Send);
    RunSnoc(c, Init(c, workers), before, s, Check);
    RunSnoc(c, Init(c, workers), before + [Check], s1, Send);
    actions := before + [Check] + [Send];
  }

  /** Worker `i` takes the only queued chunk and is about to read it. */
  lemma TakeOver(c: Config, workers: nat, before: seq<Action>, s: State, i: nat)
    returns (actions: seq<Action>, t: State)
    requires Run(c, Init(c, workers), before, s) && i < |s.workers| == workers && s.workers[i].Ready?
    requires |s.queue| == 1 && s.queue[0].length > 0 && !s.cancelled
    ensures Run(c, Init(c, workers), actions, t)
    ensures t == s.(queue := [], workers := s.workers[i := Reading(s.queue[0], 0)])
  {
    var s1 := Apply(c, s, Receive(i));
    var s2 := Apply(c, s1, TestContext(i));
    t := Apply(c, s2, EnterLoop(i));
    assert s.queue[1..] == [];
    RunSnoc(c, Init(c, workers), before, s, Receive(i));
    RunSnoc(c, Init(c, workers), before + [Receive(i)], s1, TestContext(i));
    RunSnoc(c, Init(c, workers), before + [Receive(i)] + [TestContext(i)], s2, EnterLoop(i));
    actions := before + [Receive(i)] + [TestContext(i)] + [EnterLoop(i)];
  }

  /** Only the second worker's state, the file and the counter differ, and the file has `n` more bytes at `at`. */
  ghost predicate Filled(s: State, t: State, w: Worker, at: nat, n: nat) {
    && |s.workers| >= 2 && |t.written| == |s.written|
    && t == s.(workers := s.workers[1 := w], file := t.file, written := t.written, jobBytes := t.jobBytes)
    && |t.file| == Max(|s.file|, at + n)
    && forall p :: 0 <= p < |s.written| && !(at <= p < at + n) ==> t.written[p] == s.written[p]
  }

  /** The second worker reads a piece of its chunk. */
  lemma SecondReads(c: Config, workers: nat, before: seq<Action>, s: State, chunk: Chunk, done: nat)
    returns (actions: seq<Action>, t: State)
    requires LongEnough(c) && Run(c, Init(c, workers), before, s)
    requires |s.workers| >= 2 && s.workers[1] == Reading(chunk, done)
    requires done < chunk.length && chunk.offset + chunk.length <= c.size
    ensures Run(c, Init(c, workers), actions, t)
    ensures var at, n := chunk.offset + done, PieceSize(c, chunk, done);
      0 < n <= chunk.length - done && t == s.(workers := s.workers[1 := Writing(chunk, done, c.source[at..at + n], 0)])
  {
    RunSnoc(c, Init(c, workers), before, s, Read(1, None));
    actions, t := before + [Read(1, None)], Apply(c, s, Read(1, None));
  }

  /** And writes it, all at once. */
  lemma SecondWrites(c: Config, workers: nat, before: seq<Action>, s: State, chunk: Chunk, done: nat, data: seq<byte>)
    returns (actions: seq<Action>, t: State)
    requires Run(c, Init(c, workers), before, s) && |s.workers| >= 2 && data != []
    requires s.workers[1] == Writing(chunk, done, data, 0)
    ensures Run(c, Init(c, workers), actions, t)
    ensures Filled(s, t, Counting(chunk, done, |data|), chunk.offset + done, |data|)
  {
    var a := Write(1, |data|, None);
    RunSnoc(c, Init(c, workers), before, s, a);
    actions, t := before + [a], Apply(c, s, a);
    assert data[0..|data|] == data;
    assert t == s.(workers := s.workers[1 := Counting(chunk, done, |data|)], file := t.file, written := t.written);
  }

  /** Having counted a piece, it goes on with the next, or is ready for the next chunk. */
  lemma SecondCounts(c: Config, workers: nat, before: seq<Action>, s: State, chunk: Chunk, done: nat, n: nat)
    returns (actions: seq<Action>, t: State)
    requires Run(c, Init(c, workers), before, s) && |s.workers| >= 2 && !s.cancelled
    requires s.workers[1] == Counting(chunk, done, n) && done + n <= chunk.length
    ensures Run(c, Init(c, workers), actions, t)
    ensures t == s.(workers := s.workers[1 := if done + n == chunk.length then Ready else Reading(chunk, done + n)],
                    jobBytes := t.jobBytes)
  {
    var s1 := Apply(c, s, Count(1));
    t := Apply(c, s1, EnterLoop(1));
    RunSnoc(c, Init(c, workers), before, s, Count(1));
    RunSnoc(c, Init(c, workers), before + [Count(1)], s1, EnterLoop(1));
    actions := before + [Count(1)] + [EnterLoop(1)];
  }

  lemma FilledTwice(s: State, m: State, t: State, v: Worker, w: Worker, at: nat, n: nat, k: nat)
    requires Filled(s, m, v, at, n) && Filled(m, t, w, at + n, k)
    ensures Filled(s, t, w, at, n + k)
  {
    assert s.workers[1 := v][1 := w] == s.workers[1 := w];
  }

  lemma FilledThen(s: State, m: State, t: State, v: Worker, w: Worker, at: nat, n: nat)
    requires Filled(s, m, v, at, n) && t == m.(workers := m.workers[1 := w], jobBytes := t.jobBytes)
    ensures Filled(s, t, w, at, n)
  {
    assert s.workers[1 := v][1 := w] == s.workers[1 := w];
  }

  /** One piece, from the read to the count. */
  lemma SecondCopiesPiece(c: Config, workers: nat, before: seq<Action>, s: State, chunk: Chunk, done: nat)
    returns (actions: seq<Action>, t: State, n: nat)
    requires LongEnough(c) && Run(c, Init(c, workers), before, s) && !s.cancelled
    requires |s.workers| >= 2 && s.workers[1] == Reading(chunk, done)
    requires done < chunk.length && chunk.offset + chunk.length <= c.size
    ensures Run(c, Init(c, workers), actions, t) && 0 < n <= chunk.length - done
    ensures Filled(s, t, if done + n == chunk.length then Ready else Reading(chunk, done + n), chunk.offset + done, n)
  {
    n := PieceSize(c, chunk, done);
    var m0, m1;
    actions, m0 := SecondReads(c, workers, before, s, chunk, done);
    actions, m1 := SecondWrites(c, workers, actions, m0, chunk, done, m0.workers[1].buffer);
    assert Filled(s, m1, m1.workers[1], chunk.offset + done, n);
    actions, t := SecondCounts(c, workers, actions, m1, chunk, done, n);
    FilledThen(s, m1, t, m1.workers[1], t.workers[1], chunk.offset + done, n);
  }

  /** The second worker copies the rest of its chunk, piece by piece. */
  lemma {:induction false} SecondCopies(c: Config, workers: nat, before: seq<Action>, s: State, chunk: Chunk, done: nat)
    returns (actions: seq<Action>, t: State)
    requires LongEnough(c) && Run(c, Init(c, workers), before, s) && !s.cancelled
    requires |s.workers| >= 2 && s.workers[1] == Reading(chunk, done)
    requires done < chunk.length && chunk.offset + chunk.length <= c.size
    ensures Run(c, Init(c, workers), actions, t)
    ensures Filled(s, t, Ready, chunk.offset + done, chunk.length - done)
    decreases chunk.length - done
  {
    var m, n;
    actions, m, n := SecondCopiesPiece(c, workers, before, s, chunk, done);
    t := m;
    if done + n < chunk.length {
      actions, t := SecondCopies(c, workers, actions, m, chunk, done + n);
      FilledTwice(s, m, t, m.workers[1], Ready, chunk.offset + done, n, chunk.length - done - n);
    }
  }

  /** One more chunk: sent, taken by the second worker, and copied. */
  lemma OneMore(c: Config, workers: nat, before: seq<Action>, s: State) returns (actions: seq<Action>, t: State)
    requires LongEnough(c) && Run(c, Init(c, workers), before, s) && Calm(c, s, workers) && s.offset < c.size
    ensures Run(c, Init(c, workers), actions, t) && Calm(c, t, workers) && t.workers == s.workers
    ensures t.offset == s.offset + NextChunk(c, s).length && |t.file| == Max(|s.file|, t.offset)
    ensures forall p :: 0 <= p < c.size && !(s.offset <= p < t.offset) ==> t.written[p] == s.written[p]
  {
    var chunk := NextChunk(c, s);
    var m0, m1;
    actions, m0 := SendNext(c, workers, before, s);
    actions, m1 := TakeOver(c, workers, actions, m0, 1);
    actions, t := SecondCopies(c, workers, actions, m1, chunk, 0);
    assert t.workers == s.workers;
  }

  /** `hole` can be reached from `from` in whole chunks. */
  predicate WholeChunks(c: Config, from: nat, hole: nat)
    requires c.Valid()
    decreases hole - from
  {
    from == hole || (from + c.chunkSize <= hole && WholeChunks(c, from + c.chunkSize, hole))
  }

  lemma {:induction false} ChunkOf(c: Config, from: nat, p: nat) returns (hole: nat)
    requires c.Valid() && from <= p < LastStart(c, from)
    ensures WholeChunks(c, from, hole) && hole <= p < hole + c.chunkSize < c.size
    decreases c.size - from
  {
    hole := from;
    if p >= from + c.chunkSize {
      hole := ChunkOf(c, from + c.chunkSize, p);
    }
  }

  /** All that lies before the hole is copied by the second worker; the first one waits. */
  lemma {:induction false} CopyBefore(c: Config, workers: nat, before: seq<Action>, s: State, hole: nat)
    returns (actions: seq<Action>, t: State)
    requires LongEnough(c) && Run(c, Init(c, workers), before, s) && Calm(c, s, workers) && s.workers[0].Ready?
    requires WholeChunks(c, s.offset, hole) && hole + c.chunkSize < c.size
    requires forall p :: s.offset <= p < c.size ==> s.written[p] == 0
    ensures Run(c, Init(c, workers), actions, t) && Calm(c, t, workers) && t.workers[0].Ready? && t.offset == hole
    ensures forall p :: hole <= p < c.size ==> t.written[p] == 0
    decreases hole - s.offset
  {
    actions, t := before, s;
    if s.offset < hole {
      actions, t := OneMore(c, workers, before, s);
      actions, t := CopyBefore(c, workers, actions, t, hole);
    }
  }

  /** The first worker is about to read the chunk at `hole`, none of which is written. */
  ghost predicate HoleOpen(c: Config, s: State, workers: nat, hole: nat) {
    && Calm(c, s, workers) && s.workers[0] == Reading(Chunk(hole, c.chunkSize), 0)
    && hole + c.chunkSize <= s.offset <= c.size && (s.offset > hole + c.chunkSize ==> |s.file| >= s.offset)
    && forall p :: hole <= p < hole + c.chunkSize ==> s.written[p] == 0
  }

  /** And all that comes after it is copied by the second worker. */
  lemma {:induction false} CopyAfter(c: Config, workers: nat, before: seq<Action>, s: State, hole: nat)
    returns (actions: seq<Action>, t: State)
    requires LongEnough(c) && Run(c, Init(c, workers), before, s) && HoleOpen(c, s, workers, hole)
    ensures Run(c, Init(c, workers), actions, t) && HoleOpen(c, t, workers, hole) && t.offset == c.size
    decreases c.size - s.offset
  {
    actions, t := before, s;
    if s.offset < c.size {
      actions, t := OneMore(c, workers, before, s);
      actions, t := CopyAfter(c, workers, actions, t, hole);
    }
  }

  lemma OpenHole(c: Config, workers: nat, hole: nat) returns (actions: seq<Action>, t: State)
    requires LongEnough(c) && workers >= 2 && WholeChunks(c, 0, hole) && hole + c.chunkSize < c.size
    ensures Run(c, Init(c, workers), actions, t) && HoleOpen(c, t, workers, hole)
  {
    actions, t := CopyBefore(c, workers, [], Init(c, workers), hole);
    actions, t := SendNext(c, workers, actions, t);
    actions, t := TakeOver(c, workers, actions, t, 0);
  }

  /** The producer has closed the channel, and the first `n` workers but the very first have left. */
  lemma {:induction false} OthersLeave(c: Config, workers: nat, before: seq<Action>, s: State, n: nat)
    returns (actions: seq<Action>, t: State)
    requires Run(c, Init(c, workers), before, s) && Calm(c, s, workers) && s.offset == c.size && 1 <= n <= workers
    ensures Run(c, Init(c, workers), actions, t)
    ensures |t.workers| == workers && t.workers[0] == s.workers[0]
    ensures forall i :: 1 <= i < workers ==> if i < n then t.workers[i].Exited? else t.workers[i].Ready?
    ensures t.queue == [] && t.producer.Closed? && t.copyErr.None? && t.file == s.file && t.written == s.written
  {
    if n == 1 {
      RunSnoc(c, Init(c, workers), before, s, Check);
      actions, t := before + [Check], Apply(c, s, Check);
    } else {
      actions, t := OthersLeave(c, workers, before, s, n - 1);
      RunSnoc(c, Init(c, workers), actions, t, Receive(n - 1));
      actions, t := actions + [Receive(n - 1)], Apply(c, t, Receive(n - 1));
    }
  }

  /** The first worker fails on its chunk, and leaves the hole. */
  lemma FailWithHole(c: Config, workers: nat, hole: nat, error: Error) returns (actions: seq<Action>, t: State)
    requires LongEnough(c) && workers >= 2 && WholeChunks(c, 0, hole) && hole + c.chunkSize < c.size
    ensures Run(c, Init(c, workers), actions, t) && Terminal(t) && Outcome(t) == Some(error)
    ensures |t.file| == |t.written| == c.size
    ensures forall p :: hole <= p < hole + c.chunkSize ==> t.written[p] == 0
  {
    actions, t := OpenHole(c, workers, hole);
    actions, t := CopyAfter(c, workers, actions, t, hole);
    var s := t;
    actions, t := OthersLeave(c, workers, actions, t, workers);
    RunSnoc(c, Init(c, workers), actions, t, Read(0, Some(error)));
    actions, t := actions + [Read(0, Some(error))], Apply(c, t, Read(0, Some(error)));
    WhatTheFileHolds(c, workers, actions, t);
  }

  /* ---------- When a wrong file can look right ---------- */

  /** Some byte before the last chunk is not zero. */
  predicate HasByteBeforeLast(c: Config)
    requires c.Valid()
  {
    exists p :: 0 <= p < LastStart(c, 0) && p < |c.source| && c.source[p] != 0
  }

  lemma {:induction false} LastIsWithin(c: Config, from: nat)
    requires c.Valid() && from < c.size
    ensures LastStart(c, from) < c.size
    decreases c.size - from
  {
    if from + c.chunkSize < c.size {
      LastIsWithin(c, from + c.chunkSize);
    }
  }

  /** A failing run whose file has its full length, for every error and every byte that it could miss. */
  lemma FailureCanLeaveFullLength(c: Config, workers: nat, error: Error, p: nat)
    returns (actions: seq<Action>, t: State)
    requires LongEnough(c) && workers >= 2 && p < LastStart(c, 0)
    ensures Run(c, Init(c, workers), actions, t) && Terminal(t) && Outcome(t) == Some(error)
    ensures |t.file| == c.size && p < c.size && t.file[p] == 0
  {
    if c.size > 0 {
      LastIsWithin(c, 0);
    }
    var hole := ChunkOf(c, 0, p);
    actions, t := FailWithHole(c, workers, hole, error);
    WhatTheFileHolds(c, workers, actions, t);
  }

  /** A run that ends with an error and a file of full length that is not the start of the source. */
  ghost predicate EndsWrong(c: Config, workers: nat, actions: seq<Action>, t: State) {
    && Run(c, Init(c, workers), actions, t) && Terminal(t) && Outcome(t).Some?
    && |t.file| == c.size && !(t.file <= c.source)
  }

  /** What a run that ends so tells of the copy. */
  lemma EndsWrongOnlyIf(c: Config, workers: nat, actions: seq<Action>, t: State)
    requires c.Valid() && workers > 0 && EndsWrong(c, workers, actions, t)
    ensures workers >= 2 && c.size <= |c.source| && HasByteBeforeLast(c)
  {
    if workers == 1 {
      OneWorkerWritesInOrder(c, actions, t);
      assert false;
    }
    WhatTheFileHolds(c, workers, actions, t);
    assert c.size > 0;
    assert t.written[c.size - 1] == 1 && c.size <= |c.source|;
    var p :| 0 <= p < c.size && t.file[p] != c.source[p];
    if p >= LastStart(c, 0) {
      HolesLieBeforeTheLastChunk(c, workers, actions, t, p);
      assert false;
    }
    assert t.written[p] == 0;
  }

  /**
   A copy can fail and leave a wrong file of full length exactly when it has two workers or more, the source is
   as long as the caller was told, and some byte before the last chunk is not zero.
   */
  lemma WrongFullLengthIff(c: Config, workers: nat)
    requires c.Valid() && workers > 0
    ensures (exists actions, t :: EndsWrong(c, workers, actions, t)) <==>
      workers >= 2 && c.size <= |c.source| && HasByteBeforeLast(c)
  {
    if actions, t :| EndsWrong(c, workers, actions, t) {
      EndsWrongOnlyIf(c, workers, actions, t);
    }
    if workers >= 2 && c.size <= |c.source| && HasByteBeforeLast(c) {
      var p :| 0 <= p < LastStart(c, 0) && p < |c.source| && c.source[p] != 0;
      var actions, t := FailureCanLeaveFullLength(c, workers, Io(0), p);
      assert EndsWrong(c, workers, actions, t);
    }
  }

  /* ---------- In terms of the machine ---------- */

  /** A second worker is there exactly when a second core is. */
  lemma TwoWorkersIff(size: nat, cores: int)
    requires size >= MIN_SIZE
    ensures WorkerCount(size, cores) >= 2 <==> cores >= 2
  {
  }

  /** So with the engine's own settings it is the second core that makes it possible. */
  lemma EngineLeavesWrongIff(content: seq<byte>, size: nat, bufferSize: nat, cores: int)
    requires size >= MIN_SIZE && bufferSize > 0
    ensures var c := EngineConfig(content, size, bufferSize, cores);
      (exists actions, t :: EndsWrong(c, WorkerCount(size, cores), actions, t)) <==>
        cores >= 2 && size <= |content| && HasByteBeforeLast(c)
  {
    TwoWorkersIff(size, cores);
    WrongFullLengthIff(EngineConfig(content, size, bufferSize, cores), WorkerCount(size, cores));
  }
}
