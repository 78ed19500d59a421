/**
 The loop of a worker is modelled twice: as the method `CopyIO.CopyChunkAt`, and as steps of the machine in
 `ParallelCopy`. A worker whose steps nobody disturbs does what the contract of the method says.
 */
module ChunkCopies {
  import opened Storage
  import opened ParallelCopy
  import CopyIO

  /* ---------- The machine as one worker sees it ---------- */

  datatype View = View(w: Worker, file: seq<byte>, jobBytes: nat, cancelled: bool, failed: bool)

  function Look(s: State, i: nat): View
    requires i < |s.workers|
  {
    View(s.workers[i], s.file, s.jobBytes, s.cancelled, s.copyErr.Some?)
  }

  function Broken(v: View): View {
    v.(w := Exited, cancelled := true, failed := true)
  }

  /** The steps of worker `i` while it copies a chunk. */
  predicate ByWorker(a: Action, i: nat) {
    a == EnterLoop(i) || (a.Read? && a.i == i) || (a.Write? && a.i == i) || a == Count(i)
  }

  function Entered(v: View): View
    requires v.w.LoopHead?
  {
    if v.w.done >= v.w.chunk.length then v.(w := Ready)
    else if v.cancelled then Broken(v)
    else v.(w := Reading(v.w.chunk, v.w.done))
  }

  function HasRead(c: Config, v: View, error: Option<Error>): View
    requires v.w.Reading? && v.w.done < v.w.chunk.length
    requires error.None? ==> v.w.chunk.offset + v.w.done + PieceSize(c, v.w.chunk, v.w.done) <= |c.source|
  {
    var at := v.w.chunk.offset + v.w.done;
    if error.Some? then Broken(v)
    else v.(w := Writing(v.w.chunk, v.w.done, c.source[at..at + PieceSize(c, v.w.chunk, v.w.done)], 0))
  }

  /** The file with the next `n` bytes of the buffer in their place. */
  function FileAfter(file: seq<byte>, w: Worker, n: nat): seq<byte>
    requires w.Writing? && w.total + n <= |w.buffer|
  {
    WriteAt(file, w.chunk.offset + w.done + w.total, w.buffer[w.total..w.total + n])
  }

  function HasWritten(v: View, n: nat, file: seq<byte>, error: Option<Error>): View
    requires v.w.Writing? && v.w.total + n <= |v.w.buffer|
  {
    var v' := v.(w := v.w.(total := v.w.total + n), file := file);
    if error.Some? || n == 0 then Broken(v')
    else if v'.w.total == |v'.w.buffer| then v'.(w := Counting(v'.w.chunk, v'.w.done, v'.w.total))
    else v'
  }

  function HasCounted(v: View): View
    requires v.w.Counting?
  {
    v.(w := LoopHead(v.w.chunk, v.w.done + v.w.n), jobBytes := v.jobBytes + v.w.n)
  }

  lemma LookEnter(c: Config, s: State, i: nat)
    requires Enabled(c, s, EnterLoop(i))
    ensures i < |Apply(c, s, EnterLoop(i)).workers| && Look(Apply(c, s, EnterLoop(i)), i) == Entered(Look(s, i))
  {
  }

  lemma LookRead(c: Config, s: State, i: nat, error: Option<Error>)
    requires Enabled(c, s, Read(i, error))
    ensures i < |Apply(c, s, Read(i, error)).workers|
    ensures Look(Apply(c, s, Read(i, error)), i) == HasRead(c, Look(s, i), error)
  {
  }

  lemma LookWrite(c: Config, s: State, i: nat, n: nat, error: Option<Error>)
    requires Enabled(c, s, Write(i, n, error))
    ensures i < |Apply(c, s, Write(i, n, error)).workers|
    ensures Look(Apply(c, s, Write(i, n, error)), i) == HasWritten(Look(s, i), n, FileAfter(s.file, s.workers[i], n), error)
  {
  }

  lemma LookCount(c: Config, s: State, i: nat)
    requires Enabled(c, s, Count(i))
    ensures i < |Apply(c, s, Count(i)).workers| && Look(Apply(c, s, Count(i)), i) == HasCounted(Look(s, i))
  {
  }

  /* ---------- One chunk ---------- */

  predicate Busy(w: Worker) { w.LoopHead? || w.Reading? || w.Writing? || w.Counting? }

  predicate IsPiece(source: seq<byte>, chunk: Chunk, done: nat, buffer: seq<byte>) {
    chunk.offset + done + |buffer| <= |source| && buffer == source[chunk.offset + done..chunk.offset + done + |buffer|]
  }

  /** What a worker holds is right for its chunk. */
  predicate Holds(c: Config, w: Worker, chunk: Chunk) {
    && Busy(w) && w.chunk == chunk && w.done <= chunk.length
    && (w.Counting? ==> w.done + w.n <= chunk.length)
    && (w.Writing? ==> w.total <= |w.buffer| <= chunk.length - w.done && IsPiece(c.source, chunk, w.done, w.buffer))
  }

  /** The first `written` bytes of the chunk are in their place. */
  ghost predicate Written(c: Config, before: seq<byte>, after: seq<byte>, chunk: Chunk, written: nat) {
    CopyIO.RangeWritten(before, after, c.source, chunk.offset, chunk.length, written)
  }

  /** The worker is copying the chunk: from `file` and `bytes` as they were, the file and the count have come so far. */
  ghost predicate Copying(c: Config, file: seq<byte>, bytes: nat, chunk: Chunk, v: View) {
    && Holds(c, v.w, chunk) && Written(c, file, v.file, chunk, Lo(v.w) - chunk.offset)
    && v.jobBytes == bytes + v.w.done
  }

  /** It is through with it: the whole chunk is written and counted, or an error is reported, after part of it. */
  ghost predicate Through(c: Config, file: seq<byte>, bytes: nat, chunk: Chunk, v: View, written: nat) {
    && Written(c, file, v.file, chunk, written)
    && (if v.w.Ready? then written == chunk.length && v.jobBytes == bytes + written
        else v.w.Exited? && v.cancelled && v.failed && bytes <= v.jobBytes <= bytes + written)
  }

  /** So much of a chunk as was written was there to be read. */
  lemma WrittenIsThere(c: Config, before: seq<byte>, after: seq<byte>, chunk: Chunk, written: nat)
    requires Written(c, before, after, chunk, written)
    ensures written <= chunk.length
  {
  }

  /** A part of a piece is that part of the chunk's bytes. */
  lemma PieceInChunk(source: seq<byte>, chunk: Chunk, done: nat, buffer: seq<byte>, total: nat, n: nat)
    requires IsPiece(source, chunk, done, buffer) && done + |buffer| <= chunk.length && total + n <= |buffer|
    ensures var data := CopyIO.Slice(source, chunk.offset, chunk.length);
      done + |buffer| <= |data| && data[done + total..done + total + n] == buffer[total..total + n]
  {
    var data := CopyIO.Slice(source, chunk.offset, chunk.length);
    assert data == source[chunk.offset..chunk.offset + |data|];
    CopyIO.SliceOfSlice(source, chunk.offset, chunk.offset + |data|, done, done + |buffer|);
    CopyIO.SliceOfSlice(data, done, done + |buffer|, total, total + n);
  }

  /** Written in its place, it makes that much more of the chunk. */
  lemma FileAfterIs(c: Config, file: seq<byte>, before: seq<byte>, chunk: Chunk, w: Worker, n: nat)
    requires Holds(c, w, chunk) && w.Writing? && Written(c, file, before, chunk, w.done + w.total)
    requires w.total + n <= |w.buffer|
    ensures Written(c, file, FileAfter(before, w, n), chunk, w.done + w.total + n)
  {
    var data, from := CopyIO.Slice(c.source, chunk.offset, chunk.length), w.done + w.total;
    PieceInChunk(c.source, chunk, w.done, w.buffer, w.total, n);
    CopyIO.PrefixExtends(file, before, FileAfter(before, w, n), data, chunk.offset, from, from + n);
  }

  ghost predicate GoesOn(c: Config, file: seq<byte>, bytes: nat, chunk: Chunk, v: View, written: nat) {
    Copying(c, file, bytes, chunk, v) || Through(c, file, bytes, chunk, v, written)
  }

  lemma EnteredGoesOn(c: Config, file: seq<byte>, bytes: nat, chunk: Chunk, v: View)
    requires Copying(c, file, bytes, chunk, v) && v.w.LoopHead?
    ensures GoesOn(c, file, bytes, chunk, Entered(v), v.w.done)
  {
    WrittenIsThere(c, file, v.file, chunk, v.w.done);
  }

  lemma HasReadGoesOn(c: Config, file: seq<byte>, bytes: nat, chunk: Chunk, v: View, error: Option<Error>)
    requires Copying(c, file, bytes, chunk, v) && v.w.Reading? && v.w.done < chunk.length
    requires error.None? ==> v.w.chunk.offset + v.w.done + PieceSize(c, v.w.chunk, v.w.done) <= |c.source|
    ensures GoesOn(c, file, bytes, chunk, HasRead(c, v, error), v.w.done)
  {
  }

  lemma HasWrittenGoesOn(c: Config, file: seq<byte>, bytes: nat, chunk: Chunk, v: View, n: nat, after: seq<byte>,
                         error: Option<Error>)
    requires Copying(c, file, bytes, chunk, v) && v.w.Writing? && v.w.total + n <= |v.w.buffer|
    requires Written(c, file, after, chunk, v.w.done + v.w.total + n)
    ensures GoesOn(c, file, bytes, chunk, HasWritten(v, n, after, error), v.w.done + v.w.total + n)
  {
  }

  lemma HasCountedGoesOn(c: Config, file: seq<byte>, bytes: nat, chunk: Chunk, v: View)
    requires Copying(c, file, bytes, chunk, v) && v.w.Counting?
    ensures GoesOn(c, file, bytes, chunk, HasCounted(v), v.w.done + v.w.n)
  {
  }

  lemma WriteGoesOn(c: Config, file: seq<byte>, bytes: nat, chunk: Chunk, v: View, n: nat, error: Option<Error>)
    returns (after: seq<byte>)
    requires Copying(c, file, bytes, chunk, v) && v.w.Writing? && v.w.total + n <= |v.w.buffer|
    ensures after == FileAfter(v.file, v.w, n)
    ensures GoesOn(c, file, bytes, chunk, HasWritten(v, n, after, error), v.w.done + v.w.total + n)
  {
    after := FileAfter(v.file, v.w, n);
    FileAfterIs(c, file, v.file, chunk, v.w, n);
    HasWrittenGoesOn(c, file, bytes, chunk, v, n, after, error);
  }

  lemma Step(c: Config, file: seq<byte>, bytes: nat, chunk: Chunk, s: State, a: Action, i: nat) returns (written: nat)
    requires i < |s.workers| && Copying(c, file, bytes, chunk, Look(s, i)) && Enabled(c, s, a) && ByWorker(a, i)
    ensures i < |Apply(c, s, a).workers| && GoesOn(c, file, bytes, chunk, Look(Apply(c, s, a), i), written)
  {
    var v := Look(s, i);
    match a {
      case EnterLoop(_) =>
        LookEnter(c, s, i);
        EnteredGoesOn(c, file, bytes, chunk, v);
        written := v.w.done;
      case Read(_, error) =>
        LookRead(c, s, i, error);
        HasReadGoesOn(c, file, bytes, chunk, v, error);
        written := v.w.done;
      case Write(_, n, error) =>
        LookWrite(c, s, i, n, error);
        var _ := WriteGoesOn(c, file, bytes, chunk, v, n, error);
        written := v.w.done + v.w.total + n;
      case Count(_) =>
        LookCount(c, s, i);
        HasCountedGoesOn(c, file, bytes, chunk, v);
        written := v.w.done + v.w.n;
    }
  }

  /** A worker that is through with its chunk has no further step of this kind. */
  lemma NoMoreSteps(c: Config, s: State, actions: seq<Action>, t: State, i: nat)
    requires i < |s.workers| && !Busy(s.workers[i]) && Run(c, s, actions, t)
    requires forall k :: 0 <= k < |actions| ==> ByWorker(actions[k], i)
    ensures s == t
  {
    assert actions != [] ==> ByWorker(actions[0], i);
  }

  /** However it goes, an undisturbed worker ends as `CopyIO.CopyChunkAt` promises, or is still at it. */
  lemma {:induction false} WorkerCopiesChunk(c: Config, file: seq<byte>, bytes: nat, chunk: Chunk, s: State,
                                             actions: seq<Action>, t: State, i: nat)
    returns (written: nat)
    requires i < |s.workers| && Copying(c, file, bytes, chunk, Look(s, i)) && Run(c, s, actions, t)
    requires forall k :: 0 <= k < |actions| ==> ByWorker(actions[k], i)
    ensures i < |t.workers| && GoesOn(c, file, bytes, chunk, Look(t, i), written)
    decreases |actions|
  {
    written := 0;
    if actions != [] {
      var next := Apply(c, s, actions[0]);
      written := Step(c, file, bytes, chunk, s, actions[0], i);
      if Copying(c, file, bytes, chunk, Look(next, i)) {
        written := WorkerCopiesChunk(c, file, bytes, chunk, next, actions[1..], t, i);
      } else {
        NoMoreSteps(c, next, actions[1..], t, i);
      }
    }
  }

  /** So it is from the moment on at which the worker has a chunk and finds the context alive. */
  lemma UndisturbedWorker(c: Config, s: State, actions: seq<Action>, t: State, i: nat, chunk: Chunk) returns (written: nat)
    requires i < |s.workers| && s.workers[i] == LoopHead(chunk, 0) && Run(c, s, actions, t)
    requires forall k :: 0 <= k < |actions| ==> ByWorker(actions[k], i)
    ensures i < |t.workers| && GoesOn(c, s.file, s.jobBytes, chunk, Look(t, i), written)
  {
    assert CopyIO.Slice(c.source, chunk.offset, chunk.length)[..0] == [];
    written := WorkerCopiesChunk(c, s.file, s.jobBytes, chunk, s, actions, t, i);
  }
}
