/**
 The byte loops of a copy: exact ranged reads and writes, the copy of one chunk, and the sequential
 read/write loop. Readers and writers may stop short or fail as the interfaces of the `io` package
 allow; an arbitrary outcome is drawn at each call.
 */
module CopyIO {
  import opened Storage
  import opened Jobs

  const BUFFER_SIZE: nat := 1024 * 1024

  method AnyUpTo(max: nat) returns (n: nat)
    ensures n <= max
  {
    var k: int := *;
    n := if 0 <= k <= max then k else 0;
  }

  /** A context: it may be cancelled from outside at any moment, and stays cancelled. */
  class Context {
    var cancelled: bool

    constructor ()
      ensures !cancelled
    {
      cancelled := false;
    }

    method Err() returns (error: Option<Error>)
      modifies this
      ensures old(cancelled) ==> cancelled
      ensures error == if cancelled then Some(Error.Canceled) else None
    {
      if !cancelled {
        cancelled := *;
      }
      error := if cancelled then Some(Error.Canceled) else None;
    }
  }

  /** A source opened for ranged reads; `faulted` remembers that a call went wrong. */
  class RangedReader {
    const content: seq<byte>
    ghost var faulted: bool

    constructor (content: seq<byte>)
      ensures this.content == content && !faulted
    {
      this.content, this.faulted := content, false;
    }

    /**
     Fills buf[lo..lo + n] with the bytes at `offset`. It may stop early; when nothing goes wrong it makes headway,
     and reports the end of the source there, with the last bytes or after them.
     */
    method ReadAt(buf: array<byte>, lo: nat, hi: nat, offset: nat) returns (n: nat, error: Option<Error>)
      requires lo <= hi <= buf.Length
      modifies buf, this`faulted
      ensures old(faulted) ==> faulted
      ensures !faulted ==> error.None? || (error == Some(Eof) && offset + n >= |content|)
      ensures n <= hi - lo && (n > 0 ==> offset + n <= |content|)
      ensures n > 0 ==> buf[..lo + n] == old(buf[..lo]) + content[offset..offset + n]
      ensures n == 0 ==> buf[..lo] == old(buf[..lo])
      ensures buf[hi..] == old(buf[hi..])
      ensures n == 0 && lo < hi ==> error.Some?
    {
      var most := if offset < |content| then Min(hi - lo, |content| - offset) else 0;
      n := AnyUpTo(most);
      var broken: bool := *;
      if !broken && n == 0 {
        n := most;
      }
      for k := lo to lo + n
        invariant buf[..lo] == old(buf[..lo]) && buf[hi..] == old(buf[hi..]) && faulted == old(faulted)
        invariant forall j :: lo <= j < k ==> buf[j] == content[offset + (j - lo)]
      {
        buf[k] := content[offset + (k - lo)];
      }
      error := *;
      if !broken {
        error := if offset + n >= |content| && (error.Some? || (n == 0 && lo < hi)) then Some(Eof) else None;
      } else if n == 0 && !error.Some? {
        error := Some(UnexpectedEof);
      }
      faulted := faulted || broken;
    }
  }

  /** A destination opened for ranged writes. */
  class RangedWriter {
    var content: seq<byte>
    ghost var faulted: bool

    constructor ()
      ensures content == [] && !faulted
    {
      content, faulted := [], false;
    }

    /** Writes the first `n` bytes of buf[lo..hi]; fewer than asked is possible, with or without an error. */
    method WriteAt(buf: array<byte>, lo: nat, hi: nat, offset: nat) returns (n: nat, error: Option<Error>)
      requires lo <= hi <= buf.Length
      modifies this
      ensures n <= hi - lo
      ensures content == Storage.WriteAt(old(content), offset, buf[..hi][lo..lo + n])
      ensures old(faulted) ==> faulted
      ensures !faulted ==> error.None? && (lo < hi ==> n > 0)
    {
      n := AnyUpTo(hi - lo);
      var broken: bool := *;
      if !broken && n == 0 {
        n := hi - lo;
      }
      content := Storage.WriteAt(content, offset, buf[..hi][lo..lo + n]);
      error := *;
      error := if broken then error else None;
      faulted := faulted || broken;
    }
  }

  lemma SliceOfSlice(source: seq<byte>, i: nat, j: nat, a: nat, b: nat)
    requires i <= j <= |source| && a <= b <= j - i
    ensures source[i..j][a..b] == source[i + a..i + b]
  {
    forall k | 0 <= k < b - a
      ensures source[i..j][a..b][k] == source[i + a..i + b][k]
    {
      assert source[i..j][a..b][k] == source[i..j][a + k] == source[i + (a + k)];
    }
  }

  /** Two adjacent writes are one write of both pieces. */
  lemma WritesJoin(file: seq<byte>, offset: nat, a: seq<byte>, b: seq<byte>)
    ensures WriteAt(WriteAt(file, offset, a), offset + |a|, b) == WriteAt(file, offset, a + b)
  {
    if a == [] {
      assert a + b == b;
    } else if b == [] {
      assert a + b == a;
    }
  }

  /** Writing data[i..j] after data[..i] has been written is writing data[..j]. */
  lemma WriteMore(file: seq<byte>, offset: nat, data: seq<byte>, i: nat, j: nat)
    requires i <= j <= |data|
    ensures WriteAt(WriteAt(file, offset, data[..i]), offset + i, data[i..j]) == WriteAt(file, offset, data[..j])
  {
    WritesJoin(file, offset, data[..i], data[i..j]);
    assert data[..i] + data[i..j] == data[..j];
  }

  lemma SliceJoin(source: seq<byte>, a: nat, b: nat, c: nat)
    requires a <= b <= c <= |source|
    ensures source[a..b] + source[b..c] == source[a..c]
  {
  }

  method ReadExactAt(r: RangedReader, buf: array<byte>, n: nat, offset: nat) returns (error: Option<Error>)
    requires n <= buf.Length
    modifies buf, r`faulted
    ensures error.None? && n > 0 ==> offset + n <= |r.content| && buf[..n] == r.content[offset..offset + n]
    ensures n > 0 && !r.faulted ==> (error.Some? <==> offset + n > |r.content|)
    ensures n == 0 ==> error.None?
    ensures error != Some(Eof) && (old(r.faulted) ==> r.faulted)
  {
    var total := 0;
    while total < n
      invariant 0 <= total <= n && (old(r.faulted) ==> r.faulted)
      invariant total > 0 ==> offset + total <= |r.content| && buf[..total] == r.content[offset..offset + total]
    {
      var k, e := r.ReadAt(buf, total, n, offset + total);
      if total > 0 && k > 0 {
        SliceJoin(r.content, offset, offset + total, offset + total + k);
      }
      total := total + k;
      if e.Some? {
        if e.value.Eof? {
          if total == n {
            return None;
          }
          return Some(UnexpectedEof);
        }
        return e;
      }
    }
    return None;
  }

  /** `after` is `before` with the first `written` bytes of `data` put at `offset`. */
  ghost predicate PrefixWritten(before: seq<byte>, after: seq<byte>, data: seq<byte>, offset: nat, written: nat)
  {
    written <= |data| && after == WriteAt(before, offset, data[..written])
  }

  lemma PrefixExtends(file: seq<byte>, before: seq<byte>, after: seq<byte>, data: seq<byte>,
                      offset: nat, i: nat, j: nat)
    requires PrefixWritten(file, before, data, offset, i) && i <= j <= |data|
    requires after == WriteAt(before, offset + i, data[i..j])
    ensures PrefixWritten(file, after, data, offset, j)
  {
    WriteMore(file, offset, data, i, j);
  }

  /** `written` bytes reach the file even when an error is returned. */
  method WriteExactAt(w: RangedWriter, buf: array<byte>, n: nat, offset: nat)
    returns (error: Option<Error>, ghost written: nat)
    requires n <= buf.Length
    modifies w
    ensures PrefixWritten(old(w.content), w.content, buf[..n], offset, written)
    ensures error.None? ==> written == n
    ensures (error.Some? || old(w.faulted)) ==> w.faulted
  {
    var total := 0;
    ghost var data := buf[..n];
    while total < n
      invariant 0 <= total <= n && buf[..n] == data && (old(w.faulted) ==> w.faulted)
      invariant PrefixWritten(old(w.content), w.content, data, offset, total)
    {
      ghost var before := w.content;
      var k, e := w.WriteAt(buf, total, n, offset + total);
      PrefixExtends(old(w.content), before, w.content, data, offset, total, total + k);
      total := total + k;
      if e.Some? {
        return e, total;
      }
      if k == 0 {
        return Some(ShortWrite), total;
      }
    }
    return None, total;
  }

  /** What `source` holds in [offset, offset + length); shorter if the source ends before that. */
  function Slice(source: seq<byte>, offset: nat, length: nat): (data: seq<byte>)
    ensures |data| <= length
  {
    if offset <= |source| then source[offset..Min(offset + length, |source|)] else []
  }

  /** `after` is `before` with the first `written` bytes of source[offset..offset + length] in their place. */
  ghost predicate RangeWritten(before: seq<byte>, after: seq<byte>, source: seq<byte>,
                               offset: nat, length: nat, written: nat)
  {
    PrefixWritten(before, after, Slice(source, offset, length), offset, written)
  }

  /** Reads and writes one buffer of at most `n` bytes at `pos`. */
  method CopyPiece(reader: RangedReader, writer: RangedWriter, buf: array<byte>, n: nat, pos: nat)
    returns (error: Option<Error>, ghost written: nat)
    requires 0 < n <= buf.Length
    modifies reader`faulted, writer, buf
    ensures RangeWritten(old(writer.content), writer.content, reader.content, pos, n, written)
    ensures error.None? ==> written == n && pos + n <= |reader.content|
    ensures error.Some? ==> reader.faulted || writer.faulted || pos + n > |reader.content|
    ensures (old(reader.faulted) ==> reader.faulted) && (old(writer.faulted) ==> writer.faulted)
  {
    written := 0;
    error := ReadExactAt(reader, buf, n, pos);
    if error.Some? {
      return;
    }
    error, written := WriteExactAt(writer, buf, n, pos);
    assert buf[..n] == Slice(reader.content, pos, n);
  }

  /** After the first `done` bytes of a range, the first `k` bytes of the next piece are written. */
  lemma PieceWritten(file: seq<byte>, before: seq<byte>, after: seq<byte>, source: seq<byte>,
                     offset: nat, length: nat, done: nat, n: nat, k: nat)
    requires done + n <= length
    requires RangeWritten(file, before, source, offset, length, done)
    requires RangeWritten(before, after, source, offset + done, n, k)
    ensures RangeWritten(file, after, source, offset, length, done + k)
  {
    var data := Slice(source, offset, length);
    if k > 0 {
      var end := offset + |data|;
      assert data == source[offset..end];
      SliceOfSlice(source, offset, end, done, done + k);
      assert Slice(source, offset + done, n)[..k] == source[offset + done..offset + done + k];
    } else {
      assert data[done..done + k] == [];
    }
    WriteMore(file, offset, data, done, done + k);
  }

  /**
   Copies [offset, offset + length) of the source to the same place of the destination through `buf`.
   Whatever happens, what reached the destination is the first `written` bytes of that range. It fails only when
   the range goes beyond the source, the context is cancelled, or a device has gone wrong.
   */
  method CopyChunkAt(ctx: Context, reader: RangedReader, writer: RangedWriter, buf: array<byte>,
                     offset: nat, length: nat, job: SyncJob?)
    returns (error: Option<Error>, ghost written: nat)
    requires buf.Length > 0 && Reports(job)
    modifies ctx, reader`faulted, writer, buf, job
    ensures RangeWritten(old(writer.content), writer.content, reader.content, offset, length, written)
    ensures error.None? ==> written == length && (length > 0 ==> offset + length <= |reader.content|)
    ensures error.Some? ==>
      ctx.cancelled || reader.faulted || writer.faulted || (length > 0 && offset + length > |reader.content|)
    ensures old(ctx.cancelled) && length > 0 ==> error == Some(Error.Canceled) && writer.content == old(writer.content)
    ensures Reports(job) && (job != null ==> Counted(old(Now(job)), Now(job), written))
    ensures job != null && error.None? ==> CountedAll(old(Now(job)), Now(job), length)
  {
    ghost var from, file := Now(job), writer.content;
    CountedNothing(from);
    var remaining, pos := length, offset;
    written := 0;
    while remaining > 0
      invariant 0 <= remaining <= length && pos == offset + written && written == length - remaining
      invariant written > 0 ==> pos <= |reader.content|
      invariant old(ctx.cancelled) ==> ctx.cancelled && written == 0 && writer.content == file
      invariant RangeWritten(file, writer.content, reader.content, offset, length, written)
      invariant Reports(job) && (job != null ==> CountedAll(from, Now(job), written))
    {
      error := ctx.Err();
      if error.Some? {
        return;
      }
      var n := Min(remaining, buf.Length);
      error, written := CopyNextPiece(reader, writer, buf, n, pos, job, offset, length, written, file, from);
      if error.Some? {
        return;
      }
      pos := pos + n;
      remaining := remaining - n;
    }
    error := None;
  }

  /** One turn of that loop, after `done` bytes of the range. */
  method CopyNextPiece(reader: RangedReader, writer: RangedWriter, buf: array<byte>, n: nat, pos: nat, job: SyncJob?,
                       ghost offset: nat, ghost length: nat, ghost done: nat, ghost file: seq<byte>, ghost from: Moment)
    returns (error: Option<Error>, ghost written: nat)
    requires 0 < n <= buf.Length && pos == offset + done && done + n <= length && Reports(job)
    requires RangeWritten(file, writer.content, reader.content, offset, length, done)
    requires job != null ==> CountedAll(from, Now(job), done)
    modifies reader`faulted, writer, buf, job
    ensures RangeWritten(file, writer.content, reader.content, offset, length, written)
    ensures error.None? ==> pos + n <= |reader.content|
    ensures error.Some? ==> reader.faulted || writer.faulted || pos + n > |reader.content|
    ensures Reports(job) && (job != null ==> Counted(from, Now(job), written))
    ensures error.None? ==> written == done + n && (job != null ==> CountedAll(from, Now(job), written))
  {
    error, written := WriteNextPiece(reader, writer, buf, n, pos, offset, length, done, file);
    if error.Some? {
      if job != null {
        CountedWeaker(from, Now(job), done, written);
      }
      return;
    }
    Count(job, n, from, done);
  }

  method WriteNextPiece(reader: RangedReader, writer: RangedWriter, buf: array<byte>, n: nat, pos: nat,
                        ghost offset: nat, ghost length: nat, ghost done: nat, ghost file: seq<byte>)
    returns (error: Option<Error>, ghost written: nat)
    requires 0 < n <= buf.Length && pos == offset + done && done + n <= length
    requires RangeWritten(file, writer.content, reader.content, offset, length, done)
    modifies reader`faulted, writer, buf
    ensures RangeWritten(file, writer.content, reader.content, offset, length, written) && done <= written
    ensures error.None? ==> written == done + n && pos + n <= |reader.content|
    ensures error.Some? ==> reader.faulted || writer.faulted || pos + n > |reader.content|
  {
    ghost var before, k := writer.content, 0;
    error, k := CopyPiece(reader, writer, buf, n, pos);
    PieceWritten(file, before, writer.content, reader.content, offset, length, done, n, k);
    written := done + k;
  }

  /** A source opened as a stream. `patience` bounds how often in a row a read may yield nothing. */
  class StreamReader {
    const content: seq<byte>
    var pos: nat
    ghost var patience: nat
    ghost var faulted: bool

    predicate Valid()
      reads this
    {
      pos <= |content|
    }

    constructor (content: seq<byte>, ghost patience: nat)
      ensures Valid() && this.content == content && pos == 0 && !faulted
    {
      this.content, this.pos, this.patience, this.faulted := content, 0, patience, false;
    }

    method Read(buf: array<byte>) returns (n: nat, error: Option<Error>)
      requires Valid() && buf.Length > 0
      modifies this, buf
      ensures Valid() && pos == old(pos) + n && n <= buf.Length
      ensures buf[..n] == content[old(pos)..pos]
      ensures error == Some(Eof) ==> pos == |content|
      ensures n == 0 && error.None? ==> patience < old(patience)
      ensures old(faulted) ==> faulted
      ensures !faulted ==> error.None? || error == Some(Eof)
    {
      n := AnyUpTo(Min(buf.Length, |content| - pos));
      for k := 0 to n
        invariant pos == old(pos) && faulted == old(faulted)
        invariant forall j :: 0 <= j < k ==> buf[j] == content[pos + j]
      {
        buf[k] := content[pos + k];
      }
      pos := pos + n;
      error := *;
      if pos == |content| && (error == Some(Eof) || (n == 0 && error.None?)) {
        error := Some(Eof);
      } else if error.Some? || n == 0 {
        error := if error.Some? && error != Some(Eof) then error else Some(Io(0));
        faulted := true;
      }
    }
  }

  /** A destination opened as a stream; a short write always comes with an error. */
  class StreamWriter {
    var content: seq<byte>
    ghost var faulted: bool

    constructor ()
      ensures content == [] && !faulted
    {
      content, faulted := [], false;
    }

    method Write(buf: array<byte>, n: nat) returns (k: nat, error: Option<Error>)
      requires n <= buf.Length
      modifies this
      ensures k <= n && content == old(content) + buf[..n][..k]
      ensures error.None? ==> k == n
      ensures error.Some? || old(faulted) ==> faulted
    {
      k := AnyUpTo(n);
      error := *;
      if error.None? {
        k := n;
      }
      content := content + buf[..n][..k];
      faulted := faulted || error.Some?;
    }

    method Close() returns (error: Option<Error>)
      modifies this`faulted
      ensures error.Some? || old(faulted) ==> faulted
    {
      error := *;
      faulted := faulted || error.Some?;
    }
  }

  lemma PrefixAppended(source: seq<byte>, a: nat, b: nat, k: nat)
    requires a <= b <= |source| && k <= b - a
    ensures source[..a] + source[a..b][..k] == source[..a + k]
  {
    SliceOfSlice(source, a, b, 0, k);
    SliceJoin(source, 0, a, a + k);
  }

  /**
   The read/write loop used when a ranged copy is not possible. It fails only when the context is cancelled or a
   device has gone wrong.
   */
  method CopyStream(ctx: Context, reader: StreamReader, writer: StreamWriter, buf: array<byte>, job: SyncJob?)
    returns (error: Option<Error>)
    requires reader.Valid() && reader.pos == 0 && writer.content == [] && buf.Length > 0 && Reports(job)
    modifies ctx, reader, writer, buf, job
    ensures error.None? ==> writer.content == reader.content
    ensures writer.content <= reader.content
    ensures error.Some? ==> ctx.cancelled || reader.faulted || writer.faulted
    ensures old(ctx.cancelled) ==> error == Some(Error.Canceled) && writer.content == [] && ctx.cancelled
    ensures Reports(job) && (job != null ==> Counted(old(Now(job)), Now(job), |writer.content|))
    ensures job != null && error.None? ==> CountedAll(old(Now(job)), Now(job), |reader.content|)
  {
    ghost var from := Now(job);
    CountedNothing(from);
    while true
      invariant reader.Valid()
      invariant writer.content == reader.content[..reader.pos] && (old(ctx.cancelled) ==> ctx.cancelled && reader.pos == 0)
      invariant Reports(job) && (job != null ==> CountedAll(from, Now(job), reader.pos))
      decreases |reader.content| - reader.pos, reader.patience
    {
      var canceled := ctx.Err();
      if canceled.Some? {
        return canceled;
      }
      ghost var before := reader.pos;
      var n, readErr := reader.Read(buf);
      if n > 0 {
        var k, writeErr := writer.Write(buf, n);
        PrefixAppended(reader.content, reader.pos - n, reader.pos, k);
        if writeErr.Some? {
          if job != null {
            CountedWeaker(from, Now(job), before, |writer.content|);
          }
          return writeErr;
        }
        Count(job, n, from, before);
      }
      if readErr == Some(Eof) {
        break;
      }
      if readErr.Some? {
        return readErr;
      }
    }
    error := writer.Close();
  }
}
