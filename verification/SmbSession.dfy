/**
 The session that an SMB backend keeps, and the leases that open streams hold on it. Every method here is
 one section under the backend's mutex. What the server answers is arbitrary, and a record is kept of it; a lost
 connection is the one error that the backend itself reacts to.
 */
module SmbSessions {
  import opened Storage
  import Paths

  datatype Failure = ConnectionLost | Refused(error: Error)

  /** A connection with a mounted share. */
  class Session {
    var live: bool

    constructor ()
      ensures live
    {
      live := true;
    }

    method Close()
      modifies this
      ensures !live
    {
      live := false;
    }
  }

  /** What a backend may ask of the server. */
  datatype Call =
    | OpenFile(path: string)
    | StatFile(path: string)
    | KindOfFile(path: string)
    | MakeDirs(dir: string)
    | CreateFile(path: string)
    | Move(path: string)
    | CloseFile(path: string)
    | RemoveFile(path: string)

  /** What the backend did ask, and what came back: a new session, unless null, or a failure, if any. */
  datatype Exchange =
    | Dial(session: Session?)
    | Asked(over: Session, call: Call, failure: Option<Failure>)

  lemma Tail<T>(start: seq<T>, more: seq<T>)
    ensures (start + more)[|start|..] == more && start <= start + more
  {
  }

  /** What a caller wants done on a share, with a record of the sessions it ran on and of what came of that. */
  class Operation {
    ghost var turns: seq<Turn>

    constructor ()
      ensures turns == []
    {
      turns := [];
    }

    method Run(session: Session) returns (failure: Option<Failure>)
      requires session.live
      modifies this
      ensures turns == old(turns) + [Turn(session, failure)]
    {
      failure := *;
      turns := turns + [Turn(session, failure)];
    }
  }

  datatype Turn = Turn(session: Session, failure: Option<Failure>)

  ghost predicate LostAtFirst(turns: seq<Turn>) {
    turns != [] && turns[0].failure == Some(ConnectionLost)
  }

  /**
   An operation began on the session that was kept, or else on one that was dialed for it. It ran again exactly if the
   first run lost the connection and another dial succeeded, and then on the session dialed; the result is that of
   the last run. Nothing else was dialed.
   */
  ghost predicate Retried(kept: Session?, said: seq<Exchange>, turns: seq<Turn>, failure: Option<Failure>) {
    && (forall i :: 0 <= i < |said| ==> said[i].Dial?)
    && |said| == (if kept == null then 1 else 0) + (if LostAtFirst(turns) then 1 else 0)
    && (turns == [] <==> kept == null && said[0].session == null)
    && (turns != [] ==> turns[0].session == if kept == null then said[0].session else kept)
    && |turns| <= 2 && (|turns| == 2 <==> LostAtFirst(turns) && said[|said| - 1].session != null)
    && (|turns| == 2 ==> turns[1].session == said[|said| - 1].session)
    && failure == if turns == [] then Some(Refused(Unavailable)) else turns[|turns| - 1].failure
  }

  /** What the last answer was. */
  ghost function Verdict(said: seq<Exchange>): Option<Failure> {
    if said == [] then None
    else match said[|said| - 1]
      case Dial(session) => if session == null then Some(Refused(Unavailable)) else None
      case Asked(_, _, failure) => failure
  }

  /** The server was asked for `calls` in this order, up to the first failure. */
  ghost predicate InOrder(over: Session, calls: seq<Call>, said: seq<Exchange>) {
    && |said| <= |calls| && (Verdict(said).None? ==> |said| == |calls|)
    && forall i :: 0 <= i < |said| ==>
      said[i] == Asked(over, calls[i], if i == |said| - 1 then Verdict(said) else None)
  }

  /** The same over the session that was kept, or else over one that was dialed; without a session nothing is asked. */
  ghost predicate InOrderFrom(kept: Session?, calls: seq<Call>, said: seq<Exchange>) {
    if kept != null then InOrder(kept, calls, said)
    else
      && said != [] && said[0].Dial?
      && if said[0].session == null then |said| == 1 else InOrder(said[0].session, calls, said[1..])
  }

  /** The session that is kept after that. */
  ghost function KeptAfter(kept: Session?, said: seq<Exchange>): Session? {
    if Verdict(said) == Some(ConnectionLost) then null
    else if kept == null && said != [] && said[0].Dial? then said[0].session
    else kept
  }

  /** What was asked over a session counts together with the dial that it took to have it. */
  lemma AskedFrom(kept: Session?, over: Session, calls: seq<Call>, start: seq<Exchange>, mid: seq<Exchange>,
                  log: seq<Exchange>)
    requires mid <= log && mid == start + (if kept == null then [Dial(over)] else [])
    requires InOrder(over, calls, log[|mid|..]) && calls != [] && (kept != null ==> over == kept)
    ensures InOrderFrom(kept, calls, log[|start|..]) && Verdict(log[|start|..]) == Verdict(log[|mid|..])
    ensures KeptAfter(kept, log[|start|..]) == if Verdict(log[|mid|..]) == Some(ConnectionLost) then null else over
  {
    var said := log[|mid|..];
    assert said != [];
    assert log[|start|..] == mid[|start|..] + said;
    if kept == null {
      assert log[|start|..][1..] == said;
    }
  }

  /** How an open is answered: not at all for a bad path or a closed backend, and else by the server alone. */
  ghost predicate Answers(form: Result<string>, calls: seq<Call>, closed: bool, kept: Session?, now: Session?,
                          start: seq<Exchange>, log: seq<Exchange>, r: Result<Stream>)
  {
    && start <= log
    && if form.Err? then r == Err(InvalidInput) && log == start && now == kept
       else if closed then r == Err(Unavailable) && log == start
       else
         && InOrderFrom(kept, calls, log[|start|..]) && Follows(r, Verdict(log[|start|..]))
         && now == KeptAfter(kept, log[|start|..])
  }

  lemma Answered(form: Result<string>, calls: seq<Call>, kept: Session?, over: Session, now: Session?,
                 start: seq<Exchange>, mid: seq<Exchange>, log: seq<Exchange>, r: Result<Stream>)
    requires mid <= log && mid == start + (if kept == null then [Dial(over)] else [])
    requires InOrder(over, calls, log[|mid|..]) && calls != [] && (kept != null ==> over == kept) && form.Ok?
    requires Follows(r, Verdict(log[|mid|..]))
    requires now == if Verdict(log[|mid|..]) == Some(ConnectionLost) then null else over
    ensures Answers(form, calls, false, kept, now, start, log, r)
  {
    AskedFrom(kept, over, calls, start, mid, log);
  }

  lemma NoSession(form: Result<string>, calls: seq<Call>, closed: bool, start: seq<Exchange>, log: seq<Exchange>)
    requires form.Ok? && log == start + if closed then [] else [Dial(null)]
    ensures Answers(form, calls, closed, null, null, start, log, Err(Unavailable))
  {
    Tail(start, if closed then [] else [Dial(null)]);
  }

  ghost predicate Follows(r: Result<Stream>, verdict: Option<Failure>) {
    if verdict.None? then r.Ok? else r == Err(ErrorOf(verdict.value))
  }

  function ErrorOf(failure: Failure): Error {
    match failure
    case ConnectionLost => Io(0)
    case Refused(error) => error
  }

  /** `dialed` are the sessions the backend has ever kept, and `handles` its streams that are not closed. */
  class SmbBackend {
    var session: Session?
    var leases: nat
    var closed: bool
    ghost var dialed: set<Session>
    ghost var handles: set<Stream>
    ghost var log: seq<Exchange>

    /** The leases count the open streams; only the kept session is live; a closed backend keeps none. */
    ghost predicate Valid()
      reads this, dialed, handles
    {
      LeasesCount() && (forall h :: h in handles ==> !h.closed) && SessionKept()
    }

    /** The same while one stream is being closed. */
    ghost predicate ValidBut(stream: Stream)
      reads this, dialed, handles
    {
      LeasesCount() && stream in handles && (forall h :: h in handles && h != stream ==> !h.closed) && SessionKept()
    }

    ghost predicate LeasesCount()
      reads this, handles
    {
      leases == |handles| && forall h :: h in handles ==> h.backend == this
    }

    ghost predicate SessionKept()
      reads this, dialed
    {
      && (session != null ==> session in dialed && session.live)
      && (forall s :: s in dialed && s.live ==> s == session)
      && (closed ==> session == null)
    }

    constructor ()
      ensures Valid() && session == null && !closed && handles == {} && fresh(dialed) && log == []
    {
      session, leases, closed, dialed, handles, log := null, 0, false, {}, {}, [];
    }

    /** Asks the server something; the answer is arbitrary. */
    method Ask(over: Session, call: Call) returns (failure: Option<Failure>)
      modifies this`log
      ensures log == old(log) + [Asked(over, call, failure)]
    {
      failure := *;
      log := log + [Asked(over, call, failure)];
    }

    /** A new session, if the server is there and lets the backend in. */
    method DialSession() returns (made: Session?)
      modifies this`log
      ensures log == old(log) + [Dial(made)]
      ensures made != null ==> fresh(made) && made.live
    {
      made := null;
      var reached: bool := *;
      if reached {
        made := new Session();
      }
      log := log + [Dial(made)];
    }

    method EnsureSession() returns (r: Result<Session>)
      requires Valid()
      modifies this`session, this`dialed, this`log
      ensures Valid() && dialed >= old(dialed) && fresh(dialed - old(dialed))
      ensures r.Ok? ==> r.value == session && r.value.live && !closed
      ensures r.Err? ==> r == Err(Unavailable) && session == null && dialed == old(dialed)
      ensures closed ==> r.Err? && log == old(log)
      ensures old(session) != null ==> r.Ok? && session == old(session) && dialed == old(dialed) && log == old(log)
      ensures !closed && old(session) == null ==> log == old(log) + [Dial(session)] && (r.Ok? <==> session != null)
      ensures old(session) == null && r.Ok? ==> fresh(r.value)
    {
      if closed {
        return Err(Unavailable);
      }
      if session != null {
        return Ok(session);
      }
      var dialing := DialSession();
      if dialing == null {
        return Err(Unavailable);
      }
      session := dialing;
      dialed := dialed + {session};
      return Ok(session);
    }

    method InvalidateSession()
      requires Valid()
      modifies this`session, session
      ensures Valid() && session == null
      ensures forall s :: s in dialed ==> !s.live
    {
      if session != null {
        session.Close();
        session := null;
      }
    }

    /** Drops a session that may have idled out, but never from under a stream. */
    method InvalidateIdle()
      requires Valid()
      modifies this`session, session
      ensures Valid()
      ensures handles != {} ==> session == old(session)
      ensures handles != {} ==> forall s :: s in dialed ==> s.live == old(s.live)
      ensures handles == {} ==> session == null
    {
      if leases > 0 {
        return;
      }
      InvalidateSession();
    }

    method ConnectionCheck(failure: Failure)
      requires Valid()
      modifies this`session, session
      ensures Valid()
      ensures session == if failure.ConnectionLost? then null else old(session)
      ensures !failure.ConnectionLost? && session != null ==> session.live == old(session.live)
    {
      if failure.ConnectionLost? {
        InvalidateSession();
      }
    }

    /**
     Runs an operation, and once more after a lost connection: never a third time, and the second time on
     a session dialed after the first one was closed. A session on which the connection was lost is not kept.
     */
    method WithShare(op: Operation) returns (failure: Option<Failure>)
      requires Valid()
      modifies this`session, this`dialed, this`log, session, op
      ensures Valid() && dialed >= old(dialed) && fresh(dialed - old(dialed))
      ensures old(op.turns) <= op.turns && old(log) <= log
      ensures closed ==> failure == Some(Refused(Unavailable)) && op.turns == old(op.turns) && log == old(log)
      ensures closed ==> dialed == old(dialed)
      ensures !closed ==> Retried(old(session), log[|old(log)|..], op.turns[|old(op.turns)|..], failure)
      ensures |op.turns| == |old(op.turns)| + 2 ==>
        var first, second := op.turns[|old(op.turns)|].session, op.turns[|old(op.turns)| + 1].session;
        fresh(second) && first != second && !first.live
      ensures session == if op.turns == old(op.turns) || failure == Some(ConnectionLost) then null
                         else op.turns[|op.turns| - 1].session
    {
      ghost var start, before, kept := log, op.turns, session;
      var ensured := EnsureSession();
      ghost var said := if kept == null && !closed then [Dial(session)] else [];
      Tail(start, said);
      if ensured.Err? {
        Tail(before, []);
        return Some(Refused(ensured.error));
      }
      failure := op.Run(ensured.value);
      ghost var first := Turn(ensured.value, failure);
      Tail(before, [first]);
      if failure.None? || !failure.value.ConnectionLost? {
        return;
      }
      InvalidateSession();
      var again := EnsureSession();
      said := said + [Dial(session)];
      assert log == start + said;
      Tail(start, said);
      if again.Err? {
        return;
      }
      failure := op.Run(again.value);
      assert op.turns == before + [first, Turn(again.value, failure)];
      Tail(before, [first, Turn(again.value, failure)]);
      if failure == Some(ConnectionLost) {
        InvalidateSession();
      }
    }

    /** A stream that is open from now on, unless the server has failed to open it. */
    method Lease(failure: Option<Failure>, over: Session, writer: bool, path: string) returns (r: Result<Stream>)
      requires Valid()
      modifies this`leases, this`handles
      ensures Valid() && Follows(r, failure)
      ensures r.Err? ==> handles == old(handles)
      ensures r.Ok? ==> fresh(r.value) && handles == old(handles) + {r.value} && r.value.backend == this
      ensures r.Ok? ==> r.value.session == over && r.value.writer == writer && r.value.path == path
    {
      if failure.Some? {
        return Err(ErrorOf(failure.value));
      }
      var stream := new Stream(this, over, writer, path);
      leases := leases + 1;
      handles := handles + {stream};
      return Ok(stream);
    }

    /** Opens a file for reading, which must not turn out to be a directory. */
    method OpenReader(path: string) returns (r: Result<Stream>)
      requires Valid()
      modifies this, session
      ensures Opens(old(closed), old(handles), r, false, path)
      ensures dialed >= old(dialed) && fresh(dialed - old(dialed)) && (r.Ok? ==> fresh(r.value))
      ensures closed ==> dialed == old(dialed)
      ensures Answers(Form(path), CallsFor(false, path), closed, old(session), session, old(log), log, r)
    {
      ghost var kept, start := session, log;
      var cleaned := CleanFile(path);
      if cleaned.Err? {
        return Err(InvalidInput);
      }
      var ensured := EnsureSession();
      if ensured.Err? {
        NoSession(Form(path), CallsFor(false, path), closed, start, log);
        return Err(ensured.error);
      }
      ghost var mid := log;
      var failure := AskToOpen(ensured.value, cleaned.value);
      r := Lease(failure, ensured.value, false, cleaned.value);
      Answered(Form(path), CallsFor(false, path), kept, ensured.value, session, start, mid, log, r);
    }

    /** Asks for `call`, and lets the session go if the connection is lost over it. */
    method AskOnce(over: Session, call: Call, ghost calls: seq<Call>, ghost said: seq<Exchange>)
      returns (failure: Option<Failure>, ghost next: seq<Exchange>)
      requires Valid() && session == over && |said| < |calls| && calls[|said|] == call
      requires InOrder(over, calls[..|said|], said) && Verdict(said).None?
      modifies this`session, this`log, session
      ensures Valid() && log == old(log) + [Asked(over, call, failure)] && next == said + [Asked(over, call, failure)]
      ensures Verdict(next) == failure && session == if failure == Some(ConnectionLost) then null else over
      ensures if failure.Some? then InOrder(over, calls, next) else InOrder(over, calls[..|next|], next)
    {
      failure := Ask(over, call);
      next := said + [Asked(over, call, failure)];
      if failure.Some? {
        ConnectionCheck(failure.value);
      }
    }

    /** Asks whether a path is a directory, which is refused where a file is wanted. */
    method AskKind(over: Session, path: string, ghost calls: seq<Call>, ghost said: seq<Exchange>)
      returns (failure: Option<Failure>, ghost next: seq<Exchange>)
      requires |said| < |calls| && calls[|said|] == KindOfFile(path)
      requires InOrder(over, calls[..|said|], said) && Verdict(said).None?
      modifies this`log
      ensures log == old(log) + [Asked(over, KindOfFile(path), failure)]
      ensures next == said + [Asked(over, KindOfFile(path), failure)]
      ensures failure.Some? ==> failure == Some(Refused(InvalidInput))
      ensures if failure.Some? then InOrder(over, calls, next) else InOrder(over, calls[..|next|], next)
    {
      var isDir: bool := *;
      failure := if isDir then Some(Refused(InvalidInput)) else None;
      log := log + [Asked(over, KindOfFile(path), failure)];
      next := said + [Asked(over, KindOfFile(path), failure)];
    }

    method AskToOpen(over: Session, path: string) returns (failure: Option<Failure>)
      requires Valid() && session == over
      modifies this`session, this`log, session
      ensures Valid() && old(log) <= log
      ensures InOrder(over, ReadingCalls(path), log[|old(log)|..]) && Verdict(log[|old(log)|..]) == failure
      ensures session == if failure == Some(ConnectionLost) then null else over
    {
      ghost var calls, said := ReadingCalls(path), [];
      failure, said := AskOnce(over, OpenFile(path), calls, said);
      if failure.Some? {
        return;
      }
      failure, said := AskOnce(over, StatFile(path), calls, said);
      if failure.Some? {
        return;
      }
      failure, said := AskKind(over, path, calls, said);
    }

    /** Creates a file for writing, after the directories above it. */
    method Create(path: string) returns (r: Result<Stream>)
      requires Valid()
      modifies this, session
      ensures Opens(old(closed), old(handles), r, true, path)
      ensures dialed >= old(dialed) && fresh(dialed - old(dialed)) && (r.Ok? ==> fresh(r.value))
      ensures closed ==> dialed == old(dialed)
      ensures Answers(Form(path), CallsFor(true, path), closed, old(session), session, old(log), log, r)
    {
      ghost var kept, start := session, log;
      var cleaned := CleanFile(path);
      if cleaned.Err? {
        return Err(InvalidInput);
      }
      var ensured := EnsureSession();
      if ensured.Err? {
        NoSession(Form(path), CallsFor(true, path), closed, start, log);
        return Err(ensured.error);
      }
      ghost var mid := log;
      var failure := AskToCreate(ensured.value, cleaned.value);
      r := Lease(failure, ensured.value, true, cleaned.value);
      Answered(Form(path), CallsFor(true, path), kept, ensured.value, session, start, mid, log, r);
    }

    method AskToCreate(over: Session, path: string) returns (failure: Option<Failure>)
      requires Valid() && session == over
      modifies this`session, this`log, session
      ensures Valid() && old(log) <= log
      ensures InOrder(over, WritingCalls(path), log[|old(log)|..]) && Verdict(log[|old(log)|..]) == failure
      ensures session == if failure == Some(ConnectionLost) then null else over
    {
      ghost var calls, said := WritingCalls(path), [];
      var dir := Paths.Dir(path);
      if dir != "." {
        failure, said := AskOnce(over, MakeDirs(dir), calls, said);
        if failure.Some? {
          return;
        }
      }
      failure, said := AskOnce(over, CreateFile(path), calls, said);
    }

    /** One more stream is open if the call succeeded, and none otherwise. */
    ghost predicate Opens(wasClosed: bool, before: set<Stream>, r: Result<Stream>, writer: bool, path: string)
      reads this, dialed, handles
    {
      && Valid() && closed == wasClosed
      && (r.Err? ==> handles == before)
      && (r.Ok? ==> r.value !in before && handles == before + {r.value} && r.value.session == session)
      && (r.Ok? ==> r.value.writer == writer && Form(path) == Ok(r.value.path) && r.value.backend == this)
    }

    /** No session afterwards, and none ever again. Streams that are still open keep their leases. */
    method Close()
      requires Valid()
      modifies this`closed, this`session, session
      ensures Valid() && closed
      ensures forall s :: s in dialed ==> !s.live
    {
      closed := true;
      if session != null {
        session.Close();
        session := null;
      }
    }

    /** Takes back the lease of a stream that is closed by now. */
    method ReleaseLease(ghost stream: Stream)
      requires ValidBut(stream)
      modifies this`leases, this`handles
      ensures Valid() && handles == old(handles) - {stream} && leases + 1 == old(leases)
    {
      if leases > 0 {
        leases := leases - 1;
      }
      handles := handles - {stream};
    }
  }

  /** The path of a file, cleaned; the root is none. */
  function Form(path: string): Result<string> {
    var form := Paths.RelativeForm(path);
    if form.Err? || form.value == "" then Err(InvalidInput) else form
  }

  method CleanFile(path: string) returns (cleaned: Result<string>)
    ensures cleaned == Form(path)
  {
    cleaned := Paths.CleanRelativePath(path);
    if cleaned.Err? || cleaned.value == "" {
      cleaned := Err(InvalidInput);
    }
  }

  /** What is asked of the server to open a file for reading or to create it. */
  function CallsFor(writer: bool, path: string): seq<Call> {
    if Form(path).Err? then [] else if writer then WritingCalls(Form(path).value) else ReadingCalls(Form(path).value)
  }

  function ReadingCalls(path: string): seq<Call> { [OpenFile(path), StatFile(path), KindOfFile(path)] }

  function WritingCalls(path: string): seq<Call> {
    (if Paths.Dir(path) == "." then [] else [MakeDirs(Paths.Dir(path))]) + [CreateFile(path)]
  }

  class Stream {
    const backend: SmbBackend
    const session: Session
    const writer: bool
    const path: string
    var closed: bool
    var failed: bool

    constructor (backend: SmbBackend, session: Session, writer: bool, path: string)
      ensures this.backend == backend && this.session == session && !closed && !failed
      ensures this.writer == writer && this.path == path
    {
      this.backend, this.session, this.closed, this.failed := backend, session, false, false;
      this.writer, this.path := writer, path;
    }

    /**
     A read or a write on the open file; `cancelled` is the state of the stream's context. Its result is what the
     server answers, unless the stream is closed or its context cancelled, when the server is not asked.
     */
    method Transfer(cancelled: bool) returns (failure: Option<Failure>)
      requires backend.Valid() && (!closed ==> this in backend.handles)
      modifies this`failed, backend`session, backend`log, backend.session
      ensures backend.Valid() && closed == old(closed)
      ensures closed ==> failure == Some(Refused(InvalidInput))
      ensures !closed && cancelled ==> failure == Some(Refused(Canceled))
      ensures backend.log == old(backend.log) +
        if closed || cancelled then [] else [Asked(session, Move(path), failure)]
      ensures backend.session == if failure == Some(ConnectionLost) then null else old(backend.session)
      ensures failed <==> old(failed) || (writer && !closed && failure.Some?)
    {
      if closed {
        return Some(Refused(InvalidInput));
      }
      if cancelled {
        failed := failed || writer;
        return Some(Refused(Canceled));
      }
      failure := backend.Ask(session, Move(path));
      if failure.Some? {
        failed := failed || writer;
        backend.ConnectionCheck(failure.value);
      }
    }

    /**
     Gives the lease back, the first time it is called; after that it does nothing. A writer that failed, or
     whose context is cancelled, removes its file over whatever session the backend keeps by then.
     */
    method Close(cancelled: bool) returns (failure: Option<Failure>)
      requires backend.Valid() && (!closed ==> this in backend.handles)
      modifies this, backend`leases, backend`handles, backend`log
      ensures backend.Valid() && closed && old(backend.log) <= backend.log
      ensures backend.handles == old(backend.handles) - {this}
      ensures old(closed) ==> backend.leases == old(backend.leases) && failure.None? && backend.log == old(backend.log)
      ensures !old(closed) ==> backend.leases + 1 == old(backend.leases)
      ensures !old(closed) ==>
        ClosedOver(backend.session, backend.log[|old(backend.log)|..], writer, cancelled, old(failed), failure)
    {
      if closed {
        return None;
      }
      ghost var start := backend.log;
      closed := true;
      failure := backend.Ask(session, CloseFile(path));
      ghost var closing, mid := Asked(session, CloseFile(path), failure), backend.log;
      if failure.Some? {
        failed := failed || writer;
      }
      RemoveSpoilt(cancelled);
      ghost var removal := backend.log[|mid|..];
      assert backend.log == start + ([closing] + removal);
      Tail(start, [closing] + removal);
      backend.ReleaseLease(this);
      if failure.None? && writer && cancelled {
        failure := Some(Refused(Canceled));
      }
    }

    /** The file of a writer that did not come to the end is removed, if there is a session for that. */
    method RemoveSpoilt(cancelled: bool)
      modifies backend`log
      ensures old(backend.log) <= backend.log
      ensures Removal(backend.session, backend.log[|old(backend.log)|..], writer && (failed || cancelled))
    {
      if writer && (failed || cancelled) && backend.session != null {
        var _ := backend.Ask(backend.session, RemoveFile(path));
      }
    }

    ghost predicate Removal(kept: Session?, said: seq<Exchange>, spoilt: bool) {
      if spoilt && kept != null
      then |said| == 1 && said[0].Asked? && said[0].over == kept && said[0].call == RemoveFile(path)
      else said == []
    }

    /** The file is closed, and removed exactly if it was not written to the end and there is a session to remove it. */
    ghost predicate ClosedOver(kept: Session?, said: seq<Exchange>, writer: bool, cancelled: bool, failedBefore: bool,
                               failure: Option<Failure>)
    {
      && said != [] && said[0].Asked? && said[0] == Asked(session, CloseFile(path), said[0].failure)
      && Removal(kept, said[1..], writer && (failedBefore || cancelled || said[0].failure.Some?))
      && failure == if said[0].failure.None? && writer && cancelled then Some(Refused(Canceled)) else said[0].failure
    }
  }

  /* ---------- All runs ---------- */

  datatype Request =
    | UseShare
    | OpenStream(writer: bool, path: string)
    | UseStream(k: nat, cancelled: bool)
    | CloseStream(k: nat, cancelled: bool)
    | DropIdle
    | CloseBackend

  function OpenCount(streams: seq<Stream>): nat
    reads streams
  {
    if streams == [] then 0
    else OpenCount(streams[..|streams| - 1]) + if streams[|streams| - 1].closed then 0 else 1
  }

  /** `handles` are those of `streams` that are not closed. */
  ghost predicate OpenOnes(streams: seq<Stream>, handles: set<Stream>)
    reads streams
  {
    && (forall i, j :: 0 <= i < j < |streams| ==> streams[i] != streams[j])
    && (forall k :: 0 <= k < |streams| ==> (streams[k] in handles <==> !streams[k].closed))
    && (forall h :: h in handles ==> h in streams)
  }

  lemma {:induction false} CountsOpenOnes(streams: seq<Stream>, handles: set<Stream>)
    requires OpenOnes(streams, handles)
    ensures |handles| == OpenCount(streams)
  {
    if streams == [] {
      assert handles == {};
    } else {
      var init, last := streams[..|streams| - 1], streams[|streams| - 1];
      assert forall k :: 0 <= k < |init| ==> init[k] == streams[k];
      CountsOpenOnes(init, handles - {last});
    }
  }

  /** `streams` are all that the backend has handed out. */
  ghost predicate Tracks(b: SmbBackend, streams: seq<Stream>)
    reads b, b.dialed, b.handles, streams
  {
    b.Valid() && OpenOnes(streams, b.handles) && forall k :: 0 <= k < |streams| ==> streams[k].backend == b
  }

  method OpenEither(b: SmbBackend, writer: bool, path: string) returns (r: Result<Stream>)
    requires b.Valid()
    modifies b, b.session
    ensures b.Opens(old(b.closed), old(b.handles), r, writer, path) && (r.Ok? ==> fresh(r.value))
    ensures b.dialed >= old(b.dialed) && fresh(b.dialed - old(b.dialed)) && (b.closed ==> b.dialed == old(b.dialed))
  {
    if writer {
      r := b.Create(path);
    } else {
      r := b.OpenReader(path);
    }
  }

  method ServeOpen(b: SmbBackend, streams: seq<Stream>, writer: bool, path: string) returns (grown: seq<Stream>)
    requires Tracks(b, streams)
    modifies b, b.session
    ensures Tracks(b, grown) && b.closed == old(b.closed)
    ensures grown == streams || (|grown| == |streams| + 1 && grown[..|streams|] == streams && fresh(grown[|streams|]))
    ensures b.dialed >= old(b.dialed) && fresh(b.dialed - old(b.dialed))
    ensures b.closed ==> b.dialed == old(b.dialed)
  {
    var r := OpenEither(b, writer, path);
    grown := if r.Ok? then streams + [r.value] else streams;
  }

  method ServeClose(b: SmbBackend, ghost streams: seq<Stream>, stream: Stream, cancelled: bool)
    requires Tracks(b, streams) && stream in streams
    modifies b`leases, b`handles, b`log, stream
    ensures Tracks(b, streams)
  {
    var _ := stream.Close(cancelled);
  }

  method ServeTransfer(b: SmbBackend, ghost streams: seq<Stream>, stream: Stream, cancelled: bool)
    requires Tracks(b, streams) && stream in streams
    modifies b`session, b`log, b.session, stream`failed
    ensures Tracks(b, streams)
  {
    var _ := stream.Transfer(cancelled);
  }

  method ServeOne(b: SmbBackend, request: Request, streams: seq<Stream>) returns (grown: seq<Stream>)
    requires Tracks(b, streams)
    modifies b, b.dialed, streams
    ensures Tracks(b, grown)
    ensures grown == streams || (|grown| == |streams| + 1 && grown[..|streams|] == streams && fresh(grown[|streams|]))
    ensures b.dialed >= old(b.dialed) && fresh(b.dialed - old(b.dialed))
    ensures old(b.closed) ==> b.closed && b.dialed == old(b.dialed)
  {
    grown := streams;
    match request {
      case UseShare =>
        var op := new Operation();
        var _ := b.WithShare(op);
      case OpenStream(writer, path) => grown := ServeOpen(b, streams, writer, path);
      case UseStream(k, cancelled) =>
        if k < |streams| {
          ServeTransfer(b, streams, streams[k], cancelled);
        }
      case CloseStream(k, cancelled) =>
        if k < |streams| {
          ServeClose(b, streams, streams[k], cancelled);
        }
      case DropIdle => b.InvalidateIdle();
      case CloseBackend => b.Close();
    }
  }

  /**
   Any sequence of requests, to any answers of the server: the leases are always the number of streams
   handed out and not closed, each stream closed as often as anyone likes. A backend that was closed
   before dials no more, and none of its sessions comes back to life.
   */
  method Serve(b: SmbBackend, requests: seq<Request>) returns (streams: seq<Stream>)
    requires b.Valid() && b.handles == {}
    modifies b, b.dialed
    ensures Tracks(b, streams) && b.leases == OpenCount(streams)
    ensures old(b.closed) ==> b.closed && b.dialed == old(b.dialed) && forall s :: s in b.dialed ==> !s.live
  {
    streams := [];
    for i := 0 to |requests|
      invariant Tracks(b, streams)
      invariant forall k :: 0 <= k < |streams| ==> fresh(streams[k])
      invariant b.dialed >= old(b.dialed) && fresh(b.dialed - old(b.dialed))
      invariant old(b.closed) ==> b.closed && b.dialed == old(b.dialed)
    {
      var grown := ServeOne(b, requests[i], streams);
      assert forall k :: 0 <= k < |streams| ==> grown[k] == grown[..|streams|][k];
      streams := grown;
    }
    CountsOpenOnes(streams, b.handles);
  }
}
