/**
 Logins of one address that overlap in any way. A login reads the clock before it waits for the lock, so that
 checks can come in another order than the readings, and a check may find a list that one with a later reading
 has already pruned.
 */
module LoginOverlaps {
  import opened Logins

  /**
   The recorded failures, the list that is kept of them, the logins that have read the clock and wait for their
   check, and those that have passed it; each by its time.
   */
  datatype State = State(recorded: seq<Time>, kept: seq<Time>, waiting: seq<Time>, passed: seq<Time>, clock: Time)

  datatype Move = Read(now: Time) | Look(i: nat) | Fail(i: nat) | End(i: nat)

  /** At most `k` logins of the address are under way at once, from reading the clock to their end. */
  predicate CanMove(k: nat, s: State, move: Move) {
    match move
    case Read(now) => s.clock <= now && |s.waiting| + |s.passed| < k
    case Look(i) => i < |s.waiting|
    case Fail(i) => i < |s.passed|
    case End(i) => i < |s.passed|
  }

  function Next(k: nat, s: State, move: Move): State
    requires CanMove(k, s, move)
  {
    match move
    case Read(now) => s.(waiting := s.waiting + [now], clock := now)
    case Look(i) =>
      var kept := Recent(s.kept, s.waiting[i] - LOGIN_ATTEMPT_WINDOW);
      s.(kept := kept, waiting := Without(s.waiting, i),
         passed := if |kept| < MAX_LOGIN_ATTEMPTS then s.passed + [s.waiting[i]] else s.passed)
    case Fail(i) =>
      s.(recorded := s.recorded + [s.passed[i]], kept := s.kept + [s.passed[i]], passed := Without(s.passed, i))
    case End(i) => s.(passed := Without(s.passed, i))
  }

  ghost predicate Moves(k: nat, s: State, moves: seq<Move>, end: State)
    decreases |moves|
  {
    if moves == [] then s == end
    else CanMove(k, s, moves[0]) && Moves(k, Next(k, s, moves[0]), moves[1..], end)
  }

  function Start(now: Time): State { State([], [], [], [], now) }

  /* ---------- The bound ---------- */

  predicate UpTo(times: seq<Time>, clock: Time) {
    forall i :: 0 <= i < |times| ==> times[i] <= clock
  }

  /** The list has all failures after some time that no window ending now or later goes back to. */
  ghost predicate ListOk(s: State, pruned: Time) {
    Account(s.kept, s.recorded, pruned).Ok(s.clock)
  }

  /** While a window can still get logins its bound is 9 + k; those that the clock has passed may still fill up. */
  predicate WindowOk(k: nat, s: State, to: Time) {
    var counted := InWindow(s.recorded, to) + InWindow(s.passed, to);
    if s.clock <= to then counted <= MAX_LOGIN_ATTEMPTS - 1 + k
    else counted + InWindow(s.waiting, to) <= MAX_LOGIN_ATTEMPTS - 2 + 2 * k
  }

  ghost predicate Good(k: nat, s: State, pruned: Time) {
    && |s.waiting| + |s.passed| <= k
    && UpTo(s.recorded, s.clock) && UpTo(s.waiting, s.clock) && UpTo(s.passed, s.clock)
    && ListOk(s, pruned) && forall to :: WindowOk(k, s, to)
  }

  lemma {:induction false} InWindowOfLater(times: seq<Time>, clock: Time, to: Time)
    requires UpTo(times, clock) && clock <= to
    ensures InWindow(times, to) == |Recent(times, to - LOGIN_ATTEMPT_WINDOW)|
  {
    if times != [] {
      InWindowOfLater(times[..|times| - 1], clock, to);
    }
  }

  lemma {:induction false} RecentMonotone(times: seq<Time>, a: Time, b: Time)
    requires a <= b
    ensures |Recent(times, b)| <= |Recent(times, a)|
  {
    if times != [] {
      RecentMonotone(times[..|times| - 1], a, b);
    }
  }

  lemma ReadKeeps(k: nat, s: State, now: Time, pruned: Time)
    requires Good(k, s, pruned) && CanMove(k, s, Read(now))
    ensures Good(k, Next(k, s, Read(now)), pruned)
  {
    var t := Next(k, s, Read(now));
    forall to
      ensures WindowOk(k, t, to)
    {
      assert WindowOk(k, s, to);
      InWindowAppend(s.waiting, [now], to);
      assert InWindow([now], to) == if to - LOGIN_ATTEMPT_WINDOW < now <= to then 1 else 0;
    }
  }

  /** A check that passes while the window is open finds less than ten of the window's failures. */
  lemma OpenWindowIsSeen(s: State, now: Time, to: Time, pruned: Time)
    requires ListOk(s, pruned) && UpTo(s.recorded, s.clock) && now <= s.clock <= to
    ensures InWindow(s.recorded, to) <= |Recent(s.kept, now - LOGIN_ATTEMPT_WINDOW)|
  {
    var since := to - LOGIN_ATTEMPT_WINDOW;
    InWindowOfLater(s.recorded, s.clock, to);
    RecentTwice(s.kept, pruned, since);
    RecentTwice(s.recorded, pruned, since);
    RecentMonotone(s.kept, now - LOGIN_ATTEMPT_WINDOW, since);
  }

  lemma LookWindow(k: nat, s: State, i: nat, pruned: Time, to: Time)
    requires Good(k, s, pruned) && CanMove(k, s, Look(i))
    ensures WindowOk(k, Next(k, s, Look(i)), to)
  {
    assert WindowOk(k, s, to);
    InWindowWithout(s.waiting, i, to);
    InWindowAppend(s.passed, [s.waiting[i]], to);
    if s.clock <= to {
      OpenWindowIsSeen(s, s.waiting[i], to, pruned);
    }
  }

  lemma LookKeeps(k: nat, s: State, i: nat, pruned: Time)
    requires Good(k, s, pruned) && CanMove(k, s, Look(i))
    ensures Good(k, Next(k, s, Look(i)), Later(pruned, s.waiting[i] - LOGIN_ATTEMPT_WINDOW))
  {
    AccountLooked(Account(s.kept, s.recorded, pruned), s.clock, s.waiting[i]);
    forall to
      ensures WindowOk(k, Next(k, s, Look(i)), to)
    {
      LookWindow(k, s, i, pruned, to);
    }
  }

  lemma FailKeeps(k: nat, s: State, i: nat, pruned: Time)
    requires Good(k, s, pruned) && CanMove(k, s, Fail(i))
    ensures Good(k, Next(k, s, Fail(i)), pruned)
  {
    var t := Next(k, s, Fail(i));
    AccountRecorded(Account(s.kept, s.recorded, pruned), s.passed[i], s.clock);
    forall to
      ensures WindowOk(k, t, to)
    {
      assert WindowOk(k, s, to);
      InWindowWithout(s.passed, i, to);
      InWindowAppend(s.recorded, [s.passed[i]], to);
    }
  }

  lemma EndKeeps(k: nat, s: State, i: nat, pruned: Time)
    requires Good(k, s, pruned) && CanMove(k, s, End(i))
    ensures Good(k, Next(k, s, End(i)), pruned)
  {
    var t := Next(k, s, End(i));
    forall to
      ensures WindowOk(k, t, to)
    {
      assert WindowOk(k, s, to);
      InWindowWithout(s.passed, i, to);
    }
  }

  ghost predicate Sound(k: nat, s: State) {
    exists pruned :: Good(k, s, pruned)
  }

  lemma MoveKeeps(k: nat, s: State, move: Move)
    requires Sound(k, s) && CanMove(k, s, move)
    ensures Sound(k, Next(k, s, move))
  {
    var pruned :| Good(k, s, pruned);
    match move {
      case Read(now) => ReadKeeps(k, s, now, pruned);
      case Look(i) => LookKeeps(k, s, i, pruned);
      case Fail(i) => FailKeeps(k, s, i, pruned);
      case End(i) => EndKeeps(k, s, i, pruned);
    }
  }

  lemma {:induction false} MovesKeep(k: nat, s: State, moves: seq<Move>, end: State)
    requires Sound(k, s) && Moves(k, s, moves, end)
    ensures Sound(k, end)
    decreases |moves|
  {
    if moves != [] {
      MoveKeeps(k, s, moves[0]);
      MovesKeep(k, Next(k, s, moves[0]), moves[1..], end);
    }
  }

  /**
   With at most `k` logins of an address under way at any time, every half-open window of five minutes, ending
   anywhere, holds at most 8 + 2k of its failures; and at most 9 + k while it is the last one.
   */
  lemma EveryWindowIsLimitedToo(k: nat, start: Time, moves: seq<Move>, end: State, to: Time)
    requires k >= 1 && Moves(k, Start(start), moves, end)
    ensures InWindow(end.recorded, to) <= MAX_LOGIN_ATTEMPTS - 2 + 2 * k
    ensures end.clock <= to ==> InWindow(end.recorded, to) <= MAX_LOGIN_ATTEMPTS - 1 + k
  {
    assert Good(k, Start(start), start - LOGIN_ATTEMPT_WINDOW);
    MovesKeep(k, Start(start), moves, end);
    var pruned :| Good(k, end, pruned);
    assert WindowOk(k, end, to);
  }

  /* ---------- The bound is met ---------- */

  lemma {:induction false} MovesSnoc(k: nat, s: State, moves: seq<Move>, end: State, move: Move)
    requires Moves(k, s, moves, end) && CanMove(k, end, move)
    ensures Moves(k, s, moves + [move], Next(k, end, move))
    decreases |moves|
  {
    if moves == [] {
      assert Moves(k, Next(k, end, move), [], Next(k, end, move));
      assert (moves + [move])[1..] == [];
    } else {
      MovesSnoc(k, Next(k, s, moves[0]), moves[1..], end, move);
      assert (moves + [move])[1..] == moves[1..] + [move];
    }
  }

  lemma {:induction false} ZerosRecent(n: nat, since: Time)
    ensures Recent(Zeros(n), since) == if since < 0 then Zeros(n) else []
  {
    if n > 0 {
      assert Zeros(n)[..n - 1] == Zeros(n - 1);
      assert Zeros(n) == Zeros(n - 1) + [0];
      ZerosRecent(n - 1, since);
    }
  }

  /** All readings are zero; so many failures are recorded and kept, so many logins wait, and so many have passed. */
  function AllZero(recorded: nat, kept: nat, waiting: nat, passed: nat, clock: Time): State {
    State(Zeros(recorded), Zeros(kept), Zeros(waiting), Zeros(passed), clock)
  }

  ghost predicate LeadsTo(k: nat, moves: seq<Move>, s: State) { Moves(k, Start(0), moves, s) }

  lemma MoreZeros(n: nat)
    ensures Zeros(n) + [0] == Zeros(n + 1) && Without(Zeros(n + 1), 0) == Zeros(n)
  {
  }

  /** `m` more logins read the clock. */
  lemma {:induction false} ReadMany(k: nat, before: seq<Move>, r: nat, w: nat, m: nat) returns (moves: seq<Move>)
    requires LeadsTo(k, before, AllZero(r, r, w, 0, 0)) && w + m <= k
    ensures LeadsTo(k, moves, AllZero(r, r, w + m, 0, 0))
  {
    moves := before;
    if m > 0 {
      moves := ReadMany(k, before, r, w, m - 1);
      MoreZeros(w + m - 1);
      MovesSnoc(k, Start(0), moves, AllZero(r, r, w + m - 1, 0, 0), Read(0));
      moves := moves + [Read(0)];
    }
  }

  /** A check passes while fewer than ten failures are listed. */
  lemma LookOne(k: nat, r: nat, kept: nat, w: nat, p: nat, clock: Time)
    requires kept < MAX_LOGIN_ATTEMPTS
    ensures CanMove(k, AllZero(r, kept, w + 1, p, clock), Look(0))
    ensures Next(k, AllZero(r, kept, w + 1, p, clock), Look(0)) == AllZero(r, kept, w, p + 1, clock)
  {
    ZerosRecent(kept, 0 - LOGIN_ATTEMPT_WINDOW);
    MoreZeros(w);
    MoreZeros(p);
  }

  /** So `m` that wait pass. */
  lemma {:induction false} LookMany(k: nat, before: seq<Move>, r: nat, kept: nat, m: nat, clock: Time)
    returns (moves: seq<Move>)
    requires LeadsTo(k, before, AllZero(r, kept, m, 0, clock)) && kept < MAX_LOGIN_ATTEMPTS
    ensures LeadsTo(k, moves, AllZero(r, kept, 0, m, clock))
  {
    moves := LookSome(k, before, r, kept, m, m, clock);
  }

  lemma {:induction false} LookSome(k: nat, before: seq<Move>, r: nat, kept: nat, m: nat, done: nat, clock: Time)
    returns (moves: seq<Move>)
    requires LeadsTo(k, before, AllZero(r, kept, m, 0, clock)) && kept < MAX_LOGIN_ATTEMPTS && done <= m
    ensures LeadsTo(k, moves, AllZero(r, kept, m - done, done, clock))
  {
    moves := before;
    if done > 0 {
      moves := LookSome(k, before, r, kept, m, done - 1, clock);
      LookOne(k, r, kept, m - done, done - 1, clock);
      MovesSnoc(k, Start(0), moves, AllZero(r, kept, m - done + 1, done - 1, clock), Look(0));
      moves := moves + [Look(0)];
    }
  }

  /** And `m` that have passed fail. */
  lemma {:induction false} FailMany(k: nat, before: seq<Move>, r: nat, kept: nat, w: nat, p: nat, m: nat, clock: Time)
    returns (moves: seq<Move>)
    requires LeadsTo(k, before, AllZero(r, kept, w, p + m, clock))
    ensures LeadsTo(k, moves, AllZero(r + m, kept + m, w, p, clock))
    decreases m
  {
    moves := before;
    if m > 0 {
      MoreZeros(r);
      MoreZeros(kept);
      MoreZeros(p + m - 1);
      MovesSnoc(k, Start(0), before, AllZero(r, kept, w, p + m, clock), Fail(0));
      moves := FailMany(k, before + [Fail(0)], r + 1, kept + 1, w, p, m - 1, clock);
    }
  }

  /** `m` logins at once, all of which fail, after `n` failures. */
  lemma Batch(k: nat, before: seq<Move>, n: nat, m: nat) returns (moves: seq<Move>)
    requires LeadsTo(k, before, AllZero(n, n, 0, 0, 0)) && m <= k && n < MAX_LOGIN_ATTEMPTS
    ensures LeadsTo(k, moves, AllZero(n + m, n + m, 0, 0, 0))
  {
    moves := ReadMany(k, before, n, 0, m);
    moves := LookMany(k, moves, n, n, m, 0);
    moves := FailMany(k, moves, n, n, 0, 0, m, 0);
  }

  lemma {:induction false} Alone(k: nat, n: nat) returns (moves: seq<Move>)
    requires k >= 1 && n < MAX_LOGIN_ATTEMPTS
    ensures LeadsTo(k, moves, AllZero(n, n, 0, 0, 0))
  {
    if n == 0 {
      moves := [];
      assert Zeros(0) == [];
    } else {
      moves := Alone(k, n - 1);
      moves := Batch(k, moves, n - 1, 1);
    }
  }

  /** One login reads the clock a whole window later, empties the list by its check, and ends well. */
  lemma LateOne(k: nat, before: seq<Move>, n: nat, m: nat) returns (moves: seq<Move>)
    requires LeadsTo(k, before, AllZero(n, n, m, 0, 0)) && m < k
    ensures LeadsTo(k, moves, AllZero(n, 0, m, 0, LOGIN_ATTEMPT_WINDOW))
  {
    var late := LOGIN_ATTEMPT_WINDOW;
    var s0 := AllZero(n, n, m, 0, 0);
    var s1 := Next(k, s0, Read(late));
    MovesSnoc(k, Start(0), before, s0, Read(late));
    var s2 := Next(k, s1, Look(m));
    ZerosRecent(n, 0);
    assert Zeros(0) == [] && Without(Zeros(m) + [late], m) == Zeros(m);
    MovesSnoc(k, Start(0), before + [Read(late)], s1, Look(m));
    assert Without([late], 0) == [];
    MovesSnoc(k, Start(0), before + [Read(late)] + [Look(m)], s2, End(0));
    moves := before + [Read(late)] + [Look(m)] + [End(0)];
  }

  /** For every `k` some run puts 8 + 2k failures into one window: twelve with two logins at a time. */
  lemma LimitIsReached(k: nat) returns (moves: seq<Move>, end: State)
    requires k >= 1
    ensures Moves(k, Start(0), moves, end) && InWindow(end.recorded, 0) == MAX_LOGIN_ATTEMPTS - 2 + 2 * k
  {
    var n, late := MAX_LOGIN_ATTEMPTS - 1 + k, LOGIN_ATTEMPT_WINDOW;
    moves := Alone(k, MAX_LOGIN_ATTEMPTS - 1);
    moves := Batch(k, moves, MAX_LOGIN_ATTEMPTS - 1, k);
    moves := ReadMany(k, moves, n, 0, k - 1);
    moves := LateOne(k, moves, n, k - 1);
    moves := LookMany(k, moves, n, 0, k - 1, late);
    moves := FailMany(k, moves, n, 0, 0, 0, k - 1, late);
    end := AllZero(n + k - 1, k - 1, 0, 0, late);
    ZerosCount(n + k - 1);
  }

  /* ---------- The service ---------- */

  /** The machine's moves are what the service does: those of `moves` that are possible are taken. */
  method OverlapAnyhow(s: Service, k: nat, ip: string, from: Time, moves: seq<Move>)
    returns (ghost taken: seq<Move>, end: State)
    requires s.Valid() && s.clock == from && At(s.history, ip) == At(s.failedLogins, ip) == []
    modifies s
    ensures s.Valid() && Moves(k, Start(from), taken, end)
    ensures At(s.history, ip) == end.recorded && At(s.failedLogins, ip) == end.kept
  {
    taken, end := [], Start(from);
    for i := 0 to |moves|
      invariant s.Valid() && Moves(k, Start(from), taken, end)
      invariant At(s.history, ip) == end.recorded && At(s.failedLogins, ip) == end.kept
    {
      if CanMove(k, end, moves[i]) {
        MovesSnoc(k, Start(from), taken, end, moves[i]);
        taken := taken + [moves[i]];
        end := Take(s, k, ip, end, moves[i]);
      }
    }
  }

  method Take(s: Service, k: nat, ip: string, before: State, move: Move) returns (after: State)
    requires s.Valid() && CanMove(k, before, move)
    requires At(s.history, ip) == before.recorded && At(s.failedLogins, ip) == before.kept
    modifies s
    ensures s.Valid() && after == Next(k, before, move)
    ensures At(s.history, ip) == after.recorded && At(s.failedLogins, ip) == after.kept
  {
    match move {
      case Look(j) => var _ := s.IsRateLimited(ip, before.waiting[j]);
      case Fail(j) => s.RecordFailedAttempt(ip, before.passed[j]);
      case _ =>
    }
    after := Next(k, before, move);
  }
}
