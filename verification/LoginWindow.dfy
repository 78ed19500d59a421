/**
 The limit on failed logins: the failures of each address within the last five minutes are kept, and ten
 of them shut the address out. `history` remembers all failures ever recorded. Times are nanoseconds.
 */
module Logins {

  type Time = int

  const MAX_LOGIN_ATTEMPTS: nat := 10
  const LOGIN_ATTEMPT_WINDOW: nat := 5 * 60 * 1_000_000_000

  /* ---------- Histories ---------- */

  /** The times after `since`, in order. */
  function Recent(times: seq<Time>, since: Time): (recent: seq<Time>)
    ensures |recent| <= |times|
  {
    if times == [] then []
    else
      var init, last := times[..|times| - 1], times[|times| - 1];
      if last > since then Recent(init, since) + [last] else Recent(init, since)
  }

  /** How many of the times lie in the five minutes up to and including `to`. */
  function InWindow(times: seq<Time>, to: Time): (n: nat)
    ensures n <= |times|
  {
    if times == [] then 0
    else
      var init, last := times[..|times| - 1], times[|times| - 1];
      InWindow(init, to) + if to - LOGIN_ATTEMPT_WINDOW < last <= to then 1 else 0
  }

  lemma {:induction false} RecentSnoc(times: seq<Time>, t: Time, since: Time)
    ensures Recent(times + [t], since) == Recent(times, since) + if t > since then [t] else []
  {
    assert (times + [t])[..|times|] == times;
  }

  /** What an earlier pruning has dropped, a later one does not miss. */
  lemma {:induction false} RecentTwice(times: seq<Time>, earlier: Time, later: Time)
    requires earlier <= later
    ensures Recent(Recent(times, earlier), later) == Recent(times, later)
  {
    if times != [] {
      var init, last := times[..|times| - 1], times[|times| - 1];
      RecentTwice(init, earlier, later);
      if last > earlier {
        RecentSnoc(Recent(init, earlier), last, later);
      }
    }
  }

  /** A window that ends no earlier than `now` sees no more than the check at `now` does. */
  lemma {:induction false} WindowSeesLess(times: seq<Time>, now: Time, to: Time)
    requires now <= to
    ensures InWindow(times, to) <= |Recent(times, now - LOGIN_ATTEMPT_WINDOW)|
  {
    if times != [] {
      WindowSeesLess(times[..|times| - 1], now, to);
    }
  }

  lemma {:induction false} InWindowAppend(a: seq<Time>, b: seq<Time>, to: Time)
    ensures InWindow(a + b, to) == InWindow(a, to) + InWindow(b, to)
  {
    if b == [] {
      assert a + b == a;
    } else {
      assert (a + b)[..|a + b| - 1] == a + b[..|b| - 1];
      InWindowAppend(a, b[..|b| - 1], to);
    }
  }

  function Without(times: seq<Time>, i: nat): seq<Time>
    requires i < |times|
  {
    times[..i] + times[i + 1..]
  }

  lemma InWindowWithout(times: seq<Time>, i: nat, to: Time)
    requires i < |times|
    ensures InWindow(times, to) == InWindow(Without(times, i), to) + InWindow([times[i]], to)
  {
    var before, one, after := times[..i], [times[i]], times[i + 1..];
    assert times == before + one + after;
    InWindowAppend(before + one, after, to);
    InWindowAppend(before, one, to);
    InWindowAppend(before, after, to);
  }

  /* ---------- Pruning ---------- */

  /** Moves what lies after `since` to the front of the same array. */
  method PruneInPlace(attempts: array<Time>, since: Time) returns (kept: nat)
    modifies attempts
    ensures kept <= attempts.Length && attempts[..kept] == Recent(old(attempts[..]), since)
  {
    ghost var was := attempts[..];
    kept := 0;
    for i := 0 to attempts.Length
      invariant kept <= i && attempts[..kept] == Recent(was[..i], since)
      invariant forall j :: i <= j < attempts.Length ==> attempts[j] == was[j]
    {
      assert was[..i + 1][..i] == was[..i];
      if attempts[i] > since {
        attempts[kept] := attempts[i];
        kept := kept + 1;
      }
    }
    assert was[..attempts.Length] == was;
  }

  method Prune(listed: seq<Time>, since: Time) returns (kept: seq<Time>)
    ensures kept == Recent(listed, since)
  {
    var attempts := new Time[|listed|](i requires 0 <= i < |listed| => listed[i]);
    assert attempts[..] == listed;
    var count := PruneInPlace(attempts, since);
    kept := attempts[..count];
  }

  /* ---------- The service ---------- */

  function Truncate(value: string, maxRunes: nat): (r: string)
    ensures r <= value && (|r| == |value| <= maxRunes || |r| == maxRunes < |value|)
  {
    if |value| <= maxRunes then value else value[..maxRunes]
  }

  /** Failures of two addresses are counted together exactly if both are that long and begin alike. */
  lemma CountedTogetherIff(a: string, b: string, maxRunes: nat)
    ensures Truncate(a, maxRunes) == Truncate(b, maxRunes) <==>
      a == b || (|a| >= maxRunes && |b| >= maxRunes && a[..maxRunes] == b[..maxRunes])
  {
    if |a| == maxRunes {
      assert a[..maxRunes] == a;
    }
    if |b| == maxRunes {
      assert b[..maxRunes] == b;
    }
  }

  /** What the user table and the password check say. */
  datatype Lookup = DatabaseError | Unknown | User(enabled: bool, passwordMatches: bool)

  datatype Outcome = RateLimited | LookupFailed | InvalidCredentials | LoggedIn

  /** What a map of lists holds for an address. */
  function At(lists: map<string, seq<Time>>, ip: string): seq<Time> {
    if ip in lists then lists[ip] else []
  }

  /** What is known of an address: its list, all its failures, and up to when the list has been pruned. */
  datatype Account = Account(kept: seq<Time>, history: seq<Time>, pruned: Time)
  {
    /** List and history agree on all times after the last look's window began. */
    ghost predicate Ok(clock: Time) {
      pruned <= clock - LOGIN_ATTEMPT_WINDOW && Recent(kept, pruned) == Recent(history, pruned)
    }
  }

  function Later(a: Time, b: Time): Time { if a < b then b else a }

  /** A look at `now` prunes the list, and list and history still agree from then on. */
  lemma AccountLooked(a: Account, clock: Time, now: Time)
    requires a.Ok(clock)
    ensures var since := now - LOGIN_ATTEMPT_WINDOW;
      && Account(Recent(a.kept, since), a.history, Later(a.pruned, since)).Ok(Later(clock, now))
      && (clock <= now ==> Recent(a.kept, since) == Recent(a.history, since))
  {
    var since := now - LOGIN_ATTEMPT_WINDOW;
    var from := Later(a.pruned, since);
    RecentTwice(a.kept, a.pruned, from);
    RecentTwice(a.history, a.pruned, from);
    RecentTwice(a.kept, since, from);
  }

  lemma AccountRecorded(a: Account, at: Time, clock: Time)
    requires a.Ok(clock)
    ensures Account(a.kept + [at], a.history + [at], a.pruned).Ok(clock)
  {
    RecentSnoc(a.kept, at, a.pruned);
    RecentSnoc(a.history, at, a.pruned);
  }

  lemma AccountLater(a: Account, clock: Time, now: Time)
    requires a.Ok(clock) && clock <= now
    ensures a.Ok(now)
  {
  }

  /** `history` has all failures, and `pruned` tells up to when each list has been pruned. */
  class Service {
    var failedLogins: map<string, seq<Time>>
    ghost var history: map<string, seq<Time>>
    ghost var pruned: map<string, Time>
    ghost const start: Time
    ghost var clock: Time

    ghost function AccountOf(ip: string): Account
      reads this
    {
      Account(At(failedLogins, ip), At(history, ip), if ip in pruned then pruned[ip] else start)
    }

    ghost predicate Valid()
      reads this
    {
      forall ip :: AccountOf(ip).Ok(clock)
    }

    constructor (now: Time)
      ensures Valid() && history == map[] && clock == now && failedLogins == map[]
    {
      failedLogins, history, pruned, clock, start := map[], map[], map[], now, now - LOGIN_ATTEMPT_WINDOW;
    }

    /** The accounts of all other addresses are as they were. */
    twostate predicate OthersKept(ip: string)
      reads this
    {
      forall other :: other != ip ==> AccountOf(other) == old(AccountOf(other))
    }

    twostate lemma StillValid(ip: string)
      requires old(Valid()) && old(clock) <= clock && OthersKept(ip) && AccountOf(ip).Ok(clock)
      ensures Valid()
    {
      forall other
        ensures AccountOf(other).Ok(clock)
      {
        if other != ip {
          AccountLater(old(AccountOf(other)), old(clock), clock);
        }
      }
    }

    /**
     The verdict on the pruned list. It is that of the full history, unless a login that read the clock later has
     looked before.
     */
    method IsRateLimited(ip: string, now: Time) returns (limited: bool)
      requires Valid()
      modifies this
      ensures Valid() && history == old(history) && clock == Later(old(clock), now)
      ensures failedLogins == old(failedLogins)[ip := Recent(At(old(failedLogins), ip), now - LOGIN_ATTEMPT_WINDOW)]
      ensures limited <==> |At(failedLogins, ip)| >= MAX_LOGIN_ATTEMPTS
      ensures old(clock) <= now ==>
        (limited <==> |Recent(At(history, ip), now - LOGIN_ATTEMPT_WINDOW)| >= MAX_LOGIN_ATTEMPTS)
    {
      var since := now - LOGIN_ATTEMPT_WINDOW;
      var listed := At(failedLogins, ip);
      AccountLooked(AccountOf(ip), clock, now);
      var kept := Prune(listed, since);
      failedLogins := failedLogins[ip := kept];
      pruned := pruned[ip := Later(AccountOf(ip).pruned, since)];
      clock := Later(clock, now);
      limited := |kept| >= MAX_LOGIN_ATTEMPTS;
      StillValid(ip);
    }

    /** A failure of a login that read the clock at `at`; other logins may have come between. */
    method RecordFailedAttempt(ip: string, at: Time)
      requires Valid()
      modifies this
      ensures Valid() && clock == old(clock)
      ensures history == old(history)[ip := At(old(history), ip) + [at]]
      ensures failedLogins == old(failedLogins)[ip := At(old(failedLogins), ip) + [at]]
    {
      AccountRecorded(AccountOf(ip), at, clock);
      failedLogins := failedLogins[ip := At(failedLogins, ip) + [at]];
      history := history[ip := At(history, ip) + [at]];
      StillValid(ip);
    }

    /**
     One login, from the check to the record. Exactly the attempts that reach the password check and fail it
     are recorded, and an address with ten failures in the window reaches nothing.
     */
    method Login(address: string, now: Time, lookup: Lookup) returns (outcome: Outcome)
      requires Valid() && clock <= now
      modifies this
      ensures Valid() && clock == now
      ensures outcome == RateLimited <==>
        |Recent(At(old(history), Truncate(address, 45)), now - LOGIN_ATTEMPT_WINDOW)| >= MAX_LOGIN_ATTEMPTS
      ensures outcome == LoggedIn ==> lookup == User(true, true)
      ensures outcome == LookupFailed ==> lookup == DatabaseError
      ensures outcome == InvalidCredentials ==> lookup != DatabaseError && lookup != User(true, true)
      ensures history == if outcome == InvalidCredentials
        then old(history)[Truncate(address, 45) := At(old(history), Truncate(address, 45)) + [now]] else old(history)
    {
      var ip := Truncate(address, 45);
      var limited := IsRateLimited(ip, now);
      if limited {
        return RateLimited;
      }
      if lookup.DatabaseError? {
        return LookupFailed;
      }
      if lookup.Unknown? || !lookup.passwordMatches || !lookup.enabled {
        RecordFailedAttempt(ip, now);
        return InvalidCredentials;
      }
      return LoggedIn;
    }
  }

  /* ---------- Logins that overlap ---------- */

  /** The check of a login at `now` passes. */
  predicate Passes(recorded: seq<Time>, now: Time) {
    |Recent(recorded, now - LOGIN_ATTEMPT_WINDOW)| < MAX_LOGIN_ATTEMPTS
  }

  /** One address: its recorded failures, and the logins between their check and their end, by their time. */
  datatype Track = Track(recorded: seq<Time>, pending: seq<Time>, clock: Time)

  /** A login is checked, ends as a recorded failure, or ends otherwise. */
  datatype Step = Check(now: Time) | Record(i: nat) | Leave(i: nat)

  /** At most `k` logins of the address are pending at once. */
  predicate Enabled(k: nat, t: Track, step: Step) {
    match step
    case Check(now) => t.clock <= now && (Passes(t.recorded, now) ==> |t.pending| < k)
    case Record(i) => i < |t.pending|
    case Leave(i) => i < |t.pending|
  }

  function Apply(k: nat, t: Track, step: Step): Track
    requires Enabled(k, t, step)
  {
    match step
    case Check(now) =>
      if Passes(t.recorded, now) then Track(t.recorded, t.pending + [now], now) else t.(clock := now)
    case Record(i) => Track(t.recorded + [t.pending[i]], Without(t.pending, i), t.clock)
    case Leave(i) => t.(pending := Without(t.pending, i))
  }

  ghost predicate Run(k: nat, t: Track, steps: seq<Step>, end: Track)
    decreases |steps|
  {
    if steps == [] then t == end
    else Enabled(k, t, steps[0]) && Run(k, Apply(k, t, steps[0]), steps[1..], end)
  }

  /** Recorded and pending together, no window holds more than nine and one for each that may be pending. */
  ghost predicate Bounded(k: nat, t: Track) {
    && |t.pending| <= k
    && (forall i :: 0 <= i < |t.recorded| ==> t.recorded[i] <= t.clock)
    && (forall i :: 0 <= i < |t.pending| ==> t.pending[i] <= t.clock)
    && forall to :: WindowBounded(k, t, to)
  }

  predicate WindowBounded(k: nat, t: Track, to: Time) {
    InWindow(t.recorded, to) + InWindow(t.pending, to) <= MAX_LOGIN_ATTEMPTS - 1 + k
  }

  lemma CheckKeeps(k: nat, t: Track, now: Time)
    requires Bounded(k, t) && Enabled(k, t, Check(now))
    ensures Bounded(k, Apply(k, t, Check(now)))
  {
    var u := Apply(k, t, Check(now));
    forall to
      ensures WindowBounded(k, u, to)
    {
      assert WindowBounded(k, t, to);
      if Passes(t.recorded, now) {
        InWindowAppend(t.pending, [now], to);
        assert InWindow([now], to) == if to - LOGIN_ATTEMPT_WINDOW < now <= to then 1 else 0;
        if now <= to {
          WindowSeesLess(t.recorded, now, to);
        }
      }
    }
  }

  lemma EndKeeps(k: nat, t: Track, step: Step)
    requires Bounded(k, t) && Enabled(k, t, step) && !step.Check?
    ensures Bounded(k, Apply(k, t, step))
  {
    var u := Apply(k, t, step);
    forall to
      ensures WindowBounded(k, u, to)
    {
      assert WindowBounded(k, t, to);
      InWindowWithout(t.pending, step.i, to);
      InWindowAppend(t.recorded, [t.pending[step.i]], to);
    }
  }

  lemma {:induction false} RunKeeps(k: nat, t: Track, steps: seq<Step>, end: Track)
    requires Bounded(k, t) && Run(k, t, steps, end)
    ensures Bounded(k, end)
    decreases |steps|
  {
    if steps != [] {
      if steps[0].Check? {
        CheckKeeps(k, t, steps[0].now);
      } else {
        EndKeeps(k, t, steps[0]);
      }
      RunKeeps(k, Apply(k, t, steps[0]), steps[1..], end);
    }
  }

  /**
   With at most `k` logins of an address between their check and their end at any time, every half-open window
   of five minutes, ending anywhere, holds at most 9 + k of its failures.
   */
  lemma EveryWindowIsLimited(k: nat, start: Time, steps: seq<Step>, end: Track, to: Time)
    requires Run(k, Track([], [], start), steps, end)
    ensures InWindow(end.recorded, to) <= MAX_LOGIN_ATTEMPTS - 1 + k
  {
    RunKeeps(k, Track([], [], start), steps, end);
    assert WindowBounded(k, end, to);
  }

  lemma {:induction false} RunSnoc(k: nat, t: Track, steps: seq<Step>, end: Track, step: Step)
    requires Run(k, t, steps, end) && Enabled(k, end, step)
    ensures Run(k, t, steps + [step], Apply(k, end, step))
    decreases |steps|
  {
    if steps == [] {
      assert Run(k, Apply(k, end, step), [], Apply(k, end, step));
      assert (steps + [step])[1..] == [];
    } else {
      RunSnoc(k, Apply(k, t, steps[0]), steps[1..], end, step);
      assert (steps + [step])[1..] == steps[1..] + [step];
    }
  }

  function Zeros(n: nat): seq<Time> { seq(n, _ => 0) }

  lemma {:induction false} ZerosCount(n: nat)
    ensures InWindow(Zeros(n), 0) == n && |Recent(Zeros(n), 0 - LOGIN_ATTEMPT_WINDOW)| == n
  {
    if n > 0 {
      ZerosCount(n - 1);
      assert Zeros(n)[..n - 1] == Zeros(n - 1);
    }
  }

  /** Logins that fail one after the other, up to the limit. */
  lemma {:induction false} OneByOne(k: nat, n: nat) returns (steps: seq<Step>)
    requires k >= 1 && n < MAX_LOGIN_ATTEMPTS
    ensures Run(k, Track([], [], 0), steps, Track(Zeros(n), [], 0))
  {
    steps := [];
    if n > 0 {
      steps := OneByOne(k, n - 1);
      ZerosCount(n - 1);
      var before := Track(Zeros(n - 1), [], 0);
      RunSnoc(k, Track([], [], 0), steps, before, Check(0));
      RunSnoc(k, Track([], [], 0), steps + [Check(0)], Apply(k, before, Check(0)), Record(0));
      steps := steps + [Check(0)] + [Record(0)];
      assert [] + [0] == [0] && Without([0], 0) == [] && Zeros(n - 1) + [0] == Zeros(n);
    }
  }

  /** Logins that are all checked before any of them ends. */
  lemma {:induction false} AllAtOnce(k: nat, m: nat) returns (steps: seq<Step>)
    requires k >= 1 && m <= k
    ensures Run(k, Track([], [], 0), steps, Track(Zeros(MAX_LOGIN_ATTEMPTS - 1), Zeros(m), 0))
  {
    if m == 0 {
      steps := OneByOne(k, MAX_LOGIN_ATTEMPTS - 1);
      assert Zeros(0) == [];
    } else {
      steps := AllAtOnce(k, m - 1);
      ZerosCount(MAX_LOGIN_ATTEMPTS - 1);
      RunSnoc(k, Track([], [], 0), steps, Track(Zeros(MAX_LOGIN_ATTEMPTS - 1), Zeros(m - 1), 0), Check(0));
      steps := steps + [Check(0)];
      assert Zeros(m - 1) + [0] == Zeros(m);
    }
  }

  lemma {:induction false} AllRecorded(k: nat, m: nat) returns (steps: seq<Step>)
    requires k >= 1 && m <= k
    ensures Run(k, Track([], [], 0), steps, Track(Zeros(MAX_LOGIN_ATTEMPTS - 1 + m), Zeros(k - m), 0))
  {
    if m == 0 {
      steps := AllAtOnce(k, k);
    } else {
      steps := AllRecorded(k, m - 1);
      var before := Track(Zeros(MAX_LOGIN_ATTEMPTS - 1 + m - 1), Zeros(k - m + 1), 0);
      RunSnoc(k, Track([], [], 0), steps, before, Record(0));
      steps := steps + [Record(0)];
      assert Without(Zeros(k - m + 1), 0) == Zeros(k - m);
      assert Zeros(MAX_LOGIN_ATTEMPTS - 1 + m - 1) + [0] == Zeros(MAX_LOGIN_ATTEMPTS - 1 + m);
    }
  }

  /** The bound is met: for every `k` some run puts 9 + k failures into one window, two at once eleven. */
  lemma BoundIsReached(k: nat) returns (steps: seq<Step>, end: Track)
    requires k >= 1
    ensures Run(k, Track([], [], 0), steps, end) && InWindow(end.recorded, 0) == MAX_LOGIN_ATTEMPTS - 1 + k
  {
    steps := AllRecorded(k, k);
    end := Track(Zeros(MAX_LOGIN_ATTEMPTS - 1 + k), Zeros(0), 0);
    ZerosCount(MAX_LOGIN_ATTEMPTS - 1 + k);
  }

  /** The machine's steps are the service's sections: those of `steps` that are possible are taken. */
  method Overlap(s: Service, k: nat, ip: string, from: Time, steps: seq<Step>)
    returns (ghost taken: seq<Step>, end: Track)
    requires s.Valid() && s.clock == from && At(s.history, ip) == []
    modifies s
    ensures s.Valid() && Run(k, Track([], [], from), taken, end) && At(s.history, ip) == end.recorded
  {
    ghost var start := Track([], [], from);
    taken, end := [], Track([], [], from);
    for i := 0 to |steps|
      invariant s.Valid() && Run(k, start, taken, end) && At(s.history, ip) == end.recorded && s.clock == end.clock
    {
      var step := steps[i];
      if Enabled(k, end, step) {
        match step {
          case Check(now) => var _ := s.IsRateLimited(ip, now);
          case Record(j) => s.RecordFailedAttempt(ip, end.pending[j]);
          case Leave(_) =>
        }
        RunSnoc(k, start, taken, end, step);
        taken, end := taken + [step], Apply(k, end, step);
      }
    }
  }

  datatype Attempt = Attempt(address: string, now: Time, lookup: Lookup)

  /** All runs of sequential logins under a clock that does not go back: no window holds more than ten. */
  method Serve(attempts: seq<Attempt>) returns (s: Service)
    requires forall i, j :: 0 <= i < j < |attempts| ==> attempts[i].now <= attempts[j].now
    ensures s.Valid()
    ensures forall ip, to :: InWindow(At(s.history, ip), to) <= MAX_LOGIN_ATTEMPTS
  {
    s := new Service(if attempts == [] then 0 else attempts[0].now);
    for i := 0 to |attempts|
      invariant s.Valid() && fresh(s)
      invariant i < |attempts| ==> s.clock <= attempts[i].now
      invariant forall ip :: Bounded(1, Track(At(s.history, ip), [], s.clock))
    {
      ghost var before, clock := s.history, s.clock;
      var outcome := s.Login(attempts[i].address, attempts[i].now, attempts[i].lookup);
      forall ip
        ensures Bounded(1, Track(At(s.history, ip), [], s.clock))
      {
        LoginKeeps(At(before, ip), clock, s.clock,
                   outcome == InvalidCredentials && ip == Truncate(attempts[i].address, 45), At(s.history, ip));
      }
    }
    forall ip, to
      ensures InWindow(At(s.history, ip), to) <= MAX_LOGIN_ATTEMPTS
    {
      assert WindowBounded(1, Track(At(s.history, ip), [], s.clock), to);
    }
  }

  /** A login that runs alone is a check and an end right after it. */
  lemma LoginKeeps(recorded: seq<Time>, clock: Time, now: Time, failed: bool, after: seq<Time>)
    requires Bounded(1, Track(recorded, [], clock)) && clock <= now
    requires failed ==> Passes(recorded, now)
    requires after == if failed then recorded + [now] else recorded
    ensures Bounded(1, Track(after, [], now))
  {
    var t := Track(recorded, [], clock);
    CheckKeeps(1, t, now);
    var u := Apply(1, t, Check(now));
    if Passes(recorded, now) {
      assert u.pending == [now] && Without([now], 0) == [];
      EndKeeps(1, u, if failed then Record(0) else Leave(0));
    }
  }
}
