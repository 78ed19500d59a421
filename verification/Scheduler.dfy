/**
 The schedules of incremental syncs between two reloads of the configuration: a manual trigger claims a
 schedule and spawns its run, a cron tick claims and runs at once, and every run ends by recording its
 result and then giving the schedule back.
 */
module Schedulers {
  import Storage

  datatype LastStatus = Never | Running | Completed | Failed

  datatype SyncResult = SyncResult(scanned: nat, copied: nat, skipped: nat, bytes: nat)

  datatype Entry = Entry(
    running: bool,
    lastStatus: LastStatus,
    lastError: string,
    lastResult: SyncResult,
    lastStartedAt: Storage.Option<int>,
    lastFinishedAt: Storage.Option<int>)

  datatype Trigger = Manual | Cron

  /** A schedule claimed for a run at time `now`. */
  function Claimed(e: Entry, now: int): Entry {
    e.(running := true, lastStatus := Running, lastError := "",
       lastStartedAt := Storage.Some(now), lastFinishedAt := Storage.None)
  }

  /** A schedule whose run has ended with `result`, and perhaps with an error. */
  function Recorded(e: Entry, result: SyncResult, error: Storage.Option<string>, now: int): Entry {
    e.(lastResult := result, lastFinishedAt := Storage.Some(now),
       lastStatus := if error.Some? then Failed else Completed,
       lastError := if error.Some? then error.value else "")
  }

  /** A schedule that reads as running since `now`, with its last result still there. */
  ghost predicate UnderWay(before: Entry, e: Entry, now: int) {
    && e.running && e.lastStatus == Running && e.lastError == "" && e.lastResult == before.lastResult
    && e.lastStartedAt == Storage.Some(now) && e.lastFinishedAt == Storage.None
  }

  /** What came of a sync. */
  datatype Outcome = Outcome(result: SyncResult, error: Storage.Option<string>)

  /** A schedule that is not under way shows what came of its last sync. */
  ghost predicate Tells(e: Entry, last: Outcome) {
    && e.lastResult == last.result
    && (e.lastStatus != Running && last.error.Some? ==> e.lastStatus == Failed && e.lastError == last.error.value)
    && (e.lastStatus != Running && last.error.None? ==> e.lastStatus == Completed && e.lastError == "")
  }

  class Scheduler {
    var entries: seq<Entry>

    constructor (entries: seq<Entry>)
      ensures this.entries == entries
    {
      this.entries := entries;
    }

    predicate Has(id: int)
      reads this
    {
      0 <= id < |entries|
    }

    /** Claims a schedule on request; the caller then spawns its run. */
    method TriggerRun(id: int, now: int) returns (r: Storage.Result<Entry>)
      modifies this
      ensures !old(Has(id)) ==> r == Storage.Err(Storage.NotFound) && entries == old(entries)
      ensures old(Has(id)) && old(entries)[id].running ==>
        r == Storage.Err(Storage.Conflict) && entries == old(entries)
      ensures old(Has(id)) && !old(entries)[id].running ==>
        entries == old(entries)[id := Claimed(old(entries)[id], now)] && r == Storage.Ok(entries[id]) &&
        UnderWay(old(entries)[id], entries[id], now)
    {
      if id < 0 || id >= |entries| {
        return Storage.Err(Storage.NotFound);
      }
      if entries[id].running {
        return Storage.Err(Storage.Conflict);
      }
      entries := entries[id := entries[id].(running := true)];
      entries := entries[id := entries[id].(lastStatus := Running, lastError := "")];
      entries := entries[id := entries[id].(lastStartedAt := Storage.Some(now), lastFinishedAt := Storage.None)];
      return Storage.Ok(entries[id]);
    }

    /** The first locked section of a run; false means that the run returns without syncing. */
    method BeginRun(id: int, trigger: Trigger, now: int) returns (proceed: bool)
      modifies this
      ensures proceed <==> old(Has(id)) && (old(entries)[id].running <==> trigger == Manual)
      ensures entries == if proceed && trigger == Cron then old(entries)[id := Claimed(old(entries)[id], now)]
                         else old(entries)
      ensures proceed && trigger == Cron ==> UnderWay(old(entries)[id], entries[id], now)
    {
      if id < 0 || id >= |entries| {
        return false;
      }
      if trigger != Manual {
        if entries[id].running {
          return false;
        }
        entries := entries[id := entries[id].(running := true)];
        entries := entries[id := entries[id].(lastStatus := Running, lastError := "")];
        entries := entries[id := entries[id].(lastStartedAt := Storage.Some(now), lastFinishedAt := Storage.None)];
      } else if !entries[id].running {
        return false;
      }
      return true;
    }

    /** The section that stores the outcome of a sync: the status is that of the error, if there is one. */
    method RecordRun(id: int, result: SyncResult, error: Storage.Option<string>, now: int)
      modifies this
      ensures entries == if old(Has(id)) then old(entries)[id := Recorded(old(entries)[id], result, error, now)]
                         else old(entries)
      ensures old(Has(id)) ==> Tells(entries[id], Outcome(result, error))
    {
      if id >= 0 && id < |entries| {
        entries := entries[id := entries[id].(lastResult := result, lastFinishedAt := Storage.Some(now))];
        if error.Some? {
          entries := entries[id := entries[id].(lastStatus := Failed, lastError := error.value)];
        } else {
          entries := entries[id := entries[id].(lastStatus := Completed, lastError := "")];
        }
      }
    }

    /** The deferred section that gives the schedule back. */
    method FinishRun(id: int)
      modifies this
      ensures entries == if old(Has(id)) then old(entries)[id := old(entries)[id].(running := false)]
                         else old(entries)
    {
      if id >= 0 && id < |entries| {
        entries := entries[id := entries[id].(running := false)];
      }
    }
  }

  /* ---------- All orders of triggers, ticks and completions ---------- */

  datatype Phase = Spawned | Syncing | Ending

  /** A goroutine that runs schedule `id`, or is about to. */
  datatype Task = Task(id: nat, phase: Phase)

  datatype State = State(entries: seq<Entry>, tasks: map<nat, Task>)

  /** One locked section each; `task` names the goroutine, new ones get an unused name. */
  datatype Action =
    | Press(id: int, task: nat, now: int)
    | Tick(id: int, task: nat, now: int)
    | Start(task: nat)
    | Record(task: nat, result: SyncResult, error: Storage.Option<string>, now: int)
    | Finish(task: nat)

  predicate Enabled(s: State, a: Action) {
    match a
    case Press(_, task, _) => task !in s.tasks
    case Tick(_, task, _) => task !in s.tasks
    case Start(task) => task in s.tasks && s.tasks[task].phase == Spawned
    case Record(task, _, _, _) => task in s.tasks && s.tasks[task].phase == Syncing
    case Finish(task) => task in s.tasks && s.tasks[task].phase == Ending
  }

  predicate InRange(s: State, id: int) { 0 <= id < |s.entries| }

  /** The sections as the methods of the scheduler specify them. */
  function Apply(s: State, a: Action): State
    requires Enabled(s, a)
  {
    match a
    case Press(id, task, now) =>
      if !InRange(s, id) || s.entries[id].running then s
      else State(s.entries[id := Claimed(s.entries[id], now)], s.tasks[task := Task(id, Spawned)])
    case Tick(id, task, now) =>
      if !InRange(s, id) || s.entries[id].running then s
      else State(s.entries[id := Claimed(s.entries[id], now)], s.tasks[task := Task(id, Syncing)])
    case Start(task) =>
      var id := s.tasks[task].id;
      if !InRange(s, id) || !s.entries[id].running then s.(tasks := s.tasks - {task})
      else s.(tasks := s.tasks[task := Task(id, Syncing)])
    case Record(task, result, error, now) =>
      var id := s.tasks[task].id;
      var tasks := s.tasks[task := Task(id, Ending)];
      if !InRange(s, id) then s.(tasks := tasks)
      else State(s.entries[id := Recorded(s.entries[id], result, error, now)], tasks)
    case Finish(task) =>
      var id := s.tasks[task].id;
      var tasks := s.tasks - {task};
      if !InRange(s, id) then s.(tasks := tasks)
      else State(s.entries[id := s.entries[id].(running := false)], tasks)
  }

  ghost predicate Run(s: State, actions: seq<Action>, t: State)
    decreases |actions|
  {
    if actions == [] then s == t
    else Enabled(s, actions[0]) && Run(Apply(s, actions[0]), actions[1..], t)
  }

  /** Schedules of which none runs or reads as running, as when the service starts. */
  predicate Fresh(s: State) {
    s.tasks == map[] && forall id :: 0 <= id < |s.entries| ==>
      !s.entries[id].running && s.entries[id].lastStatus != Running
  }

  /** The task of schedule `id`, spawned or syncing or about to end. */
  ghost predicate HasTask(s: State, id: nat) {
    exists g :: g in s.tasks && s.tasks[g].id == id
  }

  ghost predicate Inv(s: State) {
    && (forall g :: g in s.tasks ==> InRange(s, s.tasks[g].id) && s.entries[s.tasks[g].id].running)
    && (forall g, h :: g in s.tasks && h in s.tasks && g != h ==> s.tasks[g].id != s.tasks[h].id)
    && (forall id :: 0 <= id < |s.entries| && s.entries[id].running ==> HasTask(s, id))
    && (forall g :: g in s.tasks ==>
          (s.entries[s.tasks[g].id].lastStatus == Running <==> s.tasks[g].phase != Ending))
    && (forall id :: 0 <= id < |s.entries| && s.entries[id].lastStatus == Running ==> s.entries[id].running)
  }

  lemma ClaimKeeps(s: State, id: int, task: nat, now: int, phase: Phase)
    requires Inv(s) && InRange(s, id) && !s.entries[id].running && task !in s.tasks && phase != Ending
    ensures Inv(State(s.entries[id := Claimed(s.entries[id], now)], s.tasks[task := Task(id, phase)]))
  {
    var t := State(s.entries[id := Claimed(s.entries[id], now)], s.tasks[task := Task(id, phase)]);
    forall k | 0 <= k < |t.entries| && t.entries[k].running
      ensures HasTask(t, k)
    {
      if k == id {
        assert t.tasks[task].id == k;
      } else {
        assert s.entries[k].running;
        var g :| g in s.tasks && s.tasks[g].id == k;
        assert t.tasks[g].id == k;
      }
    }
  }

  lemma MoveKeeps(s: State, task: nat, t: State)
    requires Inv(s) && task in s.tasks && |t.entries| == |s.entries|
    requires task in t.tasks && t.tasks[task].id == s.tasks[task].id
    requires t.tasks == s.tasks[task := t.tasks[task]]
    requires t.entries == s.entries[s.tasks[task].id := t.entries[s.tasks[task].id]]
    requires t.entries[s.tasks[task].id].running
    requires t.entries[s.tasks[task].id].lastStatus == Running <==> t.tasks[task].phase != Ending
    ensures Inv(t)
  {
    forall k | 0 <= k < |t.entries| && t.entries[k].running
      ensures HasTask(t, k)
    {
      assert s.entries[k].running;
      var g :| g in s.tasks && s.tasks[g].id == k;
      assert t.tasks[g].id == k;
    }
  }

  lemma FinishKeeps(s: State, task: nat)
    requires Inv(s) && Enabled(s, Finish(task))
    ensures Inv(Apply(s, Finish(task)))
  {
    var t := Apply(s, Finish(task));
    forall k | 0 <= k < |t.entries| && t.entries[k].running
      ensures HasTask(t, k)
    {
      assert s.entries[k].running;
      var g :| g in s.tasks && s.tasks[g].id == k;
      assert t.tasks[g].id == k;
    }
  }

  lemma StepKeeps(s: State, a: Action)
    requires Inv(s) && Enabled(s, a)
    ensures Inv(Apply(s, a))
  {
    match a
    case Press(id, task, now) =>
      if InRange(s, id) && !s.entries[id].running {
        ClaimKeeps(s, id, task, now, Spawned);
      }
    case Tick(id, task, now) =>
      if InRange(s, id) && !s.entries[id].running {
        ClaimKeeps(s, id, task, now, Syncing);
      }
    case Start(task) => MoveKeeps(s, task, Apply(s, a));
    case Record(task, _, _, _) => MoveKeeps(s, task, Apply(s, a));
    case Finish(task) => FinishKeeps(s, task);
  }

  lemma {:induction false} RunKeeps(s: State, actions: seq<Action>, t: State)
    requires Inv(s) && Run(s, actions, t)
    ensures Inv(t) && |t.entries| == |s.entries|
    decreases |actions|
  {
    if actions != [] {
      StepKeeps(s, actions[0]);
      RunKeeps(Apply(s, actions[0]), actions[1..], t);
    }
  }

  /**
   In every order of events a schedule has at most one goroutine, spawned or running, and has one exactly
   when it is marked as running; its status reads "running" exactly until that goroutine has recorded.
   */
  lemma OneRunPerSchedule(s: State, actions: seq<Action>, t: State)
    requires Fresh(s) && Run(s, actions, t)
    ensures forall g, h :: g in t.tasks && h in t.tasks && g != h ==> t.tasks[g].id != t.tasks[h].id
    ensures forall id :: 0 <= id < |t.entries| ==> (t.entries[id].running <==> HasTask(t, id))
    ensures forall id :: 0 <= id < |t.entries| ==>
      (t.entries[id].lastStatus == Running <==>
        exists g :: g in t.tasks && t.tasks[g].id == id && t.tasks[g].phase != Ending)
  {
    RunKeeps(s, actions, t);
    forall id | 0 <= id < |t.entries| && t.entries[id].lastStatus == Running
      ensures exists g :: g in t.tasks && t.tasks[g].id == id && t.tasks[g].phase != Ending
    {
      assert HasTask(t, id);
      var g :| g in t.tasks && t.tasks[g].id == id;
      assert t.tasks[g].phase != Ending;
    }
  }

  /** What the last sync of schedule `id` has come to, where `last` is what was known before. */
  ghost function LastOutcome(s: State, actions: seq<Action>, id: nat, last: Storage.Option<Outcome>): Storage.Option<Outcome>
    decreases |actions|
  {
    if actions == [] || !Enabled(s, actions[0]) then last
    else LastOutcome(Apply(s, actions[0]), actions[1..], id, Noted(s, actions[0], id, last))
  }

  /** What is known of schedule `id` after a step. */
  function Noted(s: State, a: Action, id: nat, last: Storage.Option<Outcome>): Storage.Option<Outcome> {
    if a.Record? && a.task in s.tasks && s.tasks[a.task].id == id then Storage.Some(Outcome(a.result, a.error)) else last
  }

  ghost predicate Shows(s: State, id: nat, last: Storage.Option<Outcome>) {
    InRange(s, id) && (last.Some? ==> Tells(s.entries[id], last.value))
  }

  lemma {:induction false} ShowsOutcome(s: State, actions: seq<Action>, t: State, id: nat, last: Storage.Option<Outcome>)
    requires Inv(s) && Run(s, actions, t) && Shows(s, id, last)
    ensures Shows(t, id, LastOutcome(s, actions, id, last))
    decreases |actions|
  {
    if actions != [] {
      StepKeeps(s, actions[0]);
      ShowsOutcome(Apply(s, actions[0]), actions[1..], t, id, Noted(s, actions[0], id, last));
    }
  }

  /**
   In every order of events, a schedule that has synced shows what its last sync has come to: that it failed, and
   with what error, exactly if there was one, and else that it completed. From the next claim on it reads as running.
   */
  lemma StatusTellsLastSync(s: State, actions: seq<Action>, t: State, id: nat)
    requires Fresh(s) && Run(s, actions, t) && InRange(t, id)
    ensures var last := LastOutcome(s, actions, id, Storage.None);
      last.Some? ==>
        var e, error := t.entries[id], last.value.error;
        && e.lastResult == last.value.result
        && (e.lastStatus != Running ==> e.lastStatus == if error.Some? then Failed else Completed)
        && (e.lastStatus != Running ==> e.lastError == if error.Some? then error.value else "")
  {
    RunKeeps(s, actions, t);
    ShowsOutcome(s, actions, t, id, Storage.None);
  }

  /**
   A trigger that was accepted is never lost: when its goroutine starts, it goes on to sync. A trigger or
   tick is turned away exactly when a goroutine of the same schedule is still around.
   */
  lemma AcceptedRunsHappen(s: State, actions: seq<Action>, t: State)
    requires Fresh(s) && Run(s, actions, t)
    ensures forall g :: Enabled(t, Start(g)) ==>
      Apply(t, Start(g)) == t.(tasks := t.tasks[g := Task(t.tasks[g].id, Syncing)])
    ensures forall id, g, now :: InRange(t, id) && g !in t.tasks ==>
      (Apply(t, Press(id, g, now)) == t <==> HasTask(t, id))
    ensures forall id, g, now :: InRange(t, id) && g !in t.tasks ==>
      (Apply(t, Tick(id, g, now)) == t <==> HasTask(t, id))
  {
    RunKeeps(s, actions, t);
    forall id, g, now | InRange(t, id) && g !in t.tasks
      ensures Apply(t, Press(id, g, now)) == t <==> HasTask(t, id)
      ensures Apply(t, Tick(id, g, now)) == t <==> HasTask(t, id)
    {
      if !t.entries[id].running {
        assert g in Apply(t, Press(id, g, now)).tasks && g in Apply(t, Tick(id, g, now)).tasks;
      }
    }
  }
}
