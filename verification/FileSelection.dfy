/**
 The choice of files in a torrent: what the daemon holds, what the service shows of it, and the update that
 is sent to the daemon and read back.
 */
module FileSelections {
  import opened Storage

  /* ---------- The daemon ---------- */

  /** A file's state at the daemon; priorities are -1 (low), 0 (normal) and 1 (high). */
  datatype FileStat = FileStat(wanted: bool, priority: int)

  type Indexes = Option<seq<int>>

  /** The arguments of a torrent-set request; a list that is left out changes nothing. */
  datatype SetArgs = SetArgs(wanted: Indexes, unwanted: Indexes, high: Indexes, normal: Indexes)

  /** In a request, an empty list stands for all files (section 3.2 of the Transmission RPC specification). */
  predicate Covers(list: Indexes, index: int) {
    list.Some? && (list.value == [] || index in list.value)
  }

  /** In which order the daemon goes through the lists of a request is its own affair. */
  datatype Order = Order(wantedLast: bool, normalLast: bool)

  function Applied(stat: FileStat, index: int, args: SetArgs, order: Order): FileStat {
    var w, u := Covers(args.wanted, index), Covers(args.unwanted, index);
    var h, n := Covers(args.high, index), Covers(args.normal, index);
    FileStat(
      if w && u then order.wantedLast else if w then true else if u then false else stat.wanted,
      if h && n then (if order.normalLast then 0 else 1) else if h then 1 else if n then 0 else stat.priority)
  }

  /** The daemon; `broken` remembers that a call did not come through. */
  class Daemon {
    var stats: seq<FileStat>
    const order: Order
    ghost var broken: bool

    constructor (stats: seq<FileStat>, order: Order)
      ensures this.stats == stats && this.order == order
    {
      this.stats, this.order, this.broken := stats, order, false;
    }

    /** The state of the files, if the call comes through and the torrent is known. */
    method Fetch() returns (r: Result<seq<FileStat>>)
      modifies this`broken
      ensures r.Ok? ==> r.value == stats
      ensures r.Err? ==> r.error == Unavailable || r.error == NotFound
      ensures broken <==> old(broken) || r.Err?
    {
      var reached: bool, known: bool := *, *;
      broken := broken || !reached || !known;
      r := if !reached then Err(Unavailable) else if !known then Err(NotFound) else Ok(stats);
    }

    method TorrentSet(args: SetArgs) returns (error: Option<Error>)
      modifies this
      ensures error == None || error == Some(Unavailable)
      ensures broken <==> old(broken) || error.Some?
      ensures error.Some? ==> stats == old(stats)
      ensures error.None? ==> |stats| == |old(stats)|
      ensures error.None? ==> forall i :: 0 <= i < |stats| ==> stats[i] == Applied(old(stats)[i], i, args, order)
    {
      var reached: bool := *;
      if !reached {
        broken := true;
        return Some(Unavailable);
      }
      var before, how := stats, order;
      stats := seq(|before|, i requires 0 <= i < |before| => Applied(before[i], i, args, how));
      return None;
    }
  }

  /* ---------- What is shown ---------- */

  /** A file as the service shows it; priority 0 means not selected, 1 normal and 2 high. */
  datatype TaskFile = TaskFile(fileIndex: nat, selected: bool, priority: int)

  function MapTransmissionFilePriority(wanted: bool, priority: int): int {
    if !wanted then 0 else if priority >= 1 then 2 else 1
  }

  function View(index: nat, stat: FileStat): TaskFile {
    TaskFile(index, stat.wanted, MapTransmissionFilePriority(stat.wanted, stat.priority))
  }

  function Views(stats: seq<FileStat>): (files: seq<TaskFile>)
    ensures |files| == |stats|
    ensures forall i :: 0 <= i < |stats| ==> files[i] == View(i, stats[i])
  {
    seq(|stats|, i requires 0 <= i < |stats| => View(i, stats[i]))
  }

  /** Files beyond the list of states count as wanted, with normal priority. */
  method MapRemoteFiles(fileCount: nat, stats: seq<FileStat>) returns (files: seq<TaskFile>)
    ensures |files| == fileCount
    ensures forall i :: 0 <= i < fileCount ==>
      files[i] == View(i, if i < |stats| then stats[i] else FileStat(true, 0))
  {
    files := [];
    for index := 0 to fileCount
      invariant |files| == index
      invariant forall i :: 0 <= i < index ==> files[i] == View(i, if i < |stats| then stats[i] else FileStat(true, 0))
    {
      var wanted, priority := true, 1;
      if index < |stats| {
        wanted := stats[index].wanted;
        priority := MapTransmissionFilePriority(wanted, stats[index].priority);
      }
      files := files + [TaskFile(index, wanted, priority)];
    }
  }

  method Files(daemon: Daemon) returns (r: Result<seq<TaskFile>>)
    modifies daemon`broken
    ensures daemon.broken <==> old(daemon.broken) || r.Err?
    ensures r.Ok? ==> r.value == Views(daemon.stats)
    ensures r.Err? ==> r.error == Unavailable || r.error == NotFound
  {
    var fetched := daemon.Fetch();
    if fetched.Err? {
      return Err(fetched.error);
    }
    var files := MapRemoteFiles(|fetched.value|, fetched.value);
    return Ok(files);
  }

  /* ---------- What is sent ---------- */

  datatype FileSelection = FileSelection(index: int, priority: int)

  predicate IsValid(selection: FileSelection, fileCount: nat) {
    0 <= selection.index < fileCount && 0 <= selection.priority <= 2
  }

  predicate AllValid(selections: seq<FileSelection>, fileCount: nat) {
    forall k :: 0 <= k < |selections| ==> IsValid(selections[k], fileCount)
  }

  /** The indexes selected with a priority from `low` to `high`, in order. */
  function Pick(selections: seq<FileSelection>, low: int, high: int): seq<int> {
    if selections == [] then []
    else
      var init, last := selections[..|selections| - 1], selections[|selections| - 1];
      Pick(init, low, high) + if low <= last.priority <= high then [last.index] else []
  }

  predicate Mentions(selections: seq<FileSelection>, index: int) {
    exists k :: 0 <= k < |selections| && selections[k].index == index
  }

  /** The indexes below `count` that no selection mentions, in order. */
  function Unmentioned(selections: seq<FileSelection>, count: nat): seq<int> {
    if count == 0 then []
    else Unmentioned(selections, count - 1) + if Mentions(selections, count - 1) then [] else [count - 1]
  }

  /** An empty list is left out of a request: it would mean all files. */
  function NonEmpty(list: seq<int>): Indexes {
    if list == [] then None else Some(list)
  }

  function ArgsFor(selections: seq<FileSelection>, fileCount: nat): SetArgs {
    SetArgs(
      NonEmpty(Pick(selections, 1, 2)),
      NonEmpty(Pick(selections, 0, 0) + Unmentioned(selections, fileCount)),
      NonEmpty(Pick(selections, 2, 2)),
      NonEmpty(Pick(selections, 1, 1)))
  }

  method SetFiles(daemon: Daemon, selections: seq<FileSelection>) returns (error: Option<Error>)
    modifies daemon
    ensures error.None? ==> AllValid(selections, |old(daemon.stats)|) && |daemon.stats| == |old(daemon.stats)|
    ensures error.None? ==> forall i :: 0 <= i < |daemon.stats| ==>
      daemon.stats[i] == Applied(old(daemon.stats)[i], i, ArgsFor(selections, |daemon.stats|), daemon.order)
    ensures error.Some? ==> daemon.stats == old(daemon.stats)
    ensures error == Some(InvalidInput) ==> !AllValid(selections, |daemon.stats|)
    ensures error.Some? && error != Some(InvalidInput) ==> daemon.broken
    ensures old(daemon.broken) ==> daemon.broken
  {
    var fetched := daemon.Fetch();
    if fetched.Err? {
      return Some(Unavailable);
    }
    var fileCount := |fetched.value|;
    var wanted, unwanted, high, normal := [], [], [], [];
    var seen: set<int> := {};
    for k := 0 to |selections|
      invariant AllValid(selections[..k], fileCount) && daemon.stats == old(daemon.stats)
      invariant old(daemon.broken) ==> daemon.broken
      invariant wanted == Pick(selections[..k], 1, 2) && unwanted == Pick(selections[..k], 0, 0)
      invariant high == Pick(selections[..k], 2, 2) && normal == Pick(selections[..k], 1, 1)
      invariant seen == set j | 0 <= j < k :: selections[j].index
    {
      var selection := selections[k];
      assert selections[..k + 1][..k] == selections[..k];
      if selection.index < 0 || selection.index >= fileCount || selection.priority < 0 || selection.priority > 2 {
        assert !IsValid(selections[k], fileCount);
        return Some(InvalidInput);
      }
      seen := seen + {selection.index};
      if selection.priority == 0 {
        unwanted := unwanted + [selection.index];
      } else if selection.priority == 1 {
        wanted, normal := wanted + [selection.index], normal + [selection.index];
      } else {
        wanted, high := wanted + [selection.index], high + [selection.index];
      }
    }
    assert selections[..|selections|] == selections;
    for index := 0 to fileCount
      invariant unwanted == Pick(selections, 0, 0) + Unmentioned(selections, index)
      invariant daemon.stats == old(daemon.stats) && (old(daemon.broken) ==> daemon.broken)
    {
      if index !in seen {
        unwanted := unwanted + [index];
      }
    }
    error := daemon.TorrentSet(SetArgs(NonEmpty(wanted), NonEmpty(unwanted), NonEmpty(high), NonEmpty(normal)));
  }

  predicate SelectsWithin(selections: seq<FileSelection>, low: int, high: int, index: int) {
    exists k :: 0 <= k < |selections| && selections[k].index == index && low <= selections[k].priority <= high
  }

  lemma SelectsSnoc(init: seq<FileSelection>, last: FileSelection, low: int, high: int, index: int)
    ensures SelectsWithin(init + [last], low, high, index) <==>
      SelectsWithin(init, low, high, index) || (last.index == index && low <= last.priority <= high)
  {
    var all := init + [last];
    assert all[|init|] == last;
    if SelectsWithin(init, low, high, index) {
      var k :| 0 <= k < |init| && init[k].index == index && low <= init[k].priority <= high;
      assert all[k] == init[k];
    }
  }

  lemma {:induction false} PickHas(selections: seq<FileSelection>, low: int, high: int, index: int)
    ensures index in Pick(selections, low, high) <==> SelectsWithin(selections, low, high, index)
  {
    if selections != [] {
      var init, last := selections[..|selections| - 1], selections[|selections| - 1];
      PickHas(init, low, high, index);
      SelectsSnoc(init, last, low, high, index);
      assert init + [last] == selections;
    }
  }

  lemma {:induction false} UnmentionedHas(selections: seq<FileSelection>, count: nat, index: int)
    ensures index in Unmentioned(selections, count) <==> 0 <= index < count && !Mentions(selections, index)
  {
    if count > 0 {
      UnmentionedHas(selections, count - 1, index);
    }
  }

  /** All selections of one file agree with the `k`-th one. */
  predicate Agree(selections: seq<FileSelection>, k: nat)
    requires k < |selections|
  {
    forall j :: 0 <= j < |selections| && selections[j].index == selections[k].index ==>
      selections[j].priority == selections[k].priority
  }

  predicate Listed(list: Indexes, index: int) {
    list.Some? && index in list.value
  }

  /**
   What is sent splits the files: each is wanted or unwanted, and both only if it was selected both ways; a
   wanted one is of high or normal priority, and both only if it was selected both ways; no list is empty.
   */
  lemma RequestSplitsFiles(selections: seq<FileSelection>, fileCount: nat, index: int)
    requires AllValid(selections, fileCount)
    ensures var args := ArgsFor(selections, fileCount);
      && (Listed(args.wanted, index) || Listed(args.unwanted, index) <==> 0 <= index < fileCount)
      && (Listed(args.wanted, index) && Listed(args.unwanted, index) <==>
            SelectsWithin(selections, 1, 2, index) && SelectsWithin(selections, 0, 0, index))
      && (Listed(args.wanted, index) <==> Listed(args.high, index) || Listed(args.normal, index))
      && (Listed(args.high, index) && Listed(args.normal, index) <==>
            SelectsWithin(selections, 2, 2, index) && SelectsWithin(selections, 1, 1, index))
      && args.wanted != Some([]) && args.unwanted != Some([]) && args.high != Some([]) && args.normal != Some([])
  {
    PickHas(selections, 0, 0, index);
    PickHas(selections, 1, 1, index);
    PickHas(selections, 2, 2, index);
    PickHas(selections, 1, 2, index);
    UnmentionedHas(selections, fileCount, index);
    if Mentions(selections, index) {
      var k :| 0 <= k < |selections| && selections[k].index == index;
      assert IsValid(selections[k], fileCount);
    }
  }

  /** Where a file is listed when its selections agree. */
  lemma AgreedIsListed(selections: seq<FileSelection>, fileCount: nat, k: nat)
    requires AllValid(selections, fileCount) && k < |selections| && Agree(selections, k)
    ensures var s, args := selections[k], ArgsFor(selections, fileCount);
      && 0 <= s.index < fileCount && 0 <= s.priority <= 2
      && (Listed(args.wanted, s.index) <==> s.priority > 0) && (Listed(args.unwanted, s.index) <==> s.priority == 0)
      && (Listed(args.high, s.index) <==> s.priority == 2) && (Listed(args.normal, s.index) <==> s.priority == 1)
      && args.wanted != Some([]) && args.unwanted != Some([]) && args.high != Some([]) && args.normal != Some([])
  {
    var index := selections[k].index;
    assert IsValid(selections[k], fileCount);
    RequestSplitsFiles(selections, fileCount, index);
    PickHas(selections, 0, 0, index);
    PickHas(selections, 1, 1, index);
    PickHas(selections, 2, 2, index);
  }

  /** A file whose selections agree ends up as they say, in whatever order the daemon works. */
  lemma SelectionTakesEffect(selections: seq<FileSelection>, fileCount: nat, k: nat, stat: FileStat, order: Order)
    requires AllValid(selections, fileCount) && k < |selections| && Agree(selections, k)
    ensures var s := selections[k];
      View(s.index, Applied(stat, s.index, ArgsFor(selections, fileCount), order))
        == TaskFile(s.index, s.priority > 0, s.priority)
  {
    AgreedIsListed(selections, fileCount, k);
  }

  /** If empty lists were sent, deselecting all files could select them all. */
  lemma EmptyListMeansAll(stats: seq<FileStat>, i: nat)
    requires i < |stats|
    ensures var none := seq(|stats|, k => FileSelection(k, 0));
      var sent := ArgsFor(none, |stats|).(wanted := Some([]));
      Applied(stats[i], i, sent, Order(true, true)).wanted &&
      !Applied(stats[i], i, ArgsFor(none, |stats|), Order(true, true)).wanted
  {
    var none := seq(|stats|, k => FileSelection(k, 0));
    assert none[i].index == i;
    SelectionTakesEffect(none, |stats|, i, stats[i], Order(true, true));
  }

  /* ---------- Updates ---------- */

  /** What the last update of a file says. */
  function LastUpdate(updates: seq<FileSelection>, index: int): Option<int> {
    if updates == [] then None
    else
      var last := updates[|updates| - 1];
      if last.index == index then Some(last.priority) else LastUpdate(updates[..|updates| - 1], index)
  }

  /** A file after the updates, as it should be shown. */
  function Updated(file: TaskFile, updates: seq<FileSelection>): TaskFile {
    match LastUpdate(updates, file.fileIndex)
    case None => file
    case Some(priority) => TaskFile(file.fileIndex, priority > 0, priority)
  }

  /** The selection that stands for a shown file. */
  function SelectionOf(file: TaskFile): FileSelection {
    FileSelection(file.fileIndex, if file.selected then file.priority else 0)
  }

  predicate Shown(files: seq<TaskFile>) {
    forall i :: 0 <= i < |files| ==>
      files[i].fileIndex == i && 0 <= files[i].priority <= 2 && (files[i].selected <==> files[i].priority > 0)
  }

  /** Changes the shown files one update after the other, until one is invalid. */
  method ApplyUpdates(shown: seq<TaskFile>, updates: seq<FileSelection>) returns (r: Result<seq<TaskFile>>)
    requires Shown(shown)
    ensures r.Ok? <==> AllValid(updates, |shown|)
    ensures r.Err? ==> r == Err(InvalidInput)
    ensures r.Ok? ==> |r.value| == |shown| && Shown(r.value)
    ensures r.Ok? ==> forall i :: 0 <= i < |shown| ==> r.value[i] == Updated(shown[i], updates)
  {
    var files := shown;
    var byIndex := map i | 0 <= i < |files| :: files[i].fileIndex := i;
    forall i | 0 <= i < |shown|
      ensures i in byIndex && byIndex[i] == i
    {
      assert shown[i].fileIndex == i;
    }
    for k := 0 to |updates|
      invariant AllValid(updates[..k], |files|) && |files| == |shown| && Shown(files)
      invariant forall i :: 0 <= i < |files| ==> files[i] == Updated(shown[i], updates[..k])
    {
      assert updates[..k + 1][..k] == updates[..k];
      var update := updates[k];
      if update.index !in byIndex || update.priority < 0 || update.priority > 2 {
        assert !IsValid(updates[k], |files|);
        return Err(InvalidInput);
      }
      files := files[byIndex[update.index] := TaskFile(update.index, update.priority > 0, update.priority)];
    }
    assert updates[..|updates|] == updates;
    return Ok(files);
  }

  /** One selection for each file. */
  ghost predicate Selects(files: seq<TaskFile>, selections: seq<FileSelection>) {
    |selections| == |files| && forall i :: 0 <= i < |files| ==> selections[i] == SelectionOf(files[i])
  }

  method AllSelections(files: seq<TaskFile>) returns (selections: seq<FileSelection>)
    ensures Selects(files, selections)
  {
    selections := [];
    for i := 0 to |files|
      invariant |selections| == i && forall j :: 0 <= j < i ==> selections[j] == SelectionOf(files[j])
    {
      selections := selections + [SelectionOf(files[i])];
    }
  }

  lemma SelectionsAreGood(files: seq<TaskFile>, selections: seq<FileSelection>)
    requires Shown(files) && Selects(files, selections)
    ensures AllValid(selections, |files|) && forall k :: 0 <= k < |selections| ==> Agree(selections, k)
  {
  }

  /** Sending one selection for each file makes the daemon's files show as those files. */
  method SendAll(daemon: Daemon, files: seq<TaskFile>) returns (error: Option<Error>)
    requires Shown(files) && |files| == |daemon.stats|
    modifies daemon
    ensures error.None? ==> Views(daemon.stats) == files
    ensures error.Some? ==> daemon.stats == old(daemon.stats) && error != Some(InvalidInput) && daemon.broken
    ensures old(daemon.broken) ==> daemon.broken
  {
    var selections := AllSelections(files);
    SelectionsAreGood(files, selections);
    ghost var before := daemon.stats;
    error := SetFiles(daemon, selections);
    if error.None? {
      forall i | 0 <= i < |files|
        ensures View(i, daemon.stats[i]) == files[i]
      {
        SelectionTakesEffect(selections, |files|, i, before[i], daemon.order);
      }
    }
  }

  /** No later update is about the same file. */
  ghost predicate IsLast(updates: seq<FileSelection>, k: int) {
    0 <= k < |updates| && forall j :: k < j < |updates| ==> updates[j].index != updates[k].index
  }

  /** A file is as the last update says that names it, and as it was if none does. */
  lemma {:induction false} UpdatedMeans(file: TaskFile, updates: seq<FileSelection>, k: int)
    ensures !Mentions(updates, file.fileIndex) ==> Updated(file, updates) == file
    ensures IsLast(updates, k) && updates[k].index == file.fileIndex ==>
      Updated(file, updates) == TaskFile(file.fileIndex, updates[k].priority > 0, updates[k].priority)
    decreases |updates|
  {
    if updates != [] {
      var n := |updates| - 1;
      var init := updates[..n];
      UpdatedMeans(file, init, k);
      if !Mentions(updates, file.fileIndex) {
        assert updates[n].index != file.fileIndex && !Mentions(init, file.fileIndex);
      } else if IsLast(updates, k) && updates[k].index == file.fileIndex && k < n {
        assert updates[n].index != file.fileIndex && IsLast(init, k);
      }
    }
  }

  /** The files show the last update that names them, or what they showed before. */
  ghost predicate ShowUpdates(before: seq<TaskFile>, files: seq<TaskFile>, updates: seq<FileSelection>) {
    && |files| == |before|
    && (forall i :: 0 <= i < |files| && !Mentions(updates, i) ==> files[i] == before[i])
    && (forall k :: IsLast(updates, k) ==>
          0 <= updates[k].index < |files| &&
          files[updates[k].index] == TaskFile(updates[k].index, updates[k].priority > 0, updates[k].priority))
  }

  lemma UpdatesAreShown(before: seq<TaskFile>, files: seq<TaskFile>, updates: seq<FileSelection>)
    requires Shown(before) && |files| == |before| && AllValid(updates, |files|)
    requires forall i :: 0 <= i < |files| ==> files[i] == Updated(before[i], updates)
    ensures ShowUpdates(before, files, updates)
  {
    forall i | 0 <= i < |files| && !Mentions(updates, i)
      ensures files[i] == before[i]
    {
      UpdatedMeans(before[i], updates, 0);
    }
    forall k | IsLast(updates, k)
      ensures 0 <= updates[k].index < |files|
      ensures files[updates[k].index] == TaskFile(updates[k].index, updates[k].priority > 0, updates[k].priority)
    {
      assert IsValid(updates[k], |files|);
      UpdatedMeans(before[updates[k].index], updates, k);
    }
  }

  /**
   Applies updates and reads the files back: each file shows its last update, or what it showed before. A
   refused update changes nothing. Unless a call does not come through, exactly the valid updates succeed.
   */
  method UpdateFiles(daemon: Daemon, updates: seq<FileSelection>) returns (r: Result<seq<TaskFile>>)
    modifies daemon
    ensures r.Ok? ==> |daemon.stats| == |old(daemon.stats)| && r.value == Views(daemon.stats)
    ensures r.Ok? ==> ShowUpdates(Views(old(daemon.stats)), r.value, updates)
    ensures r.Ok? ==> updates != [] && AllValid(updates, |old(daemon.stats)|)
    ensures r == Err(InvalidInput) ==> updates == [] || !AllValid(updates, |daemon.stats|)
    ensures r.Err? ==> r == Err(InvalidInput) || daemon.broken
    ensures updates == [] || !AllValid(updates, |old(daemon.stats)|) ==> daemon.stats == old(daemon.stats)
    ensures daemon.stats == old(daemon.stats) || ShowUpdates(Views(old(daemon.stats)), Views(daemon.stats), updates)
  {
    if updates == [] {
      return Err(InvalidInput);
    }
    var shown := Files(daemon);
    if shown.Err? {
      return shown;
    }
    var files := ApplyUpdates(shown.value, updates);
    if files.Err? {
      return files;
    }
    UpdatesAreShown(shown.value, files.value, updates);
    var error := SendAll(daemon, files.value);
    if error.Some? {
      return Err(error.value);
    }
    r := Files(daemon);
  }

  /**
   The view is kept, the daemon's state not always: a file that no update names keeps its state exactly
   when it is unwanted or its priority is one that the view tells apart. A low priority becomes normal.
   */
  lemma UnnamedKeepsStateIff(selections: seq<FileSelection>, fileCount: nat, k: nat, stat: FileStat, order: Order)
    requires AllValid(selections, fileCount) && k < |selections| && Agree(selections, k)
    requires -1 <= stat.priority <= 1 && selections[k] == SelectionOf(View(selections[k].index, stat))
    ensures Applied(stat, selections[k].index, ArgsFor(selections, fileCount), order) == stat
      <==> !stat.wanted || stat.priority >= 0
  {
    AgreedIsListed(selections, fileCount, k);
  }
}
