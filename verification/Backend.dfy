/**
 What a backend makes of the paths it is given: every call cleans its path again before it looks. `KeyOf` is
 where a path leads then. The copy engine's way of making directories goes through that once for each prefix.
 */
module Backends {
  import opened Storage
  import opened ShareTree
  import Paths
  import Text

  /** Where a backend looks when it is given a path. */
  function KeyOf(text: string): Result<Path> {
    var form := Paths.RelativeForm(text);
    if form.Err? then Err(InvalidInput) else Ok(Paths.Names(form.value))
  }

  method Locate(text: string) returns (key: Result<Path>)
    ensures key == KeyOf(text)
  {
    var cleaned := Paths.CleanRelativePath(text);
    key := if cleaned.Ok? then Ok(Paths.Names(cleaned.value)) else Err(InvalidInput);
  }

  /** A path that a backend finds under its own text. */
  predicate Kept(p: Path) {
    Paths.AreNames(p) && KeyOf(Paths.Rel(p)) == Ok(p)
  }

  lemma KeyHasNames(text: string)
    requires KeyOf(text).Ok?
    ensures Paths.AreNames(KeyOf(text).value)
  {
    Paths.AcceptedIsNormal(text);
  }

  /** That is so exactly for paths without a backslash and without white space at their ends. */
  lemma KeptIff(p: Path)
    requires Paths.AreNames(p)
    ensures Kept(p) <==> '\\' !in Paths.Rel(p) && Paths.NoEdgeSpace(Paths.Rel(p))
  {
    var text := Paths.Rel(p);
    Paths.NamesOfRel(p);
    if KeyOf(text).Ok? {
      Paths.AcceptedIsNormal(text);
      Paths.AcceptedHasNoBackslash(text);
    }
    if '\\' !in text {
      Paths.FixpointIff(p);
    }
  }

  /** Cleaning makes no path longer. */
  lemma KeyShrinks(p: Path)
    requires KeyOf(Paths.Rel(p)).Ok?
    ensures |Paths.Rel(KeyOf(Paths.Rel(p)).value)| <= |Paths.Rel(p)|
  {
    var text := Text.TrimSpace(Paths.Slashes(Paths.Rel(p)));
    var parts := Text.Split(text, '/');
    Paths.AcceptedIsNormal(Paths.Rel(p));
    if text != "" && text != "." {
      Text.JoinSplit(text, '/');
      Paths.RealShrinks(parts);
      Paths.JoinSize(parts);
      Paths.JoinSize(Paths.Real(parts));
    }
  }

  /** And it drops no character but white space, slashes and dots. */
  lemma KeyKeepsChar(text: string, c: char)
    requires KeyOf(text).Ok? && c in text && !Text.IsSpace(c) && c != '/' && c != '\\' && c != '.'
    ensures c in Paths.Rel(KeyOf(text).value)
  {
    var slashed := Paths.Slashes(text);
    var trimmed := Text.TrimSpace(slashed);
    var i :| 0 <= i < |text| && text[i] == c;
    assert slashed[i] == c;
    Text.CountNone(slashed, c);
    Text.CountNone(trimmed, c);
    Text.TrimSpaceKeepsCount(slashed, c);
    var parts := Text.Split(trimmed, '/');
    Paths.AcceptedIsNormal(text);
    if c !in Paths.Rel(Paths.Real(parts)) {
      Paths.RealDropsNone(parts, c);
      Text.JoinSplit(trimmed, '/');
    }
  }

  /* ---------- Calls ---------- */

  method Stat(share: Share, text: string) returns (r: Result<Node>)
    modifies share`faulted
    ensures r.Ok? ==> KeyOf(text).Ok? && r == Lookup(share.nodes, KeyOf(text).value)
    ensures r == Err(NotFound) ==> KeyOf(text).Ok? && Lookup(share.nodes, KeyOf(text).value) == Err(NotFound)
    ensures r.Err? && r.error != NotFound ==> share.faulted || KeyOf(text).Err?
    ensures old(share.faulted) ==> share.faulted
  {
    var key := Locate(text);
    if key.Err? {
      return Err(InvalidInput);
    }
    r := share.Stat(key.value);
  }

  /** What is at a path; the root is a directory. */
  function Lookup(nodes: Nodes, p: Path): Result<Node> {
    if p == [] then Ok(Dir) else if p in nodes then Ok(nodes[p]) else Err(NotFound)
  }

  method Open(share: Share, text: string) returns (r: Result<Path>)
    modifies share`faulted
    ensures r.Ok? ==> r == KeyOf(text) && IsFile(share.nodes, r.value)
    ensures r.Err? ==> share.faulted || KeyOf(text).Err? || !IsFile(share.nodes, KeyOf(text).value)
    ensures old(share.faulted) ==> share.faulted
  {
    var key := Locate(text);
    if key.Err? {
      return Err(InvalidInput);
    }
    var data := share.Open(key.value);
    return if data.Err? then Err(data.error) else key;
  }

  /** Makes a directory and what is missing above it. */
  method Mkdir(share: Share, text: string) returns (error: Option<Error>)
    requires IsTree(share.nodes)
    modifies share
    ensures error.None? ==> KeyOf(text).Ok? && Made(old(share.nodes), share.nodes, KeyOf(text).value)
    ensures error.Some? && !share.faulted && KeyOf(text).Ok? && KeyOf(text).value != [] ==>
      FileAbove(old(share.nodes), KeyOf(text).value)
    ensures KeyOf(text).Err? || KeyOf(text).value == [] ==> error == Some(InvalidInput) && share.nodes == old(share.nodes)
    ensures KeyOf(text).Ok? ==> PartlyMade(old(share.nodes), share.nodes, KeyOf(text).value)
    ensures old(share.faulted) ==> share.faulted
    ensures error != Some(Conflict)
  {
    var key := Locate(text);
    if key.Ok? && key.value == [] {
      MadeAlready(share.nodes, []);
      assert UpTo([], []);
    }
    if key.Err? || key.value == [] {
      return Some(InvalidInput);
    }
    error := MkdirAll(share, key.value);
  }

  /* ---------- Making sure that a directory is there ---------- */

  /** Where the path of the first segment leads, that of the first two, and so on. */
  function PrefixKeys(dir: Path): (keys: seq<Result<Path>>)
    ensures |keys| == |dir|
    ensures forall k :: 0 <= k < |dir| ==> keys[k] == KeyOf(Paths.Rel(dir[..k + 1]))
  {
    seq(|dir|, k requires 0 <= k < |dir| => KeyOf(Paths.Rel(dir[..k + 1])))
  }

  /** One round: a directory is left alone, a missing one is made with what is missing above it. */
  ghost function EnsureAt(nodes: Nodes, key: Result<Path>): Option<Nodes> {
    if key.Err? then None
    else if IsDir(nodes, key.value) then Some(nodes)
    else if IsFile(nodes, key.value) || FileAbove(nodes, key.value) then None
    else Some(WithDirs(nodes, key.value))
  }

  /** The share after the rounds for the first `n` of `keys`; None means that a round fails. */
  ghost function Ensured(nodes: Nodes, keys: seq<Result<Path>>, n: nat): Option<Nodes>
    requires n <= |keys|
  {
    if n == 0 then Some(nodes) else EnsureThen(Ensured(nodes, keys, n - 1), keys[n - 1])
  }

  ghost function EnsureThen(before: Option<Nodes>, key: Result<Path>): Option<Nodes> {
    if before.None? then None else EnsureAt(before.value, key)
  }

  /** The share after all rounds for a directory. */
  ghost function EnsuredDir(nodes: Nodes, dir: Path): Option<Nodes> {
    Ensured(nodes, PrefixKeys(dir), |dir|)
  }

  /** The share after the call for a directory given as text, which is cleaned once before all that. */
  ghost function EnsuredText(nodes: Nodes, text: string): Option<Nodes> {
    if KeyOf(text).Err? then None else EnsuredDir(nodes, KeyOf(text).value)
  }

  ghost predicate LedTo(keys: seq<Result<Path>>, q: Path) {
    exists k :: 0 <= k < |keys| && keys[k].Ok? && UpTo(q, keys[k].value)
  }

  /** Nothing is lost, and what is new is directories on the way to where some key leads. */
  ghost predicate OnlyDirsNew(start: Nodes, nodes: Nodes, keys: seq<Result<Path>>) {
    && (forall q :: q in start ==> q in nodes && nodes[q] == start[q])
    && forall q :: q in nodes && q !in start ==> nodes[q] == Dir && LedTo(keys, q)
  }

  lemma WithDirsIsTree(nodes: Nodes, dir: Path)
    requires IsTree(nodes) && !FileAbove(nodes, dir)
    ensures IsTree(WithDirs(nodes, dir))
    ensures forall q :: q in nodes ==> q in WithDirs(nodes, dir) && WithDirs(nodes, dir)[q] == nodes[q]
    ensures forall q :: q in WithDirs(nodes, dir) && q !in nodes ==> UpTo(q, dir) && WithDirs(nodes, dir)[q] == Dir
  {
    if dir == [] {
      assert WithDirs(nodes, dir) == nodes;
    } else {
      MkdirAllMeans(nodes, WithDirs(nodes, dir), dir);
    }
  }

  lemma UpToTransitive(a: Path, b: Path, c: Path)
    requires UpTo(a, b) && UpTo(b, c)
    ensures UpTo(a, c)
  {
  }

  /** However far a round has come, the share has only grown by directories. */
  lemma RoundGrows(start: Nodes, before: Nodes, nodes: Nodes, keys: seq<Result<Path>>, k: nat)
    requires k < |keys| && IsTree(before) && OnlyDirsNew(start, before, keys)
    requires nodes == before || (keys[k].Ok? && PartlyMade(before, nodes, keys[k].value))
    ensures IsTree(nodes) && OnlyDirsNew(start, nodes, keys)
  {
    if nodes != before {
      var made :| UpTo(made, keys[k].value) && Made(before, nodes, made);
      WithDirsIsTree(before, made);
      forall q | q in nodes && q !in start
        ensures nodes[q] == Dir && LedTo(keys, q)
      {
        if q !in before {
          UpToTransitive(q, made, keys[k].value);
        }
      }
    }
  }

  /** One round: look, and make the directory if there is nothing. */
  method EnsureOne(share: Share, text: string) returns (error: Option<Error>)
    requires IsTree(share.nodes)
    modifies share
    ensures error.None? ==> EnsureAt(old(share.nodes), KeyOf(text)) == Some(share.nodes)
    ensures error.Some? ==> share.faulted || EnsureAt(old(share.nodes), KeyOf(text)) == None
    ensures share.nodes == old(share.nodes) ||
      (KeyOf(text).Ok? && PartlyMade(old(share.nodes), share.nodes, KeyOf(text).value))
    ensures old(share.faulted) ==> share.faulted
  {
    var entry := Stat(share, text);
    if entry.Ok? {
      return if entry.value.Dir? then None else Some(InvalidInput);
    }
    if entry.error != NotFound {
      return Some(entry.error);
    }
    error := Mkdir(share, text);
    if error == Some(Conflict) {
      error := None;
    }
  }

  /**
   The copy engine's way of making a directory: the path is cleaned, and then each prefix of it is looked up,
   and made if it is missing, by calls that clean it once more.
   */
  method EnsureDir(share: Share, text: string) returns (error: Option<Error>)
    requires IsTree(share.nodes)
    modifies share
    ensures error.None? ==> EnsuredText(old(share.nodes), text) == Some(share.nodes)
    ensures error.Some? ==> share.faulted || EnsuredText(old(share.nodes), text) == None
    ensures IsTree(share.nodes)
    ensures KeyOf(text).Ok? ==> OnlyDirsNew(old(share.nodes), share.nodes, PrefixKeys(KeyOf(text).value))
    ensures KeyOf(text).Err? ==> share.nodes == old(share.nodes)
    ensures old(share.faulted) ==> share.faulted
  {
    var key := Locate(text);
    if key.Err? {
      return Some(InvalidInput);
    }
    KeyHasNames(text);
    error := EnsureParts(share, key.value);
  }

  /** The loop over the prefixes of a cleaned path. */
  method EnsureParts(share: Share, parts: Path) returns (error: Option<Error>)
    requires IsTree(share.nodes) && Paths.AreNames(parts)
    modifies share
    ensures error.None? ==> EnsuredDir(old(share.nodes), parts) == Some(share.nodes)
    ensures error.Some? ==> share.faulted || EnsuredDir(old(share.nodes), parts) == None
    ensures IsTree(share.nodes) && OnlyDirsNew(old(share.nodes), share.nodes, PrefixKeys(parts))
    ensures old(share.faulted) ==> share.faulted
  {
    ghost var start, keys := share.nodes, PrefixKeys(parts);
    var current := "";
    for i := 0 to |parts|
      invariant current == Paths.Rel(parts[..i])
      invariant IsTree(share.nodes) && OnlyDirsNew(start, share.nodes, keys)
      invariant Ensured(start, keys, i) == Some(share.nodes)
      invariant old(share.faulted) ==> share.faulted
    {
      NextPrefix(parts, i);
      current := if current == "" then parts[i] else Paths.JoinPath(current, parts[i]);
      error := EnsureNext(share, current, start, keys, i);
      if error.Some? {
        EnsuredFails(start, keys, i + 1, |keys|);
        return;
      }
    }
    error := None;
  }

  /** One turn of that loop. */
  method EnsureNext(share: Share, current: string, ghost start: Nodes, ghost keys: seq<Result<Path>>, ghost i: nat)
    returns (error: Option<Error>)
    requires IsTree(share.nodes) && i < |keys| && KeyOf(current) == keys[i]
    requires OnlyDirsNew(start, share.nodes, keys) && Ensured(start, keys, i) == Some(share.nodes)
    modifies share
    ensures IsTree(share.nodes) && OnlyDirsNew(start, share.nodes, keys)
    ensures error.None? ==> Ensured(start, keys, i + 1) == Some(share.nodes)
    ensures error.Some? ==> share.faulted || Ensured(start, keys, i + 1) == None
    ensures old(share.faulted) ==> share.faulted
  {
    ghost var before := share.nodes;
    error := EnsureOne(share, current);
    RoundGrows(start, before, share.nodes, keys, i);
  }

  lemma NextPrefix(parts: Path, i: nat)
    requires Paths.AreNames(parts) && i < |parts|
    ensures var current := Paths.Rel(parts[..i]);
      Paths.Rel(parts[..i + 1]) == if current == "" then parts[i] else Paths.JoinPath(current, parts[i])
  {
    Paths.NamesOfRel(parts[..i]);
    assert parts[..i + 1] == parts[..i] + [parts[i]];
    if i > 0 {
      Paths.JoinPathIs(parts[..i], [parts[i]]);
      assert Paths.Rel([parts[i]]) == parts[i];
    } else {
      assert parts[..1] == [parts[0]];
    }
  }

  lemma {:induction false} EnsuredFails(nodes: Nodes, keys: seq<Result<Path>>, m: nat, n: nat)
    requires m <= n <= |keys|
    ensures Ensured(nodes, keys, m) == None ==> Ensured(nodes, keys, n) == None
  {
    if m < n {
      EnsuredFails(nodes, keys, m, n - 1);
    }
  }

  /* ---------- When that makes just the directory ---------- */

  /** Each key leads to `top` or to something above it. */
  ghost predicate LeadUpTo(keys: seq<Result<Path>>, top: Path) {
    forall k :: 0 <= k < |keys| ==> keys[k].Ok? && UpTo(keys[k].value, top)
  }

  /** Each prefix leads to `dir` or to something above it, and some prefix leads to `dir` itself. */
  ghost predicate Straight(dir: Path) {
    LeadUpTo(PrefixKeys(dir), dir) && (dir == [] || Ok(dir) in PrefixKeys(dir))
  }

  /** So far, only directories at or above `top` are new, and all is there that was asked for. */
  ghost predicate Grown(start: Nodes, nodes: Nodes, keys: seq<Result<Path>>, n: nat, top: Path)
    requires n <= |keys|
  {
    && IsTree(nodes)
    && (forall q :: q in start ==> q in nodes && nodes[q] == start[q])
    && (forall q :: q in nodes && q !in start ==> nodes[q] == Dir && UpTo(q, top))
    && forall k :: 0 <= k < n ==> keys[k].Ok? && IsDir(nodes, keys[k].value)
  }

  ghost predicate FileUpTo(nodes: Nodes, dir: Path) {
    exists p :: IsFile(nodes, p) && UpTo(p, dir)
  }

  lemma EnsureAtGrows(start: Nodes, before: Nodes, keys: seq<Result<Path>>, n: nat, top: Path)
    requires n < |keys| && Grown(start, before, keys, n, top)
    requires keys[n].Ok? && UpTo(keys[n].value, top)
    ensures EnsureAt(before, keys[n]).Some? ==> Grown(start, EnsureAt(before, keys[n]).value, keys, n + 1, top)
    ensures EnsureAt(before, keys[n]).None? ==> FileUpTo(start, top)
  {
    var key := keys[n].value;
    if IsDir(before, key) {
    } else if IsFile(before, key) {
      assert IsFile(start, key) && UpTo(key, top);
    } else if FileAbove(before, key) {
      var p :| IsFile(before, p) && Above(p, key);
      UpToTransitive(p, key, top);
      assert IsFile(start, p) && UpTo(p, top);
    } else {
      WithDirsIsTree(before, key);
      InPrefixes(key, key);
      forall q | UpTo(q, key)
        ensures UpTo(q, top)
      {
        UpToTransitive(q, key, top);
      }
    }
  }

  lemma {:induction false} EnsuredKeeps(nodes: Nodes, keys: seq<Result<Path>>, n: nat)
    requires n <= |keys| && Ensured(nodes, keys, n).Some?
    ensures forall q :: q in nodes ==> q in Ensured(nodes, keys, n).value && Ensured(nodes, keys, n).value[q] == nodes[q]
  {
    if n > 0 {
      EnsuredKeeps(nodes, keys, n - 1);
    }
  }

  /** When all keys lead up to `top`, a round fails only on a file that lies up to there. */
  lemma {:induction false} EnsuredGrows(start: Nodes, keys: seq<Result<Path>>, n: nat, top: Path)
    requires IsTree(start) && n <= |keys| && LeadUpTo(keys, top)
    ensures Ensured(start, keys, n).Some? ==> Grown(start, Ensured(start, keys, n).value, keys, n, top)
    ensures Ensured(start, keys, n).None? ==> FileUpTo(start, top)
  {
    if n > 0 {
      EnsuredGrows(start, keys, n - 1, top);
      if Ensured(start, keys, n - 1).Some? {
        EnsureAtGrows(start, Ensured(start, keys, n - 1).value, keys, n - 1, top);
      }
    }
  }

  /** The call does what it is for: it makes `dir` and no other directory, unless a file is in the way. */
  ghost predicate MakesJust(nodes: Nodes, dir: Path) {
    && (EnsuredDir(nodes, dir).Some? <==> !FileUpTo(nodes, dir))
    && (EnsuredDir(nodes, dir).Some? ==> EnsuredDir(nodes, dir).value == WithDirs(nodes, dir))
  }

  lemma GrownIsWithDirs(start: Nodes, nodes: Nodes, keys: seq<Result<Path>>, dir: Path)
    requires IsTree(start) && Grown(start, nodes, keys, |keys|, dir)
    requires dir == [] || Ok(dir) in keys
    ensures nodes == WithDirs(start, dir) && !FileUpTo(start, dir)
  {
    assert IsDir(nodes, dir);
    forall q | UpTo(q, dir)
      ensures IsDir(nodes, q)
    {
      if q != dir {
        AncestorIsDir(nodes, dir, q);
      }
    }
    SameKeys(start, nodes, dir);
    forall p | IsFile(start, p)
      ensures !UpTo(p, dir)
    {
      assert p != [];
    }
  }

  lemma SameKeys(start: Nodes, nodes: Nodes, dir: Path)
    requires forall q :: q in start ==> q in nodes && nodes[q] == start[q]
    requires forall q :: q in nodes && q !in start ==> nodes[q] == Dir && UpTo(q, dir)
    requires forall q :: UpTo(q, dir) ==> IsDir(nodes, q)
    requires [] !in nodes
    ensures nodes == WithDirs(start, dir)
  {
    forall q
      ensures q in Prefixes(dir) <==> q != [] && UpTo(q, dir)
    {
      InPrefixes(dir, q);
    }
  }

  lemma StraightMakesJust(nodes: Nodes, dir: Path)
    requires IsTree(nodes) && Straight(dir)
    ensures MakesJust(nodes, dir)
  {
    var keys := PrefixKeys(dir);
    EnsuredGrows(nodes, keys, |dir|, dir);
    if Ensured(nodes, keys, |dir|).Some? {
      GrownIsWithDirs(nodes, Ensured(nodes, keys, |dir|).value, keys, dir);
    }
  }

  /** Whatever was looked up is a directory at the end, and what is new is on the way to it. */
  ghost predicate Has(start: Nodes, nodes: Nodes, keys: seq<Result<Path>>, n: nat)
    requires n <= |keys|
  {
    && IsTree(nodes) && OnlyDirsNew(start, nodes, keys)
    && forall k :: 0 <= k < n ==> keys[k].Ok? && IsDir(nodes, keys[k].value)
  }

  lemma EnsureAtHas(start: Nodes, before: Nodes, keys: seq<Result<Path>>, n: nat)
    requires n < |keys| && Has(start, before, keys, n) && EnsureAt(before, keys[n]).Some?
    ensures Has(start, EnsureAt(before, keys[n]).value, keys, n + 1)
  {
    var key := keys[n].value;
    if !IsDir(before, key) {
      var nodes := WithDirs(before, key);
      WithDirsIsTree(before, key);
      InPrefixes(key, key);
      assert IsDir(nodes, key);
      forall q | q in nodes && q !in start
        ensures nodes[q] == Dir && LedTo(keys, q)
      {
        if q !in before {
          assert UpTo(q, keys[n].value);
        }
      }
    }
  }

  lemma {:induction false} EnsuredHas(start: Nodes, keys: seq<Result<Path>>, n: nat)
    requires IsTree(start) && n <= |keys| && Ensured(start, keys, n).Some?
    ensures Has(start, Ensured(start, keys, n).value, keys, n)
  {
    if n > 0 {
      EnsuredHas(start, keys, n - 1);
      EnsureAtHas(start, Ensured(start, keys, n - 1).value, keys, n - 1);
    }
  }

  /** In an empty share it is easy to see where the prefixes lead. */
  lemma EmptyShareTells(keys: seq<Result<Path>>, dir: Path)
    requires Ensured(map[], keys, |keys|) == Some(WithDirs(map[], dir))
    ensures LeadUpTo(keys, dir) && (dir == [] || Ok(dir) in keys)
  {
    var none: Nodes := map[];
    EnsuredHas(none, keys, |keys|);
    forall q
      ensures q in WithDirs(none, dir) <==> q != [] && UpTo(q, dir)
    {
      InPrefixes(dir, q);
    }
    if dir != [] {
      assert UpTo(dir, dir) && LedTo(keys, dir);
      var k :| 0 <= k < |keys| && keys[k].Ok? && UpTo(dir, keys[k].value);
      assert UpTo(keys[k].value, dir);
      assert keys[k].value == dir;
    }
  }

  /** The call does what it is for on every share exactly when the path is straight. */
  lemma StraightIff(dir: Path)
    ensures Straight(dir) <==>
      forall nodes: Nodes {:trigger MakesJust(nodes, dir)} :: IsTree(nodes) ==> MakesJust(nodes, dir)
  {
    if Straight(dir) {
      forall nodes: Nodes | IsTree(nodes)
        ensures MakesJust(nodes, dir)
      {
        StraightMakesJust(nodes, dir);
      }
    }
    if forall nodes: Nodes {:trigger MakesJust(nodes, dir)} :: IsTree(nodes) ==> MakesJust(nodes, dir) {
      var none: Nodes := map[];
      assert IsTree(none) && MakesJust(none, dir);
      assert !FileUpTo(none, dir);
      EmptyShareTells(PrefixKeys(dir), dir);
    }
  }

  lemma KeptPrefixesAreStraight(dir: Path)
    requires forall k :: 0 < k <= |dir| ==> Kept(dir[..k])
    ensures Straight(dir)
  {
    var keys := PrefixKeys(dir);
    forall k | 0 <= k < |dir|
      ensures keys[k] == Ok(dir[..k + 1]) && UpTo(dir[..k + 1], dir)
    {
      assert Kept(dir[..k + 1]);
    }
    if dir != [] {
      assert dir[..|dir|] == dir && keys[|dir| - 1] == Ok(dir);
    }
  }

  /** White space at the end of a path is dropped. */
  lemma TrailingSpaceIsDropped(p: Path)
    requires Kept(p) && p != []
    ensures KeyOf(Paths.Rel(p) + " ") == Ok(p)
  {
    KeptIff(p);
    var text := Paths.Rel(p);
    Paths.RelEdges(p);
    assert Paths.Slashes(text + " ") == text + " ";
    assert (text + " ")[..|text|] == text;
    assert Text.TrimSpace(text + " ") == text;
    assert Paths.Slashes(text) == text;
  }

  /** A directory whose name ends in a space, inside a path, leads astray: the call makes the one without it. */
  lemma SpacedDirectoryIsNotStraight(p: Path, more: Path)
    requires Kept(p) && p != [] && more != []
    ensures !Straight(p[..|p| - 1] + [p[|p| - 1] + " "] + more)
  {
    var init, last := p[..|p| - 1], p[|p| - 1];
    var dir := init + [last + " "] + more;
    assert dir[..|p|] == init + [last + " "] && p == init + [last];
    SpacedText(init, last);
    TrailingSpaceIsDropped(p);
    assert PrefixKeys(dir)[|p| - 1] == Ok(p);
    assert p[|p| - 1] != dir[|p| - 1] by { assert |last + " "| == |last| + 1; }
    assert !UpTo(p, dir);
  }

  lemma SpacedText(init: Path, last: string)
    ensures Paths.Rel(init + [last + " "]) == Paths.Rel(init + [last]) + " "
  {
    if init != [] {
      Text.JoinAppend(init, [last + " "], '/');
      Text.JoinAppend(init, [last], '/');
    } else {
      assert init + [last] == [last] && init + [last + " "] == [last + " "];
    }
  }
}
