/**
 Path normal forms: the cleaning of relative paths shared by the storage backends and the configuration,
 the mapping of a relative path into a local root, an object-store prefix or a sync target, and the
 download directories of the torrent daemon. Paths are POSIX paths.
 */
module Paths {
  import opened Storage
  import opened Text

  /* ---------- The path package ---------- */

  /** The segments of a path after "." and ".." are resolved against `out`; a rooted path has no parent. */
  function Resolve(parts: seq<string>, rooted: bool, out: seq<string>): seq<string>
    decreases |parts|
  {
    if parts == [] then out
    else if parts[0] == "" || parts[0] == "." then Resolve(parts[1..], rooted, out)
    else if parts[0] == ".." then
      if out != [] && out[|out| - 1] != ".." then Resolve(parts[1..], rooted, out[..|out| - 1])
      else if rooted then Resolve(parts[1..], rooted, out)
      else Resolve(parts[1..], rooted, out + [parts[0]])
    else Resolve(parts[1..], rooted, out + [parts[0]])
  }

  /** path.Clean */
  function Clean(p: string): string {
    if p == "" then "."
    else if p[0] == '/' then "/" + Join(Resolve(Split(p, '/'), true, []), '/')
    else
      var out := Resolve(Split(p, '/'), false, []);
      if out == [] then "." else Join(out, '/')
  }

  /** path.Join of two elements */
  function JoinPath(a: string, b: string): string {
    if a == "" && b == "" then ""
    else if a == "" then Clean(b)
    else if b == "" then Clean(a)
    else Clean(a + "/" + b)
  }

  function TrimRightSlashes(p: string): string {
    if p != "" && p[|p| - 1] == '/' then TrimRightSlashes(p[..|p| - 1]) else p
  }

  /** path.Base */
  function Base(p: string): string {
    if p == "" then "."
    else
      var parts := Split(TrimRightSlashes(p), '/');
      if parts[|parts| - 1] == "" then "/" else parts[|parts| - 1]
  }

  /** path.Dir */
  function Dir(p: string): string {
    var parts := Split(p, '/');
    if |parts| == 1 then "." else Clean(Join(parts[..|parts| - 1], '/') + "/")
  }

  /* ---------- Segments ---------- */

  predicate IsName(part: string) {
    part != "" && part != "." && part != ".." && '/' !in part
  }

  /** A relative path in normal form, as its segments; the empty sequence is the root of a backend. */
  predicate AreNames(names: seq<string>) {
    forall i :: 0 <= i < |names| ==> IsName(names[i])
  }

  function Real(parts: seq<string>): seq<string> {
    if parts == [] then []
    else if parts[0] == "" || parts[0] == "." then Real(parts[1..])
    else [parts[0]] + Real(parts[1..])
  }

  function Rel(names: seq<string>): string { Join(names, '/') }

  function Abs(names: seq<string>): string { "/" + Join(names, '/') }

  /** The segments of a relative path in normal form. */
  function Names(p: string): seq<string> {
    if p == "" then [] else Split(p, '/')
  }

  lemma {:induction false} RealNames(parts: seq<string>)
    requires Free(parts, '/') && ".." !in parts
    ensures AreNames(Real(parts))
  {
    if parts != [] {
      RealNames(parts[1..]);
    }
  }

  lemma {:induction false} RealOfNames(names: seq<string>)
    requires AreNames(names)
    ensures Real(names) == names
  {
    if names != [] {
      RealOfNames(names[1..]);
    }
  }

  lemma {:induction false} RealAppend(a: seq<string>, b: seq<string>)
    ensures Real(a + b) == Real(a) + Real(b)
  {
    if a == [] {
      assert a + b == b;
    } else {
      assert (a + b)[1..] == a[1..] + b;
      RealAppend(a[1..], b);
    }
  }

  lemma {:induction false} ResolveReal(parts: seq<string>, rooted: bool, out: seq<string>)
    requires ".." !in parts
    ensures Resolve(parts, rooted, out) == out + Real(parts)
    decreases |parts|
  {
    if parts != [] {
      ResolveReal(parts[1..], rooted, out);
      ResolveReal(parts[1..], rooted, out + [parts[0]]);
    }
  }

  lemma {:induction false} ResolveAppend(a: seq<string>, b: seq<string>, rooted: bool, out: seq<string>)
    ensures Resolve(a + b, rooted, out) == Resolve(b, rooted, Resolve(a, rooted, out))
    decreases |a|
  {
    if a == [] {
      assert a + b == b;
    } else {
      assert (a + b)[1..] == a[1..] + b;
      ResolveAppend(a[1..], b, rooted, out);
      ResolveAppend(a[1..], b, rooted, out + [a[0]]);
      if out != [] {
        ResolveAppend(a[1..], b, rooted, out[..|out| - 1]);
      }
    }
  }

  lemma {:induction false} ResolveRootedNames(parts: seq<string>, out: seq<string>)
    requires Free(parts, '/') && AreNames(out)
    ensures AreNames(Resolve(parts, true, out))
    decreases |parts|
  {
    if parts != [] {
      ResolveRootedNames(parts[1..], out);
      if out != [] {
        ResolveRootedNames(parts[1..], out[..|out| - 1]);
      }
      if IsName(parts[0]) {
        ResolveRootedNames(parts[1..], out + [parts[0]]);
      }
    }
  }

  lemma NamesFree(names: seq<string>)
    requires AreNames(names)
    ensures Free(names, '/') && ".." !in names
  {
  }

  /** Rel and Names are inverse on normal forms. */
  lemma NamesOfRel(names: seq<string>)
    requires AreNames(names)
    ensures Names(Rel(names)) == names
    ensures Rel(names) == "" <==> names == []
  {
    if names != [] {
      NamesFree(names);
      SplitJoin(names, '/');
      assert Split("", '/') == [""];
    }
  }

  lemma {:induction false} RelEdges(names: seq<string>)
    requires AreNames(names) && names != []
    ensures Rel(names) != "" && Rel(names)[0] != '/' && Rel(names)[|Rel(names)| - 1] != '/'
    ensures Rel(names) != "." && Rel(names) != ".."
    ensures Rel(names)[0] == names[0][0]
  {
    assert IsName(names[0]);
    if |names| > 1 {
      RelEdges(names[1..]);
    }
  }

  lemma CleanAbs(names: seq<string>)
    requires AreNames(names)
    ensures Clean(Abs(names)) == Abs(names)
  {
    CleanedText(names);
    var parts := Split(Rel(names), '/');
    CleanRooted(Rel(names));
    RealOfNames(names);
    assert Real([""]) == [];
  }

  /** The parts of an absolute normal form followed by more path. */
  lemma SplitAbsJoin(names: seq<string>, tail: string)
    requires AreNames(names)
    ensures Split(Abs(names) + "/" + tail, '/')
         == ([""] + if names == [] then [""] else names) + Split(tail, '/')
  {
    assert Abs(names) + "/" + tail == Abs(names) + ['/'] + tail;
    SplitConcat(Abs(names), tail, '/');
    assert Abs(names) == "" + ['/'] + Rel(names);
    SplitConcat("", Rel(names), '/');
    SplitNoSep("", '/');
    CleanedText(names);
  }

  /** Cleaning a path below an absolute normal form resolves it against that form. */
  lemma CleanAbsJoin(names: seq<string>, tail: string)
    requires AreNames(names)
    ensures Clean(Abs(names) + "/" + tail) == Abs(Resolve(Split(tail, '/'), true, names))
  {
    SplitAbsJoin(names, tail);
    var head := [""] + if names == [] then [""] else names;
    ResolveAppend(head, Split(tail, '/'), true, []);
    NamesFree(names);
    ResolveReal(head, true, []);
    assert head[1..] == if names == [] then [""] else names;
    assert Real([""]) == [];
    RealOfNames(names);
    assert [] + Real(head) == names;
    assert (Abs(names) + "/" + tail)[0] == '/';
  }

  lemma AbsInjective(a: seq<string>, b: seq<string>)
    requires AreNames(a) && AreNames(b) && Abs(a) == Abs(b)
    ensures a == b
  {
    assert Abs(a)[1..] == Rel(a) && Abs(b)[1..] == Rel(b);
    NamesOfRel(a);
    NamesOfRel(b);
  }

  /* ---------- Lengths ---------- */

  function Size(parts: seq<string>): nat {
    if parts == [] then 0 else |parts[0]| + 1 + Size(parts[1..])
  }

  lemma {:induction false} SizeAppend(a: seq<string>, b: seq<string>)
    ensures Size(a + b) == Size(a) + Size(b)
  {
    if a == [] {
      assert a + b == b;
    } else {
      assert (a + b)[1..] == a[1..] + b;
      SizeAppend(a[1..], b);
    }
  }

  lemma {:induction false} JoinSize(parts: seq<string>)
    requires parts != []
    ensures |Join(parts, '/')| + 1 == Size(parts)
  {
    if |parts| > 1 {
      JoinSize(parts[1..]);
    }
  }

  lemma {:induction false} ResolveShrinks(parts: seq<string>, rooted: bool, out: seq<string>)
    ensures Size(Resolve(parts, rooted, out)) <= Size(out) + Size(parts)
    decreases |parts|
  {
    if parts != [] {
      ResolveShrinks(parts[1..], rooted, out);
      ResolveShrinks(parts[1..], rooted, out + [parts[0]]);
      SizeAppend(out, [parts[0]]);
      assert Size([parts[0]]) == |parts[0]| + 1;
      if out != [] {
        ResolveShrinks(parts[1..], rooted, out[..|out| - 1]);
        SizeAppend(out[..|out| - 1], [out[|out| - 1]]);
        assert out[..|out| - 1] + [out[|out| - 1]] == out;
      }
    }
  }

  lemma {:induction false} RealShrinks(parts: seq<string>)
    ensures Size(Real(parts)) <= Size(parts)
  {
    if parts != [] {
      RealShrinks(parts[1..]);
      assert ([parts[0]] + Real(parts[1..]))[1..] == Real(parts[1..]);
    }
  }

  /* ---------- Relative paths of a backend ---------- */

  function Slashes(raw: string): string { ReplaceAll(raw, '\\', '/') }

  /** What a relative path is accepted as, stated without the path package. */
  function RelativeForm(raw: string): Result<string> {
    RelativeOfText(TrimSpace(Slashes(raw)))
  }

  function RelativeOfText(text: string): Result<string> {
    if text == "" || text == "." then Ok("")
    else if ".." in Split(text, '/') || Real(Split(text, '/')) == [] then Err(InvalidInput)
    else Ok(Rel(Real(Split(text, '/'))))
  }

  method CleanRelativePath(raw: string) returns (r: Result<string>)
    ensures r == RelativeForm(raw)
  {
    var text := TrimSpace(Slashes(raw));
    if text == "" || text == "." {
      return Ok("");
    }
    var parts := Split(text, '/');
    for i := 0 to |parts|
      invariant ".." !in parts[..i]
    {
      if parts[i] == ".." {
        return Err(InvalidInput);
      }
    }
    var cleaned := TrimPrefix(Clean("/" + TrimPrefix(text, "/")), "/");
    CleanRelativeText(text);
    CleanedText(Real(parts));
    if cleaned == "." {
      return Ok("");
    }
    if cleaned == ".." || HasPrefix(cleaned, "../") {
      return Err(InvalidInput);
    }
    var segments := Split(cleaned, '/');
    for i := 0 to |segments|
      invariant Real(parts) == [] ==> i == 0
    {
      if segments[i] == ".." || segments[i] == "" {
        return Err(InvalidInput);
      }
    }
    return Ok(cleaned);
  }

  /** What the checks on a cleaned path see. */
  lemma CleanedText(names: seq<string>)
    requires AreNames(names)
    ensures Rel(names) != "." && Rel(names) != ".." && !HasPrefix(Rel(names), "../")
    ensures Split(Rel(names), '/') == if names == [] then [""] else names
  {
    var p := Rel(names);
    if names == [] {
      assert Split("", '/') == [""];
    } else {
      NamesOfRel(names);
      RelEdges(names);
      if HasPrefix(p, "../") {
        assert p == ".." + ['/'] + p[3..];
        SplitConcat("..", p[3..], '/');
        SplitNoSep("..", '/');
      }
    }
  }

  /** Without "..", cleaning the rooted text and dropping its slash leaves the real segments. */
  lemma CleanRelativeText(text: string)
    requires ".." !in Split(text, '/')
    ensures TrimPrefix(Clean("/" + TrimPrefix(text, "/")), "/") == Rel(Real(Split(text, '/')))
    ensures AreNames(Real(Split(text, '/')))
  {
    var parts, body := Split(text, '/'), TrimPrefix(text, "/");
    SplitFree(text, '/');
    RealNames(parts);
    LeadingSlash(text);
    CleanRooted(body);
    var cleaned := "/" + Rel(Real(parts));
    assert cleaned[1..] == Rel(Real(parts)) && cleaned[..1] == "/";
  }

  lemma LeadingSlash(text: string)
    requires ".." !in Split(text, '/')
    ensures var body := TrimPrefix(text, "/");
      ".." !in Split(body, '/') && Real(Split(body, '/')) == Real(Split(text, '/'))
  {
    var body := TrimPrefix(text, "/");
    if HasPrefix(text, "/") {
      assert text == "" + ['/'] + body;
      SplitConcat("", body, '/');
      assert Split("", '/') == [""];
      assert ([""] + Split(body, '/'))[1..] == Split(body, '/');
    }
  }

  lemma CleanRooted(body: string)
    requires ".." !in Split(body, '/')
    ensures Clean("/" + body) == "/" + Rel(Real(Split(body, '/')))
  {
    assert "/" + body == "" + ['/'] + body;
    SplitConcat("", body, '/');
    assert Split("", '/') == [""];
    var parts := [""] + Split(body, '/');
    assert parts[1..] == Split(body, '/');
    assert Split("/" + body, '/') == parts;
    ResolveReal(parts, true, []);
    assert [] + Real(parts) == Real(Split(body, '/'));
  }

  /** An accepted path is empty, or all its segments are proper names: it can neither climb nor stand still. */
  lemma AcceptedIsNormal(raw: string)
    requires RelativeForm(raw).Ok?
    ensures AreNames(Names(RelativeForm(raw).value))
    ensures Rel(Names(RelativeForm(raw).value)) == RelativeForm(raw).value
  {
    var text := TrimSpace(Slashes(raw));
    if text != "" && text != "." {
      SplitFree(text, '/');
      RealNames(Split(text, '/'));
      NamesOfRel(Real(Split(text, '/')));
    }
  }

  /** "/" and "./" are rejected although they name the root, which "" and "." are accepted for. */
  lemma RootSpellings()
    ensures RelativeForm("/") == Err(InvalidInput) && RelativeForm("./") == Err(InvalidInput)
    ensures RelativeForm("") == Ok("") && RelativeForm(".") == Ok("")
  {
  }

  predicate HasRealPart(parts: seq<string>) {
    exists k :: 0 <= k < |parts| && parts[k] != "" && parts[k] != "."
  }

  lemma {:induction false} RealIsEmptyIff(parts: seq<string>)
    ensures Real(parts) != [] <==> HasRealPart(parts)
  {
    if parts != [] {
      RealIsEmptyIff(parts[1..]);
      if HasRealPart(parts[1..]) {
        var k :| 0 <= k < |parts[1..]| && parts[1..][k] != "" && parts[1..][k] != ".";
        assert parts[k + 1] == parts[1..][k];
      }
    }
  }

  /**
   A path is accepted exactly when it is blank or a single dot, or has no ".." and has a segment that names
   something: the other spellings of the root, of slashes and dots, are refused.
   */
  lemma AcceptedIff(raw: string)
    ensures var text := TrimSpace(Slashes(raw));
      RelativeForm(raw).Ok? <==>
        text == "" || text == "." || (".." !in Split(text, '/') && HasRealPart(Split(text, '/')))
  {
    RealIsEmptyIff(Split(TrimSpace(Slashes(raw)), '/'));
  }

  predicate NoEdgeSpace(p: string) {
    p == "" || (!IsSpace(p[0]) && !IsSpace(p[|p| - 1]))
  }

  /** A normal form without a backslash is accepted unchanged exactly when it has no white space at its ends. */
  lemma FixpointIff(names: seq<string>)
    requires AreNames(names) && '\\' !in Rel(names)
    ensures RelativeForm(Rel(names)) == Ok(Rel(names)) <==> NoEdgeSpace(Rel(names))
  {
    var p := Rel(names);
    assert Slashes(p) == p;
    NamesOfRel(names);
    if names == [] {
    } else if NoEdgeSpace(p) {
      RelEdges(names);
      RealOfNames(names);
      NamesFree(names);
    } else {
      var text := TrimSpace(p);
      assert |text| < |p|;
      JoinSplit(text, '/');
      RealShrinks(Split(text, '/'));
      JoinSize(Split(text, '/'));
      if Real(Split(text, '/')) != [] {
        JoinSize(Real(Split(text, '/')));
      }
    }
  }

  lemma {:induction false} RealChars(parts: seq<string>, bad: char)
    requires bad != '/' && forall i :: 0 <= i < |parts| ==> bad !in parts[i]
    ensures bad !in Rel(Real(parts))
  {
    if parts != [] {
      RealChars(parts[1..], bad);
      var rest := Real(parts[1..]);
      if parts[0] != "" && parts[0] != "." && rest != [] {
        assert ([parts[0]] + rest)[1..] == rest;
      }
    }
  }

  lemma {:induction false} RealDropsNone(parts: seq<string>, c: char)
    requires c != '/' && c != '.' && c !in Rel(Real(parts))
    ensures c !in Rel(parts)
  {
    if parts != [] {
      var rest := Real(parts[1..]);
      if parts[0] != "" && parts[0] != "." && rest != [] {
        assert ([parts[0]] + rest)[1..] == rest;
      }
      RealDropsNone(parts[1..], c);
    }
  }

  lemma {:induction false} SplitChars(s: string, bad: char)
    requires bad !in s
    ensures forall i :: 0 <= i < |Split(s, '/')| ==> bad !in Split(s, '/')[i]
  {
    if s != "" {
      SplitChars(s[1..], bad);
    }
  }

  /* ---------- Paths of sync rules ---------- */

  /** What a path of a sync rule is accepted as. */
  function SyncForm(raw: string): Result<string> {
    var text := TrimSlashes(TrimSpace(Slashes(raw)));
    if text == "" || text == "." then Ok("")
    else if ".." in Split(text, '/') then Err(InvalidInput)
    else Ok(Rel(Real(Split(text, '/'))))
  }

  method CleanSyncPath(raw: string) returns (r: Result<string>)
    ensures r == SyncForm(raw)
  {
    var text := TrimSlashes(TrimSpace(Slashes(raw)));
    if text == "" || text == "." {
      return Ok("");
    }
    var all := Split(text, '/');
    for i := 0 to |all|
      invariant ".." !in all[..i]
    {
      if all[i] == "" || all[i] == "." {
        continue;
      }
      if all[i] == ".." {
        return Err(InvalidInput);
      }
    }
    var parts := [];
    for i := 0 to |all|
      invariant parts == Real(all[..i])
    {
      assert all[..i + 1] == all[..i] + [all[i]];
      RealAppend(all[..i], [all[i]]);
      if all[i] == "" || all[i] == "." {
        continue;
      }
      parts := parts + [all[i]];
    }
    assert all[..|all|] == all;
    return Ok(Rel(parts));
  }

  lemma SyncFormNames(raw: string)
    requires SyncForm(raw).Ok?
    ensures AreNames(Names(SyncForm(raw).value)) && Rel(Names(SyncForm(raw).value)) == SyncForm(raw).value
    ensures '\\' !in SyncForm(raw).value
  {
    var text := TrimSlashes(TrimSpace(Slashes(raw)));
    if text != "" && text != "." {
      SplitFree(text, '/');
      RealNames(Split(text, '/'));
      NamesOfRel(Real(Split(text, '/')));
      TrimSpaceKeepsOut(Slashes(raw), '\\');
      TrimSlashesKeepsOut(TrimSpace(Slashes(raw)), '\\');
      SplitChars(text, '\\');
      RealChars(Split(text, '/'), '\\');
    }
  }

  /**
   A path that the configuration accepted means the same to the storage service, unchanged, exactly when
   it has no white space at its ends.
   */
  lemma SyncPathIsFixpoint(raw: string)
    requires SyncForm(raw).Ok?
    ensures var p := SyncForm(raw).value; RelativeForm(p) == Ok(p) <==> NoEdgeSpace(p)
  {
    SyncFormNames(raw);
    FixpointIff(Names(SyncForm(raw).value));
  }

  lemma AcceptedHasNoBackslash(raw: string)
    requires RelativeForm(raw).Ok?
    ensures '\\' !in RelativeForm(raw).value
  {
    var text := TrimSpace(Slashes(raw));
    TrimSpaceKeepsOut(Slashes(raw), '\\');
    SplitChars(text, '\\');
    RealChars(Split(text, '/'), '\\');
  }

  /** Cleaning an accepted path again changes nothing, exactly when it has no white space at its ends. */
  lemma CleaningIsIdempotent(raw: string)
    requires RelativeForm(raw).Ok?
    ensures var p := RelativeForm(raw).value; RelativeForm(p) == Ok(p) <==> NoEdgeSpace(p)
  {
    AcceptedIsNormal(raw);
    AcceptedHasNoBackslash(raw);
    FixpointIff(Names(RelativeForm(raw).value));
  }

  /* ---------- A local root ---------- */

  /** filepath.Rel between two absolute normal forms */
  function Relative(base: seq<string>, target: seq<string>): seq<string> {
    if base != [] && target != [] && base[0] == target[0] then Relative(base[1..], target[1..])
    else seq(|base|, _ => "..") + target
  }

  predicate IsWithinRoot(base: seq<string>, target: seq<string>) {
    var r := Relative(base, target);
    r == [] || r[0] != ".."
  }

  /** The absolute path of `relative` in the backend whose root is Abs(root). */
  function ResolveLocal(root: seq<string>, relative: string): Result<string> {
    var cleaned := RelativeForm(relative);
    if cleaned.Err? then cleaned
    else
      var target := Clean(if cleaned.value == "" then Abs(root) else JoinPath(Abs(root), cleaned.value));
      if !IsWithinRoot(root, Names(TrimPrefix(target, "/"))) then Err(InvalidInput) else Ok(target)
  }

  lemma {:induction false} RelativeOfPrefix(base: seq<string>, tail: seq<string>)
    ensures Relative(base, base + tail) == tail
  {
    if base != [] {
      assert (base + tail)[1..] == base[1..] + tail;
      RelativeOfPrefix(base[1..], tail);
    }
  }

  /**
   The root check never fires: resolving succeeds exactly on the accepted paths, and yields the root
   followed by the path's own segments.
   */
  lemma ResolveLocalIs(root: seq<string>, relative: string)
    requires AreNames(root)
    ensures ResolveLocal(root, relative).Ok? <==> RelativeForm(relative).Ok?
    ensures RelativeForm(relative).Ok? ==>
      ResolveLocal(root, relative).value == Abs(root + Names(RelativeForm(relative).value))
  {
    if RelativeForm(relative).Ok? {
      AcceptedIsNormal(relative);
      var cleaned := RelativeForm(relative).value;
      var names := Names(cleaned);
      var all := root + names;
      CleanAbs(root);
      CleanAbs(all);
      if cleaned != "" {
        CleanAbsJoin(root, cleaned);
        ResolveReal(names, true, root);
        RealOfNames(names);
      } else {
        assert all == root;
      }
      RelativeOfPrefix(root, names);
      NamesOfRel(all);
      assert Abs(all)[..1] == "/" && Abs(all)[1..] == Rel(all);
    }
  }

  /** Two requests reach the same file exactly when they clean to the same relative path. */
  lemma ResolveLocalInjective(root: seq<string>, a: string, b: string)
    requires AreNames(root) && RelativeForm(a).Ok? && RelativeForm(b).Ok?
    ensures ResolveLocal(root, a) == ResolveLocal(root, b) <==> RelativeForm(a) == RelativeForm(b)
  {
    ResolveLocalIs(root, a);
    ResolveLocalIs(root, b);
    AcceptedIsNormal(a);
    AcceptedIsNormal(b);
    if ResolveLocal(root, a) == ResolveLocal(root, b) {
      var x, y := root + Names(RelativeForm(a).value), root + Names(RelativeForm(b).value);
      AbsInjective(x, y);
      assert x[|root|..] == Names(RelativeForm(a).value) && y[|root|..] == Names(RelativeForm(b).value);
    }
  }

  /* ---------- Keys of an object store ---------- */

  function ObjectKey(prefix: string, relative: string): Result<string> {
    var cleaned := RelativeForm(relative);
    if cleaned.Err? then cleaned
    else if prefix == "" then cleaned
    else if cleaned.value == "" then Ok(prefix)
    else Ok(prefix + "/" + cleaned.value)
  }

  function StripPrefix(prefix: string, key: string): string {
    TrimPrefix(TrimPrefix(key, prefix), "/")
  }

  /** The key of a path leads back to the path, whatever the bucket prefix. */
  lemma StripInvertsKey(prefix: string, relative: string)
    requires RelativeForm(relative).Ok?
    ensures ObjectKey(prefix, relative).Ok?
    ensures StripPrefix(prefix, ObjectKey(prefix, relative).value) == RelativeForm(relative).value
  {
    AcceptedIsNormal(relative);
    var cleaned := RelativeForm(relative).value;
    if cleaned != "" {
      RelEdges(Names(cleaned));
      StripText(prefix, cleaned);
    }
  }

  /** What stripping does to a key of two parts, and to one without a prefix. */
  lemma StripText(prefix: string, cleaned: string)
    requires cleaned != "" && cleaned[0] != '/'
    ensures StripPrefix(prefix, prefix + "/" + cleaned) == cleaned
    ensures StripPrefix("", cleaned) == cleaned
  {
    var key := prefix + "/" + cleaned;
    assert key[|prefix|..] == "/" + cleaned && key[..|prefix|] == prefix;
    assert ("/" + cleaned)[1..] == cleaned && ("/" + cleaned)[..1] == "/";
    assert cleaned[..1] != "/";
  }

  /* ---------- Targets of a sync ---------- */

  function RelativeUnder(root: string, full: string): string {
    var root := TrimSlashes(root);
    var full := TrimSlashes(full);
    if root == "" then full
    else if full == root then ""
    else if HasPrefix(full, root + "/") then TrimPrefix(full, root + "/")
    else Base(full)
  }

  /** Where the file `file`, found under `src`, is copied to under `dst`. */
  function Target(src: string, dst: string, file: string): string {
    var rel := RelativeUnder(src, file);
    if rel != "" then
      if dst == "" then rel else JoinPath(dst, rel)
    else if dst == "" then Base(file)
    else dst
  }

  lemma TrimSlashOfRel(names: seq<string>)
    requires AreNames(names)
    ensures TrimSlashes(Rel(names)) == Rel(names)
  {
    if names != [] {
      RelEdges(names);
    }
  }

  lemma RelativeUnderIs(src: seq<string>, tail: seq<string>)
    requires AreNames(src) && AreNames(tail)
    ensures RelativeUnder(Rel(src), Rel(src + tail)) == Rel(tail)
  {
    TrimSlashOfRel(src);
    TrimSlashOfRel(src + tail);
    NamesOfRel(src);
    NamesOfRel(src + tail);
    if src == [] {
      assert src + tail == tail;
    } else if tail == [] {
      assert src + tail == src;
    } else {
      JoinAppend(src, tail, '/');
      var full := Rel(src + tail);
      assert full == (Rel(src) + "/") + Rel(tail);
      assert full[..|Rel(src)| + 1] == Rel(src) + "/" && full[|Rel(src)| + 1..] == Rel(tail);
    }
  }

  lemma JoinPathIs(a: seq<string>, b: seq<string>)
    requires AreNames(a) && AreNames(b) && a != [] && b != []
    ensures JoinPath(Rel(a), Rel(b)) == Rel(a + b)
  {
    RelEdges(a);
    RelEdges(b);
    JoinAppend(a, b, '/');
    NamesFree(a + b);
    SplitJoin(a + b, '/');
    ResolveReal(a + b, false, []);
    RealOfNames(a + b);
    assert Rel(a) + "/" + Rel(b) == Rel(a + b);
    assert Rel(a + b)[0] == Rel(a)[0];
    assert [] + (a + b) == a + b;
  }

  /** The segments of a target: those of the destination, then those of the file below the source. */
  function TargetNames(dst: seq<string>, src: seq<string>, tail: seq<string>): seq<string>
    requires tail == [] ==> src != []
  {
    if tail == [] && dst == [] then [src[|src| - 1]] else dst + tail
  }

  lemma TargetIs(src: seq<string>, dst: seq<string>, tail: seq<string>)
    requires AreNames(src) && AreNames(dst) && AreNames(tail) && (tail == [] ==> src != [])
    ensures Target(Rel(src), Rel(dst), Rel(src + tail)) == Rel(TargetNames(dst, src, tail))
    ensures AreNames(TargetNames(dst, src, tail)) && TargetNames(dst, src, tail) != []
  {
    RelativeUnderIs(src, tail);
    NamesOfRel(tail);
    NamesOfRel(dst);
    if tail != [] && dst != [] {
      JoinPathIs(dst, tail);
    } else if tail != [] {
      assert dst + tail == tail;
    } else if dst != [] {
      assert dst + tail == dst;
    } else {
      assert src + tail == src;
      RelEdges(src);
      NamesFree(src);
      SplitJoin(src, '/');
    }
  }

  /* ---------- Download directories ---------- */

  predicate UsesPosixRoot(root: string) {
    HasPrefix(Slashes(TrimSpace(root)), "/")
  }

  /** The directory for a download below `root`, a POSIX path of the torrent daemon. */
  function ResolveTaskDir(root: string, subdirectory: string): Result<string>
    requires UsesPosixRoot(root)
  {
    var root := Clean(Slashes(TrimSpace(root)));
    var sub := TrimSpace(subdirectory);
    if sub == "" || sub == "." then Ok(root)
    else
      var sub := Slashes(sub);
      if HasPrefix(sub, "/") then Err(InvalidInput)
      else
        var resolved := Clean(JoinPath(root, sub));
        if resolved != root && !HasPrefix(resolved, root + "/") then Err(InvalidInput) else Ok(resolved)
  }

  function RelativeTaskDir(root: string, value: string): Result<string>
    requires UsesPosixRoot(root)
  {
    var root := Clean(Slashes(TrimSpace(root)));
    var cleaned := Clean(Slashes(value));
    if cleaned == root then Ok("")
    else if !HasPrefix(cleaned, root + "/") then Err(InvalidInput)
    else Ok(TrimPrefix(cleaned, root + "/"))
  }

  /** The path that the daemon is asked to use, and that it reports back. */
  function CleanRemotePath(value: string): string {
    var value := TrimSpace(Slashes(value));
    if value == "" then ""
    else
      var cleaned := Clean(value);
      if HasPrefix(value, "/") && cleaned != "/" && !HasPrefix(cleaned, "/") then "/" + cleaned else cleaned
  }

  /** The segments of a cleaned POSIX root. */
  function RootNames(root: string): seq<string>
    requires UsesPosixRoot(root)
  {
    Resolve(Split(Slashes(TrimSpace(root)), '/'), true, [])
  }

  lemma RootIs(root: string)
    requires UsesPosixRoot(root)
    ensures AreNames(RootNames(root))
    ensures Clean(Slashes(TrimSpace(root))) == Abs(RootNames(root))
    ensures Abs(RootNames(root)) == "/" <==> RootNames(root) == []
  {
    var text := Slashes(TrimSpace(root));
    assert text[..1] == "/";
    assert text[0] == '/';
    SplitFree(text, '/');
    ResolveRootedNames(Split(text, '/'), []);
    NamesOfRel(RootNames(root));
  }

  lemma BelowIff(root: seq<string>, all: seq<string>)
    requires AreNames(root) && AreNames(all) && root != []
    ensures HasPrefix(Abs(all), Abs(root) + "/") <==> root <= all && root != all
  {
    if root <= all && root != all {
      var tail := all[|root|..];
      assert root + tail == all;
      JoinAppend(root, tail, '/');
      assert Abs(all) == (Abs(root) + "/") + Rel(tail);
    }
    if HasPrefix(Abs(all), Abs(root) + "/") {
      var k := |Abs(root)| + 1;
      assert Abs(all) == (Abs(root) + "/") + Abs(all)[k..];
      assert Abs(all)[1..] == Rel(all);
      assert Rel(all) == Rel(root) + ['/'] + Abs(all)[k..];
      SplitConcat(Rel(root), Abs(all)[k..], '/');
      NamesOfRel(root);
      NamesOfRel(all);
      assert Split(Rel(all), '/') == root + Split(Abs(all)[k..], '/');
    }
  }

  /** What an accepted subdirectory resolves to, in segments. */
  lemma ResolveTaskDirIs(root: string, sub: string)
    requires UsesPosixRoot(root) && RootNames(root) != []
    ensures AreNames(RootNames(root))
    ensures ResolveTaskDir(root, sub).Ok? ==>
      var all := Resolve(Split(Slashes(TrimSpace(sub)), '/'), true, RootNames(root));
      AreNames(all) && RootNames(root) <= all && ResolveTaskDir(root, sub).value == Abs(all)
  {
    RootIs(root);
    var names := RootNames(root);
    var text := TrimSpace(sub);
    assert Split("", '/') == [""];
    if text == "" {
      assert Slashes("") == "";
    } else if text == "." {
      assert Slashes(".") == ".";
      SplitNoSep(".", '/');
    } else {
      var inner := Slashes(text);
      CleanAbsJoin(names, inner);
      SplitFree(inner, '/');
      ResolveRootedNames(Split(inner, '/'), names);
      var all := Resolve(Split(inner, '/'), true, names);
      CleanAbs(all);
      BelowIff(names, all);
      if ResolveTaskDir(root, sub).Ok? && Abs(all) == Abs(names) {
        AbsInjective(all, names);
      }
    }
  }

  lemma {:induction false} NoBackslash(names: seq<string>)
    requires forall i :: 0 <= i < |names| ==> '\\' !in names[i]
    ensures '\\' !in Rel(names)
  {
    if |names| > 1 {
      NoBackslash(names[1..]);
    }
  }

  lemma {:induction false} ResolveChars(parts: seq<string>, out: seq<string>)
    requires forall i :: 0 <= i < |parts| ==> '\\' !in parts[i]
    requires forall i :: 0 <= i < |out| ==> '\\' !in out[i]
    ensures forall i :: 0 <= i < |Resolve(parts, true, out)| ==> '\\' !in Resolve(parts, true, out)[i]
    decreases |parts|
  {
    if parts != [] {
      ResolveChars(parts[1..], out);
      ResolveChars(parts[1..], out + [parts[0]]);
      if out != [] {
        ResolveChars(parts[1..], out[..|out| - 1]);
      }
    }
  }

  /** The segments of a download directory, all the way from the top. */
  function TaskNames(root: string, sub: string): seq<string>
    requires UsesPosixRoot(root)
  {
    Resolve(Split(Slashes(TrimSpace(sub)), '/'), true, RootNames(root))
  }

  lemma TaskNamesFree(root: string, sub: string)
    requires UsesPosixRoot(root)
    ensures forall i :: 0 <= i < |TaskNames(root, sub)| ==> '\\' !in TaskNames(root, sub)[i]
  {
    SplitChars(Slashes(TrimSpace(sub)), '\\');
    SplitChars(Slashes(TrimSpace(root)), '\\');
    ResolveChars(Split(Slashes(TrimSpace(root)), '/'), []);
    ResolveChars(Split(Slashes(TrimSpace(sub)), '/'), RootNames(root));
  }

  /** An accepted directory is the root followed by some segments. */
  lemma TaskTail(root: string, sub: string) returns (tail: seq<string>)
    requires UsesPosixRoot(root) && RootNames(root) != [] && ResolveTaskDir(root, sub).Ok?
    ensures AreNames(RootNames(root)) && AreNames(tail) && '\\' !in Rel(tail)
    ensures ResolveTaskDir(root, sub).value == Abs(RootNames(root) + tail)
  {
    ResolveTaskDirIs(root, sub);
    var all, names := TaskNames(root, sub), RootNames(root);
    tail := all[|names|..];
    assert names + tail == all;
    TaskNamesFree(root, sub);
    NoBackslash(tail);
  }

  /** The path of a proper subdirectory, as text. */
  lemma BelowText(names: seq<string>, tail: seq<string>)
    requires AreNames(names) && AreNames(tail) && names != [] && tail != []
    requires '\\' !in Abs(names) && '\\' !in Rel(tail)
    ensures Abs(names + tail) == (Abs(names) + "/") + Rel(tail)
    ensures Slashes(Abs(names + tail)) == Abs(names + tail) && Abs(names + tail) != Abs(names)
    ensures NoEdgeSpace(Rel(tail)) ==> TrimSpace(Abs(names + tail)) == Abs(names + tail)
  {
    var dir := Abs(names + tail);
    JoinAppend(names, tail, '/');
    assert dir == (Abs(names) + "/") + Rel(tail);
    assert Slashes(dir) == dir;
    RelEdges(tail);
    assert dir[0] == '/' && dir[|dir| - 1] == Rel(tail)[|Rel(tail)| - 1];
  }

  /** An absolute normal form has its own segments as the relative path, and the daemon leaves it alone. */
  lemma RelativeTaskDirIs(root: string, tail: seq<string>)
    requires UsesPosixRoot(root) && RootNames(root) != [] && AreNames(tail)
    requires '\\' !in Abs(RootNames(root)) && '\\' !in Rel(tail)
    ensures AreNames(RootNames(root))
    ensures RelativeTaskDir(root, Abs(RootNames(root) + tail)) == Ok(Rel(tail))
    ensures tail != [] ==> HasPrefix(Abs(RootNames(root) + tail), Abs(RootNames(root)) + "/")
    ensures tail != [] && NoEdgeSpace(Rel(tail)) ==>
      CleanRemotePath(Abs(RootNames(root) + tail)) == Abs(RootNames(root) + tail)
  {
    RootIs(root);
    var names := RootNames(root);
    CleanAbs(names + tail);
    if tail == [] {
      assert names + tail == names;
      assert Slashes(Abs(names)) == Abs(names);
    } else {
      BelowText(names, tail);
      BelowIff(names, names + tail);
      assert Abs(names + tail)[|Abs(names)| + 1..] == Rel(tail);
    }
  }

  /**
   An accepted download directory is the root or below it, and its path relative to the root is a normal
   form. Resolving that relative path again gives the same directory exactly when it has no white space
   at its ends; then the daemon's path normalisation leaves the directory alone too.
   */
  lemma TaskDirRoundTrip(root: string, sub: string)
    requires UsesPosixRoot(root) && RootNames(root) != [] && ResolveTaskDir(root, sub).Ok?
    ensures var dir := ResolveTaskDir(root, sub).value;
      && (dir == Abs(RootNames(root)) || HasPrefix(dir, Abs(RootNames(root)) + "/"))
      && RelativeTaskDir(root, dir).Ok?
      && var rel := RelativeTaskDir(root, dir).value;
      && AreNames(Names(rel)) && Rel(Names(rel)) == rel
      && dir == Abs(RootNames(root) + Names(rel))
      && (ResolveTaskDir(root, rel) == Ok(dir) <==> NoEdgeSpace(rel))
      && (NoEdgeSpace(rel) && rel != "" ==> CleanRemotePath(dir) == dir)
  {
    var tail := TaskTail(root, sub);
    var names := RootNames(root);
    SplitChars(Slashes(TrimSpace(root)), '\\');
    ResolveChars(Split(Slashes(TrimSpace(root)), '/'), []);
    NoBackslash(names);
    RootIs(root);
    RelativeTaskDirIs(root, tail);
    NamesOfRel(tail);
    if tail == [] {
      assert names + tail == names;
    } else {
      RelativeRoundTrip(root, tail);
    }
  }

  /** The part of the round trip below the root. */
  lemma RelativeRoundTrip(root: string, tail: seq<string>)
    requires UsesPosixRoot(root) && RootNames(root) != [] && AreNames(tail) && tail != []
    requires '\\' !in Rel(tail)
    ensures ResolveTaskDir(root, Rel(tail)) == Ok(Abs(RootNames(root) + tail)) <==> NoEdgeSpace(Rel(tail))
  {
    var names, rel := RootNames(root), Rel(tail);
    RootIs(root);
    RelEdges(tail);
    var text := TrimSpace(rel);
    if NoEdgeSpace(rel) {
      assert Slashes(rel) == rel;
      CleanAbsJoin(names, rel);
      NamesOfRel(tail);
      NamesFree(tail);
      ResolveReal(tail, true, names);
      RealOfNames(tail);
      CleanAbs(names + tail);
      BelowIff(names, names + tail);
    } else if ResolveTaskDir(root, rel).Ok? {
      assert |text| < |rel|;
      ResolveTaskDirIs(root, rel);
      var parts := Split(Slashes(text), '/');
      var other := Resolve(parts, true, names);
      ResolveShrinks(parts, true, names);
      JoinSplit(Slashes(text), '/');
      JoinSize(parts);
      JoinSize(tail);
      SizeAppend(names, tail);
      if Abs(other) == Abs(names + tail) {
        AbsInjective(other, names + tail);
      }
    }
  }

  /** A path other than "/" does not lie below "//". */
  lemma NotBelowSlash(all: seq<string>)
    requires AreNames(all)
    ensures !HasPrefix(Abs(all), "/" + "/")
    ensures Abs(all) == "/" <==> all == []
  {
    NamesOfRel(all);
    if all != [] {
      RelEdges(all);
      assert Abs(all)[1] == Rel(all)[0] && ("/" + "/")[1] == '/';
    }
  }

  /**
   A subdirectory is accepted exactly when it is blank or a single dot, or is relative and leads to the root
   or, for a root other than "/", below it.
   */
  lemma TaskDirAcceptedIff(root: string, sub: string)
    requires UsesPosixRoot(root)
    ensures var text := TrimSpace(sub);
      ResolveTaskDir(root, sub).Ok? <==>
        text == "" || text == "." ||
        (!HasPrefix(Slashes(text), "/") &&
          (TaskNames(root, sub) == RootNames(root) ||
            (RootNames(root) != [] && RootNames(root) <= TaskNames(root, sub))))
  {
    RootIs(root);
    var names, inner := RootNames(root), Slashes(TrimSpace(sub));
    CleanAbsJoin(names, inner);
    SplitFree(inner, '/');
    ResolveRootedNames(Split(inner, '/'), names);
    var all := TaskNames(root, sub);
    CleanAbs(all);
    NotBelowSlash(all);
    if names != [] {
      BelowIff(names, all);
    }
    if Abs(all) == Abs(names) {
      AbsInjective(all, names);
    }
  }

  /** With the root "/", however it is spelled, nothing is accepted that leads anywhere else. */
  lemma SlashRootRejects(root: string, sub: string)
    requires UsesPosixRoot(root) && RootNames(root) == []
    requires !HasPrefix(Slashes(TrimSpace(sub)), "/")
    ensures ResolveTaskDir(root, sub).Ok? <==> TaskNames(root, sub) == []
  {
    TaskDirAcceptedIff(root, sub);
    var text := TrimSpace(sub);
    SplitNoSep("", '/');
    SplitNoSep(".", '/');
    assert Slashes("") == "" && Slashes(".") == ".";
    assert text == "" ==> Split(Slashes(text), '/') == [""];
    assert text == "." ==> Split(Slashes(text), '/') == ["."];
  }

  /** A path with dots around it, which keep its ends from being trimmed. */
  function Shielded(names: seq<string>): string { "./" + Rel(names) + "/." }

  lemma ShieldedText(names: seq<string>)
    requires AreNames(names) && names != [] && '\\' !in Rel(names)
    ensures TrimSpace(Slashes(Shielded(names))) == Slashes(Shielded(names)) == Shielded(names)
    ensures TrimSlashes(Shielded(names)) == Shielded(names) && TrimSpace(Shielded(names)) == Shielded(names)
    ensures Split(Shielded(names), '/') == ["."] + names + ["."]
    ensures Real(["."] + names + ["."]) == names && ".." !in ["."] + names + ["."]
    ensures AreNames(Real(["."] + names + ["."]))
  {
    var text := Shielded(names);
    assert text[0] == '.' && text[|text| - 1] == '.';
    assert Slashes(text) == text;
    assert text == ("." + ['/'] + Rel(names)) + ['/'] + ".";
    SplitConcat("." + ['/'] + Rel(names), ".", '/');
    SplitConcat(".", Rel(names), '/');
    SplitNoSep(".", '/');
    NamesOfRel(names);
    NamesFree(names);
    RealAppend(["."] + names, ["."]);
    RealAppend(["."], names);
    RealOfNames(names);
    assert ["."][1..] == [];
    assert [] + names == names && names + [] == names;
  }

  /**
   Every normal form without a backslash is what some input is cleaned to, so those with white space at an
   end, which the next cleaning changes, do come up: as a path, in a sync rule and as a download directory.
   */
  lemma EveryFormComesUp(names: seq<string>)
    requires AreNames(names) && names != [] && '\\' !in Rel(names)
    ensures RelativeForm(Shielded(names)) == Ok(Rel(names))
    ensures SyncForm(Shielded(names)) == Ok(Rel(names))
  {
    ShieldedText(names);
    var text := Shielded(names);
    assert |text| > 2;
  }

  lemma EveryTaskDirComesUp(root: string, names: seq<string>)
    requires UsesPosixRoot(root) && RootNames(root) != []
    requires AreNames(names) && names != [] && '\\' !in Rel(names)
    ensures ResolveTaskDir(root, Shielded(names)) == Ok(Abs(RootNames(root) + names))
    ensures RelativeTaskDir(root, Abs(RootNames(root) + names)) == Ok(Rel(names))
    ensures ResolveTaskDir(root, Rel(names)) == Ok(Abs(RootNames(root) + names)) <==> NoEdgeSpace(Rel(names))
  {
    ShieldedText(names);
    var parts := ["."] + names + ["."];
    assert !HasPrefix(Shielded(names), "/") by { assert Shielded(names)[0] == '.'; }
    ResolveReal(parts, true, RootNames(root));
    TaskDirAcceptedIff(root, Shielded(names));
    ResolveTaskDirIs(root, Shielded(names));
    SplitChars(Slashes(TrimSpace(root)), '\\');
    ResolveChars(Split(Slashes(TrimSpace(root)), '/'), []);
    NoBackslash(RootNames(root));
    RelativeTaskDirIs(root, names);
    RelativeRoundTrip(root, names);
  }
}
