/** The lock that keeps the same source file from being copied twice at once to the same destination. */
module TransferLocks {
  import opened Text

  const NUL := '\0'

  /** One copy: from a path of one backend to a path of another. */
  datatype Transfer = Transfer(srcBackend: string, srcPath: string, dstBackend: string, dstPath: string)
  {
    function Trimmed(): Transfer {
      Transfer(TrimSpace(srcBackend), TrimSpace(srcPath), TrimSpace(dstBackend), TrimSpace(dstPath))
    }

    /** No NUL in front of the destination path. */
    predicate Plain() {
      NUL !in srcBackend && NUL !in srcPath && NUL !in dstBackend
    }

    /** As many NULs in each field, the destination path left aside. */
    predicate NulsAs(other: Transfer) {
      && Count(srcBackend, NUL) == Count(other.srcBackend, NUL)
      && Count(srcPath, NUL) == Count(other.srcPath, NUL)
      && Count(dstBackend, NUL) == Count(other.dstBackend, NUL)
    }

    function Parts(): seq<string> { [srcBackend, srcPath, dstBackend, dstPath] }
  }

  /** The same backends and paths on both sides, but for white space around them. */
  predicate Same(a: Transfer, b: Transfer) {
    && TrimSpace(a.srcBackend) == TrimSpace(b.srcBackend) && TrimSpace(a.srcPath) == TrimSpace(b.srcPath)
    && TrimSpace(a.dstBackend) == TrimSpace(b.dstBackend) && TrimSpace(a.dstPath) == TrimSpace(b.dstPath)
  }

  function Key(t: Transfer): string { Join(t.Trimmed().Parts(), NUL) }

  class TransferLock {
    var active: set<string>

    constructor ()
      ensures active == {}
    {
      active := {};
    }

    /** Reserves a transfer; false means that the same one is in flight. */
    method TryBegin(t: Transfer) returns (ok: bool)
      modifies this
      ensures ok <==> Key(t) !in old(active)
      ensures active == old(active) + {Key(t)}
    {
      var key := Key(t);
      if key in active {
        return false;
      }
      active := active + {key};
      return true;
    }

    /** The release handed out by a successful TryBegin. */
    method Release(t: Transfer)
      modifies this
      ensures active == old(active) - {Key(t)}
    {
      active := active - {Key(t)};
    }
  }

  lemma SplitKey(t: Transfer)
    ensures Split(Join(t.Parts(), NUL), NUL)
         == Split(t.srcBackend, NUL) + (Split(t.srcPath, NUL) + (Split(t.dstBackend, NUL) + Split(t.dstPath, NUL)))
  {
    var tail3, tail2 := t.dstBackend + [NUL] + t.dstPath, t.srcPath + [NUL] + (t.dstBackend + [NUL] + t.dstPath);
    SplitConcat(t.dstBackend, t.dstPath, NUL);
    SplitConcat(t.srcPath, tail3, NUL);
    SplitConcat(t.srcBackend, tail2, NUL);
    assert t.Parts()[1..] == [t.srcPath, t.dstBackend, t.dstPath];
    assert t.Parts()[1..][1..] == [t.dstBackend, t.dstPath];
    assert t.Parts()[1..][1..][1..] == [t.dstPath];
    assert Join(t.Parts(), NUL) == t.srcBackend + [NUL] + tail2;
  }

  lemma SameHeads(a: seq<string>, b: seq<string>, rest: seq<string>, others: seq<string>)
    requires a + rest == b + others && |a| == |b|
    ensures a == b && rest == others
  {
    assert a == (a + rest)[..|a|] && b == (b + others)[..|b|];
    assert rest == (a + rest)[|a|..] && others == (b + others)[|b|..];
  }

  lemma SameText(a: string, b: string)
    requires Split(a, NUL) == Split(b, NUL)
    ensures a == b
  {
    JoinSplit(a, NUL);
    JoinSplit(b, NUL);
  }

  /** Joined texts are equal for equal fields only, if the fields hold as many NULs. */
  lemma JoinedAgree(x: Transfer, y: Transfer)
    requires Join(x.Parts(), NUL) == Join(y.Parts(), NUL) && x.NulsAs(y)
    ensures x == y
  {
    SplitKey(x);
    SplitKey(y);
    SplitCount(x.srcBackend, NUL);
    SplitCount(y.srcBackend, NUL);
    SplitCount(x.srcPath, NUL);
    SplitCount(y.srcPath, NUL);
    SplitCount(x.dstBackend, NUL);
    SplitCount(y.dstBackend, NUL);
    var x3, y3 := Split(x.dstBackend, NUL) + Split(x.dstPath, NUL), Split(y.dstBackend, NUL) + Split(y.dstPath, NUL);
    SameHeads(Split(x.srcBackend, NUL), Split(y.srcBackend, NUL), Split(x.srcPath, NUL) + x3, Split(y.srcPath, NUL) + y3);
    SameHeads(Split(x.srcPath, NUL), Split(y.srcPath, NUL), x3, y3);
    SameHeads(Split(x.dstBackend, NUL), Split(y.dstBackend, NUL), Split(x.dstPath, NUL), Split(y.dstPath, NUL));
    SameText(x.srcBackend, y.srcBackend);
    SameText(x.srcPath, y.srcPath);
    SameText(x.dstBackend, y.dstBackend);
    SameText(x.dstPath, y.dstPath);
  }

  lemma TrimmedNuls(t: Transfer)
    ensures t.Trimmed().NulsAs(t)
  {
    TrimSpaceKeepsCount(t.srcBackend, NUL);
    TrimSpaceKeepsCount(t.srcPath, NUL);
    TrimSpaceKeepsCount(t.dstBackend, NUL);
  }

  /**
   Two transfers with one key are the same one, up to white space, exactly when the backends and the source
   path hold as many NULs in both. What the destination path holds never matters.
   */
  lemma SameTransferIff(a: Transfer, b: Transfer)
    requires Key(a) == Key(b)
    ensures Same(a, b) <==> a.NulsAs(b)
  {
    TrimmedNuls(a);
    TrimmedNuls(b);
    if a.NulsAs(b) {
      JoinedAgree(a.Trimmed(), b.Trimmed());
    }
  }

  /** Without NULs there, keys are equal exactly for equal transfers, up to white space. */
  lemma KeyInjective(a: Transfer, b: Transfer)
    requires a.Plain() && b.Plain()
    ensures Key(a) == Key(b) <==> Same(a, b)
  {
    CountNone(a.srcBackend, NUL);
    CountNone(a.srcPath, NUL);
    CountNone(a.dstBackend, NUL);
    CountNone(b.srcBackend, NUL);
    CountNone(b.srcPath, NUL);
    CountNone(b.dstBackend, NUL);
    if Key(a) == Key(b) {
      SameTransferIff(a, b);
    }
  }

  /* ---------- All interleavings of copies ---------- */

  /**
   `flights` are the copies between a successful TryBegin and their release, by the copier that runs them,
   and `held` the keys that their releases will give back.
   */
  datatype State = State(active: set<string>, held: map<nat, string>, flights: map<nat, Transfer>)

  datatype Action = Try(copier: nat, transfer: Transfer) | End(copier: nat)

  const IDLE := State({}, map[], map[])

  /** A copier runs one copy at a time, and releases what it reserved once. */
  predicate Enabled(s: State, a: Action) {
    match a
    case Try(copier, _) => copier !in s.held
    case End(copier) => copier in s.held
  }

  function Apply(s: State, a: Action): State
    requires Enabled(s, a)
  {
    match a
    case Try(copier, transfer) => Begin(s, copier, transfer, Key(transfer))
    case End(copier) => State(s.active - {s.held[copier]}, s.held - {copier}, s.flights - {copier})
  }

  function Begin(s: State, copier: nat, transfer: Transfer, key: string): State {
    if key in s.active then s
    else State(s.active + {key}, s.held[copier := key], s.flights[copier := transfer])
  }

  ghost predicate Run(s: State, actions: seq<Action>, t: State)
    decreases |actions|
  {
    if actions == [] then s == t
    else Enabled(s, actions[0]) && Run(Apply(s, actions[0]), actions[1..], t)
  }

  ghost predicate HeldOnce(s: State) {
    && s.active == s.held.Values
    && forall c, d :: c in s.held && d in s.held && c != d ==> s.held[c] != s.held[d]
  }

  ghost predicate Tagged(s: State) {
    && s.held.Keys == s.flights.Keys
    && forall c :: c in s.flights ==> s.held[c] == Key(s.flights[c])
  }

  lemma BeginKeeps(s: State, copier: nat, transfer: Transfer, key: string)
    requires HeldOnce(s) && copier !in s.held
    ensures HeldOnce(Begin(s, copier, transfer, key))
  {
    var t := Begin(s, copier, transfer, key);
    forall k | k in t.active
      ensures k in t.held.Values
    {
      if k in s.active {
        var c :| c in s.held && s.held[c] == k;
        assert t.held[c] == k;
      } else {
        assert t.held[copier] == k;
      }
    }
  }

  lemma EndKeeps(s: State, copier: nat)
    requires HeldOnce(s) && copier in s.held
    ensures HeldOnce(Apply(s, End(copier)))
  {
    var t := Apply(s, End(copier));
    forall k | k in t.active
      ensures k in t.held.Values
    {
      var c :| c in s.held && s.held[c] == k;
      assert c in t.held && t.held[c] == k;
    }
  }

  lemma StepTagged(s: State, a: Action)
    requires Tagged(s) && Enabled(s, a)
    ensures Tagged(Apply(s, a))
  {
  }

  lemma StepHeldOnce(s: State, a: Action)
    requires HeldOnce(s) && Enabled(s, a)
    ensures HeldOnce(Apply(s, a))
  {
    match a
    case Try(copier, transfer) => BeginKeeps(s, copier, transfer, Key(transfer));
    case End(copier) => EndKeeps(s, copier);
  }

  lemma {:induction false} RunKeeps(s: State, actions: seq<Action>, t: State)
    requires HeldOnce(s) && Tagged(s) && Run(s, actions, t)
    ensures HeldOnce(t) && Tagged(t)
    decreases |actions|
  {
    if actions != [] {
      var m := Apply(s, actions[0]);
      StepTagged(s, actions[0]);
      StepHeldOnce(s, actions[0]);
      RunKeeps(m, actions[1..], t);
    }
  }

  ghost predicate InFlight(t: State, x: Transfer) {
    exists c :: c in t.flights && Same(t.flights[c], x)
  }

  /** Some copy in flight has the key of `x`. */
  ghost predicate KeyInFlight(t: State, x: Transfer) {
    exists c :: c in t.flights && Key(t.flights[c]) == Key(x)
  }

  /**
   In every interleaving, the reserved keys are exactly those of the copies in flight, no two copies in
   flight agree on backend and path on both sides, and a try is refused exactly when a copy in flight has
   its key.
   */
  lemma OneCopyPerTransfer(actions: seq<Action>, t: State)
    requires Run(IDLE, actions, t)
    ensures forall k :: k in t.active <==> exists c :: c in t.flights && Key(t.flights[c]) == k
    ensures forall c, d :: c in t.flights && d in t.flights && c != d ==>
      Key(t.flights[c]) != Key(t.flights[d]) && !Same(t.flights[c], t.flights[d])
    ensures forall x: Transfer :: Key(x) in t.active <==> KeyInFlight(t, x)
  {
    RunKeeps(IDLE, actions, t);
    ActiveAreHeld(t);
    forall x: Transfer
      ensures Key(x) in t.active <==> KeyInFlight(t, x)
    {
    }
  }

  lemma ActiveAreHeld(t: State)
    requires HeldOnce(t) && Tagged(t)
    ensures forall k :: k in t.active <==> exists c :: c in t.flights && Key(t.flights[c]) == k
  {
    forall k
      ensures k in t.active <==> exists c :: c in t.flights && Key(t.flights[c]) == k
    {
      if k in t.active {
        var c :| c in t.held && t.held[c] == k;
        assert c in t.flights && Key(t.flights[c]) == k;
      }
      if c :| c in t.flights && Key(t.flights[c]) == k {
        assert t.held[c] == k;
      }
    }
  }

  /** Where nothing is odd about the names, that is exactly when the same transfer is in flight. */
  lemma RefusedIff(actions: seq<Action>, t: State, x: Transfer)
    requires Run(IDLE, actions, t)
    requires x.Plain() && forall c :: c in t.flights ==> t.flights[c].Plain()
    ensures Key(x) in t.active <==> InFlight(t, x)
  {
    RunKeeps(IDLE, actions, t);
    ActiveAreHeld(t);
    if Key(x) in t.active {
      var c :| c in t.flights && Key(t.flights[c]) == Key(x);
      KeyInjective(t.flights[c], x);
    }
    if InFlight(t, x) {
      var c :| c in t.flights && Same(t.flights[c], x);
      assert Key(t.flights[c]) == Key(x);
    }
  }

  /** An instance where the counts differ: two different transfers share a key. */
  lemma NulMakesKeysCollide()
    ensures var a := Transfer("s", "x\0d", "e", "y"); var b := Transfer("s", "x", "d", "e\0y");
      !Same(a, b) && Key(a) == Key(b)
  {
  }
}
